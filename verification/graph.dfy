/** The graph projector (App.tsx:142-190): a node and link list derived from
    the files, the entities and the filter flags, without changing any of them. */
module Graph {
  import opened Types
  import opened Registry
  import opened Pipeline
  import opened Filters

  datatype NodeKind = DocumentNode | EntityNode(category: EntityType)

  /** A board node (types.ts:43-55), without the layout coordinates. */
  datatype Node = Node(
    id: string,
    kind: NodeKind,
    name: string,
    group: int,
    val: int,
    context: Option<string>,
    sourceDocIds: Option<seq<string>>)

  /** A board edge from a document to an entity (types.ts:57-61). */
  datatype Link = Link(source: string, target: string, value: int)

  /** The node of an analyzed document (App.tsx:149-156). */
  function DocNode(f: CaseFile): Node
  {
    Node(f.id, DocumentNode, f.name, 1, 20, f.content, None)
  }

  /** The node of a visible entity (App.tsx:169-177). */
  function NodeOf(e: Entity): Node
  {
    Node(e.id, EntityNode(e.category), e.name, 2, 10, Some(e.context), Some(e.sourceDocIds))
  }

  /** Step 1 (App.tsx:147-158): one node per analyzed file. */
  function DocNodes(fs: seq<CaseFile>): (r: seq<Node>)
    ensures |r| <= |fs|
    ensures forall n :: n in r <==> exists j :: 0 <= j < |fs| && fs[j].status == Analyzed && n == DocNode(fs[j])
  {
    if fs == [] then []
    else
      var last := fs[|fs| - 1];
      var r := DocNodes(fs[..|fs| - 1]) + (if last.status == Analyzed then [DocNode(last)] else []);
      assert forall j :: 0 <= j < |fs| - 1 ==> fs[..|fs| - 1][j] == fs[j];
      r
  }

  /** `activeDocs` (App.tsx:166): the source ids that name an analyzed file. */
  function ActiveDocs(fs: seq<CaseFile>, ids: seq<string>): (r: seq<string>)
    ensures |r| <= |ids|
    ensures forall x :: x in r <==> x in ids && IsAnalyzedId(fs, x)
  {
    if ids == [] then []
    else
      var last := ids[|ids| - 1];
      assert ids == ids[..|ids| - 1] + [last];
      ActiveDocs(fs, ids[..|ids| - 1]) + (if IsAnalyzedId(fs, last) then [last] else [])
  }

  /** An entity gets a node when its category is shown and one of its documents is analyzed. */
  predicate Shown(fs: seq<CaseFile>, flt: FilterState, e: Entity)
  {
    flt.Shows(e.category) && ActiveDocs(fs, e.sourceDocIds) != []
  }

  /** The links of one shown entity: one per analyzed source document (App.tsx:179-185). */
  function LinksOf(e: Entity, active: seq<string>): (r: seq<Link>)
    ensures |r| == |active|
    ensures forall k :: 0 <= k < |r| ==> r[k] == Link(active[k], e.id, 1)
  {
    seq(|active|, k requires 0 <= k < |active| => Link(active[k], e.id, 1))
  }

  /** Step 2, nodes (App.tsx:161-177). */
  function EntityNodes(fs: seq<CaseFile>, es: seq<Entity>, flt: FilterState): (r: seq<Node>)
    ensures |r| <= |es|
    ensures forall n :: n in r <==> exists i :: 0 <= i < |es| && Shown(fs, flt, es[i]) && n == NodeOf(es[i])
  {
    if es == [] then []
    else
      var last := es[|es| - 1];
      assert forall i :: 0 <= i < |es| - 1 ==> es[..|es| - 1][i] == es[i];
      EntityNodes(fs, es[..|es| - 1], flt) + (if Shown(fs, flt, last) then [NodeOf(last)] else [])
  }

  /** Step 2, links (App.tsx:179-185). */
  function EntityLinks(fs: seq<CaseFile>, es: seq<Entity>, flt: FilterState): (r: seq<Link>)
    ensures forall l :: l in r <==>
      exists i :: 0 <= i < |es| && Shown(fs, flt, es[i]) && l.target == es[i].id && l.value == 1
        && l.source in es[i].sourceDocIds && IsAnalyzedId(fs, l.source)
  {
    if es == [] then []
    else
      var last := es[|es| - 1];
      var links := LinksOf(last, ActiveDocs(fs, last.sourceDocIds));
      assert forall i :: 0 <= i < |es| - 1 ==> es[..|es| - 1][i] == es[i];
      assert forall l: Link :: l in links <==> l.target == last.id && l.value == 1 && l.source in ActiveDocs(fs, last.sourceDocIds) by {
        forall l | l in links ensures l.source in ActiveDocs(fs, last.sourceDocIds) {
          var k :| 0 <= k < |links| && links[k] == l;
        }
        forall l: Link | l.target == last.id && l.value == 1 && l.source in ActiveDocs(fs, last.sourceDocIds)
          ensures l in links
        {
          var active := ActiveDocs(fs, last.sourceDocIds);
          var k :| 0 <= k < |active| && active[k] == l.source;
          assert links[k] == l;
        }
      }
      EntityLinks(fs, es[..|es| - 1], flt) + (if Shown(fs, flt, last) then links else [])
  }

  /** The `useMemo` body (App.tsx:142-190), pushing into local node and link lists. */
  method ProjectGraph(fs: seq<CaseFile>, es: seq<Entity>, flt: FilterState) returns (nodes: seq<Node>, links: seq<Link>)
    ensures nodes == DocNodes(fs) + EntityNodes(fs, es, flt)
    ensures links == EntityLinks(fs, es, flt)
  {
    nodes, links := [], [];
    var j := 0;
    while j < |fs|
      invariant 0 <= j <= |fs|
      invariant nodes == DocNodes(fs[..j])
    {
      if fs[j].status == Analyzed {
        nodes := nodes + [DocNode(fs[j])];
      }
      assert fs[..j + 1][..j] == fs[..j];
      j := j + 1;
    }
    assert fs[..j] == fs;
    ghost var docs := nodes;
    var i := 0;
    while i < |es|
      invariant 0 <= i <= |es|
      invariant nodes == docs + EntityNodes(fs, es[..i], flt)
      invariant links == EntityLinks(fs, es[..i], flt)
    {
      var e := es[i];
      ghost var pre := es[..i];
      assert es[..i + 1] == pre + [e];
      assert (pre + [e])[..|pre|] == pre;
      ghost var shown := Shown(fs, flt, e);
      assert EntityNodes(fs, es[..i + 1], flt) == EntityNodes(fs, pre, flt) + (if shown then [NodeOf(e)] else []);
      assert EntityLinks(fs, es[..i + 1], flt)
        == EntityLinks(fs, pre, flt) + (if shown then LinksOf(e, ActiveDocs(fs, e.sourceDocIds)) else []);
      if flt.Shows(e.category) {
        var active := ActiveDocs(fs, e.sourceDocIds);
        if |active| > 0 {
          nodes := nodes + [NodeOf(e)];
          links := PushLinks(links, e, active);
        }
      }
      i := i + 1;
    }
    assert es[..i] == es;
  }

  /** `activeDocs.forEach(docId => links.push(...))` (App.tsx:179-185). */
  method PushLinks(links: seq<Link>, e: Entity, active: seq<string>) returns (r: seq<Link>)
    ensures r == links + LinksOf(e, active)
  {
    r := links;
    var k := 0;
    while k < |active|
      invariant 0 <= k <= |active|
      invariant r == links + LinksOf(e, active[..k])
    {
      r := r + [Link(active[k], e.id, 1)];
      k := k + 1;
    }
    assert active[..k] == active;
  }

  /** Every link starts at an emitted document node and ends at an emitted
      entity node; a file that is not analyzed yields no node and no link. */
  lemma NoDanglingLinks(fs: seq<CaseFile>, es: seq<Entity>, flt: FilterState)
    ensures forall l :: l in EntityLinks(fs, es, flt) ==>
      (exists n :: n in DocNodes(fs) && n.id == l.source) && (exists n :: n in EntityNodes(fs, es, flt) && n.id == l.target)
    ensures forall x :: !IsAnalyzedId(fs, x) ==>
      (forall n :: n in DocNodes(fs) ==> n.id != x) && (forall l :: l in EntityLinks(fs, es, flt) ==> l.source != x)
  {
    forall l | l in EntityLinks(fs, es, flt)
      ensures (exists n :: n in DocNodes(fs) && n.id == l.source) && (exists n :: n in EntityNodes(fs, es, flt) && n.id == l.target)
    {
      var i :| 0 <= i < |es| && Shown(fs, flt, es[i]) && l.target == es[i].id && l.value == 1
        && l.source in es[i].sourceDocIds && IsAnalyzedId(fs, l.source);
      var j :| 0 <= j < |fs| && fs[j].id == l.source && fs[j].status == Analyzed;
      assert DocNode(fs[j]) in DocNodes(fs);
      assert NodeOf(es[i]) in EntityNodes(fs, es, flt);
    }
  }

  /** Document nodes are the analyzed files, in file order. */
  lemma {:induction false} DocNodesInFileOrder(fs: seq<CaseFile>)
    ensures var a := AnalyzedFiles(fs);
      |DocNodes(fs)| == |a| && forall k :: 0 <= k < |a| ==> DocNodes(fs)[k] == DocNode(a[k])
  {
    if fs != [] {
      DocNodesInFileOrder(fs[..|fs| - 1]);
    }
  }

  /** Under the store invariants every entity has an analyzed document, so it
      is shown exactly when its category is, and links to all its documents. */
  lemma ConsistentStoreShown(fs: seq<CaseFile>, es: seq<Entity>, flt: FilterState, i: nat)
    requires Consistent(fs, es) && i < |es|
    ensures ActiveDocs(fs, es[i].sourceDocIds) == es[i].sourceDocIds
    ensures Shown(fs, flt, es[i]) <==> flt.Shows(es[i].category)
  {
    AllActive(fs, es[i].sourceDocIds);
  }

  lemma {:induction false} AllActive(fs: seq<CaseFile>, ids: seq<string>)
    requires forall x :: x in ids ==> IsAnalyzedId(fs, x)
    ensures ActiveDocs(fs, ids) == ids
  {
    if ids != [] {
      AllActive(fs, ids[..|ids| - 1]);
      assert ids == ids[..|ids| - 1] + [ids[|ids| - 1]];
    }
  }

  /** The entities of the store not of category `t`, in store order. */
  function WithoutCategory(es: seq<Entity>, t: EntityType): (r: seq<Entity>)
    ensures forall e :: e in r <==> e in es && e.category != t
  {
    if es == [] then []
    else
      var last := es[|es| - 1];
      assert es == es[..|es| - 1] + [last];
      WithoutCategory(es[..|es| - 1], t) + (if last.category != t then [last] else [])
  }

  /** Switching category `t` off hides exactly its nodes and links: the
      projection is the one of the store without the entities of `t`. Toggling
      back restores the original projection (Filters.ToggleTwice). */
  lemma {:induction false} FilterOffRemovesCategory(fs: seq<CaseFile>, es: seq<Entity>, flt: FilterState, t: EntityType)
    requires flt.Shows(t)
    ensures EntityNodes(fs, es, flt.Toggle(t)) == EntityNodes(fs, WithoutCategory(es, t), flt)
    ensures EntityLinks(fs, es, flt.Toggle(t)) == EntityLinks(fs, WithoutCategory(es, t), flt)
  {
    if es != [] {
      var init, last := es[..|es| - 1], es[|es| - 1];
      FilterOffRemovesCategory(fs, init, flt, t);
      var w := WithoutCategory(init, t);
      if last.category != t {
        assert WithoutCategory(es, t) == w + [last];
        assert (w + [last])[..|w + [last]| - 1] == w;
      } else {
        assert WithoutCategory(es, t) == w;
      }
    }
  }

  /** Reference count of the links: the number of analyzed source documents
      summed over the shown entities. */
  function ActiveLinkCount(fs: seq<CaseFile>, es: seq<Entity>, flt: FilterState): nat
  {
    if es == [] then 0
    else
      var last := es[|es| - 1];
      ActiveLinkCount(fs, es[..|es| - 1], flt) + (if Shown(fs, flt, last) then |ActiveDocs(fs, last.sourceDocIds)| else 0)
  }

  /** The number of source documents summed over the entities of shown categories. */
  function SourceCount(es: seq<Entity>, flt: FilterState): nat
  {
    if es == [] then 0
    else
      var last := es[|es| - 1];
      SourceCount(es[..|es| - 1], flt) + (if flt.Shows(last.category) then |last.sourceDocIds| else 0)
  }

  /** The projection emits exactly one link per analyzed source document of
      each shown entity, no more (App.tsx:179-185). */
  lemma {:induction false} EntityLinksCount(fs: seq<CaseFile>, es: seq<Entity>, flt: FilterState)
    ensures |EntityLinks(fs, es, flt)| == ActiveLinkCount(fs, es, flt)
  {
    if es != [] {
      EntityLinksCount(fs, es[..|es| - 1], flt);
    }
  }

  lemma {:induction false} AnalyzedSourcesCount(fs: seq<CaseFile>, es: seq<Entity>, flt: FilterState)
    requires forall i, x :: 0 <= i < |es| && x in es[i].sourceDocIds ==> IsAnalyzedId(fs, x)
    ensures ActiveLinkCount(fs, es, flt) == SourceCount(es, flt)
  {
    if es != [] {
      var init, last := es[..|es| - 1], es[|es| - 1];
      assert forall i :: 0 <= i < |init| ==> init[i] == es[i];
      AnalyzedSourcesCount(fs, init, flt);
      AllActive(fs, last.sourceDocIds);
    }
  }

  /** Under the store invariants, the link count is the number of source
      documents of the entities whose category is shown. */
  lemma ConsistentLinkCount(fs: seq<CaseFile>, es: seq<Entity>, flt: FilterState)
    requires Consistent(fs, es)
    ensures |EntityLinks(fs, es, flt)| == SourceCount(es, flt)
  {
    EntityLinksCount(fs, es, flt);
    AnalyzedSourcesCount(fs, es, flt);
  }

  /** Reference count of the entity nodes: the number of shown entities. */
  function ShownCount(fs: seq<CaseFile>, es: seq<Entity>, flt: FilterState): nat
  {
    if es == [] then 0
    else ShownCount(fs, es[..|es| - 1], flt) + (if Shown(fs, flt, es[|es| - 1]) then 1 else 0)
  }

  /** The number of entities whose category is shown. */
  function ShowsCount(es: seq<Entity>, flt: FilterState): nat
  {
    if es == [] then 0
    else ShowsCount(es[..|es| - 1], flt) + (if flt.Shows(es[|es| - 1].category) then 1 else 0)
  }

  /** The projection emits exactly one node per shown entity, no more
      (App.tsx:168-177). */
  lemma {:induction false} EntityNodesCount(fs: seq<CaseFile>, es: seq<Entity>, flt: FilterState)
    ensures |EntityNodes(fs, es, flt)| == ShownCount(fs, es, flt)
  {
    if es != [] {
      EntityNodesCount(fs, es[..|es| - 1], flt);
    }
  }

  lemma {:induction false} ConsistentShownCount(fs: seq<CaseFile>, es: seq<Entity>, flt: FilterState)
    requires Consistent(fs, es)
    ensures ShownCount(fs, es, flt) == ShowsCount(es, flt)
  {
    if es != [] {
      var init := es[..|es| - 1];
      assert forall i :: 0 <= i < |init| ==> init[i] == es[i];
      ConsistentShownCount(fs, init, flt);
      ConsistentStoreShown(fs, es, flt, |es| - 1);
    }
  }

  /** Under the store invariants, the number of entity nodes is the number of
      entities whose category is shown. */
  lemma ConsistentNodeCount(fs: seq<CaseFile>, es: seq<Entity>, flt: FilterState)
    requires Consistent(fs, es)
    ensures |EntityNodes(fs, es, flt)| == ShowsCount(es, flt)
  {
    EntityNodesCount(fs, es, flt);
    ConsistentShownCount(fs, es, flt);
  }
}
