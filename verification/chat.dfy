/** The context sent with a chat question (App.tsx:125-134): one record per
    analyzed file, listing the entities that cite it as `name (TYPE)`. */
module Chat {
  import opened Types
  import opened Registry

  datatype ContextDoc = ContextDoc(name: string, summary: Option<string>, extractedData: string)

  /** The enum's string values (types.ts:4-8). */
  function CategoryName(t: EntityType): (r: string)
    ensures r != ""
  {
    match t
    case Person => "PERSON"
    case Organization => "ORGANIZATION"
    case Location => "LOCATION"
    case Date => "DATE"
    case Event => "EVENT"
  }

  /** `${e.name} (${e.type})` (App.tsx:132). */
  function Describe(e: Entity): (r: string)
    ensures |r| > |e.name| && r[..|e.name|] == e.name
  {
    e.name + " (" + CategoryName(e.category) + ")"
  }

  /** Distinct categories have distinct names. */
  lemma CategoryNameInjective(t: EntityType, u: EntityType)
    ensures CategoryName(t) == CategoryName(u) <==> t == u
  {
  }

  /** Two entities of one name get the same description exactly when they are
      of the same category, so the `(TYPE)` tag tells them apart. */
  lemma DescribeTellsCategories(e: Entity, f: Entity)
    requires e.name == f.name
    ensures Describe(e) == Describe(f) <==> e.category == f.category
  {
    var n := |e.name| + 2;
    if Describe(e) == Describe(f) {
      var a, b := CategoryName(e.category), CategoryName(f.category);
      assert |a| == |b|;
      assert a == Describe(e)[n..n + |a|];
      assert b == Describe(f)[n..n + |b|];
      CategoryNameInjective(e.category, f.category);
    }
  }

  /** `entities.filter(e => e.sourceDocIds.includes(id))` (App.tsx:131), in store order. */
  function Mentioning(es: seq<Entity>, id: string): (r: seq<Entity>)
    ensures |r| <= |es|
    ensures forall e :: e in r <==> e in es && id in e.sourceDocIds
  {
    if es == [] then []
    else
      assert es == [es[0]] + es[1..];
      (if id in es[0].sourceDocIds then [es[0]] else []) + Mentioning(es[1..], id)
  }

  function Descriptions(es: seq<Entity>): (r: seq<string>)
    ensures |r| == |es| && forall k :: 0 <= k < |es| ==> r[k] == Describe(es[k])
  {
    seq(|es|, k requires 0 <= k < |es| => Describe(es[k]))
  }

  /** `Array.prototype.join(sep)`. */
  function Join(parts: seq<string>, sep: string): string
  {
    if parts == [] then ""
    else if |parts| == 1 then parts[0]
    else parts[0] + sep + Join(parts[1..], sep)
  }

  /** `t` occurs in `s` at position `p`. */
  predicate OccursAt(t: string, s: string, p: int)
  {
    0 <= p && p + |t| <= |s| && s[p..p + |t|] == t
  }

  /** `t` occurs in `s` at some position. */
  predicate Occurs(t: string, s: string)
  {
    exists p :: 0 <= p <= |s| && OccursAt(t, s, p)
  }

  /** The entity data of the file with id `id`. */
  function ExtractedData(es: seq<Entity>, id: string): string
  {
    Join(Descriptions(Mentioning(es, id)), ", ")
  }

  /** `contextFiles` (App.tsx:125-134). */
  function ContextDocs(fs: seq<CaseFile>, es: seq<Entity>): (r: seq<ContextDoc>)
    ensures |r| == |AnalyzedFiles(fs)|
    ensures forall k :: 0 <= k < |r| ==>
      r[k].name == AnalyzedFiles(fs)[k].name && r[k].summary == AnalyzedFiles(fs)[k].content
  {
    var a := AnalyzedFiles(fs);
    seq(|a|, k requires 0 <= k < |a| => ContextDoc(a[k].name, a[k].content, ExtractedData(es, a[k].id)))
  }

  /** Every part of a join occurs in it. */
  lemma {:induction false} JoinContainsParts(parts: seq<string>, sep: string, k: nat)
    requires k < |parts|
    ensures Occurs(parts[k], Join(parts, sep))
  {
    var j := Join(parts, sep);
    if |parts| == 1 || k == 0 {
      assert j[0..|parts[0]|] == parts[0];
      assert OccursAt(parts[k], j, 0);
    } else {
      var rest := Join(parts[1..], sep);
      JoinContainsParts(parts[1..], sep, k - 1);
      assert parts[1..][k - 1] == parts[k];
      var p :| 0 <= p <= |rest| && OccursAt(parts[k], rest, p);
      var head := parts[0] + sep;
      var off, n := |head|, |parts[k]|;
      assert j == head + rest;
      assert forall q :: off + p <= q < off + p + n ==> j[q] == rest[q - off];
      assert j[off + p..off + p + n] == rest[p..p + n];
      assert OccursAt(parts[k], j, off + p);
    }
  }

  /** A join of at least one part is at least as long as its first part. */
  lemma JoinLength(parts: seq<string>, sep: string)
    requires parts != []
    ensures |Join(parts, sep)| >= |parts[0]|
  {
  }

  /** Each entity citing an analyzed file is described in that file's record. */
  lemma ContextListsCitingEntities(fs: seq<CaseFile>, es: seq<Entity>, k: nat, e: Entity)
    requires k < |AnalyzedFiles(fs)|
    requires e in es && AnalyzedFiles(fs)[k].id in e.sourceDocIds
    ensures Occurs(Describe(e), ContextDocs(fs, es)[k].extractedData)
  {
    var id := AnalyzedFiles(fs)[k].id;
    var m := Mentioning(es, id);
    var i :| 0 <= i < |m| && m[i] == e;
    JoinContainsParts(Descriptions(m), ", ", i);
  }

  /** A file's entity data is empty exactly when no entity cites it. */
  lemma ExtractedDataEmpty(es: seq<Entity>, id: string)
    ensures ExtractedData(es, id) == "" <==> forall i :: 0 <= i < |es| ==> id !in es[i].sourceDocIds
  {
    var m := Mentioning(es, id);
    if m != [] {
      JoinLength(Descriptions(m), ", ");
      assert m[0] in es;
    } else {
      forall i | 0 <= i < |es| ensures id !in es[i].sourceDocIds {
        assert es[i] in es;
      }
    }
  }
}
