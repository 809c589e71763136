/** The merge engine (App.tsx:84-110): folds one document's extracted
    mentions, in the order the extraction returned them, into the entity list. */
module Merge {
  import opened Types
  import opened Text

  /** The dedup key: the lower-cased, untrimmed name and the category (App.tsx:89). */
  datatype Key = Key(name: string, category: EntityType)

  function KeyOf(e: Entity): Key
  {
    Key(Lower(e.name), e.category)
  }

  function MentionKey(m: Mention): Key
  {
    Key(Lower(m.name), m.category)
  }

  /** No two entities of the list share a dedup key. */
  predicate KeysUnique(s: seq<Entity>)
  {
    forall i, j :: 0 <= i < j < |s| ==> KeyOf(s[i]) != KeyOf(s[j])
  }

  predicate NoDuplicates(ids: seq<string>)
  {
    forall i, j :: 0 <= i < j < |ids| ==> ids[i] != ids[j]
  }

  /** Every entity's source-document list is duplicate-free. */
  predicate SourcesDistinct(s: seq<Entity>)
  {
    forall i :: 0 <= i < |s| ==> NoDuplicates(s[i].sourceDocIds)
  }

  /** `Array.prototype.find` from position `from` on: the first entity with key `k`. */
  function FindFrom(s: seq<Entity>, k: Key, from: nat): (r: Option<nat>)
    requires from <= |s|
    ensures r.Some? ==> from <= r.value < |s| && KeyOf(s[r.value]) == k
    ensures r.Some? ==> forall j :: from <= j < r.value ==> KeyOf(s[j]) != k
    ensures r.None? ==> forall j :: from <= j < |s| ==> KeyOf(s[j]) != k
    decreases |s| - from
  {
    if from == |s| then None
    else if KeyOf(s[from]) == k then Some(from)
    else FindFrom(s, k, from + 1)
  }

  /** The index of the first entity with key `k`, if there is one. */
  function Find(s: seq<Entity>, k: Key): (r: Option<nat>)
    ensures r.Some? ==> r.value < |s| && KeyOf(s[r.value]) == k
    ensures r.Some? ==> forall j :: 0 <= j < r.value ==> KeyOf(s[j]) != k
    ensures r.None? <==> forall j :: 0 <= j < |s| ==> KeyOf(s[j]) != k
  {
    FindFrom(s, k, 0)
  }

  /** How an existing entity may evolve under merges for document `d`:
      identity, name, category and context stay; `d` may be appended once;
      a set normalized date is never overwritten. */
  predicate Grows(e: Entity, e2: Entity, d: string)
  {
    && e2.id == e.id && e2.name == e.name && e2.category == e.category && e2.context == e.context
    && (e2.sourceDocIds == e.sourceDocIds || (d !in e.sourceDocIds && e2.sourceDocIds == e.sourceDocIds + [d]))
    && (Truthy(e.normalizedDate) ==> e2.normalizedDate == e.normalizedDate)
    && (e2.normalizedDate != e.normalizedDate ==> Truthy(e2.normalizedDate))
  }

  lemma GrowsTransitive(e1: Entity, e2: Entity, e3: Entity, d: string)
    requires Grows(e1, e2, d) && Grows(e2, e3, d)
    ensures Grows(e1, e3, d)
  {
  }

  /** The hit branch (App.tsx:91-97): add the document id if absent, backfill
      an empty normalized date from a non-empty incoming one. */
  function Absorb(e: Entity, d: string, m: Mention): (r: Entity)
    ensures Grows(e, r, d)
    ensures d in r.sourceDocIds
    ensures Truthy(m.normalizedDate) ==> Truthy(r.normalizedDate)
    ensures r.normalizedDate != e.normalizedDate ==> r.normalizedDate == m.normalizedDate
  {
    e.(sourceDocIds := if d in e.sourceDocIds then e.sourceDocIds else e.sourceDocIds + [d],
       normalizedDate := if !Truthy(e.normalizedDate) && Truthy(m.normalizedDate) then m.normalizedDate
                         else e.normalizedDate)
  }

  /** The miss branch (App.tsx:99-106): a new entity seen only in document `d`. */
  function Create(d: string, m: Mention): (r: Entity)
    ensures KeyOf(r) == MentionKey(m)
    ensures r.sourceDocIds == [d]
  {
    Entity(Slug(m.name), m.name, m.category, [d], m.context, m.normalizedDate)
  }

  /** The store already reflects mention `m` of document `d`: an entity with
      its key holds `d`, and has a date whenever `m` brings one. */
  predicate Absorbed(s: seq<Entity>, d: string, m: Mention)
  {
    var f := Find(s, MentionKey(m));
    f.Some? && d in s[f.value].sourceDocIds
    && (Truthy(m.normalizedDate) ==> Truthy(s[f.value].normalizedDate))
  }

  /** One iteration of the `forEach` (App.tsx:87-108). */
  function MergeOne(s: seq<Entity>, d: string, m: Mention): (r: seq<Entity>)
    ensures |s| <= |r| <= |s| + 1
    ensures forall i :: 0 <= i < |s| ==> Grows(s[i], r[i], d)
    ensures forall i :: 0 <= i < |s| && KeyOf(s[i]) != MentionKey(m) ==> r[i] == s[i]
    ensures forall i :: 0 <= i < |s| && r[i].normalizedDate != s[i].normalizedDate ==>
              r[i].normalizedDate == m.normalizedDate
    ensures |r| == |s| + 1 ==> r[|s|] == Create(d, m)
    ensures |r| == |s| + 1 <==> forall i :: 0 <= i < |s| ==> KeyOf(s[i]) != MentionKey(m)
    ensures Absorbed(r, d, m)
    ensures KeysUnique(s) ==> KeysUnique(r)
    ensures SourcesDistinct(s) ==> SourcesDistinct(r)
  {
    match Find(s, MentionKey(m))
    case Some(i) => s[i := Absorb(s[i], d, m)]
    case None => s + [Create(d, m)]
  }

  /** The whole updater: the mentions folded into the store in order. */
  function MergeAll(s: seq<Entity>, d: string, ms: seq<Mention>): seq<Entity>
    decreases |ms|
  {
    if ms == [] then s else MergeAll(MergeOne(s, d, ms[0]), d, ms[1..])
  }

  /** The loop of App.tsx:85-109 over a copy of the previous list. */
  method MergeExtraction(prev: seq<Entity>, d: string, mentions: seq<Mention>) returns (next: seq<Entity>)
    ensures next == MergeAll(prev, d, mentions)
  {
    next := prev;
    var i := 0;
    while i < |mentions|
      invariant 0 <= i <= |mentions|
      invariant MergeAll(next, d, mentions[i..]) == MergeAll(prev, d, mentions)
    {
      var m := mentions[i];
      var found := FindEntity(next, MentionKey(m));
      match found {
        case Some(k) =>
          var existing := next[k];
          var sources := existing.sourceDocIds;
          if d !in sources {
            sources := sources + [d];
          }
          var date := existing.normalizedDate;
          if !Truthy(date) && Truthy(m.normalizedDate) {
            date := m.normalizedDate;
          }
          next := next[k := existing.(sourceDocIds := sources, normalizedDate := date)];
        case None =>
          next := next + [Entity(Slug(m.name), m.name, m.category, [d], m.context, m.normalizedDate)];
      }
      assert mentions[i..][0] == m && mentions[i..][1..] == mentions[i + 1..];
      i := i + 1;
    }
    assert mentions[i..] == [];
  }

  /** `newEntities.find(...)` (App.tsx:89) as a linear search. */
  method FindEntity(s: seq<Entity>, k: Key) returns (found: Option<nat>)
    ensures found == Find(s, k)
  {
    var i := 0;
    while i < |s|
      invariant 0 <= i <= |s|
      invariant forall j :: 0 <= j < i ==> KeyOf(s[j]) != k
    {
      if KeyOf(s[i]) == k {
        return Some(i);
      }
      i := i + 1;
    }
    return None;
  }

  // ---------------------------------------------------------------------
  // Properties of a whole merge

  /** Dedup keys stay unique, also across repeated mentions within one batch. */
  lemma {:induction false} MergeAllKeysUnique(s: seq<Entity>, d: string, ms: seq<Mention>)
    requires KeysUnique(s)
    ensures KeysUnique(MergeAll(s, d, ms))
    decreases |ms|
  {
    if ms != [] {
      MergeAllKeysUnique(MergeOne(s, d, ms[0]), d, ms[1..]);
    }
  }

  /** No source-document list ever gains a duplicate. */
  lemma {:induction false} MergeAllSourcesDistinct(s: seq<Entity>, d: string, ms: seq<Mention>)
    requires SourcesDistinct(s)
    ensures SourcesDistinct(MergeAll(s, d, ms))
    decreases |ms|
  {
    if ms != [] {
      MergeAllSourcesDistinct(MergeOne(s, d, ms[0]), d, ms[1..]);
    }
  }

  /** Later mentions never undo what an earlier mention recorded. */
  lemma AbsorbedStays(s: seq<Entity>, d: string, m: Mention, m': Mention)
    requires Absorbed(s, d, m')
    ensures Absorbed(MergeOne(s, d, m), d, m')
  {
    var r := MergeOne(s, d, m);
    var i := Find(s, MentionKey(m')).value;
    assert KeyOf(r[i]) == KeyOf(s[i]);
    assert forall j :: 0 <= j < i ==> KeyOf(r[j]) == KeyOf(s[j]);
  }

  /** After the merge every mention is reflected: its entity holds `d`. */
  lemma {:induction false} MergeAllAbsorbs(s: seq<Entity>, d: string, ms: seq<Mention>)
    ensures forall j :: 0 <= j < |ms| ==> Absorbed(MergeAll(s, d, ms), d, ms[j])
    decreases |ms|
  {
    if ms != [] {
      var s1 := MergeOne(s, d, ms[0]);
      MergeAllAbsorbs(s1, d, ms[1..]);
      MergeAllKeepsAbsorbed(s1, d, ms[1..], ms[0]);
      forall j | 1 <= j < |ms| ensures Absorbed(MergeAll(s, d, ms), d, ms[j]) {
        assert ms[j] == ms[1..][j - 1];
      }
    }
  }

  lemma {:induction false} MergeAllKeepsAbsorbed(s: seq<Entity>, d: string, ms: seq<Mention>, m': Mention)
    requires Absorbed(s, d, m')
    ensures Absorbed(MergeAll(s, d, ms), d, m')
    decreases |ms|
  {
    if ms != [] {
      AbsorbedStays(s, d, ms[0], m');
      MergeAllKeepsAbsorbed(MergeOne(s, d, ms[0]), d, ms[1..], m');
    }
  }

  /** A store that already reflects every mention is left unchanged. */
  lemma {:induction false} MergeAllOfAbsorbed(t: seq<Entity>, d: string, ms: seq<Mention>)
    requires forall j :: 0 <= j < |ms| ==> Absorbed(t, d, ms[j])
    ensures MergeAll(t, d, ms) == t
    decreases |ms|
  {
    if ms != [] {
      var i := Find(t, MentionKey(ms[0])).value;
      assert t[i := Absorb(t[i], d, ms[0])] == t;
      forall j | 0 <= j < |ms| - 1 ensures Absorbed(t, d, ms[1..][j]) {
        assert ms[1..][j] == ms[j + 1];
      }
      MergeAllOfAbsorbed(t, d, ms[1..]);
    }
  }

  /** Merging the same extraction for the same document twice changes nothing
      the second time. */
  lemma MergeAllIdempotent(s: seq<Entity>, d: string, ms: seq<Mention>)
    ensures MergeAll(MergeAll(s, d, ms), d, ms) == MergeAll(s, d, ms)
  {
    MergeAllAbsorbs(s, d, ms);
    MergeAllOfAbsorbed(MergeAll(s, d, ms), d, ms);
  }

  /** Merge never deletes or reorders entities: existing entities keep id,
      name, category and context, gain `d` at most once, and keep a normalized
      date once it is set; at most one entity is added per mention. */
  lemma {:induction false} MergeAllGrows(s: seq<Entity>, d: string, ms: seq<Mention>)
    ensures |s| <= |MergeAll(s, d, ms)| <= |s| + |ms|
    ensures forall i :: 0 <= i < |s| ==> Grows(s[i], MergeAll(s, d, ms)[i], d)
    decreases |ms|
  {
    if ms != [] {
      var s1 := MergeOne(s, d, ms[0]);
      MergeAllGrows(s1, d, ms[1..]);
      var r := MergeAll(s1, d, ms[1..]);
      forall i | 0 <= i < |s| ensures Grows(s[i], r[i], d) {
        GrowsTransitive(s[i], s1[i], r[i], d);
      }
    }
  }

  /** An entity whose key no mention carries is left exactly as it was. */
  lemma {:induction false} MergeAllUntouched(s: seq<Entity>, d: string, ms: seq<Mention>, i: nat)
    requires i < |s|
    requires forall j :: 0 <= j < |ms| ==> MentionKey(ms[j]) != KeyOf(s[i])
    ensures i < |MergeAll(s, d, ms)| && MergeAll(s, d, ms)[i] == s[i]
    decreases |ms|
  {
    if ms != [] {
      var s1 := MergeOne(s, d, ms[0]);
      assert MentionKey(ms[0]) != KeyOf(s[i]);
      forall j | 0 <= j < |ms[1..]| ensures MentionKey(ms[1..][j]) != KeyOf(s1[i]) {
        assert ms[1..][j] == ms[j + 1];
      }
      MergeAllUntouched(s1, d, ms[1..], i);
    }
  }

  /** A normalized date changes only from empty, and only to the value that a
      mention of the same key brought. */
  lemma {:induction false} MergeAllDateOrigin(s: seq<Entity>, d: string, ms: seq<Mention>, i: nat)
    requires i < |s|
    ensures i < |MergeAll(s, d, ms)|
    ensures var r := MergeAll(s, d, ms);
      r[i].normalizedDate != s[i].normalizedDate ==>
        !Truthy(s[i].normalizedDate) &&
        exists j :: 0 <= j < |ms| && MentionKey(ms[j]) == KeyOf(s[i]) && ms[j].normalizedDate == r[i].normalizedDate
    decreases |ms|
  {
    MergeAllGrows(s, d, ms);
    if ms != [] {
      var s1 := MergeOne(s, d, ms[0]);
      var rest := ms[1..];
      var r := MergeAll(s1, d, rest);
      MergeAllDateOrigin(s1, d, rest, i);
      if r[i].normalizedDate != s[i].normalizedDate {
        if r[i].normalizedDate != s1[i].normalizedDate {
          var j :| 0 <= j < |rest| && MentionKey(rest[j]) == KeyOf(s1[i]) && rest[j].normalizedDate == r[i].normalizedDate;
          assert ms[j + 1] == rest[j];
        } else {
          assert KeyOf(s[i]) == MentionKey(ms[0]);
        }
      }
    }
  }

  /** Each added entity lists only `d` and is the entity created from one of
      the mentions (name, category, context and id as extracted; at most its
      empty date backfilled). */
  lemma {:induction false} MergeAllNewEntities(s: seq<Entity>, d: string, ms: seq<Mention>)
    ensures var r := MergeAll(s, d, ms);
      forall i :: |s| <= i < |r| ==>
        r[i].sourceDocIds == [d] && exists j :: 0 <= j < |ms| && Grows(Create(d, ms[j]), r[i], d)
    decreases |ms|
  {
    if ms != [] {
      var s1 := MergeOne(s, d, ms[0]);
      var rest := ms[1..];
      var r := MergeAll(s1, d, rest);
      MergeAllNewEntities(s1, d, rest);
      MergeAllGrows(s1, d, rest);
      forall i | |s| <= i < |r|
        ensures r[i].sourceDocIds == [d] && exists j :: 0 <= j < |ms| && Grows(Create(d, ms[j]), r[i], d)
      {
        if i < |s1| {
          GrowsTransitive(Create(d, ms[0]), s1[i], r[i], d);
        } else {
          var j :| 0 <= j < |rest| && Grows(Create(d, rest[j]), r[i], d);
          assert ms[j + 1] == rest[j];
        }
      }
    }
  }

  /** The only document id a merge introduces is `d`. */
  lemma MergeAllOnlyAddsDoc(s: seq<Entity>, d: string, ms: seq<Mention>, x: string)
    requires x != d
    ensures var r := MergeAll(s, d, ms);
      forall i :: 0 <= i < |r| && x in r[i].sourceDocIds ==> i < |s| && x in s[i].sourceDocIds
  {
    MergeAllGrows(s, d, ms);
    MergeAllNewEntities(s, d, ms);
  }

  /** A merge keeps every source list as a prefix of the new one, and each
      added entity lists only `d`. */
  lemma MergeAllKeepsSources(s: seq<Entity>, d: string, ms: seq<Mention>)
    ensures var r := MergeAll(s, d, ms);
      && |s| <= |r|
      && (forall i :: 0 <= i < |s| ==> s[i].sourceDocIds <= r[i].sourceDocIds)
      && (forall i :: |s| <= i < |r| ==> r[i].sourceDocIds == [d])
  {
    var r := MergeAll(s, d, ms);
    MergeAllGrows(s, d, ms);
    MergeAllNewEntities(s, d, ms);
    forall i | 0 <= i < |s| ensures s[i].sourceDocIds <= r[i].sourceDocIds {
      assert Grows(s[i], r[i], d);
    }
  }

  /** The first entity with key `k` lists document `x`. */
  predicate Holds(s: seq<Entity>, k: Key, x: string)
  {
    var f := Find(s, k);
    f.Some? && x in s[f.value].sourceDocIds
  }

  lemma HoldsStays(s: seq<Entity>, d: string, m: Mention, k: Key, x: string)
    requires Holds(s, k, x)
    ensures Holds(MergeOne(s, d, m), k, x)
  {
    var r := MergeOne(s, d, m);
    var i := Find(s, k).value;
    assert KeyOf(r[i]) == KeyOf(s[i]);
    assert forall j :: 0 <= j < i ==> KeyOf(r[j]) == KeyOf(s[j]);
  }

  /** A recorded reference survives any later merge, for any document. */
  lemma {:induction false} MergeAllKeepsHolds(s: seq<Entity>, d: string, ms: seq<Mention>, k: Key, x: string)
    requires Holds(s, k, x)
    ensures Holds(MergeAll(s, d, ms), k, x)
    decreases |ms|
  {
    if ms != [] {
      HoldsStays(s, d, ms[0], k, x);
      MergeAllKeepsHolds(MergeOne(s, d, ms[0]), d, ms[1..], k, x);
    }
  }

  // ---------------------------------------------------------------------
  // Scenarios

  /** Two mentions of one key from documents A and B collapse into one entity
      listing both documents, keeping the first casing, id and context. */
  lemma DedupAcrossDocuments(a: Mention, b: Mention, docA: string, docB: string)
    requires MentionKey(a) == MentionKey(b) && docA != docB
    ensures var r := MergeAll(MergeAll([], docA, [a]), docB, [b]);
      |r| == 1 && r[0] == Entity(Slug(a.name), a.name, a.category, [docA, docB], a.context, r[0].normalizedDate)
  {
    var e := Create(docA, a);
    assert [a][1..] == [] && [b][1..] == [];
    assert MergeAll([], docA, [a]) == MergeOne([], docA, a) == [e];
    assert Find([e], MentionKey(b)) == Some(0);
    assert MergeAll([e], docB, [b]) == MergeOne([e], docB, b) == [Absorb(e, docB, b)];
  }

  /** "Jane Doe" and "jane doe" of one category share a dedup key. */
  lemma CaseInsensitiveKey(ctxA: string, ctxB: string)
    ensures MentionKey(Mention("Jane Doe", Person, ctxA, None)) == MentionKey(Mention("jane doe", Person, ctxB, None))
  {
    assert Lower("Jane Doe") == "jane doe" by {
      assert LowerChar('J') == 'j' && LowerChar('D') == 'd';
    }
    assert Lower("jane doe") == "jane doe";
  }

  /** A date arriving later is backfilled once; a third one does not replace it. */
  lemma DateBackfillOnce(e: Entity, d1: string, d2: string, m1: Mention, m2: Mention)
    requires e.normalizedDate == None
    requires MentionKey(m1) == KeyOf(e) && MentionKey(m2) == KeyOf(e)
    requires Truthy(m1.normalizedDate) && Truthy(m2.normalizedDate)
    ensures var r1 := MergeAll([e], d1, [m1]);
      |r1| == 1 && r1[0].normalizedDate == m1.normalizedDate
    ensures var r2 := MergeAll(MergeAll([e], d1, [m1]), d2, [m2]);
      |r2| == 1 && r2[0].normalizedDate == m1.normalizedDate
  {
    assert [m1][1..] == [] && [m2][1..] == [];
    assert Find([e], MentionKey(m1)) == Some(0);
    var e1 := Absorb(e, d1, m1);
    assert MergeAll([e], d1, [m1]) == MergeOne([e], d1, m1) == [e1];
    assert Find([e1], MentionKey(m2)) == Some(0);
    assert MergeAll([e1], d2, [m2]) == MergeOne([e1], d2, m2) == [Absorb(e1, d2, m2)];
  }
}
