/** The sequential upload pipeline (App.tsx:44-121): what a whole upload
    batch does to the registry and to the entity store, and the store
    invariants it keeps. */
module Pipeline {
  import opened Types
  import opened Merge
  import opened Registry

  /** One iteration's effect on the store: merge on success, nothing on failure. */
  function Step(es: seq<Entity>, u: Upload, analyze: Upload -> Extraction): seq<Entity>
  {
    match analyze(u)
    case Extracted(a) => MergeAll(es, u.id, a.entities)
    case Failed => es
  }

  /** The entity store after the batch: each successful extraction merged,
      in upload order; a failed one is skipped. */
  function MergeUploads(es: seq<Entity>, us: seq<Upload>, analyze: Upload -> Extraction): seq<Entity>
    decreases |us|
  {
    if us == [] then es else MergeUploads(Step(es, us[0], analyze), us[1..], analyze)
  }

  /** The store invariants: unique dedup keys, non-empty duplicate-free source
      lists, and every source id names an analyzed file. */
  predicate Consistent(fs: seq<CaseFile>, es: seq<Entity>)
  {
    && KeysUnique(es)
    && SourcesDistinct(es)
    && (forall i :: 0 <= i < |es| ==> es[i].sourceDocIds != [])
    && (forall i, x :: 0 <= i < |es| && x in es[i].sourceDocIds ==> IsAnalyzedId(fs, x))
  }

  /** One step keeps every entity and its sources, and adds only the id of
      a successfully extracted upload. */
  lemma StepSources(es: seq<Entity>, u: Upload, analyze: Upload -> Extraction)
    ensures |es| <= |Step(es, u, analyze)|
    ensures forall i :: 0 <= i < |es| ==> es[i].sourceDocIds <= Step(es, u, analyze)[i].sourceDocIds
    ensures forall i :: |es| <= i < |Step(es, u, analyze)| ==> Step(es, u, analyze)[i].sourceDocIds != []
    ensures var r := Step(es, u, analyze);
      forall i, x :: 0 <= i < |r| && x in r[i].sourceDocIds ==>
        (i < |es| && x in es[i].sourceDocIds) || (x == u.id && analyze(u).Extracted?)
  {
    match analyze(u)
    case Failed =>
    case Extracted(a) =>
      var r := MergeAll(es, u.id, a.entities);
      MergeAllKeepsSources(es, u.id, a.entities);
      forall i, x | 0 <= i < |r| && x in r[i].sourceDocIds && x != u.id
        ensures i < |es| && x in es[i].sourceDocIds
      {
        MergeAllOnlyAddsDoc(es, u.id, a.entities, x);
      }
  }

  /** A batch only adds references to uploads whose extraction succeeded. */
  lemma {:induction false} MergeUploadsSources(es: seq<Entity>, us: seq<Upload>, analyze: Upload -> Extraction)
    ensures var r := MergeUploads(es, us, analyze);
      && |es| <= |r|
      && (forall i :: 0 <= i < |es| ==> es[i].sourceDocIds <= r[i].sourceDocIds)
      && (forall i :: |es| <= i < |r| ==> r[i].sourceDocIds != [])
      && (forall i, x :: 0 <= i < |r| && x in r[i].sourceDocIds ==>
            (i < |es| && x in es[i].sourceDocIds)
            || exists k :: 0 <= k < |us| && us[k].id == x && analyze(us[k]).Extracted?)
    decreases |us|
  {
    if us != [] {
      var es1 := Step(es, us[0], analyze);
      var r := MergeUploads(es1, us[1..], analyze);
      StepSources(es, us[0], analyze);
      MergeUploadsSources(es1, us[1..], analyze);
      forall i | 0 <= i < |es| ensures es[i].sourceDocIds <= r[i].sourceDocIds {
        assert es[i].sourceDocIds <= es1[i].sourceDocIds;
      }
      forall i | |es| <= i < |r| ensures r[i].sourceDocIds != [] {
        if i < |es1| {
          assert es1[i].sourceDocIds <= r[i].sourceDocIds;
        }
      }
      forall i, x | 0 <= i < |r| && x in r[i].sourceDocIds
        ensures (i < |es| && x in es[i].sourceDocIds)
          || exists k :: 0 <= k < |us| && us[k].id == x && analyze(us[k]).Extracted?
      {
        if i < |es1| && x in es1[i].sourceDocIds {
          if !(i < |es| && x in es[i].sourceDocIds) {
            assert us[0].id == x && analyze(us[0]).Extracted?;
          }
        } else {
          var k :| 0 <= k < |us[1..]| && us[1..][k].id == x && analyze(us[1..][k]).Extracted?;
          assert us[k + 1] == us[1..][k];
        }
      }
    }
  }

  /** A document whose read or extraction failed is referenced by no entity
      after the batch, since its merge never runs. */
  lemma UploadErrorIsolation(fs: seq<CaseFile>, es: seq<Entity>, us: seq<Upload>, analyze: Upload -> Extraction, k: nat)
    requires FreshIds(fs, us) && Consistent(fs, es)
    requires k < |us| && analyze(us[k]).Failed?
    ensures forall i :: 0 <= i < |MergeUploads(es, us, analyze)| ==>
              us[k].id !in MergeUploads(es, us, analyze)[i].sourceDocIds
  {
    MergeUploadsSources(es, us, analyze);
    var x := us[k].id;
    assert !IsAnalyzedId(fs, x);
    assert forall i :: 0 <= i < |es| ==> x !in es[i].sourceDocIds;
    assert forall k' :: 0 <= k' < |us| && us[k'].id == x ==> !analyze(us[k']).Extracted?;
  }

  lemma {:induction false} MergeUploadsKeysUnique(es: seq<Entity>, us: seq<Upload>, analyze: Upload -> Extraction)
    requires KeysUnique(es)
    ensures KeysUnique(MergeUploads(es, us, analyze))
    decreases |us|
  {
    if us != [] {
      if analyze(us[0]).Extracted? {
        MergeAllKeysUnique(es, us[0].id, analyze(us[0]).result.entities);
      }
      MergeUploadsKeysUnique(Step(es, us[0], analyze), us[1..], analyze);
    }
  }

  lemma {:induction false} MergeUploadsSourcesDistinct(es: seq<Entity>, us: seq<Upload>, analyze: Upload -> Extraction)
    requires SourcesDistinct(es)
    ensures SourcesDistinct(MergeUploads(es, us, analyze))
    decreases |us|
  {
    if us != [] {
      if analyze(us[0]).Extracted? {
        MergeAllSourcesDistinct(es, us[0].id, analyze(us[0]).result.entities);
      }
      MergeUploadsSourcesDistinct(Step(es, us[0], analyze), us[1..], analyze);
    }
  }

  /** A whole upload batch keeps the store invariants, with the registry
      extended by the settled files. */
  lemma UploadPreservesConsistency(fs: seq<CaseFile>, es: seq<Entity>, us: seq<Upload>, analyze: Upload -> Extraction)
    requires Consistent(fs, es)
    ensures Consistent(fs + Settled(us, analyze), MergeUploads(es, us, analyze))
  {
    var fs' := fs + Settled(us, analyze);
    var r := MergeUploads(es, us, analyze);
    MergeUploadsKeysUnique(es, us, analyze);
    MergeUploadsSourcesDistinct(es, us, analyze);
    MergeUploadsSources(es, us, analyze);
    forall i | 0 <= i < |r| ensures r[i].sourceDocIds != [] {
      if i < |es| {
        assert es[i].sourceDocIds <= r[i].sourceDocIds;
      }
    }
    forall i, x | 0 <= i < |r| && x in r[i].sourceDocIds ensures IsAnalyzedId(fs', x) {
      if i < |es| && x in es[i].sourceDocIds {
        assert IsAnalyzedId(fs, x);
        var j :| 0 <= j < |fs| && fs[j].id == x && fs[j].status == Analyzed;
        assert fs'[j] == fs[j];
      } else {
        var k :| 0 <= k < |us| && us[k].id == x && analyze(us[k]).Extracted?;
        assert fs'[|fs| + k] == Settle(us[k], analyze);
      }
    }
  }

  lemma {:induction false} MergeUploadsKeepsHolds(es: seq<Entity>, us: seq<Upload>, analyze: Upload -> Extraction, key: Key, x: string)
    requires Holds(es, key, x)
    ensures Holds(MergeUploads(es, us, analyze), key, x)
    decreases |us|
  {
    if us != [] {
      if analyze(us[0]).Extracted? {
        MergeAllKeepsHolds(es, us[0].id, analyze(us[0]).result.entities, key, x);
      }
      MergeUploadsKeepsHolds(Step(es, us[0], analyze), us[1..], analyze, key, x);
    }
  }

  /** Every mention of a successfully extracted upload ends up merged: the
      entity with its key lists that upload, whatever failed around it. */
  lemma {:induction false} MergeUploadsReflects(es: seq<Entity>, us: seq<Upload>, analyze: Upload -> Extraction, k: nat, j: nat)
    requires k < |us| && analyze(us[k]).Extracted? && j < |analyze(us[k]).result.entities|
    ensures Holds(MergeUploads(es, us, analyze), MentionKey(analyze(us[k]).result.entities[j]), us[k].id)
    decreases |us|
  {
    var es1 := Step(es, us[0], analyze);
    if k == 0 {
      var ms := analyze(us[0]).result.entities;
      MergeAllAbsorbs(es, us[0].id, ms);
      assert Absorbed(es1, us[0].id, ms[j]);
      MergeUploadsKeepsHolds(es1, us[1..], analyze, MentionKey(ms[j]), us[0].id);
    } else {
      assert us[1..][k - 1] == us[k];
      MergeUploadsReflects(es1, us[1..], analyze, k - 1, j);
    }
  }

  // ---------------------------------------------------------------------
  // The registry during a batch

  /** The registry part way through a batch: the first `i` uploads settled,
      the rest still pending. */
  function Midway(fs: seq<CaseFile>, us: seq<Upload>, analyze: Upload -> Extraction, i: nat): seq<CaseFile>
    requires i <= |us|
  {
    fs + Settled(us[..i], analyze) + Registered(us[i..])
  }

  /** In the midway registry the next upload is pending and alone with its id. */
  lemma MidwayAt(fs: seq<CaseFile>, us: seq<Upload>, analyze: Upload -> Extraction, i: nat)
    requires FreshIds(fs, us) && i < |us|
    ensures var m := Midway(fs, us, analyze, i);
      |m| == |fs| + |us| && m[|fs| + i] == Register(us[i]) && OnlyAt(m, |fs| + i)
  {
    var m := Midway(fs, us, analyze, i);
    assert |m| == |fs| + |us|;
    assert m[|fs| + i] == Registered(us[i..])[0];
    forall q | 0 <= q < |m| && q != |fs| + i ensures m[q].id != us[i].id {
      if q < |fs| {
        assert m[q] == fs[q];
      } else if q < |fs| + i {
        assert m[q] == Settle(us[q - |fs|], analyze);
      } else {
        assert m[q] == Registered(us[i..])[q - |fs| - i];
        assert us[i..][q - |fs| - i] == us[q - |fs|];
      }
    }
  }

  /** Settling the next upload moves the batch one step on. */
  lemma MidwayNext(fs: seq<CaseFile>, us: seq<Upload>, analyze: Upload -> Extraction, i: nat)
    requires i < |us|
    ensures Midway(fs, us, analyze, i)[|fs| + i := Settle(us[i], analyze)] == Midway(fs, us, analyze, i + 1)
  {
    var a := Midway(fs, us, analyze, i)[|fs| + i := Settle(us[i], analyze)];
    var b := Midway(fs, us, analyze, i + 1);
    assert |a| == |b|;
    forall q | 0 <= q < |a| ensures a[q] == b[q] {
      if q < |fs| {
      } else if q < |fs| + i {
        assert us[..i][q - |fs|] == us[..i + 1][q - |fs|];
      } else if q == |fs| + i {
        assert b[q] == Settled(us[..i + 1], analyze)[i];
      } else {
        assert us[i..][q - |fs| - i] == us[i + 1..][q - |fs| - i - 1];
      }
    }
  }

  /** One iteration of the batch loop (App.tsx:62-119) on the registry: the
      next upload's record goes from pending to analyzing (App.tsx:66), then to
      analyzed with its summary (App.tsx:112-114) or to error (App.tsx:118),
      and the registry reaches the next midway state. */
  lemma Lifecycle(fs: seq<CaseFile>, us: seq<Upload>, analyze: Upload -> Extraction, i: nat)
    requires FreshIds(fs, us) && i < |us|
    ensures var before, p := Midway(fs, us, analyze, i), |fs| + i;
      var m := SetStatus(before, us[i].id, Analyzing);
      && p < |m| && before[p].status == Pending && m[p] == Register(us[i]).(status := Analyzing)
      && Advances(before[p].status, m[p].status)
      && OnlyAt(m, p)
      && (analyze(us[i]).Extracted? ==>
            MarkAnalyzed(m, us[i].id, analyze(us[i]).result.summary) == Midway(fs, us, analyze, i + 1))
      && (analyze(us[i]).Failed? ==> SetStatus(m, us[i].id, Error) == Midway(fs, us, analyze, i + 1))
      && Advances(m[p].status, Midway(fs, us, analyze, i + 1)[p].status)
  {
    var before, p := Midway(fs, us, analyze, i), |fs| + i;
    MidwayAt(fs, us, analyze, i);
    SetStatusAt(before, p, Analyzing);
    var m := SetStatus(before, us[i].id, Analyzing);
    assert OnlyAt(m, p);
    MidwayNext(fs, us, analyze, i);
    match analyze(us[i])
    case Extracted(a) =>
      MarkAnalyzedAt(m, p, a.summary);
    case Failed =>
      SetStatusAt(m, p, Error);
  }
}
