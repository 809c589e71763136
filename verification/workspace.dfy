/** The application state of the `App` component and its two state-changing
    handlers: the category toggle and the sequential upload pipeline. */
module Workspace {
  import opened Types
  import opened Merge
  import opened Registry
  import opened Pipeline
  import opened Filters

  /** The state held by the `App` component (App.tsx:11-23). */
  class App {
    var files: seq<CaseFile>
    var entities: seq<Entity>
    var filters: FilterState

    /** The store invariants hold between handler calls. */
    ghost predicate Valid()
      reads this
    {
      Consistent(files, entities)
    }

    /** A fresh session: no files, no entities, every category visible. */
    constructor ()
      ensures Valid()
      ensures files == [] && entities == [] && filters == AllVisible()
    {
      files := [];
      entities := [];
      filters := AllVisible();
    }

    /** `handleFilterChange` (App.tsx:25-27). */
    method HandleFilterChange(t: EntityType)
      requires Valid()
      modifies this
      ensures Valid()
      ensures filters == old(filters).Toggle(t)
      ensures files == old(files) && entities == old(entities)
    {
      filters := filters.Toggle(t);
    }

    /** `handleFileUpload` (App.tsx:44-121): register every upload as pending,
        then process them one at a time, in order. */
    method HandleFileUpload(uploads: seq<Upload>, analyze: Upload -> Extraction)
      requires Valid()
      requires FreshIds(files, uploads)
      modifies this
      ensures Valid()
      ensures files == old(files) + Settled(uploads, analyze)
      ensures entities == MergeUploads(old(entities), uploads, analyze)
      ensures filters == old(filters)
    {
      ghost var fs0, es0 := files, entities;
      files := files + Registered(uploads);
      var i := 0;
      assert files == Midway(fs0, uploads, analyze, 0);
      while i < |uploads|
        invariant 0 <= i <= |uploads|
        invariant files == Midway(fs0, uploads, analyze, i)
        invariant MergeUploads(entities, uploads[i..], analyze) == MergeUploads(es0, uploads, analyze)
        invariant filters == old(filters)
      {
        var u := uploads[i];
        Lifecycle(fs0, uploads, analyze, i);
        files := SetStatus(files, u.id, Analyzing);
        var outcome := analyze(u);
        match outcome {
          case Extracted(a) =>
            entities := MergeExtraction(entities, u.id, a.entities);
            files := MarkAnalyzed(files, u.id, a.summary);
          case Failed =>
            files := SetStatus(files, u.id, Error);
        }
        assert uploads[i..][0] == u && uploads[i..][1..] == uploads[i + 1..];
        i := i + 1;
      }
      assert uploads[i..] == [] && uploads[..i] == uploads;
      assert files == fs0 + Settled(uploads, analyze);
      assert entities == MergeUploads(es0, uploads, analyze);
      UploadPreservesConsistency(fs0, es0, uploads, analyze);
    }
  }
}
