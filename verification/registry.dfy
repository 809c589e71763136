/** The case-file registry (App.tsx:48-58, 66, 112-118): registration of
    uploads and the per-id status updates of the files list. */
module Registry {
  import opened Types

  /** A selected browser file with the id and upload time assigned to it
      (App.tsx:48-56); its bytes are only seen by the extraction oracle. */
  datatype Upload = Upload(id: string, name: string, mimeType: string, uploadDate: int)

  /** What reading the file and calling the extraction service produced. */
  datatype Extraction = Extracted(result: AnalysisResult) | Failed

  /** The allowed status transitions of one file. */
  predicate Advances(before: Status, after: Status)
  {
    (before == Pending && after == Analyzing)
    || (before == Analyzing && (after == Analyzed || after == Error))
  }

  /** The file record registered before any processing (App.tsx:48-56). */
  function Register(u: Upload): (f: CaseFile)
    ensures f.id == u.id && f.name == u.name && f.mimeType == u.mimeType && f.uploadDate == u.uploadDate
    ensures f.status == Pending && f.content == None
  {
    CaseFile(u.id, u.name, u.mimeType, None, u.uploadDate, Pending)
  }

  function Registered(us: seq<Upload>): (fs: seq<CaseFile>)
    ensures |fs| == |us| && forall k :: 0 <= k < |us| ==> fs[k] == Register(us[k])
  {
    seq(|us|, k requires 0 <= k < |us| => Register(us[k]))
  }

  /** `prev.map(f => f.id === id ? { ...f, status } : f)` (App.tsx:66, 118):
      every file with that id gets the new status and nothing else changes. */
  function SetStatus(fs: seq<CaseFile>, id: string, st: Status): (r: seq<CaseFile>)
    ensures |r| == |fs|
    ensures forall i :: 0 <= i < |fs| && fs[i].id != id ==> r[i] == fs[i]
    ensures forall i :: 0 <= i < |fs| && fs[i].id == id ==> r[i] == fs[i].(status := st)
  {
    seq(|fs|, i requires 0 <= i < |fs| => if fs[i].id == id then fs[i].(status := st) else fs[i])
  }

  /** The success update (App.tsx:112-114): status analyzed, summary stored. */
  function MarkAnalyzed(fs: seq<CaseFile>, id: string, summary: string): (r: seq<CaseFile>)
    ensures |r| == |fs|
    ensures forall i :: 0 <= i < |fs| && fs[i].id != id ==> r[i] == fs[i]
    ensures forall i :: 0 <= i < |fs| && fs[i].id == id ==> r[i] == fs[i].(status := Analyzed, content := Some(summary))
  {
    seq(|fs|, i requires 0 <= i < |fs| =>
      if fs[i].id == id then fs[i].(status := Analyzed, content := Some(summary)) else fs[i])
  }

  /** The record of an upload once the pipeline is done with it. */
  function Settle(u: Upload, analyze: Upload -> Extraction): (f: CaseFile)
    ensures f.id == u.id && f.name == u.name && f.mimeType == u.mimeType && f.uploadDate == u.uploadDate
    ensures f.status == Analyzed <==> analyze(u).Extracted?
    ensures f.status == Error <==> analyze(u).Failed?
    ensures analyze(u).Extracted? ==> f.content == Some(analyze(u).result.summary)
    ensures analyze(u).Failed? ==> f.content == None
  {
    var f := Register(u).(status := Analyzing);
    match analyze(u)
    case Extracted(a) => f.(status := Analyzed, content := Some(a.summary))
    case Failed => f.(status := Error)
  }

  function Settled(us: seq<Upload>, analyze: Upload -> Extraction): (fs: seq<CaseFile>)
    ensures |fs| == |us| && forall k :: 0 <= k < |us| ==> fs[k] == Settle(us[k], analyze)
  {
    seq(|us|, k requires 0 <= k < |us| => Settle(us[k], analyze))
  }

  /** Upload ids are pairwise distinct and unused by the registered files. */
  predicate FreshIds(fs: seq<CaseFile>, us: seq<Upload>)
  {
    && (forall j, k :: 0 <= j < k < |us| ==> us[j].id != us[k].id)
    && (forall i, k :: 0 <= i < |fs| && 0 <= k < |us| ==> fs[i].id != us[k].id)
  }

  /** Some file with this id has been analyzed (`files.find(...)`, App.tsx:166). */
  predicate IsAnalyzedId(fs: seq<CaseFile>, id: string)
  {
    exists j :: 0 <= j < |fs| && fs[j].id == id && fs[j].status == Analyzed
  }

  /** `files.filter(f => f.status === 'analyzed')`, in file order. */
  function AnalyzedFiles(fs: seq<CaseFile>): (r: seq<CaseFile>)
    ensures |r| <= |fs|
    ensures forall f :: f in r <==> f in fs && f.status == Analyzed
  {
    if fs == [] then []
    else AnalyzedFiles(fs[..|fs| - 1]) + (if fs[|fs| - 1].status == Analyzed then [fs[|fs| - 1]] else [])
  }

  // ---------------------------------------------------------------------
  // Updates of a record whose id is unique

  /** Position `p` is the only file carrying its id. */
  predicate OnlyAt(fs: seq<CaseFile>, p: nat)
  {
    p < |fs| && forall q :: 0 <= q < |fs| && q != p ==> fs[q].id != fs[p].id
  }

  /** With a unique id, a status update rewrites exactly one record. */
  lemma SetStatusAt(fs: seq<CaseFile>, p: nat, st: Status)
    requires OnlyAt(fs, p)
    ensures SetStatus(fs, fs[p].id, st) == fs[p := fs[p].(status := st)]
  {
  }

  lemma MarkAnalyzedAt(fs: seq<CaseFile>, p: nat, summary: string)
    requires OnlyAt(fs, p)
    ensures MarkAnalyzed(fs, fs[p].id, summary) == fs[p := fs[p].(status := Analyzed, content := Some(summary))]
  {
  }
}
