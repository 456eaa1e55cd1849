/**
  The batch loops `downloadResumes` (scripts/downloadResumes.js) and `downloadResumesFlat`
  (scripts/downloadResumesFlat.js): the audit CSV is created with its header if needed, then
  the queue of manifest rows is drained one row at a time. Each row is placed (extension,
  destination path), downloaded with retries, written to disk and, on success only, logged as
  one CSV line. The workers' interleaving is not modelled: `queue.shift()` and `++completed`
  run without interruption, so one sequential drain visits the rows in the same order.
*/
module Downloader {
  import opened Wrappers
  import opened Js
  import Csv
  import opened Naming
  import opened Retry
  import opened Files
  import opened ResumeIndex

  /** Dated folders and job folders (`downloadResumes`), or one flat folder (`downloadResumesFlat`). */
  datatype Layout = Nested | Flat

  /** What a successful `downloadTo` produced: the bytes written and their SHA-256 digest, as computed outside. */
  datatype Download = Download(body: string, sha256: string)

  /**
    What the outside world does for one row: the date `new Date(uploadedAt)` (or `new Date()`)
    denotes, the pathname of `new URL(resumeUrl)` (`None` when it throws), what each HEAD call
    answers (its `content-type` header), what each download attempt yields, and whether
    `fsp.appendFile` of the audit line succeeds.
  */
  datatype World = World(
    date: Calendar,
    pathname: Option<string>,
    head: nat -> Attempt<Option<string>>,
    download: nat -> Attempt<Download>,
    append: bool)

  const HeadRetries: nat := 2
  const HeadBaseMs: nat := 400
  const DownloadRetries: nat := 2
  const DownloadBaseMs: nat := 800

  /** The HEAD request through `withRetries(..., {retries: 2, baseMs: 400})`. */
  function HeadOf(w: World): Head {
    match Outcome(w.head, HeadRetries)
    case Ok(ct) => HeadOk(ct)
    case Err(_) => HeadFailed
  }

  function Ext(w: World): string {
    ResolveExt(w.pathname, HeadOf(w))
  }

  /** The file's path below the output root, as written to the `local_path` column. */
  function LocalPath(layout: Layout, r: Row, w: World): string {
    match layout
    case Nested => NestedPath(w.date, r.jobName, r.fullName, Ext(w))
    case Flat => FlatPath(r.fullName, r.candidateId, Ext(w))
  }

  function Dest(root: string, layout: Layout, r: Row, w: World): string {
    root + "/" + LocalPath(layout, r, w)
  }

  /** `output/resumes.csv`, or `output/flat/resumes_flat.csv`. */
  function CsvPath(root: string, layout: Layout): string {
    root + "/" + CsvName(layout)
  }

  function CsvName(layout: Layout): string {
    match layout
    case Nested => "resumes.csv"
    case Flat => "flat/resumes_flat.csv"
  }

  /** The facts about the two audit file names the proofs below need. */
  lemma CsvNames()
    ensures '/' !in CsvName(Nested)
    ensures CsvName(Flat)[..5] == "flat/" && CsvName(Flat)[5..] == "resumes_flat.csv"
  {
    assert CsvName(Flat) == "flat/" + "resumes_flat.csv";
  }

  function Columns(layout: Layout): seq<string> {
    match layout
    case Nested => Csv.NestedColumns
    case Flat => Csv.FlatColumns
  }

  /** A date field as a JavaScript value: its text, or `undefined`. */
  function StampValue(t: Option<Stamp>): Value {
    match t
    case None => Undefined
    case Some(s) => Str(s.text)
  }

  /** The values `appendCsvRow` writes for a downloaded row, in header order (the flat layout has no job). */
  function Values(layout: Layout, r: Row, w: World, d: Download): (vs: seq<Value>)
    ensures |vs| == |Columns(layout)|
  {
    var path := Str(LocalPath(layout, r, w));
    match layout
    case Nested =>
      [r.candidateId, Str(r.fullName), Str(r.jobName), StampValue(r.uploadedAt), r.resumeUrl, path, Num(|d.body|), Str(d.sha256)]
    case Flat =>
      [r.candidateId, Str(r.fullName), StampValue(r.uploadedAt), r.resumeUrl, path, Num(|d.body|), Str(d.sha256)]
  }

  /**
    What a downloaded row leaves behind: the file written, its contents and its audit line,
    which is `None` when `appendCsvRow` threw (the file stays, the row is reported as failed).
  */
  datatype Saved = Saved(dest: string, body: string, line: Option<string>)

  /** The outcome of one row: what it saves when its download succeeds, nothing when it fails. */
  function Effect(root: string, layout: Layout, r: Row, w: World): Option<Saved> {
    match Outcome(w.download, DownloadRetries)
    case Ok(d) =>
      var line := Csv.Line(Values(layout, r, w, d));
      Some(Saved(Dest(root, layout, r, w), d.body, if w.append then Some(line) else None))
    case Err(_) => None
  }

  /** A row that was downloaded and logged: the worker's success branch. */
  predicate Logged(e: Option<Saved>) {
    e.Some? && e.value.line.Some?
  }

  /** The outcomes of all rows, in queue order. */
  function Plan(root: string, layout: Layout, rows: seq<Row>, worlds: seq<World>): (plan: seq<Option<Saved>>)
    requires |worlds| == |rows|
    ensures |plan| == |rows| && forall k :: 0 <= k < |rows| ==> plan[k] == Effect(root, layout, rows[k], worlds[k])
  {
    seq(|rows|, k requires 0 <= k < |rows| => Effect(root, layout, rows[k], worlds[k]))
  }

  /** One row's effect on the files: the body is written to its destination, then the line (if any) appended to the audit file. */
  function Apply(files: map<string, string>, csv: string, e: Option<Saved>): map<string, string> {
    match e
    case None => files
    case Some(s) =>
      var written := files[s.dest := s.body];
      if s.line.Some? then Appended(written, csv, s.line.value) else written
  }

  /** The effect of a sequence of rows, in order. */
  function ApplyAll(files: map<string, string>, csv: string, plan: seq<Option<Saved>>): map<string, string> {
    if plan == [] then files else Apply(ApplyAll(files, csv, plan[..|plan| - 1]), csv, plan[|plan| - 1])
  }

  /** The audit lines of the logged rows, in order. */
  function Lines(plan: seq<Option<Saved>>): seq<string> {
    if plan == [] then []
    else
      var e := plan[|plan| - 1];
      Lines(plan[..|plan| - 1]) + (if Logged(e) then [e.value.line.value] else [])
  }

  function Concat(lines: seq<string>): string {
    if lines == [] then "" else Concat(lines[..|lines| - 1]) + lines[|lines| - 1]
  }

  /** Resolving the extension as `worker` does: the URL's, else a HEAD request's content type, else `'pdf'`. */
  method PickExtension(w: World) returns (ext: string)
    ensures ext == Ext(w)
  {
    var fromUrl := ExtFromPathname(w.pathname);
    if fromUrl.Some? {
      ext := fromUrl.value;
    } else {
      var head, _, _ := WithRetries(w.head, HeadRetries, HeadBaseMs);
      if head.Ok? {
        ext := ExtFromContentType(head.value).GetOr("pdf");
      } else {
        ext := "pdf";
      }
    }
  }

  /** The body of `worker` for one dequeued row; `ok` tells whether it was downloaded and logged. */
  method ProcessRow(disk: Disk, root: string, layout: Layout, r: Row, w: World) returns (ok: bool)
    modifies disk
    ensures ok <==> Logged(Effect(root, layout, r, w))
    ensures !ok ==> Outcome(w.download, DownloadRetries).Err? || !w.append
    ensures disk.files == Apply(old(disk.files), CsvPath(root, layout), Effect(root, layout, r, w))
  {
    var ext := PickExtension(w);
    var local := match layout
      case Nested => NestedPath(w.date, r.jobName, r.fullName, ext)
      case Flat => FlatPath(r.fullName, r.candidateId, ext);
    assert local == LocalPath(layout, r, w);
    var got, _, _ := WithRetries(w.download, DownloadRetries, DownloadBaseMs);
    ok := false;
    if got.Ok? {
      var line := Csv.Line(Values(layout, r, w, got.value));
      var saved := Saved(root + "/" + local, got.value.body, if w.append then Some(line) else None);
      assert Effect(root, layout, r, w) == Some(saved);
      Save(disk, CsvPath(root, layout), saved);
      ok := w.append;
    }
  }

  /** Writes the downloaded body to its destination, then appends the audit line unless `appendFile` throws. */
  method Save(disk: Disk, csv: string, saved: Saved)
    modifies disk
    ensures disk.files == Apply(old(disk.files), csv, Some(saved))
  {
    disk.WriteFile(saved.dest, saved.body);
    if saved.line.Some? {
      disk.AppendFile(csv, saved.line.value);
    }
  }

  /**
    `downloadResumes(rows)` / `downloadResumesFlat(rows)`, with `worlds[k]` what the outside
    world does for `rows[k]`: every row is dequeued and processed exactly once, in order, and
    `completed` ends equal to the number of rows, failed ones included.
  */
  method DownloadAll(disk: Disk, root: string, layout: Layout, rows: seq<Row>, worlds: seq<World>) returns (completed: nat)
    requires |worlds| == |rows|
    modifies disk
    ensures completed == |rows|
    ensures disk.files == ApplyAll(WithHeader(old(disk.files), CsvPath(root, layout), Csv.Header(Columns(layout))), CsvPath(root, layout), Plan(root, layout, rows, worlds))
  {
    disk.EnsureCsvHeader(CsvPath(root, layout), Csv.Header(Columns(layout)));
    completed := Worker(disk, root, layout, rows, worlds);
  }

  /**
    The `worker` loop, run alone: `queue.shift()` takes the next row, `++completed` counts it
    and the row is processed before the next one is taken.
  */
  method Worker(disk: Disk, root: string, layout: Layout, rows: seq<Row>, worlds: seq<World>) returns (completed: nat)
    requires |worlds| == |rows|
    modifies disk
    ensures completed == |rows|
    ensures disk.files == ApplyAll(old(disk.files), CsvPath(root, layout), Plan(root, layout, rows, worlds))
  {
    ghost var plan := Plan(root, layout, rows, worlds);
    completed := 0;
    var queue := rows;
    while queue != []
      invariant completed <= |rows| && queue == rows[completed..]
      invariant disk.files == ApplyAll(old(disk.files), CsvPath(root, layout), plan[..completed])
      decreases |queue|
    {
      var r := queue[0];
      assert r == rows[completed];
      queue := queue[1..];
      var _ := ProcessRow(disk, root, layout, r, worlds[completed]);
      ApplySnoc(old(disk.files), CsvPath(root, layout), plan, completed);
      completed := completed + 1;
    }
    assert plan[..completed] == plan;
  }

  /** The loop's bookkeeping: applying one more effect of the plan. */
  lemma ApplySnoc(start: map<string, string>, csv: string, plan: seq<Option<Saved>>, n: nat)
    requires n < |plan|
    ensures ApplyAll(start, csv, plan[..n + 1]) == Apply(ApplyAll(start, csv, plan[..n]), csv, plan[n])
  {
    assert plan[..n + 1][..n] == plan[..n];
  }


  /** `downloadResumes(rows)`: the nested layout. */
  method DownloadResumes(disk: Disk, root: string, rows: seq<Row>, worlds: seq<World>) returns (completed: nat)
    requires |worlds| == |rows|
    modifies disk
    ensures completed == |rows|
    ensures disk.files == ApplyAll(WithHeader(old(disk.files), CsvPath(root, Nested), Csv.Header(Csv.NestedColumns)), CsvPath(root, Nested), Plan(root, Nested, rows, worlds))
  {
    completed := DownloadAll(disk, root, Nested, rows, worlds);
  }

  /** `downloadResumesFlat(rows)`: the flat layout. */
  method DownloadResumesFlat(disk: Disk, root: string, rows: seq<Row>, worlds: seq<World>) returns (completed: nat)
    requires |worlds| == |rows|
    modifies disk
    ensures completed == |rows|
    ensures disk.files == ApplyAll(WithHeader(old(disk.files), CsvPath(root, Flat), Csv.Header(Csv.FlatColumns)), CsvPath(root, Flat), Plan(root, Flat, rows, worlds))
  {
    completed := DownloadAll(disk, root, Flat, rows, worlds);
  }

  // ---------------------------------------------------------------------------------
  // The audit CSV

  lemma ConcatSnoc(lines: seq<string>, line: string)
    ensures Concat(lines + [line]) == Concat(lines) + line
  {
    assert (lines + [line])[..|lines|] == lines;
  }

  /**
    When no download lands on the audit file, a run leaves it as it was, followed by the
    lines of the successful rows in queue order, and by nothing else.
  */
  lemma {:induction false} CsvGainsSuccessLines(files: map<string, string>, csv: string, plan: seq<Option<Saved>>)
    requires csv in files
    requires forall k :: 0 <= k < |plan| && plan[k].Some? ==> plan[k].value.dest != csv
    ensures csv in ApplyAll(files, csv, plan)
    ensures ApplyAll(files, csv, plan)[csv] == files[csv] + Concat(Lines(plan))
  {
    if plan != [] {
      var n := |plan| - 1;
      assert forall k :: 0 <= k < n ==> plan[..n][k] == plan[k];
      CsvGainsSuccessLines(files, csv, plan[..n]);
      var before := ApplyAll(files, csv, plan[..n]);
      assert ApplyAll(files, csv, plan) == Apply(before, csv, plan[n]);
      if Logged(plan[n]) {
        var saved := plan[n].value;
        assert Lines(plan) == Lines(plan[..n]) + [saved.line.value];
        ConcatSnoc(Lines(plan[..n]), saved.line.value);
        assert before[saved.dest := saved.body][csv] == before[csv];
      } else {
        assert Lines(plan) == Lines(plan[..n]);
      }
    }
  }

  /** `completed` counts rows, not successes: never more audit lines than rows, as many when all succeed. */
  lemma {:induction false} LinesAtMostRows(plan: seq<Option<Saved>>)
    ensures |Lines(plan)| <= |plan|
    ensures (forall k :: 0 <= k < |plan| ==> Logged(plan[k])) ==> |Lines(plan)| == |plan|
  {
    if plan != [] {
      var n := |plan| - 1;
      assert forall k :: 0 <= k < n ==> plan[..n][k] == plan[k];
      LinesAtMostRows(plan[..n]);
    }
  }

  /** `root + "/" + a` and `root + "/" + b` are the same path only when `a` and `b` are. */
  lemma UnderRoot(root: string, a: string, b: string)
    ensures root + "/" + a == root + "/" + b ==> a == b
  {
    assert (root + "/" + a)[|root| + 1..] == a;
    assert (root + "/" + b)[|root| + 1..] == b;
  }

  /** A nested path has a `/` after its year folder. */
  lemma NestedPathHasSlash(d: Calendar, jobName: string, fullName: string, ext: string)
    ensures '/' in NestedPath(d, jobName, fullName, ext)
  {
    var (year, month) := DateFolders(d);
    var rest := [month, JobDir(jobName), SafeName(fullName) + "." + ext];
    var local := NestedPath(d, jobName, fullName, ext);
    assert local == year + "/" + Join(rest, "/");
    assert local[|year|] == '/';
  }

  /** A nested destination is at least two folders deep, so it is never the audit file. */
  lemma NestedDestAvoidsCsv(root: string, r: Row, w: World)
    ensures Dest(root, Nested, r, w) != CsvPath(root, Nested)
  {
    NestedPathHasSlash(w.date, r.jobName, r.fullName, Ext(w));
    CsvNames();
    UnderRoot(root, LocalPath(Nested, r, w), CsvName(Nested));
  }

  /** The audit name read as a flat name: stem `resumes`, id `flat`, extension `csv`. */
  lemma AuditNameParts()
    ensures "resumes_flat.csv" == "resumes" + "_" + "flat" + "." + "csv"
  {
  }

  /** No flat file name of a candidate with a numeric id is `resumes_flat.csv`. */
  lemma FlatNameNotCsv(fullName: string, n: int, ext: string)
    requires '.' !in ext
    ensures FlatName(fullName, Num(n), ext) != "resumes_flat.csv"
  {
    AuditNameParts();
    NumericIdPlain(n);
    FlatNameId(fullName, Num(n), ext);
    IdOfJoined("resumes", "flat", "csv");
    NumericIdStart(n);
  }

  /** A flat destination of a candidate with a numeric id is never the audit file. */
  lemma FlatDestAvoidsCsv(root: string, r: Row, w: World)
    requires r.candidateId.Num?
    ensures Dest(root, Flat, r, w) != CsvPath(root, Flat)
  {
    var name := FlatName(r.fullName, r.candidateId, Ext(w));
    FlatNameNotCsv(r.fullName, r.candidateId.n, Ext(w));
    CsvNames();
    UnderRoot(root, "flat/" + name, CsvName(Flat));
    assert ("flat/" + name)[5..] == name;
  }

  /** A number prints starting with `-` or a digit. */
  lemma NumericIdStart(n: int)
    ensures Render(Num(n)) != [] && (Render(Num(n))[0] == '-' || IsDigit(Render(Num(n))[0]))
  {
  }

  /**
    After a nested run, the audit file is what it held before (or the header, when it did not
    exist), followed by one line per successful row, in queue order.
  */
  lemma NestedCsvAfterRun(files: map<string, string>, root: string, rows: seq<Row>, worlds: seq<World>)
    requires |worlds| == |rows|
    ensures var csv := CsvPath(root, Nested);
      var after := ApplyAll(WithHeader(files, csv, Csv.Header(Csv.NestedColumns)), csv, Plan(root, Nested, rows, worlds));
      csv in after && after[csv] == (if csv in files then files[csv] else Csv.Header(Csv.NestedColumns)) + Concat(Lines(Plan(root, Nested, rows, worlds)))
  {
    var plan := Plan(root, Nested, rows, worlds);
    forall k | 0 <= k < |plan| && plan[k].Some? ensures plan[k].value.dest != CsvPath(root, Nested) {
      NestedDestAvoidsCsv(root, rows[k], worlds[k]);
    }
    CsvGainsSuccessLines(WithHeader(files, CsvPath(root, Nested), Csv.Header(Csv.NestedColumns)), CsvPath(root, Nested), plan);
  }

  /** The same for a flat run whose candidate ids are numbers. */
  lemma FlatCsvAfterRun(files: map<string, string>, root: string, rows: seq<Row>, worlds: seq<World>)
    requires |worlds| == |rows|
    requires forall k :: 0 <= k < |rows| ==> rows[k].candidateId.Num?
    ensures var csv := CsvPath(root, Flat);
      var after := ApplyAll(WithHeader(files, csv, Csv.Header(Csv.FlatColumns)), csv, Plan(root, Flat, rows, worlds));
      csv in after && after[csv] == (if csv in files then files[csv] else Csv.Header(Csv.FlatColumns)) + Concat(Lines(Plan(root, Flat, rows, worlds)))
  {
    var plan := Plan(root, Flat, rows, worlds);
    forall k | 0 <= k < |plan| && plan[k].Some? ensures plan[k].value.dest != CsvPath(root, Flat) {
      FlatDestAvoidsCsv(root, rows[k], worlds[k]);
    }
    CsvGainsSuccessLines(WithHeader(files, CsvPath(root, Flat), Csv.Header(Csv.FlatColumns)), CsvPath(root, Flat), plan);
  }

  /** Each audit line reads back (in the LF-terminated CSV dialect of RFC 4180 section 2) as the texts of its values, one per header column. */
  lemma AuditLineReadsBack(layout: Layout, r: Row, w: World, d: Download)
    ensures Csv.Record(Csv.Line(Values(layout, r, w, d))) == Some(Csv.Texts(Values(layout, r, w, d)))
    ensures |Csv.Texts(Values(layout, r, w, d))| == |Columns(layout)|
  {
    Csv.LineRoundTrip(Values(layout, r, w, d));
  }

  /** The field read back third from the end is the local path, in both layouts. */
  lemma LocalPathColumn(layout: Layout, r: Row, w: World, d: Download)
    ensures Csv.Texts(Values(layout, r, w, d))[|Columns(layout)| - 3] == LocalPath(layout, r, w)
  {
    var vs := Values(layout, r, w, d);
    assert vs[|vs| - 3] == Str(LocalPath(layout, r, w));
    TextOfString(vs, |vs| - 3, LocalPath(layout, r, w));
  }

  /** A string value reads back as itself. */
  lemma TextOfString(vs: seq<Value>, i: nat, s: string)
    requires i < |vs| && vs[i] == Str(s)
    ensures Csv.Texts(vs)[i] == s
  {
  }

  // ---------------------------------------------------------------------------------
  // Where files land

  /**
    Two rows that differ only in their candidate (and application) share one nested
    destination, so whichever is written last replaces the other; the flat layout keeps
    them apart when the ids are distinct numbers.
  */
  lemma NestedPathCollision(root: string, r1: Row, r2: Row, w: World)
    requires r1.fullName == r2.fullName && r1.jobName == r2.jobName
    requires r1.candidateId.Num? && r2.candidateId.Num? && r1.candidateId != r2.candidateId
    ensures Dest(root, Nested, r1, w) == Dest(root, Nested, r2, w)
    ensures Dest(root, Flat, r1, w) != Dest(root, Flat, r2, w)
  {
    FlatPathsDistinct(r1.fullName, r2.fullName, Ext(w), Ext(w), r1.candidateId.n, r2.candidateId.n);
    UnderRoot(root, LocalPath(Flat, r1, w), LocalPath(Flat, r2, w));
  }

  /**
    In the sequential drain, a destination other than the audit file ends up holding the
    body of the last downloaded row saved to it: earlier downloads to it are overwritten.
  */
  lemma {:induction false} LastWriteWins(files: map<string, string>, csv: string, plan: seq<Option<Saved>>, k: nat)
    requires k < |plan| && plan[k].Some? && plan[k].value.dest != csv
    requires forall j :: k < j < |plan| && plan[j].Some? ==> plan[j].value.dest != plan[k].value.dest
    ensures plan[k].value.dest in ApplyAll(files, csv, plan)
    ensures ApplyAll(files, csv, plan)[plan[k].value.dest] == plan[k].value.body
  {
    var n := |plan| - 1;
    var dest := plan[k].value.dest;
    var before := ApplyAll(files, csv, plan[..n]);
    assert ApplyAll(files, csv, plan) == Apply(before, csv, plan[n]);
    if k < n {
      assert forall j :: 0 <= j < n ==> plan[..n][j] == plan[j];
      LastWriteWins(files, csv, plan[..n], k);
    }
  }
}
