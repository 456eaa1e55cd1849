/**
  utils/buildResumeIndex.js: joins candidates, jobs, applications and résumé attachments
  into one manifest row per application whose candidate has a résumé, keeping the latest
  résumé per candidate, and orders the rows newest first.
*/
module ResumeIndex {
  import opened Wrappers
  import opened Js

  /** A date field: the text received (copied into the rows) and the instant `new Date(text)` denotes. */
  datatype Stamp = Stamp(text: string, instant: int)

  /** Truthiness of a date field: present and not the empty string. */
  predicate Present(t: Option<Stamp>) {
    t.Some? && t.value.text != ""
  }

  datatype Candidate = Candidate(id: Value, firstName: Option<string>, lastName: Option<string>)
  datatype Job = Job(id: Value, name: Option<string>)
  datatype Application = Application(id: Value, candidateId: Value, jobId: Value, appliedAt: Option<Stamp>)
  /** An attachment record; `kind` is its `type` field. */
  datatype Attachment = Attachment(id: Value, candidateId: Value, url: Value, kind: Value, createdAt: Option<Stamp>)

  /** One manifest row (`applicationAppliedAt` is `appliedAt`). */
  datatype Row = Row(
    resumeUrl: Value, fullName: string, uploadedAt: Option<Stamp>,
    candidateId: Value, applicationId: Value, jobName: string, appliedAt: Option<Stamp>)

  // ---------------------------------------------------------------------------------
  // Lookup maps

  /** `new Map(rs.map((r) => [id(r), r]))`: the map holds the ids that occur. */
  function IndexBy<R>(rs: seq<R>, id: R -> Value): (m: map<Value, R>)
    ensures forall key :: key in m <==> exists k :: 0 <= k < |rs| && id(rs[k]) == key
  {
    if rs == [] then map[]
    else
      var m := IndexBy(rs[..|rs| - 1], id);
      assert forall k :: 0 <= k < |rs| - 1 ==> rs[..|rs| - 1][k] == rs[k];
      m[id(rs[|rs| - 1]) := rs[|rs| - 1]]
  }

  /** For a repeated id the last element wins. */
  lemma {:induction false} IndexByLastWins<R>(rs: seq<R>, id: R -> Value, k: nat)
    requires k < |rs|
    requires forall j :: k < j < |rs| ==> id(rs[j]) != id(rs[k])
    ensures IndexBy(rs, id)[id(rs[k])] == rs[k]
  {
    if k < |rs| - 1 {
      IndexByLastWins(rs[..|rs| - 1], id, k);
    }
  }

  function CandidateId(c: Candidate): Value { c.id }
  function JobId(j: Job): Value { j.id }

  // ---------------------------------------------------------------------------------
  // Latest résumé per candidate

  /** The attachment filter: a résumé with a truthy `url`, `candidate_id` and `created_at`. */
  predicate Qualifies(a: Attachment) {
    a.kind == Str("resume") && Truthy(a.url) && Truthy(a.candidateId) && Present(a.createdAt)
  }

  function Instant(a: Attachment): int
    requires Qualifies(a)
  {
    a.createdAt.value.instant
  }

  /** `latestResumeByCandidate` after the attachments loop. */
  function Latest(atts: seq<Attachment>): (m: map<Value, Attachment>)
    ensures forall cid :: cid in m ==> Qualifies(m[cid]) && m[cid].candidateId == cid
  {
    if atts == [] then map[]
    else
      var m := Latest(atts[..|atts| - 1]);
      var a := atts[|atts| - 1];
      if !Qualifies(a) then m
      else if a.candidateId !in m || Instant(a) > Instant(m[a.candidateId]) then m[a.candidateId := a]
      else m
  }

  /** The attachments loop, writing into the map in place. */
  method LatestResumes(atts: seq<Attachment>) returns (latest: map<Value, Attachment>)
    ensures latest == Latest(atts)
  {
    latest := map[];
    for i := 0 to |atts|
      invariant latest == Latest(atts[..i])
    {
      assert atts[..i + 1][..i] == atts[..i];
      var a := atts[i];
      if !Qualifies(a) {
        continue;
      }
      if a.candidateId !in latest || Instant(a) > Instant(latest[a.candidateId]) {
        latest := latest[a.candidateId := a];
      }
    }
    assert atts[..|atts|] == atts;
  }

  /** A candidate has a kept résumé exactly when some qualifying attachment names it. */
  lemma {:induction false} LatestKeys(atts: seq<Attachment>, cid: Value)
    ensures cid in Latest(atts) <==> exists k :: 0 <= k < |atts| && Qualifies(atts[k]) && atts[k].candidateId == cid
  {
    if atts != [] {
      var init := atts[..|atts| - 1];
      LatestKeys(init, cid);
      if cid in Latest(init) {
        var k :| 0 <= k < |init| && Qualifies(init[k]) && init[k].candidateId == cid;
        assert atts[k] == init[k];
      }
      if exists k :: 0 <= k < |atts| && Qualifies(atts[k]) && atts[k].candidateId == cid {
        var k :| 0 <= k < |atts| && Qualifies(atts[k]) && atts[k].candidateId == cid;
        if k < |init| {
          assert init[k] == atts[k];
        }
      }
    }
  }

  /** The kept résumé is at least as recent as every qualifying résumé of the same candidate. */
  lemma {:induction false} LatestIsNewest(atts: seq<Attachment>, k: nat)
    requires k < |atts| && Qualifies(atts[k])
    ensures atts[k].candidateId in Latest(atts)
    ensures Instant(atts[k]) <= Instant(Latest(atts)[atts[k].candidateId])
  {
    if k < |atts| - 1 {
      LatestIsNewest(atts[..|atts| - 1], k);
    }
  }

  /** Ties keep the earliest: the kept résumé is strictly newer than every earlier one of its candidate. */
  lemma {:induction false} LatestIsFirstNewest(atts: seq<Attachment>, cid: Value)
    requires cid in Latest(atts)
    ensures exists k :: (0 <= k < |atts| && atts[k] == Latest(atts)[cid]
      && forall j :: 0 <= j < k && Qualifies(atts[j]) && atts[j].candidateId == cid ==> Instant(atts[j]) < Instant(atts[k]))
  {
    var init := atts[..|atts| - 1];
    var a := atts[|atts| - 1];
    if Qualifies(a) && a.candidateId == cid && (cid !in Latest(init) || Instant(a) > Instant(Latest(init)[cid])) {
      var k := |atts| - 1;
      forall j | 0 <= j < k && Qualifies(atts[j]) && atts[j].candidateId == cid
        ensures Instant(atts[j]) < Instant(atts[k])
      {
        assert init[j] == atts[j];
        LatestIsNewest(init, j);
      }
    } else {
      assert cid in Latest(init) && Latest(atts)[cid] == Latest(init)[cid];
      LatestIsFirstNewest(init, cid);
      var k :| 0 <= k < |init| && init[k] == Latest(init)[cid]
        && forall j :: 0 <= j < k && Qualifies(init[j]) && init[j].candidateId == cid ==> Instant(init[j]) < Instant(init[k]);
      assert atts[k] == init[k];
      forall j | 0 <= j < k && Qualifies(atts[j]) && atts[j].candidateId == cid
        ensures Instant(atts[j]) < Instant(atts[k])
      {
        assert init[j] == atts[j];
      }
    }
  }

  // ---------------------------------------------------------------------------------
  // Row synthesis

  /** `name?.trim()` kept by `.filter(Boolean)`: the trimmed name when it is non-empty. */
  function Kept(name: Option<string>): (r: seq<string>)
    ensures |r| <= 1 && forall k :: 0 <= k < |r| ==> Trimmed(r[k])
  {
    if name.Some? && Trim(name.value) != "" then [Trim(name.value)] else []
  }

  /** Non-empty, with no white space at either end. */
  predicate Trimmed(s: string) {
    s != "" && !IsSpace(s[0]) && !IsSpace(s[|s| - 1])
  }

  /** The names that survive `.filter(Boolean)`, trimmed. */
  function NameParts(cand: Option<Candidate>): seq<string> {
    if cand.Some? then Kept(cand.value.firstName) + Kept(cand.value.lastName) else []
  }

  /** `[first?.trim(), last?.trim()].filter(Boolean).join(' ') || \`Candidate ${cid}\``. */
  function FullName(cand: Option<Candidate>, cid: Value): string {
    var joined := Join(NameParts(cand), " ");
    if joined != "" then joined else "Candidate " + Render(cid)
  }

  /** `job?.name ?? \`Job ${jobId}\``: an empty name is kept. */
  function JobName(job: Option<Job>, jobId: Value): (r: string)
    ensures job.Some? && job.value.name.Some? ==> r == job.value.name.value
    ensures r == "" <==> job.Some? && job.value.name == Some("")
  {
    if job.Some? && job.value.name.Some? then job.value.name.value else "Job " + Render(jobId)
  }

  /** Lookup of a key in a map built by the source, as `Map.prototype.get`. */
  function Get<R>(m: map<Value, R>, key: Value): Option<R> {
    if key in m then Some(m[key]) else None
  }

  /** The row pushed for application `app` whose candidate's kept résumé is `resume`. */
  function MakeRow(app: Application, cand: Option<Candidate>, job: Option<Job>, resume: Attachment): Row {
    Row(resume.url, FullName(cand, app.candidateId), resume.createdAt, app.candidateId, app.id,
        JobName(job, app.jobId), app.appliedAt)
  }

  /** The rows for `apps`, in application order; an application without a kept résumé yields none. */
  function Rows(apps: seq<Application>, cands: map<Value, Candidate>, jobs: map<Value, Job>, latest: map<Value, Attachment>): seq<Row> {
    if apps == [] then []
    else
      var app := apps[|apps| - 1];
      Rows(apps[..|apps| - 1], cands, jobs, latest)
        + (if app.candidateId in latest then [MakeRow(app, Get(cands, app.candidateId), Get(jobs, app.jobId), latest[app.candidateId])] else [])
  }

  /** The applications that produce a row: those whose candidate has a kept résumé. */
  function WithResume(apps: seq<Application>, latest: map<Value, Attachment>): seq<Application> {
    if apps == [] then []
    else WithResume(apps[..|apps| - 1], latest) + (if apps[|apps| - 1].candidateId in latest then [apps[|apps| - 1]] else [])
  }

  /** The applications loop, pushing into `rows`. */
  method BuildRows(apps: seq<Application>, cands: map<Value, Candidate>, jobs: map<Value, Job>, latest: map<Value, Attachment>)
      returns (rows: seq<Row>)
    ensures rows == Rows(apps, cands, jobs, latest)
  {
    rows := [];
    for i := 0 to |apps|
      invariant rows == Rows(apps[..i], cands, jobs, latest)
    {
      assert apps[..i + 1][..i] == apps[..i];
      var app := apps[i];
      var cand := Get(cands, app.candidateId);
      var job := Get(jobs, app.jobId);
      var resume := Get(latest, app.candidateId);
      if resume.None? {
        continue;
      }
      rows := rows + [MakeRow(app, cand, job, resume.value)];
    }
    assert apps[..|apps|] == apps;
  }

  /**
    Exactly one row per application with a kept résumé, in application order, carrying that
    résumé's `url` and `created_at`: applications of one candidate share the résumé.
  */
  lemma {:induction false} RowsOnePerApplication(apps: seq<Application>, cands: map<Value, Candidate>, jobs: map<Value, Job>, latest: map<Value, Attachment>)
    ensures var rows := Rows(apps, cands, jobs, latest);
      var kept := WithResume(apps, latest);
      && |rows| == |kept|
      && forall k :: 0 <= k < |rows| ==>
          && kept[k].candidateId in latest
          && rows[k] == MakeRow(kept[k], Get(cands, kept[k].candidateId), Get(jobs, kept[k].jobId), latest[kept[k].candidateId])
  {
    if apps != [] {
      RowsOnePerApplication(apps[..|apps| - 1], cands, jobs, latest);
    }
  }

  /** An application is kept exactly when its candidate has a kept résumé. */
  lemma {:induction false} WithResumeMembers(apps: seq<Application>, latest: map<Value, Attachment>, app: Application)
    ensures app in WithResume(apps, latest) <==> app in apps && app.candidateId in latest
  {
    if apps != [] {
      WithResumeMembers(apps[..|apps| - 1], latest, app);
      assert apps == apps[..|apps| - 1] + [apps[|apps| - 1]];
    }
  }

  /** Joining at most two trimmed names by a space gives a trimmed name. */
  lemma {:induction false} JoinTrimmed(parts: seq<string>)
    requires |parts| <= 2 && forall k :: 0 <= k < |parts| ==> Trimmed(parts[k])
    ensures parts != [] ==> Trimmed(Join(parts, " "))
  {
    if |parts| == 2 {
      assert Join(parts, " ") == parts[0] + " " + parts[1];
    }
  }

  /** The surviving names are trimmed, at most two of them. */
  lemma NamePartsTrimmed(cand: Option<Candidate>)
    ensures |NameParts(cand)| <= 2 && forall k :: 0 <= k < |NameParts(cand)| ==> Trimmed(NameParts(cand)[k])
  {
    if cand.Some? {
      var f := Kept(cand.value.firstName);
      var l := Kept(cand.value.lastName);
      assert forall k :: 0 <= k < |f + l| ==> (f + l)[k] == (if k < |f| then f[k] else l[k - |f|]);
    }
  }

  /** The display name is never empty; built from names it has no white space at either end. */
  lemma FullNameShape(cand: Option<Candidate>, cid: Value)
    ensures FullName(cand, cid) != ""
    ensures NameParts(cand) != [] ==> FullName(cand, cid) == Join(NameParts(cand), " ") && Trimmed(FullName(cand, cid))
    ensures NameParts(cand) == [] ==> FullName(cand, cid) == "Candidate " + Render(cid)
  {
    NamePartsTrimmed(cand);
    JoinTrimmed(NameParts(cand));
  }

  // ---------------------------------------------------------------------------------
  // Ordering

  /** `row.applicationAppliedAt || row.uploadedAt` as an instant, `None` when both are falsy. */
  function SortKey(r: Row): Option<int> {
    if Present(r.appliedAt) then Some(r.appliedAt.value.instant)
    else if Present(r.uploadedAt) then Some(r.uploadedAt.value.instant)
    else None
  }

  /** The comparator: newest first, rows without a key last; positive means `b` goes before `a`. */
  function Compare(a: Row, b: Row): int {
    var ka := SortKey(a);
    var kb := SortKey(b);
    if ka.None? && kb.None? then 0
    else if ka.None? then 1
    else if kb.None? then -1
    else kb.value - ka.value
  }

  /** Ordered by the comparator: no row is after one it must precede. */
  predicate Sorted(rows: seq<Row>) {
    forall i, j :: 0 <= i < j < |rows| ==> Compare(rows[i], rows[j]) <= 0
  }

  /** The comparator is a total preorder: transitive, and what must follow stays behind. */
  lemma CompareOrder(a: Row, b: Row, c: Row)
    ensures Compare(a, b) <= 0 && Compare(b, c) <= 0 ==> Compare(a, c) <= 0
    ensures Compare(a, b) > 0 && Compare(a, c) <= 0 ==> Compare(c, b) > 0
    ensures Compare(a, b) <= 0 <==> Compare(b, a) >= 0
  {
  }

  /** Inserts `x` after every row of `s` it need not precede: after rows of an equal key (stability). */
  function Insert(x: Row, s: seq<Row>): (r: seq<Row>)
    ensures multiset(r) == multiset(s) + multiset{x}
    ensures |r| == |s| + 1
  {
    if s == [] then [x]
    else if Compare(s[0], x) > 0 then [x] + s
    else
      assert s == [s[0]] + s[1..];
      [s[0]] + Insert(x, s[1..])
  }

  /** `rows.sort(Compare)` as a stable sort (insertion of each row in turn). */
  function SortRows(rows: seq<Row>): (r: seq<Row>)
    ensures multiset(r) == multiset(rows)
    ensures |r| == |rows|
  {
    if rows == [] then []
    else
      assert rows == rows[..|rows| - 1] + [rows[|rows| - 1]];
      Insert(rows[|rows| - 1], SortRows(rows[..|rows| - 1]))
  }

  lemma {:induction false} InsertSorted(x: Row, s: seq<Row>)
    requires Sorted(s)
    ensures Sorted(Insert(x, s))
  {
    if s != [] && Compare(s[0], x) <= 0 {
      InsertSorted(x, s[1..]);
      var r := Insert(x, s);
      forall i, j | 0 <= i < j < |r|
        ensures Compare(r[i], r[j]) <= 0
      {
        if i == 0 {
          assert r[j] in multiset(Insert(x, s[1..]));
          assert r[j] in multiset(s[1..]) + multiset{x};
          if r[j] == x {
          } else {
            assert r[j] in s[1..];
            var t :| 0 <= t < |s[1..]| && s[1..][t] == r[j];
            assert s[t + 1] == r[j];
          }
        }
      }
    }
  }

  /** The result is ordered: newest first, keyless rows last. */
  lemma {:induction false} SortRowsSorted(rows: seq<Row>)
    ensures Sorted(SortRows(rows))
  {
    if rows != [] {
      SortRowsSorted(rows[..|rows| - 1]);
      InsertSorted(rows[|rows| - 1], SortRows(rows[..|rows| - 1]));
    }
  }

  /** The rows whose sort key is `key`, in order. */
  function WithKey(rows: seq<Row>, key: Option<int>): seq<Row> {
    if rows == [] then []
    else WithKey(rows[..|rows| - 1], key) + (if SortKey(rows[|rows| - 1]) == key then [rows[|rows| - 1]] else [])
  }

  lemma {:induction false} WithKeyAppend(a: seq<Row>, b: seq<Row>, key: Option<int>)
    ensures WithKey(a + b, key) == WithKey(a, key) + WithKey(b, key)
    decreases |b|
  {
    if b == [] {
      assert a + b == a;
    } else {
      assert (a + b)[..|a + b| - 1] == a + b[..|b| - 1];
      WithKeyAppend(a, b[..|b| - 1], key);
    }
  }

  /** Rows of `s` the inserted row must precede all have a different key. */
  lemma {:induction false} WithKeyAfter(x: Row, s: seq<Row>)
    requires Sorted(s)
    requires s != [] ==> Compare(s[0], x) > 0
    ensures WithKey(s, SortKey(x)) == []
  {
    if s != [] {
      var init := s[..|s| - 1];
      assert Compare(s[|s| - 1], x) > 0 by {
        CompareOrder(s[0], x, s[|s| - 1]);
      }
      WithKeyAfter(x, init);
    }
  }

  lemma SortedTail(s: seq<Row>)
    requires Sorted(s) && s != []
    ensures Sorted(s[1..])
  {
    forall i, j | 0 <= i < j < |s[1..]| ensures Compare(s[1..][i], s[1..][j]) <= 0 {
      assert s[1..][i] == s[i + 1] && s[1..][j] == s[j + 1];
    }
  }

  lemma WithKeySingle(x: Row, key: Option<int>)
    ensures WithKey([x], key) == (if SortKey(x) == key then [x] else [])
  {
    assert [x][..0] == [];
  }

  /** A row placed before all of `s` joins its key's rows after them, since none of `s` shares its key. */
  lemma InsertFrontWithKey(x: Row, s: seq<Row>, key: Option<int>)
    requires Sorted(s) && s != [] && Compare(s[0], x) > 0
    ensures WithKey([x] + s, key) == WithKey(s, key) + (if SortKey(x) == key then [x] else [])
  {
    WithKeyAppend([x], s, key);
    WithKeySingle(x, key);
    if SortKey(x) == key {
      WithKeyAfter(x, s);
    }
  }

  /** Inserting `x` appends it to the rows of its own key and leaves the other keys alone. */
  lemma {:induction false} InsertWithKey(x: Row, s: seq<Row>, key: Option<int>)
    requires Sorted(s)
    ensures WithKey(Insert(x, s), key) == WithKey(s, key) + (if SortKey(x) == key then [x] else [])
  {
    if s == [] {
      WithKeySingle(x, key);
    } else if Compare(s[0], x) > 0 {
      InsertFrontWithKey(x, s, key);
    } else {
      assert s == [s[0]] + s[1..];
      SortedTail(s);
      InsertWithKey(x, s[1..], key);
      WithKeyAppend([s[0]], Insert(x, s[1..]), key);
      WithKeyAppend([s[0]], s[1..], key);
    }
  }

  /** Stability: for every key, the rows carrying it keep their input order. */
  lemma {:induction false} SortRowsStable(rows: seq<Row>, key: Option<int>)
    ensures WithKey(SortRows(rows), key) == WithKey(rows, key)
  {
    if rows != [] {
      SortRowsStable(rows[..|rows| - 1], key);
      SortRowsSorted(rows[..|rows| - 1]);
      InsertWithKey(rows[|rows| - 1], SortRows(rows[..|rows| - 1]), key);
    }
  }

  /** Every row carries its résumé's truthy `created_at`, so no row lacks a sort key. */
  lemma {:induction false} RowsHaveKeys(apps: seq<Application>, cands: map<Value, Candidate>, jobs: map<Value, Job>, latest: map<Value, Attachment>)
    requires forall cid :: cid in latest ==> Qualifies(latest[cid])
    ensures forall k :: 0 <= k < |Rows(apps, cands, jobs, latest)| ==>
      Present(Rows(apps, cands, jobs, latest)[k].uploadedAt) && SortKey(Rows(apps, cands, jobs, latest)[k]).Some?
  {
    if apps != [] {
      RowsHaveKeys(apps[..|apps| - 1], cands, jobs, latest);
    }
  }

  // ---------------------------------------------------------------------------------
  // The whole builder

  /** `buildResumeIndex(candidates, attachments, applications, jobs)`. */
  method BuildResumeIndex(candidates: seq<Candidate>, attachments: seq<Attachment>, applications: seq<Application>, jobs: seq<Job>)
      returns (rows: seq<Row>)
    ensures rows == SortRows(Rows(applications, IndexBy(candidates, CandidateId), IndexBy(jobs, JobId), Latest(attachments)))
    ensures Sorted(rows)
    ensures forall k :: 0 <= k < |rows| ==> Present(rows[k].uploadedAt) && SortKey(rows[k]).Some?
  {
    var candidatesById := IndexBy(candidates, CandidateId);
    var jobsById := IndexBy(jobs, JobId);
    var latest := LatestResumes(attachments);
    var unsorted := BuildRows(applications, candidatesById, jobsById, latest);
    rows := SortRows(unsorted);
    SortRowsSorted(unsorted);
    RowsHaveKeys(applications, candidatesById, jobsById, latest);
    forall k | 0 <= k < |rows|
      ensures Present(rows[k].uploadedAt) && SortKey(rows[k]).Some?
    {
      assert rows[k] in multiset(unsorted);
      var t :| 0 <= t < |unsorted| && unsorted[t] == rows[k];
    }
  }
}
