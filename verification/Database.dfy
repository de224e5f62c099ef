/**
 * The transactions of the job service on the SQLite tables
 * (backend/database.py, backend/service.py). Each `with database.session()`
 * block commits whole or not at all.
 */
module Database {
  import opened Sorting
  import opened Sums
  import opened Assessment

  datatype Status = Queued | Running | Completed | Failed

  predicate Terminal(s: Status) { s == Completed || s == Failed }

  datatype Job = Job(investigation: string, status: Status)

  datatype InvestigationRow = InvestigationRow(status: Status, summary: string)

  /** A row of `sessions` or of `findings`: composite key (id, investigation). */
  datatype Row = Row(id: string, investigation: string, detail: string)

  datatype Tables = Tables(
    jobs: map<string, Job>,
    investigations: map<string, InvestigationRow>,
    sessions: seq<Row>,
    findings: seq<Row>,
    intelligence: map<string, string>,
    ml: map<string, string>)

  /** What one analysis hands to `_persist`. */
  datatype Report = Report(
    resultCount: nat,
    sessions: seq<(string, string)>,
    findings: seq<(string, string)>,
    intelligence: string,
    ml: Option<string>,
    summary: string)

  // ---- single-row transactions ----------------------------------------------

  /** `_set_job(job_id, status=…)`. */
  function WithJobStatus(t: Tables, job: string, status: Status): Tables {
    if job in t.jobs then t.(jobs := t.jobs[job := t.jobs[job].(status := status)]) else t
  }

  function WithInvestigationStatus(t: Tables, investigation: string, status: Status): Tables {
    if investigation in t.investigations then
      t.(investigations :=
           t.investigations[investigation := t.investigations[investigation].(status := status)])
    else t
  }

  // ---- recovery --------------------------------------------------------------

  predicate Interrupted(t: Tables, job: string) {
    job in t.jobs && (t.jobs[job].status == Queued || t.jobs[job].status == Running)
  }

  predicate HadInterruptedJob(t: Tables, investigation: string) {
    exists j | j in t.jobs :: Interrupted(t, j) && t.jobs[j].investigation == investigation
  }

  /** What `recover_interrupted_jobs` is for, said of the whole tables at once. */
  function Recovered(t: Tables): Tables {
    t.(jobs := map j | j in t.jobs ::
         if Interrupted(t, j) then t.jobs[j].(status := Failed) else t.jobs[j],
       investigations := map i | i in t.investigations ::
         if HadInterruptedJob(t, i) && !Terminal(t.investigations[i].status)
         then t.investigations[i].(status := Failed) else t.investigations[i])
  }

  /** One of these jobs belongs to the investigation. */
  ghost predicate HasJobIn(jobs: map<string, Job>, ids: seq<string>, investigation: string)
    requires forall j :: j in ids ==> j in jobs
  {
    exists j :: j in ids && jobs[j].investigation == investigation
  }

  /** `after` is `before` with the unfinished investigations of these jobs ended. */
  ghost predicate EndedFor(
    before: map<string, InvestigationRow>, after: map<string, InvestigationRow>,
    jobs: map<string, Job>, ids: seq<string>)
    requires forall j :: j in ids ==> j in jobs
  {
    && after.Keys == before.Keys
    && forall i | i in before ::
         after[i] == if HasJobIn(jobs, ids, i) && !Terminal(before[i].status)
                     then before[i].(status := Failed) else before[i]
  }

  /** Ended for exactly the interrupted jobs is recovered. */
  lemma EndedForInterrupted(
    t: Tables, after: map<string, InvestigationRow>, jobs: map<string, Job>, ids: seq<string>)
    requires forall j :: j in ids <==> Interrupted(t, j)
    requires forall j :: j in ids ==> j in jobs
    requires forall j :: j in t.jobs ==> j in jobs && jobs[j].investigation == t.jobs[j].investigation
    requires EndedFor(t.investigations, after, jobs, ids)
    ensures after == Recovered(t).investigations
  {
    forall i | i in t.investigations ensures HasJobIn(jobs, ids, i) <==> HadInterruptedJob(t, i) {
      if HasJobIn(jobs, ids, i) {
        var j :| j in ids && jobs[j].investigation == i;
        assert Interrupted(t, j) && t.jobs[j].investigation == i;
      }
      if HadInterruptedJob(t, i) {
        var j :| j in t.jobs && Interrupted(t, j) && t.jobs[j].investigation == i;
        assert j in ids && jobs[j].investigation == i;
      }
    }
  }

  lemma EndedForNext(
    before: map<string, InvestigationRow>, after: map<string, InvestigationRow>,
    jobs: map<string, Job>, ids: seq<string>, j: string)
    requires j in jobs && (forall k :: k in ids ==> k in jobs) && EndedFor(before, after, jobs, ids)
    ensures var i := jobs[j].investigation;
            EndedFor(before,
                     if i in after && !Terminal(after[i].status)
                     then after[i := after[i].(status := Failed)] else after,
                     jobs, ids + [j])
  {
    forall i ensures HasJobIn(jobs, ids + [j], i) <==> HasJobIn(jobs, ids, i) || jobs[j].investigation == i {
      assert j in ids + [j];
      if HasJobIn(jobs, ids, i) {
        var k :| k in ids && jobs[k].investigation == i;
        assert k in ids + [j];
      }
    }
  }

  // ---- persistence -----------------------------------------------------------

  function RowOf(investigation: string): ((string, string)) -> Row {
    (entry: (string, string)) => Row(entry.0, investigation, entry.1)
  }

  function NewRows(entries: seq<(string, string)>, investigation: string): seq<Row> {
    Map(entries, RowOf(investigation))
  }

  function NotOf(investigation: string): Row -> bool {
    (r: Row) => r.investigation != investigation
  }

  function Of(investigation: string): Row -> bool {
    (r: Row) => r.investigation == investigation
  }

  ghost predicate UniqueKeys(rows: seq<Row>) {
    forall i, j :: 0 <= i < j < |rows| ==>
      rows[i].id != rows[j].id || rows[i].investigation != rows[j].investigation
  }

  predicate DistinctIds(entries: seq<(string, string)>) {
    forall i, j | 0 <= i < j < |entries| :: entries[i].0 != entries[j].0
  }

  /** `_persist` raises for an empty report, an unknown investigation or a repeated key. */
  predicate CanPersist(t: Tables, investigation: string, report: Report) {
    && report.resultCount > 0
    && investigation in t.investigations
    && DistinctIds(report.sessions)
    && DistinctIds(report.findings)
  }

  function Persisted(t: Tables, investigation: string, report: Report): Tables {
    t.(sessions := Filter(t.sessions, NotOf(investigation)) + NewRows(report.sessions, investigation),
       findings := Filter(t.findings, NotOf(investigation)) + NewRows(report.findings, investigation),
       intelligence := t.intelligence[investigation := report.intelligence],
       ml := if report.ml.Some? then t.ml[investigation := report.ml.value] else t.ml,
       investigations := t.investigations[investigation := InvestigationRow(Completed, report.summary)])
  }

  /** `INSERT` of one row is refused when its composite key is taken. */
  predicate Taken(rows: seq<Row>, r: Row) {
    exists i | 0 <= i < |rows| :: rows[i].id == r.id && rows[i].investigation == r.investigation
  }

  lemma TakenMeansRepeated(kept: seq<Row>, entries: seq<(string, string)>, n: nat, investigation: string)
    requires n < |entries| && forall r :: r in kept ==> r.investigation != investigation
    ensures Taken(kept + NewRows(entries[..n], investigation), RowOf(investigation)(entries[n])) <==>
            exists i :: 0 <= i < n && entries[i].0 == entries[n].0
  {
    var added := NewRows(entries[..n], investigation);
    var rows, row := kept + added, RowOf(investigation)(entries[n]);
    if Taken(rows, row) {
      var i :| 0 <= i < |rows| && rows[i].id == row.id && rows[i].investigation == row.investigation;
      assert forall k :: 0 <= k < |kept| ==> rows[k] in kept;
      assert i >= |kept|;
      assert rows[i] == added[i - |kept|];
    }
    if exists i :: 0 <= i < n && entries[i].0 == entries[n].0 {
      var i :| 0 <= i < n && entries[i].0 == entries[n].0;
      assert rows[|kept| + i] == added[i];
    }
  }

  // ---- the database object ----------------------------------------------------

  class Store {
    var jobs: map<string, Job>
    var investigations: map<string, InvestigationRow>
    var sessions: seq<Row>
    var findings: seq<Row>
    var intelligence: map<string, string>
    var ml: map<string, string>

    ghost function Snapshot(): Tables
      reads this
    {
      Tables(jobs, investigations, sessions, findings, intelligence, ml)
    }

    constructor ()
      ensures Snapshot() == Tables(map[], map[], [], [], map[], map[])
    {
      jobs, investigations, sessions, findings := map[], map[], [], [];
      intelligence, ml := map[], map[];
    }

    /** The query of recovery: every interrupted job once, in no particular order. */
    method QueryInterrupted() returns (ids: seq<string>)
      ensures NoDuplicates(ids)
      ensures forall j :: j in ids <==> Interrupted(Snapshot(), j)
    {
      ids := [];
      var remaining := jobs.Keys;
      while remaining != {}
        invariant remaining <= jobs.Keys
        invariant NoDuplicates(ids) && forall j :: j in ids ==> j !in remaining
        invariant forall j :: j in ids <==> Interrupted(Snapshot(), j) && j !in remaining
        decreases |remaining|
      {
        var j :| j in remaining;
        remaining := remaining - {j};
        if jobs[j].status == Queued || jobs[j].status == Running {
          ids := ids + [j];
        }
      }
    }

    /** The first loop of recovery: mark the jobs. */
    method FailJobs(ids: seq<string>)
      requires forall j :: j in ids ==> j in jobs
      modifies this`jobs
      ensures jobs.Keys == old(jobs.Keys)
      ensures forall j :: j in jobs ==>
                jobs[j] == if j in ids then old(jobs)[j].(status := Failed) else old(jobs)[j]
    {
      for n := 0 to |ids|
        invariant jobs.Keys == old(jobs.Keys)
        invariant forall j :: j in jobs ==>
                    jobs[j] == if j in ids[..n] then old(jobs)[j].(status := Failed) else old(jobs)[j]
      {
        var j := ids[n];
        assert j in ids;
        jobs := jobs[j := jobs[j].(status := Failed)];
        assert ids[..n + 1] == ids[..n] + [j];
      }
      assert ids[..|ids|] == ids;
    }

    /** The second loop of recovery: mark their unfinished investigations. */
    method FailInvestigations(ids: seq<string>)
      requires forall j :: j in ids ==> j in jobs
      modifies this`investigations
      ensures EndedFor(old(investigations), investigations, jobs, ids)
    {
      for n := 0 to |ids|
        invariant EndedFor(old(investigations), investigations, jobs, ids[..n])
      {
        var j := ids[n];
        assert j in ids;
        EndedForNext(old(investigations), investigations, jobs, ids[..n], j);
        assert ids[..n + 1] == ids[..n] + [j];
        var i := jobs[j].investigation;
        if i in investigations
           && (investigations[i].status == Queued || investigations[i].status == Running) {
          investigations := investigations[i := investigations[i].(status := Failed)];
        }
      }
      assert ids[..|ids|] == ids;
    }

    /** `recover_interrupted_jobs`. */
    method RecoverInterruptedJobs() returns (count: nat)
      modifies this
      ensures Snapshot() == Recovered(old(Snapshot()))
      ensures count == |(set j | j in old(jobs) && Interrupted(old(Snapshot()), j))|
    {
      var ids := QueryInterrupted();
      FailJobs(ids);
      FailInvestigations(ids);
      count := |ids|;
      ghost var before := old(Snapshot());
      assert jobs == Recovered(before).jobs;
      EndedForInterrupted(before, investigations, jobs, ids);
      SetOfSequence(ids, before);
    }

    /** Add the rows one by one; the first repeated key raises. */
    static method InsertAll(kept: seq<Row>, entries: seq<(string, string)>, investigation: string)
      returns (ok: bool, rows: seq<Row>)
      requires forall r :: r in kept ==> r.investigation != investigation
      ensures ok <==> DistinctIds(entries)
      ensures ok ==> rows == kept + NewRows(entries, investigation)
    {
      rows := kept;
      for n := 0 to |entries|
        invariant rows == kept + NewRows(entries[..n], investigation)
        invariant DistinctIds(entries[..n])
      {
        var row := Row(entries[n].0, investigation, entries[n].1);
        TakenMeansRepeated(kept, entries, n, investigation);
        if Taken(rows, row) {
          ok := false;
          return;
        }
        assert entries[..n + 1] == entries[..n] + [entries[n]];
        assert NewRows(entries[..n + 1], investigation) == NewRows(entries[..n], investigation) + [row];
        rows := rows + [row];
      }
      assert entries[..|entries|] == entries;
      ok := true;
    }

    /** `_persist`: everything in one transaction, or nothing. */
    method Persist(investigation: string, report: Report) returns (ok: bool)
      modifies this
      ensures ok <==> CanPersist(old(Snapshot()), investigation, report)
      ensures Snapshot() ==
              if ok then Persisted(old(Snapshot()), investigation, report) else old(Snapshot())
    {
      if report.resultCount == 0 || investigation !in investigations {
        return false;
      }
      var keptSessions := Filter(sessions, NotOf(investigation));
      var keptFindings := Filter(findings, NotOf(investigation));
      var okSessions, newSessions := InsertAll(keptSessions, report.sessions, investigation);
      var okFindings, newFindings := InsertAll(keptFindings, report.findings, investigation);
      if !okSessions || !okFindings {
        return false;
      }
      sessions, findings := newSessions, newFindings;
      intelligence := intelligence[investigation := report.intelligence];
      if report.ml.Some? {
        ml := ml[investigation := report.ml.value];
      }
      investigations := investigations[investigation := InvestigationRow(Completed, report.summary)];
      return true;
    }
  }

  lemma SetOfSequence(ids: seq<string>, t: Tables)
    requires NoDuplicates(ids) && forall j :: j in ids <==> Interrupted(t, j)
    ensures |(set j | j in t.jobs && Interrupted(t, j))| == |ids|
  {
    SizeOfSequence(ids);
    assert (set j | j in t.jobs && Interrupted(t, j)) == (set j | j in ids);
  }

  // ---- what a persisted report leaves behind ----------------------------------

  lemma {:induction false} FilterAll<T>(s: seq<T>, p: T -> bool)
    ensures (forall x :: x in s ==> p(x)) ==> Filter(s, p) == s
    ensures (forall x :: x in s ==> !p(x)) ==> Filter(s, p) == []
  {
    if s != [] { FilterAll(s[1..], p); }
  }

  lemma {:induction false} FilterTwice<T>(s: seq<T>, p: T -> bool, q: T -> bool)
    ensures (forall x :: x in s && q(x) ==> p(x)) ==> Filter(Filter(s, p), q) == Filter(s, q)
    ensures (forall x :: x in s && p(x) ==> !q(x)) ==> Filter(Filter(s, p), q) == []
  {
    if s != [] { FilterTwice(s[1..], p, q); }
  }

  /** The rows of one table after a persist, seen from any investigation. */
  lemma RowsAfterPersist(rows: seq<Row>, entries: seq<(string, string)>, mine: string, other: string)
    ensures var after := Filter(rows, NotOf(mine)) + NewRows(entries, mine);
            Filter(after, Of(other)) ==
            if other == mine then NewRows(entries, mine) else Filter(rows, Of(other))
  {
    var kept, added := Filter(rows, NotOf(mine)), NewRows(entries, mine);
    FilterAppend(kept, added, Of(other));
    FilterAll(added, Of(other));
    FilterTwice(rows, NotOf(mine), Of(other));
  }

  lemma {:induction false} FilterKeepsUniqueKeys(rows: seq<Row>, p: Row -> bool)
    requires UniqueKeys(rows)
    ensures UniqueKeys(Filter(rows, p))
  {
    if rows != [] {
      FilterKeepsUniqueKeys(rows[1..], p);
      assert forall r :: r in rows[1..] ==> r.id != rows[0].id || r.investigation != rows[0].investigation;
    }
  }

  lemma UniqueKeysAfterPersist(rows: seq<Row>, entries: seq<(string, string)>, mine: string)
    requires UniqueKeys(rows) && DistinctIds(entries)
    ensures UniqueKeys(Filter(rows, NotOf(mine)) + NewRows(entries, mine))
  {
    var kept, added := Filter(rows, NotOf(mine)), NewRows(entries, mine);
    var all: seq<Row> := kept + added;
    FilterKeepsUniqueKeys(rows, NotOf(mine));
    forall i, j | 0 <= i < j < |all|
      ensures all[i].id != all[j].id || all[i].investigation != all[j].investigation
    {
      if i < |kept| <= j {
        assert kept[i] in kept;
      }
    }
  }

  /** These rows are those entries, in order, under this investigation. */
  predicate RowsHold(rows: seq<Row>, entries: seq<(string, string)>, investigation: string) {
    && |rows| == |entries|
    && forall k | 0 <= k < |rows| ::
         rows[k].id == entries[k].0 && rows[k].detail == entries[k].1 && rows[k].investigation == investigation
  }

  /**
   * After a successful persist the investigation's session and finding rows are
   * exactly the report's entries in order, its own row is COMPLETED under the report's
   * summary, every other investigation's rows and every job are untouched, and the
   * composite keys are still unique.
   */
  lemma PersistReplacesOnlyItsOwn(t: Tables, mine: string, report: Report, other: string)
    requires CanPersist(t, mine, report) && UniqueKeys(t.sessions) && UniqueKeys(t.findings)
    ensures var after := Persisted(t, mine, report);
            && UniqueKeys(after.sessions) && UniqueKeys(after.findings)
            && RowsHold(Filter(after.sessions, Of(mine)), report.sessions, mine)
            && RowsHold(Filter(after.findings, Of(mine)), report.findings, mine)
            && after.jobs == t.jobs && after.investigations.Keys == t.investigations.Keys
            && after.intelligence[mine] == report.intelligence
            && after.investigations[mine].status == Completed
            && after.investigations[mine].summary == report.summary
            && (report.ml.Some? ==> mine in after.ml && after.ml[mine] == report.ml.value)
            && (report.ml.None? ==> after.ml == t.ml)
            && (other != mine ==>
                && Filter(after.sessions, Of(other)) == Filter(t.sessions, Of(other))
                && Filter(after.findings, Of(other)) == Filter(t.findings, Of(other))
                && (other in after.intelligence <==> other in t.intelligence)
                && (other in t.intelligence ==> after.intelligence[other] == t.intelligence[other])
                && (other in after.ml <==> other in t.ml)
                && (other in t.ml ==> after.ml[other] == t.ml[other])
                && (other in t.investigations ==>
                    after.investigations[other] == t.investigations[other]))
  {
    RowsAfterPersist(t.sessions, report.sessions, mine, mine);
    RowsAfterPersist(t.findings, report.findings, mine, mine);
    RowsAfterPersist(t.sessions, report.sessions, mine, other);
    RowsAfterPersist(t.findings, report.findings, mine, other);
    UniqueKeysAfterPersist(t.sessions, report.sessions, mine);
    UniqueKeysAfterPersist(t.findings, report.findings, mine);
  }

  lemma FilterReplaced(rows: seq<Row>, a: seq<(string, string)>, mine: string)
    ensures Filter(Filter(rows, NotOf(mine)) + NewRows(a, mine), NotOf(mine))
            == Filter(rows, NotOf(mine))
  {
    var kept, added := Filter(rows, NotOf(mine)), NewRows(a, mine);
    FilterAppend(kept, added, NotOf(mine));
    FilterAll(added, NotOf(mine));
    FilterAll(kept, NotOf(mine));
  }

  lemma OverwrittenTwice<K, V>(m: map<K, V>, k: K, x: V, y: V)
    ensures m[k := x][k := y] == m[k := y]
  {
  }

  lemma RerunRows(rows: seq<Row>, first: seq<(string, string)>, second: seq<(string, string)>, mine: string)
    ensures Filter(Filter(rows, NotOf(mine)) + NewRows(first, mine), NotOf(mine)) + NewRows(second, mine)
            == Filter(rows, NotOf(mine)) + NewRows(second, mine)
  {
    FilterReplaced(rows, first, mine);
  }

  /**
   * Running an investigation again leaves exactly what the second run alone
   * would have left, unless the second report has no ML block and the first one
   * wrote a new one, which then stays behind.
   */
  lemma RerunReplaces(t: Tables, mine: string, first: Report, second: Report)
    requires CanPersist(t, mine, first) && CanPersist(t, mine, second)
    ensures CanPersist(Persisted(t, mine, first), mine, second)
    ensures Persisted(Persisted(t, mine, first), mine, second) == Persisted(t, mine, second) <==>
            second.ml.Some? || first.ml.None? || (mine in t.ml && t.ml[mine] == first.ml.value)
  {
    var a := Persisted(t, mine, first);
    var b, c := Persisted(a, mine, second), Persisted(t, mine, second);
    assert b.sessions == c.sessions by { RerunRows(t.sessions, first.sessions, second.sessions, mine); }
    assert b.findings == c.findings by { RerunRows(t.findings, first.findings, second.findings, mine); }
    OverwrittenTwice(t.intelligence, mine, first.intelligence, second.intelligence);
    OverwrittenTwice(t.investigations, mine, InvestigationRow(Completed, first.summary),
                     InvestigationRow(Completed, second.summary));
    assert b == c <==> b.ml == c.ml;
    if second.ml.None? && first.ml.Some? {
      assert b.ml == t.ml[mine := first.ml.value] && c.ml == t.ml;
      if mine in t.ml && t.ml[mine] == first.ml.value { assert b.ml == c.ml; }
    } else if second.ml.Some? && first.ml.Some? {
      OverwrittenTwice(t.ml, mine, first.ml.value, second.ml.value);
    }
  }

  // ---- what recovery guarantees -----------------------------------------------

  /** After recovery nothing looks in progress because of a dead process, and nothing finished changes. */
  lemma RecoveryMeaning(t: Tables)
    ensures var r := Recovered(t);
            && r.jobs.Keys == t.jobs.Keys && r.investigations.Keys == t.investigations.Keys
            && (forall j :: j in r.jobs ==> Terminal(r.jobs[j].status))
            && (forall j :: j in t.jobs && Terminal(t.jobs[j].status) ==> r.jobs[j] == t.jobs[j])
            && (forall i :: i in t.investigations && HadInterruptedJob(t, i)
                            ==> Terminal(r.investigations[i].status))
            && (forall i :: i in t.investigations
                            && (Terminal(t.investigations[i].status) || !HadInterruptedJob(t, i))
                            ==> r.investigations[i] == t.investigations[i])
            && Recovered(r) == r
  {
    var r := Recovered(t);
    assert forall j :: !Interrupted(r, j);
    assert Recovered(r).jobs == r.jobs;
    assert Recovered(r).investigations == r.investigations;
  }
}
