/**
 * What a run of the job protocol leaves behind (backend/service.py): the status
 * history of every job and the rows of every investigation.
 */
module JobHistories {
  import opened Assessment
  import opened Database
  import opened JobProtocol
  import Sums

  // ---- the history of one job -------------------------------------------------

  function Progress(s: Status): nat {
    match s
    case Queued => 0
    case Running => 1
    case Completed => 2
    case Failed => 2
  }

  /** One step of a job's life: nothing, the next stage, or an end imposed by recovery. */
  ghost predicate JobAdvances(before: Tables, after: Tables, a: Action, j: string) {
    if j !in before.jobs then
      j in after.jobs ==> a.StartTransaction? && a.job == j && after.jobs[j].status == Queued
    else
      && j in after.jobs && after.jobs[j].investigation == before.jobs[j].investigation
      && var x, y := before.jobs[j].status, after.jobs[j].status;
         || x == y
         || (x == Queued && y == Running && a == BeginJob(j))
         || (x == Running && y == Completed && a == CompleteJob(j))
         || (x == Running && y == Failed && a == FailJob(j))
         || (!Terminal(x) && y == Failed && a == CrashAndRestart)
  }

  lemma WorkerStepAdvancesJob(s: State, a: Action, j: string)
    requires Inv(s) && Enabled(s, a) && WorkerAction(a)
    ensures JobAdvances(s.db, Next(s, a).db, a, j)
  {
    WorkerActionTouches(s, a);
    EnabledWorker(s, a);
    assert WorkerConsistent(s, a.job);
    if j == a.job { WorkerStepStatus(s.db, s.workers[j].investigation, a); }
  }

  /** What a worker's step does to its own job's status. */
  lemma WorkerStepStatus(t: Tables, i: string, a: Action)
    requires WorkerAction(a) && RowsMatch(t, a.job, i, PhaseBefore(a))
    ensures var x, y := t.jobs[a.job].status, WorkerTables(t, i, a).jobs[a.job].status;
            || (x == y)
            || (a.BeginJob? && x == Queued && y == Running)
            || (a.CompleteJob? && x == Running && y == Completed)
            || (a.FailJob? && x == Running && y == Failed)
  {
    WorkerStepMatches(t, i, a);
  }

  lemma StepAdvancesJob(s: State, a: Action, j: string)
    requires Inv(s) && Enabled(s, a)
    ensures JobAdvances(s.db, Next(s, a).db, a, j)
  {
    if WorkerAction(a) { WorkerStepAdvancesJob(s, a, j); }
  }

  // ---- over a stretch of a run ---------------------------------------------------

  /** A job in the later tables is the job in the earlier ones, no less far along. */
  predicate JobFollows(before: Tables, after: Tables, j: string) {
    j in before.jobs ==>
      && j in after.jobs && after.jobs[j].investigation == before.jobs[j].investigation
      && Progress(before.jobs[j].status) <= Progress(after.jobs[j].status)
      && (Terminal(before.jobs[j].status) ==> after.jobs[j] == before.jobs[j])
  }

  lemma StepHistory(s: State, a: Action, j: string)
    requires Inv(s) && Enabled(s, a)
    ensures JobFollows(s.db, Next(s, a).db, j)
  {
    StepAdvancesJob(s, a, j);
  }

  lemma JobFollowsTransitive(a: Tables, b: Tables, c: Tables, j: string)
    requires JobFollows(a, b, j) && JobFollows(b, c, j)
    ensures JobFollows(a, c, j)
  {
  }

  lemma RunStep(states: seq<State>, actions: seq<Action>, n: nat, j: string)
    requires IsRun(states, actions) && n < |actions|
    ensures JobFollows(states[n].db, states[n + 1].db, j)
  {
    EveryStateHasInv(states, actions, n);
    StepHistory(states[n], actions[n], j);
  }

  /** Over any stretch of a run a job only moves forward, and a terminal job never changes again. */
  lemma {:induction false} FollowsChain(ts: seq<Tables>, m: nat, n: nat, j: string)
    requires m <= n < |ts|
    requires forall k :: m <= k < n ==> JobFollows(ts[k], ts[k + 1], j)
    ensures JobFollows(ts[m], ts[n], j)
    decreases n - m
  {
    if m < n {
      FollowsChain(ts, m, n - 1, j);
      assert JobFollows(ts[n - 1], ts[n - 1 + 1], j);
      JobFollowsTransitive(ts[m], ts[n - 1], ts[n], j);
    }
  }

  lemma RunFollows(states: seq<State>, actions: seq<Action>, m: nat, n: nat, j: string)
    requires IsRun(states, actions) && m <= n < |states|
    ensures JobFollows(states[m].db, states[n].db, j)
  {
    var ts := seq(|states|, k requires 0 <= k < |states| => states[k].db);
    forall k | m <= k < n ensures JobFollows(ts[k], ts[k + 1], j) {
      RunStep(states, actions, k, j);
    }
    FollowsChain(ts, m, n, j);
  }

  lemma JobHistory(states: seq<State>, actions: seq<Action>, m: nat, n: nat, j: string)
    requires IsRun(states, actions) && m <= n < |states| && j in states[m].db.jobs
    ensures j in states[n].db.jobs
    ensures states[n].db.jobs[j].investigation == states[m].db.jobs[j].investigation
    ensures Progress(states[m].db.jobs[j].status) <= Progress(states[n].db.jobs[j].status)
    ensures Terminal(states[m].db.jobs[j].status) ==> states[n].db.jobs[j] == states[m].db.jobs[j]
  {
    RunFollows(states, actions, m, n, j);
  }

  lemma OnlyPersistStores(s: State, a: Action, j: string)
    requires Enabled(s, a) && At(Next(s, a), j, Stored) && !At(s, j, Stored)
    ensures a.PersistCommits? && a.job == j
  {
    if WorkerAction(a) { EnabledWorker(s, a); }
  }

  lemma StoredInRun(states: seq<State>, actions: seq<Action>, n: nat, j: string)
    requires IsRun(states, actions) && n < |actions| && At(states[n + 1], j, Stored) && !At(states[n], j, Stored)
    ensures actions[n].PersistCommits? && actions[n].job == j
  {
    OnlyPersistStores(states[n], actions[n], j);
  }

  /** A job whose worker is past the persist persisted earlier in the run. */
  lemma StoredMeansPersisted(
    states: seq<State>, actions: seq<Action>, n: nat, j: string) returns (m: nat)
    requires IsRun(states, actions) && n < |states| && At(states[n], j, Stored)
    ensures m < n && actions[m].PersistCommits? && actions[m].job == j
  {
    var stored := seq(|states|, i requires 0 <= i < |states| => At(states[i], j, Stored));
    assert !stored[0] by { NobodyWorksAtFirst(states[0], j); }
    var k := LastRise(stored, n);
    m := k - 1;
    StoredInRun(states, actions, m, j);
  }

  lemma NobodyWorksAtFirst(s: State, j: string)
    requires Initial(s)
    ensures !At(s, j, Stored)
  {
  }

  lemma OnlyCompletionCompletes(s: State, a: Action, j: string)
    requires Inv(s) && Enabled(s, a) && ReadsCompleted(Next(s, a), j)
    ensures ReadsCompleted(s, j) || (a == CompleteJob(j) && At(s, j, Stored))
  {
    StepAdvancesJob(s, a, j);
  }

  predicate ReadsCompleted(s: State, j: string) {
    j in s.db.jobs && s.db.jobs[j].status == Completed
  }

  lemma CompletedInRun(states: seq<State>, actions: seq<Action>, n: nat, j: string)
    requires IsRun(states, actions) && n < |actions| && ReadsCompleted(states[n + 1], j)
    ensures ReadsCompleted(states[n], j) || At(states[n], j, Stored)
  {
    EveryStateHasInv(states, actions, n);
    OnlyCompletionCompletes(states[n], actions[n], j);
  }

  lemma {:induction false} LastRise(holds: seq<bool>, n: nat) returns (m: nat)
    requires n < |holds| && holds[n] && !holds[0]
    ensures 0 < m <= n && holds[m] && !holds[m - 1]
  {
    if holds[n - 1] { m := LastRise(holds, n - 1); } else { m := n; }
  }

  /** Where a COMPLETED job's own completion happened. */
  lemma CompletionStep(states: seq<State>, actions: seq<Action>, n: nat, j: string) returns (m: nat)
    requires IsRun(states, actions) && n < |states| && ReadsCompleted(states[n], j)
    requires !ReadsCompleted(states[0], j)
    ensures m < n && At(states[m], j, Stored)
  {
    var completed := seq(|states|, i requires 0 <= i < |states| => ReadsCompleted(states[i], j));
    var k := LastRise(completed, n);
    m := k - 1;
    CompletedInRun(states, actions, m, j);
  }

  /** Nothing reads COMPLETED without results: its persist transaction committed earlier in the run. */
  lemma CompletedMeansPersisted(
    states: seq<State>, actions: seq<Action>, n: nat, j: string) returns (m: nat)
    requires IsRun(states, actions) && n < |states| && ReadsCompleted(states[n], j)
    requires !ReadsCompleted(states[0], j)
    ensures m < n && actions[m].PersistCommits? && actions[m].job == j
  {
    var c := CompletionStep(states, actions, n, j);
    m := StoredMeansPersisted(states, actions, c, j);
  }

  // ---- the rows ------------------------------------------------------------------

  function SessionsOf(t: Tables, i: string): seq<Row> { Sums.Filter(t.sessions, Of(i)) }

  function FindingsOf(t: Tables, i: string): seq<Row> { Sums.Filter(t.findings, Of(i)) }

  predicate PersistsFor(s: State, a: Action, i: string) {
    a.PersistCommits? && InvestigationOf(s, a.job) == i
  }

  lemma WorkerRowsChange(s: State, a: Action, i: string)
    requires Enabled(s, a) && WorkerAction(a) && !a.PersistCommits?
    ensures Next(s, a).db.sessions == s.db.sessions && Next(s, a).db.findings == s.db.findings
  {
    EnabledWorker(s, a);
  }

  /** Only a committed persist of an investigation touches its rows; a failed attempt changes none. */
  lemma RowsChangeOnlyByPersist(s: State, a: Action, i: string)
    requires Enabled(s, a)
    ensures !PersistsFor(s, a, i) ==>
              SessionsOf(Next(s, a).db, i) == SessionsOf(s.db, i)
              && FindingsOf(Next(s, a).db, i) == FindingsOf(s.db, i)
    ensures PersistsFor(s, a, i) ==>
              SessionsOf(Next(s, a).db, i) == NewRows(a.report.sessions, i)
              && FindingsOf(Next(s, a).db, i) == NewRows(a.report.findings, i)
  {
    if a.PersistCommits? {
      EnabledWorker(s, a);
      RowsAfterPersist(s.db.sessions, a.report.sessions, InvestigationOf(s, a.job), i);
      RowsAfterPersist(s.db.findings, a.report.findings, InvestigationOf(s, a.job), i);
    } else if WorkerAction(a) {
      WorkerRowsChange(s, a, i);
    }
  }

  lemma RowsInRun(states: seq<State>, actions: seq<Action>, n: nat, i: string)
    requires IsRun(states, actions) && n < |actions|
    ensures !PersistsFor(states[n], actions[n], i) ==>
              SessionsOf(states[n + 1].db, i) == SessionsOf(states[n].db, i)
              && FindingsOf(states[n + 1].db, i) == FindingsOf(states[n].db, i)
    ensures PersistsFor(states[n], actions[n], i) ==>
              SessionsOf(states[n + 1].db, i) == NewRows(actions[n].report.sessions, i)
              && FindingsOf(states[n + 1].db, i) == NewRows(actions[n].report.findings, i)
  {
    RowsChangeOnlyByPersist(states[n], actions[n], i);
  }

  lemma {:induction false} Unchanged<T>(values: seq<T>, m: nat, n: nat)
    requires m <= n < |values|
    requires forall k :: m <= k < n ==> values[k + 1] == values[k]
    ensures values[n] == values[m]
    decreases n - m
  {
    if m < n { Unchanged(values, m, n - 1); }
  }

  /** The session and finding rows of one investigation. */
  function RowsIn(s: State, i: string): (seq<Row>, seq<Row>) { (SessionsOf(s.db, i), FindingsOf(s.db, i)) }

  /** Whatever crashed or failed since, the rows are those of the last committed persist. */
  lemma RowsAreLastCommitted(
    states: seq<State>, actions: seq<Action>, m: nat, n: nat, i: string)
    requires IsRun(states, actions) && m < n < |states|
    requires PersistsFor(states[m], actions[m], i)
    requires forall k :: m < k < n ==> !PersistsFor(states[k], actions[k], i)
    ensures SessionsOf(states[n].db, i) == NewRows(actions[m].report.sessions, i)
    ensures FindingsOf(states[n].db, i) == NewRows(actions[m].report.findings, i)
  {
    var rows := seq(|states|, k requires 0 <= k < |states| => RowsIn(states[k], i));
    RowsInRun(states, actions, m, i);
    forall k: nat | m < k < n ensures rows[k + 1] == rows[k] {
      RowsInRun(states, actions, k, i);
    }
    Unchanged(rows, m + 1, n);
  }
}
