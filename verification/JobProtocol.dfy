/**
 * The analysis service as a concurrent, crash-prone protocol
 * (backend/service.py). A state is the database plus the in-process memory that
 * a crash destroys; an action is one committed transaction or one step of a
 * future. Any interleaving of enabled actions is a run.
 */
module JobProtocol {
  import opened Assessment
  import opened Database

  /** Where a worker thread is inside `_run`. */
  datatype Phase =
    | Submitted            // waiting in the pool
    | Began                // job row RUNNING, investigation row not yet
    | Loaded               // investigation row RUNNING, analysing
    | Persisting           // analysis succeeded
    | Stored               // `_persist` committed, job row not yet COMPLETED
    | Failing              // about to call `_fail`
    | FailingInvestigation // first transaction of `_fail` committed
    | Returned             // `_run` returned, the future not yet done
    | Done                 // `future.done()`

  datatype Worker = Worker(investigation: string, phase: Phase)

  /** `running` maps an investigation to the job of its latest future. */
  datatype State = State(
    db: Tables,
    workers: map<string, Worker>,
    running: map<string, string>,
    lock: Option<(string, string)>)

  datatype Action =
    | Create(investigation: string)
    | StartTransaction(job: string, investigation: string)
    | Submit
    | BeginJob(job: string)
    | BeginInvestigation(job: string)
    | AnalysisFails(job: string)
    | AnalysisSucceeds(job: string)
    | PersistCommits(job: string, report: Report)
    | PersistRollsBack(job: string)
    | CompleteJob(job: string)
    | FailJob(job: string)
    | FailInvestigation(job: string)
    | FutureDone(job: string)
    | CrashAndRestart

  predicate At(s: State, job: string, phase: Phase) {
    job in s.workers && s.workers[job].phase == phase
  }

  function InvestigationOf(s: State, job: string): string {
    if job in s.workers then s.workers[job].investigation else ""
  }

  /** The guard of `start`: no future for the investigation, or a finished one. */
  predicate MayStart(s: State, investigation: string) {
    investigation in s.running ==> At(s, s.running[investigation], Done)
  }

  predicate Enabled(s: State, a: Action) {
    match a
    case Create(i) => i !in s.db.investigations
    case StartTransaction(j, i) =>
      s.lock.None? && i in s.db.investigations && j !in s.db.jobs && MayStart(s, i)
    case Submit => s.lock.Some?
    case BeginJob(j) => At(s, j, Submitted)
    case BeginInvestigation(j) => At(s, j, Began)
    case AnalysisFails(j) => At(s, j, Loaded)
    case AnalysisSucceeds(j) => At(s, j, Loaded)
    case PersistCommits(j, r) => At(s, j, Persisting) && CanPersist(s.db, InvestigationOf(s, j), r)
    case PersistRollsBack(j) => At(s, j, Persisting)
    case CompleteJob(j) => At(s, j, Stored)
    case FailJob(j) => At(s, j, Failing)
    case FailInvestigation(j) => At(s, j, FailingInvestigation)
    case FutureDone(j) => At(s, j, Returned)
    case CrashAndRestart => true
  }

  function Moved(s: State, job: string, phase: Phase): State
    requires job in s.workers
  {
    s.(workers := s.workers[job := s.workers[job].(phase := phase)])
  }

  /** The steps a worker takes; the others are the service's own. */
  predicate WorkerAction(a: Action) {
    !a.CrashAndRestart? && !a.Create? && !a.StartTransaction? && !a.Submit?
  }

  /** What a worker's step commits. */
  function WorkerTables(t: Tables, investigation: string, a: Action): Tables
    requires WorkerAction(a)
  {
    match a
    case BeginJob(j) => WithJobStatus(t, j, Running)
    case BeginInvestigation(_) => WithInvestigationStatus(t, investigation, Running)
    case PersistCommits(_, r) => Persisted(t, investigation, r)
    case CompleteJob(j) => WithJobStatus(t, j, Completed)
    case FailJob(j) => WithJobStatus(t, j, Failed)
    case FailInvestigation(_) => WithInvestigationStatus(t, investigation, Failed)
    case _ => t
  }

  /** Where a worker's step leaves it. */
  function PhaseAfter(a: Action): Phase
    requires WorkerAction(a)
  {
    match a
    case BeginJob(_) => Began
    case BeginInvestigation(_) => Loaded
    case AnalysisFails(_) => Failing
    case AnalysisSucceeds(_) => Persisting
    case PersistCommits(_, _) => Stored
    case PersistRollsBack(_) => Failing
    case CompleteJob(_) => Returned
    case FailJob(_) => FailingInvestigation
    case FailInvestigation(_) => Returned
    case FutureDone(_) => Done
  }

  function Next(s: State, a: Action): State
    requires Enabled(s, a)
  {
    match a
    case Create(i) =>
      s.(db := s.db.(investigations := s.db.investigations[i := InvestigationRow(Queued, "")]))
    case StartTransaction(j, i) =>
      s.(db := WithInvestigationStatus(s.db.(jobs := s.db.jobs[j := Job(i, Queued)]), i, Queued),
         lock := Some((j, i)))
    case Submit =>
      var (j, i) := s.lock.value;
      s.(workers := s.workers[j := Worker(i, Submitted)], running := s.running[i := j], lock := None)
    case CrashAndRestart => State(Recovered(s.db), map[], map[], None)
    case _ =>
      Moved(s.(db := WorkerTables(s.db, InvestigationOf(s, a.job), a)), a.job, PhaseAfter(a))
  }

  /** Every job belongs to a stored investigation: the foreign key. */
  ghost predicate JobsHaveInvestigations(t: Tables) {
    forall j :: j in t.jobs ==> t.jobs[j].investigation in t.investigations
  }

  /** A service that has just started: recovery has run over whatever the file held. */
  ghost predicate Initial(s: State) {
    && s.workers == map[] && s.running == map[] && s.lock.None?
    && JobsHaveInvestigations(s.db)
    && forall j :: j in s.db.jobs ==> Terminal(s.db.jobs[j].status)
  }

  // ---- the invariant ---------------------------------------------------------

  predicate Live(p: Phase) { p != Done }

  function JobStatusAt(p: Phase): Option<Status> {
    match p
    case Submitted => Some(Queued)
    case Began => Some(Running)
    case Loaded => Some(Running)
    case Persisting => Some(Running)
    case Stored => Some(Running)
    case Failing => Some(Running)
    case FailingInvestigation => Some(Failed)
    case Returned => None
    case Done => None
  }

  function InvestigationStatusAt(p: Phase): Option<Status> {
    match p
    case Submitted => Some(Queued)
    case Began => Some(Queued)
    case Loaded => Some(Running)
    case Persisting => Some(Running)
    case Stored => Some(Completed)
    case Failing => Some(Running)
    case FailingInvestigation => Some(Running)
    case Returned => None
    case Done => None
  }

  /** A job row and an investigation row are what a worker's phase says. */
  predicate RowsMatch(t: Tables, j: string, i: string, p: Phase) {
    && j in t.jobs && t.jobs[j].investigation == i && i in t.investigations
    && (match JobStatusAt(p)
        case Some(x) => t.jobs[j].status == x
        case None => Terminal(t.jobs[j].status))
    && (match InvestigationStatusAt(p)
        case Some(x) => t.investigations[i].status == x
        case None => p == Returned ==> Terminal(t.investigations[i].status))
  }

  /** One worker's rows match its phase, and while it lives it is the one registered. */
  ghost predicate WorkerConsistent(s: State, j: string)
    requires j in s.workers
  {
    var w := s.workers[j];
    && RowsMatch(s.db, j, w.investigation, w.phase)
    && (Live(w.phase) ==> w.investigation in s.running && s.running[w.investigation] == j)
  }

  /** A job row in progress has a worker behind it, or is the one being submitted. */
  ghost predicate Accounted(s: State, j: string)
    requires j in s.db.jobs
  {
    Terminal(s.db.jobs[j].status)
    || (j in s.workers && Live(s.workers[j].phase))
    || (s.lock.Some? && s.lock.value.0 == j)
  }

  ghost predicate LockConsistent(s: State) {
    s.lock.Some? ==>
      var (j, i) := s.lock.value;
      && j in s.db.jobs && s.db.jobs[j] == Job(i, Queued) && j !in s.workers
      && i in s.db.investigations && s.db.investigations[i].status == Queued
      && MayStart(s, i)
  }

  ghost predicate Inv(s: State) {
    && JobsHaveInvestigations(s.db)
    && (forall j :: j in s.workers ==> WorkerConsistent(s, j))
    && (forall j :: j in s.db.jobs ==> Accounted(s, j))
    && (forall i :: i in s.running ==>
          s.running[i] in s.workers && s.workers[s.running[i]].investigation == i)
    && LockConsistent(s)
  }

  lemma InitialInv(s: State)
    requires Initial(s)
    ensures Inv(s)
  {
  }

  predicate HasLiveWorker(s: State, j: string, investigation: string) {
    j in s.workers && Live(s.workers[j].phase) && s.workers[j].investigation == investigation
  }

  /** Two live workers of one investigation are the same worker. */
  lemma OneLiveWorker(s: State, j: string, k: string)
    requires Inv(s) && j in s.workers && k in s.workers
    requires Live(s.workers[j].phase) && Live(s.workers[k].phase)
    requires s.workers[j].investigation == s.workers[k].investigation
    ensures j == k
  {
    assert WorkerConsistent(s, j) && WorkerConsistent(s, k);
  }

  /** `t'` differs from `t` at most in the row of job `j` and the row of investigation `i`. */
  ghost predicate OnlyTouches(t: Tables, t': Tables, j: string, i: string) {
    && t'.jobs.Keys == t.jobs.Keys && t'.investigations.Keys == t.investigations.Keys
    && (forall k :: k in t.jobs ==> t'.jobs[k].investigation == t.jobs[k].investigation)
    && (forall k :: k in t.jobs && k != j ==> t'.jobs[k] == t.jobs[k])
    && (forall k :: k in t.investigations && k != i ==> t'.investigations[k] == t.investigations[k])
  }

  // ---- a worker's step on the tables ---------------------------------------------

  lemma JobStatusTouches(t: Tables, j: string, x: Status, i: string)
    ensures OnlyTouches(t, WithJobStatus(t, j, x), j, i)
  {
  }

  lemma InvestigationStatusTouches(t: Tables, i: string, x: Status, j: string)
    ensures OnlyTouches(t, WithInvestigationStatus(t, i, x), j, i)
  {
  }

  lemma PersistTouches(t: Tables, i: string, r: Report, j: string)
    requires i in t.investigations
    ensures OnlyTouches(t, Persisted(t, i, r), j, i)
  {
  }

  /** A worker's step writes its own job row and its own investigation row at most. */
  lemma WorkerTablesTouch(t: Tables, i: string, a: Action)
    requires WorkerAction(a) && i in t.investigations
    ensures OnlyTouches(t, WorkerTables(t, i, a), a.job, i)
  {
    match a
    case BeginJob(j) => JobStatusTouches(t, j, Running, i);
    case BeginInvestigation(j) => InvestigationStatusTouches(t, i, Running, j);
    case PersistCommits(j, r) => PersistTouches(t, i, r, j);
    case CompleteJob(j) => JobStatusTouches(t, j, Completed, i);
    case FailJob(j) => JobStatusTouches(t, j, Failed, i);
    case FailInvestigation(j) => InvestigationStatusTouches(t, i, Failed, j);
    case _ =>
  }

  /** The phase in which a worker's step is enabled. */
  function PhaseBefore(a: Action): Phase
    requires WorkerAction(a)
  {
    match a
    case BeginJob(_) => Submitted
    case BeginInvestigation(_) => Began
    case AnalysisFails(_) => Loaded
    case AnalysisSucceeds(_) => Loaded
    case PersistCommits(_, _) => Persisting
    case PersistRollsBack(_) => Persisting
    case CompleteJob(_) => Stored
    case FailJob(_) => Failing
    case FailInvestigation(_) => FailingInvestigation
    case FutureDone(_) => Returned
  }

  lemma JobStatusMatches(t: Tables, j: string, i: string, x: Status)
    requires j in t.jobs && t.jobs[j].investigation == i && i in t.investigations
    ensures var t' := WithJobStatus(t, j, x);
            && j in t'.jobs && t'.jobs[j] == Job(i, x) && t'.investigations == t.investigations
  {
  }

  lemma InvestigationStatusMatches(t: Tables, i: string, x: Status)
    requires i in t.investigations
    ensures var t' := WithInvestigationStatus(t, i, x);
            i in t'.investigations && t'.investigations[i].status == x && t'.jobs == t.jobs
  {
  }

  lemma JobStepMatches(t: Tables, i: string, a: Action)
    requires WorkerAction(a) && (a.BeginJob? || a.CompleteJob? || a.FailJob?)
    requires RowsMatch(t, a.job, i, PhaseBefore(a))
    ensures RowsMatch(WorkerTables(t, i, a), a.job, i, PhaseAfter(a))
  {
    JobStatusMatches(t, a.job, i, if a.BeginJob? then Running else if a.CompleteJob? then Completed else Failed);
  }

  lemma InvestigationStepMatches(t: Tables, i: string, a: Action)
    requires WorkerAction(a) && (a.BeginInvestigation? || a.FailInvestigation?)
    requires RowsMatch(t, a.job, i, PhaseBefore(a))
    ensures RowsMatch(WorkerTables(t, i, a), a.job, i, PhaseAfter(a))
  {
    InvestigationStatusMatches(t, i, if a.BeginInvestigation? then Running else Failed);
  }

  /** The worker's own rows after its step are what its new phase says. */
  lemma WorkerStepMatches(t: Tables, i: string, a: Action)
    requires WorkerAction(a) && RowsMatch(t, a.job, i, PhaseBefore(a))
    ensures RowsMatch(WorkerTables(t, i, a), a.job, i, PhaseAfter(a))
  {
    if a.BeginJob? || a.CompleteJob? || a.FailJob? {
      JobStepMatches(t, i, a);
    } else if a.BeginInvestigation? || a.FailInvestigation? {
      InvestigationStepMatches(t, i, a);
    }
  }

  // ---- a worker's step on the state -------------------------------------------------

  lemma EnabledWorker(s: State, a: Action)
    requires WorkerAction(a) && Enabled(s, a)
    ensures At(s, a.job, PhaseBefore(a)) && Live(PhaseBefore(a))
    ensures Next(s, a) ==
            Moved(s.(db := WorkerTables(s.db, s.workers[a.job].investigation, a)), a.job, PhaseAfter(a))
  {
  }

  /** Everything a worker's step does, in the terms the invariant is stated in. */
  lemma WorkerActionTouches(s: State, a: Action)
    requires Inv(s) && Enabled(s, a) && WorkerAction(a)
    ensures a.job in s.workers && Live(s.workers[a.job].phase)
    ensures OnlyTouches(s.db, Next(s, a).db, a.job, s.workers[a.job].investigation)
    ensures RowsMatch(Next(s, a).db, a.job, s.workers[a.job].investigation, PhaseAfter(a))
    ensures Next(s, a) == Moved(s.(db := Next(s, a).db), a.job, PhaseAfter(a))
  {
    EnabledWorker(s, a);
    assert WorkerConsistent(s, a.job);
    WorkerTablesTouch(s.db, s.workers[a.job].investigation, a);
    WorkerStepMatches(s.db, s.workers[a.job].investigation, a);
  }

  lemma OtherRowsStay(s: State, j: string, t: Tables, k: string)
    requires Inv(s) && j in s.workers && Live(s.workers[j].phase) && k in s.workers && k != j
    requires OnlyTouches(s.db, t, j, s.workers[j].investigation)
    ensures RowsMatch(t, k, s.workers[k].investigation, s.workers[k].phase)
  {
    assert WorkerConsistent(s, k);
    if s.workers[k].investigation == s.workers[j].investigation { OnlyOneLives(s, j, k); }
  }

  /** A second worker of an investigation has finished, so its phase says nothing of that row. */
  lemma OnlyOneLives(s: State, j: string, k: string)
    requires Inv(s) && j in s.workers && Live(s.workers[j].phase) && k in s.workers && k != j
    requires s.workers[k].investigation == s.workers[j].investigation
    ensures s.workers[k].phase == Done
  {
    if Live(s.workers[k].phase) { OneLiveWorker(s, j, k); }
  }

  lemma LockStays(s: State, j: string, t: Tables, p: Phase)
    requires Inv(s) && j in s.workers && Live(s.workers[j].phase)
    requires OnlyTouches(s.db, t, j, s.workers[j].investigation)
    ensures LockConsistent(Moved(s.(db := t), j, p))
  {
    assert WorkerConsistent(s, j);
  }

  /** Every worker's step keeps the invariant. */
  lemma WorkerStepKeepsInv(s: State, j: string, t: Tables, p: Phase)
    requires Inv(s) && j in s.workers && Live(s.workers[j].phase)
    requires OnlyTouches(s.db, t, j, s.workers[j].investigation)
    requires RowsMatch(t, j, s.workers[j].investigation, p)
    ensures Inv(Moved(s.(db := t), j, p))
  {
    var n := Moved(s.(db := t), j, p);
    assert WorkerConsistent(s, j);
    forall k | k in n.workers ensures WorkerConsistent(n, k) {
      if k != j {
        OtherRowsStay(s, j, t, k);
        assert WorkerConsistent(s, k);
      }
    }
    forall k | k in n.db.jobs ensures Accounted(n, k) {
      assert Accounted(s, k);
      AccountedStays(s, j, t, p, k);
    }
    LockStays(s, j, t, p);
  }

  lemma AccountedStays(s: State, j: string, t: Tables, p: Phase, k: string)
    requires j in s.workers && k in s.db.jobs && Accounted(s, k)
    requires OnlyTouches(s.db, t, j, s.workers[j].investigation)
    requires RowsMatch(t, j, s.workers[j].investigation, p)
    ensures Accounted(Moved(s.(db := t), j, p), k)
  {
  }

  // ---- the service's own steps ---------------------------------------------------------

  lemma CreateKeepsInv(s: State, i: string)
    requires Inv(s) && Enabled(s, Create(i))
    ensures Inv(Next(s, Create(i)))
  {
    var n := Next(s, Create(i));
    forall k | k in n.workers ensures WorkerConsistent(n, k) { assert WorkerConsistent(s, k); }
    forall k | k in n.db.jobs ensures Accounted(n, k) { assert Accounted(s, k); }
  }

  lemma StartKeepsInv(s: State, j: string, i: string)
    requires Inv(s) && Enabled(s, StartTransaction(j, i))
    ensures Inv(Next(s, StartTransaction(j, i)))
  {
    var n := Next(s, StartTransaction(j, i));
    forall k | k in n.workers ensures WorkerConsistent(n, k) { assert WorkerConsistent(s, k); }
    forall k | k in n.db.jobs ensures Accounted(n, k) {
      if k != j { assert Accounted(s, k); }
    }
  }

  lemma SubmitKeepsInv(s: State)
    requires Inv(s) && Enabled(s, Submit)
    ensures Inv(Next(s, Submit))
  {
    var n := Next(s, Submit);
    forall k | k in n.workers ensures WorkerConsistent(n, k) {
      if k in s.workers { assert WorkerConsistent(s, k); }
    }
    forall k | k in n.db.jobs ensures Accounted(n, k) { assert Accounted(s, k); }
  }

  /** A restarted service is a freshly started one. */
  lemma CrashLeavesInitial(s: State)
    requires JobsHaveInvestigations(s.db)
    ensures Initial(Next(s, CrashAndRestart))
  {
    RecoveryMeaning(s.db);
    RecoveredJobsHaveInvestigations(s.db);
  }

  lemma CrashKeepsInv(s: State)
    requires Inv(s)
    ensures Inv(Next(s, CrashAndRestart))
  {
    CrashLeavesInitial(s);
    InitialInv(Next(s, CrashAndRestart));
  }

  lemma RecoveredJobsHaveInvestigations(t: Tables)
    requires JobsHaveInvestigations(t)
    ensures JobsHaveInvestigations(Recovered(t))
  {
    forall j | j in t.jobs ensures Recovered(t).jobs[j].investigation == t.jobs[j].investigation { }
  }

  lemma StepKeepsInv(s: State, a: Action)
    requires Inv(s) && Enabled(s, a)
    ensures Inv(Next(s, a))
  {
    if a.CrashAndRestart? {
      CrashKeepsInv(s);
    } else if a.Create? {
      CreateKeepsInv(s, a.investigation);
    } else if a.StartTransaction? {
      StartKeepsInv(s, a.job, a.investigation);
    } else if a.Submit? {
      SubmitKeepsInv(s);
    } else {
      WorkerActionTouches(s, a);
      WorkerStepKeepsInv(s, a.job, Next(s, a).db, PhaseAfter(a));
    }
  }

  // ---- runs ------------------------------------------------------------------

  /** Any interleaving of enabled actions from a freshly started service. */
  ghost predicate IsRun(states: seq<State>, actions: seq<Action>) {
    && |states| == |actions| + 1
    && Initial(states[0])
    && forall n :: 0 <= n < |actions| ==>
         Enabled(states[n], actions[n]) && states[n + 1] == Next(states[n], actions[n])
  }

  lemma {:induction false} EveryStateHasInv(states: seq<State>, actions: seq<Action>, n: nat)
    requires IsRun(states, actions) && n < |states|
    ensures Inv(states[n])
  {
    if n == 0 {
      InitialInv(states[0]);
    } else {
      EveryStateHasInv(states, actions, n - 1);
      StepKeepsInv(states[n - 1], actions[n - 1]);
    }
  }

  /** A job some process could still be working on. */
  predicate InProgress(s: State, job: string) {
    job in s.db.jobs && !Terminal(s.db.jobs[job].status)
  }

  /** A worker that may still write its investigation's rows. */
  predicate MayStillWrite(s: State, job: string) {
    job in s.workers && s.workers[job].phase != Returned && s.workers[job].phase != Done
  }

  lemma InProgressIsBacked(s: State, j: string)
    requires Inv(s) && InProgress(s, j)
    ensures (j in s.workers && Live(s.workers[j].phase)
             && s.workers[j].investigation == s.db.jobs[j].investigation)
            || (s.lock.Some? && s.lock.value == (j, s.db.jobs[j].investigation))
  {
    assert Accounted(s, j);
    if j in s.workers { assert WorkerConsistent(s, j); }
  }

  lemma LockExcludesLive(s: State, j: string)
    requires Inv(s) && s.lock.Some? && j in s.workers && Live(s.workers[j].phase)
    ensures s.workers[j].investigation != s.lock.value.1
  {
    assert WorkerConsistent(s, j);
  }

  /**
   * In every state of every run, an investigation has at most one job in
   * progress and at most one worker that may still write its rows, and the two
   * are the same job.
   */
  lemma OneJobOneWriter(states: seq<State>, actions: seq<Action>, n: nat, j: string, k: string)
    requires IsRun(states, actions) && n < |states|
    requires InProgress(states[n], j) || MayStillWrite(states[n], j)
    requires InProgress(states[n], k) || MayStillWrite(states[n], k)
    requires j in states[n].db.jobs && k in states[n].db.jobs
    requires states[n].db.jobs[j].investigation == states[n].db.jobs[k].investigation
    ensures j == k
  {
    var s := states[n];
    EveryStateHasInv(states, actions, n);
    if InProgress(s, j) { InProgressIsBacked(s, j); }
    if InProgress(s, k) { InProgressIsBacked(s, k); }
    if j in s.workers { assert WorkerConsistent(s, j); }
    if k in s.workers { assert WorkerConsistent(s, k); }
  }

  /**
   * The late second write of `_fail` never lands on a newer job: when it
   * happens, no job of its investigation is in progress and none is being
   * submitted, and it finds the investigation RUNNING, as its own job left it.
   */
  lemma LateFailureHitsNoNewerJob(states: seq<State>, actions: seq<Action>, n: nat, j: string, k: string)
    requires IsRun(states, actions) && n < |actions| && actions[n] == FailInvestigation(j)
    requires k in states[n].db.jobs
    requires states[n].db.jobs[k].investigation == InvestigationOf(states[n], j)
    ensures Terminal(states[n].db.jobs[k].status)
    ensures states[n].lock.Some? ==> states[n].lock.value.1 != InvestigationOf(states[n], j)
    ensures InvestigationOf(states[n], j) in states[n].db.investigations
    ensures states[n].db.investigations[InvestigationOf(states[n], j)].status == Running
  {
    var s := states[n];
    EveryStateHasInv(states, actions, n);
    assert WorkerConsistent(s, j);
    if InProgress(s, k) { OneJobOneWriter(states, actions, n, j, k); }
    if s.lock.Some? { LockExcludesLive(s, j); }
  }

  /**
   * Why the guard asks the future and not the job row: between the two
   * transactions of `_fail` every job of the investigation is already terminal,
   * yet a new start is still refused.
   */
  lemma GuardOutlastsJobRow(s: State, j: string, k: string)
    requires Inv(s) && At(s, j, FailingInvestigation)
    ensures !MayStart(s, InvestigationOf(s, j))
    ensures k in s.db.jobs && s.db.jobs[k].investigation == InvestigationOf(s, j)
            ==> Terminal(s.db.jobs[k].status)
  {
    assert WorkerConsistent(s, j);
    if s.lock.Some? { LockExcludesLive(s, j); }
    if HasLiveWorker(s, k, InvestigationOf(s, j)) { OneLiveWorker(s, j, k); }
    if InProgress(s, k) { InProgressIsBacked(s, k); }
  }
}
