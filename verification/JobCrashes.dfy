/**
 * What a crash and restart can leave (backend/service.py, backend/database.py):
 * what recovery repairs, what it does not, and runs that reach both.
 */
module JobCrashes {
  import opened Assessment
  import opened Database
  import opened JobProtocol

  /**
   * After a crash and restart no job is in progress, no investigation that had
   * one is, and no COMPLETED investigation has been overwritten.
   */
  lemma RestartLeavesNothingInProgress(s: State)
    requires Inv(s)
    ensures var r := Next(s, CrashAndRestart);
            && (forall j :: j in r.db.jobs ==> Terminal(r.db.jobs[j].status))
            && (forall j :: InProgress(s, j) ==>
                  Terminal(r.db.investigations[s.db.jobs[j].investigation].status))
            && (forall i :: i in s.db.investigations && Terminal(s.db.investigations[i].status)
                  ==> r.db.investigations[i] == s.db.investigations[i])
            && r.db.sessions == s.db.sessions && r.db.findings == s.db.findings
            && Initial(r)
  {
    hide Recovered;
    RecoveryKeepsRows(s.db);
    RecoveryEndsInvestigations(s.db);
    RecoveryKeepsFinished(s.db);
    CrashLeavesInitial(s);
  }

  lemma RecoveryEndsInvestigations(t: Tables)
    requires JobsHaveInvestigations(t)
    ensures Recovered(t).investigations.Keys == t.investigations.Keys
    ensures forall j :: j in t.jobs && !Terminal(t.jobs[j].status)
                        ==> Terminal(Recovered(t).investigations[t.jobs[j].investigation].status)
  {
    hide Recovered;
    RecoveryMeaning(t);
    forall j | j in t.jobs && !Terminal(t.jobs[j].status) ensures HadInterruptedJob(t, t.jobs[j].investigation) {
      InterruptedShows(t, j);
    }
  }

  lemma RecoveryKeepsFinished(t: Tables)
    ensures Recovered(t).investigations.Keys == t.investigations.Keys
    ensures forall i :: i in t.investigations && Terminal(t.investigations[i].status)
                        ==> Recovered(t).investigations[i] == t.investigations[i]
  {
    hide Recovered, HadInterruptedJob;
    RecoveryMeaning(t);
  }

  lemma RecoveryKeepsRows(t: Tables)
    ensures Recovered(t).sessions == t.sessions && Recovered(t).findings == t.findings
  {
  }

  lemma InterruptedShows(t: Tables, j: string)
    requires j in t.jobs && !Terminal(t.jobs[j].status)
    ensures HadInterruptedJob(t, t.jobs[j].investigation)
  {
    assert Interrupted(t, j);
  }

  /** An investigation that looks in progress although every one of its jobs has ended. */
  ghost predicate StuckIn(t: Tables, i: string) {
    && i in t.investigations && !Terminal(t.investigations[i].status)
    && (exists j :: j in t.jobs && t.jobs[j].investigation == i)
    && (forall j :: j in t.jobs && t.jobs[j].investigation == i ==> Terminal(t.jobs[j].status))
  }

  ghost predicate Stuck(s: State, i: string) { StuckIn(s.db, i) }

  lemma RecoveredJob(t: Tables, j: string)
    requires j in t.jobs
    ensures Recovered(t).jobs[j].investigation == t.jobs[j].investigation
  {
  }

  lemma RecoverySkipsStuck(t: Tables, i: string)
    requires StuckIn(t, i)
    ensures StuckIn(Recovered(t), i)
  {
    RecoveryMeaning(t);
    assert !HadInterruptedJob(t, i);
    var j :| j in t.jobs && t.jobs[j].investigation == i;
    assert Recovered(t).jobs[j] == t.jobs[j];
    forall k | k in t.jobs ensures Recovered(t).jobs[k].investigation == t.jobs[k].investigation {
      RecoveredJob(t, k);
    }
  }

  lemma RecoveryCausesNoStuck(t: Tables, i: string)
    requires StuckIn(Recovered(t), i)
    ensures StuckIn(t, i)
  {
    RecoveryMeaning(t);
    forall k | k in t.jobs ensures Recovered(t).jobs[k].investigation == t.jobs[k].investigation {
      RecoveredJob(t, k);
    }
    forall j | j in t.jobs && t.jobs[j].investigation == i ensures Terminal(t.jobs[j].status) {
      assert Interrupted(t, j) <==> !Terminal(t.jobs[j].status);
    }
  }

  /** Recovery neither creates nor repairs a stuck investigation. */
  lemma RestartKeepsStuck(s: State, i: string)
    requires Inv(s)
    ensures Stuck(Next(s, CrashAndRestart), i) <==> Stuck(s, i)
  {
    if Stuck(s, i) { RecoverySkipsStuck(s.db, i); }
    if Stuck(Next(s, CrashAndRestart), i) { RecoveryCausesNoStuck(s.db, i); }
  }

  /** The only live worker a stuck investigation can have is between the writes of `_fail`. */
  lemma StuckWorker(s: State, j: string)
    requires Inv(s) && j in s.workers && Live(s.workers[j].phase)
    requires Stuck(s, s.workers[j].investigation)
    ensures s.workers[j].phase == FailingInvestigation
  {
    assert WorkerConsistent(s, j);
  }

  // ---- the same investigation in two tables -----------------------------------------

  /** The investigation's row and the rows of its jobs are the same in both. */
  ghost predicate SameFor(t: Tables, t': Tables, i: string) {
    && (i in t.investigations <==> i in t'.investigations)
    && (i in t.investigations ==> t'.investigations[i].status == t.investigations[i].status)
    && (forall j :: j in t.jobs && t.jobs[j].investigation == i ==> j in t'.jobs && t'.jobs[j] == t.jobs[j])
    && (forall j :: j in t'.jobs && t'.jobs[j].investigation == i ==> j in t.jobs)
    && (forall j :: j in t'.jobs && t'.jobs[j].investigation == i && j in t.jobs ==> t.jobs[j].investigation == i)
  }

  lemma SameForKeepsStuck(s: State, n: State, i: string)
    requires SameFor(s.db, n.db, i)
    ensures Stuck(n, i) <==> Stuck(s, i)
  {
    if Stuck(s, i) {
      var j :| j in s.db.jobs && s.db.jobs[j].investigation == i;
      assert j in n.db.jobs && n.db.jobs[j].investigation == i;
    }
    if Stuck(n, i) {
      var j :| j in n.db.jobs && n.db.jobs[j].investigation == i;
      assert j in s.db.jobs && s.db.jobs[j].investigation == i;
    }
  }

  lemma TouchingAnotherIsSame(t: Tables, t': Tables, j: string, own: string, i: string)
    requires OnlyTouches(t, t', j, own) && own != i
    requires j in t.jobs && t.jobs[j].investigation == own
    ensures SameFor(t, t', i)
  {
  }

  lemma StuckElsewhere(s: State, a: Action, i: string)
    requires Inv(s) && Enabled(s, a) && WorkerAction(a) && InvestigationOf(s, a.job) != i
    ensures Stuck(Next(s, a), i) <==> Stuck(s, i)
  {
    WorkerActionTouches(s, a);
    assert WorkerConsistent(s, a.job);
    TouchingAnotherIsSame(s.db, Next(s, a).db, a.job, s.workers[a.job].investigation, i);
    SameForKeepsStuck(s, Next(s, a), i);
  }

  /** Every job of the investigation of a worker between the writes of `_fail` has ended. */
  lemma FailingMeansStuck(s: State, j: string)
    requires Inv(s) && At(s, j, FailingInvestigation)
    ensures Stuck(s, s.workers[j].investigation)
  {
    var i := s.workers[j].investigation;
    assert WorkerConsistent(s, j);
    forall k | k in s.db.jobs && s.db.jobs[k].investigation == i ensures Terminal(s.db.jobs[k].status) {
      GuardOutlastsJobRow(s, j, k);
    }
  }

  /** In any other phase a job is in progress, or its investigation has ended or may be anything. */
  lemma PhaseShowsNotStuck(s: State, j: string)
    requires j in s.workers && s.workers[j].phase != FailingInvestigation && s.workers[j].phase != Done
    requires RowsMatch(s.db, j, s.workers[j].investigation, s.workers[j].phase)
    ensures !Stuck(s, s.workers[j].investigation)
  {
  }

  /** The future of a finished job being done writes nothing. */
  lemma DoneIsNotStuck(s: State, a: Action)
    requires Inv(s) && Enabled(s, a) && a.FutureDone?
    ensures !Stuck(Next(s, a), InvestigationOf(s, a.job))
  {
    assert WorkerConsistent(s, a.job);
    PhaseShowsNotStuck(s, a.job);
    SameForKeepsStuck(s, Next(s, a), InvestigationOf(s, a.job));
  }

  lemma OwnStepIsNotStuck(s: State, a: Action)
    requires Inv(s) && Enabled(s, a) && WorkerAction(a) && !a.FailJob? && !a.FutureDone?
    ensures !Stuck(Next(s, a), InvestigationOf(s, a.job))
  {
    WorkerActionTouches(s, a);
    PhaseShowsNotStuck(Next(s, a), a.job);
  }

  lemma FailJobSticks(s: State, a: Action)
    requires Inv(s) && Enabled(s, a) && a.FailJob?
    ensures Stuck(Next(s, a), InvestigationOf(s, a.job))
  {
    StepKeepsInv(s, a);
    EnabledWorker(s, a);
    FailingMeansStuck(Next(s, a), a.job);
  }

  /** A worker's own step leaves its investigation stuck exactly when it is the first write of `_fail`. */
  lemma StuckByOwnStep(s: State, a: Action)
    requires Inv(s) && Enabled(s, a) && WorkerAction(a)
    ensures Stuck(Next(s, a), InvestigationOf(s, a.job)) <==> a.FailJob?
  {
    if a.FailJob? {
      FailJobSticks(s, a);
    } else if a.FutureDone? {
      DoneIsNotStuck(s, a);
    } else {
      OwnStepIsNotStuck(s, a);
    }
  }

  lemma CreateLeavesStuck(s: State, made: string, i: string)
    requires Inv(s) && Enabled(s, Create(made))
    ensures Stuck(Next(s, Create(made)), i) <==> Stuck(s, i)
  {
    var n := Next(s, Create(made));
    if i == made {
      assert forall j :: j in s.db.jobs ==> s.db.jobs[j].investigation != i;
    } else {
      SameForKeepsStuck(s, n, i);
    }
  }

  lemma StartUnsticks(s: State, j: string, started: string, i: string)
    requires Inv(s) && Enabled(s, StartTransaction(j, started))
    ensures Stuck(Next(s, StartTransaction(j, started)), i) <==> Stuck(s, i) && started != i
  {
    var n := Next(s, StartTransaction(j, started));
    assert j in n.db.jobs && n.db.jobs[j] == Job(started, Queued);
    if i != started { SameForKeepsStuck(s, n, i); }
  }

  lemma StuckByBookkeeping(s: State, a: Action, i: string)
    requires Inv(s) && Enabled(s, a) && (a.Create? || a.StartTransaction? || a.Submit?)
    ensures Stuck(Next(s, a), i) <==>
            Stuck(s, i) && !(a.StartTransaction? && a.investigation == i)
  {
    if a.Create? {
      CreateLeavesStuck(s, a.investigation, i);
    } else if a.StartTransaction? {
      StartUnsticks(s, a.job, a.investigation, i);
    } else {
      SameForKeepsStuck(s, Next(s, a), i);
    }
  }

  /**
   * Exactly how an investigation becomes stuck and unstuck: the first write of
   * `_fail` makes it so, its second write or a new start ends it, and nothing
   * else, a restart included, changes it. A crash between the two writes
   * therefore leaves it stuck until someone starts it again.
   */
  lemma StuckExactly(s: State, a: Action, i: string)
    requires Inv(s) && Enabled(s, a)
    ensures Stuck(Next(s, a), i) <==>
            (a.FailJob? && InvestigationOf(s, a.job) == i)
            || (Stuck(s, i)
                && !(a.FailInvestigation? && InvestigationOf(s, a.job) == i)
                && !(a.StartTransaction? && a.investigation == i))
  {
    if a.CrashAndRestart? {
      RestartKeepsStuck(s, i);
    } else if !WorkerAction(a) {
      StuckByBookkeeping(s, a, i);
    } else if InvestigationOf(s, a.job) != i {
      StuckElsewhere(s, a, i);
    } else {
      StuckByOwnStep(s, a);
      if Stuck(s, i) {
        WorkerActionTouches(s, a);
        StuckWorker(s, a.job);
      }
    }
  }

  /**
   * A crash with a job in progress: the job becomes FAILED in every case, and its
   * investigation stays COMPLETED exactly when the crash fell between the
   * persist commit and the job's own completion; otherwise it becomes FAILED.
   */
  lemma CrashDuringJob(s: State, j: string)
    requires Inv(s) && InProgress(s, j)
    ensures var r := Next(s, CrashAndRestart);
            var i := s.db.jobs[j].investigation;
            && r.db.jobs[j].status == Failed
            && (r.db.investigations[i].status == Completed <==> At(s, j, Stored))
            && (r.db.investigations[i].status == Failed <==> !At(s, j, Stored))
  {
    var p := PhaseOf(s, j);
    RecoveringJob(s.db, j, s.db.jobs[j].investigation, p);
  }

  /** Where a job in progress is: its worker's phase, or about to be submitted. */
  lemma PhaseOf(s: State, j: string) returns (p: Phase)
    requires Inv(s) && InProgress(s, j)
    ensures RowsMatch(s.db, j, s.db.jobs[j].investigation, p)
    ensures p == Stored <==> At(s, j, Stored)
  {
    InProgressIsBacked(s, j);
    if j in s.workers {
      assert WorkerConsistent(s, j);
      p := s.workers[j].phase;
    } else {
      p := Submitted;
    }
  }

  lemma RecoveringJob(t: Tables, j: string, i: string, p: Phase)
    requires RowsMatch(t, j, i, p) && !Terminal(t.jobs[j].status)
    ensures var r := Recovered(t);
            && j in r.jobs && r.jobs[j].status == Failed
            && i in r.investigations
            && (r.investigations[i].status == Completed <==> p == Stored)
            && (r.investigations[i].status == Failed <==> p != Stored)
  {
    assert Interrupted(t, j);
    assert HadInterruptedJob(t, i);
  }

  // ---- concrete runs ----------------------------------------------------------------

  lemma Extended(states: seq<State>, actions: seq<Action>, a: Action)
    returns (states': seq<State>, actions': seq<Action>)
    requires IsRun(states, actions) && Enabled(states[|actions|], a)
    ensures IsRun(states', actions') && actions' == actions + [a]
    ensures states'[|actions'|] == Next(states[|actions|], a)
  {
    states', actions' := states + [Next(states[|actions|], a)], actions + [a];
  }

  /** A worker on its own, taken from a start to the middle of its analysis. */
  lemma BrinkOfAnalysis(j: string, i: string) returns (states: seq<State>, actions: seq<Action>)
    ensures IsRun(states, actions)
    ensures At(states[|actions|], j, Loaded) && InvestigationOf(states[|actions|], j) == i
  {
    var empty := Tables(map[], map[], [], [], map[], map[]);
    states, actions := [State(empty, map[], map[], None)], [];
    states, actions := Extended(states, actions, Create(i));
    states, actions := Extended(states, actions, StartTransaction(j, i));
    states, actions := Extended(states, actions, Submit);
    states, actions := Extended(states, actions, BeginJob(j));
    states, actions := Extended(states, actions, BeginInvestigation(j));
  }

  /** One worker's step, as a run sees it. */
  lemma WorkerExtended(states: seq<State>, actions: seq<Action>, a: Action)
    returns (states': seq<State>, actions': seq<Action>)
    requires IsRun(states, actions) && WorkerAction(a) && Enabled(states[|actions|], a)
    ensures IsRun(states', actions') && actions' == actions + [a]
    ensures states'[|actions'|] == Next(states[|actions|], a)
    ensures At(states'[|actions'|], a.job, PhaseAfter(a))
    ensures InvestigationOf(states'[|actions'|], a.job) == InvestigationOf(states[|actions|], a.job)
  {
    EnabledWorker(states[|actions|], a);
    states', actions' := Extended(states, actions, a);
  }

  /**
   * The gap in recovery is reachable: for any job and investigation there is a
   * run that ends in a restart with the investigation RUNNING and all its jobs
   * ended, and no further restart repairs it.
   */
  lemma StuckAfterRestartIsReachable(j: string, i: string)
    returns (states: seq<State>, actions: seq<Action>)
    ensures IsRun(states, actions) && actions != []
    ensures actions[|actions| - 1] == CrashAndRestart && Stuck(states[|actions|], i)
    ensures Stuck(Next(states[|actions|], CrashAndRestart), i)
  {
    states, actions := BrinkOfAnalysis(j, i);
    states, actions := WorkerExtended(states, actions, AnalysisFails(j));
    states, actions := WorkerExtended(states, actions, FailJob(j));
    EveryStateHasInv(states, actions, |actions|);
    FailingMeansStuck(states[|actions|], j);
    RestartKeepsStuck(states[|actions|], i);
    states, actions := Extended(states, actions, CrashAndRestart);
    EveryStateHasInv(states, actions, |actions|);
    RestartKeepsStuck(states[|actions|], i);
  }

  /** The smallest report `_persist` accepts: one analysed capture and no rows. */
  const SMALL_REPORT: Report := Report(1, [], [], "", None, "")

  /** The job reads FAILED, its investigation COMPLETED. */
  predicate EndsApart(t: Tables, j: string, i: string) {
    && j in t.jobs && t.jobs[j] == Job(i, Failed)
    && i in t.investigations && t.investigations[i].status == Completed
  }

  /** Between the persist commit and completion the two rows recover to different ends. */
  lemma RecoveringStored(t: Tables, j: string, i: string)
    requires RowsMatch(t, j, i, Stored)
    ensures EndsApart(Recovered(t), j, i)
  {
    assert Interrupted(t, j);
  }

  lemma StoredRows(states: seq<State>, actions: seq<Action>, j: string)
    requires IsRun(states, actions) && At(states[|actions|], j, Stored)
    ensures RowsMatch(states[|actions|].db, j, InvestigationOf(states[|actions|], j), Stored)
  {
    EveryStateHasInv(states, actions, |actions|);
    assert WorkerConsistent(states[|actions|], j);
  }

  lemma CrashedAfterPersist(states: seq<State>, actions: seq<Action>, j: string, i: string)
    returns (states': seq<State>, actions': seq<Action>)
    requires IsRun(states, actions) && At(states[|actions|], j, Stored) && InvestigationOf(states[|actions|], j) == i
    ensures IsRun(states', actions') && actions' == actions + [CrashAndRestart]
    ensures EndsApart(states'[|actions'|].db, j, i)
  {
    StoredRows(states, actions, j);
    RecoveringStored(states[|actions|].db, j, i);
    states', actions' := Extended(states, actions, CrashAndRestart);
  }

  lemma Persisting(states: seq<State>, actions: seq<Action>, j: string, i: string)
    returns (states': seq<State>, actions': seq<Action>)
    requires IsRun(states, actions) && At(states[|actions|], j, Phase.Persisting)
    requires InvestigationOf(states[|actions|], j) == i
    ensures IsRun(states', actions') && actions' == actions + [PersistCommits(j, SMALL_REPORT)]
    ensures At(states'[|actions'|], j, Stored) && InvestigationOf(states'[|actions'|], j) == i
  {
    EveryStateHasInv(states, actions, |actions|);
    assert WorkerConsistent(states[|actions|], j);
    states', actions' := WorkerExtended(states, actions, PersistCommits(j, SMALL_REPORT));
  }

  /**
   * Work that committed can still read as failed: for any job and investigation
   * there is a run whose crash falls between the persist commit and the job's own
   * completion, and afterwards the job reads FAILED beside a COMPLETED investigation.
   */
  lemma FailedJobBesideCompletedInvestigation(j: string, i: string)
    returns (states: seq<State>, actions: seq<Action>)
    ensures IsRun(states, actions) && |actions| >= 2
    ensures actions[|actions| - 2] == PersistCommits(j, SMALL_REPORT)
    ensures actions[|actions| - 1] == CrashAndRestart
    ensures EndsApart(states[|actions|].db, j, i)
  {
    states, actions := BrinkOfAnalysis(j, i);
    states, actions := WorkerExtended(states, actions, AnalysisSucceeds(j));
    states, actions := Persisting(states, actions, j, i);
    states, actions := CrashedAfterPersist(states, actions, j, i);
  }
}
