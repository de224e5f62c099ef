/**
 * What each worker does over a whole run (backend/service.py): its steps, in order,
 * are the beginning of one of the three courses `_run` can take, and each of the
 * three is a run. So how the analysis and the persist went decides how a job ends.
 */
module JobStories {
  import opened Assessment
  import opened Database
  import opened JobProtocol
  import opened JobHistories
  import opened JobCrashes

  // ---- the three courses ----------------------------------------------------------

  /** Analysed, persisted, completed. */
  function Success(j: string, r: Report): seq<Action> {
    [BeginJob(j), BeginInvestigation(j), AnalysisSucceeds(j), PersistCommits(j, r), CompleteJob(j), FutureDone(j)]
  }

  /** Analysed, but the persist raised: `_fail`. */
  function Unpersisted(j: string): seq<Action> {
    [BeginJob(j), BeginInvestigation(j), AnalysisSucceeds(j), PersistRollsBack(j), FailJob(j), FailInvestigation(j),
     FutureDone(j)]
  }

  /** The analysis raised: `_fail`. */
  function Unanalysed(j: string): seq<Action> {
    [BeginJob(j), BeginInvestigation(j), AnalysisFails(j), FailJob(j), FailInvestigation(j), FutureDone(j)]
  }

  /** The steps job `j`'s worker takes among these actions, in order. */
  function StepsOf(actions: seq<Action>, j: string): seq<Action> {
    if actions == [] then []
    else
      var last := actions[|actions| - 1];
      StepsOf(actions[..|actions| - 1], j) + if WorkerAction(last) && last.job == j then [last] else []
  }

  /** The steps are the beginning of one of the three courses. */
  ghost predicate Underway(steps: seq<Action>, j: string) {
    (exists r :: steps <= Success(j, r)) || steps <= Unpersisted(j) || steps <= Unanalysed(j)
  }

  // ---- the course and the phase agree ------------------------------------------------

  /** What a worker in this phase has done so far. */
  ghost predicate LeadsTo(steps: seq<Action>, j: string, p: Phase) {
    match p
    case Submitted => steps == []
    case Began => steps == Unanalysed(j)[..1]
    case Loaded => steps == Unanalysed(j)[..2]
    case Persisting => steps == Unpersisted(j)[..3]
    case Stored => exists r :: steps == Success(j, r)[..4]
    case Failing => steps == Unanalysed(j)[..3] || steps == Unpersisted(j)[..4]
    case FailingInvestigation => steps == Unanalysed(j)[..4] || steps == Unpersisted(j)[..5]
    case Returned =>
      || (exists r :: steps == Success(j, r)[..5]) || steps == Unanalysed(j)[..5] || steps == Unpersisted(j)[..6]
    case Done => (exists r :: steps == Success(j, r)) || steps == Unanalysed(j) || steps == Unpersisted(j)
  }

  lemma LeadsToIsUnderway(steps: seq<Action>, j: string, p: Phase)
    requires LeadsTo(steps, j, p)
    ensures Underway(steps, j)
  {
    match p
    case Stored =>
      var r :| steps == Success(j, r)[..4];
      assert steps <= Success(j, r);
    case Returned =>
      if r :| steps == Success(j, r)[..5] { assert steps <= Success(j, r); }
    case Done =>
      if r :| steps == Success(j, r) { assert steps <= Success(j, r); }
    case _ =>
  }

  lemma SuccessSteps(steps: seq<Action>, a: Action, j: string)
    requires WorkerAction(a) && a.job == j && LeadsTo(steps, j, PhaseBefore(a))
    requires a.PersistCommits? || a.CompleteJob?
    ensures LeadsTo(steps + [a], j, PhaseAfter(a))
  {
    if a.PersistCommits? {
      assert steps + [a] == Success(j, a.report)[..4];
    } else {
      var r :| steps == Success(j, r)[..4];
      assert steps + [a] == Success(j, r)[..5];
    }
  }

  lemma FailureSteps(steps: seq<Action>, a: Action, j: string)
    requires WorkerAction(a) && a.job == j && LeadsTo(steps, j, PhaseBefore(a))
    requires a.PersistRollsBack? || a.FailJob? || a.FailInvestigation?
    ensures LeadsTo(steps + [a], j, PhaseAfter(a))
  {
    var t := steps + [a];
    if a.PersistRollsBack? {
      assert t == Unpersisted(j)[..4];
    } else if a.FailJob? {
      assert if steps == Unanalysed(j)[..3] then t == Unanalysed(j)[..4] else t == Unpersisted(j)[..5];
    } else {
      assert if steps == Unanalysed(j)[..4] then t == Unanalysed(j)[..5] else t == Unpersisted(j)[..6];
    }
  }

  lemma EarlySteps(steps: seq<Action>, a: Action, j: string)
    requires WorkerAction(a) && a.job == j && LeadsTo(steps, j, PhaseBefore(a))
    requires a.BeginJob? || a.BeginInvestigation? || a.AnalysisFails? || a.AnalysisSucceeds?
    ensures LeadsTo(steps + [a], j, PhaseAfter(a))
  {
    if a.BeginJob? { assert steps + [a] == Unanalysed(j)[..1]; }
    if a.BeginInvestigation? { assert steps + [a] == Unanalysed(j)[..2]; }
    if a.AnalysisFails? { assert steps + [a] == Unanalysed(j)[..3]; }
    if a.AnalysisSucceeds? { assert steps + [a] == Unpersisted(j)[..3]; }
  }

  lemma LastStep(steps: seq<Action>, a: Action, j: string)
    requires WorkerAction(a) && a.job == j && LeadsTo(steps, j, PhaseBefore(a)) && a.FutureDone?
    ensures LeadsTo(steps + [a], j, PhaseAfter(a))
  {
    if r :| steps == Success(j, r)[..5] { assert steps + [a] == Success(j, r); }
    if steps == Unanalysed(j)[..5] { assert steps + [a] == Unanalysed(j); }
    if steps == Unpersisted(j)[..6] { assert steps + [a] == Unpersisted(j); }
  }

  lemma StepContinues(steps: seq<Action>, a: Action, j: string)
    requires WorkerAction(a) && a.job == j && LeadsTo(steps, j, PhaseBefore(a))
    ensures LeadsTo(steps + [a], j, PhaseAfter(a))
  {
    hide LeadsTo;
    if a.FutureDone? {
      LastStep(steps, a, j);
    } else if a.PersistCommits? || a.CompleteJob? {
      SuccessSteps(steps, a, j);
    } else if a.PersistRollsBack? || a.FailJob? || a.FailInvestigation? {
      FailureSteps(steps, a, j);
    } else {
      EarlySteps(steps, a, j);
    }
  }

  // ---- over a run ---------------------------------------------------------------------

  /** What is known of job `j` when its worker has taken these steps. */
  ghost predicate Told(s: State, steps: seq<Action>, j: string) {
    && Underway(steps, j)
    && (j in s.workers ==> LeadsTo(steps, j, s.workers[j].phase))
    && (j !in s.db.jobs || (s.lock.Some? && s.lock.value.0 == j) ==> steps == [])
  }

  lemma NothingTold(s: State, j: string)
    requires Initial(s)
    ensures Told(s, [], j)
  {
    assert [] <= Unanalysed(j);
  }

  lemma OwnStepTold(s: State, a: Action, steps: seq<Action>)
    requires Inv(s) && Enabled(s, a) && WorkerAction(a) && Told(s, steps, a.job)
    ensures Told(Next(s, a), steps + [a], a.job)
  {
    hide LeadsTo, Underway, WorkerTables;
    EnabledWorker(s, a);
    WorkerActionTouches(s, a);
    assert WorkerConsistent(s, a.job);
    StepContinues(steps, a, a.job);
    LeadsToIsUnderway(steps + [a], a.job, PhaseAfter(a));
  }

  lemma OtherStepTold(s: State, a: Action, steps: seq<Action>, j: string)
    requires Inv(s) && Enabled(s, a) && WorkerAction(a) && a.job != j && Told(s, steps, j)
    ensures Told(Next(s, a), steps, j)
  {
    hide LeadsTo, Underway, WorkerTables;
    EnabledWorker(s, a);
    WorkerActionTouches(s, a);
  }

  lemma NoStepsYet(j: string)
    ensures LeadsTo([], j, Submitted)
  {
  }

  lemma ServiceStepTold(s: State, a: Action, steps: seq<Action>, j: string)
    requires Inv(s) && Enabled(s, a) && !WorkerAction(a) && Told(s, steps, j)
    ensures Told(Next(s, a), steps, j)
  {
    hide Underway, LeadsTo;
    if a.CrashAndRestart? {
      CrashTold(s, steps, j);
    } else {
      NoStepsYet(j);
      if j in s.workers { assert WorkerConsistent(s, j); }
    }
  }

  lemma CrashTold(s: State, steps: seq<Action>, j: string)
    requires Inv(s) && Told(s, steps, j)
    ensures Told(Next(s, CrashAndRestart), steps, j)
  {
    hide Underway, LeadsTo, Recovered;
    RecoveryMeaning(s.db);
  }

  lemma StepTold(s: State, a: Action, steps: seq<Action>, j: string)
    requires Inv(s) && Enabled(s, a) && Told(s, steps, j)
    ensures Told(Next(s, a), steps + (if WorkerAction(a) && a.job == j then [a] else []), j)
  {
    hide Told, Inv, Next, Enabled;
    if !WorkerAction(a) {
      ServiceStepTold(s, a, steps, j);
      assert steps + [] == steps;
    } else if a.job == j {
      OwnStepTold(s, a, steps);
    } else {
      OtherStepTold(s, a, steps, j);
      assert steps + [] == steps;
    }
  }

  lemma StepsOfNext(actions: seq<Action>, n: nat, j: string)
    requires n < |actions|
    ensures StepsOf(actions[..n + 1], j) ==
            StepsOf(actions[..n], j) + if WorkerAction(actions[n]) && actions[n].job == j then [actions[n]] else []
  {
    assert actions[..n + 1][..n] == actions[..n];
  }

  lemma {:induction false} RunTold(states: seq<State>, actions: seq<Action>, n: nat, j: string)
    requires IsRun(states, actions) && n < |states|
    ensures Told(states[n], StepsOf(actions[..n], j), j)
  {
    hide Told, Inv, Next, Enabled, StepsOf;
    if n == 0 {
      StartTold(states, actions, j);
    } else {
      RunTold(states, actions, n - 1, j);
      EveryStateHasInv(states, actions, n - 1);
      StepTold(states[n - 1], actions[n - 1], StepsOf(actions[..n - 1], j), j);
      StepsOfNext(actions, n - 1, j);
    }
  }

  lemma StartTold(states: seq<State>, actions: seq<Action>, j: string)
    requires IsRun(states, actions)
    ensures Told(states[0], StepsOf(actions[..0], j), j)
  {
    NothingTold(states[0], j);
  }

  /**
   * In every run, whatever the other workers and however often the service crashed,
   * the steps taken for a job are the beginning of one of the three courses.
   */
  lemma EveryJobFollowsACourse(states: seq<State>, actions: seq<Action>, j: string)
    requires IsRun(states, actions)
    ensures Underway(StepsOf(actions, j), j)
  {
    RunTold(states, actions, |actions|, j);
    assert actions[..|actions|] == actions;
  }

  // ---- how the analysis went decides how the job ends -----------------------------------

  lemma {:induction false} StepsAreActions(actions: seq<Action>, j: string, a: Action)
    ensures a in StepsOf(actions, j) <==> a in actions && WorkerAction(a) && a.job == j
  {
    if actions != [] {
      var front, last := actions[..|actions| - 1], actions[|actions| - 1];
      StepsAreActions(front, j, a);
      assert a in actions <==> a in front || a == last;
    }
  }

  predicate Persists(steps: seq<Action>) { exists i :: 0 <= i < |steps| && steps[i].PersistCommits? }

  /** What the last step of a course says of the steps before it. */
  lemma CourseSoFar(steps: seq<Action>, j: string)
    requires Underway(steps, j)
    ensures CompleteJob(j) in steps ==>
              && AnalysisSucceeds(j) in steps && Persists(steps)
              && AnalysisFails(j) !in steps && PersistRollsBack(j) !in steps && FailJob(j) !in steps
    ensures FailJob(j) in steps ==>
              && (AnalysisFails(j) in steps || PersistRollsBack(j) in steps)
              && !Persists(steps) && CompleteJob(j) !in steps
    ensures AnalysisFails(j) in steps ==> AnalysisSucceeds(j) !in steps && !Persists(steps)
    ensures PersistRollsBack(j) in steps ==> AnalysisSucceeds(j) in steps && !Persists(steps)
  {
    if r :| steps <= Success(j, r) {
      SuccessSoFar(steps, j, r);
    } else if steps <= Unpersisted(j) {
      UnpersistedSoFar(steps, j);
    } else {
      UnanalysedSoFar(steps, j);
    }
  }

  lemma SuccessSoFar(steps: seq<Action>, j: string, r: Report)
    requires steps <= Success(j, r)
    ensures CompleteJob(j) in steps ==> AnalysisSucceeds(j) in steps && Persists(steps)
    ensures AnalysisFails(j) !in steps && PersistRollsBack(j) !in steps && FailJob(j) !in steps
  {
    assert forall i :: 0 <= i < |steps| ==> steps[i] == Success(j, r)[i];
    if CompleteJob(j) in steps {
      assert |steps| >= 5 && steps[2] == AnalysisSucceeds(j) && steps[3].PersistCommits?;
    }
  }

  lemma UnpersistedSoFar(steps: seq<Action>, j: string)
    requires steps <= Unpersisted(j)
    ensures CompleteJob(j) !in steps && AnalysisFails(j) !in steps && !Persists(steps)
    ensures PersistRollsBack(j) in steps ==> AnalysisSucceeds(j) in steps
    ensures FailJob(j) in steps ==> PersistRollsBack(j) in steps
  {
    assert forall i :: 0 <= i < |steps| ==> steps[i] == Unpersisted(j)[i];
    if PersistRollsBack(j) in steps { assert |steps| >= 4 && steps[2] == AnalysisSucceeds(j); }
    if FailJob(j) in steps { assert |steps| >= 5 && steps[3] == PersistRollsBack(j); }
  }

  lemma UnanalysedSoFar(steps: seq<Action>, j: string)
    requires steps <= Unanalysed(j)
    ensures CompleteJob(j) !in steps && AnalysisSucceeds(j) !in steps && PersistRollsBack(j) !in steps
    ensures !Persists(steps) && (FailJob(j) in steps ==> AnalysisFails(j) in steps)
  {
    assert forall i :: 0 <= i < |steps| ==> steps[i] == Unanalysed(j)[i];
    if FailJob(j) in steps { assert |steps| >= 4 && steps[2] == AnalysisFails(j); }
  }

  /** Some persist of this job is among the actions. */
  predicate PersistedAmong(actions: seq<Action>, j: string) {
    exists i :: 0 <= i < |actions| && actions[i].PersistCommits? && actions[i].job == j
  }

  lemma PersistsAmong(actions: seq<Action>, j: string)
    ensures Persists(StepsOf(actions, j)) <==> PersistedAmong(actions, j)
  {
    var steps := StepsOf(actions, j);
    if Persists(steps) {
      var i :| 0 <= i < |steps| && steps[i].PersistCommits?;
      StepsAreActions(actions, j, steps[i]);
      assert steps[i] in steps;
    }
    if i :| 0 <= i < |actions| && actions[i].PersistCommits? && actions[i].job == j {
      StepsAreActions(actions, j, actions[i]);
      assert actions[i] in steps;
    }
  }

  /**
   * In every run: a completed job was analysed and persisted and neither ever failed; a
   * failed one failed its analysis or its persist and never persisted; and a job whose
   * analysis failed never persists, before or after.
   */
  lemma OutcomeFollowsAnalysis(states: seq<State>, actions: seq<Action>, j: string)
    requires IsRun(states, actions)
    ensures CompleteJob(j) in actions ==>
              && AnalysisSucceeds(j) in actions && PersistedAmong(actions, j)
              && AnalysisFails(j) !in actions && PersistRollsBack(j) !in actions && FailJob(j) !in actions
    ensures FailJob(j) in actions ==>
              && (AnalysisFails(j) in actions || PersistRollsBack(j) in actions)
              && !PersistedAmong(actions, j) && CompleteJob(j) !in actions
    ensures AnalysisFails(j) in actions ==> AnalysisSucceeds(j) !in actions && !PersistedAmong(actions, j)
    ensures PersistRollsBack(j) in actions ==> AnalysisSucceeds(j) in actions && !PersistedAmong(actions, j)
  {
    hide StepsOf, Underway, Persists, PersistedAmong;
    var steps := StepsOf(actions, j);
    EveryJobFollowsACourse(states, actions, j);
    CourseSoFar(steps, j);
    PersistsAmong(actions, j);
    StepsAreActions(actions, j, CompleteJob(j));
    StepsAreActions(actions, j, FailJob(j));
    StepsAreActions(actions, j, AnalysisFails(j));
    StepsAreActions(actions, j, AnalysisSucceeds(j));
    StepsAreActions(actions, j, PersistRollsBack(j));
  }

  lemma RunPrefix(states: seq<State>, actions: seq<Action>, n: nat)
    requires IsRun(states, actions) && n <= |actions|
    ensures IsRun(states[..n + 1], actions[..n])
  {
  }

  /** So what an end rests on happened before it. */
  lemma CauseComesFirst(states: seq<State>, actions: seq<Action>, n: nat, j: string)
    requires IsRun(states, actions) && n < |actions|
    ensures actions[n] == CompleteJob(j) ==> AnalysisSucceeds(j) in actions[..n] && PersistedAmong(actions[..n], j)
    ensures actions[n] == FailJob(j) ==> AnalysisFails(j) in actions[..n] || PersistRollsBack(j) in actions[..n]
  {
    var before, upto := actions[..n], actions[..n + 1];
    RunPrefix(states, actions, n + 1);
    assert upto == before + [actions[n]];
    if actions[n] == CompleteJob(j) || actions[n] == FailJob(j) {
      assert actions[n] in upto;
      OutcomeFollowsAnalysis(states[..n + 2], upto, j);
      if i :| 0 <= i < |upto| && upto[i].PersistCommits? && upto[i].job == j {
        assert before[i] == upto[i];
      }
    }
  }

  // ---- what the rows say at each step ----------------------------------------------------

  predicate RowsRead(t: Tables, j: string, i: string, job: Status, investigation: Status) {
    && j in t.jobs && t.jobs[j] == Job(i, job)
    && i in t.investigations && t.investigations[i].status == investigation
  }

  /** The two rows after every step that writes one. */
  lemma RowsAfterStep(s: State, a: Action)
    requires Inv(s) && Enabled(s, a) && WorkerAction(a)
    ensures var t, i := Next(s, a).db, InvestigationOf(s, a.job);
            && (a.BeginJob? ==> RowsRead(t, a.job, i, Running, Queued))
            && (a.BeginInvestigation? ==> RowsRead(t, a.job, i, Running, Running))
            && (a.PersistCommits? ==> RowsRead(t, a.job, i, Running, Completed))
            && (a.CompleteJob? ==> RowsRead(t, a.job, i, Completed, Completed))
            && (a.FailJob? ==> RowsRead(t, a.job, i, Failed, Running))
            && (a.FailInvestigation? ==> RowsRead(t, a.job, i, Failed, Failed))
            && (a.AnalysisFails? || a.AnalysisSucceeds? || a.PersistRollsBack? || a.FutureDone? ==> t == s.db)
  {
    EnabledWorker(s, a);
    assert WorkerConsistent(s, a.job);
    RowsAfter(s.db, s.workers[a.job].investigation, a);
  }

  lemma RowsAfter(t: Tables, i: string, a: Action)
    requires WorkerAction(a) && RowsMatch(t, a.job, i, PhaseBefore(a))
    ensures var t' := WorkerTables(t, i, a);
            && (a.BeginJob? ==> RowsRead(t', a.job, i, Running, Queued))
            && (a.BeginInvestigation? ==> RowsRead(t', a.job, i, Running, Running))
            && (a.PersistCommits? ==> RowsRead(t', a.job, i, Running, Completed))
            && (a.CompleteJob? ==> RowsRead(t', a.job, i, Completed, Completed))
            && (a.FailJob? ==> RowsRead(t', a.job, i, Failed, Running))
            && (a.FailInvestigation? ==> RowsRead(t', a.job, i, Failed, Failed))
            && (a.AnalysisFails? || a.AnalysisSucceeds? || a.PersistRollsBack? || a.FutureDone? ==> t' == t)
  {
  }

  // ---- starting ----------------------------------------------------------------------------

  /** A start is refused exactly while a worker of the investigation is alive. */
  lemma StartRefusedExactly(s: State, j: string, i: string)
    requires Inv(s) && s.lock.None? && i in s.db.investigations && j !in s.db.jobs
    ensures Enabled(s, StartTransaction(j, i)) <==> !exists k :: HasLiveWorker(s, k, i)
    ensures Enabled(s, StartTransaction(j, i)) ==>
              RowsRead(Next(s, StartTransaction(j, i)).db, j, i, Queued, Queued)
              && Next(s, StartTransaction(j, i)).lock == Some((j, i))
  {
    if k :| HasLiveWorker(s, k, i) { assert WorkerConsistent(s, k); }
    if !MayStart(s, i) { assert HasLiveWorker(s, s.running[i], i); }
  }

  /** No job was ever recorded for the investigation. */
  ghost predicate Unstarted(t: Tables, i: string) {
    forall j :: j in t.jobs ==> t.jobs[j].investigation != i
  }

  lemma UnstartedStep(s: State, a: Action, i: string)
    requires Inv(s) && Enabled(s, a) && Unstarted(Next(s, a).db, i)
    ensures Unstarted(s.db, i)
    ensures i in Next(s, a).db.investigations ==>
              if i in s.db.investigations
              then Next(s, a).db.investigations[i].status == s.db.investigations[i].status
              else a == Create(i) && Next(s, a).db.investigations[i].status == Queued
  {
    forall j | j in s.db.jobs ensures s.db.jobs[j].investigation != i { StepAdvancesJob(s, a, j); }
    if WorkerAction(a) {
      WorkerActionTouches(s, a);
      assert WorkerConsistent(s, a.job);
    } else if a.CrashAndRestart? {
      RecoveryMeaning(s.db);
      assert !HadInterruptedJob(s.db, i);
    } else if a.StartTransaction? {
      assert a.job in Next(s, a).db.jobs && Next(s, a).db.jobs[a.job].investigation == a.investigation;
    }
  }

  /** An investigation made during a run reads QUEUED until something is started for it. */
  lemma {:induction false} UnstartedReadsQueued(states: seq<State>, actions: seq<Action>, n: nat, i: string)
    requires IsRun(states, actions) && n < |states| && i !in states[0].db.investigations
    requires i in states[n].db.investigations && Unstarted(states[n].db, i)
    ensures states[n].db.investigations[i].status == Queued
  {
    if n > 0 {
      EveryStateHasInv(states, actions, n - 1);
      UnstartedStep(states[n - 1], actions[n - 1], i);
      if i in states[n - 1].db.investigations { UnstartedReadsQueued(states, actions, n - 1, i); }
    }
  }

  // ---- each course is a run --------------------------------------------------------------

  lemma StepsOfExtended(actions: seq<Action>, a: Action, j: string)
    ensures StepsOf(actions + [a], j) == StepsOf(actions, j) + if WorkerAction(a) && a.job == j then [a] else []
  {
    StepsOfNext(actions + [a], |actions|, j);
    assert (actions + [a])[..|actions| + 1] == actions + [a] && (actions + [a])[..|actions|] == actions;
  }

  lemma Stepped(states: seq<State>, actions: seq<Action>, a: Action, j: string, i: string, steps: seq<Action>)
    returns (states': seq<State>, actions': seq<Action>)
    requires IsRun(states, actions) && WorkerAction(a) && Enabled(states[|actions|], a) && a.job == j
    requires StepsOf(actions, j) == steps && InvestigationOf(states[|actions|], j) == i
    ensures IsRun(states', actions') && StepsOf(actions', j) == steps + [a]
    ensures At(states'[|actions'|], j, PhaseAfter(a)) && InvestigationOf(states'[|actions'|], j) == i
    ensures states'[|actions'|] == Next(states[|actions|], a)
  {
    StepsOfExtended(actions, a, j);
    states', actions' := WorkerExtended(states, actions, a);
  }

  /** A first start of a fresh investigation, its worker waiting in the pool. */
  lemma FreshStart(j: string, i: string) returns (states: seq<State>, actions: seq<Action>)
    ensures IsRun(states, actions) && StepsOf(actions, j) == []
    ensures At(states[|actions|], j, Submitted) && InvestigationOf(states[|actions|], j) == i
  {
    var empty := Tables(map[], map[], [], [], map[], map[]);
    states, actions := [State(empty, map[], map[], None)], [];
    states, actions := Extended(states, actions, Create(i));
    states, actions := Extended(states, actions, StartTransaction(j, i));
    states, actions := Extended(states, actions, Submit);
    StepsOfExtended([Create(i), StartTransaction(j, i)], Submit, j);
    StepsOfExtended([Create(i)], StartTransaction(j, i), j);
    assert [Create(i), StartTransaction(j, i)] == [Create(i)] + [StartTransaction(j, i)];
    assert actions == [Create(i), StartTransaction(j, i)] + [Submit];
  }

  lemma Analysing(j: string, i: string) returns (states: seq<State>, actions: seq<Action>)
    ensures IsRun(states, actions) && StepsOf(actions, j) == [BeginJob(j), BeginInvestigation(j)]
    ensures At(states[|actions|], j, Loaded) && InvestigationOf(states[|actions|], j) == i
  {
    states, actions := FreshStart(j, i);
    states, actions := Stepped(states, actions, BeginJob(j), j, i, []);
    states, actions := Stepped(states, actions, BeginInvestigation(j), j, i, [BeginJob(j)]);
  }

  /** `_fail`, then the future is done. */
  lemma FailingToTheEnd(states: seq<State>, actions: seq<Action>, j: string, i: string, steps: seq<Action>)
    returns (states': seq<State>, actions': seq<Action>)
    requires IsRun(states, actions) && StepsOf(actions, j) == steps
    requires At(states[|actions|], j, Failing) && InvestigationOf(states[|actions|], j) == i
    ensures IsRun(states', actions')
    ensures StepsOf(actions', j) == steps + [FailJob(j)] + [FailInvestigation(j)] + [FutureDone(j)]
  {
    states', actions' := Stepped(states, actions, FailJob(j), j, i, steps);
    states', actions' := Stepped(states', actions', FailInvestigation(j), j, i, steps + [FailJob(j)]);
    states', actions' :=
      Stepped(states', actions', FutureDone(j), j, i, steps + [FailJob(j)] + [FailInvestigation(j)]);
  }

  /** An analysis that raises is a run, for any job and investigation. */
  lemma UnanalysedRuns(j: string, i: string) returns (states: seq<State>, actions: seq<Action>)
    ensures IsRun(states, actions) && StepsOf(actions, j) == Unanalysed(j)
  {
    hide IsRun, StepsOf, Next, InvestigationOf;
    states, actions := Analysing(j, i);
    states, actions := Stepped(states, actions, AnalysisFails(j), j, i, [BeginJob(j), BeginInvestigation(j)]);
    states, actions :=
      FailingToTheEnd(states, actions, j, i, [BeginJob(j), BeginInvestigation(j)] + [AnalysisFails(j)]);
  }

  lemma Analysed(j: string, i: string) returns (states: seq<State>, actions: seq<Action>)
    ensures IsRun(states, actions)
    ensures StepsOf(actions, j) == [BeginJob(j), BeginInvestigation(j)] + [AnalysisSucceeds(j)]
    ensures At(states[|actions|], j, Phase.Persisting) && InvestigationOf(states[|actions|], j) == i
  {
    states, actions := Analysing(j, i);
    states, actions := Stepped(states, actions, AnalysisSucceeds(j), j, i, [BeginJob(j), BeginInvestigation(j)]);
  }

  /** A persist that raises is a run. */
  lemma UnpersistedRuns(j: string, i: string) returns (states: seq<State>, actions: seq<Action>)
    ensures IsRun(states, actions) && StepsOf(actions, j) == Unpersisted(j)
  {
    hide IsRun, StepsOf, Next, InvestigationOf;
    var steps := [BeginJob(j), BeginInvestigation(j)] + [AnalysisSucceeds(j)];
    states, actions := Analysed(j, i);
    states, actions := Stepped(states, actions, PersistRollsBack(j), j, i, steps);
    states, actions := FailingToTheEnd(states, actions, j, i, steps + [PersistRollsBack(j)]);
  }

  /** A report with results and no repeated ids, which is all `_persist` asks of one. */
  predicate Acceptable(r: Report) {
    r.resultCount > 0 && Database.DistinctIds(r.sessions) && Database.DistinctIds(r.findings)
  }

  lemma AcceptableIsPersisted(states: seq<State>, actions: seq<Action>, j: string, r: Report)
    requires IsRun(states, actions) && At(states[|actions|], j, Phase.Persisting) && Acceptable(r)
    ensures Enabled(states[|actions|], PersistCommits(j, r))
  {
    EveryStateHasInv(states, actions, |actions|);
    assert WorkerConsistent(states[|actions|], j);
  }

  /** Every acceptable report can be the one a run completes with. */
  lemma SuccessRuns(j: string, i: string, r: Report) returns (states: seq<State>, actions: seq<Action>)
    requires Acceptable(r)
    ensures IsRun(states, actions) && StepsOf(actions, j) == Success(j, r)
  {
    states, actions := Analysed(j, i);
    states, actions :=
      CompletingToTheEnd(states, actions, j, i, r, [BeginJob(j), BeginInvestigation(j)] + [AnalysisSucceeds(j)]);
  }

  /** The persist, the completion, then the future is done. */
  lemma CompletingToTheEnd(
    states: seq<State>, actions: seq<Action>, j: string, i: string, r: Report, steps: seq<Action>)
    returns (states': seq<State>, actions': seq<Action>)
    requires IsRun(states, actions) && StepsOf(actions, j) == steps && Acceptable(r)
    requires At(states[|actions|], j, Phase.Persisting) && InvestigationOf(states[|actions|], j) == i
    ensures IsRun(states', actions')
    ensures StepsOf(actions', j) == steps + [PersistCommits(j, r)] + [CompleteJob(j)] + [FutureDone(j)]
  {
    hide IsRun, StepsOf, Acceptable, Next, InvestigationOf;
    AcceptableIsPersisted(states, actions, j, r);
    states', actions' := Stepped(states, actions, PersistCommits(j, r), j, i, steps);
    states', actions' := Stepped(states', actions', CompleteJob(j), j, i, steps + [PersistCommits(j, r)]);
    states', actions' :=
      Stepped(states', actions', FutureDone(j), j, i, steps + [PersistCommits(j, r)] + [CompleteJob(j)]);
  }
}
