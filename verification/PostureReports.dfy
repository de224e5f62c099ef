/**
 * The posture record as its reader sees it (assessment/scoring.py,
 * assessment/engine.py): its own fields determine each other, its tallies count
 * groups of rule results, and its deductions are the weights of the findings
 * reported beside it.
 */
module PostureReports {
  import opened Orders
  import opened Sorting
  import opened Sums
  import opened Assessment
  import opened Scoring
  import opened UnitTheorems
  import opened ScoreTheorems
  import opened Monotonicity
  import opened Evaluator
  import opened Agreement
  import opened SessionEvaluation
  import opened Engine

  // ---- the fields of one record ---------------------------------------------------

  /** `n` is the integer nearest to `x`, the even one of two. */
  ghost predicate IsNearest(n: int, x: real) {
    && Distance(x, n) <= 0.5
    && (Distance(x, n) == 0.5 ==> n % 2 == 0)
  }

  lemma RoundIsNearest(x: real)
    ensures IsNearest(RoundHalfEven(x), x)
  {
    var n := RoundHalfEven(x);
    RoundIsNearestEven(x, n);
    RoundIsNearestEven(x, n + 1);
    RoundIsNearestEven(x, n - 1);
  }

  lemma QuotientTimes(e: real, a: real)
    requires a > 0.0
    ensures e / a * a == e
  {
  }

  /**
   * What a record says of itself, for any units: it is sufficient exactly when something
   * was evaluated and its coverage reaches the floor; its coverage is the evaluated share
   * of the evaluated and the undecided weight; and its score, given exactly when it is
   * sufficient, is the percentage of its evaluated weight that was not deducted, rounded.
   */
  lemma RecordIsConsistent(units: seq<Unit>, policy: Policy)
    ensures var p := ComputeScore(units, policy);
            && (p.sufficient <==> p.weightedEvaluated > 0.0 && p.coverage >= policy.minimumCoverage)
            && (p.score.Some? <==> p.sufficient)
            && p.coverage * (p.weightedEvaluated + WUnknown(units)) == p.weightedEvaluated
            && 0.0 <= p.weightedDeductions <= p.weightedEvaluated
            && (p.score.Some? ==>
                IsNearest(p.score.value,
                          100.0 * (p.weightedEvaluated - p.weightedDeductions) / p.weightedEvaluated))
  {
    WeightsNonNegative(units);
    if WApplicable(units) > 0.0 { QuotientTimes(WEvaluated(units), WApplicable(units)); }
    if WEvaluated(units) > 0.0 {
      ClampNeverFires(units);
      RoundIsNearest(Raw(units));
    }
  }

  // ---- the tallies count groups ------------------------------------------------------

  /** What the members of a group come to. */
  ghost predicate ComesTo(members: seq<RuleResult>, o: Outcome) {
    match o
    case Fail => Occurs(members, Fail)
    case Pass => Occurs(members, Pass) && !Occurs(members, Fail)
    case Unknown => Occurs(members, Unknown) && !Occurs(members, Pass) && !Occurs(members, Fail)
    case NotApplicable => !Occurs(members, Unknown) && !Occurs(members, Pass) && !Occurs(members, Fail)
  }

  /** The member that decides the group carries weight. */
  ghost predicate Weighs(members: seq<RuleResult>, o: Outcome, policy: Policy) {
    exists c :: IsChosen(members, o, c) && policy.WeightFor(c.ruleId, c.severity) > 0.0
  }

  /** The groups that come to `o` by a member of weight. */
  ghost function GroupsComingTo(results: seq<RuleResult>, o: Outcome, policy: Policy): set<GroupKey> {
    set k | k in SortedGroups(results) && ComesTo(Members(results, k), o) && Weighs(Members(results, k), o, policy)
  }

  ghost function GroupsNotApplicable(results: seq<RuleResult>): set<GroupKey> {
    set k | k in SortedGroups(results) && ComesTo(Members(results, k), NotApplicable)
  }

  function GroupField(u: Unit): GroupKey { u.group }

  /** Counting units is counting the groups they are of. */
  lemma CountUnitsByGroup(results: seq<RuleResult>, policy: Policy, p: Unit -> bool, ks: set<GroupKey>)
    requires forall u :: u in Units(results, policy) ==> (p(u) <==> u.group in ks)
    requires forall k :: k in ks ==> k in SortedGroups(results)
    ensures CountBy(Units(results, policy), p) == |ks|
  {
    hide Units, Map, Filter, NoDuplicates, SortedGroups;
    var units := Units(results, policy);
    CountIsFilterLength(units, p);
    UnitsDistinct(results, policy);
    FilterNoDuplicates(units, p);
    ChosenGroupsApart(results, policy, Filter(units, p));
    ChosenGroups(results, policy, p, ks);
    SizeOfGroups(Map(Filter(units, p), GroupField), ks);
  }

  lemma SizeOfGroups(groups: seq<GroupKey>, ks: set<GroupKey>)
    requires NoDuplicates(groups) && forall k :: k in groups <==> k in ks
    ensures |groups| == |ks|
  {
    SizeOfSequence(groups);
    assert (set k | k in groups) == ks;
  }

  lemma ChosenGroups(results: seq<RuleResult>, policy: Policy, p: Unit -> bool, ks: set<GroupKey>)
    requires forall u :: u in Units(results, policy) ==> (p(u) <==> u.group in ks)
    requires forall k :: k in ks ==> k in SortedGroups(results)
    ensures forall k :: k in Map(Filter(Units(results, policy), p), GroupField) <==> k in ks
  {
    hide Units, SortedGroups;
    var chosen := Filter(Units(results, policy), p);
    forall k ensures k in Map(chosen, GroupField) <==> k in ks {
      if k in ks { GroupHasUnit(results, policy, p, k); }
      if n :| 0 <= n < |chosen| && Map(chosen, GroupField)[n] == k { assert chosen[n] in chosen; }
    }
  }

  lemma ChosenGroupsApart(results: seq<RuleResult>, policy: Policy, chosen: seq<Unit>)
    requires NoDuplicates(chosen) && forall u :: u in chosen ==> u in Units(results, policy)
    ensures NoDuplicates(Map(chosen, GroupField))
  {
    forall i, j | 0 <= i < j < |chosen| ensures chosen[i].group != chosen[j].group {
      UnitsMembership(results, policy, chosen[i]);
      UnitsMembership(results, policy, chosen[j]);
      assert chosen[i] in chosen && chosen[j] in chosen;
    }
  }

  lemma GroupHasUnit(results: seq<RuleResult>, policy: Policy, p: Unit -> bool, k: GroupKey)
    requires k in SortedGroups(results)
    requires forall u :: u in Units(results, policy) && u.group == k ==> p(u)
    ensures k in Map(Filter(Units(results, policy), p), GroupField)
  {
    var units := Units(results, policy);
    SortedGroupsAreGroups(results);
    var i := IndexOfUnit(results, policy, k);
    UnitsByIndex(results, policy, i);
    assert units[i] in units;
    var chosen := Filter(units, p);
    assert units[i] in chosen;
    var n :| 0 <= n < |chosen| && chosen[n] == units[i];
    assert Map(chosen, GroupField)[n] == k;
  }

  /** The outcome of a unit and whether it is scored, in terms of its members. */
  lemma UnitComesTo(results: seq<RuleResult>, policy: Policy, u: Unit)
    requires u in Units(results, policy)
    ensures u.group in SortedGroups(results)
    ensures forall o :: u.outcome == o <==> ComesTo(Members(results, u.group), o)
    ensures u.outcome != NotApplicable ==> (Scored(u) <==> Weighs(Members(results, u.group), u.outcome, policy))
  {
    var m := Members(results, u.group);
    UnitsMembership(results, policy, u);
    SortedGroupsAreGroups(results);
    UnitOutcome(u.group, m, policy);
    if u.outcome != NotApplicable { UnitWeighs(u.group, m, policy); }
  }

  lemma UnitWeighs(k: GroupKey, m: seq<RuleResult>, policy: Policy)
    requires m != [] && UnitFor(k, m, policy).outcome != NotApplicable
    ensures var u := UnitFor(k, m, policy);
            Scored(u) <==> Weighs(m, u.outcome, policy)
  {
    var o := UnitFor(k, m, policy).outcome;
    UnitOutcome(k, m, policy);
    var c := ChosenExists(m, o);
    UnitRepresentative(k, m, policy, c);
    forall d | IsChosen(m, o, d)
      ensures policy.WeightFor(d.ruleId, d.severity) == policy.WeightFor(c.ruleId, c.severity)
    {
      UnitRepresentative(k, m, policy, d);
    }
  }

  lemma CountComingTo(results: seq<RuleResult>, policy: Policy, o: Outcome, p: Unit -> bool)
    requires o != NotApplicable
    requires forall u :: u in Units(results, policy) ==> (p(u) <==> Scored(u) && u.outcome == o)
    ensures CountBy(Units(results, policy), p) == |GroupsComingTo(results, o, policy)|
  {
    hide ComesTo, Weighs, Scored, Units;
    forall u | u in Units(results, policy) ensures p(u) <==> u.group in GroupsComingTo(results, o, policy) {
      UnitComesTo(results, policy, u);
    }
    CountUnitsByGroup(results, policy, p, GroupsComingTo(results, o, policy));
  }

  lemma CountNotApplicable(results: seq<RuleResult>, policy: Policy)
    ensures CountBy(Units(results, policy), Inapplicable) == |GroupsNotApplicable(results)|
  {
    hide ComesTo, Weighs, Units;
    forall u | u in Units(results, policy) ensures Inapplicable(u) <==> u.group in GroupsNotApplicable(results) {
      UnitComesTo(results, policy, u);
    }
    CountUnitsByGroup(results, policy, Inapplicable, GroupsNotApplicable(results));
  }

  lemma {:induction false} EvaluatedCountSplits(units: seq<Unit>)
    ensures CountBy(units, Evaluated) == CountBy(units, Passed) + CountBy(units, Failed)
  {
    if units != [] { EvaluatedCountSplits(units[1..]); }
  }

  /**
   * The tallies of a record over rule results: each counts the groups whose members come
   * to that outcome by a member of weight, and the totals add up.
   */
  lemma TalliesCountGroups(results: seq<RuleResult>, policy: Policy)
    ensures var t := ComputeScore(Units(results, policy), policy).tally;
            && t.failed == |GroupsComingTo(results, Fail, policy)|
            && t.passed == |GroupsComingTo(results, Pass, policy)|
            && t.unknown == |GroupsComingTo(results, Unknown, policy)|
            && t.notApplicable == |GroupsNotApplicable(results)|
            && t.evaluated == t.passed + t.failed
            && t.totalApplicable == t.evaluated + t.unknown
            && t.suppressed == 0
  {
    hide GroupsComingTo, GroupsNotApplicable, Units;
    var units := Units(results, policy);
    CountComingTo(results, policy, Fail, Failed);
    CountComingTo(results, policy, Pass, Passed);
    CountComingTo(results, policy, Unknown, Undetermined);
    CountNotApplicable(results, policy);
    EvaluatedCountSplits(units);
  }

  // ---- the worked example ------------------------------------------------------------

  /** A unit of the example: its outcome and its weight are all the formula reads. */
  function ExampleUnit(name: string, o: Outcome, weight: real): Unit {
    Unit(GroupKey("session", name), o, weight, "", High, [])
  }

  /** The units of the example in docs/scoring-methodology.md: what they are called, came to and weigh. */
  const EXAMPLE: seq<(string, Outcome, real)> := [
    ("NEGOTIATED_PROTOCOL_VERSION", Fail, 6.0),
    ("NEGOTIATED_CIPHER_SUITE", Fail, 3.0),
    ("FORWARD_SECRECY", Fail, 6.0),
    ("NEGOTIATION_OUTCOME", Pass, 1.0),
    ("CERT_VALIDITY", Pass, 6.0),
    ("CERT_KEY_STRENGTH", Pass, 6.0),
    ("CERT_SIGNATURE", Pass, 6.0),
    ("CERT_EKU", Pass, 3.0),
    ("CERT_CHAIN", Unknown, 6.0),
    ("CERT_IDENTITY", Unknown, 6.0),
    ("OFFERED_PROTOCOL_VERSION", Fail, 0.0)]

  lemma SumOne<T>(x: T, rest: seq<T>, f: T -> real)
    ensures SumBy([x] + rest, f) == f(x) + SumBy(rest, f)
  {
    assert ([x] + rest)[1..] == rest;
  }

  lemma CountOne<T>(x: T, rest: seq<T>, p: T -> bool)
    ensures CountBy([x] + rest, p) == (if p(x) then 1 else 0) + CountBy(rest, p)
  {
    assert ([x] + rest)[1..] == rest;
  }

  /** What one more unit does to every sum and count a record is made of. */
  lemma OneMoreUnit(u: Unit, rest: seq<Unit>)
    ensures WEvaluated([u] + rest) == EvaluatedWeight(u) + WEvaluated(rest)
    ensures WUnknown([u] + rest) == UndeterminedWeight(u) + WUnknown(rest)
    ensures WFailed([u] + rest) == FailedWeight(u) + WFailed(rest)
    ensures CountBy([u] + rest, Evaluated) == (if Evaluated(u) then 1 else 0) + CountBy(rest, Evaluated)
    ensures CountBy([u] + rest, Undetermined) == (if Undetermined(u) then 1 else 0) + CountBy(rest, Undetermined)
    ensures CountBy([u] + rest, Passed) == (if Passed(u) then 1 else 0) + CountBy(rest, Passed)
    ensures CountBy([u] + rest, Failed) == (if Failed(u) then 1 else 0) + CountBy(rest, Failed)
    ensures CountBy([u] + rest, Inapplicable) == (if Inapplicable(u) then 1 else 0) + CountBy(rest, Inapplicable)
  {
    SumOne(u, rest, EvaluatedWeight);
    SumOne(u, rest, UndeterminedWeight);
    SumOne(u, rest, FailedWeight);
    CountOne(u, rest, Evaluated);
    CountOne(u, rest, Undetermined);
    CountOne(u, rest, Passed);
    CountOne(u, rest, Failed);
    CountOne(u, rest, Inapplicable);
  }

  /** Everything the formula adds up and counts. */
  datatype Totals = Totals(
    evaluated: real, unknown: real, failed: real, nEvaluated: nat, nUnknown: nat, nPassed: nat, nFailed: nat,
    nInapplicable: nat)

  function TotalsOf(units: seq<Unit>): Totals {
    Totals(WEvaluated(units), WUnknown(units), WFailed(units), CountBy(units, Evaluated),
           CountBy(units, Undetermined), CountBy(units, Passed), CountBy(units, Failed), CountBy(units, Inapplicable))
  }

  /** The totals with one unit of this outcome and weight added. */
  function Added(t: Totals, o: Outcome, w: real): Totals {
    if o == NotApplicable then t.(nInapplicable := t.nInapplicable + 1)
    else if w <= 0.0 then t
    else if o == Unknown then t.(unknown := t.unknown + w, nUnknown := t.nUnknown + 1)
    else if o == Pass then
      t.(evaluated := t.evaluated + w, nEvaluated := t.nEvaluated + 1, nPassed := t.nPassed + 1)
    else
      t.(evaluated := t.evaluated + w, nEvaluated := t.nEvaluated + 1,
         failed := t.failed + w, nFailed := t.nFailed + 1)
  }

  lemma TotalsAdd(u: Unit, rest: seq<Unit>)
    ensures TotalsOf([u] + rest) == Added(TotalsOf(rest), u.outcome, u.weight)
  {
    OneMoreUnit(u, rest);
  }

  /** The totals of units read off one by one. */
  function Folded(rows: seq<(string, Outcome, real)>): Totals {
    if rows == [] then Totals(0.0, 0.0, 0.0, 0, 0, 0, 0, 0)
    else Added(Folded(rows[1..]), rows[0].1, rows[0].2)
  }

  function RowUnit(row: (string, Outcome, real)): Unit { ExampleUnit(row.0, row.1, row.2) }

  lemma {:induction false} TotalsAreFolded(rows: seq<(string, Outcome, real)>)
    ensures TotalsOf(Map(rows, RowUnit)) == Folded(rows)
  {
    if rows != [] {
      TotalsAreFolded(rows[1..]);
      TotalsAdd(RowUnit(rows[0]), Map(rows[1..], RowUnit));
      assert Map(rows, RowUnit) == [RowUnit(rows[0])] + Map(rows[1..], RowUnit);
    }
  }

  lemma FoldOne(row: (string, Outcome, real), rest: seq<(string, Outcome, real)>)
    ensures Folded([row] + rest) == Added(Folded(rest), row.1, row.2)
  {
    assert ([row] + rest)[1..] == rest;
  }

  lemma FoldNone(rows: seq<(string, Outcome, real)>)
    ensures Folded(rows[|rows|..]) == Totals(0.0, 0.0, 0.0, 0, 0, 0, 0, 0)
  {
  }

  /** Row `i` says this. */
  predicate Says(rows: seq<(string, Outcome, real)>, i: nat, o: Outcome, w: real) {
    i < |rows| && rows[i].1 == o && rows[i].2 == w
  }

  /** One row further up, the totals are these. */
  lemma FoldAt(rows: seq<(string, Outcome, real)>, i: nat, o: Outcome, w: real, below: Totals)
    requires Says(rows, i, o, w) && Folded(rows[i + 1..]) == below
    ensures Folded(rows[i..]) == Added(below, o, w)
  {
    FoldOne(rows[i], rows[i + 1..]);
    assert rows[i..] == [rows[i]] + rows[i + 1..];
  }

  lemma ExampleSays(rows: seq<(string, Outcome, real)>)
    requires rows == EXAMPLE
    ensures |rows| == 11
    ensures Says(rows, 0, Fail, 6.0) && Says(rows, 1, Fail, 3.0) && Says(rows, 2, Fail, 6.0)
    ensures Says(rows, 3, Pass, 1.0) && Says(rows, 4, Pass, 6.0) && Says(rows, 5, Pass, 6.0)
    ensures Says(rows, 6, Pass, 6.0) && Says(rows, 7, Pass, 3.0)
    ensures Says(rows, 8, Unknown, 6.0) && Says(rows, 9, Unknown, 6.0) && Says(rows, 10, Fail, 0.0)
  {
  }

  lemma UndecidedTotals(rows: seq<(string, Outcome, real)>)
    requires |rows| == 11
    requires Says(rows, 8, Unknown, 6.0) && Says(rows, 9, Unknown, 6.0) && Says(rows, 10, Fail, 0.0)
    ensures Folded(rows[8..]) == Totals(0.0, 12.0, 0.0, 0, 2, 0, 0, 0)
  {
    hide Folded, Says;
    FoldNone(rows);
    FoldAt(rows, 10, Fail, 0.0, Totals(0.0, 0.0, 0.0, 0, 0, 0, 0, 0));
    FoldAt(rows, 9, Unknown, 6.0, Totals(0.0, 0.0, 0.0, 0, 0, 0, 0, 0));
    FoldAt(rows, 8, Unknown, 6.0, Totals(0.0, 6.0, 0.0, 0, 1, 0, 0, 0));
  }

  lemma PassedTotals(rows: seq<(string, Outcome, real)>)
    requires |rows| == 11 && Folded(rows[8..]) == Totals(0.0, 12.0, 0.0, 0, 2, 0, 0, 0)
    requires Says(rows, 3, Pass, 1.0) && Says(rows, 4, Pass, 6.0) && Says(rows, 5, Pass, 6.0)
    requires Says(rows, 6, Pass, 6.0) && Says(rows, 7, Pass, 3.0)
    ensures Folded(rows[3..]) == Totals(22.0, 12.0, 0.0, 5, 2, 5, 0, 0)
  {
    hide Folded, Says;
    FoldAt(rows, 7, Pass, 3.0, Totals(0.0, 12.0, 0.0, 0, 2, 0, 0, 0));
    FoldAt(rows, 6, Pass, 6.0, Totals(3.0, 12.0, 0.0, 1, 2, 1, 0, 0));
    FoldAt(rows, 5, Pass, 6.0, Totals(9.0, 12.0, 0.0, 2, 2, 2, 0, 0));
    FoldAt(rows, 4, Pass, 6.0, Totals(15.0, 12.0, 0.0, 3, 2, 3, 0, 0));
    FoldAt(rows, 3, Pass, 1.0, Totals(21.0, 12.0, 0.0, 4, 2, 4, 0, 0));
  }

  lemma FailedTotals(rows: seq<(string, Outcome, real)>)
    requires |rows| == 11 && Folded(rows[3..]) == Totals(22.0, 12.0, 0.0, 5, 2, 5, 0, 0)
    requires Says(rows, 0, Fail, 6.0) && Says(rows, 1, Fail, 3.0) && Says(rows, 2, Fail, 6.0)
    ensures Folded(rows) == Totals(37.0, 12.0, 15.0, 8, 2, 5, 3, 0)
  {
    hide Folded, Says;
    FoldAt(rows, 2, Fail, 6.0, Totals(22.0, 12.0, 0.0, 5, 2, 5, 0, 0));
    FoldAt(rows, 1, Fail, 3.0, Totals(28.0, 12.0, 6.0, 6, 2, 5, 1, 0));
    FoldAt(rows, 0, Fail, 6.0, Totals(31.0, 12.0, 9.0, 7, 2, 5, 2, 0));
    assert rows[0..] == rows;
  }

  lemma ExampleTotals(rows: seq<(string, Outcome, real)>)
    requires rows == EXAMPLE
    ensures Folded(rows) == Totals(37.0, 12.0, 15.0, 8, 2, 5, 3, 0)
  {
    hide Folded, Says;
    ExampleSays(rows);
    UndecidedTotals(rows);
    PassedTotals(rows);
    FailedTotals(rows);
  }

  /** A record is its totals and the policy's floor. */
  lemma RecordOfTotals(units: seq<Unit>, policy: Policy)
    requires policy.minimumCoverage == 0.5
    requires TotalsOf(units) == Totals(37.0, 12.0, 15.0, 8, 2, 5, 3, 0)
    ensures ComputeScore(units, policy) ==
            Posture(Some(59), Weak, Tally(10, 8, 5, 3, 2, 0, 0), 37.0 / 49.0, true, 37.0, 15.0)
  {
    assert 37.0 / 49.0 >= 0.5;
    var raw := 100.0 * (37.0 - 15.0) / 37.0;
    assert raw == Raw(units);
    assert 59.0 < raw < 59.5;
    RoundReaches(raw, 59);
    RoundReaches(raw, 60);
  }

  /** The documented example, under the documented floor: score 59, band WEAK, coverage 37 of 49. */
  lemma WorkedExample(policy: Policy)
    requires policy.minimumCoverage == 0.5
    ensures ComputeScore(Map(EXAMPLE, RowUnit), policy) ==
            Posture(Some(59), Weak, Tally(10, 8, 5, 3, 2, 0, 0), 37.0 / 49.0, true, 37.0, 15.0)
  {
    hide ComputeScore, TotalsOf, Folded;
    ExampleTotals(EXAMPLE);
    TotalsAreFolded(EXAMPLE);
    RecordOfTotals(Map(EXAMPLE, RowUnit), policy);
  }

  // ---- the record of a capture ---------------------------------------------------------

  /** Every result of every session. */
  function AllResults(capture: CaptureAssessment): seq<RuleResult> { Flatten(Map(capture.sessions, ResultsIn)) }

  function ResultsIn(s: SessionAssessment): seq<RuleResult> { s.results }

  function FindingsIn(s: SessionAssessment): seq<Finding> { s.findings }

  lemma SessionFields(inputs: seq<SessionInput>, policy: Policy, digest: string -> string)
    ensures var capture := CaptureOf(inputs, policy, digest);
            && Map(capture.sessions, ResultsIn) == Map(inputs, ResultsOf(policy))
            && Map(capture.sessions, FindingsIn) == Map(Map(inputs, ResultsOf(policy)), FindingsUnder(policy, digest))
  {
  }

  /** The deductions a record reports are the weights of the findings beside it. */
  ghost predicate Balances(p: Posture, findings: seq<Finding>, results: seq<RuleResult>, policy: Policy) {
    && p.weightedDeductions == SumBy(findings, FindingWeight(policy))
    && p.tally.suppressed + |findings| == CountBy(results, IsFail)
  }

  /** The record of every assessed capture balances against its own findings and results. */
  lemma CaptureBalances(inputs: seq<SessionInput>, policy: Policy, digest: string -> string)
    ensures var capture := CaptureOf(inputs, policy, digest);
            && Balances(capture.posture, capture.findings, AllResults(capture), policy)
            && capture.findings == Flatten(Map(capture.sessions, FindingsIn))
            && capture.rulesEvaluated == |AllResults(capture)|
  {
    hide ResultsOf, FindingsUnder, FindingWeight, UnitsOfParts, SessionOf;
    SessionFields(inputs, policy, digest);
    CaptureAddsUp(inputs, policy, digest);
    CaptureRecordFields(inputs, policy, digest);
  }

  lemma CaptureRecordFields(inputs: seq<SessionInput>, policy: Policy, digest: string -> string)
    ensures var capture, parts := CaptureOf(inputs, policy, digest), Map(inputs, ResultsOf(policy));
            && capture.posture.weightedDeductions == WFailed(UnitsOfParts(parts, policy))
            && capture.posture.tally.suppressed == SuppressedCount(Flatten(parts))
            && capture.findings == AllFindings(parts, policy, digest)
            && capture.rulesEvaluated == |Flatten(parts)|
  {
    hide ResultsOf, UnitsOfParts, SessionOf;
  }

  /** So does the record of each of its sessions. */
  lemma SessionBalances(inputs: seq<SessionInput>, policy: Policy, digest: string -> string, n: nat)
    requires n < |inputs|
    ensures var s := CaptureOf(inputs, policy, digest).sessions[n];
            && s.sessionId == inputs[n].context.sessionId
            && s.results == ResultsOf(policy)(inputs[n])
            && Balances(s.posture, s.findings, s.results, policy)
  {
    var s := CaptureOf(inputs, policy, digest).sessions[n];
    assert s == SessionOf(policy, digest)(inputs[n]);
    SessionResultsShape(inputs[n].context.(policy := policy), inputs[n].evidence);
    RecordBalances(inputs[n].context.sessionId, s.results, policy, digest);
  }

  lemma RecordBalances(sid: string, results: seq<RuleResult>, policy: Policy, digest: string -> string)
    requires OneSession(results, sid) && DeduplicationDone(results) && UniqueRuleIds(results)
    ensures var s := AssessmentOf(sid, results, policy, digest);
            Balances(s.posture, s.findings, results, policy)
  {
    hide FindingWeight, Units, Findings;
    DeductionsAreFindingWeights(results, sid, policy, digest);
    FindingsAndSuppressedAccountForFails(results, sid, policy, digest);
  }
}
