/**
 * The two independent selections agree: the FAILs the evaluator leaves counting
 * (an incremental loop) are the representatives of the FAIL units the scorer
 * forms (a sort and a minimum).
 */
module Agreement {
  import opened Orders
  import opened Sorting
  import opened Sums
  import opened Assessment
  import opened Scoring
  import opened UnitTheorems
  import opened ScoreTheorems
  import opened Evaluator
  import opened Monotonicity

  predicate FailUnit(u: Unit) { u.outcome == Fail }

  /** The unit a result's group has among the units of `results`. */
  function OwnUnit(results: seq<RuleResult>, policy: Policy): RuleResult -> Unit {
    (r: RuleResult) =>
      if Members(results, GroupOf(r)) != [] then UnitAt(results, GroupOf(r), policy)
      else Unit(GroupOf(r), NotApplicable, 0.0, "", Info, [])
  }

  /** Deduplication has been run: FAILs count exactly when they represent their group. */
  ghost predicate DeduplicationDone(results: seq<RuleResult>) {
    forall r :: r in results && r.outcome == Fail ==> (r.counts <==> Represents(results, r))
  }

  /** Representing a group reads the outcome, the group and the choice key, nothing else. */
  lemma MarkingKeepsRepresentation(results: seq<RuleResult>, r: RuleResult, r': RuleResult)
    requires r' == r.(counts := r'.counts)
    ensures Represents(Deduplicated(results), r') <==> Represents(results, r)
  {
    var d := Deduplicated(results);
    assert ChoiceKey(r') == ChoiceKey(r);
    if Represents(results, r) {
      forall n | n in d && n.outcome == Fail && n.dedupGroup == r.dedupGroup
        ensures !Less(ChoiceKey(n), ChoiceKey(r'))
      {
        var j :| 0 <= j < |d| && d[j] == n;
        assert results[j] in results && ChoiceKey(results[j]) == ChoiceKey(n);
      }
    }
    if Represents(d, r') {
      forall m | m in results && m.outcome == Fail && m.dedupGroup == r.dedupGroup
        ensures !Less(ChoiceKey(m), ChoiceKey(r))
      {
        var j :| 0 <= j < |results| && results[j] == m;
        assert d[j] in d && ChoiceKey(d[j]) == ChoiceKey(m);
      }
    }
  }

  lemma DeduplicatedIsDone(results: seq<RuleResult>)
    ensures DeduplicationDone(Deduplicated(results))
    ensures UniqueRuleIds(results) ==> UniqueRuleIds(Deduplicated(results))
    ensures forall s :: OneSession(results, s) ==> OneSession(Deduplicated(results), s)
  {
    var d := Deduplicated(results);
    forall r | r in d && r.outcome == Fail ensures r.counts <==> Represents(d, r) {
      var i :| 0 <= i < |d| && d[i] == r;
      assert d[i] == Marked(results)(results[i]);
      MarkingKeepsRepresentation(results, results[i], r);
    }
  }

  /** Representing the dedup group is being the choice of the scorer's group. */
  lemma RepresentsIsChosen(results: seq<RuleResult>, sid: string, r: RuleResult)
    requires OneSession(results, sid) && r in results
    ensures Represents(results, r) <==> IsChosen(Members(results, GroupOf(r)), Fail, r)
  {
    var ms := Members(results, GroupOf(r));
    assert r in ms;
    forall m | m in results ensures m in ms <==> m.dedupGroup == r.dedupGroup { }
    forall m | m in ms ensures m in results { }
  }

  /** A counting FAIL's own unit is a FAIL unit that names it and carries its weight. */
  lemma CountingHasItsUnit(results: seq<RuleResult>, sid: string, policy: Policy, r: RuleResult)
    requires OneSession(results, sid) && DeduplicationDone(results)
    requires r in results && Counting(r)
    ensures var u := OwnUnit(results, policy)(r);
            && u in Units(results, policy) && u.outcome == Fail
            && u.group == GroupOf(r) && u.representative == r.ruleId && u.severity == r.severity
            && u.weight == policy.WeightFor(r.ruleId, r.severity)
  {
    var ms := Members(results, GroupOf(r));
    RepresentsIsChosen(results, sid, r);
    assert r in ms;
    UnitOutcome(GroupOf(r), ms, policy);
    UnitRepresentative(GroupOf(r), ms, policy, r);
    UnitsMembership(results, policy, OwnUnit(results, policy)(r));
  }

  /** Every FAIL unit is the own unit of a counting FAIL. */
  lemma FailUnitHasItsResult(results: seq<RuleResult>, sid: string, policy: Policy, u: Unit)
    returns (r: RuleResult)
    requires OneSession(results, sid) && DeduplicationDone(results)
    requires u in Units(results, policy) && u.outcome == Fail
    ensures r in results && Counting(r) && OwnUnit(results, policy)(r) == u
  {
    UnitsMembership(results, policy, u);
    var ms := Members(results, u.group);
    UnitOutcome(u.group, ms, policy);
    r := ChosenExists(ms, Fail);
    assert r in results && GroupOf(r) == u.group;
    RepresentsIsChosen(results, sid, r);
  }

  /** One group has at most one counting FAIL. */
  lemma OneCountingPerGroup(results: seq<RuleResult>, sid: string, a: RuleResult, b: RuleResult)
    requires OneSession(results, sid) && DeduplicationDone(results) && UniqueRuleIds(results)
    requires a in results && b in results && Counting(a) && Counting(b)
    requires GroupOf(a) == GroupOf(b)
    ensures a == b
  {
    Trichotomy(ChoiceKey(a), ChoiceKey(b));
    ChoiceKeyDecides(a, b);
    IdsDecide(results, a, b);
  }

  lemma {:induction false} FilterNoDuplicates<T>(s: seq<T>, p: T -> bool)
    requires NoDuplicates(s)
    ensures NoDuplicates(Filter(s, p))
  {
    if s != [] {
      FilterNoDuplicates(s[1..], p);
      assert forall x :: x in s[1..] ==> x != s[0];
    }
  }

  lemma MapNoDuplicates<T, U>(s: seq<T>, f: T -> U)
    requires NoDuplicates(s)
    requires forall x, y :: x in s && y in s && f(x) == f(y) ==> x == y
    ensures NoDuplicates(Map(s, f))
  {
    forall i, j | 0 <= i < j < |s| ensures f(s[i]) != f(s[j]) {
      assert s[i] in s && s[j] in s && s[i] != s[j];
    }
  }

  lemma OwnUnitIsFailUnit(results: seq<RuleResult>, sid: string, policy: Policy, u: Unit)
    requires OneSession(results, sid) && DeduplicationDone(results)
    requires u in Map(Filter(results, Counting), OwnUnit(results, policy))
    ensures u in Units(results, policy) && FailUnit(u)
  {
    var counting, left := Filter(results, Counting), Map(Filter(results, Counting), OwnUnit(results, policy));
    var i :| 0 <= i < |left| && left[i] == u;
    assert counting[i] in counting;
    CountingHasItsUnit(results, sid, policy, counting[i]);
  }

  lemma FailUnitIsOwnUnit(results: seq<RuleResult>, sid: string, policy: Policy, u: Unit)
    requires OneSession(results, sid) && DeduplicationDone(results)
    requires u in Units(results, policy) && FailUnit(u)
    ensures u in Map(Filter(results, Counting), OwnUnit(results, policy))
  {
    var counting, f := Filter(results, Counting), OwnUnit(results, policy);
    var r := FailUnitHasItsResult(results, sid, policy, u);
    assert r in counting;
    var i :| 0 <= i < |counting| && counting[i] == r;
    assert Map(counting, f)[i] == u;
  }

  lemma OwnUnitsDiffer(results: seq<RuleResult>, sid: string, policy: Policy)
    requires OneSession(results, sid) && DeduplicationDone(results) && UniqueRuleIds(results)
    ensures NoDuplicates(Map(Filter(results, Counting), OwnUnit(results, policy)))
  {
    var counting, f := Filter(results, Counting), OwnUnit(results, policy);
    assert NoDuplicates(results);
    FilterNoDuplicates(results, Counting);
    forall a, b | a in counting && b in counting && f(a) == f(b) ensures a == b {
      CountingHasItsUnit(results, sid, policy, a);
      CountingHasItsUnit(results, sid, policy, b);
      OneCountingPerGroup(results, sid, a, b);
    }
    MapNoDuplicates(counting, f);
  }

  /**
   * Findings and FAIL units are in bijection: mapping each counting FAIL to its
   * own unit enumerates the FAIL units, each exactly once.
   */
  lemma CountingFailsAreFailUnits(results: seq<RuleResult>, sid: string, policy: Policy)
    requires OneSession(results, sid) && DeduplicationDone(results) && UniqueRuleIds(results)
    ensures multiset(Map(Filter(results, Counting), OwnUnit(results, policy)))
            == multiset(Filter(Units(results, policy), FailUnit))
  {
    var left := Map(Filter(results, Counting), OwnUnit(results, policy));
    var right := Filter(Units(results, policy), FailUnit);
    forall u ensures u in left <==> u in right {
      if u in left { OwnUnitIsFailUnit(results, sid, policy, u); }
      if u in right { FailUnitIsOwnUnit(results, sid, policy, u); }
    }
    OwnUnitsDiffer(results, sid, policy);
    UnitsDistinct(results, policy);
    FilterNoDuplicates(Units(results, policy), FailUnit);
    SameMembersSameMultiset(left, right);
  }

  // ---- the consequences a report reader relies on ---------------------------

  function FindingWeight(policy: Policy): Finding -> real {
    (f: Finding) => Effective(policy.WeightFor(f.ruleId, f.severity))
  }

  function FindingScored(policy: Policy): Finding -> bool {
    (f: Finding) => policy.WeightFor(f.ruleId, f.severity) > 0.0
  }

  function ResultWeight(policy: Policy): RuleResult -> real {
    (r: RuleResult) => WeightOf(r, policy)
  }

  function ResultScored(policy: Policy): RuleResult -> bool {
    (r: RuleResult) => policy.WeightFor(r.ruleId, r.severity) > 0.0
  }

  /** Deductions are exactly the findings' policy weights. */
  lemma DeductionsAreFindingWeights(
    results: seq<RuleResult>, sid: string, policy: Policy, digest: string -> string)
    requires OneSession(results, sid) && DeduplicationDone(results) && UniqueRuleIds(results)
    ensures WFailed(Units(results, policy))
            == SumBy(Findings(results, policy, digest), FindingWeight(policy))
  {
    var counting, own := Filter(results, Counting), OwnUnit(results, policy);
    var units, findings := Units(results, policy), Findings(results, policy, digest);
    CountingFailsAreFailUnits(results, sid, policy);
    SumPermute(Map(counting, own), Filter(units, FailUnit), FailedWeight);
    SumOfFilter(units, FailUnit, FailedWeight);
    forall r | r in counting ensures FailedWeight(own(r)) == ResultWeight(policy)(r) {
      CountingHasItsUnit(results, sid, policy, r);
    }
    SumOfMap(counting, own, FailedWeight, ResultWeight(policy));
    SumPermute(findings, Map(counting, FindingOf(policy, digest)), FindingWeight(policy));
    SumOfMap(counting, FindingOf(policy, digest), FindingWeight(policy), ResultWeight(policy));
  }

  /** The failed tally counts the findings that carry weight. */
  lemma FailedTallyCountsFindings(
    results: seq<RuleResult>, sid: string, policy: Policy, digest: string -> string)
    requires OneSession(results, sid) && DeduplicationDone(results) && UniqueRuleIds(results)
    ensures ComputeScore(Units(results, policy), policy).tally.failed
            == CountBy(Findings(results, policy, digest), FindingScored(policy))
  {
    var counting, own := Filter(results, Counting), OwnUnit(results, policy);
    var units, findings := Units(results, policy), Findings(results, policy, digest);
    CountingFailsAreFailUnits(results, sid, policy);
    CountPermute(Map(counting, own), Filter(units, FailUnit), Failed);
    CountOfFilter(units, FailUnit, Failed);
    forall r | r in counting ensures Failed(own(r)) == ResultScored(policy)(r) {
      CountingHasItsUnit(results, sid, policy, r);
    }
    CountOfMap(counting, own, Failed, ResultScored(policy));
    CountPermute(findings, Map(counting, FindingOf(policy, digest)), FindingScored(policy));
    CountOfMap(counting, FindingOf(policy, digest), FindingScored(policy), ResultScored(policy));
  }

  lemma {:induction false} FailsSplit(results: seq<RuleResult>)
    ensures CountBy(results, IsFail) == CountBy(results, Counting) + SuppressedCount(results)
  {
    if results != [] { FailsSplit(results[1..]); }
  }

  /** As many findings as FAIL units; every other FAIL is reported as suppressed. */
  lemma FindingsAndSuppressedAccountForFails(
    results: seq<RuleResult>, sid: string, policy: Policy, digest: string -> string)
    requires OneSession(results, sid) && DeduplicationDone(results) && UniqueRuleIds(results)
    ensures |Findings(results, policy, digest)| == CountBy(Units(results, policy), FailUnit)
    ensures SuppressedCount(results) + |Findings(results, policy, digest)|
            == CountBy(results, IsFail)
  {
    var counting := Filter(results, Counting);
    FailsSplit(results);
    CountIsFilterLength(results, Counting);
    CountIsFilterLength(Units(results, policy), FailUnit);
    CountingFailsAreFailUnits(results, sid, policy);
    SameElements(Map(counting, OwnUnit(results, policy)), Filter(Units(results, policy), FailUnit));
    SameElements(Findings(results, policy, digest), Map(counting, FindingOf(policy, digest)));
  }

  /**
   * Whatever order the rules ran in, the pipeline from raw results to findings
   * and units agrees with itself.
   */
  lemma EvaluatorAgreesWithScorer(
    results: seq<RuleResult>, sid: string, policy: Policy, digest: string -> string)
    requires OneSession(results, sid) && UniqueRuleIds(results)
    ensures var d := Deduplicated(results);
            && WFailed(Units(d, policy)) == SumBy(Findings(d, policy, digest), FindingWeight(policy))
            && |Findings(d, policy, digest)| == CountBy(Units(d, policy), FailUnit)
            && SuppressedCount(d) + |Findings(d, policy, digest)| == CountBy(results, IsFail)
  {
    var d := Deduplicated(results);
    DeduplicatedIsDone(results);
    DeductionsAreFindingWeights(d, sid, policy, digest);
    FindingsAndSuppressedAccountForFails(d, sid, policy, digest);
    CountOfMap(results, Marked(results), IsFail, IsFail);
  }

  // ---- the scorer does not read the counting flag --------------------------------

  /** The same results but for which of them are marked as counting. */
  ghost predicate SameButFlags(a: seq<RuleResult>, b: seq<RuleResult>) {
    |a| == |b| && forall i :: 0 <= i < |a| ==> a[i] == b[i].(counts := a[i].counts)
  }

  lemma {:induction false} MembersSameButFlags(a: seq<RuleResult>, b: seq<RuleResult>, k: GroupKey)
    requires SameButFlags(a, b)
    ensures SameButFlags(Members(a, k), Members(b, k))
  {
    if a != [] {
      MembersSameButFlags(a[1..], b[1..], k);
      assert GroupOf(a[0]) == GroupOf(b[0]);
    }
  }

  lemma OccursSameButFlags(a: seq<RuleResult>, b: seq<RuleResult>, o: Outcome)
    requires SameButFlags(a, b)
    ensures Occurs(a, o) <==> Occurs(b, o)
  {
    if Occurs(a, o) {
      var x :| x in a && x.outcome == o;
      var i :| 0 <= i < |a| && a[i] == x;
      assert b[i] in b && b[i].outcome == o;
    }
    if Occurs(b, o) {
      var x :| x in b && x.outcome == o;
      var i :| 0 <= i < |b| && b[i] == x;
      assert a[i] in a && a[i].outcome == o;
    }
  }

  lemma ChosenSameButFlags(a: seq<RuleResult>, b: seq<RuleResult>, o: Outcome, i: nat)
    requires SameButFlags(a, b) && i < |b| && IsChosen(b, o, b[i])
    ensures IsChosen(a, o, a[i])
  {
    assert a[i] in a && ChoiceKey(a[i]) == ChoiceKey(b[i]);
    forall x | x in a && x.outcome == o ensures !Less(ChoiceKey(x), ChoiceKey(a[i])) {
      var j :| 0 <= j < |a| && a[j] == x;
      assert b[j] in b && b[j].outcome == o && ChoiceKey(b[j]) == ChoiceKey(x);
    }
  }

  lemma OutcomeSameButFlags(k: GroupKey, a: seq<RuleResult>, b: seq<RuleResult>, policy: Policy)
    requires a != [] && SameButFlags(a, b)
    ensures UnitFor(k, a, policy).outcome == UnitFor(k, b, policy).outcome
  {
    UnitOutcome(k, a, policy);
    UnitOutcome(k, b, policy);
    forall o { OccursSameButFlags(a, b, o); }
  }

  lemma UnitSameButFlags(k: GroupKey, a: seq<RuleResult>, b: seq<RuleResult>, policy: Policy)
    requires a != [] && SameButFlags(a, b)
    ensures UnitFor(k, a, policy) == UnitFor(k, b, policy)
  {
    OutcomeSameButFlags(k, a, b, policy);
    assert Map(a, RuleIdOf) == Map(b, RuleIdOf);
    var o := UnitFor(k, b, policy).outcome;
    if o != NotApplicable {
      UnitOutcome(k, b, policy);
      var c := ChosenExists(b, o);
      var i :| 0 <= i < |b| && b[i] == c;
      ChosenSameButFlags(a, b, o, i);
      UnitRepresentative(k, a, policy, a[i]);
      UnitRepresentative(k, b, policy, b[i]);
    }
  }

  /** Scoring before or after deduplication gives the same units: the flag is not read. */
  lemma UnitsIgnoreFlags(a: seq<RuleResult>, b: seq<RuleResult>, policy: Policy)
    requires SameButFlags(a, b)
    ensures Units(a, policy) == Units(b, policy)
  {
    forall k ensures SameButFlags(Members(a, k), Members(b, k)) { MembersSameButFlags(a, b, k); }
    SameGroupsSameOrder(a, b);
    forall i | 0 <= i < |SortedGroups(a)| ensures Units(a, policy)[i] == Units(b, policy)[i] {
      var k := SortedGroups(a)[i];
      UnitsByIndex(a, policy, i);
      UnitsByIndex(b, policy, i);
      UnitSameButFlags(k, Members(a, k), Members(b, k), policy);
    }
  }
}
