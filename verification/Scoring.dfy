/** Scoring units and the posture score (assessment/scoring.py). */
module Scoring {
  import opened Orders
  import opened Sorting
  import opened Sums
  import opened Assessment

  /** The dictionary key `build_units` groups by. */
  datatype GroupKey = GroupKey(sessionId: string, group: string)

  function GroupOf(r: RuleResult): GroupKey { GroupKey(r.sessionId, r.dedupGroup) }

  function GroupOrder(k: GroupKey): Key { [Text(k.sessionId), Text(k.group)] }

  datatype Unit = Unit(
    group: GroupKey,
    outcome: Outcome,
    weight: real,
    representative: string,
    severity: Severity,
    members: seq<string>)

  function InGroup(k: GroupKey): RuleResult -> bool {
    (r: RuleResult) => GroupOf(r) == k
  }

  /** The list the dictionary holds for one key, in arrival order. */
  function Members(results: seq<RuleResult>, k: GroupKey): seq<RuleResult> {
    Filter(results, InGroup(k))
  }

  /** The dictionary's keys in insertion order: first appearances. */
  function Groups(results: seq<RuleResult>): seq<GroupKey> {
    if results == [] then []
    else
      var earlier := Groups(results[..|results| - 1]);
      var k := GroupOf(results[|results| - 1]);
      if k in earlier then earlier else earlier + [k]
  }

  lemma {:induction false} GroupsMeaning(results: seq<RuleResult>)
    ensures NoDuplicates(Groups(results))
    ensures forall k :: k in Groups(results) <==> Members(results, k) != []
  {
    if results != [] {
      var before, r := results[..|results| - 1], results[|results| - 1];
      GroupsMeaning(before);
      assert results == before + [r];
      forall k ensures k in Groups(results) <==> Members(results, k) != [] {
        MembersAppend(before, r, k);
      }
    }
  }

  lemma MembersAppend(earlier: seq<RuleResult>, r: RuleResult, k: GroupKey)
    ensures Members(earlier + [r], k) ==
            Members(earlier, k) + if GroupOf(r) == k then [r] else []
  {
    FilterAppend(earlier, [r], InGroup(k));
  }

  function SortedGroups(results: seq<RuleResult>): seq<GroupKey> {
    SortBy(Groups(results), GroupOrder)
  }

  function PriorityKey(r: RuleResult): Key { [Num(OutcomePriority(r.outcome))] }

  /** The most decisive outcome among the members. */
  function GroupOutcome(members: seq<RuleResult>): Outcome
    requires members != []
  {
    MinBy(members, PriorityKey).outcome
  }

  function HasOutcome(o: Outcome): RuleResult -> bool {
    (r: RuleResult) => r.outcome == o
  }

  function Deciding(members: seq<RuleResult>): (d: seq<RuleResult>)
    requires members != []
    ensures d != []
  {
    MinByIsLeast(members, PriorityKey);
    assert MinBy(members, PriorityKey) in Filter(members, HasOutcome(GroupOutcome(members)));
    Filter(members, HasOutcome(GroupOutcome(members)))
  }

  function TextKey(s: string): Key { [Text(s)] }

  function SortedRuleIds(members: seq<RuleResult>): (ids: seq<string>)
    ensures |ids| == |members|
  {
    SameElements(SortBy(Map(members, RuleIdOf), TextKey), Map(members, RuleIdOf));
    SortBy(Map(members, RuleIdOf), TextKey)
  }

  /** One pass of the second loop of `build_units`. */
  function UnitFor(k: GroupKey, members: seq<RuleResult>, policy: Policy): Unit
    requires members != []
  {
    var outcome := GroupOutcome(members);
    var ids := SortedRuleIds(members);
    if outcome == NotApplicable then
      Unit(k, outcome, 0.0, ids[0], Info, ids)
    else
      var chosen := MinBy(Deciding(members), ChoiceKey);
      Unit(k, outcome, policy.WeightFor(chosen.ruleId, chosen.severity),
           chosen.ruleId, chosen.severity, ids)
  }

  lemma SortedGroupsAreGroups(results: seq<RuleResult>)
    ensures StrictlySortedBy(SortedGroups(results), GroupOrder)
    ensures NoDuplicates(SortedGroups(results))
    ensures forall k :: k in SortedGroups(results) <==> Members(results, k) != []
  {
    var ks := Groups(results);
    GroupsMeaning(results);
    SameElements(SortedGroups(results), ks);
    NoDuplicatesFromMultiset(ks, SortedGroups(results));
    forall i, j | 0 <= i < j < |ks| ensures GroupOrder(ks[i]) != GroupOrder(ks[j]) {
      GroupOrderInjective(ks[i], ks[j]);
    }
    SortByStrict(ks, GroupOrder);
  }

  lemma GroupOrderInjective(a: GroupKey, b: GroupKey)
    ensures GroupOrder(a) == GroupOrder(b) ==> a == b
  {
    assert GroupOrder(a)[0] == Text(a.sessionId) && GroupOrder(a)[1] == Text(a.group);
    assert GroupOrder(b)[0] == Text(b.sessionId) && GroupOrder(b)[1] == Text(b.group);
  }

  function UnitAt(results: seq<RuleResult>, k: GroupKey, policy: Policy): Unit
    requires Members(results, k) != []
  {
    UnitFor(k, Members(results, k), policy)
  }

  /** The scoring units of a set of results, in sorted group order. */
  function Units(results: seq<RuleResult>, policy: Policy): (units: seq<Unit>)
    ensures |units| == |SortedGroups(results)|
  {
    SortedGroupsAreGroups(results);
    var ks := SortedGroups(results);
    seq(|ks|, i requires 0 <= i < |ks| => assert ks[i] in ks; UnitAt(results, ks[i], policy))
  }

  lemma GroupsAppend(earlier: seq<RuleResult>, r: RuleResult)
    ensures Groups(earlier + [r]) ==
            Groups(earlier) + if GroupOf(r) in Groups(earlier) then [] else [GroupOf(r)]
  {
    assert (earlier + [r])[..|earlier|] == earlier;
  }

  /** What the dictionary holds after the first loop has seen `results`. */
  ghost predicate Recorded(
    results: seq<RuleResult>, order: seq<GroupKey>, grouped: map<GroupKey, seq<RuleResult>>)
  {
    && order == Groups(results)
    && (forall k :: k in grouped <==> k in order)
    && (forall k :: k in grouped ==> grouped[k] == Members(results, k))
  }

  function Arrivals(grouped: map<GroupKey, seq<RuleResult>>, k: GroupKey): seq<RuleResult> {
    if k in grouped then grouped[k] else []
  }

  lemma RecordOne(before: seq<RuleResult>, order: seq<GroupKey>,
                  grouped: map<GroupKey, seq<RuleResult>>, r: RuleResult)
    requires Recorded(before, order, grouped)
    ensures Recorded(before + [r],
                     if GroupOf(r) in grouped then order else order + [GroupOf(r)],
                     grouped[GroupOf(r) := Arrivals(grouped, GroupOf(r)) + [r]])
  {
    var k := GroupOf(r);
    GroupsAppend(before, r);
    GroupsMeaning(before);
    forall g ensures Members(before + [r], g) ==
                     Members(before, g) + if k == g then [r] else []
    {
      MembersAppend(before, r, g);
    }
    assert Arrivals(grouped, k) == Members(before, k);
  }

  /** The first loop of `build_units`: a dictionary of lists in arrival order. */
  method GroupResults(results: seq<RuleResult>)
    returns (order: seq<GroupKey>, grouped: map<GroupKey, seq<RuleResult>>)
    ensures Recorded(results, order, grouped)
  {
    grouped, order := map[], [];
    for n := 0 to |results|
      invariant Recorded(results[..n], order, grouped)
    {
      var r := results[n];
      var k := GroupOf(r);
      RecordOne(results[..n], order, grouped, r);
      assert results[..n + 1] == results[..n] + [r];
      if k !in grouped {
        order := order + [k];
      }
      grouped := grouped[k := Arrivals(grouped, k) + [r]];
    }
    assert results[..|results|] == results;
  }

  /** The second loop of `build_units`: one unit per key, in the order given. */
  method UnitsInOrder(ks: seq<GroupKey>, grouped: map<GroupKey, seq<RuleResult>>, policy: Policy)
    returns (units: seq<Unit>)
    requires forall k :: k in ks ==> k in grouped && grouped[k] != []
    ensures |units| == |ks|
    ensures forall i :: 0 <= i < |ks| ==> units[i] == UnitFor(ks[i], grouped[ks[i]], policy)
  {
    units := [];
    for i := 0 to |ks|
      invariant |units| == i
      invariant forall j :: 0 <= j < i ==> units[j] == UnitFor(ks[j], grouped[ks[j]], policy)
    {
      units := units + [UnitFor(ks[i], grouped[ks[i]], policy)];
    }
  }

  /** `build_units`: group, sort the keys, make one unit per group. */
  method BuildUnits(results: seq<RuleResult>, policy: Policy) returns (units: seq<Unit>)
    ensures units == Units(results, policy)
  {
    var order, grouped := GroupResults(results);
    SortedGroupsAreGroups(results);
    GroupsMeaning(results);
    units := UnitsInOrder(SortBy(order, GroupOrder), grouped, policy);
  }

  // ---- the formula ------------------------------------------------------

  predicate Scored(u: Unit) { u.weight > 0.0 }

  predicate Evaluated(u: Unit) { Scored(u) && (u.outcome == Fail || u.outcome == Pass) }

  predicate Undetermined(u: Unit) { Scored(u) && u.outcome == Unknown }

  predicate Failed(u: Unit) { Evaluated(u) && u.outcome == Fail }

  predicate Passed(u: Unit) { Evaluated(u) && u.outcome == Pass }

  predicate Inapplicable(u: Unit) { u.outcome == NotApplicable }

  function EvaluatedWeight(u: Unit): real { if Evaluated(u) then u.weight else 0.0 }

  function UndeterminedWeight(u: Unit): real { if Undetermined(u) then u.weight else 0.0 }

  function FailedWeight(u: Unit): real { if Failed(u) then u.weight else 0.0 }

  /** W(E), W(A) and W(F) of the module's formalisation. */
  function WEvaluated(units: seq<Unit>): real { SumBy(units, EvaluatedWeight) }

  function WUnknown(units: seq<Unit>): real { SumBy(units, UndeterminedWeight) }

  function WApplicable(units: seq<Unit>): real { WEvaluated(units) + WUnknown(units) }

  function WFailed(units: seq<Unit>): real { SumBy(units, FailedWeight) }

  function Coverage(units: seq<Unit>): real {
    if WApplicable(units) > 0.0 then WEvaluated(units) / WApplicable(units) else 0.0
  }

  predicate Sufficient(units: seq<Unit>, minimum: real) {
    WEvaluated(units) > 0.0 && Coverage(units) >= minimum
  }

  function Raw(units: seq<Unit>): real
    requires WEvaluated(units) > 0.0
  {
    100.0 * (WEvaluated(units) - WFailed(units)) / WEvaluated(units)
  }

  /** Python's `round`: to the nearest integer, halves to the even one. */
  function RoundHalfEven(x: real): int {
    var down := x.Floor;
    var part := x - down as real;
    if part < 0.5 then down
    else if part > 0.5 then down + 1
    else if down % 2 == 0 then down
    else down + 1
  }

  datatype Band = Strong | Adequate | Weak | CriticalBand | NotAvailable

  function BandOf(score: int): Band {
    if score >= 90 then Strong
    else if score >= 70 then Adequate
    else if score >= 40 then Weak
    else CriticalBand
  }

  function Clamp(x: int): int { if x < 0 then 0 else if x > 100 then 100 else x }

  datatype Tally = Tally(
    totalApplicable: nat, evaluated: nat, passed: nat, failed: nat,
    unknown: nat, notApplicable: nat, suppressed: nat)

  datatype Posture = Posture(
    score: Option<int>, band: Band, tally: Tally,
    coverage: real, sufficient: bool, weightedEvaluated: real, weightedDeductions: real)

  function TallyOf(units: seq<Unit>, suppressed: nat): Tally {
    Tally(CountBy(units, Evaluated) + CountBy(units, Undetermined),
          CountBy(units, Evaluated), CountBy(units, Passed), CountBy(units, Failed),
          CountBy(units, Undetermined), CountBy(units, Inapplicable), suppressed)
  }

  /** `compute_score`. */
  function ComputeScore(units: seq<Unit>, policy: Policy): Posture {
    var sufficient := Sufficient(units, policy.minimumCoverage);
    if !sufficient then
      Posture(None, NotAvailable, TallyOf(units, 0), Coverage(units), false,
              WEvaluated(units), WFailed(units))
    else
      var score := Clamp(RoundHalfEven(Raw(units)));
      Posture(Some(score), BandOf(score), TallyOf(units, 0), Coverage(units), true,
              WEvaluated(units), WFailed(units))
  }

  predicate Suppressed(r: RuleResult) { r.outcome == Fail && !r.counts }

  /** `suppressed_count`. */
  function SuppressedCount(results: seq<RuleResult>): nat {
    CountBy(results, Suppressed)
  }
}
