/**
 * The shapes in which one rule result moves a score the wrong way, on two or three
 * results in two groups, for any policy whose weights have the shape.
 */
module WrongWays {
  import opened Orders
  import opened Sorting
  import opened Sums
  import opened Assessment
  import opened Scoring
  import opened UnitTheorems
  import opened ScoreTheorems
  import opened Monotonicity
  import opened EvidenceLoss
  import opened FailureWeights
  import opened DisabledRules

  // ---- three results in two groups ---------------------------------------------------

  lemma MembersOfThree(rs: seq<RuleResult>)
    requires |rs| == 3
    ensures forall k :: Members(rs, k) ==
              (if GroupOf(rs[0]) == k then [rs[0]] else [])
              + (if GroupOf(rs[1]) == k then [rs[1]] else [])
              + (if GroupOf(rs[2]) == k then [rs[2]] else [])
  {
    assert rs == [] + [rs[0]] + [rs[1]] + [rs[2]];
    forall k ensures Members(rs, k) ==
              (if GroupOf(rs[0]) == k then [rs[0]] else [])
              + (if GroupOf(rs[1]) == k then [rs[1]] else [])
              + (if GroupOf(rs[2]) == k then [rs[2]] else [])
    {
      MembersAppend([], rs[0], k);
      MembersAppend([] + [rs[0]], rs[1], k);
      MembersAppend([] + [rs[0]] + [rs[1]], rs[2], k);
    }
  }

  lemma MembersOfTwo(a: RuleResult, b: RuleResult, k: GroupKey)
    ensures Members([a, b], k) == (if GroupOf(a) == k then [a] else []) + if GroupOf(b) == k then [b] else []
  {
    assert [] + [a] == [a] && [a] + [b] == [a, b];
    MembersAppend([], a, k);
    MembersAppend([a], b, k);
  }

  /** `b` and `c` share a group that `a` is not in. */
  predicate TwoGroups(a: RuleResult, b: RuleResult, c: RuleResult) { GroupOf(a) != GroupOf(b) == GroupOf(c) }

  lemma GroupsOfThree(a: RuleResult, b: RuleResult, c: RuleResult)
    requires TwoGroups(a, b, c)
    ensures Members([a, b, c], GroupOf(a)) == [a]
    ensures Members([a, b, c], GroupOf(b)) == [b, c]
    ensures Members(Others([a, b, c], 1), GroupOf(b)) == [c]
  {
    MembersOfThree([a, b, c]);
    assert Others([a, b, c], 1) == [a, c];
    MembersOfTwo(a, c, GroupOf(b));
  }

  lemma OnlyChoice(b: RuleResult, c: RuleResult, o: Outcome)
    requires c.outcome == o && b.outcome != o
    ensures IsChosen([b, c], o, c) && IsChosen([c], o, c)
  {
    Trichotomy(ChoiceKey(c), ChoiceKey(c));
  }

  lemma MoreSevereOutranks(r: RuleResult, c: RuleResult)
    requires SeverityRank(r.severity) < SeverityRank(c.severity)
    ensures Less(ChoiceKey(r), ChoiceKey(c))
  {
    assert ChoiceKey(r)[0] == Num(SeverityRank(r.severity)) && ChoiceKey(c)[0] == Num(SeverityRank(c.severity));
  }

  /** A result alone in its group puts its weight on its own side. */
  lemma LoneResult(results: seq<RuleResult>, r: RuleResult, policy: Policy)
    requires (r.outcome == Pass || r.outcome == Fail) && WeightOf(r, policy) > 0.0
    requires Members(results, GroupOf(r)) == [r]
    ensures WEvaluated(Units(results, policy)) > 0.0
    ensures r.outcome == Pass ==> SomePassed(Units(results, policy))
    ensures r.outcome == Fail ==> SomeFailed(Units(results, policy))
  {
    var j := IndexOfUnit(results, policy, GroupOf(r));
    LoneUnitWeight(GroupOf(r), r, policy);
    OneUnitShows(Units(results, policy), j);
  }

  lemma LoneUnitWeight(k: GroupKey, r: RuleResult, policy: Policy)
    requires (r.outcome == Pass || r.outcome == Fail) && WeightOf(r, policy) > 0.0
    ensures r.outcome == Pass ==> PassedWeight(UnitFor(k, [r], policy)) > 0.0
    ensures r.outcome == Fail ==> FailedWeight(UnitFor(k, [r], policy)) > 0.0
  {
    Trichotomy(ChoiceKey(r), ChoiceKey(r));
    assert IsChosen([r], r.outcome, r);
    DecidedUnit(k, [r], r, policy);
  }

  lemma OneUnitShows(units: seq<Unit>, j: nat)
    requires j < |units|
    ensures PassedWeight(units[j]) > 0.0 ==> WEvaluated(units) > 0.0 && SomePassed(units)
    ensures FailedWeight(units[j]) > 0.0 ==> WEvaluated(units) > 0.0 && SomeFailed(units)
  {
    ReplaceUnit(units, j, units[j]);
    WeightsNonNegative(units);
  }

  // ---- the shapes --------------------------------------------------------------------------

  /** The first of three results decides a group of its own. */
  lemma FirstDecides(a: RuleResult, b: RuleResult, c: RuleResult, policy: Policy)
    requires TwoGroups(a, b, c) && WeightOf(a, policy) > 0.0 && (a.outcome == Pass || a.outcome == Fail)
    ensures var units := Units([a, b, c], policy);
            && WEvaluated(units) > 0.0
            && (a.outcome == Pass ==> SomePassed(units)) && (a.outcome == Fail ==> SomeFailed(units))
  {
    GroupsOfThree(a, b, c);
    LoneResult([a, b, c], a, policy);
  }

  lemma TakesOver(a: RuleResult, r: RuleResult, c: RuleResult, policy: Policy)
    requires TwoGroups(a, r, c) && SeverityRank(r.severity) < SeverityRank(c.severity)
    requires r.outcome == Pass && c.outcome == Fail && WeightOf(r, policy) < WeightOf(c, policy)
    ensures TakesOverCheaper([a, r, c], 1, policy)
  {
    GroupsOfThree(a, r, c);
    OnlyChoice(r, c, Fail);
    MoreSevereOutranks(r, c);
  }

  /** A flip that takes a failing group over at a lower weight. */
  lemma TakeOverRaises(a: RuleResult, r: RuleResult, c: RuleResult, policy: Policy)
    requires TwoGroups(a, r, c) && SeverityRank(r.severity) < SeverityRank(c.severity)
    requires a.outcome == Pass && r.outcome == Pass && c.outcome == Fail
    requires WeightOf(a, policy) > 0.0 && WeightOf(r, policy) < WeightOf(c, policy)
    ensures Raises(Units([a, r, c], policy), Units([a, Flipped(r), c], policy))
  {
    FirstDecides(a, r, c, policy);
    FirstDecides(a, Flipped(r), c, policy);
    TakesOver(a, r, c, policy);
    assert [a, r, c][1 := Flipped(r)] == [a, Flipped(r), c];
    CheaperTakeOverRaises([a, r, c], 1, policy);
  }

  lemma CheaperTakeOverRaises(results: seq<RuleResult>, i: nat, policy: Policy)
    requires i < |results| && results[i].outcome != Fail && TakesOverCheaper(results, i, policy)
    requires SomePassed(Units(results, policy))
    requires BothScored(Units(results, policy), Units(results[i := Flipped(results[i])], policy))
    ensures Raises(Units(results, policy), Units(results[i := Flipped(results[i])], policy))
  {
    FlipRaisesExactlyWhen(results, i, policy);
  }

  lemma LeavesHeavier(a: RuleResult, r: RuleResult, c: RuleResult, policy: Policy)
    requires TwoGroups(a, r, c) && SeverityRank(r.severity) < SeverityRank(c.severity)
    requires r.outcome == Pass && c.outcome == Pass && WeightOf(r, policy) < WeightOf(c, policy)
    ensures var m := Members(Others([a, r, c], 1), GroupOf(r));
            !Occurs(m, Fail) && NextIsHeavier(m, Pass, r, policy)
  {
    GroupsOfThree(a, r, c);
    OnlyChoice(Forgotten(r), c, Pass);
    MoreSevereOutranks(r, c);
  }

  /** A lost PASS that leaves its group to a heavier one. */
  lemma LostPassRaises(a: RuleResult, r: RuleResult, c: RuleResult, policy: Policy)
    requires TwoGroups(a, r, c) && SeverityRank(r.severity) < SeverityRank(c.severity)
    requires a.outcome == Fail && r.outcome == Pass && c.outcome == Pass
    requires WeightOf(a, policy) > 0.0 && WeightOf(r, policy) < WeightOf(c, policy)
    ensures Raises(Units([a, r, c], policy), Units([a, Forgotten(r), c], policy))
  {
    FirstDecides(a, r, c, policy);
    FirstDecides(a, Forgotten(r), c, policy);
    LeavesHeavier(a, r, c, policy);
    LosingAPassRaisesExactlyWhen([a, r, c], 1, policy);
    assert [a, r, c][1 := Forgotten(r)] == [a, Forgotten(r), c];
  }

  lemma FirstOfTwoPasses(a: RuleResult, b: RuleResult, policy: Policy)
    requires GroupOf(a) != GroupOf(b) && a.outcome == Pass && WeightOf(a, policy) > 0.0
    ensures WEvaluated(Units([a, b], policy)) > 0.0 && SomePassed(Units([a, b], policy))
  {
    MembersOfTwo(a, b, GroupOf(a));
    LoneResult([a, b], a, policy);
  }

  lemma LeavesNobody(a: RuleResult, r: RuleResult)
    requires GroupOf(a) != GroupOf(r)
    ensures Members(Others([a, r], 1), GroupOf(r)) == []
  {
    assert Others([a, r], 1) == [] + [a];
    MembersAppend([], a, GroupOf(r));
  }

  /** A lost FAIL that leaves its group undecided. */
  lemma LostFailRaises(a: RuleResult, r: RuleResult, policy: Policy)
    requires GroupOf(a) != GroupOf(r) && a.outcome == Pass && r.outcome == Fail
    requires WeightOf(a, policy) > 0.0 && WeightOf(r, policy) > 0.0
    ensures Raises(Units([a, r], policy), Units([a, Forgotten(r)], policy))
  {
    FirstOfTwoPasses(a, r, policy);
    FirstOfTwoPasses(a, Forgotten(r), policy);
    LeavesNobody(a, r);
    LosingAFailRaisesExactlyWhen([a, r], 1, policy);
    assert [a, r][1 := Forgotten(r)] == [a, Forgotten(r)];
  }

  lemma OutranksUndecided(a: RuleResult, r: RuleResult, c: RuleResult, policy: Policy)
    requires TwoGroups(a, r, c) && SeverityRank(r.severity) < SeverityRank(c.severity)
    requires c.outcome == Unknown && WeightOf(r, policy) < WeightOf(c, policy)
    ensures OutrankedCheaper(Members([a, c], GroupOf(r)), r, policy)
  {
    MembersOfTwo(a, c, GroupOf(r));
    Trichotomy(ChoiceKey(c), ChoiceKey(c));
    assert IsChosen([c], Unknown, c);
    MoreSevereOutranks(r, c);
  }

  /** An added UNKNOWN that takes an undecided group over at a lower weight. */
  lemma AddedUnknownRaisesCoverage(a: RuleResult, r: RuleResult, c: RuleResult, policy: Policy)
    requires TwoGroups(a, r, c) && SeverityRank(r.severity) < SeverityRank(c.severity)
    requires a.outcome == Pass && r.outcome == Unknown && c.outcome == Unknown
    requires WeightOf(a, policy) > 0.0 && WeightOf(r, policy) < WeightOf(c, policy)
    ensures Coverage(Units([a, r, c], policy)) > Coverage(Units([a, c], policy))
  {
    FirstOfTwoPasses(a, c, policy);
    OutranksUndecided(a, r, c, policy);
    UnknownRaisesCoverageExactlyWhen([a, c], r, policy);
    assert [a, c] + [r] == [a, c, r];
    LastTwoSwapped(a, r, c);
    UnitsIgnoreResultOrder([a, c, r], [a, r, c], policy);
  }

  lemma LastTwoSwapped(a: RuleResult, r: RuleResult, c: RuleResult)
    ensures multiset([a, c, r]) == multiset([a, r, c])
  {
  }

  lemma LoneChoice(c: RuleResult)
    ensures IsChosen([c], c.outcome, c) && Occurs([c], c.outcome)
  {
    Trichotomy(ChoiceKey(c), ChoiceKey(c));
    assert c in [c];
  }

  lemma PlaceIsTaken(a: RuleResult, r: RuleResult, c: RuleResult, policy: Policy)
    requires TwoGroups(a, r, c) && SeverityRank(r.severity) < SeverityRank(c.severity)
    requires r.outcome == Fail && c.outcome == Fail && WeightOf(r, policy) < WeightOf(c, policy)
    ensures var m := Members(Others([a, r, c], 1), GroupOf(r));
            Occurs(m, Fail) && NextIsHeavier(m, Fail, r, policy) && !NextIsLighter(m, Fail, r, policy)
  {
    GroupsOfThree(a, r, c);
    LoneChoice(c);
    MoreSevereOutranks(r, c);
    NextByChoice([c], Fail, r, c, policy);
  }

  /** Disabling a failing rule that leaves its group to a heavier failure. */
  lemma DisabledFailLowers(a: RuleResult, r: RuleResult, c: RuleResult, policy: Policy)
    requires TwoGroups(a, r, c) && SeverityRank(r.severity) < SeverityRank(c.severity)
    requires a.outcome == Pass && r.outcome == Fail && c.outcome == Fail
    requires WeightOf(a, policy) > 0.0 && WeightOf(r, policy) < WeightOf(c, policy)
    ensures Raises(Units([a, c], policy), Units([a, r, c], policy))
    ensures !BothSidesDrop(Units([a, r, c], policy), Units([a, c], policy))
  {
    assert Others([a, r, c], 1) == [a, c];
    FirstDecides(a, r, c, policy);
    FirstOfTwoPasses(a, c, policy);
    PlaceIsTaken(a, r, c, policy);
    DisablingLowersExactlyWhen([a, r, c], 1, policy);
    BothSidesDropExactlyWhen([a, r, c], 1, policy);
  }

  lemma TakesOverLighter(a: RuleResult, c: RuleResult, r: RuleResult, r': RuleResult, policy: Policy)
    requires TwoGroups(a, c, r) && c.outcome == Fail && WeightOf(r', policy) < WeightOf(c, policy)
    requires SeverityRank(r'.severity) < SeverityRank(c.severity) < SeverityRank(r.severity)
    ensures GroupGetsLighter(Members(Others([a, c, r], 2), GroupOf(r)), r, r', policy)
  {
    assert Others([a, c, r], 2) == [a, c];
    MembersOfTwo(a, c, GroupOf(r));
    LoneChoice(c);
    LighterByChoice([c], c, r, r', policy);
    MoreSevereOutranks(r', c);
    MoreSevereOutranks(c, r);
    Trichotomy(ChoiceKey(c), ChoiceKey(r));
  }

  /** A failure made heavier that takes its group over from one heavier still. */
  lemma HeavierFailureRaises(a: RuleResult, c: RuleResult, r: RuleResult, r': RuleResult, policy: Policy)
    requires TwoGroups(a, c, r) && GroupOf(r') == GroupOf(r)
    requires a.outcome == Pass && c.outcome == Fail && r.outcome == Fail && r'.outcome == Fail
    requires SeverityRank(r'.severity) < SeverityRank(c.severity) < SeverityRank(r.severity)
    requires WeightOf(a, policy) > 0.0 && WeightOf(r', policy) < WeightOf(c, policy)
    ensures Raises(Units([a, c, r], policy), Units([a, c, r'], policy))
  {
    assert [a, c, r][2 := r'] == [a, c, r'];
    FirstDecides(a, c, r, policy);
    FirstDecides(a, c, r', policy);
    TakesOverLighter(a, c, r, r', policy);
    OtherFailureRaisesExactlyWhen([a, c, r], 2, r', policy);
  }
}
