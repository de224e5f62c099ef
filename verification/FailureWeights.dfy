/**
 * One failure exchanged for another in the same group, as when a policy gives a
 * failing rule another severity: whether a heavier failure can score above a
 * lighter one.
 */
module FailureWeights {
  import opened Orders
  import opened Sorting
  import opened Sums
  import opened Assessment
  import opened Scoring
  import opened UnitTheorems
  import opened ScoreTheorems
  import opened Monotonicity
  import opened EvidenceLoss

  /** Of two failures in a group, the weight of the one that represents it. */
  ghost function Carried(r: RuleResult, c: RuleResult, policy: Policy): real {
    if Less(ChoiceKey(r), ChoiceKey(c)) then WeightOf(r, policy) else WeightOf(c, policy)
  }

  /** With the other members `m`, the group weighs less when `r'` fails in the place of `r`. */
  ghost predicate GroupGetsLighter(m: seq<RuleResult>, r: RuleResult, r': RuleResult, policy: Policy) {
    if Occurs(m, Fail) then
      exists c :: IsChosen(m, Fail, c) && Carried(r', c, policy) < Carried(r, c, policy)
    else
      WeightOf(r', policy) < WeightOf(r, policy)
  }

  lemma LighterByChoice(m: seq<RuleResult>, c: RuleResult, r: RuleResult, r': RuleResult, policy: Policy)
    requires IsChosen(m, Fail, c)
    ensures GroupGetsLighter(m, r, r', policy) <==> Carried(r', c, policy) < Carried(r, c, policy)
  {
    assert Occurs(m, Fail);
    forall d | IsChosen(m, Fail, d)
      ensures ChoiceKey(c) == ChoiceKey(d) && WeightOf(c, policy) == WeightOf(d, policy)
    {
      ChoicesAgree(m, Fail, c, d, policy);
    }
  }

  lemma FailureWeightOfGroup(k: GroupKey, m: seq<RuleResult>, r: RuleResult, r': RuleResult, policy: Policy)
    requires r.outcome == Fail && r'.outcome == Fail
    ensures var u, u' := UnitFor(k, m + [r], policy), UnitFor(k, m + [r'], policy);
            && PassedWeight(u) == PassedWeight(u') == 0.0
            && (FailedWeight(u') < FailedWeight(u) <==> GroupGetsLighter(m, r, r', policy))
  {
    if Occurs(m, Fail) {
      var c := ChosenExists(m, Fail);
      CarriesTogether(k, m, r, c, policy);
      CarriesTogether(k, m, r', c, policy);
      LighterByChoice(m, c, r, r', policy);
    } else {
      CarriesAlone(k, m, r, policy);
      CarriesAlone(k, m, r', policy);
    }
  }

  /**
   * A FAIL in the place of another, for every policy: the raw score rises exactly
   * when the group's representative then weighs less and something passed.
   */
  lemma OtherFailureRaisesExactlyWhen(results: seq<RuleResult>, i: nat, r': RuleResult, policy: Policy)
    requires i < |results| && results[i].outcome == Fail && r'.outcome == Fail
    requires GroupOf(r') == GroupOf(results[i])
    ensures var before, after := Units(results, policy), Units(results[i := r'], policy);
            BothScored(before, after) ==>
              (Raises(before, after) <==>
               && SomePassed(before)
               && GroupGetsLighter(Members(Others(results, i), GroupOf(r')), results[i], r', policy))
  {
    var k, m := GroupOf(r'), Members(Others(results, i), GroupOf(r'));
    var j := ReplacementExchangesUnits(results, i, r', policy);
    FailureWeightOfGroup(k, m, results[i], r', policy);
    FailureReweighted(Units(results, policy), j, UnitFor(k, m + [r'], policy));
  }

  lemma OrderedCarriesHeaviest(r: RuleResult, c: RuleResult, policy: Policy)
    requires OrderedWeights(policy)
    ensures Carried(r, c, policy) >= WeightOf(r, policy) && Carried(r, c, policy) >= WeightOf(c, policy)
    ensures Carried(r, c, policy) == WeightOf(r, policy) || Carried(r, c, policy) == WeightOf(c, policy)
  {
    Trichotomy(ChoiceKey(r), ChoiceKey(c));
    if Less(ChoiceKey(r), ChoiceKey(c)) {
      HeavierChoice(r, c, policy);
    } else {
      HeavierChoice(c, r, policy);
    }
  }

  lemma OrderedGroupGetsNoLighter(m: seq<RuleResult>, r: RuleResult, r': RuleResult, policy: Policy)
    requires OrderedWeights(policy) && WeightOf(r', policy) >= WeightOf(r, policy)
    ensures !GroupGetsLighter(m, r, r', policy)
  {
    forall c ensures Carried(r', c, policy) >= Carried(r, c, policy) {
      OrderedCarriesHeaviest(r, c, policy);
      OrderedCarriesHeaviest(r', c, policy);
    }
  }

  /** Under ordered weights a heavier failure never scores above a lighter one. */
  lemma HeavierFailureNeverHelps(results: seq<RuleResult>, i: nat, r': RuleResult, policy: Policy)
    requires i < |results| && results[i].outcome == Fail && r'.outcome == Fail
    requires GroupOf(r') == GroupOf(results[i])
    requires OrderedWeights(policy) && WeightOf(r', policy) >= WeightOf(results[i], policy)
    ensures NoBetter(Units(results[i := r'], policy), Units(results, policy), policy)
  {
    var before, after := Units(results, policy), Units(results[i := r'], policy);
    OtherFailureRaisesExactlyWhen(results, i, r', policy);
    OrderedGroupGetsNoLighter(Members(Others(results, i), GroupOf(r')), results[i], r', policy);
    if Sufficient(before, policy.minimumCoverage) && Sufficient(after, policy.minimumCoverage) {
      ReportFollowsRaw(before, after, policy);
    }
  }
}
