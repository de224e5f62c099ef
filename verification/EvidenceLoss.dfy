/**
 * How the score answers when a rule result stops being decided: a FAIL or a PASS
 * that turns UNKNOWN, at the level of rule results, where another member of the
 * group may take its place under another weight.
 */
module EvidenceLoss {
  import opened Orders
  import opened Sorting
  import opened Sums
  import opened Assessment
  import opened Scoring
  import opened UnitTheorems
  import opened ScoreTheorems
  import opened Monotonicity

  function Forgotten(r: RuleResult): RuleResult { r.(outcome := Unknown) }

  // ---- one unit exchanged ------------------------------------------------------

  lemma CrossTerms(p: real, f: real, p': real, f': real)
    ensures p * (p' + f') < p' * (p + f) <==> p * f' < p' * f
  {
    assert p * (p' + f') == p * p' + p * f';
    assert p' * (p + f) == p * p' + p' * f;
  }

  /** Passed and failed weight before and after decide whether the raw score rises. */
  lemma RawRises(before: seq<Unit>, after: seq<Unit>, p: real, f: real, p': real, f': real)
    requires BothScored(before, after)
    requires f == WFailed(before) && p == WEvaluated(before) - f
    requires f' == WFailed(after) && p' == WEvaluated(after) - f'
    ensures Raises(before, after) <==> p * f' < p' * f
  {
    CompareRaw(after, before);
    CrossTerms(p, f, p', f');
  }

  // ---- what the arithmetic comes to ---------------------------------------------

  /** Only one factor changed. */
  lemma LighterFactor(p: real, f: real, f': real)
    requires p >= 0.0
    ensures p * f' < p * f <==> p > 0.0 && f' < f
  {
    if p > 0.0 && f' < f { assert p * f' < p * f; }
    if f' >= f { assert p * f' >= p * f; }
  }

  /** Failed weight went down and passed weight up. */
  lemma FailureBecomesPass(p: real, f: real, p': real, f': real)
    requires 0.0 <= p <= p' && 0.0 <= f' <= f
    ensures p * f' < p' * f <==> (p > 0.0 && f' < f) || (p' > p && f > 0.0)
  {
    var d, e := f - f', p' - p;
    var x, y := p * d, f * e;
    Product(p, d, x);
    Product(f, e, y);
    Difference(p, f, p', f');
    assert p' * f - p * f' == x + y;
  }

  lemma Product(a: real, b: real, m: real)
    requires a >= 0.0 && b >= 0.0 && m == a * b
    ensures m >= 0.0 && (m > 0.0 <==> a > 0.0 && b > 0.0)
  {
    if a > 0.0 && b > 0.0 {
      assert a * b > 0.0;
    } else if a == 0.0 {
      assert 0.0 * b == 0.0;
    } else {
      assert a * 0.0 == 0.0;
    }
  }

  lemma Difference(p: real, f: real, p': real, f': real)
    ensures p' * f - p * f' == p * (f - f') + f * (p' - p)
  {
  }

  // ---- when one unit is exchanged -----------------------------------------------

  /** Something passed, something failed. */
  predicate SomePassed(units: seq<Unit>) { WEvaluated(units) > WFailed(units) }

  predicate SomeFailed(units: seq<Unit>) { WFailed(units) > 0.0 }

  /** Both raw scores exist, and the second is higher. */
  predicate Raises(before: seq<Unit>, after: seq<Unit>) {
    WEvaluated(before) > 0.0 && WEvaluated(after) > 0.0 && Raw(after) > Raw(before)
  }

  predicate BothScored(before: seq<Unit>, after: seq<Unit>) {
    WEvaluated(before) > 0.0 && WEvaluated(after) > 0.0
  }

  lemma FailureReweighted(units: seq<Unit>, j: nat, u: Unit)
    requires j < |units| && PassedWeight(units[j]) == PassedWeight(u) == 0.0
    ensures BothScored(units, units[j := u]) ==>
      (Raises(units, units[j := u]) <==> SomePassed(units) && FailedWeight(u) < FailedWeight(units[j]))
  {
    var after := units[j := u];
    ReplaceUnit(units, j, u);
    if BothScored(units, after) {
      var f, p, f' := WFailed(units), WEvaluated(units) - WFailed(units), WFailed(after);
      RawRises(units, after, p, f, p, f');
      LighterFactor(p, f, f');
    }
  }

  lemma FailureReplaced(units: seq<Unit>, j: nat, u: Unit)
    requires j < |units| && PassedWeight(units[j]) == FailedWeight(u) == 0.0
    ensures BothScored(units, units[j := u]) ==>
      (Raises(units, units[j := u]) <==>
       (SomePassed(units) && FailedWeight(units[j]) > 0.0) || (SomeFailed(units) && PassedWeight(u) > 0.0))
  {
    var after := units[j := u];
    ReplaceUnit(units, j, u);
    if BothScored(units, after) {
      var f, p := WFailed(units), WEvaluated(units) - WFailed(units);
      var f', p' := WFailed(after), WEvaluated(after) - WFailed(after);
      RawRises(units, after, p, f, p', f');
      FailureBecomesPass(p, f, p', f');
    }
  }

  lemma PassReweighted(units: seq<Unit>, j: nat, u: Unit)
    requires j < |units| && FailedWeight(units[j]) == FailedWeight(u) == 0.0
    ensures BothScored(units, units[j := u]) ==>
      (Raises(units, units[j := u]) <==> SomeFailed(units) && PassedWeight(units[j]) < PassedWeight(u))
  {
    var after := units[j := u];
    ReplaceUnit(units, j, u);
    WeightsNonNegative(units);
    if BothScored(units, after) {
      var f, p, p' := WFailed(units), WEvaluated(units) - WFailed(units), WEvaluated(after) - WFailed(after);
      RawRises(units, after, p, f, p', f);
      LighterFactor(f, p', p);
    }
  }

  // ---- the unit a result belongs to -------------------------------------------------

  lemma UndecidedUnit(k: GroupKey, m: seq<RuleResult>, policy: Policy)
    requires m != [] && !Occurs(m, Fail) && !Occurs(m, Pass)
    ensures FailedWeight(UnitFor(k, m, policy)) == PassedWeight(UnitFor(k, m, policy)) == 0.0
  {
    UnitOutcome(k, m, policy);
  }

  /** With the result forgotten, the rest of the group decides alone. */
  lemma OthersDecide(k: GroupKey, m: seq<RuleResult>, r: RuleResult, c: RuleResult, policy: Policy)
    requires c.outcome == Fail || (c.outcome == Pass && !Occurs(m, Fail))
    requires IsChosen(m, c.outcome, c) && r.outcome != c.outcome
    requires r.outcome != Fail
    ensures FailedWeight(UnitFor(k, m + [r], policy)) == if c.outcome == Fail then WeightOf(c, policy) else 0.0
    ensures PassedWeight(UnitFor(k, m + [r], policy)) == if c.outcome == Pass then WeightOf(c, policy) else 0.0
  {
    JoiningOccurs(m, r, Fail);
    JoiningKeepsChoice(m, r, c);
    DecidedUnit(k, m + [r], c, policy);
  }

  lemma NobodyDecides(k: GroupKey, m: seq<RuleResult>, r: RuleResult, policy: Policy)
    requires r.outcome != Fail && r.outcome != Pass && !Occurs(m, Fail) && !Occurs(m, Pass)
    ensures FailedWeight(UnitFor(k, m + [r], policy)) == PassedWeight(UnitFor(k, m + [r], policy)) == 0.0
  {
    JoiningOccurs(m, r, Fail);
    JoiningOccurs(m, r, Pass);
    UndecidedUnit(k, m + [r], policy);
  }

  /** A result carries its group when no other of its outcome outranks it. */
  lemma CarriesAlone(k: GroupKey, m: seq<RuleResult>, r: RuleResult, policy: Policy)
    requires r.outcome == Fail || (r.outcome == Pass && !Occurs(m, Fail))
    requires !Occurs(m, r.outcome)
    ensures FailedWeight(UnitFor(k, m + [r], policy)) == if r.outcome == Fail then WeightOf(r, policy) else 0.0
    ensures PassedWeight(UnitFor(k, m + [r], policy)) == if r.outcome == Pass then WeightOf(r, policy) else 0.0
  {
    JoiningAlone(m, r);
    JoiningOccurs(m, r, Fail);
    DecidedUnit(k, m + [r], r, policy);
  }

  lemma CarriesTogether(k: GroupKey, m: seq<RuleResult>, r: RuleResult, c: RuleResult, policy: Policy)
    requires r.outcome == Fail || (r.outcome == Pass && !Occurs(m, Fail))
    requires c.outcome == r.outcome && IsChosen(m, r.outcome, c)
    ensures var w := if Less(ChoiceKey(r), ChoiceKey(c)) then WeightOf(r, policy) else WeightOf(c, policy);
            && FailedWeight(UnitFor(k, m + [r], policy)) == (if r.outcome == Fail then w else 0.0)
            && PassedWeight(UnitFor(k, m + [r], policy)) == if r.outcome == Pass then w else 0.0
  {
    JoiningChoice(m, r, c);
    JoiningOccurs(m, r, Fail);
    DecidedUnit(k, m + [r], if Less(ChoiceKey(r), ChoiceKey(c)) then r else c, policy);
  }

  // ---- who takes over -----------------------------------------------------------------

  /** Without `r`, the next result of outcome `o` weighs less than `r` did, and `r` outranked it. */
  ghost predicate NextIsLighter(m: seq<RuleResult>, o: Outcome, r: RuleResult, policy: Policy) {
    exists c :: IsChosen(m, o, c) && Less(ChoiceKey(r), ChoiceKey(c)) && WeightOf(c, policy) < WeightOf(r, policy)
  }

  ghost predicate NextIsHeavier(m: seq<RuleResult>, o: Outcome, r: RuleResult, policy: Policy) {
    exists c :: IsChosen(m, o, c) && Less(ChoiceKey(r), ChoiceKey(c)) && WeightOf(r, policy) < WeightOf(c, policy)
  }

  ghost predicate NextWeighs(m: seq<RuleResult>, o: Outcome, policy: Policy) {
    exists c :: IsChosen(m, o, c) && WeightOf(c, policy) > 0.0
  }

  /** All choices agree in rank and weight, so it does not matter which one is named. */
  lemma ChoicesAgree(m: seq<RuleResult>, o: Outcome, c: RuleResult, d: RuleResult, policy: Policy)
    requires IsChosen(m, o, c) && IsChosen(m, o, d)
    ensures ChoiceKey(c) == ChoiceKey(d) && WeightOf(c, policy) == WeightOf(d, policy)
  {
    Trichotomy(ChoiceKey(c), ChoiceKey(d));
    ChoiceKeyDecides(c, d);
  }

  lemma NextByChoice(m: seq<RuleResult>, o: Outcome, r: RuleResult, c: RuleResult, policy: Policy)
    requires IsChosen(m, o, c)
    ensures NextIsLighter(m, o, r, policy) <==>
            Less(ChoiceKey(r), ChoiceKey(c)) && WeightOf(c, policy) < WeightOf(r, policy)
    ensures NextIsHeavier(m, o, r, policy) <==>
            Less(ChoiceKey(r), ChoiceKey(c)) && WeightOf(r, policy) < WeightOf(c, policy)
    ensures NextWeighs(m, o, policy) <==> WeightOf(c, policy) > 0.0
  {
    forall d | IsChosen(m, o, d)
      ensures ChoiceKey(c) == ChoiceKey(d) && WeightOf(c, policy) == WeightOf(d, policy)
    {
      ChoicesAgree(m, o, c, d, policy);
    }
  }

  // ---- losing a failure ---------------------------------------------------------------

  /**
   * Whether losing FAIL `r` helps, given the other members `m` of its group: another
   * FAIL takes over at a lower weight; or none is left and the group is undecided or passes.
   */
  ghost predicate LosingFailHelps(units: seq<Unit>, m: seq<RuleResult>, r: RuleResult, policy: Policy) {
    if Occurs(m, Fail) then
      SomePassed(units) && NextIsLighter(m, Fail, r, policy)
    else
      || (SomePassed(units) && WeightOf(r, policy) > 0.0)
      || (SomeFailed(units) && NextWeighs(m, Pass, policy))
  }

  lemma LosingFailToFail(
    units: seq<Unit>, j: nat, k: GroupKey, m: seq<RuleResult>, r: RuleResult, policy: Policy)
    requires j < |units| && r.outcome == Fail && units[j] == UnitFor(k, m + [r], policy) && Occurs(m, Fail)
    ensures var after := units[j := UnitFor(k, m + [Forgotten(r)], policy)];
            BothScored(units, after) ==> (Raises(units, after) <==> LosingFailHelps(units, m, r, policy))
  {
    var c := ChosenExists(m, Fail);
    CarriesTogether(k, m, r, c, policy);
    OthersDecide(k, m, Forgotten(r), c, policy);
    FailureReweighted(units, j, UnitFor(k, m + [Forgotten(r)], policy));
    NextByChoice(m, Fail, r, c, policy);
  }

  lemma LosingFailToPass(
    units: seq<Unit>, j: nat, k: GroupKey, m: seq<RuleResult>, r: RuleResult, policy: Policy)
    requires j < |units| && r.outcome == Fail && units[j] == UnitFor(k, m + [r], policy)
    requires !Occurs(m, Fail) && Occurs(m, Pass)
    ensures var after := units[j := UnitFor(k, m + [Forgotten(r)], policy)];
            BothScored(units, after) ==> (Raises(units, after) <==> LosingFailHelps(units, m, r, policy))
  {
    var c := ChosenExists(m, Pass);
    CarriesAlone(k, m, r, policy);
    OthersDecide(k, m, Forgotten(r), c, policy);
    FailureReplaced(units, j, UnitFor(k, m + [Forgotten(r)], policy));
    NextByChoice(m, Pass, r, c, policy);
  }

  lemma LosingFailToNothing(
    units: seq<Unit>, j: nat, k: GroupKey, m: seq<RuleResult>, r: RuleResult, policy: Policy)
    requires j < |units| && r.outcome == Fail && units[j] == UnitFor(k, m + [r], policy)
    requires !Occurs(m, Fail) && !Occurs(m, Pass)
    ensures var after := units[j := UnitFor(k, m + [Forgotten(r)], policy)];
            BothScored(units, after) ==> (Raises(units, after) <==> LosingFailHelps(units, m, r, policy))
  {
    CarriesAlone(k, m, r, policy);
    NobodyDecides(k, m, Forgotten(r), policy);
    FailureReplaced(units, j, UnitFor(k, m + [Forgotten(r)], policy));
  }

  /**
   * A FAIL turning UNKNOWN, for every policy and exactly: the raw score rises when
   * another FAIL of the group takes over at a lower weight while something passed;
   * when no other FAIL is left and the lost one weighed something while something
   * passed; or when a PASS of weight takes the group over while something failed.
   */
  lemma LosingAFailRaisesExactlyWhen(results: seq<RuleResult>, i: nat, policy: Policy)
    requires i < |results| && results[i].outcome == Fail
    ensures var before, after := Units(results, policy), Units(results[i := Forgotten(results[i])], policy);
            BothScored(before, after) ==>
              (Raises(before, after) <==>
               LosingFailHelps(before, Members(Others(results, i), GroupOf(results[i])), results[i], policy))
  {
    var r := results[i];
    var k, m := GroupOf(r), Members(Others(results, i), GroupOf(r));
    var j := ReplacementExchangesUnits(results, i, Forgotten(r), policy);
    if Occurs(m, Fail) {
      LosingFailToFail(Units(results, policy), j, k, m, r, policy);
    } else if Occurs(m, Pass) {
      LosingFailToPass(Units(results, policy), j, k, m, r, policy);
    } else {
      LosingFailToNothing(Units(results, policy), j, k, m, r, policy);
    }
  }

  // ---- losing a pass ------------------------------------------------------------------

  /**
   * Whether losing PASS `r` helps: it represented the passes of a group without a
   * FAIL, the next PASS weighs more, and something failed.
   */
  ghost predicate LosingPassHelps(units: seq<Unit>, m: seq<RuleResult>, r: RuleResult, policy: Policy) {
    !Occurs(m, Fail) && SomeFailed(units) && NextIsHeavier(m, Pass, r, policy)
  }

  lemma LosingPassBesideFail(
    units: seq<Unit>, j: nat, k: GroupKey, m: seq<RuleResult>, r: RuleResult, policy: Policy)
    requires j < |units| && r.outcome == Pass && units[j] == UnitFor(k, m + [r], policy) && Occurs(m, Fail)
    ensures !Raises(units, units[j := UnitFor(k, m + [Forgotten(r)], policy)])
  {
    var c := ChosenExists(m, Fail);
    OthersDecide(k, m, r, c, policy);
    OthersDecide(k, m, Forgotten(r), c, policy);
    FailureReweighted(units, j, UnitFor(k, m + [Forgotten(r)], policy));
  }

  lemma LosingPassToPass(
    units: seq<Unit>, j: nat, k: GroupKey, m: seq<RuleResult>, r: RuleResult, policy: Policy)
    requires j < |units| && r.outcome == Pass && units[j] == UnitFor(k, m + [r], policy)
    requires !Occurs(m, Fail) && Occurs(m, Pass)
    ensures var after := units[j := UnitFor(k, m + [Forgotten(r)], policy)];
            BothScored(units, after) ==> (Raises(units, after) <==> LosingPassHelps(units, m, r, policy))
  {
    var c := ChosenExists(m, Pass);
    CarriesTogether(k, m, r, c, policy);
    OthersDecide(k, m, Forgotten(r), c, policy);
    PassReweighted(units, j, UnitFor(k, m + [Forgotten(r)], policy));
    NextByChoice(m, Pass, r, c, policy);
  }

  lemma LosingPassToNothing(
    units: seq<Unit>, j: nat, k: GroupKey, m: seq<RuleResult>, r: RuleResult, policy: Policy)
    requires j < |units| && r.outcome == Pass && units[j] == UnitFor(k, m + [r], policy)
    requires !Occurs(m, Fail) && !Occurs(m, Pass)
    ensures !Raises(units, units[j := UnitFor(k, m + [Forgotten(r)], policy)])
  {
    CarriesAlone(k, m, r, policy);
    NobodyDecides(k, m, Forgotten(r), policy);
    PassReweighted(units, j, UnitFor(k, m + [Forgotten(r)], policy));
  }

  /** A PASS turning UNKNOWN, for every policy: exactly when the raw score rises. */
  lemma LosingAPassRaisesExactlyWhen(results: seq<RuleResult>, i: nat, policy: Policy)
    requires i < |results| && results[i].outcome == Pass
    ensures var before, after := Units(results, policy), Units(results[i := Forgotten(results[i])], policy);
            BothScored(before, after) ==>
              (Raises(before, after) <==>
               LosingPassHelps(before, Members(Others(results, i), GroupOf(results[i])), results[i], policy))
  {
    var r := results[i];
    var k, m := GroupOf(r), Members(Others(results, i), GroupOf(r));
    var j := ReplacementExchangesUnits(results, i, Forgotten(r), policy);
    if Occurs(m, Fail) {
      LosingPassBesideFail(Units(results, policy), j, k, m, r, policy);
    } else if Occurs(m, Pass) {
      LosingPassToPass(Units(results, policy), j, k, m, r, policy);
    } else {
      LosingPassToNothing(Units(results, policy), j, k, m, r, policy);
    }
  }

  lemma OrderedNextIsNotHeavier(m: seq<RuleResult>, o: Outcome, r: RuleResult, policy: Policy)
    requires OrderedWeights(policy)
    ensures !NextIsHeavier(m, o, r, policy)
  {
    forall c | Less(ChoiceKey(r), ChoiceKey(c)) ensures WeightOf(r, policy) >= WeightOf(c, policy) {
      Trichotomy(ChoiceKey(r), ChoiceKey(c));
      HeavierChoice(r, c, policy);
    }
  }

  /** Under ordered weights losing a PASS never raises raw score, reported score or band. */
  lemma LosingAPassNeverHelps(results: seq<RuleResult>, i: nat, policy: Policy)
    requires i < |results| && results[i].outcome == Pass && OrderedWeights(policy)
    ensures NoBetter(Units(results[i := Forgotten(results[i])], policy), Units(results, policy), policy)
  {
    var before, after := Units(results, policy), Units(results[i := Forgotten(results[i])], policy);
    LosingAPassRaisesExactlyWhen(results, i, policy);
    OrderedNextIsNotHeavier(Members(Others(results, i), GroupOf(results[i])), Pass, results[i], policy);
    if Sufficient(before, policy.minimumCoverage) && Sufficient(after, policy.minimumCoverage) {
      ReportFollowsRaw(before, after, policy);
    }
  }
}
