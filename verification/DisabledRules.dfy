/**
 * Disabling a rule: its result leaves the population, and within a shared group
 * the next member takes its place. Exactly when that takes weight off both sides
 * of the score fraction, and exactly how the raw score answers.
 */
module DisabledRules {
  import opened Orders
  import opened Sorting
  import opened Sums
  import opened Assessment
  import opened Scoring
  import opened UnitTheorems
  import opened ScoreTheorems
  import opened Monotonicity
  import opened EvidenceLoss
  import opened SessionEvaluation
  import Rules

  // ---- removing a result scores like forgetting it ---------------------------------

  lemma RemovedScoresAsForgotten(results: seq<RuleResult>, i: nat, policy: Policy)
    requires i < |results|
    ensures SameScoreFraction(Units(Others(results, i), policy),
                              Units(results[i := Forgotten(results[i])], policy))
  {
    var rest, gone := Others(results, i), Forgotten(results[i]);
    MoveToEnd(results, i, gone);
    UnitsIgnoreResultOrder(results[i := gone], rest + [gone], policy);
    AddingUnknownResult(rest, gone, policy);
  }

  /** A member that neither passed nor failed has no say in the weight of its group. */
  lemma SilentMember(k: GroupKey, m: seq<RuleResult>, r: RuleResult, policy: Policy)
    requires r.outcome != Fail && r.outcome != Pass
    ensures var u, u' := UnitFor(k, m + [r], policy), UnitFor(k, m + [Forgotten(r)], policy);
            FailedWeight(u) == FailedWeight(u') && PassedWeight(u) == PassedWeight(u')
  {
    if Occurs(m, Fail) || Occurs(m, Pass) {
      var c := ChosenExists(m, if Occurs(m, Fail) then Fail else Pass);
      OthersDecide(k, m, r, c, policy);
      OthersDecide(k, m, Forgotten(r), c, policy);
    } else {
      NobodyDecides(k, m, r, policy);
      NobodyDecides(k, m, Forgotten(r), policy);
    }
  }

  lemma SilentForgotten(results: seq<RuleResult>, i: nat, policy: Policy)
    requires i < |results| && results[i].outcome != Fail && results[i].outcome != Pass
    ensures SameScoreFraction(Units(results, policy), Units(results[i := Forgotten(results[i])], policy))
  {
    var r := results[i];
    var k, m := GroupOf(r), Members(Others(results, i), GroupOf(r));
    var j := ReplacementExchangesUnits(results, i, Forgotten(r), policy);
    SilentMember(k, m, r, policy);
    SameWeightsSameFraction(Units(results, policy), j, UnitFor(k, m + [Forgotten(r)], policy));
  }

  lemma SameWeightsSameFraction(units: seq<Unit>, j: nat, u: Unit)
    requires j < |units|
    requires FailedWeight(u) == FailedWeight(units[j]) && PassedWeight(u) == PassedWeight(units[j])
    ensures SameScoreFraction(units, units[j := u])
  {
    ReplaceUnit(units, j, u);
  }

  // ---- when the score rises -----------------------------------------------------------

  /** Whether removing `r` helps, given the other members `m` of its group. */
  ghost predicate DisablingHelps(units: seq<Unit>, m: seq<RuleResult>, r: RuleResult, policy: Policy) {
    match r.outcome
    case Fail => LosingFailHelps(units, m, r, policy)
    case Pass => LosingPassHelps(units, m, r, policy)
    case Unknown => false
    case NotApplicable => false
  }

  lemma SameFractionSameAnswer(before: seq<Unit>, a: seq<Unit>, b: seq<Unit>)
    requires SameScoreFraction(a, b)
    ensures BothScored(before, a) <==> BothScored(before, b)
    ensures Raises(before, a) <==> Raises(before, b)
    ensures Raises(a, before) <==> Raises(b, before)
  {
  }

  lemma DisablingRaisesExactlyWhen(results: seq<RuleResult>, i: nat, policy: Policy)
    requires i < |results|
    ensures var before, after := Units(results, policy), Units(Others(results, i), policy);
            BothScored(before, after) ==>
              (Raises(before, after) <==>
               DisablingHelps(before, Members(Others(results, i), GroupOf(results[i])), results[i], policy))
  {
    var forgotten := Units(results[i := Forgotten(results[i])], policy);
    RemovedScoresAsForgotten(results, i, policy);
    SameFractionSameAnswer(Units(results, policy), Units(Others(results, i), policy), forgotten);
    match results[i].outcome
    case Fail => LosingAFailRaisesExactlyWhen(results, i, policy);
    case Pass => LosingAPassRaisesExactlyWhen(results, i, policy);
    case _ => SilentForgotten(results, i, policy);
  }

  // ---- when the score falls -----------------------------------------------------------

  /**
   * Whether removing `r` hurts: a heavier FAIL takes a failing group over while
   * something passed; or, in a group without a FAIL, passed weight goes while
   * something failed.
   */
  ghost predicate DisablingHurts(units: seq<Unit>, m: seq<RuleResult>, r: RuleResult, policy: Policy) {
    match r.outcome
    case Fail => Occurs(m, Fail) && SomePassed(units) && NextIsHeavier(m, Fail, r, policy)
    case Pass =>
      && !Occurs(m, Fail) && SomeFailed(units)
      && (if Occurs(m, Pass) then NextIsLighter(m, Pass, r, policy) else WeightOf(r, policy) > 0.0)
    case Unknown => false
    case NotApplicable => false
  }

  lemma FailureReweightedBack(units: seq<Unit>, j: nat, u: Unit)
    requires j < |units| && PassedWeight(units[j]) == PassedWeight(u) == 0.0
    ensures BothScored(units, units[j := u]) ==>
      (Raises(units[j := u], units) <==> SomePassed(units) && FailedWeight(units[j]) < FailedWeight(u))
  {
    var after := units[j := u];
    ReplaceUnit(units, j, u);
    assert after[j := units[j]] == units;
    FailureReweighted(after, j, units[j]);
  }

  lemma PassReweightedBack(units: seq<Unit>, j: nat, u: Unit)
    requires j < |units| && FailedWeight(units[j]) == FailedWeight(u) == 0.0
    ensures BothScored(units, units[j := u]) ==>
      (Raises(units[j := u], units) <==> SomeFailed(units) && PassedWeight(u) < PassedWeight(units[j]))
  {
    var after := units[j := u];
    ReplaceUnit(units, j, u);
    assert after[j := units[j]] == units;
    PassReweighted(after, j, units[j]);
  }

  lemma FailureReplacedNeverFalls(units: seq<Unit>, j: nat, u: Unit)
    requires j < |units| && PassedWeight(units[j]) == FailedWeight(u) == 0.0
    ensures !Raises(units[j := u], units)
  {
    var after := units[j := u];
    ReplaceUnit(units, j, u);
    WeightsNonNegative(units);
    if BothScored(units, after) {
      var f, p := WFailed(units), WEvaluated(units) - WFailed(units);
      var f', p' := WFailed(after), WEvaluated(after) - WFailed(after);
      RawRises(after, units, p', f', p, f);
      ProductsOrdered(p, f, p', f');
    }
  }

  lemma ProductsOrdered(p: real, f: real, p': real, f': real)
    requires 0.0 <= p <= p' && 0.0 <= f' <= f
    ensures p * f' <= p' * f
  {
    assert p * f' <= p * f;
    assert p * f <= p' * f;
  }

  lemma FailGone(units: seq<Unit>, j: nat, k: GroupKey, m: seq<RuleResult>, r: RuleResult, policy: Policy)
    requires j < |units| && r.outcome == Fail && units[j] == UnitFor(k, m + [r], policy)
    ensures var after := units[j := UnitFor(k, m + [Forgotten(r)], policy)];
            BothScored(units, after) ==> (Raises(after, units) <==> DisablingHurts(units, m, r, policy))
  {
    if Occurs(m, Fail) {
      var c := ChosenExists(m, Fail);
      CarriesTogether(k, m, r, c, policy);
      OthersDecide(k, m, Forgotten(r), c, policy);
      FailureReweightedBack(units, j, UnitFor(k, m + [Forgotten(r)], policy));
      NextByChoice(m, Fail, r, c, policy);
    } else {
      NoFailLeft(k, m, r, policy);
      FailureReplacedNeverFalls(units, j, UnitFor(k, m + [Forgotten(r)], policy));
    }
  }

  lemma NoFailLeft(k: GroupKey, m: seq<RuleResult>, r: RuleResult, policy: Policy)
    requires r.outcome == Fail && !Occurs(m, Fail)
    ensures PassedWeight(UnitFor(k, m + [r], policy)) == 0.0
    ensures FailedWeight(UnitFor(k, m + [r], policy)) == WeightOf(r, policy)
    ensures FailedWeight(UnitFor(k, m + [Forgotten(r)], policy)) == 0.0
  {
    CarriesAlone(k, m, r, policy);
    if Occurs(m, Pass) {
      var c := ChosenExists(m, Pass);
      OthersDecide(k, m, Forgotten(r), c, policy);
    } else {
      NobodyDecides(k, m, Forgotten(r), policy);
    }
  }

  lemma PassGone(units: seq<Unit>, j: nat, k: GroupKey, m: seq<RuleResult>, r: RuleResult, policy: Policy)
    requires j < |units| && r.outcome == Pass && units[j] == UnitFor(k, m + [r], policy)
    ensures var after := units[j := UnitFor(k, m + [Forgotten(r)], policy)];
            BothScored(units, after) ==> (Raises(after, units) <==> DisablingHurts(units, m, r, policy))
  {
    var u' := UnitFor(k, m + [Forgotten(r)], policy);
    if Occurs(m, Fail) {
      var c := ChosenExists(m, Fail);
      OthersDecide(k, m, r, c, policy);
      OthersDecide(k, m, Forgotten(r), c, policy);
      FailureReweightedBack(units, j, u');
    } else if Occurs(m, Pass) {
      var c := ChosenExists(m, Pass);
      CarriesTogether(k, m, r, c, policy);
      OthersDecide(k, m, Forgotten(r), c, policy);
      PassReweightedBack(units, j, u');
      NextByChoice(m, Pass, r, c, policy);
    } else {
      CarriesAlone(k, m, r, policy);
      NobodyDecides(k, m, Forgotten(r), policy);
      PassReweightedBack(units, j, u');
    }
  }

  lemma DisablingLowersExactlyWhen(results: seq<RuleResult>, i: nat, policy: Policy)
    requires i < |results|
    ensures var before, after := Units(results, policy), Units(Others(results, i), policy);
            BothScored(before, after) ==>
              (Raises(after, before) <==>
               DisablingHurts(before, Members(Others(results, i), GroupOf(results[i])), results[i], policy))
  {
    var r := results[i];
    var k, m := GroupOf(r), Members(Others(results, i), GroupOf(r));
    var before := Units(results, policy);
    var j := ReplacementExchangesUnits(results, i, Forgotten(r), policy);
    RemovedScoresAsForgotten(results, i, policy);
    SameFractionSameAnswer(before, Units(Others(results, i), policy), Units(results[i := Forgotten(r)], policy));
    match r.outcome
    case Fail => FailGone(before, j, k, m, r, policy);
    case Pass => PassGone(before, j, k, m, r, policy);
    case _ => SilentForgotten(results, i, policy);
  }

  /** Under ordered weights, disabling a failing rule never hurts and a passing one never helps. */
  lemma DisablingUnderOrderedWeights(results: seq<RuleResult>, i: nat, policy: Policy)
    requires i < |results| && OrderedWeights(policy)
    ensures var before, after := Units(results, policy), Units(Others(results, i), policy);
            && (results[i].outcome == Fail ==> !Raises(after, before))
            && (results[i].outcome == Pass ==> !Raises(before, after))
  {
    var m := Members(Others(results, i), GroupOf(results[i]));
    DisablingRaisesExactlyWhen(results, i, policy);
    DisablingLowersExactlyWhen(results, i, policy);
    OrderedNextIsNotHeavier(m, results[i].outcome, results[i], policy);
  }

  // ---- both sides of the fraction -------------------------------------------------------

  /** Less is evaluated, and less of it failed. */
  predicate BothSidesDrop(before: seq<Unit>, after: seq<Unit>) {
    WEvaluated(after) < WEvaluated(before) && WFailed(after) < WFailed(before)
  }

  ghost predicate NextPassIsLighter(m: seq<RuleResult>, r: RuleResult, policy: Policy) {
    exists c :: IsChosen(m, Pass, c) && WeightOf(c, policy) < WeightOf(r, policy)
  }

  /** Nobody takes the place of FAIL `r` at the same or a greater weight. */
  ghost predicate LeavesBothSides(m: seq<RuleResult>, r: RuleResult, policy: Policy) {
    if Occurs(m, Fail) then NextIsLighter(m, Fail, r, policy)
    else if Occurs(m, Pass) then NextPassIsLighter(m, r, policy)
    else WeightOf(r, policy) > 0.0
  }

  lemma NextPassByChoice(m: seq<RuleResult>, r: RuleResult, c: RuleResult, policy: Policy)
    requires IsChosen(m, Pass, c)
    ensures NextPassIsLighter(m, r, policy) <==> WeightOf(c, policy) < WeightOf(r, policy)
  {
    forall d | IsChosen(m, Pass, d) ensures WeightOf(c, policy) == WeightOf(d, policy) {
      ChoicesAgree(m, Pass, c, d, policy);
    }
  }

  lemma WeightsOfFailGone(k: GroupKey, m: seq<RuleResult>, r: RuleResult, policy: Policy)
    requires r.outcome == Fail
    ensures var u, u' := UnitFor(k, m + [r], policy), UnitFor(k, m + [Forgotten(r)], policy);
            (EvaluatedWeight(u') < EvaluatedWeight(u) && FailedWeight(u') < FailedWeight(u))
            <==> LeavesBothSides(m, r, policy)
  {
    if Occurs(m, Fail) {
      var c := ChosenExists(m, Fail);
      CarriesTogether(k, m, r, c, policy);
      OthersDecide(k, m, Forgotten(r), c, policy);
      NextByChoice(m, Fail, r, c, policy);
    } else if Occurs(m, Pass) {
      var c := ChosenExists(m, Pass);
      CarriesAlone(k, m, r, policy);
      OthersDecide(k, m, Forgotten(r), c, policy);
      NextPassByChoice(m, r, c, policy);
    } else {
      CarriesAlone(k, m, r, policy);
      NobodyDecides(k, m, Forgotten(r), policy);
    }
    EvaluatedIsPassedAndFailed(UnitFor(k, m + [r], policy));
    EvaluatedIsPassedAndFailed(UnitFor(k, m + [Forgotten(r)], policy));
  }

  lemma EvaluatedIsPassedAndFailed(u: Unit)
    ensures EvaluatedWeight(u) == PassedWeight(u) + FailedWeight(u)
  {
  }

  /**
   * Disabling a failing rule takes weight off the evaluated and the failed side
   * exactly when nobody of its group takes its place at the same or a greater weight.
   */
  lemma BothSidesDropExactlyWhen(results: seq<RuleResult>, i: nat, policy: Policy)
    requires i < |results| && results[i].outcome == Fail
    ensures var before, after := Units(results, policy), Units(Others(results, i), policy);
            BothSidesDrop(before, after) <==>
            LeavesBothSides(Members(Others(results, i), GroupOf(results[i])), results[i], policy)
  {
    var r := results[i];
    var k, m := GroupOf(r), Members(Others(results, i), GroupOf(r));
    var j := ReplacementExchangesUnits(results, i, Forgotten(r), policy);
    RemovedScoresAsForgotten(results, i, policy);
    ReplaceUnit(Units(results, policy), j, UnitFor(k, m + [Forgotten(r)], policy));
    WeightsOfFailGone(k, m, r, policy);
  }

  /** The population loses a unit exactly when the rule had its group to itself. */
  lemma PopulationShrinksExactlyWhen(results: seq<RuleResult>, i: nat, policy: Policy)
    requires i < |results|
    ensures |Units(Others(results, i), policy)| ==
            |Units(results, policy)|
            - if Members(Others(results, i), GroupOf(results[i])) == [] then 1 else 0
  {
    var r, rest := results[i], Others(results, i);
    MoveToEnd(results, i, r);
    assert results[i := r] == results;
    UnitsIgnoreResultOrder(results, rest + [r], policy);
    if Members(rest, GroupOf(r)) == [] {
      NewGroup(rest, r, policy);
      LoneUnit(r, policy);
      assert |multiset(Units(results, policy))| == |multiset(Units(rest, policy) + Units([r], policy))|;
    } else {
      var j := GroupGrows(rest, r, policy);
    }
  }

  // ---- disabling a rule of a session ------------------------------------------------------

  function Disabling(policy: Policy, ruleId: string): Policy {
    policy.(disabledRules := policy.disabledRules + {ruleId})
  }

  function Without(ctx: Rules.Context, ruleId: string): Rules.Context {
    ctx.(policy := Disabling(ctx.policy, ruleId))
  }

  lemma SameCipherVerdicts(ctx: Rules.Context, ruleId: string)
    ensures var without := Without(ctx, ruleId);
            && Rules.Cipher001(without) == Rules.Cipher001(ctx) && Rules.Cipher002(without) == Rules.Cipher002(ctx)
            && Rules.Cipher003(without) == Rules.Cipher003(ctx) && Rules.Cipher004(without) == Rules.Cipher004(ctx)
            && Rules.Cipher005(without) == Rules.Cipher005(ctx)
  {
  }

  lemma SameDateVerdicts(ctx: Rules.Context, ruleId: string)
    ensures forall early :: Rules.CertDates(Without(ctx, ruleId), early) == Rules.CertDates(ctx, early)
  {
  }

  lemma SameMailVerdicts(ctx: Rules.Context, ruleId: string)
    ensures var without := Without(ctx, ruleId);
            && Rules.Mail001(without) == Rules.Mail001(ctx) && Rules.Mail002(without) == Rules.Mail002(ctx)
            && Rules.Mail003(without) == Rules.Mail003(ctx) && Rules.Mail004(without) == Rules.Mail004(ctx)
  {
  }

  lemma SameVerdict(def: RuleDefinition, ctx: Rules.Context, evidence: Evidence, ruleId: string)
    ensures Verdict(def, Without(ctx, ruleId), evidence) == Verdict(def, ctx, evidence)
  {
    hide Rules.Cipher001, Rules.Cipher002, Rules.Cipher003, Rules.Cipher004, Rules.Cipher005,
         Rules.CertDates, Rules.Mail001, Rules.Mail002, Rules.Mail003, Rules.Mail004;
    SameCipherVerdicts(ctx, ruleId);
    SameDateVerdicts(ctx, ruleId);
    SameMailVerdicts(ctx, ruleId);
  }

  lemma SameResult(def: RuleDefinition, ctx: Rules.Context, evidence: Evidence, ruleId: string)
    ensures ResultOf(Without(ctx, ruleId), evidence)(def) == ResultOf(ctx, evidence)(def)
  {
    hide Verdict;
    SameVerdict(def, ctx, evidence, ruleId);
  }

  lemma {:induction false} SameSelection<T, U>(s: seq<T>, p: T -> bool, q: T -> bool, f: T -> U, g: T -> U)
    requires forall k :: 0 <= k < |s| ==> p(s[k]) == q(s[k]) && f(s[k]) == g(s[k])
    ensures Map(Filter(s, p), f) == Map(Filter(s, q), g)
  {
    if s != [] {
      SameSelection(s[1..], p, q, f, g);
      FilterHead(s, p, f);
      FilterHead(s, q, g);
    }
  }

  lemma FilterHead<T, U>(s: seq<T>, p: T -> bool, f: T -> U)
    requires s != []
    ensures Map(Filter(s, p), f) == (if p(s[0]) then [f(s[0])] else []) + Map(Filter(s[1..], p), f)
  {
    hide Map;
    var rest := Filter(s[1..], p);
    if p(s[0]) {
      MapAppend([s[0]], rest, f);
      MapOne(s[0], f);
    } else {
      assert [] + Map(rest, f) == Map(rest, f);
    }
  }

  lemma MapOne<T, U>(x: T, f: T -> U)
    ensures Map([x], f) == [f(x)]
  {
  }

  /** What an accepted element at position `i` contributes, and what is on either side. */
  lemma SelectionAround<T, U>(s: seq<T>, i: nat, p: T -> bool, f: T -> U)
    requires i < |s|
    ensures Map(Filter(s, p), f) ==
            Map(Filter(s[..i], p), f) + (if p(s[i]) then [f(s[i])] else []) + Map(Filter(s[i + 1..], p), f)
  {
    hide Filter, Map;
    var left, right := s[..i], s[i..];
    assert s == left + right && right[1..] == s[i + 1..] && right[0] == s[i];
    SelectionAppend(left, right, p, f);
    FilterHead(right, p, f);
    Regroup(Map(Filter(left, p), f), if p(s[i]) then [f(s[i])] else [], Map(Filter(s[i + 1..], p), f));
  }

  lemma SelectionAppend<T, U>(a: seq<T>, b: seq<T>, p: T -> bool, f: T -> U)
    ensures Map(Filter(a + b, p), f) == Map(Filter(a, p), f) + Map(Filter(b, p), f)
  {
    FilterAppend(a, b, p);
    MapAppend(Filter(a, p), Filter(b, p), f);
  }

  lemma Regroup<T>(a: seq<T>, b: seq<T>, c: seq<T>)
    ensures a + b + c == a + (b + c)
  {
  }

  lemma OneFewer<T>(s: seq<T>, x: T, t: seq<T>)
    ensures (s + [x] + t)[..|s|] + (s + [x] + t)[|s| + 1..] == s + t
  {
  }

  /** Disabling an enabled rule removes exactly its result from the session's. */
  lemma DisablingRemovesOneResult(ctx: Rules.Context, evidence: Evidence, i: nat) returns (at: nat)
    requires i < |CATALOG| && ctx.policy.Enabled(CATALOG[i].ruleId)
    ensures var all := RawResults(CATALOG, ctx, evidence);
            && at < |all| && all[at] == ResultOf(ctx, evidence)(CATALOG[i])
            && RawResults(CATALOG, Without(ctx, CATALOG[i].ruleId), evidence) == Others(all, at)
  {
    CatalogIds();
    at := RemovesOneResult(CATALOG, ctx, evidence, i);
  }

  lemma RemovesOneResult(rules: seq<RuleDefinition>, ctx: Rules.Context, evidence: Evidence, i: nat)
    returns (at: nat)
    requires i < |rules| && DistinctIds(rules) && ctx.policy.Enabled(rules[i].ruleId)
    ensures var all := RawResults(rules, ctx, evidence);
            && at < |all| && all[at] == ResultOf(ctx, evidence)(rules[i])
            && RawResults(rules, Without(ctx, rules[i].ruleId), evidence) == Others(all, at)
  {
    hide Verdict, ResultOf, Filter, Map;
    var id := rules[i].ruleId;
    var f, g := ResultOf(ctx, evidence), ResultOf(Without(ctx, id), evidence);
    forall def ensures f(def) == g(def) { SameResult(def, ctx, evidence, id); }
    at := RemovesOne(rules, i, EnabledBy(ctx.policy), EnabledBy(Disabling(ctx.policy, id)), f, g);
  }

  /** `q` accepts what `p` does but the element at position `i`. */
  lemma RemovesOne<T(!new), U>(s: seq<T>, i: nat, p: T -> bool, q: T -> bool, f: T -> U, g: T -> U)
    returns (at: nat)
    requires i < |s| && p(s[i]) && !q(s[i]) && forall k :: 0 <= k < |s| && k != i ==> p(s[k]) == q(s[k])
    requires forall x :: f(x) == g(x)
    ensures var all := Map(Filter(s, p), f);
            && at < |all| && all[at] == f(s[i]) && Map(Filter(s, q), g) == all[..at] + all[at + 1..]
  {
    hide Filter, Map;
    var left, right := Map(Filter(s[..i], p), f), Map(Filter(s[i + 1..], p), f);
    SelectionAround(s, i, p, f);
    SelectionAround(s, i, q, g);
    SameBeside(s, i, p, q, f, g);
    at := |left|;
    OneFewer(left, f(s[i]), right);
  }

  lemma SameBeside<T(!new), U>(s: seq<T>, i: nat, p: T -> bool, q: T -> bool, f: T -> U, g: T -> U)
    requires i < |s| && forall k :: 0 <= k < |s| && k != i ==> p(s[k]) == q(s[k])
    requires forall x :: f(x) == g(x)
    ensures Map(Filter(s[..i], q), g) == Map(Filter(s[..i], p), f)
    ensures Map(Filter(s[i + 1..], q), g) == Map(Filter(s[i + 1..], p), f)
  {
    hide Filter, Map;
    SameSelection(s[..i], p, q, f, g);
    SameSelection(s[i + 1..], p, q, f, g);
  }

  /** How a session's raw score answers when one of its rules is disabled, for every policy. */
  lemma DisablingMovesSessionExactlyWhen(ctx: Rules.Context, evidence: Evidence, i: nat)
    requires i < |CATALOG| && ctx.policy.Enabled(CATALOG[i].ruleId)
    ensures var without := Without(ctx, CATALOG[i].ruleId);
            var r := ResultOf(ctx, evidence)(CATALOG[i]);
            var m := Members(RawResults(CATALOG, without, evidence), GroupOf(r));
            var before, after := SessionUnits(ctx, evidence), SessionUnits(without, evidence);
            BothScored(before, after) ==>
              && (Raises(before, after) <==> DisablingHelps(before, m, r, ctx.policy))
              && (Raises(after, before) <==> DisablingHurts(before, m, r, ctx.policy))
  {
    hide Verdict, ResultOf, RawResults, SessionResults;
    var without := Without(ctx, CATALOG[i].ruleId);
    var at := DisablingRemovesOneResult(ctx, evidence, i);
    UnitsOfSession(ctx, evidence);
    UnitsOfSession(without, evidence);
    UnitsReadWeights(RawResults(CATALOG, without, evidence), without.policy, ctx.policy);
    DisablingRaisesExactlyWhen(RawResults(CATALOG, ctx, evidence), at, ctx.policy);
    DisablingLowersExactlyWhen(RawResults(CATALOG, ctx, evidence), at, ctx.policy);
  }
}
