/**
 * How the score answers to a change in one rule result: documented properties
 * 1, 2, 7 and 8 of the scoring module, at the level of rule results, where a
 * change can also swap which member represents its group.
 */
module Monotonicity {
  import opened Orders
  import opened Sorting
  import opened Sums
  import opened Assessment
  import opened Scoring
  import opened UnitTheorems
  import opened ScoreTheorems

  /** When only group `k` differs, only the unit of group `k` can differ. */
  lemma OnlyOneUnitChanges(a: seq<RuleResult>, b: seq<RuleResult>, k: GroupKey, policy: Policy)
    returns (j: nat)
    requires forall g :: g != k ==> Members(a, g) == Members(b, g)
    requires Members(a, k) != [] && Members(b, k) != []
    ensures j < |Units(a, policy)| && Units(a, policy)[j] == UnitAt(a, k, policy)
    ensures Units(b, policy) == Units(a, policy)[j := UnitAt(b, k, policy)]
  {
    hide Units, UnitAt, SortedGroups, Members;
    j := IndexOfUnit(a, policy, k);
    SameGroupsSameOrder(a, b);
    UnitsByIndex(b, policy, j);
    UnitsElsewhere(a, b, k, policy, j);
    OneUpdate(Units(a, policy), Units(b, policy), j);
  }

  lemma UnitsElsewhere(a: seq<RuleResult>, b: seq<RuleResult>, k: GroupKey, policy: Policy, j: nat)
    requires forall g :: g != k ==> Members(a, g) == Members(b, g)
    requires SortedGroups(a) == SortedGroups(b) && j < |SortedGroups(a)| && SortedGroups(a)[j] == k
    ensures forall i :: 0 <= i < |Units(a, policy)| && i != j ==> Units(b, policy)[i] == Units(a, policy)[i]
  {
    SortedGroupsAreGroups(a);
    forall i | 0 <= i < |Units(a, policy)| && i != j ensures Units(b, policy)[i] == Units(a, policy)[i] {
      SameMembersSameUnit(a, b, policy, i);
    }
  }

  lemma OneUpdate<T>(s: seq<T>, t: seq<T>, j: nat)
    requires |s| == |t| && j < |s| && forall i :: 0 <= i < |s| && i != j ==> t[i] == s[i]
    ensures t == s[j := t[j]]
  {
  }

  lemma SameMembersSameUnit(a: seq<RuleResult>, b: seq<RuleResult>, policy: Policy, i: nat)
    requires i < |SortedGroups(a)| && SortedGroups(a) == SortedGroups(b)
    requires Members(a, SortedGroups(a)[i]) == Members(b, SortedGroups(a)[i])
    ensures Units(a, policy)[i] == Units(b, policy)[i]
  {
    UnitsByIndex(a, policy, i);
    UnitsByIndex(b, policy, i);
  }

  function Flipped(r: RuleResult): RuleResult { r.(outcome := Fail) }

  function Others(results: seq<RuleResult>, i: nat): seq<RuleResult>
    requires i < |results|
  {
    results[..i] + results[i + 1..]
  }

  lemma MoveToEnd(results: seq<RuleResult>, i: nat, r: RuleResult)
    requires i < |results|
    ensures multiset(results[i := r]) == multiset(Others(results, i) + [r])
  {
    assert results[i := r] == results[..i] + [r] + results[i + 1..];
  }

  /** Replacing one result by another of the same group exchanges one unit. */
  lemma ReplacementExchangesUnits(results: seq<RuleResult>, i: nat, r': RuleResult, policy: Policy)
    returns (j: nat)
    requires i < |results| && GroupOf(r') == GroupOf(results[i])
    ensures var r := results[i];
            var m := Members(Others(results, i), GroupOf(r));
            var before := Units(results, policy);
            && j < |before|
            && before[j] == UnitFor(GroupOf(r), m + [r], policy)
            && Units(results[i := r'], policy) == before[j := UnitFor(GroupOf(r), m + [r'], policy)]
  {
    var r, rest := results[i], Others(results, i);
    MoveToEnd(results, i, r);
    MoveToEnd(results, i, r');
    assert results[i := r] == results;
    UnitsIgnoreResultOrder(results, rest + [r], policy);
    UnitsIgnoreResultOrder(results[i := r'], rest + [r'], policy);
    j := LastUnitChanges(rest, r, r', policy);
  }

  lemma LastUnitChanges(rest: seq<RuleResult>, r: RuleResult, r': RuleResult, policy: Policy)
    returns (j: nat)
    requires GroupOf(r') == GroupOf(r)
    ensures var m := Members(rest, GroupOf(r));
            var before := Units(rest + [r], policy);
            && j < |before|
            && before[j] == UnitFor(GroupOf(r), m + [r], policy)
            && Units(rest + [r'], policy) == before[j := UnitFor(GroupOf(r), m + [r'], policy)]
  {
    forall g
      ensures Members(rest + [r], g) == Members(rest, g) + if GroupOf(r) == g then [r] else []
      ensures Members(rest + [r'], g) == Members(rest, g) + if GroupOf(r) == g then [r'] else []
    {
      MembersAppend(rest, r, g);
      MembersAppend(rest, r', g);
    }
    j := OnlyOneUnitChanges(rest + [r], rest + [r'], GroupOf(r), policy);
  }

  function Effective(w: real): real { if w > 0.0 then w else 0.0 }

  function WeightOf(r: RuleResult, policy: Policy): real {
    Effective(policy.WeightFor(r.ruleId, r.severity))
  }

  /** The weight a decided group carries, on either side. */
  lemma DecidedUnit(k: GroupKey, m: seq<RuleResult>, c: RuleResult, policy: Policy)
    requires c.outcome == Fail || (c.outcome == Pass && !Occurs(m, Fail))
    requires IsChosen(m, c.outcome, c)
    ensures UnitFor(k, m, policy).outcome == c.outcome
    ensures FailedWeight(UnitFor(k, m, policy)) == if c.outcome == Fail then WeightOf(c, policy) else 0.0
    ensures PassedWeight(UnitFor(k, m, policy)) == if c.outcome == Pass then WeightOf(c, policy) else 0.0
  {
    assert Occurs(m, c.outcome);
    UnitOutcome(k, m, policy);
    UnitRepresentative(k, m, policy, c);
  }

  lemma JoiningFailureOutcome(k: GroupKey, m: seq<RuleResult>, r: RuleResult, policy: Policy)
    requires r.outcome != Fail
    ensures UnitFor(k, m + [Flipped(r)], policy).outcome == Fail
    ensures UnitFor(k, m + [r], policy).outcome == Fail <==> Occurs(m, Fail)
  {
    UnitOutcome(k, m + [r], policy);
    UnitOutcome(k, m + [Flipped(r)], policy);
    JoiningOccurs(m, r, Fail);
    JoiningOccurs(m, Flipped(r), Fail);
  }

  /** How a FAIL joining a failing group changes the group's weight. */
  lemma JoiningFailureWeight(
    k: GroupKey, m: seq<RuleResult>, r: RuleResult, c: RuleResult, policy: Policy)
    requires r.outcome != Fail && IsChosen(m, Fail, c)
    ensures FailedWeight(UnitFor(k, m + [r], policy)) == WeightOf(c, policy)
    ensures FailedWeight(UnitFor(k, m + [Flipped(r)], policy)) ==
            if Less(ChoiceKey(r), ChoiceKey(c)) then WeightOf(r, policy) else WeightOf(c, policy)
  {
    JoiningKeepsChoice(m, r, c);
    DecidedUnit(k, m + [r], c, policy);
    JoiningChoice(m, Flipped(r), c);
    assert ChoiceKey(Flipped(r)) == ChoiceKey(r);
    DecidedUnit(k, m + [Flipped(r)], if Less(ChoiceKey(r), ChoiceKey(c)) then Flipped(r) else c, policy);
  }

  /** The group already fails, and the flipped rule outranks its representative at a lower weight. */
  ghost predicate TakesOverCheaper(results: seq<RuleResult>, i: nat, policy: Policy)
    requires i < |results|
  {
    exists c :: IsChosen(Members(results, GroupOf(results[i])), Fail, c)
             && Less(ChoiceKey(results[i]), ChoiceKey(c))
             && WeightOf(results[i], policy) < WeightOf(c, policy)
  }

  lemma ChosenAmongOthers(results: seq<RuleResult>, i: nat, c: RuleResult)
    requires i < |results| && results[i].outcome != Fail
    ensures IsChosen(Members(results, GroupOf(results[i])), Fail, c) <==>
            IsChosen(Members(Others(results, i), GroupOf(results[i])), Fail, c)
  {
    var a, b := Members(results, GroupOf(results[i])), Members(Others(results, i), GroupOf(results[i]));
    forall x: RuleResult | x.outcome == Fail ensures x in a <==> x in b {
      if x in results && x != results[i] {
        var p :| 0 <= p < |results| && results[p] == x;
        assert x == if p < i then results[..i][p] else results[i + 1..][p - i - 1];
      }
    }
  }

  /** A cheaper take-over is what makes a failing group's weight drop. */
  lemma TakesOverMeansLighter(results: seq<RuleResult>, i: nat, policy: Policy)
    requires i < |results| && results[i].outcome != Fail
    ensures var r := results[i];
            var m := Members(Others(results, i), GroupOf(r));
            TakesOverCheaper(results, i, policy) <==>
            && Occurs(m, Fail)
            && FailedWeight(UnitFor(GroupOf(r), m + [Flipped(r)], policy))
               < FailedWeight(UnitFor(GroupOf(r), m + [r], policy))
  {
    var r := results[i];
    var m := Members(Others(results, i), GroupOf(r));
    forall c ensures IsChosen(Members(results, GroupOf(r)), Fail, c) <==> IsChosen(m, Fail, c) {
      ChosenAmongOthers(results, i, c);
    }
    forall c | IsChosen(m, Fail, c)
      ensures FailedWeight(UnitFor(GroupOf(r), m + [r], policy)) == WeightOf(c, policy)
      ensures FailedWeight(UnitFor(GroupOf(r), m + [Flipped(r)], policy)) ==
              if Less(ChoiceKey(r), ChoiceKey(c)) then WeightOf(r, policy) else WeightOf(c, policy)
    {
      JoiningFailureWeight(GroupOf(r), m, r, c, policy);
    }
    if Occurs(m, Fail) {
      var c := ChosenExists(m, Fail);
    }
  }

  /**
   * Turning PASS, UNKNOWN or NOT_APPLICABLE into FAIL, for every policy: the raw
   * score rises exactly when the flipped rule takes its failing group over at a
   * lower weight and something has passed.
   */
  lemma FlipRaisesExactlyWhen(results: seq<RuleResult>, i: nat, policy: Policy)
    requires i < |results| && results[i].outcome != Fail
    ensures var before, after := Units(results, policy), Units(results[i := Flipped(results[i])], policy);
            WEvaluated(before) > 0.0 && WEvaluated(after) > 0.0 ==>
              (Raw(after) > Raw(before) <==>
               TakesOverCheaper(results, i, policy) && WEvaluated(before) > WFailed(before))
  {
    var r := results[i];
    var m := Members(Others(results, i), GroupOf(r));
    var j := ReplacementExchangesUnits(results, i, Flipped(r), policy);
    var before, after := Units(results, policy), Units(results[i := Flipped(r)], policy);
    var u' := UnitFor(GroupOf(r), m + [Flipped(r)], policy);
    JoiningFailureOutcome(GroupOf(r), m, r, policy);
    TakesOverMeansLighter(results, i, policy);
    if WEvaluated(before) > 0.0 && WEvaluated(after) > 0.0 {
      if before[j].outcome == Fail {
        ReweightedFailure(before, j, u');
      } else {
        NewFailureNeverRaises(before, j, u');
      }
    }
  }

  /** Weights follow severity, and no rule is weighted on its own. */
  ghost predicate OrderedWeights(policy: Policy) {
    && policy.ruleWeightOverrides == map[]
    && forall id: string, s: Severity, t: Severity {:trigger policy.WeightFor(id, s), SeverityRank(t)} ::
         SeverityRank(s) <= SeverityRank(t) ==>
         Effective(policy.WeightFor(id, s)) >= Effective(policy.WeightFor(id, t))
  }

  lemma PublishedWeightsOrdered(policy: Policy)
    requires policy.ruleWeightOverrides == map[] && policy.severityWeights == SEVERITY_WEIGHTS
    ensures OrderedWeights(policy)
  {
  }

  lemma OrderedNeverTakesOverCheaper(results: seq<RuleResult>, i: nat, policy: Policy)
    requires i < |results| && OrderedWeights(policy)
    ensures !TakesOverCheaper(results, i, policy)
  {
    forall c | Less(ChoiceKey(results[i]), ChoiceKey(c))
      ensures WeightOf(results[i], policy) >= WeightOf(c, policy)
    {
      Trichotomy(ChoiceKey(results[i]), ChoiceKey(c));
      HeavierChoice(results[i], c, policy);
    }
  }

  /** Whenever both scores are available, raw score, reported score and band are no higher. */
  ghost predicate NoBetter(after: seq<Unit>, before: seq<Unit>, policy: Policy) {
    Sufficient(before, policy.minimumCoverage) && Sufficient(after, policy.minimumCoverage) ==>
      && Raw(after) <= Raw(before)
      && ComputeScore(after, policy).score.value <= ComputeScore(before, policy).score.value
      && BandRank(ComputeScore(after, policy).band) <= BandRank(ComputeScore(before, policy).band)
  }

  /**
   * Under ordered weights one more failing rule never raises the raw score, the
   * reported score or the band, even when it changes the representative.
   */
  lemma FlipNeverRaisesScore(results: seq<RuleResult>, i: nat, policy: Policy)
    requires i < |results| && results[i].outcome != Fail && OrderedWeights(policy)
    ensures NoBetter(Units(results[i := Flipped(results[i])], policy), Units(results, policy), policy)
  {
    var before, after := Units(results, policy), Units(results[i := Flipped(results[i])], policy);
    FlipRaisesExactlyWhen(results, i, policy);
    OrderedNeverTakesOverCheaper(results, i, policy);
    if Sufficient(before, policy.minimumCoverage) && Sufficient(after, policy.minimumCoverage) {
      ReportFollowsRaw(before, after, policy);
    }
  }

  // ---- missing evidence ---------------------------------------------------

  lemma JoiningUnknownOccurs(m: seq<RuleResult>, r: RuleResult)
    requires r.outcome == Unknown
    ensures Occurs(m + [r], Unknown)
    ensures forall o :: o != Unknown ==> (Occurs(m + [r], o) <==> Occurs(m, o))
  {
    forall o { JoiningOccurs(m, r, o); }
  }

  /** An UNKNOWN joining a group that has decided changes the member list and nothing else. */
  lemma JoiningUnknownDecided(k: GroupKey, m: seq<RuleResult>, r: RuleResult, policy: Policy)
    requires m != [] && r.outcome == Unknown && (Occurs(m, Fail) || Occurs(m, Pass))
    ensures var u, u' := UnitFor(k, m, policy), UnitFor(k, m + [r], policy);
            u' == u.(members := u'.members)
  {
    var o := UnitFor(k, m, policy).outcome;
    UnitOutcome(k, m, policy);
    UnitOutcome(k, m + [r], policy);
    JoiningUnknownOccurs(m, r);
    var c := ChosenExists(m, o);
    JoiningKeepsChoice(m, r, c);
    UnitRepresentative(k, m, policy, c);
    UnitRepresentative(k, m + [r], policy, c);
  }

  /** An UNKNOWN joining an undecided group leaves it undecided, under no lighter a weight. */
  lemma JoiningUnknownUndecided(k: GroupKey, m: seq<RuleResult>, r: RuleResult, policy: Policy)
    requires m != [] && r.outcome == Unknown && !Occurs(m, Fail) && !Occurs(m, Pass)
    ensures var u, u' := UnitFor(k, m, policy), UnitFor(k, m + [r], policy);
            && u'.outcome == Unknown && u.outcome != Fail && u.outcome != Pass
            && (OrderedWeights(policy) ==> UndeterminedWeight(u) <= UndeterminedWeight(u'))
  {
    JoiningUnknownOutcome(k, m, r, policy);
    if OrderedWeights(policy) {
      if Occurs(m, Unknown) {
        JoiningUnknownWeight(k, m, r, policy);
      } else {
        InapplicableUnit(k, m, policy);
      }
    }
  }

  lemma JoiningUnknownOutcome(k: GroupKey, m: seq<RuleResult>, r: RuleResult, policy: Policy)
    requires m != [] && r.outcome == Unknown && !Occurs(m, Fail) && !Occurs(m, Pass)
    ensures UnitFor(k, m + [r], policy).outcome == Unknown
    ensures UnitFor(k, m, policy).outcome != Fail && UnitFor(k, m, policy).outcome != Pass
  {
    UnitOutcome(k, m, policy);
    UnitOutcome(k, m + [r], policy);
    JoiningUnknownOccurs(m, r);
  }

  lemma InapplicableUnit(k: GroupKey, m: seq<RuleResult>, policy: Policy)
    requires m != [] && !Occurs(m, Fail) && !Occurs(m, Pass) && !Occurs(m, Unknown)
    ensures UndeterminedWeight(UnitFor(k, m, policy)) == 0.0
  {
    UnitOutcome(k, m, policy);
  }

  lemma UndecidedUnitWeight(k: GroupKey, m: seq<RuleResult>, c: RuleResult, policy: Policy)
    requires !Occurs(m, Fail) && !Occurs(m, Pass) && IsChosen(m, Unknown, c)
    ensures UndeterminedWeight(UnitFor(k, m, policy)) == WeightOf(c, policy)
  {
    assert Occurs(m, Unknown);
    UnitOutcome(k, m, policy);
    UnitRepresentative(k, m, policy, c);
  }

  lemma JoiningUnknownWeight(k: GroupKey, m: seq<RuleResult>, r: RuleResult, policy: Policy)
    requires r.outcome == Unknown && !Occurs(m, Fail) && !Occurs(m, Pass)
    requires Occurs(m, Unknown) && OrderedWeights(policy)
    ensures UndeterminedWeight(UnitFor(k, m, policy)) <= UndeterminedWeight(UnitFor(k, m + [r], policy))
  {
    JoiningUnknownOccurs(m, r);
    var c := ChosenExists(m, Unknown);
    var c' := ChosenExists(m + [r], Unknown);
    UndecidedUnitWeight(k, m, c, policy);
    UndecidedUnitWeight(k, m + [r], c', policy);
    assert c in m + [r];
    HeavierChoice(c', c, policy);
  }

  lemma HeavierChoice(a: RuleResult, b: RuleResult, policy: Policy)
    requires OrderedWeights(policy) && !Less(ChoiceKey(b), ChoiceKey(a))
    ensures WeightOf(a, policy) >= WeightOf(b, policy)
  {
    assert ChoiceKey(a)[0] == Num(SeverityRank(a.severity));
    assert ChoiceKey(b)[0] == Num(SeverityRank(b.severity));
    assert SeverityRank(a.severity) <= SeverityRank(b.severity);
    assert policy.WeightFor(a.ruleId, a.severity) == policy.WeightFor(b.ruleId, a.severity);
  }

  lemma CoverageFalls(a: seq<Unit>, b: seq<Unit>)
    requires WEvaluated(a) == WEvaluated(b) && WUnknown(a) <= WUnknown(b)
    ensures Coverage(b) <= Coverage(a)
  {
    WeightsNonNegative(a);
    WeightsNonNegative(b);
    var e := WEvaluated(a);
    if WApplicable(a) > 0.0 {
      CompareFractions(e, WApplicable(a), e, WApplicable(b));
      assert e * WApplicable(a) <= e * WApplicable(b);
    }
  }

  lemma SameTally(units: seq<Unit>, j: nat, u: Unit)
    requires j < |units| && u == units[j].(members := u.members)
    ensures TallyOf(units[j := u], 0) == TallyOf(units, 0)
  {
    CountUpdate(units, j, u, Evaluated);
    CountUpdate(units, j, u, Undetermined);
    CountUpdate(units, j, u, Passed);
    CountUpdate(units, j, u, Failed);
    CountUpdate(units, j, u, Inapplicable);
  }

  lemma SameButMembers(units: seq<Unit>, j: nat, u: Unit, policy: Policy)
    requires j < |units| && u == units[j].(members := u.members)
    ensures ComputeScore(units[j := u], policy) == ComputeScore(units, policy)
  {
    ReplaceUnit(units, j, u);
    SameTally(units, j, u);
  }

  lemma GroupGrows(results: seq<RuleResult>, r: RuleResult, policy: Policy) returns (j: nat)
    requires Members(results, GroupOf(r)) != []
    ensures var m := Members(results, GroupOf(r));
            var before := Units(results, policy);
            && j < |before| && before[j] == UnitFor(GroupOf(r), m, policy)
            && Units(results + [r], policy)
               == before[j := UnitFor(GroupOf(r), m + [r], policy)]
  {
    forall g ensures Members(results + [r], g) ==
                     Members(results, g) + if GroupOf(r) == g then [r] else []
    {
      MembersAppend(results, r, g);
    }
    j := OnlyOneUnitChanges(results, results + [r], GroupOf(r), policy);
  }

  lemma LoneUnit(r: RuleResult, policy: Policy)
    ensures |Units([r], policy)| == 1 && Units([r], policy)[0].outcome == r.outcome
  {
    MembersAppend([], r, GroupOf(r));
    assert [] + [r] == [r];
    GroupsAppend([], r);
    assert Groups([r]) == [GroupOf(r)];
    SameElements(SortedGroups([r]), Groups([r]));
    UnitsByIndex([r], policy, 0);
    assert SortedGroups([r])[0] in SortedGroups([r]);
    UnitOutcome(GroupOf(r), [r], policy);
  }

  lemma NewGroup(results: seq<RuleResult>, r: RuleResult, policy: Policy)
    requires Members(results, GroupOf(r)) == []
    ensures multiset(Units(results + [r], policy)) ==
            multiset(Units(results, policy) + Units([r], policy))
  {
    forall g ensures Members(results, g) == [] || Members([r], g) == [] {
      MembersAppend([], r, g);
      assert [] + [r] == [r];
    }
    UnitsOfDisjointGroups(results, [r], policy);
  }

  /** Neither side of the score fraction moved. */
  ghost predicate SameScoreFraction(before: seq<Unit>, after: seq<Unit>) {
    && WEvaluated(after) == WEvaluated(before)
    && WFailed(after) == WFailed(before)
    && (WEvaluated(before) > 0.0 ==> Raw(after) == Raw(before))
  }

  lemma LoneUnknownIsNeutral(before: seq<Unit>, lone: Unit, after: seq<Unit>)
    requires lone.outcome == Unknown && multiset(after) == multiset(before + [lone])
    ensures SameScoreFraction(before, after) && Coverage(after) <= Coverage(before)
  {
    AddingUnknownIsNeutral(before, [], lone);
    assert before + [lone] + [] == before + [lone] && before + [] == before;
    SumPermute(after, before + [lone], EvaluatedWeight);
    SumPermute(after, before + [lone], FailedWeight);
    SumPermute(after, before + [lone], UndeterminedWeight);
  }

  lemma UnknownFoundsGroup(results: seq<RuleResult>, r: RuleResult, policy: Policy)
    requires r.outcome == Unknown && Members(results, GroupOf(r)) == []
    ensures SameScoreFraction(Units(results, policy), Units(results + [r], policy))
    ensures Coverage(Units(results + [r], policy)) <= Coverage(Units(results, policy))
  {
    NewGroup(results, r, policy);
    LoneUnit(r, policy);
    var lone := Units([r], policy);
    assert lone == [lone[0]];
    LoneUnknownIsNeutral(Units(results, policy), lone[0], Units(results + [r], policy));
  }

  lemma UndecidedUpdate(units: seq<Unit>, j: nat, u: Unit)
    requires j < |units|
    requires units[j].outcome != Fail && units[j].outcome != Pass && u.outcome == Unknown
    ensures SameScoreFraction(units, units[j := u])
    ensures UndeterminedWeight(units[j]) <= UndeterminedWeight(u) ==>
              Coverage(units[j := u]) <= Coverage(units)
  {
    ReplaceUnit(units, j, u);
    if UndeterminedWeight(units[j]) <= UndeterminedWeight(u) {
      CoverageFalls(units, units[j := u]);
    }
  }

  lemma DecidedUpdate(units: seq<Unit>, j: nat, u: Unit, policy: Policy)
    requires j < |units| && u == units[j].(members := u.members)
    ensures SameScoreFraction(units, units[j := u])
    ensures Coverage(units[j := u]) == Coverage(units)
    ensures ComputeScore(units[j := u], policy) == ComputeScore(units, policy)
  {
    ReplaceUnit(units, j, u);
    SameButMembers(units, j, u, policy);
  }

  lemma UnknownJoinsDecided(results: seq<RuleResult>, r: RuleResult, policy: Policy)
    requires r.outcome == Unknown
    requires Occurs(Members(results, GroupOf(r)), Fail) || Occurs(Members(results, GroupOf(r)), Pass)
    ensures SameScoreFraction(Units(results, policy), Units(results + [r], policy))
    ensures Coverage(Units(results + [r], policy)) == Coverage(Units(results, policy))
    ensures ComputeScore(Units(results + [r], policy), policy)
            == ComputeScore(Units(results, policy), policy)
  {
    var m := Members(results, GroupOf(r));
    var j := GroupGrows(results, r, policy);
    JoiningUnknownDecided(GroupOf(r), m, r, policy);
    DecidedUpdate(Units(results, policy), j, UnitFor(GroupOf(r), m + [r], policy), policy);
  }

  lemma UnknownJoinsUndecided(results: seq<RuleResult>, r: RuleResult, policy: Policy)
    requires r.outcome == Unknown && Members(results, GroupOf(r)) != []
    requires !Occurs(Members(results, GroupOf(r)), Fail)
    requires !Occurs(Members(results, GroupOf(r)), Pass)
    ensures SameScoreFraction(Units(results, policy), Units(results + [r], policy))
    ensures OrderedWeights(policy) ==>
              Coverage(Units(results + [r], policy)) <= Coverage(Units(results, policy))
  {
    var m := Members(results, GroupOf(r));
    var j := GroupGrows(results, r, policy);
    JoiningUnknownUndecided(GroupOf(r), m, r, policy);
    UndecidedUpdate(Units(results, policy), j, UnitFor(GroupOf(r), m + [r], policy));
  }

  /**
   * One more UNKNOWN result: the evaluated weight, the failed weight and the raw
   * score do not move; a decided group absorbs it without any numeric trace; and
   * under ordered weights coverage never rises.
   */
  lemma AddingUnknownResult(results: seq<RuleResult>, r: RuleResult, policy: Policy)
    requires r.outcome == Unknown
    ensures SameScoreFraction(Units(results, policy), Units(results + [r], policy))
    ensures OrderedWeights(policy) ==>
              Coverage(Units(results + [r], policy)) <= Coverage(Units(results, policy))
    ensures Occurs(Members(results, GroupOf(r)), Fail) || Occurs(Members(results, GroupOf(r)), Pass)
            ==> ComputeScore(Units(results + [r], policy), policy)
                == ComputeScore(Units(results, policy), policy)
  {
    var m := Members(results, GroupOf(r));
    if m == [] {
      UnknownFoundsGroup(results, r, policy);
    } else if Occurs(m, Fail) || Occurs(m, Pass) {
      UnknownJoinsDecided(results, r, policy);
    } else {
      UnknownJoinsUndecided(results, r, policy);
    }
  }

  /** The undecided group's UNKNOWN representative is outranked by one that weighs less. */
  ghost predicate OutrankedCheaper(m: seq<RuleResult>, r: RuleResult, policy: Policy) {
    && !Occurs(m, Fail) && !Occurs(m, Pass)
    && exists c :: IsChosen(m, Unknown, c) && Less(ChoiceKey(r), ChoiceKey(c))
                   && WeightOf(r, policy) < WeightOf(c, policy)
  }

  /** How an UNKNOWN joining an UNKNOWN group changes the group's weight. */
  lemma JoiningUnknownReweights(
    k: GroupKey, m: seq<RuleResult>, r: RuleResult, c: RuleResult, policy: Policy)
    requires r.outcome == Unknown && !Occurs(m, Fail) && !Occurs(m, Pass) && IsChosen(m, Unknown, c)
    ensures UndeterminedWeight(UnitFor(k, m, policy)) == WeightOf(c, policy)
    ensures UndeterminedWeight(UnitFor(k, m + [r], policy)) ==
            if Less(ChoiceKey(r), ChoiceKey(c)) then WeightOf(r, policy) else WeightOf(c, policy)
  {
    JoiningUnknownOccurs(m, r);
    JoiningChoice(m, r, c);
    UndecidedUnitWeight(k, m, c, policy);
    UndecidedUnitWeight(k, m + [r], if Less(ChoiceKey(r), ChoiceKey(c)) then r else c, policy);
  }

  lemma OutrankedMeansLighter(k: GroupKey, m: seq<RuleResult>, r: RuleResult, policy: Policy)
    requires m != [] && r.outcome == Unknown && !Occurs(m, Fail) && !Occurs(m, Pass)
    ensures OutrankedCheaper(m, r, policy) <==>
            UndeterminedWeight(UnitFor(k, m + [r], policy)) < UndeterminedWeight(UnitFor(k, m, policy))
  {
    forall c | IsChosen(m, Unknown, c) {
      JoiningUnknownReweights(k, m, r, c, policy);
    }
    if Occurs(m, Unknown) {
      var c := ChosenExists(m, Unknown);
    } else {
      UnitOutcome(k, m, policy);
      assert UndeterminedWeight(UnitFor(k, m + [r], policy)) >= 0.0;
    }
  }

  lemma CoverageComparison(units: seq<Unit>, j: nat, u: Unit)
    requires j < |units|
    requires units[j].outcome != Fail && units[j].outcome != Pass && u.outcome == Unknown
    ensures Coverage(units[j := u]) > Coverage(units) <==>
            WEvaluated(units) > 0.0 && UndeterminedWeight(u) < UndeterminedWeight(units[j])
  {
    ReplaceUnit(units, j, u);
    WeightsNonNegative(units);
    WeightsNonNegative(units[j := u]);
    var e := WEvaluated(units);
    if e > 0.0 {
      SameNumeratorOrder(e, WApplicable(units), WApplicable(units[j := u]));
    }
  }

  lemma SameNumeratorOrder(e: real, a: real, b: real)
    requires e > 0.0 && a > 0.0 && b > 0.0
    ensures e / b > e / a <==> b < a
  {
    assert e / b * b == e && e / a * a == e;
    if b < a {
      assert e / a * b < e / a * a;
    } else {
      assert e / b * a <= e / b * b ==> e / b <= e / a;
      assert e / a * b >= e / a * a;
    }
  }

  /**
   * One more UNKNOWN result, for every policy: coverage rises exactly when the result
   * takes an undecided group over at a lower weight and something was evaluated.
   */
  lemma UnknownRaisesCoverageExactlyWhen(results: seq<RuleResult>, r: RuleResult, policy: Policy)
    requires r.outcome == Unknown
    ensures Coverage(Units(results + [r], policy)) > Coverage(Units(results, policy)) <==>
            WEvaluated(Units(results, policy)) > 0.0
            && OutrankedCheaper(Members(results, GroupOf(r)), r, policy)
  {
    var m := Members(results, GroupOf(r));
    if m == [] {
      UnknownFoundsGroup(results, r, policy);
    } else if Occurs(m, Fail) || Occurs(m, Pass) {
      UnknownJoinsDecided(results, r, policy);
    } else {
      var j := GroupGrows(results, r, policy);
      JoiningUnknownUndecided(GroupOf(r), m, r, policy);
      OutrankedMeansLighter(GroupOf(r), m, r, policy);
      CoverageComparison(Units(results, policy), j, UnitFor(GroupOf(r), m + [r], policy));
    }
  }
}
