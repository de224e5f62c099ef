/** What a scoring unit says about its group, and what it does not depend on. */
module UnitTheorems {
  import opened Orders
  import opened Sorting
  import opened Sums
  import opened Assessment
  import opened Scoring

  /** The most severe member with outcome `o`, ties going to the smaller rule id. */
  ghost predicate IsChosen(members: seq<RuleResult>, o: Outcome, r: RuleResult) {
    && r in members && r.outcome == o
    && forall m :: m in members && m.outcome == o ==> !Less(ChoiceKey(m), ChoiceKey(r))
  }

  ghost predicate Occurs(members: seq<RuleResult>, o: Outcome) {
    exists m :: m in members && m.outcome == o
  }

  /** The group's outcome occurs, and no more decisive one does. */
  lemma BestOutcome(members: seq<RuleResult>)
    requires members != []
    ensures Occurs(members, GroupOutcome(members))
    ensures forall o :: Occurs(members, o) ==> OutcomePriority(GroupOutcome(members)) <= OutcomePriority(o)
  {
    var best := MinBy(members, PriorityKey);
    MinByIsLeast(members, PriorityKey);
    assert best in members;
    forall o | Occurs(members, o) ensures OutcomePriority(best.outcome) <= OutcomePriority(o) {
      var m :| m in members && m.outcome == o;
      assert !Less(PriorityKey(m), PriorityKey(best));
    }
  }

  /** The order the scorer applies: FAIL if any member failed, else PASS, else UNKNOWN. */
  lemma UnitOutcome(k: GroupKey, members: seq<RuleResult>, policy: Policy)
    requires members != []
    ensures var o := UnitFor(k, members, policy).outcome;
            && (o == Fail <==> Occurs(members, Fail))
            && (o == Pass <==> Occurs(members, Pass) && !Occurs(members, Fail))
            && (o == Unknown <==>
                Occurs(members, Unknown) && !Occurs(members, Pass) && !Occurs(members, Fail))
            && Occurs(members, o)
  {
    BestOutcome(members);
  }

  lemma ChoiceKeyDecides(a: RuleResult, b: RuleResult)
    requires ChoiceKey(a) == ChoiceKey(b)
    ensures a.ruleId == b.ruleId && a.severity == b.severity
  {
    assert ChoiceKey(a)[0] == Num(SeverityRank(a.severity)) && ChoiceKey(a)[1] == Text(a.ruleId);
    assert ChoiceKey(b)[0] == Num(SeverityRank(b.severity)) && ChoiceKey(b)[1] == Text(b.ruleId);
  }

  /** The documented representative: the most severe member with the unit's outcome. */
  lemma UnitRepresentative(k: GroupKey, members: seq<RuleResult>, policy: Policy, r: RuleResult)
    requires members != []
    requires UnitFor(k, members, policy).outcome != NotApplicable
    requires IsChosen(members, UnitFor(k, members, policy).outcome, r)
    ensures var u := UnitFor(k, members, policy);
            && u.representative == r.ruleId && u.severity == r.severity
            && u.weight == policy.WeightFor(r.ruleId, r.severity)
  {
    var d := Deciding(members);
    assert r in d;
    forall i | 0 <= i < |d| ensures !Less(ChoiceKey(d[i]), ChoiceKey(r)) {
      assert d[i] in d;
    }
    MinByKey(d, ChoiceKey, r);
    ChoiceKeyDecides(MinBy(d, ChoiceKey), r);
  }

  /**
   * A unit lists its members' rule ids once each, in ascending order; one that does not
   * apply weighs nothing and goes under the first of them.
   */
  lemma UnitListsItsMembers(k: GroupKey, members: seq<RuleResult>, policy: Policy)
    requires members != []
    ensures var u := UnitFor(k, members, policy);
            && u.group == k
            && multiset(u.members) == multiset(Map(members, RuleIdOf)) && SortedBy(u.members, TextKey)
            && (u.outcome == NotApplicable ==>
                u.weight == 0.0 && u.severity == Info && u.representative == u.members[0])
  {
    SortBySorted(Map(members, RuleIdOf), TextKey);
  }

  lemma ChosenExists(members: seq<RuleResult>, o: Outcome) returns (r: RuleResult)
    requires Occurs(members, o)
    ensures IsChosen(members, o, r)
  {
    var d := Filter(members, HasOutcome(o));
    var m :| m in members && m.outcome == o;
    assert m in d;
    r := MinBy(d, ChoiceKey);
    MinByIsLeast(d, ChoiceKey);
    forall m | m in members && m.outcome == o ensures !Less(ChoiceKey(m), ChoiceKey(r)) {
      assert m in d;
    }
  }

  // ---- one more member ------------------------------------------------------

  lemma JoiningOccurs(m: seq<RuleResult>, r: RuleResult, o: Outcome)
    ensures Occurs(m + [r], o) <==> Occurs(m, o) || r.outcome == o
  {
    assert r in m + [r];
    if Occurs(m, o) {
      var x :| x in m && x.outcome == o;
      assert x in m + [r];
    }
  }

  /** A member with another outcome leaves the choice alone. */
  lemma JoiningKeepsChoice(m: seq<RuleResult>, r: RuleResult, c: RuleResult)
    requires IsChosen(m, c.outcome, c) && r.outcome != c.outcome
    ensures IsChosen(m + [r], c.outcome, c)
  {
  }

  lemma JoiningAlone(m: seq<RuleResult>, r: RuleResult)
    requires !Occurs(m, r.outcome)
    ensures IsChosen(m + [r], r.outcome, r)
  {
    Trichotomy(ChoiceKey(r), ChoiceKey(r));
    assert r in m + [r];
  }

  /** A member with the same outcome is chosen instead exactly when it outranks the choice. */
  lemma JoiningChoice(m: seq<RuleResult>, r: RuleResult, c: RuleResult)
    requires IsChosen(m, c.outcome, c) && r.outcome == c.outcome
    ensures IsChosen(m + [r], c.outcome, if Less(ChoiceKey(r), ChoiceKey(c)) then r else c)
  {
    Trichotomy(ChoiceKey(r), ChoiceKey(r));
    assert r in m + [r];
    if Less(ChoiceKey(r), ChoiceKey(c)) {
      forall x | x in m && x.outcome == c.outcome ensures !Less(ChoiceKey(x), ChoiceKey(r)) {
        if Less(ChoiceKey(x), ChoiceKey(r)) { Transitive(ChoiceKey(x), ChoiceKey(r), ChoiceKey(c)); }
      }
    }
  }

  /** Of a policy, the units read the weights and nothing else. */
  lemma UnitsReadWeights(results: seq<RuleResult>, p: Policy, q: Policy)
    requires p.severityWeights == q.severityWeights && p.ruleWeightOverrides == q.ruleWeightOverrides
    ensures Units(results, p) == Units(results, q)
  {
    forall i | 0 <= i < |SortedGroups(results)| ensures Units(results, p)[i] == Units(results, q)[i] {
      UnitsByIndex(results, p, i);
      UnitsByIndex(results, q, i);
      UnitReadsWeights(SortedGroups(results)[i], Members(results, SortedGroups(results)[i]), p, q);
    }
  }

  lemma UnitReadsWeights(k: GroupKey, m: seq<RuleResult>, p: Policy, q: Policy)
    requires m != [] && p.severityWeights == q.severityWeights && p.ruleWeightOverrides == q.ruleWeightOverrides
    ensures UnitFor(k, m, p) == UnitFor(k, m, q)
  {
  }

  // ---- the order documented elsewhere -----------------------------------------

  /** The order docs/scoring-methodology.md gives: UNKNOWN is more serious than PASS. */
  ghost function MethodologyOutcome(members: seq<RuleResult>): Outcome {
    if Occurs(members, Fail) then Fail
    else if Occurs(members, Unknown) then Unknown
    else if Occurs(members, Pass) then Pass
    else NotApplicable
  }

  /** The two orders disagree exactly for a group with a PASS, an UNKNOWN and no FAIL. */
  lemma MethodologyDisagrees(k: GroupKey, members: seq<RuleResult>, policy: Policy)
    requires members != []
    ensures UnitFor(k, members, policy).outcome != MethodologyOutcome(members) <==>
            Occurs(members, Pass) && Occurs(members, Unknown) && !Occurs(members, Fail)
  {
    UnitOutcome(k, members, policy);
  }

  // ---- order independence -----------------------------------------------------

  /** A unit does not depend on the order its members arrived in. */
  lemma UnitIgnoresMemberOrder(
    k: GroupKey, a: seq<RuleResult>, b: seq<RuleResult>, policy: Policy)
    requires a != [] && multiset(a) == multiset(b)
    ensures b != [] && UnitFor(k, a, policy) == UnitFor(k, b, policy)
  {
    SameElements(a, b);
    MinByKeySameElements(a, b, PriorityKey);
    assert PriorityKey(MinBy(a, PriorityKey))[0] == PriorityKey(MinBy(b, PriorityKey))[0];
    assert GroupOutcome(a) == GroupOutcome(b);
    var da, db := Deciding(a), Deciding(b);
    assert forall x :: x in da <==> x in db;
    MinByKeySameElements(da, db, ChoiceKey);
    ChoiceKeyDecides(MinBy(da, ChoiceKey), MinBy(db, ChoiceKey));
    SortedIdsIgnoreOrder(a, b);
  }

  lemma SortedIdsIgnoreOrder(a: seq<RuleResult>, b: seq<RuleResult>)
    requires multiset(a) == multiset(b)
    ensures SortedRuleIds(a) == SortedRuleIds(b)
  {
    MapPermute(a, b, RuleIdOf);
    SortBySorted(Map(a, RuleIdOf), TextKey);
    SortBySorted(Map(b, RuleIdOf), TextKey);
    forall x, y | TextKey(x) == TextKey(y) ensures x == y {
      assert TextKey(x)[0] == Text(x) && TextKey(y)[0] == Text(y);
    }
    SortUnique(SortedRuleIds(a), SortedRuleIds(b), TextKey);
  }

  lemma SameGroupsSameOrder(a: seq<RuleResult>, b: seq<RuleResult>)
    requires forall k :: Members(a, k) != [] <==> Members(b, k) != []
    ensures SortedGroups(a) == SortedGroups(b)
  {
    GroupsMeaning(a);
    GroupsMeaning(b);
    SortedGroupsAreGroups(a);
    SortedGroupsAreGroups(b);
    var x, y := SortedGroups(a), SortedGroups(b);
    assert forall k :: k in x <==> k in y;
    SameMembersSameMultiset(x, y);
    StrictSortUnique(x, y, GroupOrder);
  }

  /** All numeric outputs are invariant under permuting the rule results. */
  lemma UnitsIgnoreResultOrder(a: seq<RuleResult>, b: seq<RuleResult>, policy: Policy)
    requires multiset(a) == multiset(b)
    ensures Units(a, policy) == Units(b, policy)
  {
    forall k
      ensures multiset(Members(a, k)) == multiset(Members(b, k))
      ensures Members(a, k) != [] <==> Members(b, k) != []
    {
      FilterPermute(a, b, InGroup(k));
      SameElements(Members(a, k), Members(b, k));
    }
    SameGroupsSameOrder(a, b);
    SortedGroupsAreGroups(a);
    var ks := SortedGroups(a);
    forall i | 0 <= i < |ks| ensures Units(a, policy)[i] == Units(b, policy)[i] {
      assert ks[i] in ks;
      UnitIgnoresMemberOrder(ks[i], Members(a, ks[i]), Members(b, ks[i]), policy);
    }
  }

  lemma UnitsByIndex(results: seq<RuleResult>, policy: Policy, i: nat)
    requires i < |SortedGroups(results)|
    ensures var k := SortedGroups(results)[i];
            && Members(results, k) != []
            && Units(results, policy)[i] == UnitAt(results, k, policy)
            && Units(results, policy)[i].group == k
  {
    assert SortedGroups(results)[i] in SortedGroups(results);
    SortedGroupsAreGroups(results);
  }

  ghost predicate IsUnitOf(results: seq<RuleResult>, policy: Policy, u: Unit) {
    Members(results, u.group) != [] && u == UnitAt(results, u.group, policy)
  }

  lemma IndexOfUnit(results: seq<RuleResult>, policy: Policy, k: GroupKey) returns (i: nat)
    requires Members(results, k) != []
    ensures i < |Units(results, policy)| && SortedGroups(results)[i] == k
    ensures Units(results, policy)[i] == UnitAt(results, k, policy)
  {
    SortedGroupsAreGroups(results);
    assert k in SortedGroups(results);
    i :| 0 <= i < |SortedGroups(results)| && SortedGroups(results)[i] == k;
    UnitsByIndex(results, policy, i);
  }

  lemma UnitsMembership(results: seq<RuleResult>, policy: Policy, u: Unit)
    ensures u in Units(results, policy) <==> IsUnitOf(results, policy, u)
  {
    hide Units, Members, UnitFor;
    var units := Units(results, policy);
    if u in units {
      var i :| 0 <= i < |units| && units[i] == u;
      UnitsByIndex(results, policy, i);
    }
    if IsUnitOf(results, policy, u) {
      var i := IndexOfUnit(results, policy, u.group);
      assert units[i] in units;
    }
  }

  lemma UnitsDistinct(results: seq<RuleResult>, policy: Policy)
    ensures NoDuplicates(Units(results, policy))
  {
    SortedGroupsAreGroups(results);
    forall i, j | 0 <= i < j < |Units(results, policy)|
      ensures Units(results, policy)[i] != Units(results, policy)[j]
    {
      UnitsByIndex(results, policy, i);
      UnitsByIndex(results, policy, j);
    }
  }

  ghost predicate DisjointGroups(a: seq<RuleResult>, b: seq<RuleResult>) {
    forall k :: Members(a, k) == [] || Members(b, k) == []
  }

  lemma UnitOfDisjointGroups(
    a: seq<RuleResult>, b: seq<RuleResult>, policy: Policy, u: Unit)
    requires DisjointGroups(a, b)
    ensures IsUnitOf(a + b, policy, u) <==> IsUnitOf(a, policy, u) || IsUnitOf(b, policy, u)
    ensures !(IsUnitOf(a, policy, u) && IsUnitOf(b, policy, u))
  {
    FilterAppend(a, b, InGroup(u.group));
    assert Members(a + b, u.group) == Members(a, u.group) + Members(b, u.group);
    if Members(a, u.group) == [] {
      assert Members(a + b, u.group) == Members(b, u.group);
    } else {
      assert Members(a + b, u.group) == Members(a, u.group);
    }
  }

  lemma NoDuplicatesAppend<T>(a: seq<T>, b: seq<T>)
    requires NoDuplicates(a) && NoDuplicates(b)
    requires forall x :: x in a ==> x !in b
    ensures NoDuplicates(a + b)
  {
    forall i, j | 0 <= i < j < |a + b| ensures (a + b)[i] != (a + b)[j] {
      if i < |a| <= j {
        assert (a + b)[i] in a && (a + b)[j] in b;
      }
    }
  }

  /** Groups that do not meet are scored independently of each other. */
  lemma UnitsOfDisjointGroups(a: seq<RuleResult>, b: seq<RuleResult>, policy: Policy)
    requires DisjointGroups(a, b)
    ensures multiset(Units(a + b, policy)) == multiset(Units(a, policy) + Units(b, policy))
  {
    var left, right, both := Units(a, policy), Units(b, policy), Units(a + b, policy);
    forall u
      ensures u in left ==> u !in right
      ensures u in left + right <==> u in both
    {
      UnitsMembership(a, policy, u);
      UnitsMembership(b, policy, u);
      UnitsMembership(a + b, policy, u);
      UnitOfDisjointGroups(a, b, policy, u);
    }
    UnitsDistinct(a, policy);
    UnitsDistinct(b, policy);
    UnitsDistinct(a + b, policy);
    NoDuplicatesAppend(left, right);
    SameMembersSameMultiset(both, left + right);
  }

  /** A score sees its units as a collection. */
  lemma TallyIgnoresUnitOrder(a: seq<Unit>, b: seq<Unit>)
    requires multiset(a) == multiset(b)
    ensures TallyOf(a, 0) == TallyOf(b, 0)
  {
    CountPermute(a, b, Evaluated);
    CountPermute(a, b, Undetermined);
    CountPermute(a, b, Passed);
    CountPermute(a, b, Failed);
    CountPermute(a, b, Inapplicable);
  }

  lemma ScoreIgnoresUnitOrder(a: seq<Unit>, b: seq<Unit>, policy: Policy)
    requires multiset(a) == multiset(b)
    ensures ComputeScore(a, policy) == ComputeScore(b, policy)
  {
    SumPermute(a, b, EvaluatedWeight);
    SumPermute(a, b, UndeterminedWeight);
    SumPermute(a, b, FailedWeight);
    TallyIgnoresUnitOrder(a, b);
  }

  /** The results of a capture, one part per session, no session twice. */
  ghost predicate PerSession(parts: seq<seq<RuleResult>>, ids: seq<string>) {
    && |parts| == |ids| && NoDuplicates(ids)
    && forall i :: 0 <= i < |parts| ==> OneSession(parts[i], ids[i])
  }

  function UnitsUnder(policy: Policy): seq<RuleResult> -> seq<Unit> {
    (results: seq<RuleResult>) => Units(results, policy)
  }

  /** The units of each part, concatenated in part order. */
  function UnitsOfParts(parts: seq<seq<RuleResult>>, policy: Policy): seq<Unit> {
    Flatten(Map(parts, UnitsUnder(policy)))
  }

  lemma {:induction false} FlattenSessions(parts: seq<seq<RuleResult>>, ids: seq<string>, x: RuleResult)
    requires PerSession(parts, ids) && x in Flatten(parts)
    ensures x.sessionId in ids
  {
    if x in parts[0] {
    } else {
      FlattenSessions(parts[1..], ids[1..], x);
    }
  }

  lemma SessionsDoNotShareGroups(parts: seq<seq<RuleResult>>, ids: seq<string>, k: GroupKey)
    requires PerSession(parts, ids) && parts != []
    ensures Members(parts[0], k) == [] || Members(Flatten(parts[1..]), k) == []
  {
    var here, later := Members(parts[0], k), Members(Flatten(parts[1..]), k);
    if here != [] && later != [] {
      assert here[0] in here && later[0] in later;
      FlattenSessions(parts[1..], ids[1..], later[0]);
    }
  }

  /**
   * Scoring concatenated per-session units, as the engine does, scores exactly
   * the same collection as grouping the whole capture at once.
   */
  lemma {:induction false} PerSessionUnitsAreCaptureUnits(
    parts: seq<seq<RuleResult>>, ids: seq<string>, policy: Policy)
    requires PerSession(parts, ids)
    ensures multiset(UnitsOfParts(parts, policy)) == multiset(Units(Flatten(parts), policy))
  {
    if parts == [] {
      SortedGroupsAreGroups([]);
    } else {
      var rest := Flatten(parts[1..]);
      PerSessionUnitsAreCaptureUnits(parts[1..], ids[1..], policy);
      assert Map(parts, UnitsUnder(policy))[1..] == Map(parts[1..], UnitsUnder(policy));
      forall k ensures Members(parts[0], k) == [] || Members(rest, k) == [] {
        SessionsDoNotShareGroups(parts, ids, k);
      }
      UnitsOfDisjointGroups(parts[0], rest, policy);
    }
  }

  lemma CaptureScoreIsOneGrouping(
    parts: seq<seq<RuleResult>>, ids: seq<string>, policy: Policy)
    requires PerSession(parts, ids)
    ensures ComputeScore(UnitsOfParts(parts, policy), policy) ==
            ComputeScore(Units(Flatten(parts), policy), policy)
  {
    PerSessionUnitsAreCaptureUnits(parts, ids, policy);
    ScoreIgnoresUnitOrder(
      UnitsOfParts(parts, policy), Units(Flatten(parts), policy), policy);
  }
}
