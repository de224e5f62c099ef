/** Deduplication and findings (assessment/evaluator.py). */
module Evaluator {
  import opened Orders
  import opened Sorting
  import opened Sums
  import opened Assessment
  import FindingIdentity

  /** A FAIL no other FAIL of its dedup group comes before, by severity then rule id. */
  predicate Represents(results: seq<RuleResult>, r: RuleResult) {
    && r.outcome == Fail
    && forall m | m in results ::
         m.outcome == Fail && m.dedupGroup == r.dedupGroup ==> !Less(ChoiceKey(m), ChoiceKey(r))
  }

  function Marked(results: seq<RuleResult>): RuleResult -> RuleResult {
    (r: RuleResult) => if r.outcome == Fail then r.(counts := Represents(results, r)) else r
  }

  /** What deduplication should produce: every FAIL marked by whether it represents its group. */
  function Deduplicated(results: seq<RuleResult>): seq<RuleResult> {
    Map(results, Marked(results))
  }

  function FirstWithId(results: seq<RuleResult>, id: string): (r: RuleResult)
    requires HasId(results, id)
    ensures r in results && r.ruleId == id
  {
    if results[0].ruleId == id then results[0] else FirstWithId(results[1..], id)
  }

  /** `c` is the choice among the FAILs of group `g` seen so far. */
  ghost predicate Leads(seen: seq<RuleResult>, g: string, c: RuleResult) {
    && c in seen && c.outcome == Fail && c.dedupGroup == g
    && forall m :: m in seen && m.outcome == Fail && m.dedupGroup == g
                   ==> !Less(ChoiceKey(m), ChoiceKey(c))
  }

  /** The dictionary names, for each group with a FAIL so far, the id of its choice. */
  ghost predicate Tracks(seen: seq<RuleResult>, representatives: map<string, string>) {
    && (forall g :: g in representatives ==>
          exists c :: Leads(seen, g, c) && c.ruleId == representatives[g])
    && (forall m :: m in seen && m.outcome == Fail ==> m.dedupGroup in representatives)
  }

  predicate Supersedes(r: RuleResult, incumbent: RuleResult) {
    SeverityRank(r.severity) < SeverityRank(incumbent.severity)
    || (r.severity == incumbent.severity && StringLess(r.ruleId, incumbent.ruleId))
  }

  lemma SupersedesIsLess(r: RuleResult, incumbent: RuleResult)
    ensures Supersedes(r, incumbent) <==> Less(ChoiceKey(r), ChoiceKey(incumbent))
  {
    var a, b := ChoiceKey(r), ChoiceKey(incumbent);
    assert a[0] == Num(SeverityRank(r.severity)) && b[0] == Num(SeverityRank(incumbent.severity));
    assert a[1..] == [Text(r.ruleId)] && b[1..] == [Text(incumbent.ruleId)];
    assert Less(a[1..], b[1..]) <==> StringLess(r.ruleId, incumbent.ruleId) by {
      assert a[1..][1..] == [] && b[1..][1..] == [];
    }
  }

  lemma {:induction false} LeadsExtends(seen: seq<RuleResult>, g: string, c: RuleResult, r: RuleResult)
    requires Leads(seen, g, c)
    ensures r.outcome != Fail || r.dedupGroup != g ==> Leads(seen + [r], g, c)
    ensures r.outcome == Fail && r.dedupGroup == g && !Less(ChoiceKey(r), ChoiceKey(c))
            ==> Leads(seen + [r], g, c)
    ensures r.outcome == Fail && r.dedupGroup == g && Less(ChoiceKey(r), ChoiceKey(c))
            ==> Leads(seen + [r], g, r)
  {
    if r.outcome == Fail && r.dedupGroup == g && Less(ChoiceKey(r), ChoiceKey(c)) {
      Trichotomy(ChoiceKey(r), ChoiceKey(r));
      forall m | m in seen && m.outcome == Fail && m.dedupGroup == g
        ensures !Less(ChoiceKey(m), ChoiceKey(r))
      {
        if Less(ChoiceKey(m), ChoiceKey(r)) {
          Transitive(ChoiceKey(m), ChoiceKey(r), ChoiceKey(c));
        }
      }
    }
  }

  /** One pass of the first loop keeps the dictionary right. */
  lemma TrackOne(seen: seq<RuleResult>, reps: map<string, string>, r: RuleResult,
                 incumbent: RuleResult)
    requires Tracks(seen, reps) && r.outcome == Fail
    requires r.dedupGroup in reps ==> Leads(seen, r.dedupGroup, incumbent)
                                      && incumbent.ruleId == reps[r.dedupGroup]
    ensures var takes := r.dedupGroup !in reps || Supersedes(r, incumbent);
            Tracks(seen + [r], if takes then reps[r.dedupGroup := r.ruleId] else reps)
  {
    var g := r.dedupGroup;
    var takes := g !in reps || Supersedes(r, incumbent);
    var next := if takes then reps[g := r.ruleId] else reps;
    SupersedesIsLess(r, incumbent);
    Trichotomy(ChoiceKey(r), ChoiceKey(r));
    forall h | h in next ensures exists c :: Leads(seen + [r], h, c) && c.ruleId == next[h] {
      if h != g {
        var c :| Leads(seen, h, c) && c.ruleId == reps[h];
        LeadsExtends(seen, h, c, r);
      } else if g in reps {
        LeadsExtends(seen, g, incumbent, r);
      } else {
        assert Leads(seen + [r], g, r);
      }
    }
  }

  lemma TrackNothing(seen: seq<RuleResult>, reps: map<string, string>, r: RuleResult)
    requires Tracks(seen, reps) && r.outcome != Fail
    ensures Tracks(seen + [r], reps)
  {
    forall h | h in reps ensures exists c :: Leads(seen + [r], h, c) && c.ruleId == reps[h] {
      var c :| Leads(seen, h, c) && c.ruleId == reps[h];
      LeadsExtends(seen, h, c, r);
    }
  }

  lemma IdsDecide(results: seq<RuleResult>, a: RuleResult, b: RuleResult)
    requires UniqueRuleIds(results) && a in results && b in results && a.ruleId == b.ruleId
    ensures a == b
  {
    var i :| 0 <= i < |results| && results[i] == a;
    var j :| 0 <= j < |results| && results[j] == b;
  }

  /** Comparing against the finished dictionary is asking who represents the group. */
  lemma TrackedMeansRepresents(results: seq<RuleResult>, reps: map<string, string>, r: RuleResult)
    requires UniqueRuleIds(results) && Tracks(results, reps)
    requires r in results && r.outcome == Fail
    ensures r.dedupGroup in reps
    ensures reps[r.dedupGroup] == r.ruleId <==> Represents(results, r)
  {
    var c :| Leads(results, r.dedupGroup, c) && c.ruleId == reps[r.dedupGroup];
    if c.ruleId == r.ruleId {
      IdsDecide(results, c, r);
    }
    if Represents(results, r) {
      Trichotomy(ChoiceKey(r), ChoiceKey(c));
      assert ChoiceKey(r)[1] == Text(r.ruleId) && ChoiceKey(c)[1] == Text(c.ruleId);
    }
  }

  /** A FAIL counts when its group's representative bears its id. */
  function MarkedBy(reps: map<string, string>, r: RuleResult): RuleResult {
    if r.outcome == Fail then r.(counts := r.dedupGroup in reps && reps[r.dedupGroup] == r.ruleId) else r
  }

  lemma MarkedByRepresentatives(results: seq<RuleResult>, reps: map<string, string>)
    requires UniqueRuleIds(results) && Tracks(results, reps)
    ensures forall i :: 0 <= i < |results| ==> Deduplicated(results)[i] == MarkedBy(reps, results[i])
  {
    forall i | 0 <= i < |results| ensures Marked(results)(results[i]) == MarkedBy(reps, results[i]) {
      if results[i].outcome == Fail { TrackedMeansRepresents(results, reps, results[i]); }
    }
  }

  /** Every representative names a rule of the session, and with unique ids they track the leaders. */
  ghost predicate RepresentativesOf(results: seq<RuleResult>, seen: seq<RuleResult>, reps: map<string, string>) {
    && (forall g :: g in reps ==> HasId(results, reps[g]))
    && (UniqueRuleIds(results) ==> Tracks(seen, reps))
  }

  predicate HasId(results: seq<RuleResult>, id: string) {
    exists i :: 0 <= i < |results| && results[i].ruleId == id
  }

  /** What one result does to the dictionary. */
  function AfterResult(results: seq<RuleResult>, reps: map<string, string>, r: RuleResult): map<string, string>
    requires forall g :: g in reps ==> HasId(results, reps[g])
  {
    if r.outcome != Fail then reps
    else if r.dedupGroup !in reps then reps[r.dedupGroup := r.ruleId]
    else if Supersedes(r, FirstWithId(results, reps[r.dedupGroup])) then reps[r.dedupGroup := r.ruleId]
    else reps
  }

  /** The incumbent the loop looks up is the leader it has been tracking. */
  lemma IncumbentLeads(results: seq<RuleResult>, seen: seq<RuleResult>, reps: map<string, string>, g: string)
    requires UniqueRuleIds(results) && Tracks(seen, reps) && g in reps && HasId(results, reps[g])
    requires forall x :: x in seen ==> x in results
    ensures Leads(seen, g, FirstWithId(results, reps[g])) && FirstWithId(results, reps[g]).ruleId == reps[g]
  {
    var c :| Leads(seen, g, c) && c.ruleId == reps[g];
    IdsDecide(results, c, FirstWithId(results, reps[g]));
  }

  lemma AfterResultTracks(results: seq<RuleResult>, seen: seq<RuleResult>, reps: map<string, string>, r: RuleResult)
    requires UniqueRuleIds(results) && Tracks(seen, reps)
    requires forall g :: g in reps ==> HasId(results, reps[g])
    requires forall x :: x in seen ==> x in results
    ensures Tracks(seen + [r], AfterResult(results, reps, r))
  {
    if r.outcome != Fail {
      TrackNothing(seen, reps, r);
    } else if r.dedupGroup !in reps {
      TrackOne(seen, reps, r, r);
    } else {
      IncumbentLeads(results, seen, reps, r.dedupGroup);
      TrackOne(seen, reps, r, FirstWithId(results, reps[r.dedupGroup]));
    }
  }

  lemma AfterResultHolds(results: seq<RuleResult>, n: nat, reps: map<string, string>)
    requires n < |results| && RepresentativesOf(results, results[..n], reps)
    ensures RepresentativesOf(results, results[..n + 1], AfterResult(results, reps, results[n]))
  {
    assert results[..n + 1] == results[..n] + [results[n]];
    assert HasId(results, results[n].ruleId);
    if UniqueRuleIds(results) { AfterResultTracks(results, results[..n], reps, results[n]); }
  }

  /** The first loop of `_deduplicate`. */
  method Representatives(results: seq<RuleResult>) returns (reps: map<string, string>)
    ensures UniqueRuleIds(results) ==> Tracks(results, reps)
  {
    reps := map[];
    for n := 0 to |results|
      invariant RepresentativesOf(results, results[..n], reps)
    {
      var r := results[n];
      AfterResultHolds(results, n, reps);
      if r.outcome == Fail {
        if r.dedupGroup !in reps {
          reps := reps[r.dedupGroup := r.ruleId];
        } else {
          var incumbent := FirstWithId(results, reps[r.dedupGroup]);
          if Supersedes(r, incumbent) {
            reps := reps[r.dedupGroup := r.ruleId];
          }
        }
      }
    }
    assert results[..|results|] == results;
  }

  /** `_deduplicate`: nothing is removed, only `counts` may change, and only on FAILs. */
  method Deduplicate(results: seq<RuleResult>) returns (updated: seq<RuleResult>)
    ensures |updated| == |results|
    ensures forall i :: 0 <= i < |results| ==>
              updated[i] == results[i].(counts := updated[i].counts)
    ensures forall i :: 0 <= i < |results| && results[i].outcome != Fail ==>
              updated[i] == results[i]
    ensures UniqueRuleIds(results) ==> updated == Deduplicated(results)
  {
    var reps := Representatives(results);
    updated := [];
    for n := 0 to |results|
      invariant |updated| == n
      invariant forall i :: 0 <= i < n ==> updated[i] == results[i].(counts := updated[i].counts)
      invariant forall i :: 0 <= i < n && results[i].outcome != Fail ==> updated[i] == results[i]
      invariant forall i :: 0 <= i < n ==> updated[i] == MarkedBy(reps, results[i])
    {
      var r := results[n];
      if r.outcome == Fail {
        var keep := r.dedupGroup in reps && reps[r.dedupGroup] == r.ruleId;
        updated := updated + [r.(counts := keep)];
      } else {
        updated := updated + [r];
      }
    }
    if UniqueRuleIds(results) { MarkedByRepresentatives(results, reps); }
  }

  // ---- findings -----------------------------------------------------------

  datatype Finding = Finding(
    findingId: string, ruleId: string, severity: Severity, confidence: Confidence,
    captureId: string, sessionId: string, fingerprint: string)

  predicate Counting(r: RuleResult) { r.outcome == Fail && r.counts }

  /** The digest is abstract: any function of the material. */
  function FindingOf(policy: Policy, digest: string -> string): RuleResult -> Finding {
    (r: RuleResult) =>
      Finding(digest(FindingIdentity.Material(r, policy)), r.ruleId, r.severity, r.confidence,
              r.captureId, r.sessionId, policy.fingerprint)
  }

  function FindingKey(f: Finding): Key {
    [Num(SeverityRank(f.severity)), Text(f.ruleId), Text(f.findingId)]
  }

  function Findings(results: seq<RuleResult>, policy: Policy, digest: string -> string)
    : seq<Finding>
  {
    SortBy(Map(Filter(results, Counting), FindingOf(policy, digest)), FindingKey)
  }

  lemma PromoteNext(seen: seq<RuleResult>, r: RuleResult, policy: Policy, digest: string -> string)
    ensures Map(Filter(seen + [r], Counting), FindingOf(policy, digest)) ==
            Map(Filter(seen, Counting), FindingOf(policy, digest))
            + if Counting(r) then [FindingOf(policy, digest)(r)] else []
  {
    FilterAppend(seen, [r], Counting);
    assert Filter([r], Counting) == if Counting(r) then [r] else [];
  }

  /** `build_findings`: promote the counting FAILs, then sort. */
  method BuildFindings(results: seq<RuleResult>, policy: Policy, digest: string -> string)
    returns (findings: seq<Finding>)
    ensures findings == Findings(results, policy, digest)
  {
    findings := [];
    for n := 0 to |results|
      invariant findings == Map(Filter(results[..n], Counting), FindingOf(policy, digest))
    {
      var r := results[n];
      assert results[..n + 1] == results[..n] + [r];
      PromoteNext(results[..n], r, policy, digest);
      if r.outcome == Fail && r.counts {
        findings := findings + [FindingOf(policy, digest)(r)];
      }
    }
    assert results[..|results|] == results;
    findings := SortBy(findings, FindingKey);
  }
}
