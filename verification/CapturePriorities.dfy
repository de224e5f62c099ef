/**
 * The priority list of an assessed capture: the findings assessment/engine.py hands
 * to assessment/prioritization.py are the ones its ordering relies on.
 */
module CapturePriorities {
  import opened Orders
  import opened Sorting
  import opened Sums
  import opened Assessment
  import opened Evaluator
  import opened Agreement
  import opened SessionEvaluation
  import opened Engine
  import opened Prioritization
  import opened FindingIdentity
  import opened UnitTheorems

  // ---- the observed session count -------------------------------------------

  function SessionsWith(findings: seq<Finding>, ruleId: string): set<string> {
    set f | f in findings && f.ruleId == ruleId :: f.sessionId
  }

  /** One session's findings: all its own, and no rule twice. */
  ghost predicate FindingsOfSession(findings: seq<Finding>, sid: string) {
    && (forall f :: f in findings ==> f.sessionId == sid)
    && (forall i, j :: 0 <= i < j < |findings| ==> findings[i].ruleId != findings[j].ruleId)
  }

  lemma {:induction false} OncePerSession(findings: seq<Finding>, sid: string, ruleId: string)
    requires FindingsOfSession(findings, sid)
    ensures CountBy(findings, ForRule(ruleId)) == |SessionsWith(findings, ruleId)|
    ensures SessionsWith(findings, ruleId) <= {sid}
    ensures CountBy(findings, ForRule(ruleId)) == 0 <==> forall f :: f in findings ==> f.ruleId != ruleId
  {
    if findings != [] {
      OncePerSession(findings[1..], sid, ruleId);
      var rest := SessionsWith(findings[1..], ruleId);
      assert forall f :: f in findings <==> f == findings[0] || f in findings[1..];
      if findings[0].ruleId == ruleId {
        assert forall f :: f in findings[1..] ==> f.ruleId != ruleId;
        assert SessionsWith(findings, ruleId) == {sid};
      } else {
        assert SessionsWith(findings, ruleId) == rest;
      }
    }
  }

  lemma EngineFindingsOfSession(
    results: seq<RuleResult>, sid: string, policy: Policy, digest: string -> string)
    requires UniqueRuleIds(results) && OneSession(results, sid)
    ensures FindingsOfSession(Findings(results, policy, digest), sid)
  {
    var counting := Filter(results, Counting);
    var raw := Map(counting, FindingOf(policy, digest));
    var sorted := Findings(results, policy, digest);
    SameElements(sorted, raw);
    forall f | f in sorted ensures f.sessionId == sid {
      var i :| 0 <= i < |raw| && raw[i] == f;
      assert counting[i] in counting;
    }
    assert NoDuplicates(results);
    FilterNoDuplicates(results, Counting);
    forall i, j | 0 <= i < j < |raw| ensures raw[i].ruleId != raw[j].ruleId {
      assert counting[i] in counting && counting[j] in counting && counting[i] != counting[j];
      if raw[i].ruleId == raw[j].ruleId { IdsDecide(results, counting[i], counting[j]); }
    }
    forall i, j | 0 <= i < j < |raw| ensures FindingRule(raw[i]) != FindingRule(raw[j]) {
      assert FindingRule(raw[i])[0] == Text(raw[i].ruleId);
      assert FindingRule(raw[j])[0] == Text(raw[j].ruleId);
    }
    DistinctUnderPermutation(raw, sorted, FindingRule);
    forall i, j | 0 <= i < j < |sorted| ensures sorted[i].ruleId != sorted[j].ruleId {
      assert FindingRule(sorted[i]) != FindingRule(sorted[j]);
    }
  }

  function FindingRule(f: Finding): Key { [Text(f.ruleId)] }

  lemma SessionsWithAppend(a: seq<Finding>, b: seq<Finding>, ruleId: string)
    ensures SessionsWith(a + b, ruleId) == SessionsWith(a, ruleId) + SessionsWith(b, ruleId)
  {
    assert forall f :: f in a + b <==> f in a || f in b;
  }

  lemma {:induction false} CountSessions(parts: seq<seq<Finding>>, ids: seq<string>, ruleId: string)
    requires |parts| == |ids| && NoDuplicates(ids)
    requires forall i :: 0 <= i < |parts| ==> FindingsOfSession(parts[i], ids[i])
    ensures CountBy(Flatten(parts), ForRule(ruleId)) == |SessionsWith(Flatten(parts), ruleId)|
    ensures forall s :: s in SessionsWith(Flatten(parts), ruleId) ==> s in ids
  {
    if parts != [] {
      var first, rest := parts[0], Flatten(parts[1..]);
      var a, b := SessionsWith(first, ruleId), SessionsWith(rest, ruleId);
      CountSessions(parts[1..], ids[1..], ruleId);
      CountAppend(first, rest, ForRule(ruleId));
      SessionsWithAppend(first, rest, ruleId);
      assert FindingsOfSession(first, ids[0]);
      OncePerSession(first, ids[0], ruleId);
      assert ids[0] !in ids[1..];
      DisjointSizes(a, b);
    }
  }

  lemma DisjointSizes<T>(a: set<T>, b: set<T>)
    requires a !! b
    ensures |a + b| == |a| + |b|
  {
  }

  /**
   * For the findings a capture assessment produces, an entry's observed count is
   * the number of distinct sessions with a finding for its rule.
   */
  lemma ObservedCountIsSessions(
    parts: seq<seq<RuleResult>>, ids: seq<string>, policy: Policy, digest: string -> string,
    endpoints: map<string, string>, f: Finding)
    requires PerSession(parts, ids)
    requires forall p :: p in parts ==> EvaluatedSession(p)
    ensures EntryOf(AllFindings(parts, policy, digest), endpoints, policy)(f).observed
            == |SessionsWith(AllFindings(parts, policy, digest), f.ruleId)|
  {
    var found := Map(parts, FindingsUnder(policy, digest));
    forall i | 0 <= i < |parts| ensures FindingsOfSession(found[i], ids[i]) {
      assert EvaluatedSession(parts[i]);
      EngineFindingsOfSession(parts[i], ids[i], policy, digest);
    }
    CountSessions(found, ids, f.ruleId);
  }

  // ---- the identifiers prioritisation relies on --------------------------------

  /** Session and rule identify a finding among those of one capture. */
  function FindingPlace(f: Finding): Key { [Text(f.sessionId), Text(f.ruleId)] }

  lemma {:induction false} PlacesDistinct(parts: seq<seq<Finding>>, ids: seq<string>)
    requires |parts| == |ids| && NoDuplicates(ids)
    requires forall i :: 0 <= i < |parts| ==> FindingsOfSession(parts[i], ids[i])
    ensures DistinctKeys(Flatten(parts), FindingPlace)
    ensures forall f :: f in Flatten(parts) ==> f.sessionId in ids
  {
    if parts != [] {
      PlacesDistinct(parts[1..], ids[1..]);
      assert FindingsOfSession(parts[0], ids[0]);
      PlacesAppend(parts[0], Flatten(parts[1..]), ids[0]);
    }
  }

  lemma PlacesAppend(first: seq<Finding>, rest: seq<Finding>, sid: string)
    requires FindingsOfSession(first, sid) && DistinctKeys(rest, FindingPlace)
    requires forall f :: f in rest ==> f.sessionId != sid
    ensures DistinctKeys(first + rest, FindingPlace)
  {
    var all := first + rest;
    forall i, j | 0 <= i < j < |all| ensures FindingPlace(all[i]) != FindingPlace(all[j]) {
      SamePlace(all[i], all[j]);
      assert i < |first| ==> all[i] in first;
      assert j < |first| ==> all[j] in first;
      assert j >= |first| ==> all[j] == rest[j - |first|] && all[j] in rest;
      assert i >= |first| ==> all[i] == rest[i - |first|];
    }
  }

  lemma SamePlace(f: Finding, g: Finding)
    ensures FindingPlace(f) == FindingPlace(g) <==> f.sessionId == g.sessionId && f.ruleId == g.ruleId
  {
    assert FindingPlace(f)[0] == Text(f.sessionId) && FindingPlace(f)[1] == Text(f.ruleId);
    assert FindingPlace(g)[0] == Text(g.sessionId) && FindingPlace(g)[1] == Text(g.ruleId);
  }

  /** The digest tells the materials of these results apart. */
  ghost predicate CollisionFree(results: seq<RuleResult>, policy: Policy, digest: string -> string) {
    forall r, s | r in results && s in results ::
      digest(Material(r, policy)) == digest(Material(s, policy)) ==> Material(r, policy) == Material(s, policy)
  }

  lemma FindingOrigin(results: seq<RuleResult>, policy: Policy, digest: string -> string, f: Finding)
    returns (r: RuleResult)
    requires f in Findings(results, policy, digest)
    ensures r in results && f == FindingOf(policy, digest)(r)
  {
    var counting := Filter(results, Counting);
    var raw := Map(counting, FindingOf(policy, digest));
    SameElements(Findings(results, policy, digest), raw);
    var i :| 0 <= i < |raw| && raw[i] == f;
    r := counting[i];
    assert r in counting;
  }

  lemma {:induction false} CaptureFindingOrigin(
    parts: seq<seq<RuleResult>>, policy: Policy, digest: string -> string, f: Finding) returns (r: RuleResult)
    requires f in AllFindings(parts, policy, digest)
    ensures r in Flatten(parts) && f == FindingOf(policy, digest)(r)
  {
    var found := Map(parts, FindingsUnder(policy, digest));
    assert found[0] == Findings(parts[0], policy, digest);
    if f in found[0] {
      r := FindingOrigin(parts[0], policy, digest, f);
    } else {
      assert found[1..] == Map(parts[1..], FindingsUnder(policy, digest));
      r := CaptureFindingOrigin(parts[1..], policy, digest, f);
    }
  }

  /** Two findings with one id come from one session and one rule. */
  lemma SameIdSamePlace(
    parts: seq<seq<RuleResult>>, policy: Policy, digest: string -> string, f: Finding, g: Finding)
    requires forall r :: r in Flatten(parts) ==> PipeFree(r, policy)
    requires CollisionFree(Flatten(parts), policy, digest)
    requires f in AllFindings(parts, policy, digest) && g in AllFindings(parts, policy, digest)
    requires f.findingId == g.findingId
    ensures FindingPlace(f) == FindingPlace(g)
  {
    var r := CaptureFindingOrigin(parts, policy, digest, f);
    var s := CaptureFindingOrigin(parts, policy, digest, g);
    MaterialInjective(r, policy, s, policy);
  }

  /**
   * The ids prioritisation breaks ties with are distinct for every capture the engine
   * assessed, as long as ids hold no bar and the digest does not collide on them.
   */
  lemma EngineFindingIdsDistinct(
    parts: seq<seq<RuleResult>>, ids: seq<string>, policy: Policy, digest: string -> string)
    requires PerSession(parts, ids)
    requires forall p :: p in parts ==> EvaluatedSession(p)
    requires forall r :: r in Flatten(parts) ==> PipeFree(r, policy)
    requires CollisionFree(Flatten(parts), policy, digest)
    ensures DistinctFindingIds(AllFindings(parts, policy, digest))
  {
    var found := Map(parts, FindingsUnder(policy, digest));
    var all := AllFindings(parts, policy, digest);
    forall i | 0 <= i < |parts| ensures FindingsOfSession(found[i], ids[i]) {
      assert EvaluatedSession(parts[i]);
      EngineFindingsOfSession(parts[i], ids[i], policy, digest);
    }
    PlacesDistinct(found, ids);
    forall i, j | 0 <= i < j < |all| ensures all[i].findingId != all[j].findingId {
      assert all[i] in all && all[j] in all;
      if all[i].findingId == all[j].findingId { SameIdSamePlace(parts, policy, digest, all[i], all[j]); }
    }
  }

  // ---- from the inputs of a capture ----------------------------------------------

  function SessionIdOf(s: SessionInput): string { s.context.sessionId }

  /** The results of an assessed capture, session by session. */
  function PartsOf(inputs: seq<SessionInput>, policy: Policy): seq<seq<RuleResult>> {
    Map(inputs, ResultsOf(policy))
  }

  ghost predicate DistinctSessions(inputs: seq<SessionInput>) {
    forall i, j :: 0 <= i < j < |inputs| ==> inputs[i].context.sessionId != inputs[j].context.sessionId
  }

  /** What `assess_capture` evaluates is one evaluated part per session. */
  lemma AssessedParts(inputs: seq<SessionInput>, policy: Policy)
    requires DistinctSessions(inputs)
    ensures PerSession(PartsOf(inputs, policy), Map(inputs, SessionIdOf))
    ensures forall p :: p in PartsOf(inputs, policy) ==> EvaluatedSession(p)
  {
    var parts := PartsOf(inputs, policy);
    forall i | 0 <= i < |parts|
      ensures OneSession(parts[i], inputs[i].context.sessionId) && EvaluatedSession(parts[i])
    {
      SessionResultsShape(inputs[i].context.(policy := policy), inputs[i].evidence);
    }
  }

  /** No identifier a capture supplies contains the separator. */
  ghost predicate BarFreeInputs(inputs: seq<SessionInput>, policy: Policy) {
    && Free('|', policy.policyId) && Free('|', policy.fingerprint)
    && forall s | s in inputs :: Free('|', s.context.captureId) && Free('|', s.context.sessionId)
  }

  lemma EarlyIdsBarFree(i: nat)
    requires i < 13
    ensures Free('|', CATALOG[i].ruleId)
  {
  }

  lemma LateIdsBarFree(i: nat)
    requires 13 <= i < |CATALOG|
    ensures Free('|', CATALOG[i].ruleId)
  {
  }

  lemma CatalogIdsBarFree(i: nat)
    requires i < |CATALOG|
    ensures Free('|', CATALOG[i].ruleId)
  {
    if i < 13 { EarlyIdsBarFree(i); } else { LateIdsBarFree(i); }
  }

  lemma SessionResultsBarFree(s: SessionInput, policy: Policy, r: RuleResult)
    requires Free('|', policy.policyId) && Free('|', policy.fingerprint)
    requires Free('|', s.context.captureId) && Free('|', s.context.sessionId)
    requires r in ResultsOf(policy)(s)
    ensures PipeFree(r, policy)
  {
    var i := SessionResultOrigin(s.context.(policy := policy), s.evidence, r);
    CatalogIdsBarFree(i);
  }

  lemma {:induction false} InSomePart<T>(parts: seq<seq<T>>, x: T) returns (i: nat)
    requires x in Flatten(parts)
    ensures i < |parts| && x in parts[i]
  {
    if x in parts[0] {
      i := 0;
    } else {
      i := InSomePart(parts[1..], x);
      i := i + 1;
    }
  }

  lemma CaptureResultsBarFree(inputs: seq<SessionInput>, policy: Policy)
    requires BarFreeInputs(inputs, policy)
    ensures forall r :: r in Flatten(PartsOf(inputs, policy)) ==> PipeFree(r, policy)
  {
    forall r | r in Flatten(PartsOf(inputs, policy)) ensures PipeFree(r, policy) {
      var i := InSomePart(PartsOf(inputs, policy), r);
      assert inputs[i] in inputs;
      SessionResultsBarFree(inputs[i], policy, r);
    }
  }

  /** The findings of a capture with distinct session ids have distinct ids. */
  lemma CaptureFindingIdsDistinct(inputs: seq<SessionInput>, policy: Policy, digest: string -> string)
    requires DistinctSessions(inputs) && BarFreeInputs(inputs, policy)
    requires CollisionFree(Flatten(PartsOf(inputs, policy)), policy, digest)
    ensures DistinctFindingIds(AllFindings(PartsOf(inputs, policy), policy, digest))
  {
    AssessedParts(inputs, policy);
    CaptureResultsBarFree(inputs, policy);
    EngineFindingIdsDistinct(PartsOf(inputs, policy), Map(inputs, SessionIdOf), policy, digest);
  }

  /** Hence the priority list `assess_capture` returns is in a strict order. */
  lemma CapturePrioritiesStrict(
    inputs: seq<SessionInput>, endpoints: map<string, string>, policy: Policy, digest: string -> string)
    requires DistinctSessions(inputs) && BarFreeInputs(inputs, policy)
    requires CollisionFree(Flatten(PartsOf(inputs, policy)), policy, digest)
    ensures StrictlySortedBy(
              Prioritised(AllFindings(PartsOf(inputs, policy), policy, digest), endpoints, policy), KeyOf)
  {
    CaptureFindingIdsDistinct(inputs, policy, digest);
    KeysStrictlyIncrease(AllFindings(PartsOf(inputs, policy), policy, digest), endpoints, policy);
  }

  /** Every entry's observed count is the number of this capture's sessions with its rule. */
  lemma CaptureObservedCounts(
    inputs: seq<SessionInput>, endpoints: map<string, string>, policy: Policy, digest: string -> string, e: Entry)
    requires DistinctSessions(inputs)
    requires e in Prioritised(AllFindings(PartsOf(inputs, policy), policy, digest), endpoints, policy)
    ensures e.observed == |SessionsWith(AllFindings(PartsOf(inputs, policy), policy, digest), e.ruleId)|
  {
    var findings := AllFindings(PartsOf(inputs, policy), policy, digest);
    var f := EntryOrigin(findings, endpoints, policy, e);
    AssessedParts(inputs, policy);
    ObservedCountIsSessions(PartsOf(inputs, policy), Map(inputs, SessionIdOf), policy, digest, endpoints, f);
  }
}
