/**
 * What a reader of the findings and of the priority list sees
 * (assessment/evaluator.py, assessment/prioritization.py): which result each finding
 * repeats, which finding each entry repeats, and the order of both lists, in terms of
 * the fields they report rather than of sort keys.
 */
module PriorityReports {
  import opened Orders
  import opened Sorting
  import opened Sums
  import opened Assessment
  import opened Evaluator
  import opened Scoring
  import opened SessionEvaluation
  import opened Engine
  import opened Prioritization
  import opened CapturePriorities
  import FindingIdentity

  // ---- tuples compared component by component -----------------------------------------

  lemma LessStep(x: Atom, s: Key, y: Atom, t: Key)
    ensures Less([x] + s, [y] + t) <==> AtomLess(x, y) || (x == y && Less(s, t))
  {
    assert ([x] + s)[1..] == s && ([y] + t)[1..] == t;
  }

  lemma LessLast(x: Atom, y: Atom)
    ensures Less([x], [y]) <==> AtomLess(x, y)
  {
    assert [x][1..] == [] && [y][1..] == [];
  }

  // ---- findings -----------------------------------------------------------------------

  /** A finding repeats what its result says, under the policy that was applied. */
  predicate Repeats(f: Finding, r: RuleResult, policy: Policy, digest: string -> string) {
    && f.ruleId == r.ruleId && f.severity == r.severity && f.confidence == r.confidence
    && f.captureId == r.captureId && f.sessionId == r.sessionId
    && f.fingerprint == policy.fingerprint
    && f.findingId == digest(FindingIdentity.Material(r, policy))
  }

  /** Every finding repeats a FAIL that counts, and every such FAIL has its finding. */
  lemma FindingsRepeatResults(results: seq<RuleResult>, policy: Policy, digest: string -> string)
    ensures forall f :: f in Findings(results, policy, digest) ==>
              exists r :: r in results && r.outcome == Fail && r.counts && Repeats(f, r, policy, digest)
    ensures forall r :: r in results && r.outcome == Fail && r.counts ==>
              exists f :: f in Findings(results, policy, digest) && Repeats(f, r, policy, digest)
  {
    var findings := Findings(results, policy, digest);
    forall f | f in findings
      ensures exists r :: r in results && r.outcome == Fail && r.counts && Repeats(f, r, policy, digest)
    {
      var r := FindingOrigin(results, policy, digest, f);
      CountingOrigin(results, policy, digest, f);
    }
    forall r | r in results && r.outcome == Fail && r.counts
      ensures exists f :: f in findings && Repeats(f, r, policy, digest)
    {
      var f := FindingFor(results, policy, digest, r);
    }
  }

  lemma CountingOrigin(results: seq<RuleResult>, policy: Policy, digest: string -> string, f: Finding)
    requires f in Findings(results, policy, digest)
    ensures exists r :: r in results && r.outcome == Fail && r.counts && Repeats(f, r, policy, digest)
  {
    var counting := Filter(results, Counting);
    var raw := Map(counting, FindingOf(policy, digest));
    SameElements(Findings(results, policy, digest), raw);
    var i :| 0 <= i < |raw| && raw[i] == f;
    assert counting[i] in counting && Repeats(f, counting[i], policy, digest);
  }

  lemma FindingFor(results: seq<RuleResult>, policy: Policy, digest: string -> string, r: RuleResult)
    returns (f: Finding)
    requires r in results && r.outcome == Fail && r.counts
    ensures f in Findings(results, policy, digest) && Repeats(f, r, policy, digest)
  {
    var counting := Filter(results, Counting);
    var raw := Map(counting, FindingOf(policy, digest));
    SameElements(Findings(results, policy, digest), raw);
    assert r in counting;
    var i :| 0 <= i < |counting| && counting[i] == r;
    f := raw[i];
    assert f in raw;
  }

  /** The list goes from most to least severe, then by rule id, then by finding id. */
  ghost predicate FindingPrecedes(a: Finding, b: Finding) {
    SeverityRank(a.severity) < SeverityRank(b.severity)
    || (a.severity == b.severity
        && (StringLess(a.ruleId, b.ruleId) || (a.ruleId == b.ruleId && StringLess(a.findingId, b.findingId))))
  }

  lemma FindingKeyOrder(a: Finding, b: Finding)
    ensures Less(FindingKey(a), FindingKey(b)) <==> FindingPrecedes(a, b)
  {
    var x, y := Num(SeverityRank(a.severity)), Num(SeverityRank(b.severity));
    assert FindingKey(a) == [x] + ([Text(a.ruleId)] + [Text(a.findingId)]);
    assert FindingKey(b) == [y] + ([Text(b.ruleId)] + [Text(b.findingId)]);
    LessStep(x, [Text(a.ruleId)] + [Text(a.findingId)], y, [Text(b.ruleId)] + [Text(b.findingId)]);
    LessStep(Text(a.ruleId), [Text(a.findingId)], Text(b.ruleId), [Text(b.findingId)]);
    LessLast(Text(a.findingId), Text(b.findingId));
  }

  lemma FindingsMostSevereFirst(results: seq<RuleResult>, policy: Policy, digest: string -> string, i: nat, j: nat)
    requires i < j < |Findings(results, policy, digest)|
    ensures !FindingPrecedes(Findings(results, policy, digest)[j], Findings(results, policy, digest)[i])
  {
    SortBySorted(Map(Filter(results, Counting), FindingOf(policy, digest)), FindingKey);
    FindingKeyOrder(Findings(results, policy, digest)[j], Findings(results, policy, digest)[i]);
  }

  // ---- the bands ------------------------------------------------------------------------

  /** The table of docs/scoring-methodology.md: a row per severity, CONFIRMED, PROBABLE and LOW across. */
  const PRIORITY_TABLE: seq<seq<PriorityBand>> := [
    [P1, P1, P2],
    [P1, P2, P3],
    [P2, P3, P3],
    [P3, P4, P4],
    [P4, P4, P4]]

  const SEVERITIES: seq<Severity> := [Critical, High, Medium, Low, Info]

  const CONFIDENCES: seq<Confidence> := [Confirmed, Probable, LowConfidence]

  /** The code's matrix is the documented table, and it gets no less urgent across or down. */
  lemma MatrixIsDocumented(i: nat, j: nat)
    requires i < 5 && j < 3
    ensures BandFor(SEVERITIES[i], CONFIDENCES[j]) == PRIORITY_TABLE[i][j]
    ensures SeverityRank(SEVERITIES[i]) == i && ConfidenceRank(CONFIDENCES[j]) == j
    ensures i > 0 ==> Urgency(PRIORITY_TABLE[i - 1][j]) <= Urgency(PRIORITY_TABLE[i][j])
    ensures j > 0 ==> Urgency(PRIORITY_TABLE[i][j - 1]) <= Urgency(PRIORITY_TABLE[i][j])
  {
  }

  // ---- criticality labels ----------------------------------------------------------------

  /** The same letter, in either case. */
  predicate SameLetter(c: char, d: char) {
    || c == d
    || ('a' <= c <= 'z' && d as int == c as int - 32)
    || ('a' <= d <= 'z' && c as int == d as int - 32)
  }

  /** The same label but for the case of its letters. */
  predicate SameLabel(a: string, b: string) {
    |a| == |b| && forall i | 0 <= i < |a| :: SameLetter(a[i], b[i])
  }

  predicate InCapitals(s: string) { forall c | c in s :: !('a' <= c <= 'z') }

  lemma UpperIsCapitals(s: string)
    ensures SameLabel(Upper(s), s) && InCapitals(Upper(s))
  {
  }

  /** Labels in capitals are the same only when they are equal. */
  lemma CapitalsDecide(a: string, b: string)
    requires SameLabel(a, b) && InCapitals(a) && InCapitals(b)
    ensures a == b
  {
    forall i | 0 <= i < |a| ensures a[i] == b[i] { assert a[i] in a && b[i] in b; }
  }

  lemma SameLabelSameUpper(a: string, b: string)
    requires SameLabel(a, b)
    ensures Upper(a) == Upper(b)
  {
  }

  const LABELS: seq<string> := ["CRITICAL", "HIGH", "MEDIUM", "LOW"]

  /** The documented order of labels: anything else, and nothing at all, comes last. */
  function LabelPlace(given: Option<string>): nat {
    if given == Some(LABELS[0]) then 0
    else if given == Some(LABELS[1]) then 1
    else if given == Some(LABELS[2]) then 2
    else if given == Some(LABELS[3]) then 3
    else 4
  }

  /** What the operator said of the endpoint a session was with, if anything. */
  function LabelOf(f: Finding, endpoints: map<string, string>, policy: Policy): string {
    if f.sessionId in endpoints && endpoints[f.sessionId] in policy.assetCriticality
    then policy.assetCriticality[endpoints[f.sessionId]] else ""
  }

  lemma PlaceOfLabel(given: string)
    ensures CriticalityRank(Upper(given)) == LabelPlace(if given != "" then Some(Upper(given)) else None)
  {
  }

  // ---- what an entry reports --------------------------------------------------------------

  /**
   * An entry repeats its finding, has the band the table gives it, counts its rule, and
   * carries its endpoint's label in capitals.
   */
  predicate EntryRepeats(
    e: Entry, f: Finding, findings: seq<Finding>, endpoints: map<string, string>, policy: Policy)
  {
    && e.findingId == f.findingId && e.ruleId == f.ruleId
    && e.severity == f.severity && e.confidence == f.confidence
    && e.priority == PRIORITY_TABLE[SeverityRank(f.severity)][ConfidenceRank(f.confidence)]
    && e.observed == CountBy(findings, ForRule(f.ruleId))
    && (e.criticality.None? <==> LabelOf(f, endpoints, policy) == "")
    && (e.criticality.Some? ==>
        SameLabel(e.criticality.value, LabelOf(f, endpoints, policy)) && InCapitals(e.criticality.value))
  }

  lemma EntryForRepeats(f: Finding, findings: seq<Finding>, endpoints: map<string, string>, policy: Policy)
    ensures EntryRepeats(EntryOf(findings, endpoints, policy)(f), f, findings, endpoints, policy)
  {
    UpperIsCapitals(LabelOf(f, endpoints, policy));
    MatrixIsDocumented(SeverityRank(f.severity), ConfidenceRank(f.confidence));
    assert SEVERITIES[SeverityRank(f.severity)] == f.severity;
    assert CONFIDENCES[ConfidenceRank(f.confidence)] == f.confidence;
  }

  lemma EntriesRepeatFindings(findings: seq<Finding>, endpoints: map<string, string>, policy: Policy, e: Entry)
    returns (f: Finding)
    requires e in Prioritised(findings, endpoints, policy)
    ensures f in findings && EntryRepeats(e, f, findings, endpoints, policy)
  {
    f := EntryOrigin(findings, endpoints, policy, e);
    EntryForRepeats(f, findings, endpoints, policy);
  }

  // ---- the order of the list -----------------------------------------------------------------

  /** Earlier in the documented order, by the fields the two entries report. */
  ghost predicate Precedes(a: Entry, b: Entry) {
    SeverityRank(a.severity) < SeverityRank(b.severity)
    || (a.severity == b.severity && PrecedesByConfidence(a, b))
  }

  ghost predicate PrecedesByConfidence(a: Entry, b: Entry) {
    ConfidenceRank(a.confidence) < ConfidenceRank(b.confidence)
    || (a.confidence == b.confidence && PrecedesByLabel(a, b))
  }

  ghost predicate PrecedesByLabel(a: Entry, b: Entry) {
    LabelPlace(a.criticality) < LabelPlace(b.criticality)
    || (LabelPlace(a.criticality) == LabelPlace(b.criticality) && PrecedesByScope(a, b))
  }

  /** More sessions come first, then the rule id, then the finding id. */
  ghost predicate PrecedesByScope(a: Entry, b: Entry) {
    a.observed > b.observed
    || (a.observed == b.observed
        && (StringLess(a.ruleId, b.ruleId) || (a.ruleId == b.ruleId && StringLess(a.findingId, b.findingId))))
  }

  function Tail(e: Entry): Key { [Num(-e.observed)] + ([Text(e.ruleId)] + [Text(e.findingId)]) }

  /** The sort key an entry's own fields call for. */
  function FieldKey(e: Entry): Key {
    [Num(SeverityRank(e.severity))]
    + ([Num(ConfidenceRank(e.confidence))] + ([Num(LabelPlace(e.criticality))] + Tail(e)))
  }

  lemma EntryForKey(f: Finding, observed: int, endpoints: map<string, string>, policy: Policy)
    ensures var e := EntryFor(f, observed, endpoints, policy);
            e.sortKey == FieldKey(e)
  {
    PlaceOfLabel(LabelOf(f, endpoints, policy));
  }

  lemma KeyIsFields(findings: seq<Finding>, endpoints: map<string, string>, policy: Policy, e: Entry)
    requires e in Prioritised(findings, endpoints, policy)
    ensures e.sortKey == FieldKey(e)
  {
    hide Prioritised, FieldKey, EntryFor;
    var f := EntryOrigin(findings, endpoints, policy, e);
    EntryForKey(f, CountBy(findings, ForRule(f.ruleId)), endpoints, policy);
    RankIsNoField(e);
  }

  lemma RankIsNoField(e: Entry)
    ensures FieldKey(Unranked(e)) == FieldKey(e) && Unranked(e).sortKey == e.sortKey
  {
  }

  lemma TailOrder(a: Entry, b: Entry)
    ensures Less(Tail(a), Tail(b)) <==> PrecedesByScope(a, b)
  {
    LessStep(Num(-a.observed), [Text(a.ruleId)] + [Text(a.findingId)],
             Num(-b.observed), [Text(b.ruleId)] + [Text(b.findingId)]);
    LessStep(Text(a.ruleId), [Text(a.findingId)], Text(b.ruleId), [Text(b.findingId)]);
    LessLast(Text(a.findingId), Text(b.findingId));
  }

  lemma FieldKeyOrder(a: Entry, b: Entry)
    ensures Less(FieldKey(a), FieldKey(b)) <==> Precedes(a, b)
  {
    hide Tail;
    var la, lb := Num(LabelPlace(a.criticality)), Num(LabelPlace(b.criticality));
    var ca, cb := Num(ConfidenceRank(a.confidence)), Num(ConfidenceRank(b.confidence));
    LessStep(Num(SeverityRank(a.severity)), [ca] + ([la] + Tail(a)),
             Num(SeverityRank(b.severity)), [cb] + ([lb] + Tail(b)));
    LessStep(ca, [la] + Tail(a), cb, [lb] + Tail(b));
    LessStep(la, Tail(a), lb, Tail(b));
    TailOrder(a, b);
  }

  /**
   * The priority list is in the documented order by the fields it reports: severity, then
   * confidence, then the label, then the number of findings of the rule, most first, then
   * the two ids.
   */
  lemma ListedInOrder(findings: seq<Finding>, endpoints: map<string, string>, policy: Policy, i: nat, j: nat)
    requires i < j < |Prioritised(findings, endpoints, policy)|
    ensures var out := Prioritised(findings, endpoints, policy);
            && !Precedes(out[j], out[i])
            && (DistinctFindingIds(findings) ==> Precedes(out[i], out[j]))
            && (out[i].severity == out[j].severity && out[i].confidence == out[j].confidence
                && LabelPlace(out[i].criticality) == LabelPlace(out[j].criticality)
                ==> out[i].observed >= out[j].observed)
  {
    hide Prioritised, FieldKey;
    var out := Prioritised(findings, endpoints, policy);
    KeyIsFields(findings, endpoints, policy, out[i]);
    KeyIsFields(findings, endpoints, policy, out[j]);
    RankedInOrder(findings, endpoints, policy, i, j);
    FieldKeyOrder(out[i], out[j]);
    FieldKeyOrder(out[j], out[i]);
    if DistinctFindingIds(findings) { KeysStrictlyIncrease(findings, endpoints, policy); }
  }

  /** Two policies that label every endpoint the same but for the case of the letters. */
  predicate SameLabels(p: Policy, q: Policy) {
    && p.assetCriticality.Keys == q.assetCriticality.Keys
    && forall e | e in p.assetCriticality :: SameLabel(p.assetCriticality[e], q.assetCriticality[e])
  }

  /** The case of a label's letters changes nothing in the list. */
  lemma LabelCaseDoesNotMatter(findings: seq<Finding>, endpoints: map<string, string>, p: Policy, q: Policy)
    requires SameLabels(p, q)
    ensures Prioritised(findings, endpoints, p) == Prioritised(findings, endpoints, q)
  {
    var a, b := EntryOf(findings, endpoints, p), EntryOf(findings, endpoints, q);
    forall f ensures a(f) == b(f) {
      SameLabelEntry(f, CountBy(findings, ForRule(f.ruleId)), endpoints, p, q);
    }
    assert Map(findings, a) == Map(findings, b);
  }

  lemma SameLabelEntry(f: Finding, observed: int, endpoints: map<string, string>, p: Policy, q: Policy)
    requires SameLabels(p, q)
    ensures EntryFor(f, observed, endpoints, p) == EntryFor(f, observed, endpoints, q)
  {
    if CriticalityOf(f, endpoints, p).Some? {
      SameLabelSameUpper(CriticalityOf(f, endpoints, p).value, CriticalityOf(f, endpoints, q).value);
    }
  }

  // ---- in an assessed capture ------------------------------------------------------------------

  lemma {:induction false} EndpointOfSession(inputs: seq<SessionInput>, n: nat)
    requires n < |inputs| && DistinctSessions(inputs)
    ensures inputs[n].context.sessionId in Endpoints(inputs)
    ensures Endpoints(inputs)[inputs[n].context.sessionId] == inputs[n].endpoint
  {
    var front := inputs[..|inputs| - 1];
    if n < |front| {
      assert DistinctSessions(front) && front[n] == inputs[n];
      EndpointOfSession(front, n);
    }
  }

  /** The label the operator gave an endpoint. */
  function LabelAt(policy: Policy, endpoint: string): string {
    if endpoint in policy.assetCriticality then policy.assetCriticality[endpoint] else ""
  }

  /**
   * Every entry of an assessed capture repeats a finding of one of its sessions, and carries
   * the label of the endpoint that session was with, in capitals.
   */
  lemma CaptureEntries(inputs: seq<SessionInput>, policy: Policy, digest: string -> string, e: Entry)
    returns (n: nat, f: Finding)
    requires DistinctSessions(inputs) && e in CaptureOf(inputs, policy, digest).prioritised
    ensures n < |inputs| && f in Findings(ResultsOf(policy)(inputs[n]), policy, digest)
    ensures f.sessionId == inputs[n].context.sessionId
    ensures EntryRepeats(e, f, CaptureOf(inputs, policy, digest).findings, Endpoints(inputs), policy)
    ensures LabelOf(f, Endpoints(inputs), policy) == LabelAt(policy, inputs[n].endpoint)
  {
    hide Prioritised, ResultsOf, Findings, Endpoints, EntryRepeats;
    var findings := AllFindings(Map(inputs, ResultsOf(policy)), policy, digest);
    f := EntriesRepeatFindings(findings, Endpoints(inputs), policy, e);
    n := FindingSession(inputs, policy, digest, f);
    EndpointOfSession(inputs, n);
  }

  lemma FindingSession(inputs: seq<SessionInput>, policy: Policy, digest: string -> string, f: Finding)
    returns (n: nat)
    requires f in AllFindings(Map(inputs, ResultsOf(policy)), policy, digest)
    ensures n < |inputs| && f in Findings(ResultsOf(policy)(inputs[n]), policy, digest)
    ensures f.sessionId == inputs[n].context.sessionId
  {
    hide Findings, ResultsOf;
    var parts := Map(inputs, ResultsOf(policy));
    n := InSomePart(Map(parts, FindingsUnder(policy, digest)), f);
    OwnSession(inputs[n], policy, digest, f);
  }

  lemma OwnSession(s: SessionInput, policy: Policy, digest: string -> string, f: Finding)
    requires f in Findings(ResultsOf(policy)(s), policy, digest)
    ensures f.sessionId == s.context.sessionId
  {
    var results := ResultsOf(policy)(s);
    SessionResultsShape(s.context.(policy := policy), s.evidence);
    EngineFindingsOfSession(results, s.context.sessionId, policy, digest);
  }

  /** The whole list of an assessed capture is in the documented order. */
  lemma CaptureListedInOrder(
    inputs: seq<SessionInput>, policy: Policy, digest: string -> string, i: nat, j: nat)
    requires DistinctSessions(inputs) && BarFreeInputs(inputs, policy)
    requires CollisionFree(Flatten(PartsOf(inputs, policy)), policy, digest)
    requires i < j < |CaptureOf(inputs, policy, digest).prioritised|
    ensures Precedes(CaptureOf(inputs, policy, digest).prioritised[i], CaptureOf(inputs, policy, digest).prioritised[j])
  {
    hide Prioritised, ResultsOf, Findings, Precedes;
    CaptureFindingIdsDistinct(inputs, policy, digest);
    ListedInOrder(AllFindings(PartsOf(inputs, policy), policy, digest), Endpoints(inputs), policy, i, j);
  }
}
