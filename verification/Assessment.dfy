/** The assessment contracts: outcomes, severities, rule results and the policy. */
module Assessment {
  import opened Orders

  datatype Option<+T> = None | Some(value: T)

  datatype Outcome = Fail | Pass | Unknown | NotApplicable

  datatype Severity = Critical | High | Medium | Low | Info

  datatype Confidence = Confirmed | Probable | LowConfidence

  /** `_SEVERITY_ORDER`: the most severe first. */
  function SeverityRank(s: Severity): nat {
    match s
    case Critical => 0
    case High => 1
    case Medium => 2
    case Low => 3
    case Info => 4
  }

  /** `_OUTCOME_PRIORITY`: the most decisive first. */
  function OutcomePriority(o: Outcome): nat {
    match o
    case Fail => 0
    case Pass => 1
    case Unknown => 2
    case NotApplicable => 3
  }

  datatype RuleResult = RuleResult(
    ruleId: string,
    outcome: Outcome,
    severity: Severity,
    confidence: Confidence,
    captureId: string,
    sessionId: string,
    policyId: string,
    offsets: seq<int>,
    packets: seq<int>,
    dedupGroup: string,
    counts: bool)

  /** The key every choice inside a group is made by: severity, then rule id. */
  function ChoiceKey(r: RuleResult): Key {
    [Num(SeverityRank(r.severity)), Text(r.ruleId)]
  }

  function RuleIdOf(r: RuleResult): string { r.ruleId }

  predicate IsFail(r: RuleResult) { r.outcome == Fail }

  ghost predicate UniqueRuleIds(results: seq<RuleResult>) {
    forall i, j :: 0 <= i < j < |results| ==> results[i].ruleId != results[j].ruleId
  }

  ghost predicate OneSession(results: seq<RuleResult>, sessionId: string) {
    forall r :: r in results ==> r.sessionId == sessionId
  }

  datatype Policy = Policy(
    policyId: string,
    fingerprint: string,
    severityWeights: map<Severity, real>,
    ruleWeightOverrides: map<string, real>,
    ruleSeverityOverrides: map<string, Severity>,
    disabledRules: set<string>,
    minimumCoverage: real,
    currentTimeMode: bool,
    assetCriticality: map<string, string>)
  {
    function WeightFor(ruleId: string, severity: Severity): real {
      if ruleId in ruleWeightOverrides then ruleWeightOverrides[ruleId]
      else if severity in severityWeights then severityWeights[severity]
      else 0.0
    }

    function SeverityFor(ruleId: string, default: Severity): Severity {
      if ruleId in ruleSeverityOverrides then ruleSeverityOverrides[ruleId] else default
    }

    predicate Enabled(ruleId: string) { ruleId !in disabledRules }

    function CriticalityFor(endpoint: string): Option<string> {
      if endpoint in assetCriticality then Some(assetCriticality[endpoint]) else None
    }
  }

  const SEVERITY_WEIGHTS: map<Severity, real> :=
    map[Critical := 10.0, High := 6.0, Medium := 3.0, Low := 1.0, Info := 0.0]
}
