/** The capture-level assessment (assessment/engine.py). */
module Engine {
  import opened Sorting
  import opened Sums
  import opened Assessment
  import opened Scoring
  import opened UnitTheorems
  import opened ScoreTheorems
  import opened Evaluator
  import opened Agreement
  import opened SessionEvaluation
  import opened Prioritization
  import Rules

  /** One session of the capture: what the rules read, and the server endpoint it was with. */
  datatype SessionInput = SessionInput(context: Rules.Context, evidence: Evidence, endpoint: string)

  datatype SessionAssessment = SessionAssessment(
    sessionId: string, results: seq<RuleResult>, findings: seq<Finding>, posture: Posture)

  datatype CaptureAssessment = CaptureAssessment(
    sessions: seq<SessionAssessment>, findings: seq<Finding>, prioritised: seq<Entry>,
    posture: Posture, rulesEvaluated: nat)

  function WithSuppressed(p: Posture, n: nat): Posture { p.(tally := p.tally.(suppressed := n)) }

  /** The results of each session, in session order. */
  function ResultsOf(policy: Policy): SessionInput -> seq<RuleResult> {
    (s: SessionInput) => SessionResults(s.context.(policy := policy), s.evidence)
  }

  /** A session's assessment, given the results the evaluator left. */
  function AssessmentOf(sessionId: string, results: seq<RuleResult>, policy: Policy, digest: string -> string)
    : SessionAssessment
  {
    SessionAssessment(
      sessionId, results, Findings(results, policy, digest),
      WithSuppressed(ComputeScore(Units(results, policy), policy), SuppressedCount(results)))
  }

  function SessionOf(policy: Policy, digest: string -> string): SessionInput -> SessionAssessment {
    (s: SessionInput) => AssessmentOf(s.context.sessionId, ResultsOf(policy)(s), policy, digest)
  }

  function FindingsUnder(policy: Policy, digest: string -> string): seq<RuleResult> -> seq<Finding> {
    (results: seq<RuleResult>) => Findings(results, policy, digest)
  }

  function AllFindings(parts: seq<seq<RuleResult>>, policy: Policy, digest: string -> string)
    : seq<Finding>
  {
    Flatten(Map(parts, FindingsUnder(policy, digest)))
  }

  /** The `sessions` dictionary, as far as `prioritise` reads it: the last of equal ids stays. */
  function Endpoints(inputs: seq<SessionInput>): map<string, string> {
    if inputs == [] then map[]
    else
      var last := inputs[|inputs| - 1];
      Endpoints(inputs[..|inputs| - 1])[last.context.sessionId := last.endpoint]
  }

  /** Findings, units and score of one session. */
  method AssessResults(sessionId: string, results: seq<RuleResult>, policy: Policy, digest: string -> string)
    returns (assessment: SessionAssessment, units: seq<Unit>)
    ensures assessment == AssessmentOf(sessionId, results, policy, digest)
    ensures units == Units(results, policy)
  {
    var findings := BuildFindings(results, policy, digest);
    units := BuildUnits(results, policy);
    assessment := SessionAssessment(
      sessionId, results, findings, WithSuppressed(ComputeScore(units, policy), SuppressedCount(results)));
  }

  /** One pass of the session loop. */
  method AssessSession(input: SessionInput, policy: Policy, digest: string -> string)
    returns (assessment: SessionAssessment, units: seq<Unit>)
    ensures assessment == SessionOf(policy, digest)(input)
    ensures assessment.results == ResultsOf(policy)(input)
    ensures assessment.findings == FindingsUnder(policy, digest)(ResultsOf(policy)(input))
    ensures units == UnitsUnder(policy)(ResultsOf(policy)(input))
  {
    var results := EvaluateSession(input.context.(policy := policy), input.evidence);
    assert results == ResultsOf(policy)(input);
    assessment, units := AssessResults(input.context.sessionId, results, policy, digest);
  }

  /** What `assess_capture` should return. */
  function CaptureOf(inputs: seq<SessionInput>, policy: Policy, digest: string -> string): CaptureAssessment {
    var parts := Map(inputs, ResultsOf(policy));
    var findings := AllFindings(parts, policy, digest);
    CaptureAssessment(
      Map(inputs, SessionOf(policy, digest)), findings, Prioritised(findings, Endpoints(inputs), policy),
      WithSuppressed(ComputeScore(UnitsOfParts(parts, policy), policy), SuppressedCount(Flatten(parts))),
      |Flatten(parts)|)
  }

  /** What the loop's lists and counters hold after these sessions. */
  ghost predicate Assessed(
    inputs: seq<SessionInput>, policy: Policy, digest: string -> string,
    sessions: seq<SessionAssessment>, findings: seq<Finding>, units: seq<Unit>, results: nat, suppressed: nat)
  {
    var parts := Map(inputs, ResultsOf(policy));
    && sessions == Map(inputs, SessionOf(policy, digest))
    && findings == AllFindings(parts, policy, digest)
    && units == UnitsOfParts(parts, policy)
    && results == |Flatten(parts)|
    && suppressed == SuppressedCount(Flatten(parts))
  }

  lemma AssessedNone(policy: Policy, digest: string -> string)
    ensures Assessed([], policy, digest, [], [], [], 0, 0)
  {
  }

  lemma AssessedNext(
    inputs: seq<SessionInput>, n: nat, policy: Policy, digest: string -> string,
    sessions: seq<SessionAssessment>, findings: seq<Finding>, units: seq<Unit>, results: nat, suppressed: nat)
    requires n < |inputs|
    requires Assessed(inputs[..n], policy, digest, sessions, findings, units, results, suppressed)
    ensures var own := ResultsOf(policy)(inputs[n]);
            Assessed(inputs[..n + 1], policy, digest,
                     sessions + [SessionOf(policy, digest)(inputs[n])],
                     findings + FindingsUnder(policy, digest)(own), units + UnitsUnder(policy)(own),
                     results + |own|, suppressed + SuppressedCount(own))
  {
    NextSession(inputs, n, policy, digest);
  }

  /** `assess_capture`: one pass over the sessions, then the capture-wide score. */
  method AssessCapture(inputs: seq<SessionInput>, policy: Policy, digest: string -> string)
    returns (capture: CaptureAssessment)
    ensures capture == CaptureOf(inputs, policy, digest)
  {
    hide SessionOf, ResultsOf, FindingsUnder, UnitsUnder, AllFindings, UnitsOfParts, Prioritised, Endpoints;
    var sessions: seq<SessionAssessment> := [];
    var allFindings: seq<Finding> := [];
    var allUnits: seq<Unit> := [];
    var totalResults: nat, totalSuppressed: nat := 0, 0;
    AssessedNone(policy, digest);
    for n := 0 to |inputs|
      invariant Assessed(inputs[..n], policy, digest, sessions, allFindings, allUnits, totalResults, totalSuppressed)
    {
      var assessment, units := AssessSession(inputs[n], policy, digest);
      AssessedNext(inputs, n, policy, digest, sessions, allFindings, allUnits, totalResults, totalSuppressed);
      sessions := sessions + [assessment];
      allFindings := allFindings + assessment.findings;
      allUnits := allUnits + units;
      totalResults := totalResults + |assessment.results|;
      totalSuppressed := totalSuppressed + SuppressedCount(assessment.results);
    }
    assert inputs[..|inputs|] == inputs;
    var prioritised := Prioritise(allFindings, Endpoints(inputs), policy);
    capture := CaptureAssessment(
      sessions, allFindings, prioritised,
      WithSuppressed(ComputeScore(allUnits, policy), totalSuppressed), totalResults);
  }

  lemma NextSession(inputs: seq<SessionInput>, n: nat, policy: Policy, digest: string -> string)
    requires n < |inputs|
    ensures var before, after := Map(inputs[..n], ResultsOf(policy)), Map(inputs[..n + 1], ResultsOf(policy));
            var results := ResultsOf(policy)(inputs[n]);
            && Map(inputs[..n + 1], SessionOf(policy, digest))
               == Map(inputs[..n], SessionOf(policy, digest)) + [SessionOf(policy, digest)(inputs[n])]
            && AllFindings(after, policy, digest)
               == AllFindings(before, policy, digest) + FindingsUnder(policy, digest)(results)
            && UnitsOfParts(after, policy)
               == UnitsOfParts(before, policy) + UnitsUnder(policy)(results)
            && |Flatten(after)| == |Flatten(before)| + |results|
            && SuppressedCount(Flatten(after))
               == SuppressedCount(Flatten(before)) + SuppressedCount(results)
  {
    assert inputs[..n + 1] == inputs[..n] + [inputs[n]];
    MapSnoc(inputs[..n], inputs[n], SessionOf(policy, digest));
    MapSnoc(inputs[..n], inputs[n], ResultsOf(policy));
    NextPart(Map(inputs[..n], ResultsOf(policy)), ResultsOf(policy)(inputs[n]), policy, digest);
  }

  lemma NextPart(before: seq<seq<RuleResult>>, results: seq<RuleResult>, policy: Policy, digest: string -> string)
    ensures AllFindings(before + [results], policy, digest)
            == AllFindings(before, policy, digest) + FindingsUnder(policy, digest)(results)
    ensures UnitsOfParts(before + [results], policy)
            == UnitsOfParts(before, policy) + UnitsUnder(policy)(results)
    ensures |Flatten(before + [results])| == |Flatten(before)| + |results|
    ensures SuppressedCount(Flatten(before + [results]))
            == SuppressedCount(Flatten(before)) + SuppressedCount(results)
  {
    MapSnoc(before, results, FindingsUnder(policy, digest));
    MapSnoc(before, results, UnitsUnder(policy));
    FlattenSnoc(Map(before, FindingsUnder(policy, digest)), FindingsUnder(policy, digest)(results));
    FlattenSnoc(Map(before, UnitsUnder(policy)), UnitsUnder(policy)(results));
    FlattenSnoc(before, results);
    CountAppend(Flatten(before), results, Suppressed);
  }

  lemma MapSnoc<T, U>(s: seq<T>, x: T, f: T -> U)
    ensures Map(s + [x], f) == Map(s, f) + [f(x)]
  {
  }

  // ---- the capture adds up ---------------------------------------------------

  /** One session's results as the evaluator leaves them. */
  ghost predicate EvaluatedSession(results: seq<RuleResult>) {
    UniqueRuleIds(results) && DeduplicationDone(results) && exists sid :: OneSession(results, sid)
  }

  lemma CaptureDeductions(
    parts: seq<seq<RuleResult>>, policy: Policy, digest: string -> string)
    requires forall p :: p in parts ==> EvaluatedSession(p)
    ensures WFailed(UnitsOfParts(parts, policy))
            == SumBy(AllFindings(parts, policy, digest), FindingWeight(policy))
  {
    var units, findings := Map(parts, UnitsUnder(policy)), Map(parts, FindingsUnder(policy, digest));
    forall i | 0 <= i < |parts|
      ensures SumBy(units[i], FailedWeight) == SumBy(findings[i], FindingWeight(policy))
    {
      assert EvaluatedSession(parts[i]);
      var sid :| OneSession(parts[i], sid);
      DeductionsAreFindingWeights(parts[i], sid, policy, digest);
    }
    FlattenedSumsAgree(units, findings, FailedWeight, FindingWeight(policy));
  }

  lemma {:induction false} CaptureFailsAccounted(
    parts: seq<seq<RuleResult>>, policy: Policy, digest: string -> string)
    requires forall p :: p in parts ==> EvaluatedSession(p)
    ensures SuppressedCount(Flatten(parts)) + |AllFindings(parts, policy, digest)|
            == CountBy(Flatten(parts), IsFail)
  {
    if parts != [] {
      var first, rest := parts[0], Flatten(parts[1..]);
      assert Map(parts, FindingsUnder(policy, digest))[1..]
          == Map(parts[1..], FindingsUnder(policy, digest));
      assert EvaluatedSession(first);
      var sid :| OneSession(first, sid);
      FindingsAndSuppressedAccountForFails(first, sid, policy, digest);
      CaptureFailsAccounted(parts[1..], policy, digest);
      CountAppend(first, rest, Suppressed);
      CountAppend(first, rest, IsFail);
    }
  }

  /** Every assessed capture: deductions are its findings' weights, and every FAIL is accounted for. */
  lemma CaptureAddsUp(inputs: seq<SessionInput>, policy: Policy, digest: string -> string)
    ensures var parts := Map(inputs, ResultsOf(policy));
            && WFailed(UnitsOfParts(parts, policy))
               == SumBy(AllFindings(parts, policy, digest), FindingWeight(policy))
            && SuppressedCount(Flatten(parts)) + |AllFindings(parts, policy, digest)|
               == CountBy(Flatten(parts), IsFail)
  {
    var parts := Map(inputs, ResultsOf(policy));
    forall p | p in parts ensures EvaluatedSession(p) {
      var i :| 0 <= i < |parts| && parts[i] == p;
      SessionResultsShape(inputs[i].context.(policy := policy), inputs[i].evidence);
    }
    CaptureDeductions(parts, policy, digest);
    CaptureFailsAccounted(parts, policy, digest);
  }

  // ---- a capture is never better or worse than all its sessions --------------

  datatype Fraction = Fraction(n: real, d: real)

  function Numerator(f: Fraction): real { f.n }

  function Denominator(f: Fraction): real { f.d }

  ghost predicate Proper(fs: seq<Fraction>) {
    forall f :: f in fs ==> f.d >= 0.0 && (f.d == 0.0 ==> f.n == 0.0)
  }

  lemma Mediant(a: real, b: real, c: real, d: real)
    requires b > 0.0 && d > 0.0
    ensures a / b <= c / d ==> a / b <= (a + c) / (b + d) <= c / d
    ensures c / d <= a / b ==> c / d <= (a + c) / (b + d) <= a / b
  {
    CompareFractions(a, b, a + c, b + d);
    CompareFractions(a + c, b + d, a, b);
    CompareFractions(c, d, a + c, b + d);
    CompareFractions(a + c, b + d, c, d);
    CompareFractions(a, b, c, d);
    CompareFractions(c, d, a, b);
    assert (a + c) * b == a * b + c * b && a * (b + d) == a * b + a * d;
    assert (a + c) * d == a * d + c * d && c * (b + d) == c * b + c * d;
  }

  /** The quotient of sums lies between the least and the greatest of the quotients. */
  lemma {:induction false} QuotientOfSums(fs: seq<Fraction>) returns (lo: nat, hi: nat)
    requires Proper(fs) && SumBy(fs, Denominator) > 0.0
    ensures lo < |fs| && hi < |fs| && fs[lo].d > 0.0 && fs[hi].d > 0.0
    ensures fs[lo].n / fs[lo].d <= SumBy(fs, Numerator) / SumBy(fs, Denominator)
            <= fs[hi].n / fs[hi].d
  {
    var n, d := SumBy(fs[1..], Numerator), SumBy(fs[1..], Denominator);
    assert forall f :: f in fs[1..] ==> f in fs;
    assert fs[0] in fs;
    SumNonNegative(fs[1..], Denominator);
    if d > 0.0 {
      var lo', hi' := QuotientOfSums(fs[1..]);
      lo, hi := lo' + 1, hi' + 1;
      if fs[0].d > 0.0 {
        Mediant(fs[0].n, fs[0].d, n, d);
        if fs[0].n / fs[0].d <= n / d { lo := 0; } else { hi := 0; }
      }
    } else {
      NothingLeft(fs[1..]);
      lo, hi := 0, 0;
    }
  }

  lemma {:induction false} NothingLeft(fs: seq<Fraction>)
    requires Proper(fs) && SumBy(fs, Denominator) <= 0.0
    ensures SumBy(fs, Numerator) == 0.0 && SumBy(fs, Denominator) == 0.0
  {
    if fs != [] {
      assert fs[0] in fs && forall f :: f in fs[1..] ==> f in fs;
      SumNonNegative(fs[1..], Denominator);
      NothingLeft(fs[1..]);
    }
  }

  function ScoreFraction(units: seq<Unit>): Fraction {
    Fraction(100.0 * (WEvaluated(units) - WFailed(units)), WEvaluated(units))
  }

  function CoverageFraction(units: seq<Unit>): Fraction {
    Fraction(WEvaluated(units), WApplicable(units))
  }

  lemma {:induction false} FractionsAddUp(parts: seq<seq<Unit>>)
    ensures SumBy(Map(parts, ScoreFraction), Numerator) == ScoreFraction(Flatten(parts)).n
    ensures SumBy(Map(parts, ScoreFraction), Denominator) == ScoreFraction(Flatten(parts)).d
    ensures SumBy(Map(parts, CoverageFraction), Numerator) == CoverageFraction(Flatten(parts)).n
    ensures SumBy(Map(parts, CoverageFraction), Denominator) == CoverageFraction(Flatten(parts)).d
  {
    if parts != [] {
      var rest := Flatten(parts[1..]);
      FractionsAddUp(parts[1..]);
      assert Map(parts, ScoreFraction)[1..] == Map(parts[1..], ScoreFraction);
      assert Map(parts, CoverageFraction)[1..] == Map(parts[1..], CoverageFraction);
      SumAppend(parts[0], rest, EvaluatedWeight);
      SumAppend(parts[0], rest, FailedWeight);
      SumAppend(parts[0], rest, UndeterminedWeight);
    }
  }

  lemma FractionsProper(parts: seq<seq<Unit>>)
    ensures Proper(Map(parts, ScoreFraction)) && Proper(Map(parts, CoverageFraction))
  {
    forall i | 0 <= i < |parts|
      ensures Proper([ScoreFraction(parts[i])]) && Proper([CoverageFraction(parts[i])])
    {
      WeightsNonNegative(parts[i]);
    }
    var s, c := Map(parts, ScoreFraction), Map(parts, CoverageFraction);
    forall f | f in s ensures f.d >= 0.0 && (f.d == 0.0 ==> f.n == 0.0) {
      var i :| 0 <= i < |s| && s[i] == f;
      assert f in [ScoreFraction(parts[i])];
    }
    forall f | f in c ensures f.d >= 0.0 && (f.d == 0.0 ==> f.n == 0.0) {
      var i :| 0 <= i < |c| && c[i] == f;
      assert f in [CoverageFraction(parts[i])];
    }
  }

  /**
   * The capture's raw score, and its rounded value, lie between those of two of
   * its sessions that have evaluated weight.
   */
  lemma CaptureScoreBetweenSessions(parts: seq<seq<Unit>>) returns (lo: nat, hi: nat)
    requires WEvaluated(Flatten(parts)) > 0.0
    ensures lo < |parts| && hi < |parts|
    ensures WEvaluated(parts[lo]) > 0.0 && WEvaluated(parts[hi]) > 0.0
    ensures Raw(parts[lo]) <= Raw(Flatten(parts)) <= Raw(parts[hi])
    ensures RoundHalfEven(Raw(parts[lo])) <= RoundHalfEven(Raw(Flatten(parts)))
            <= RoundHalfEven(Raw(parts[hi]))
  {
    FractionsAddUp(parts);
    FractionsProper(parts);
    lo, hi := QuotientOfSums(Map(parts, ScoreFraction));
    RoundMonotone(Raw(parts[lo]), Raw(Flatten(parts)));
    RoundMonotone(Raw(Flatten(parts)), Raw(parts[hi]));
  }

  /** The capture's coverage lies between those of two sessions with applicable weight. */
  lemma CaptureCoverageBetweenSessions(parts: seq<seq<Unit>>) returns (lo: nat, hi: nat)
    requires WApplicable(Flatten(parts)) > 0.0
    ensures lo < |parts| && hi < |parts|
    ensures WApplicable(parts[lo]) > 0.0 && WApplicable(parts[hi]) > 0.0
    ensures Coverage(parts[lo]) <= Coverage(Flatten(parts)) <= Coverage(parts[hi])
  {
    FractionsAddUp(parts);
    FractionsProper(parts);
    lo, hi := QuotientOfSums(Map(parts, CoverageFraction));
  }

  lemma {:induction false} PartBelowWhole(parts: seq<seq<Unit>>, i: nat)
    requires i < |parts|
    ensures WEvaluated(parts[i]) <= WEvaluated(Flatten(parts))
  {
    var rest := Flatten(parts[1..]);
    SumAppend(parts[0], rest, EvaluatedWeight);
    WeightsNonNegative(parts[0]);
    WeightsNonNegative(rest);
    if i > 0 { PartBelowWhole(parts[1..], i - 1); }
  }

  /** If every session with anything applicable is sufficient, and there is one, the capture is. */
  lemma SufficientSessionsMakeSufficientCapture(parts: seq<seq<Unit>>, minimum: real)
    requires exists i :: 0 <= i < |parts| && WApplicable(parts[i]) > 0.0
    requires forall i :: 0 <= i < |parts| && WApplicable(parts[i]) > 0.0
                         ==> Sufficient(parts[i], minimum)
    ensures Sufficient(Flatten(parts), minimum)
  {
    var i :| 0 <= i < |parts| && WApplicable(parts[i]) > 0.0;
    PartBelowWhole(parts, i);
    WeightsNonNegative(Flatten(parts));
    var lo, hi := CaptureCoverageBetweenSessions(parts);
  }
}
