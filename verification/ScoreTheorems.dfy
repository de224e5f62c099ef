/** What the score formula guarantees for every collection of units. */
module ScoreTheorems {
  import opened Sorting
  import opened Sums
  import opened Assessment
  import opened Scoring

  // ---- rounding -----------------------------------------------------------

  ghost function Distance(x: real, n: int): real {
    if x >= n as real then x - n as real else n as real - x
  }

  /** `round` picks a nearest integer, and the even one when two are nearest. */
  lemma RoundIsNearestEven(x: real, n: int)
    ensures Distance(x, RoundHalfEven(x)) <= Distance(x, n)
    ensures Distance(x, RoundHalfEven(x)) <= 0.5
    ensures Distance(x, n) == Distance(x, RoundHalfEven(x)) && n != RoundHalfEven(x)
            ==> RoundHalfEven(x) % 2 == 0
  {
    var down := x.Floor;
    assert down as real <= x < down as real + 1.0;
    if n <= down {
      assert n as real <= down as real;
    } else {
      assert n as real >= (down + 1) as real;
    }
  }

  /** Where rounding crosses `n`: at n - 1/2, inclusive exactly when `n` is even. */
  lemma RoundReaches(x: real, n: int)
    ensures RoundHalfEven(x) >= n <==>
            if n % 2 == 0 then x >= n as real - 0.5 else x > n as real - 0.5
  {
    var down := x.Floor;
    assert down as real <= x < down as real + 1.0;
    if down >= n {
      assert down as real >= n as real;
    } else if down < n - 1 {
      assert down as real <= (n - 2) as real;
    } else {
      assert down as real == n as real - 1.0;
    }
  }

  lemma RoundMonotone(x: real, y: real)
    requires x <= y
    ensures RoundHalfEven(x) <= RoundHalfEven(y)
  {
    RoundReaches(x, RoundHalfEven(x));
    RoundReaches(y, RoundHalfEven(x));
  }

  // ---- bands --------------------------------------------------------------

  function BandRank(b: Band): int {
    match b
    case Strong => 3
    case Adequate => 2
    case Weak => 1
    case CriticalBand => 0
    case NotAvailable => -1
  }

  lemma BandMonotone(x: int, y: int)
    requires x <= y
    ensures BandRank(BandOf(x)) <= BandRank(BandOf(y))
  {
  }

  // ---- the weights --------------------------------------------------------

  function PassedWeight(u: Unit): real { if Passed(u) then u.weight else 0.0 }

  lemma {:induction false} EvaluatedSplits(units: seq<Unit>)
    ensures WEvaluated(units) == WFailed(units) + SumBy(units, PassedWeight)
  {
    if units != [] { EvaluatedSplits(units[1..]); }
  }

  lemma WeightsNonNegative(units: seq<Unit>)
    ensures 0.0 <= WFailed(units) <= WEvaluated(units)
    ensures 0.0 <= SumBy(units, PassedWeight)
    ensures 0.0 <= WUnknown(units) && WEvaluated(units) <= WApplicable(units)
  {
    EvaluatedSplits(units);
    SumNonNegative(units, FailedWeight);
    SumNonNegative(units, PassedWeight);
    SumNonNegative(units, UndeterminedWeight);
  }

  lemma CoverageInRange(units: seq<Unit>)
    ensures 0.0 <= Coverage(units) <= 1.0
  {
    WeightsNonNegative(units);
    var e, a := WEvaluated(units), WApplicable(units);
    if a > 0.0 {
      DivideBounds(e, a);
    }
  }

  lemma DivideBounds(e: real, a: real)
    requires 0.0 <= e <= a && a > 0.0
    ensures 0.0 <= e / a <= 1.0
  {
    assert e / a <= a / a == 1.0;
  }

  // ---- the score ----------------------------------------------------------

  lemma CompareQuotient(p: real, e: real, c: real)
    requires e > 0.0
    ensures p / e >= c <==> p >= c * e
    ensures p / e > c <==> p > c * e
    ensures p / e <= c <==> p <= c * e
  {
    var q := p / e;
    assert q * e == p;
    if q >= c { assert q * e >= c * e; } else { assert q * e < c * e; }
    if q > c { assert q * e > c * e; } else { assert q * e <= c * e; }
  }

  /** The raw score lies in 0..100 for every unit collection, so the clamp never fires. */
  lemma ClampNeverFires(units: seq<Unit>)
    requires WEvaluated(units) > 0.0
    ensures 0.0 <= Raw(units) <= 100.0
    ensures 0 <= RoundHalfEven(Raw(units)) <= 100
    ensures Clamp(RoundHalfEven(Raw(units))) == RoundHalfEven(Raw(units))
  {
    WeightsNonNegative(units);
    var e, f := WEvaluated(units), WFailed(units);
    CompareQuotient(100.0 * (e - f), e, 0.0);
    CompareQuotient(100.0 * (e - f), e, 100.0);
    RoundReaches(Raw(units), 0);
    RoundReaches(Raw(units), 101);
  }

  /** Exactly when each reported score boundary is reached, in failed weight. */
  lemma ScoreBoundaries(units: seq<Unit>, policy: Policy)
    requires Sufficient(units, policy.minimumCoverage)
    ensures var p := ComputeScore(units, policy);
            var e, f := WEvaluated(units), WFailed(units);
            && p.score.Some? && 0 <= p.score.value <= 100
            && (p.score.value == 100 <==> 200.0 * f <= e)
            && (p.score.value == 0 <==> 200.0 * (e - f) <= e)
            && (p.band == Strong <==> 200.0 * f <= 21.0 * e)
            && (p.band == Adequate <==> 21.0 * e < 200.0 * f <= 61.0 * e)
            && (p.band == Weak <==> 61.0 * e < 200.0 * f <= 121.0 * e)
            && (p.band == CriticalBand <==> 121.0 * e < 200.0 * f)
  {
    var e, f := WEvaluated(units), WFailed(units);
    var raw := Raw(units);
    ClampNeverFires(units);
    RoundReaches(raw, 100);
    RoundReaches(raw, 1);
    RoundReaches(raw, 90);
    RoundReaches(raw, 70);
    RoundReaches(raw, 40);
    CompareQuotient(100.0 * (e - f), e, 99.5);
    CompareQuotient(100.0 * (e - f), e, 0.5);
    CompareQuotient(100.0 * (e - f), e, 89.5);
    CompareQuotient(100.0 * (e - f), e, 69.5);
    CompareQuotient(100.0 * (e - f), e, 39.5);
  }

  /** A number is reported exactly when evidence was sufficient, and never otherwise. */
  lemma ScoreAvailability(units: seq<Unit>, policy: Policy)
    ensures var p := ComputeScore(units, policy);
            && (p.score.Some? <==> Sufficient(units, policy.minimumCoverage))
            && (p.score.None? <==> p.band == NotAvailable)
            && p.sufficient == p.score.Some?
  {
  }

  // ---- a single unit ------------------------------------------------------

  /** Raising or lowering one unit, in terms of the two weights involved. */
  lemma ReplaceUnit(units: seq<Unit>, i: nat, u: Unit)
    requires i < |units|
    ensures WEvaluated(units[i := u]) ==
            WEvaluated(units) - EvaluatedWeight(units[i]) + EvaluatedWeight(u)
    ensures WFailed(units[i := u]) ==
            WFailed(units) - FailedWeight(units[i]) + FailedWeight(u)
    ensures WUnknown(units[i := u]) ==
            WUnknown(units) - UndeterminedWeight(units[i]) + UndeterminedWeight(u)
    ensures PassedWeight(units[i]) <= WEvaluated(units) - WFailed(units)
    ensures FailedWeight(units[i]) <= WFailed(units)
  {
    SumUpdate(units, i, u, EvaluatedWeight);
    SumUpdate(units, i, u, FailedWeight);
    SumUpdate(units, i, u, UndeterminedWeight);
    EvaluatedSplits(units);
    TermBelowSum(units, i, PassedWeight);
    TermBelowSum(units, i, FailedWeight);
  }

  lemma CompareFractions(p: real, e: real, p': real, e': real)
    requires e > 0.0 && e' > 0.0
    ensures p' / e' <= p / e <==> p' * e <= p * e'
    ensures p' / e' < p / e <==> p' * e < p * e'
  {
    var q, q' := p / e, p' / e';
    assert q * e == p && q' * e' == p';
    assert p' * e == q' * (e * e') && p * e' == q * (e * e');
    var m := e * e';
    assert m > 0.0;
    if q' <= q { assert q' * m <= q * m; } else { assert q' * m > q * m; }
    if q' < q { assert q' * m < q * m; } else { assert q' * m >= q * m; }
  }

  lemma CompareRaw(a: seq<Unit>, b: seq<Unit>)
    requires WEvaluated(a) > 0.0 && WEvaluated(b) > 0.0
    ensures Raw(b) <= Raw(a) <==>
            (WEvaluated(b) - WFailed(b)) * WEvaluated(a)
            <= (WEvaluated(a) - WFailed(a)) * WEvaluated(b)
    ensures Raw(b) < Raw(a) <==>
            (WEvaluated(b) - WFailed(b)) * WEvaluated(a)
            < (WEvaluated(a) - WFailed(a)) * WEvaluated(b)
  {
    var p, e := WEvaluated(a) - WFailed(a), WEvaluated(a);
    var p', e' := WEvaluated(b) - WFailed(b), WEvaluated(b);
    CompareFractions(100.0 * p, e, 100.0 * p', e');
    assert (100.0 * p') * e == 100.0 * (p' * e);
    assert (100.0 * p) * e' == 100.0 * (p * e');
  }

  /** A lower raw score is never reported as a higher score or a better band. */
  lemma ReportFollowsRaw(a: seq<Unit>, b: seq<Unit>, policy: Policy)
    requires Sufficient(a, policy.minimumCoverage) && Sufficient(b, policy.minimumCoverage)
    requires Raw(b) <= Raw(a)
    ensures ComputeScore(b, policy).score.value <= ComputeScore(a, policy).score.value
    ensures BandRank(ComputeScore(b, policy).band) <= BandRank(ComputeScore(a, policy).band)
  {
    ClampNeverFires(a);
    ClampNeverFires(b);
    RoundMonotone(Raw(b), Raw(a));
    BandMonotone(RoundHalfEven(Raw(b)), RoundHalfEven(Raw(a)));
  }

  lemma CrossProduct(p: real, f: real, w: real, w': real)
    requires 0.0 <= w <= p && 0.0 <= f && 0.0 <= w'
    ensures (p - w) * (p + f) <= p * (p - w + f + w')
    ensures p > 0.0 && w' > 0.0 ==> (p - w) * (p + f) < p * (p - w + f + w')
  {
    assert p * (p - w + f + w') - (p - w) * (p + f) == p * w' + w * f;
    assert w * f >= 0.0 && p * w' >= 0.0;
    if p > 0.0 && w' > 0.0 { assert p * w' > 0.0; }
  }

  /**
   * Turning an unfailed unit into a failed one, whatever weight it fails with:
   * the raw score never rises, and falls strictly when something had passed and
   * the failure carries weight.
   */
  lemma NewFailureNeverRaises(units: seq<Unit>, i: nat, u: Unit)
    requires i < |units| && units[i].outcome != Fail && u.outcome == Fail
    requires WEvaluated(units) > 0.0 && WEvaluated(units[i := u]) > 0.0
    ensures Raw(units[i := u]) <= Raw(units)
    ensures u.weight > 0.0 && WEvaluated(units) > WFailed(units)
            ==> Raw(units[i := u]) < Raw(units)
  {
    var f, p := WFailed(units), WEvaluated(units) - WFailed(units);
    var w, w' := PassedWeight(units[i]), FailedWeight(u);
    assert WEvaluated(units[i := u]) == p - w + f + w'
        && WFailed(units[i := u]) == f + w'
        && 0.0 <= w <= p && 0.0 <= f by
    {
      ReplaceUnit(units, i, u);
      WeightsNonNegative(units);
    }
    RawFalls(units, units[i := u], p, f, w, w');
  }

  /** Weight `w` leaves the passed side and `w'` joins the failed side. */
  lemma RawFalls(a: seq<Unit>, b: seq<Unit>, p: real, f: real, w: real, w': real)
    requires WEvaluated(a) == p + f > 0.0 && WFailed(a) == f
    requires WEvaluated(b) == p - w + f + w' > 0.0 && WFailed(b) == f + w'
    requires 0.0 <= w <= p && 0.0 <= f && 0.0 <= w'
    ensures Raw(b) <= Raw(a)
    ensures p > 0.0 && w' > 0.0 ==> Raw(b) < Raw(a)
  {
    hide WEvaluated, WFailed, Raw;
    CompareRaw(a, b);
    CrossProduct(p, f, w, w');
  }

  lemma SameNumerator(p: real, e: real, e': real)
    requires p >= 0.0
    ensures p * e <= p * e' <==> p == 0.0 || e <= e'
  {
    if p > 0.0 && e > e' { assert p * e > p * e'; }
    if e <= e' { assert p * e <= p * e'; }
  }

  /** With the passed weight unchanged, the raw score rises exactly when less is evaluated. */
  lemma SamePassedWeight(a: seq<Unit>, b: seq<Unit>)
    requires WEvaluated(a) > 0.0 && WEvaluated(b) > 0.0
    requires WEvaluated(a) - WFailed(a) == WEvaluated(b) - WFailed(b)
    ensures Raw(b) > Raw(a) <==>
            WEvaluated(b) < WEvaluated(a) && WEvaluated(a) > WFailed(a)
  {
    CompareRaw(a, b);
    WeightsNonNegative(a);
    SameNumerator(WEvaluated(a) - WFailed(a), WEvaluated(a), WEvaluated(b));
  }

  /**
   * A failed unit that stays failed under a different weight raises the raw
   * score exactly when the weight goes down while something passed.
   */
  lemma ReweightedFailure(units: seq<Unit>, i: nat, u: Unit)
    requires i < |units| && units[i].outcome == Fail && u.outcome == Fail
    requires WEvaluated(units) > 0.0 && WEvaluated(units[i := u]) > 0.0
    ensures Raw(units[i := u]) > Raw(units) <==>
            FailedWeight(u) < FailedWeight(units[i]) && WEvaluated(units) > WFailed(units)
  {
    ReplaceUnit(units, i, u);
    SamePassedWeight(units, units[i := u]);
  }

  /**
   * Losing the evidence of a failure: replacing a FAIL unit by an UNKNOWN one
   * raises the raw score exactly when the failure had weight and something
   * passed. Only adding an UNKNOWN is neutral.
   */
  lemma ForgettingAFailure(units: seq<Unit>, i: nat, u: Unit)
    requires i < |units| && units[i].outcome == Fail && u.outcome == Unknown
    requires WEvaluated(units) > 0.0 && WEvaluated(units[i := u]) > 0.0
    ensures Raw(units[i := u]) > Raw(units) <==>
            units[i].weight > 0.0 && WEvaluated(units) > WFailed(units)
  {
    ReplaceUnit(units, i, u);
    SamePassedWeight(units, units[i := u]);
  }

  /** Adding an UNKNOWN or NOT_APPLICABLE unit anywhere: neutral to the score. */
  lemma AddingUnknownIsNeutral(before: seq<Unit>, after: seq<Unit>, u: Unit)
    requires u.outcome == Unknown || (u.outcome == NotApplicable)
    ensures var with := before + [u] + after;
            var without := before + after;
            && WEvaluated(with) == WEvaluated(without)
            && WFailed(with) == WFailed(without)
            && (WEvaluated(without) > 0.0 ==> Raw(with) == Raw(without))
            && Coverage(with) <= Coverage(without)
            && (u.outcome == NotApplicable ==> Coverage(with) == Coverage(without))
  {
    var with, without := before + [u] + after, before + after;
    forall f ensures SumBy(with, f) == SumBy(without, f) + f(u) {
      SumAppend(before + [u], after, f);
      SumAppend(before, [u], f);
      SumAppend(before, after, f);
      assert SumBy([u], f) == f(u) + SumBy([u][1..], f);
    }
    WeightsNonNegative(with);
    WeightsNonNegative(without);
    var e, a, a' := WEvaluated(without), WApplicable(without), WApplicable(with);
    if a > 0.0 {
      CompareFractions(e, a, e, a');
      assert e * a <= e * a';
    } else if a' > 0.0 {
      assert e == 0.0;
    }
  }
}
