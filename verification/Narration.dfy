/** The chatter and window loops of the narration checker (scripts/check_narration.py). */
module Narration {
  const FRAME_MS: int := 20
  const CHATTER_MIN_PERIOD_MS: int := 60
  const CHATTER_MAX_PERIOD_MS: int := 200

  // ---- runs of evenly spaced bursts -----------------------------------------

  predicate GapInRange(first: int, second: int) {
    CHATTER_MIN_PERIOD_MS <= (second - first) * FRAME_MS <= CHATTER_MAX_PERIOD_MS
  }

  /** In frames of 20 ms: three to ten of them apart. */
  lemma GapInFrames(first: int, second: int)
    ensures GapInRange(first, second) <==> 3 <= second - first <= 10
  {
  }

  /** `k` consecutive noisy frames from position `i`, every adjacent gap in range. */
  ghost predicate Burst(noisy: seq<int>, i: int, k: int) {
    && 0 <= i && 1 <= k && i + k <= |noisy|
    && forall j :: i < j < i + k ==> GapInRange(noisy[j - 1], noisy[j])
  }

  /** The longest chatter run is reported; a single burst is none. */
  method ChatterRun(noisy: seq<int>) returns (chatter: nat)
    ensures chatter == 0 || (chatter >= 2 && exists i :: Burst(noisy, i, chatter))
    ensures forall i, k :: k >= 2 && Burst(noisy, i, k) ==> k <= chatter
  {
    chatter := 0;
    var run := 1;
    var second := 1;
    while second < |noisy|
      invariant 1 <= run <= second && (second <= |noisy| || noisy == [])
      invariant noisy != [] ==> LongestEndingAt(noisy, second, run)
      invariant run >= 2 ==> run <= chatter
      invariant chatter == 0 || (chatter >= 2 && exists i :: Burst(noisy, i, chatter))
      invariant forall i, k :: k >= 2 && Burst(noisy, i, k) && i + k <= second ==> k <= chatter
    {
      if GapInRange(noisy[second - 1], noisy[second]) {
        run := run + 1;
        chatter := if chatter < run then run else chatter;
      } else {
        run := 1;
      }
      second := second + 1;
      assert LongestEndingAt(noisy, second, run);
      assert Burst(noisy, second - run, run);
      forall i, k | k >= 2 && Burst(noisy, i, k) && i + k == second ensures k <= run {
        BurstsEndingHere(noisy, second, run, i, k);
      }
    }
  }

  /** The last `run` positions before `end` form a burst, and one more would not. */
  ghost predicate LongestEndingAt(noisy: seq<int>, end: int, run: int) {
    && 1 <= run <= end <= |noisy|
    && Burst(noisy, end - run, run)
    && (run < end ==> !GapInRange(noisy[end - run - 1], noisy[end - run]))
  }

  lemma BurstsEndingHere(noisy: seq<int>, end: int, run: int, i: int, k: int)
    requires LongestEndingAt(noisy, end, run)
    requires Burst(noisy, i, k) && i + k == end
    ensures k <= run
  {
    assert k > run ==> i < end - run < i + k;
  }

  // ---- overlapping windows -----------------------------------------------------

  datatype Scan = BadStep | Analysed(starts: seq<int>)

  /** Python's `int(…)` on a float: towards zero. */
  function Truncated(x: real): int { if x >= 0.0 then x.Floor else -((-x).Floor) }

  /** The integer part: never further from zero, and less than one short of it. */
  lemma TruncatedTowardsZero(x: real)
    ensures x >= 0.0 ==> 0.0 <= Truncated(x) as real <= x < Truncated(x) as real + 1.0
    ensures x <= 0.0 ==> Truncated(x) as real - 1.0 < x <= Truncated(x) as real <= 0.0
  {
  }

  /** `max(1, len(samples) - step)`. */
  function Limit(n: nat, step: int): int { if n - step > 1 then n - step else 1 }

  /** `len(samples[start:start + size])`. */
  function ChunkLength(n: nat, size: nat, start: nat): nat {
    if start >= n then 0 else if start + size <= n then size else n - start
  }

  /** A position `scan_mix` analyses: on the grid, before the limit, long enough. */
  predicate IsStart(n: nat, rate: nat, size: nat, s: int)
    requires size / 2 > 0
  {
    0 <= s < Limit(n, size / 2) && s % (size / 2) == 0 && ChunkLength(n, size, s) >= rate
  }

  /**
   * Which windows those are, said of the samples: the first, and every later one on the grid
   * that still has more than half a window before the end, as long as it holds a second.
   */
  lemma StartsInTrack(n: nat, rate: nat, size: nat, s: int)
    requires size / 2 > 0
    ensures IsStart(n, rate, size, s) <==>
            && s >= 0 && s % (size / 2) == 0
            && (s == 0 || s + size / 2 < n)
            && (rate == 0 || (s + rate <= n && rate <= size))
  {
  }

  ghost predicate StrictlyIncreasing(s: seq<int>) { forall i, j :: 0 <= i < j < |s| ==> s[i] < s[j] }

  /** The loop stops at the first short chunk, and that loses no later window. */
  method ScanMix(n: nat, rate: nat, window: real) returns (scan: Scan)
    ensures scan == BadStep <==> Truncated(window * rate as real) / 2 == 0
    ensures Truncated(window * rate as real) < 0 ==> scan == Analysed([])
    ensures scan.Analysed? && Truncated(window * rate as real) > 0 ==>
      forall s :: s in scan.starts <==> IsStart(n, rate, Truncated(window * rate as real), s)
    ensures scan.Analysed? ==> StrictlyIncreasing(scan.starts)
  {
    var size := Truncated(window * rate as real);
    var step := size / 2;
    if step == 0 { return BadStep; }
    var starts: seq<int> := [];
    if step < 0 { return Analysed(starts); }
    var start := 0;
    while start < Limit(n, step)
      invariant 0 <= start && start % step == 0
      invariant forall s :: s in starts <==> IsStart(n, rate, size, s) && s < start
      invariant StrictlyIncreasing(starts) && forall i :: 0 <= i < |starts| ==> starts[i] < start
    {
      if ChunkLength(n, size, start) < rate { break; }
      starts := starts + [start];
      NextOnGrid(start, step);
      start := start + step;
    }
    scan := Analysed(starts);
  }

  /** No multiple of `step` lies strictly between a multiple and the next. */
  lemma NextOnGrid(start: nat, step: nat)
    requires step > 0 && start % step == 0
    ensures (start + step) % step == 0
    ensures forall s | start < s < start + step :: s % step != 0
  {
    Division(start, step, start / step, 0);
    Division(start + step, step, start / step + 1, 0);
    forall s | start < s < start + step ensures s % step != 0 {
      Division(s, step, start / step, s - start);
    }
  }

  /** The only multiple of `d` closer to zero than `d` is zero. */
  lemma OnlyMultiple(d: int, k: int, m: int)
    requires d * k == m && -d < m < d
    ensures k == 0
  {
    assert k >= 1 ==> d * k >= d * 1;
    assert k <= -1 ==> d * k <= d * -1;
  }

  lemma Division(a: nat, d: nat, q: nat, r: nat)
    requires d > 0 && r < d && a == d * (a / d) + a % d
    ensures a == d * q + r ==> a / d == q && a % d == r
  {
    if a == d * q + r { OnlyMultiple(d, a / d - q, r - a % d); }
  }

  /** Some analysed window holds the whole of `[a, b)`. */
  ghost predicate Seen(n: nat, rate: nat, size: nat, a: int, b: int)
    requires size / 2 > 0
  {
    exists s :: IsStart(n, rate, size, s) && s <= a && b <= s + size
  }

  /** Every stretch of at most half a window is seen whole by some window. */
  ghost predicate EveryBurstSeen(n: nat, rate: nat, size: nat)
    requires size / 2 > 0
  {
    forall a, b :: 0 <= a < b <= n && b - a <= size / 2 ==> Seen(n, rate, size, a, b)
  }

  /** The last multiple of `step` not after `x`. */
  function GridBelow(x: nat, step: nat): (g: nat)
    requires step > 0
    ensures g <= x < g + step && g % step == 0
  {
    Division(x - x % step, step, x / step, 0);
    x - x % step
  }

  lemma GridBelowIsLast(x: nat, step: nat, s: nat)
    requires step > 0 && s <= x && s % step == 0
    ensures s <= GridBelow(x, step)
  {
    NextOnGrid(GridBelow(x, step), step);
  }

  /** Half a window at least as long as the shortest chunk: a second is enough. */
  lemma LongStepsSee(n: nat, rate: nat, size: nat, a: nat, b: nat)
    requires 0 < size / 2 && rate <= size / 2 && rate <= n
    requires a < b <= n && b - a <= size / 2
    ensures Seen(n, rate, size, a, b)
  {
    var step := size / 2;
    var own, last := GridBelow(a, step), GridBelow(Limit(n, step) - 1, step);
    if own < Limit(n, step) {
      assert IsStart(n, rate, size, own);
    } else {
      assert IsStart(n, rate, size, last);
    }
  }

  /** Shorter steps: the scan stops `rate` samples from the end. */
  lemma ShortStepsSee(n: nat, rate: nat, size: nat, a: nat, b: nat)
    requires 0 < size / 2 < rate <= size && rate <= n
    requires rate + (n - rate) % (size / 2) <= size
    requires a < b <= n && b - a <= size / 2
    ensures Seen(n, rate, size, a, b)
  {
    var step := size / 2;
    var own, last := GridBelow(a, step), GridBelow(n - rate, step);
    if own <= n - rate {
      assert IsStart(n, rate, size, own);
    } else {
      assert IsStart(n, rate, size, last);
    }
  }

  lemma ShortStepsMiss(n: nat, rate: nat, size: nat)
    requires 0 < size / 2 < rate <= size && rate <= n
    requires rate + (n - rate) % (size / 2) > size
    ensures !Seen(n, rate, size, n - 1, n)
  {
    forall s | IsStart(n, rate, size, s) ensures s + size < n {
      GridBelowIsLast(n - rate, size / 2, s);
    }
  }

  /**
   * The windows see every burst of half a window or less exactly when the track and
   * the window last a second and the last window kept reaches the end of the track.
   */
  lemma WindowsSeeEveryBurst(n: nat, rate: nat, size: nat)
    requires n > 0 && size / 2 > 0
    ensures EveryBurstSeen(n, rate, size) <==>
            && rate <= n && rate <= size
            && (rate <= size / 2 || rate + (n - rate) % (size / 2) <= size)
  {
    if n < rate || size < rate {
      assert !Seen(n, rate, size, 0, 1);
    } else if rate <= size / 2 {
      forall a, b | 0 <= a < b <= n && b - a <= size / 2 ensures Seen(n, rate, size, a, b) {
        LongStepsSee(n, rate, size, a, b);
      }
    } else if rate + (n - rate) % (size / 2) <= size {
      forall a, b | 0 <= a < b <= n && b - a <= size / 2 ensures Seen(n, rate, size, a, b) {
        ShortStepsSee(n, rate, size, a, b);
      }
    } else {
      ShortStepsMiss(n, rate, size);
    }
  }

  /** With the default six-second window, any track of a second or more is covered. */
  lemma DefaultWindowSuffices(n: nat, rate: nat)
    requires rate > 0 && n > 0
    ensures var size := Truncated(6.0 * rate as real);
            size == 6 * rate && (EveryBurstSeen(n, rate, size) <==> rate <= n)
  {
    assert 6.0 * rate as real == (6 * rate) as real;
    WindowsSeeEveryBurst(n, rate, 6 * rate);
  }
}
