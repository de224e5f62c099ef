/** Finite sums and counts over sequences, the shape of every total in the score. */
module Sums {

  function SumBy<T>(s: seq<T>, f: T -> real): real {
    if s == [] then 0.0 else f(s[0]) + SumBy(s[1..], f)
  }

  function CountBy<T>(s: seq<T>, p: T -> bool): nat {
    if s == [] then 0 else (if p(s[0]) then 1 else 0) + CountBy(s[1..], p)
  }

  function Filter<T>(s: seq<T>, p: T -> bool): (r: seq<T>)
    ensures forall x :: x in r ==> x in s && p(x)
    ensures forall x :: x in s && p(x) ==> x in r
  {
    if s == [] then []
    else if p(s[0]) then [s[0]] + Filter(s[1..], p)
    else Filter(s[1..], p)
  }

  function Map<T, U>(s: seq<T>, f: T -> U): (r: seq<U>)
    ensures |r| == |s|
    ensures forall i :: 0 <= i < |s| ==> r[i] == f(s[i])
  {
    seq(|s|, i requires 0 <= i < |s| => f(s[i]))
  }

  function Flatten<T>(parts: seq<seq<T>>): seq<T> {
    if parts == [] then [] else parts[0] + Flatten(parts[1..])
  }

  lemma {:induction false} SumAppend<T>(a: seq<T>, b: seq<T>, f: T -> real)
    ensures SumBy(a + b, f) == SumBy(a, f) + SumBy(b, f)
  {
    if a == [] {
      assert a + b == b;
    } else {
      assert (a + b)[1..] == a[1..] + b;
      SumAppend(a[1..], b, f);
    }
  }

  lemma {:induction false} CountAppend<T>(a: seq<T>, b: seq<T>, p: T -> bool)
    ensures CountBy(a + b, p) == CountBy(a, p) + CountBy(b, p)
  {
    if a == [] {
      assert a + b == b;
    } else {
      assert (a + b)[1..] == a[1..] + b;
      CountAppend(a[1..], b, p);
    }
  }

  lemma {:induction false} FilterAppend<T>(a: seq<T>, b: seq<T>, p: T -> bool)
    ensures Filter(a + b, p) == Filter(a, p) + Filter(b, p)
  {
    if a == [] {
      assert a + b == b;
    } else {
      assert (a + b)[1..] == a[1..] + b;
      FilterAppend(a[1..], b, p);
    }
  }

  lemma {:induction false} FlattenAppend<T>(a: seq<seq<T>>, b: seq<seq<T>>)
    ensures Flatten(a + b) == Flatten(a) + Flatten(b)
  {
    if a == [] {
      assert a + b == b;
    } else {
      assert (a + b)[1..] == a[1..] + b;
      FlattenAppend(a[1..], b);
    }
  }

  lemma RemoveAt<T>(b: seq<T>, k: nat)
    requires k < |b|
    ensures b == b[..k] + ([b[k]] + b[k + 1..])
    ensures multiset(b[..k] + b[k + 1..]) == multiset(b) - multiset{b[k]}
  {
    assert b == b[..k] + [b[k]] + b[k + 1..];
  }

  lemma RemoveFirst<T>(a: seq<T>)
    requires a != []
    ensures multiset(a[1..]) == multiset(a) - multiset{a[0]}
  {
    assert a == [a[0]] + a[1..];
  }

  /** A sum sees a collection, not an order. */
  lemma {:induction false} SumPermute<T>(a: seq<T>, b: seq<T>, f: T -> real)
    requires multiset(a) == multiset(b)
    ensures SumBy(a, f) == SumBy(b, f)
  {
    assert |a| == |multiset(a)| && |b| == |multiset(b)|;
    if a != [] {
      assert a[0] in multiset(b);
      var k :| 0 <= k < |b| && b[k] == a[0];
      var rest := b[..k] + b[k + 1..];
      RemoveFirst(a);
      RemoveAt(b, k);
      SumPermute(a[1..], rest, f);
      SumAppend(b[..k], b[k + 1..], f);
      SumAppend(b[..k], [b[k]] + b[k + 1..], f);
    }
  }

  lemma {:induction false} CountPermute<T>(a: seq<T>, b: seq<T>, p: T -> bool)
    requires multiset(a) == multiset(b)
    ensures CountBy(a, p) == CountBy(b, p)
  {
    assert |a| == |multiset(a)| && |b| == |multiset(b)|;
    if a != [] {
      assert a[0] in multiset(b);
      var k :| 0 <= k < |b| && b[k] == a[0];
      var rest := b[..k] + b[k + 1..];
      RemoveFirst(a);
      RemoveAt(b, k);
      CountPermute(a[1..], rest, p);
      CountAppend(b[..k], b[k + 1..], p);
      CountAppend(b[..k], [b[k]] + b[k + 1..], p);
    }
  }

  /** Replacing one element moves the sum by the difference of the two terms. */
  lemma {:induction false} SumUpdate<T>(s: seq<T>, i: nat, x: T, f: T -> real)
    requires i < |s|
    ensures SumBy(s[i := x], f) == SumBy(s, f) - f(s[i]) + f(x)
  {
    if i > 0 {
      assert s[i := x][1..] == s[1..][i - 1 := x];
      SumUpdate(s[1..], i - 1, x, f);
    } else {
      assert s[i := x][1..] == s[1..];
    }
  }

  lemma {:induction false} CountUpdate<T>(s: seq<T>, i: nat, x: T, p: T -> bool)
    requires i < |s|
    ensures CountBy(s[i := x], p) ==
            CountBy(s, p) - (if p(s[i]) then 1 else 0) + (if p(x) then 1 else 0)
  {
    if i > 0 {
      assert s[i := x][1..] == s[1..][i - 1 := x];
      CountUpdate(s[1..], i - 1, x, p);
    } else {
      assert s[i := x][1..] == s[1..];
    }
  }

  lemma {:induction false} SumNonNegative<T>(s: seq<T>, f: T -> real)
    requires forall x :: x in s ==> f(x) >= 0.0
    ensures SumBy(s, f) >= 0.0
  {
    if s != [] { SumNonNegative(s[1..], f); }
  }

  lemma {:induction false} TermBelowSum<T>(s: seq<T>, i: nat, f: T -> real)
    requires i < |s|
    requires forall x :: x in s ==> f(x) >= 0.0
    ensures f(s[i]) <= SumBy(s, f)
  {
    if i > 0 {
      TermBelowSum(s[1..], i - 1, f);
    } else {
      SumNonNegative(s[1..], f);
    }
  }

  /** Mapping first and summing after is summing the composed term. */
  lemma {:induction false} SumOfMap<T, U>(s: seq<T>, m: T -> U, f: U -> real, g: T -> real)
    requires forall x :: x in s ==> f(m(x)) == g(x)
    ensures SumBy(Map(s, m), f) == SumBy(s, g)
  {
    if s != [] {
      assert Map(s, m)[1..] == Map(s[1..], m);
      SumOfMap(s[1..], m, f, g);
    }
  }

  lemma {:induction false} CountOfMap<T, U>(s: seq<T>, m: T -> U, p: U -> bool, q: T -> bool)
    requires forall x :: x in s ==> p(m(x)) == q(x)
    ensures CountBy(Map(s, m), p) == CountBy(s, q)
  {
    if s != [] {
      assert Map(s, m)[1..] == Map(s[1..], m);
      CountOfMap(s[1..], m, p, q);
    }
  }

  /** Terms outside the filter contribute nothing when they are zero. */
  lemma {:induction false} SumOfFilter<T>(s: seq<T>, p: T -> bool, f: T -> real)
    requires forall x :: x in s && !p(x) ==> f(x) == 0.0
    ensures SumBy(Filter(s, p), f) == SumBy(s, f)
  {
    if s != [] { SumOfFilter(s[1..], p, f); }
  }

  lemma {:induction false} CountOfFilter<T>(s: seq<T>, p: T -> bool, q: T -> bool)
    requires forall x :: x in s && !p(x) ==> !q(x)
    ensures CountBy(Filter(s, p), q) == CountBy(s, q)
  {
    if s != [] { CountOfFilter(s[1..], p, q); }
  }

  lemma {:induction false} CountIsFilterLength<T>(s: seq<T>, p: T -> bool)
    ensures CountBy(s, p) == |Filter(s, p)|
  {
    if s != [] { CountIsFilterLength(s[1..], p); }
  }

  lemma {:induction false} FilterPermute<T>(a: seq<T>, b: seq<T>, p: T -> bool)
    requires multiset(a) == multiset(b)
    ensures multiset(Filter(a, p)) == multiset(Filter(b, p))
  {
    assert |a| == |multiset(a)| && |b| == |multiset(b)|;
    if a != [] {
      assert a[0] in multiset(b);
      var k :| 0 <= k < |b| && b[k] == a[0];
      RemoveFirst(a);
      RemoveAt(b, k);
      FilterPermute(a[1..], b[..k] + b[k + 1..], p);
      FilterSplit(b, k, p);
    }
  }

  lemma FilterSplit<T>(s: seq<T>, k: nat, p: T -> bool)
    requires k < |s|
    ensures multiset(Filter(s, p)) ==
            multiset(Filter(s[..k] + s[k + 1..], p)) + if p(s[k]) then multiset{s[k]} else multiset{}
  {
    var front, tail := s[..k], s[k..];
    FilterAppend(front, s[k + 1..], p);
    FilterAppend(front, tail, p);
    assert s == front + tail && tail[1..] == s[k + 1..];
  }

  lemma MapAppend<T, U>(a: seq<T>, b: seq<T>, f: T -> U)
    ensures Map(a + b, f) == Map(a, f) + Map(b, f)
  {
  }

  lemma {:induction false} MapPermute<T, U>(a: seq<T>, b: seq<T>, f: T -> U)
    requires multiset(a) == multiset(b)
    ensures multiset(Map(a, f)) == multiset(Map(b, f))
  {
    assert |a| == |multiset(a)| && |b| == |multiset(b)|;
    if a != [] {
      assert a[0] in multiset(b);
      var k :| 0 <= k < |b| && b[k] == a[0];
      RemoveFirst(a);
      RemoveAt(b, k);
      MapPermute(a[1..], b[..k] + b[k + 1..], f);
      MapStep(a, b, k, f);
    }
  }

  lemma MapStep<T, U>(a: seq<T>, b: seq<T>, k: nat, f: T -> U)
    requires a != [] && k < |b| && b[k] == a[0]
    requires multiset(Map(a[1..], f)) == multiset(Map(b[..k] + b[k + 1..], f))
    ensures multiset(Map(a, f)) == multiset(Map(b, f))
  {
    MapHead(a, f);
    MapSplit(b, k, f);
  }

  lemma MapHead<T, U>(a: seq<T>, f: T -> U)
    requires a != []
    ensures multiset(Map(a, f)) == multiset(Map(a[1..], f)) + multiset{f(a[0])}
  {
    assert Map(a, f) == [f(a[0])] + Map(a[1..], f);
  }

  lemma MapSplit<T, U>(s: seq<T>, k: nat, f: T -> U)
    requires k < |s|
    ensures multiset(Map(s, f)) == multiset(Map(s[..k] + s[k + 1..], f)) + multiset{f(s[k])}
  {
    MapAppend(s[..k], s[k + 1..], f);
    assert Map(s, f) == Map(s[..k], f) + [f(s[k])] + Map(s[k + 1..], f);
  }

  /** Part by part equal sums give equal sums of the whole. */
  lemma {:induction false} FlattenedSumsAgree<A, B>(
    a: seq<seq<A>>, b: seq<seq<B>>, f: A -> real, g: B -> real)
    requires |a| == |b|
    requires forall i :: 0 <= i < |a| ==> SumBy(a[i], f) == SumBy(b[i], g)
    ensures SumBy(Flatten(a), f) == SumBy(Flatten(b), g)
  {
    if a != [] {
      FlattenedSumsAgree(a[1..], b[1..], f, g);
      SumAppend(a[0], Flatten(a[1..]), f);
      SumAppend(b[0], Flatten(b[1..]), g);
    }
  }

  lemma FlattenSnoc<T>(parts: seq<seq<T>>, last: seq<T>)
    ensures Flatten(parts + [last]) == Flatten(parts) + last
  {
    FlattenAppend(parts, [last]);
    assert [last][1..] == [];
  }
}
