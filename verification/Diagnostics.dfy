/**
 * The bounded warning collector (diagnostics.py) and the routing of what it
 * collected to the sessions it is about (pipeline.py).
 */
module Diagnostics {
  import opened Orders
  import opened Sorting
  import opened Assessment

  const SUPPRESSED_CODE := "WARNINGS_SUPPRESSED"

  datatype Details = Plain(text: string) | Summary(code: string, total: nat, emitted: nat)

  datatype Warning = Warning(
    code: string, severity: string, captureId: Option<string>, sessionId: Option<string>,
    details: Details)

  // ---- what a sink should hold --------------------------------------------

  /** The warnings with this code, in order. */
  function OfCode(ws: seq<Warning>, code: string): seq<Warning> {
    if ws == [] then []
    else OfCode(ws[..|ws| - 1], code) + if ws[|ws| - 1].code == code then [ws[|ws| - 1]] else []
  }

  function Tally(ws: seq<Warning>, code: string): nat { |OfCode(ws, code)| }

  function Min(a: nat, b: nat): nat { if a < b then a else b }

  /** Of everything that arrived, what a cap of `cap` per code lets through. */
  function Kept(arrivals: seq<Warning>, cap: nat): seq<Warning> {
    if arrivals == [] then []
    else
      var front, last := arrivals[..|arrivals| - 1], arrivals[|arrivals| - 1];
      Kept(front, cap) + if Tally(front, last.code) < cap then [last] else []
  }

  function Adopted(w: Warning, captureId: Option<string>): Warning {
    if w.captureId.None? then w.(captureId := captureId) else w
  }

  /** Every warning, with the capture id filled in where it is missing. */
  function AdoptedAll(ws: seq<Warning>, captureId: Option<string>): seq<Warning> {
    seq(|ws|, i requires 0 <= i < |ws| => Adopted(ws[i], captureId))
  }

  /** `Counter`: a code never counted reads as zero. */
  function Lookup(counts: map<string, nat>, code: string): nat {
    if code in counts then counts[code] else 0
  }

  ghost predicate Counted(counts: map<string, nat>, arrivals: seq<Warning>) {
    && (forall c | c in counts :: counts[c] > 0)
    && (forall c :: Lookup(counts, c) == Tally(arrivals, c))
  }

  /** Every warning says which capture it is from. */
  predicate AllPlaced(ws: seq<Warning>) { forall w | w in ws :: w.captureId.Some? }

  // ---- the collector --------------------------------------------------------

  class WarningSink {
    var captureId: Option<string>
    const maxPerCode: nat
    var warnings: seq<Warning>
    var counts: map<string, nat>
    /** Everything reported so far, suppressed or not, with its current capture id. */
    ghost var arrivals: seq<Warning>

    ghost predicate Valid()
      reads this
    {
      && maxPerCode >= 1
      && warnings == Kept(arrivals, maxPerCode)
      && Counted(counts, arrivals)
      && (captureId.Some? ==> AllPlaced(arrivals))
    }

    /** The caller has already refused a cap below one (`Create`). */
    constructor (id: Option<string>, cap: int)
      requires cap >= 1
      ensures Valid() && arrivals == [] && captureId == id && maxPerCode == cap
    {
      captureId, maxPerCode, warnings, counts := id, cap, [], map[];
      arrivals := [];
    }

    /** `self._counts[code] += 1`, and the append unless that passed the cap. */
    method Record(w: Warning)
      requires Valid() && (captureId.Some? ==> w.captureId.Some?)
      modifies this`counts, this`warnings, this`arrivals
      ensures Valid() && arrivals == old(arrivals) + [w]
    {
      CountedNext(counts, arrivals, w);
      KeptOfNext(arrivals, w, maxPerCode);
      counts := counts[w.code := Lookup(counts, w.code) + 1];
      arrivals := arrivals + [w];
      if counts[w.code] <= maxPerCode {
        warnings := warnings + [w];
      }
    }

    method BindCapture(id: string)
      requires Valid()
      modifies this
      ensures Valid() && captureId == Some(id) && counts == old(counts)
      ensures arrivals == AdoptedAll(old(arrivals), Some(id))
      ensures AllPlaced(warnings)
    {
      hide Kept, Counted, AllPlaced, AdoptedAll;
      captureId := Some(id);
      ghost var before := warnings;
      var i := 0;
      while i < |warnings|
        invariant 0 <= i <= |warnings| == |before|
        invariant counts == old(counts) && arrivals == old(arrivals) && captureId == Some(id)
        invariant forall k :: 0 <= k < i ==> warnings[k] == Adopted(before[k], Some(id))
        invariant forall k :: i <= k < |before| ==> warnings[k] == before[k]
      {
        if warnings[i].captureId.None? {
          warnings := warnings[i := warnings[i].(captureId := Some(id))];
        }
        i := i + 1;
      }
      PointwiseAdopted(before, warnings, Some(id));
      KeptAdopted(arrivals, maxPerCode, Some(id));
      CountedAdopted(counts, arrivals, Some(id));
      AdoptedArePlaced(before, id);
      AdoptedArePlaced(arrivals, id);
      arrivals := AdoptedAll(arrivals, Some(id));
    }

    method Add(code: string, severity: string, sessionId: Option<string>, text: string)
      requires Valid()
      modifies this
      ensures Valid() && captureId == old(captureId)
      ensures arrivals == old(arrivals) + [Warning(code, severity, captureId, sessionId, Plain(text))]
    {
      Record(Warning(code, severity, captureId, sessionId, Plain(text)));
    }

    method Extend(ws: seq<Warning>)
      requires Valid()
      modifies this
      ensures Valid() && captureId == old(captureId)
      ensures arrivals == old(arrivals) + AdoptedAll(ws, captureId)
    {
      var i := 0;
      while i < |ws|
        invariant 0 <= i <= |ws|
        invariant Valid() && captureId == old(captureId)
        invariant arrivals == old(arrivals) + AdoptedAll(ws[..i], captureId)
      {
        Record(Adopted(ws[i], captureId));
        AdoptedNext(ws, i, captureId);
        i := i + 1;
      }
      assert ws[..|ws|] == ws;
    }

    method Count(code: string) returns (n: nat)
      requires Valid()
      ensures n == Tally(arrivals, code)
    {
      n := Lookup(counts, code);
    }

    /** The codes met so far, as `sorted` lists them. */
    method SortedCodes() returns (codes: seq<string>)
      requires Valid()
      ensures Enumerates(codes, arrivals)
    {
      var left := counts.Keys;
      codes := [];
      while left != {}
        invariant NoDuplicates(codes)
        invariant left <= counts.Keys
        invariant forall c :: c in codes <==> c in counts && c !in left
        decreases left
      {
        var c :| c in left;
        left := left - {c};
        codes := codes + [c];
      }
      ghost var unsorted := codes;
      codes := SortBy(codes, c => [Text(c)]);
      SortByStrict(unsorted, c => [Text(c)]);
      SameElements(codes, unsorted);
    }

    /** The loop of `collect` over the sorted codes. */
    method WithSummaries(codes: seq<string>) returns (result: seq<Warning>)
      requires Valid()
      ensures result == Collected(codes, arrivals, maxPerCode, captureId)
    {
      result := warnings;
      var i := 0;
      while i < |codes|
        invariant 0 <= i <= |codes|
        invariant result == Collected(codes[..i], arrivals, maxPerCode, captureId)
      {
        var total := Lookup(counts, codes[i]);
        CollectedNext(codes[..i], codes[i], arrivals, maxPerCode, captureId);
        assert codes[..i + 1] == codes[..i] + [codes[i]];
        if total > maxPerCode {
          result := result + [SummaryOf(codes[i], total, maxPerCode, captureId)];
        }
        i := i + 1;
      }
      assert codes[..|codes|] == codes;
    }

    method Collect() returns (result: seq<Warning>)
      requires Valid()
      ensures exists codes | Enumerates(codes, arrivals) ::
        result == Collected(codes, arrivals, maxPerCode, captureId)
      ensures captureId.Some? ==> AllPlaced(result)
    {
      var codes := SortedCodes();
      result := WithSummaries(codes);
      if captureId.Some? {
        CollectedArePlaced(codes, arrivals, maxPerCode, captureId);
      }
    }
  }

  /** `WarningSink(…)`: a cap below one is refused. */
  method Create(id: Option<string>, cap: int) returns (sink: WarningSink?)
    ensures sink == null <==> cap < 1
    ensures sink != null ==> fresh(sink) && sink.Valid() && sink.arrivals == []
    ensures sink != null ==> sink.captureId == id && sink.maxPerCode == cap
  {
    if cap < 1 {
      sink := null;
    } else {
      sink := new WarningSink(id, cap);
    }
  }

  // ---- what the fold over arrivals means -------------------------------------

  lemma TallyOfNext(front: seq<Warning>, w: Warning)
    ensures forall c :: Tally(front + [w], c) == Tally(front, c) + if w.code == c then 1 else 0
  {
    assert (front + [w])[..|front|] == front;
  }

  lemma CountedNext(counts: map<string, nat>, arrivals: seq<Warning>, w: Warning)
    requires Counted(counts, arrivals)
    ensures Counted(counts[w.code := Lookup(counts, w.code) + 1], arrivals + [w])
  {
    TallyOfNext(arrivals, w);
  }

  lemma KeptOfNext(front: seq<Warning>, w: Warning, cap: nat)
    ensures Kept(front + [w], cap) == Kept(front, cap) + if Tally(front, w.code) < cap then [w] else []
  {
    assert (front + [w])[..|front|] == front;
  }

  lemma CountedAdopted(counts: map<string, nat>, arrivals: seq<Warning>, id: Option<string>)
    requires Counted(counts, arrivals)
    ensures Counted(counts, AdoptedAll(arrivals, id))
  {
    forall c ensures Tally(AdoptedAll(arrivals, id), c) == Tally(arrivals, c) {
      TallyAdopted(arrivals, c, id);
    }
  }

  lemma AdoptedNext(ws: seq<Warning>, i: nat, id: Option<string>)
    requires i < |ws|
    ensures AdoptedAll(ws[..i + 1], id) == AdoptedAll(ws[..i], id) + [Adopted(ws[i], id)]
  {
  }

  lemma PointwiseAdopted(before: seq<Warning>, after: seq<Warning>, id: Option<string>)
    requires |after| == |before| && forall k :: 0 <= k < |before| ==> after[k] == Adopted(before[k], id)
    ensures after == AdoptedAll(before, id)
  {
  }

  lemma AdoptedArePlaced(ws: seq<Warning>, id: string)
    ensures AllPlaced(AdoptedAll(ws, Some(id)))
  {
  }

  lemma AdoptedFront(ws: seq<Warning>, id: Option<string>)
    requires ws != []
    ensures AdoptedAll(ws, id)[..|ws| - 1] == AdoptedAll(ws[..|ws| - 1], id)
  {
  }

  lemma {:induction false} TallyAdopted(ws: seq<Warning>, c: string, id: Option<string>)
    ensures Tally(AdoptedAll(ws, id), c) == Tally(ws, c)
  {
    if ws != [] {
      AdoptedFront(ws, id);
      TallyAdopted(ws[..|ws| - 1], c, id);
    }
  }

  /** Filling in capture ids afterwards gives what filling them in on arrival would have. */
  lemma {:induction false} KeptAdopted(arrivals: seq<Warning>, cap: nat, id: Option<string>)
    ensures Kept(AdoptedAll(arrivals, id), cap) == AdoptedAll(Kept(arrivals, cap), id)
  {
    if arrivals != [] {
      var front, last := arrivals[..|arrivals| - 1], arrivals[|arrivals| - 1];
      AdoptedFront(arrivals, id);
      KeptAdopted(front, cap, id);
      TallyAdopted(front, last.code, id);
    }
  }

  lemma OfCodeOfNext(front: seq<Warning>, w: Warning, code: string)
    ensures OfCode(front + [w], code) == OfCode(front, code) + if w.code == code then [w] else []
  {
    assert (front + [w])[..|front|] == front;
  }

  /** Per code, what is stored is exactly the first `cap` arrivals, in order. */
  lemma {:induction false} KeepsFirstArrivals(arrivals: seq<Warning>, cap: nat, code: string)
    ensures OfCode(Kept(arrivals, cap), code) ==
            OfCode(arrivals, code)[..Min(cap, Tally(arrivals, code))]
  {
    if arrivals != [] {
      var front, last := arrivals[..|arrivals| - 1], arrivals[|arrivals| - 1];
      KeepsFirstArrivals(front, cap, code);
      KeepsNextArrival(front, last, cap, code);
      assert front + [last] == arrivals;
    }
  }

  lemma KeepsNextArrival(front: seq<Warning>, w: Warning, cap: nat, code: string)
    requires OfCode(Kept(front, cap), code) == OfCode(front, code)[..Min(cap, Tally(front, code))]
    ensures OfCode(Kept(front + [w], cap), code)
            == OfCode(front + [w], code)[..Min(cap, Tally(front + [w], code))]
  {
    hide Kept, OfCode;
    KeptOfCodeNext(front, w, cap, code);
    OfCodeOfNext(front, w, code);
    if w.code == code { TakeOfNext(OfCode(front, code), w, cap); }
  }

  lemma KeptOfCodeNext(front: seq<Warning>, w: Warning, cap: nat, code: string)
    ensures OfCode(Kept(front + [w], cap), code)
            == OfCode(Kept(front, cap), code)
               + if w.code == code && Tally(front, code) < cap then [w] else []
  {
    assert (front + [w])[..|front|] == front;
    if Tally(front, w.code) < cap {
      OfCodeOfNext(Kept(front, cap), w, code);
    } else {
      assert Kept(front + [w], cap) == Kept(front, cap);
    }
  }

  lemma TakeOfNext(mine: seq<Warning>, w: Warning, cap: nat)
    ensures (mine + [w])[..Min(cap, |mine| + 1)]
            == mine[..Min(cap, |mine|)] + if |mine| < cap then [w] else []
  {
  }

  /** Across codes, the stored warnings keep the order they arrived in. */
  ghost predicate Subsequence(a: seq<Warning>, b: seq<Warning>)
    decreases |b|
  {
    if a == [] then true
    else if b == [] then false
    else
      || Subsequence(a, b[..|b| - 1])
      || (a[|a| - 1] == b[|b| - 1] && Subsequence(a[..|a| - 1], b[..|b| - 1]))
  }

  lemma {:induction false} KeptIsSubsequence(arrivals: seq<Warning>, cap: nat)
    ensures Subsequence(Kept(arrivals, cap), arrivals)
  {
    if arrivals != [] {
      var front, last := arrivals[..|arrivals| - 1], arrivals[|arrivals| - 1];
      KeptIsSubsequence(front, cap);
      if Tally(front, last.code) < cap {
        assert Kept(arrivals, cap)[..|Kept(front, cap)|] == Kept(front, cap);
      } else {
        assert Kept(arrivals, cap) == Kept(front, cap);
      }
    }
  }

  // ---- the summary records -----------------------------------------------------

  function SummaryOf(code: string, total: nat, cap: nat, captureId: Option<string>): Warning {
    Warning(SUPPRESSED_CODE, "INFO", captureId, None, Summary(code, total, cap))
  }

  function Summaries(codes: seq<string>, arrivals: seq<Warning>, cap: nat, captureId: Option<string>)
    : seq<Warning>
  {
    if codes == [] then []
    else
      var front, code := codes[..|codes| - 1], codes[|codes| - 1];
      Summaries(front, arrivals, cap, captureId) +
      if Tally(arrivals, code) > cap then [SummaryOf(code, Tally(arrivals, code), cap, captureId)] else []
  }

  /** What leaves the sink: the stored warnings, then one record per suppressed code. */
  function Collected(codes: seq<string>, arrivals: seq<Warning>, cap: nat, captureId: Option<string>)
    : seq<Warning>
  {
    Kept(arrivals, cap) + Summaries(codes, arrivals, cap, captureId)
  }

  lemma CollectedNext(
    front: seq<string>, code: string, arrivals: seq<Warning>, cap: nat, captureId: Option<string>)
    ensures Collected(front + [code], arrivals, cap, captureId) ==
            Collected(front, arrivals, cap, captureId) +
            if Tally(arrivals, code) > cap then [SummaryOf(code, Tally(arrivals, code), cap, captureId)] else []
  {
    assert (front + [code])[..|front|] == front;
  }

  /** Once the capture is known, every record that leaves the sink names it. */
  lemma CollectedArePlaced(codes: seq<string>, arrivals: seq<Warning>, cap: nat, captureId: Option<string>)
    requires captureId.Some? && AllPlaced(arrivals)
    ensures AllPlaced(Collected(codes, arrivals, cap, captureId))
  {
    KeptArePlaced(arrivals, cap);
    SummariesArePlaced(codes, arrivals, cap, captureId);
  }

  lemma {:induction false} KeptArePlaced(arrivals: seq<Warning>, cap: nat)
    requires AllPlaced(arrivals)
    ensures AllPlaced(Kept(arrivals, cap))
  {
    if arrivals != [] { KeptArePlaced(arrivals[..|arrivals| - 1], cap); }
  }

  lemma {:induction false} SummariesArePlaced(
    codes: seq<string>, arrivals: seq<Warning>, cap: nat, captureId: Option<string>)
    requires captureId.Some?
    ensures AllPlaced(Summaries(codes, arrivals, cap, captureId))
  {
    if codes != [] { SummariesArePlaced(codes[..|codes| - 1], arrivals, cap, captureId); }
  }

  /** `codes` lists each code that has arrived once, in ascending order. */
  ghost predicate Enumerates(codes: seq<string>, arrivals: seq<Warning>) {
    && StrictlySortedBy(codes, c => [Text(c)])
    && forall c :: c in codes <==> Tally(arrivals, c) > 0
  }

  /** How many occurrences of `code` a list of summary records says were suppressed. */
  function SuppressedIn(summaries: seq<Warning>, code: string): int {
    if summaries == [] then 0
    else
      var w := summaries[|summaries| - 1];
      SuppressedIn(summaries[..|summaries| - 1], code) +
      if w.details.Summary? && w.details.code == code then w.details.total - w.details.emitted else 0
  }

  lemma EnumerationHasNoDuplicates(codes: seq<string>, arrivals: seq<Warning>)
    requires Enumerates(codes, arrivals)
    ensures NoDuplicates(codes)
  {
    var key := (c: string) => [Text(c)];
    forall i, j | 0 <= i < j < |codes| ensures codes[i] != codes[j] {
      assert Less(key(codes[i]), key(codes[j]));
      Trichotomy(key(codes[i]), key(codes[j]));
    }
  }

  lemma SuppressedInNext(summaries: seq<Warning>, w: Warning, code: string)
    ensures SuppressedIn(summaries + [w], code) == SuppressedIn(summaries, code) +
            if w.details.Summary? && w.details.code == code then w.details.total - w.details.emitted else 0
  {
    assert (summaries + [w])[..|summaries|] == summaries;
  }

  lemma {:induction false} SummariesOfCode(
    codes: seq<string>, arrivals: seq<Warning>, cap: nat, id: Option<string>, code: string)
    requires NoDuplicates(codes)
    ensures |Summaries(codes, arrivals, cap, id)| <= |codes|
    ensures SuppressedIn(Summaries(codes, arrivals, cap, id), code) ==
            if code in codes && Tally(arrivals, code) > cap then Tally(arrivals, code) - cap else 0
  {
    if codes != [] {
      var front, last := codes[..|codes| - 1], codes[|codes| - 1];
      SummariesOfCode(front, arrivals, cap, id, code);
      var s := Summaries(front, arrivals, cap, id);
      SuppressedInNext(s, SummaryOf(last, Tally(arrivals, last), cap, id), code);
      assert code in codes <==> code in front || code == last;
      assert Tally(arrivals, last) <= cap ==> Summaries(codes, arrivals, cap, id) == s;
    }
  }

  /** Nothing is pretended away: emitted plus suppressed is the number that arrived. */
  lemma EmittedPlusSuppressed(
    codes: seq<string>, arrivals: seq<Warning>, cap: nat, id: Option<string>, code: string)
    requires Enumerates(codes, arrivals)
    ensures |OfCode(Kept(arrivals, cap), code)| +
            SuppressedIn(Summaries(codes, arrivals, cap, id), code) == Tally(arrivals, code)
  {
    EnumerationHasNoDuplicates(codes, arrivals);
    SummariesOfCode(codes, arrivals, cap, id, code);
    KeepsFirstArrivals(arrivals, cap, code);
  }

  function Without(ws: seq<Warning>, code: string): seq<Warning> {
    if ws == [] then []
    else Without(ws[..|ws| - 1], code) + if ws[|ws| - 1].code != code then [ws[|ws| - 1]] else []
  }

  lemma {:induction false} WithoutSplits(ws: seq<Warning>, code: string)
    ensures |ws| == |OfCode(ws, code)| + |Without(ws, code)|
    ensures OfCode(Without(ws, code), code) == []
    ensures forall c | c != code :: OfCode(Without(ws, code), c) == OfCode(ws, c)
  {
    if ws != [] {
      var front, last := ws[..|ws| - 1], ws[|ws| - 1];
      WithoutSplits(front, code);
      forall c { OfCodeOfNext(Without(front, code), last, c); }
      assert last.code == code ==> Without(ws, code) == Without(front, code);
    }
  }

  /** At most `cap` per code, and no code outside `codes`. */
  ghost predicate Within(ws: seq<Warning>, codes: seq<string>, cap: nat) {
    forall c :: Tally(ws, c) <= if c in codes then cap else 0
  }

  lemma WithoutStaysWithin(ws: seq<Warning>, codes: seq<string>, cap: nat)
    requires codes != [] && Within(ws, codes, cap)
    ensures Within(Without(ws, codes[0]), codes[1..], cap)
  {
    WithoutSplits(ws, codes[0]);
    forall c ensures Tally(Without(ws, codes[0]), c) <= if c in codes[1..] then cap else 0 {
      assert c in codes ==> c == codes[0] || c in codes[1..];
    }
  }

  lemma SomeCodeArrived(ws: seq<Warning>)
    ensures ws != [] ==> exists c :: Tally(ws, c) > 0
  {
    assert ws != [] ==> Tally(ws, ws[|ws| - 1].code) > 0;
  }

  lemma {:induction false} FewCodesFewWarnings(ws: seq<Warning>, codes: seq<string>, cap: nat)
    requires Within(ws, codes, cap)
    ensures |ws| <= cap * |codes|
    decreases |codes|
  {
    if codes == [] {
      SomeCodeArrived(ws);
    } else {
      WithoutSplits(ws, codes[0]);
      WithoutStaysWithin(ws, codes, cap);
      assert Tally(ws, codes[0]) <= cap;
      FewCodesFewWarnings(Without(ws, codes[0]), codes[1..], cap);
      OneMoreCode(cap, |codes|);
    }
  }

  lemma OneMoreCode(cap: nat, n: nat)
    requires n > 0
    ensures cap * n == cap * (n - 1) + cap
  {
  }

  /** However hostile the capture, the output is bounded by the number of codes. */
  lemma CollectIsBounded(codes: seq<string>, arrivals: seq<Warning>, cap: nat, id: Option<string>)
    requires Enumerates(codes, arrivals)
    ensures |Collected(codes, arrivals, cap, id)| <= (cap + 1) * |codes|
  {
    EnumerationHasNoDuplicates(codes, arrivals);
    SummariesOfCode(codes, arrivals, cap, id, "");
    forall c ensures Tally(Kept(arrivals, cap), c) <= if c in codes then cap else 0 {
      KeepsFirstArrivals(arrivals, cap, c);
    }
    FewCodesFewWarnings(Kept(arrivals, cap), codes, cap);
  }

  /** The records do not depend on how the codes happened to be listed before sorting. */
  lemma EnumerationUnique(a: seq<string>, b: seq<string>, arrivals: seq<Warning>)
    requires Enumerates(a, arrivals) && Enumerates(b, arrivals)
    ensures a == b
  {
    EnumerationHasNoDuplicates(a, arrivals);
    EnumerationHasNoDuplicates(b, arrivals);
    SameMembersSameMultiset(a, b);
    StrictSortUnique(a, b, c => [Text(c)]);
  }

  // ---- replaying a scratch sink ------------------------------------------------

  /**
   * What a sink's total becomes when its arrivals are another sink's collected
   * records: capped there first, so exact only while the scratch sink did not overflow.
   */
  lemma ReplayCountsWhatWasKept(
    codes: seq<string>, arrivals: seq<Warning>, cap: nat, id: Option<string>, into: Option<string>, code: string)
    requires Enumerates(codes, arrivals) && code != SUPPRESSED_CODE
    ensures Tally(AdoptedAll(Collected(codes, arrivals, cap, id), into), code)
         == Min(cap, Tally(arrivals, code))
  {
    var kept := Kept(arrivals, cap);
    TallyAdopted(kept + Summaries(codes, arrivals, cap, id), code, into);
    SummariesAreNotOfCode(codes, arrivals, cap, id, code);
    OfCodeAppend(kept, Summaries(codes, arrivals, cap, id), code);
    KeepsFirstArrivals(arrivals, cap, code);
  }

  lemma {:induction false} OfCodeAppend(a: seq<Warning>, b: seq<Warning>, code: string)
    ensures OfCode(a + b, code) == OfCode(a, code) + OfCode(b, code)
  {
    if b == [] {
      assert a + b == a;
    } else {
      var front, last := b[..|b| - 1], b[|b| - 1];
      OfCodeAppend(a, front, code);
      OfCodeOfNext(a + front, last, code);
      assert a + b == (a + front) + [last];
    }
  }

  lemma {:induction false} SummariesAreNotOfCode(
    codes: seq<string>, arrivals: seq<Warning>, cap: nat, id: Option<string>, code: string)
    requires code != SUPPRESSED_CODE
    ensures OfCode(Summaries(codes, arrivals, cap, id), code) == []
  {
    if codes != [] {
      var front, last := codes[..|codes| - 1], codes[|codes| - 1];
      SummariesAreNotOfCode(front, arrivals, cap, id, code);
      OfCodeOfNext(Summaries(front, arrivals, cap, id), SummaryOf(last, Tally(arrivals, last), cap, id), code);
      assert Tally(arrivals, last) <= cap ==>
        Summaries(codes, arrivals, cap, id) == Summaries(front, arrivals, cap, id);
    }
  }

  // ---- routing to sessions -------------------------------------------------------

  datatype TcpSession = TcpSession(id: string, content: string, warnings: seq<Warning>)

  /** `warning.session_id` is neither missing nor empty. */
  predicate AboutASession(w: Warning) { w.sessionId.Some? && w.sessionId.value != "" }

  predicate AboutSession(w: Warning, id: string) { AboutASession(w) && w.sessionId.value == id }

  function Select(ws: seq<Warning>, p: Warning -> bool): (r: seq<Warning>)
    ensures |r| <= |ws|
  {
    if ws == [] then []
    else Select(ws[..|ws| - 1], p) + if p(ws[|ws| - 1]) then [ws[|ws| - 1]] else []
  }

  function ForSession(ws: seq<Warning>, id: string): seq<Warning> { Select(ws, w => AboutSession(w, id)) }

  function ForCapture(ws: seq<Warning>): seq<Warning> { Select(ws, w => !AboutASession(w)) }

  /** `by_session.get(id, [])`. */
  function Under(bySession: map<string, seq<Warning>>, id: string): seq<Warning> {
    if id in bySession then bySession[id] else []
  }

  /** The lists filled so far hold what they should of `ws`. */
  ghost predicate Placed(bySession: map<string, seq<Warning>>, remaining: seq<Warning>, ws: seq<Warning>) {
    && remaining == ForCapture(ws)
    && forall id :: Under(bySession, id) == ForSession(ws, id)
  }

  lemma SelectNext(ws: seq<Warning>, w: Warning, p: Warning -> bool)
    ensures Select(ws + [w], p) == Select(ws, p) + if p(w) then [w] else []
  {
    assert (ws + [w])[..|ws|] == ws;
  }

  lemma ForSessionNext(ws: seq<Warning>, w: Warning, id: string)
    ensures ForSession(ws + [w], id) == ForSession(ws, id) + if AboutSession(w, id) then [w] else []
  {
    SelectNext(ws, w, x => AboutSession(x, id));
  }

  lemma ForCaptureNext(ws: seq<Warning>, w: Warning)
    ensures ForCapture(ws + [w]) == ForCapture(ws) + if AboutASession(w) then [] else [w]
  {
    SelectNext(ws, w, x => !AboutASession(x));
  }

  lemma PlacedInSession(
    bySession: map<string, seq<Warning>>, remaining: seq<Warning>, ws: seq<Warning>, w: Warning)
    requires Placed(bySession, remaining, ws) && AboutASession(w)
    ensures Placed(bySession[w.sessionId.value := Under(bySession, w.sessionId.value) + [w]], remaining, ws + [w])
  {
    var own := w.sessionId.value;
    var next := bySession[own := Under(bySession, own) + [w]];
    ForCaptureNext(ws, w);
    forall id ensures Under(next, id) == ForSession(ws + [w], id) {
      ForSessionNext(ws, w, id);
      assert Under(next, id) == if id == own then Under(bySession, own) + [w] else Under(bySession, id);
    }
  }

  lemma PlacedInCapture(
    bySession: map<string, seq<Warning>>, remaining: seq<Warning>, ws: seq<Warning>, w: Warning)
    requires Placed(bySession, remaining, ws) && !AboutASession(w)
    ensures Placed(bySession, remaining + [w], ws + [w])
  {
    ForCaptureNext(ws, w);
    forall id { ForSessionNext(ws, w, id); }
  }

  method AttachWarnings(sessions: seq<TcpSession>, warnings: seq<Warning>)
    returns (updated: seq<TcpSession>, remaining: seq<Warning>)
    ensures remaining == ForCapture(warnings)
    ensures |updated| == |sessions|
    ensures forall i :: 0 <= i < |sessions| ==>
      updated[i] == sessions[i].(warnings := ForSession(warnings, sessions[i].id))
  {
    var bySession: map<string, seq<Warning>> := map[];
    remaining := [];
    var i := 0;
    assert Placed(bySession, remaining, warnings[..0]);
    while i < |warnings|
      invariant 0 <= i <= |warnings|
      invariant Placed(bySession, remaining, warnings[..i])
    {
      var w := warnings[i];
      assert warnings[..i + 1] == warnings[..i] + [w];
      if AboutASession(w) {
        PlacedInSession(bySession, remaining, warnings[..i], w);
        bySession := bySession[w.sessionId.value := Under(bySession, w.sessionId.value) + [w]];
      } else {
        PlacedInCapture(bySession, remaining, warnings[..i], w);
        remaining := remaining + [w];
      }
      i := i + 1;
    }
    assert warnings[..|warnings|] == warnings;
    updated := seq(|sessions|, j requires 0 <= j < |sessions| =>
      sessions[j].(warnings := Under(bySession, sessions[j].id)));
  }

  /** All session lists one after another. */
  function Routed(ids: seq<string>, ws: seq<Warning>): seq<Warning> {
    if ids == [] then [] else Routed(ids[..|ids| - 1], ws) + ForSession(ws, ids[|ids| - 1])
  }

  /** How many lists a warning belongs in, given the sessions there are. */
  function Landings(ids: seq<string>, w: Warning): nat {
    if AboutASession(w) then multiset(ids)[w.sessionId.value] else 1
  }

  lemma {:induction false} SelectMultiplicity(ws: seq<Warning>, p: Warning -> bool, w: Warning)
    ensures multiset(Select(ws, p))[w] == if p(w) then multiset(ws)[w] else 0
  {
    if ws != [] {
      SelectMultiplicity(ws[..|ws| - 1], p, w);
      assert ws == ws[..|ws| - 1] + [ws[|ws| - 1]];
    }
  }

  lemma RoutedNext(front: seq<string>, last: string, ws: seq<Warning>, w: Warning)
    ensures multiset(Routed(front + [last], ws))[w] ==
            multiset(Routed(front, ws))[w] + if AboutSession(w, last) then multiset(ws)[w] else 0
  {
    assert (front + [last])[..|front|] == front;
    assert Routed(front + [last], ws) == Routed(front, ws) + ForSession(ws, last);
    OneSessionMultiplicity(ws, last, w);
  }

  lemma {:induction false} RoutedMultiplicity(ids: seq<string>, ws: seq<Warning>, w: Warning)
    ensures multiset(Routed(ids, ws))[w] ==
            if AboutASession(w) then multiset(ids)[w.sessionId.value] * multiset(ws)[w] else 0
  {
    if ids != [] {
      var front, last := ids[..|ids| - 1], ids[|ids| - 1];
      assert ids == front + [last];
      RoutedMultiplicity(front, ws, w);
      RoutedNext(front, last, ws, w);
      if AboutASession(w) { LandingsNext(front, last, w.sessionId.value, multiset(ws)[w]); }
    }
  }

  lemma OneSessionMultiplicity(ws: seq<Warning>, id: string, w: Warning)
    ensures multiset(ForSession(ws, id))[w] == if AboutSession(w, id) then multiset(ws)[w] else 0
  {
    SelectMultiplicity(ws, x => AboutSession(x, id), w);
  }

  lemma LandingsNext(front: seq<string>, last: string, id: string, m: nat)
    ensures multiset(front + [last])[id] * m == multiset(front)[id] * m + if last == id then m else 0
  {
    assert multiset(front + [last])[id] == multiset(front)[id] + if last == id then 1 else 0;
    assert (multiset(front)[id] + 1) * m == multiset(front)[id] * m + m;
  }

  /** Each warning is placed once per list it belongs in, and nothing else is placed. */
  lemma PlacedOncePerLanding(ids: seq<string>, ws: seq<Warning>, w: Warning)
    ensures (multiset(ForCapture(ws)) + multiset(Routed(ids, ws)))[w] == Landings(ids, w) * multiset(ws)[w]
  {
    SelectMultiplicity(ws, x => !AboutASession(x), w);
    RoutedMultiplicity(ids, ws, w);
  }

  /** Every session a warning names is listed, and listed once. */
  ghost predicate NamesListedOnce(ids: seq<string>, ws: seq<Warning>) {
    forall w | w in ws && AboutASession(w) :: multiset(ids)[w.sessionId.value] == 1
  }

  lemma SameCounts(a: multiset<Warning>, b: multiset<Warning>)
    requires forall w :: a[w] == b[w]
    ensures a == b
  {
  }

  lemma PlacedOnce(ids: seq<string>, ws: seq<Warning>, w: Warning)
    requires NamesListedOnce(ids, ws)
    ensures (multiset(ForCapture(ws)) + multiset(Routed(ids, ws)))[w] == multiset(ws)[w]
  {
    PlacedOncePerLanding(ids, ws, w);
    if w in ws {
      assert Landings(ids, w) == 1;
    } else {
      assert multiset(ws)[w] == 0;
    }
  }

  lemma NotPlacedOnce(ids: seq<string>, ws: seq<Warning>, w: Warning)
    requires w in ws && AboutASession(w) && multiset(ids)[w.sessionId.value] != 1
    ensures multiset(ForCapture(ws)) + multiset(Routed(ids, ws)) != multiset(ws)
  {
    PlacedOncePerLanding(ids, ws, w);
    assert w in multiset(ws);
    OnlyOne(Landings(ids, w), multiset(ws)[w]);
  }

  lemma OnlyOne(n: nat, m: nat)
    requires n != 1 && m > 0
    ensures n * m != m
  {
    if n > 1 { assert n * m >= 2 * m; }
  }

  /**
   * Routing neither loses nor repeats a warning exactly when every session a
   * warning names is listed once; distinct and known ids are enough for that.
   */
  lemma RoutingPartitions(ids: seq<string>, ws: seq<Warning>)
    ensures multiset(ForCapture(ws)) + multiset(Routed(ids, ws)) == multiset(ws) <==> NamesListedOnce(ids, ws)
  {
    if NamesListedOnce(ids, ws) {
      forall w { PlacedOnce(ids, ws, w); }
      SameCounts(multiset(ForCapture(ws)) + multiset(Routed(ids, ws)), multiset(ws));
    } else {
      var w :| w in ws && AboutASession(w) && multiset(ids)[w.sessionId.value] != 1;
      NotPlacedOnce(ids, ws, w);
    }
  }
}
