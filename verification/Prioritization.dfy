/** The priority ordering of findings (assessment/prioritization.py). */
module Prioritization {
  import opened Orders
  import opened Sorting
  import opened Sums
  import opened Assessment
  import opened Evaluator

  datatype PriorityBand = P1 | P2 | P3 | P4

  function ConfidenceRank(c: Confidence): nat {
    match c
    case Confirmed => 0
    case Probable => 1
    case LowConfidence => 2
  }

  /** `PRIORITY_MATRIX`. */
  function BandFor(s: Severity, c: Confidence): PriorityBand {
    match (s, c)
    case (Critical, Confirmed) => P1
    case (Critical, Probable) => P1
    case (Critical, LowConfidence) => P2
    case (High, Confirmed) => P1
    case (High, Probable) => P2
    case (High, LowConfidence) => P3
    case (Medium, Confirmed) => P2
    case (Medium, Probable) => P3
    case (Medium, LowConfidence) => P3
    case (Low, Confirmed) => P3
    case (Low, Probable) => P4
    case (Low, LowConfidence) => P4
    case (Info, _) => P4
  }

  function Urgency(b: PriorityBand): nat {
    match b
    case P1 => 1
    case P2 => 2
    case P3 => 3
    case P4 => 4
  }

  /** `str.upper` on ASCII letters; other characters are left alone. */
  function Upper(s: string): string {
    seq(|s|, i requires 0 <= i < |s| =>
      if 'a' <= s[i] <= 'z' then s[i] - 'a' + 'A' else s[i])
  }

  /** `_CRITICALITY_RANK`, unlabelled last. */
  function CriticalityRank(name: string): nat {
    if name == "CRITICAL" then 0
    else if name == "HIGH" then 1
    else if name == "MEDIUM" then 2
    else if name == "LOW" then 3
    else 4
  }

  datatype Entry = Entry(
    findingId: string, ruleId: string, rank: nat, priority: PriorityBand,
    severity: Severity, confidence: Confidence, observed: int,
    criticality: Option<string>, sortKey: Key)

  function ForRule(ruleId: string): Finding -> bool { (f: Finding) => f.ruleId == ruleId }

  function CriticalityOf(f: Finding, endpoints: map<string, string>, policy: Policy): Option<string> {
    if f.sessionId in endpoints then policy.CriticalityFor(endpoints[f.sessionId]) else None
  }

  function SortKey(f: Finding, observed: int, criticality: Option<string>): Key {
    [Num(SeverityRank(f.severity)), Num(ConfidenceRank(f.confidence)),
     Num(CriticalityRank(Upper(if criticality.Some? then criticality.value else ""))),
     Num(-observed), Text(f.ruleId), Text(f.findingId)]
  }

  function EntryFor(f: Finding, observed: int, endpoints: map<string, string>, policy: Policy): Entry {
    var criticality := CriticalityOf(f, endpoints, policy);
    Entry(f.findingId, f.ruleId, 1, BandFor(f.severity, f.confidence), f.severity, f.confidence,
          observed,
          if criticality.Some? && criticality.value != ""
          then Option.Some(Upper(criticality.value)) else None,
          SortKey(f, observed, criticality))
  }

  function EntryOf(findings: seq<Finding>, endpoints: map<string, string>, policy: Policy)
    : Finding -> Entry
  {
    (f: Finding) => EntryFor(f, CountBy(findings, ForRule(f.ruleId)), endpoints, policy)
  }

  function KeyOf(e: Entry): Key { e.sortKey }

  function Ranked(entries: seq<Entry>): (r: seq<Entry>)
    ensures |r| == |entries|
  {
    seq(|entries|, i requires 0 <= i < |entries| => entries[i].(rank := i + 1))
  }

  function Prioritised(findings: seq<Finding>, endpoints: map<string, string>, policy: Policy)
    : seq<Entry>
  {
    Ranked(SortBy(Map(findings, EntryOf(findings, endpoints, policy)), KeyOf))
  }

  /** The `scope` dictionary after the first loop. */
  method CountScope(findings: seq<Finding>) returns (scope: map<string, int>)
    ensures forall id :: CountBy(findings, ForRule(id)) == if id in scope then scope[id] else 0
    ensures forall f :: f in findings ==> f.ruleId in scope
  {
    scope := map[];
    for n := 0 to |findings|
      invariant forall id ::
        CountBy(findings[..n], ForRule(id)) == if id in scope then scope[id] else 0
      invariant forall f :: f in findings[..n] ==> f.ruleId in scope
    {
      var f := findings[n];
      assert findings[..n + 1] == findings[..n] + [f];
      forall id ensures CountBy(findings[..n + 1], ForRule(id)) ==
                        CountBy(findings[..n], ForRule(id)) + if f.ruleId == id then 1 else 0
      {
        CountAppend(findings[..n], [f], ForRule(id));
        assert [f][1..] == [];
      }
      scope := scope[f.ruleId := (if f.ruleId in scope then scope[f.ruleId] else 0) + 1];
    }
    assert findings[..|findings|] == findings;
  }

  /** `prioritise`: count, build the entries, sort in place, number them. */
  method Prioritise(findings: seq<Finding>, endpoints: map<string, string>, policy: Policy)
    returns (out: seq<Entry>)
    ensures out == Prioritised(findings, endpoints, policy)
  {
    var scope := CountScope(findings);
    var entries: seq<Entry> := [];
    for n := 0 to |findings|
      invariant |entries| == n
      invariant forall i :: 0 <= i < n ==>
                  entries[i] == EntryOf(findings, endpoints, policy)(findings[i])
    {
      var f := findings[n];
      assert f in findings;
      entries := entries + [EntryFor(f, scope[f.ruleId], endpoints, policy)];
    }
    assert entries == Map(findings, EntryOf(findings, endpoints, policy));
    out := Ranked(SortBy(entries, KeyOf));
  }

  // ---- what the ordering guarantees -----------------------------------------

  function Unranked(e: Entry): Entry { e.(rank := 1) }

  /** Nothing is dropped, duplicated or altered by ordering, and ranks run 1..n. */
  lemma PrioritiseIsPermutation(
    findings: seq<Finding>, endpoints: map<string, string>, policy: Policy)
    ensures var out := Prioritised(findings, endpoints, policy);
            && |out| == |findings|
            && (forall i :: 0 <= i < |out| ==> out[i].rank == i + 1)
            && multiset(Map(out, Unranked))
               == multiset(Map(findings, EntryOf(findings, endpoints, policy)))
  {
    var entries := Map(findings, EntryOf(findings, endpoints, policy));
    var sorted := SortBy(entries, KeyOf);
    SameElements(sorted, entries);
    forall i | 0 <= i < |sorted| ensures sorted[i].rank == 1 {
      assert sorted[i] in entries;
      var j :| 0 <= j < |entries| && entries[j] == sorted[i];
    }
    assert Map(Ranked(sorted), Unranked) == sorted;
  }

  ghost predicate DistinctFindingIds(findings: seq<Finding>) {
    forall i, j :: 0 <= i < j < |findings| ==> findings[i].findingId != findings[j].findingId
  }

  lemma KeysDistinct(findings: seq<Finding>, endpoints: map<string, string>, policy: Policy)
    requires DistinctFindingIds(findings)
    ensures DistinctKeys(Map(findings, EntryOf(findings, endpoints, policy)), KeyOf)
  {
    var entries := Map(findings, EntryOf(findings, endpoints, policy));
    forall i, j | 0 <= i < j < |entries| ensures KeyOf(entries[i]) != KeyOf(entries[j]) {
      assert KeyOf(entries[i])[5] == Text(findings[i].findingId);
      assert KeyOf(entries[j])[5] == Text(findings[j].findingId);
    }
  }

  /** The order is total: with distinct finding ids the sort keys strictly increase. */
  lemma KeysStrictlyIncrease(findings: seq<Finding>, endpoints: map<string, string>, policy: Policy)
    requires DistinctFindingIds(findings)
    ensures StrictlySortedBy(Prioritised(findings, endpoints, policy), KeyOf)
  {
    var entries := Map(findings, EntryOf(findings, endpoints, policy));
    KeysDistinct(findings, endpoints, policy);
    SortByStrict(entries, KeyOf);
  }

  /** Two runs over the same findings, in any order, produce the same list. */
  lemma PrioritiseIgnoresInputOrder(
    a: seq<Finding>, b: seq<Finding>, endpoints: map<string, string>, policy: Policy)
    requires multiset(a) == multiset(b) && DistinctFindingIds(a)
    ensures Prioritised(a, endpoints, policy) == Prioritised(b, endpoints, policy)
  {
    var ea, eb := EntryOf(a, endpoints, policy), EntryOf(b, endpoints, policy);
    forall f ensures ea(f) == eb(f) {
      CountPermute(a, b, ForRule(f.ruleId));
    }
    assert Map(b, ea) == Map(b, eb);
    MapPermute(a, b, ea);
    KeysDistinct(a, endpoints, policy);
    SortByInputOrderIrrelevant(Map(a, ea), Map(b, ea), KeyOf);
  }

  /** The band and the leading key components an entry's own severity and confidence give. */
  predicate Shaped(e: Entry) {
    && e.priority == BandFor(e.severity, e.confidence)
    && |e.sortKey| == 6
    && e.sortKey[0] == Num(SeverityRank(e.severity))
    && e.sortKey[1] == Num(ConfidenceRank(e.confidence))
  }

  lemma EntryForShape(f: Finding, observed: int, endpoints: map<string, string>, policy: Policy)
    ensures Shaped(EntryFor(f, observed, endpoints, policy))
  {
  }

  /** Every entry of the list was made from a finding, and only its rank has changed since. */
  lemma EntryOrigin(findings: seq<Finding>, endpoints: map<string, string>, policy: Policy, e: Entry)
    returns (f: Finding)
    requires e in Prioritised(findings, endpoints, policy)
    ensures f in findings && Unranked(e) == EntryOf(findings, endpoints, policy)(f)
  {
    var out := Prioritised(findings, endpoints, policy);
    var entries := Map(findings, EntryOf(findings, endpoints, policy));
    PrioritiseIsPermutation(findings, endpoints, policy);
    SameElements(Map(out, Unranked), entries);
    var i :| 0 <= i < |out| && out[i] == e;
    assert Map(out, Unranked)[i] in entries;
    var j :| 0 <= j < |entries| && entries[j] == Unranked(e);
    f := findings[j];
  }

  lemma EntryShape(findings: seq<Finding>, endpoints: map<string, string>, policy: Policy, e: Entry)
    requires e in Prioritised(findings, endpoints, policy)
    ensures Shaped(e)
  {
    var f := EntryOrigin(findings, endpoints, policy, e);
    EntryForShape(f, CountBy(findings, ForRule(f.ruleId)), endpoints, policy);
    assert Shaped(Unranked(e));
  }

  lemma RankedInOrder(findings: seq<Finding>, endpoints: map<string, string>, policy: Policy, i: nat, j: nat)
    requires i < j < |Prioritised(findings, endpoints, policy)|
    ensures var out := Prioritised(findings, endpoints, policy);
            !Less(out[j].sortKey, out[i].sortKey)
  {
    var entries := Map(findings, EntryOf(findings, endpoints, policy));
    var sorted := SortBy(entries, KeyOf);
    SortBySorted(entries, KeyOf);
    assert !Less(KeyOf(sorted[j]), KeyOf(sorted[i]));
  }

  lemma FirstTwoComponents(x: Key, y: Key)
    requires |x| >= 2 && |y| >= 2 && x[0].Num? && y[0].Num? && x[1].Num? && y[1].Num?
    requires !Less(y, x)
    ensures x[0].n <= y[0].n && (x[0].n == y[0].n ==> x[1].n <= y[1].n)
  {
    if x[0] == y[0] { assert !Less(y[1..], x[1..]); }
  }

  lemma PairInOrder(findings: seq<Finding>, endpoints: map<string, string>, policy: Policy,
                    i: nat, j: nat)
    requires i < j < |Prioritised(findings, endpoints, policy)|
    ensures var out := Prioritised(findings, endpoints, policy);
            && out[i].priority == BandFor(out[i].severity, out[i].confidence)
            && out[j].priority == BandFor(out[j].severity, out[j].confidence)
            && SeverityRank(out[i].severity) <= SeverityRank(out[j].severity)
            && (out[i].severity == out[j].severity ==>
                ConfidenceRank(out[i].confidence) <= ConfidenceRank(out[j].confidence))
  {
    EntryShape(findings, endpoints, policy, Prioritised(findings, endpoints, policy)[i]);
    EntryShape(findings, endpoints, policy, Prioritised(findings, endpoints, policy)[j]);
    RankedInOrder(findings, endpoints, policy, i, j);
    FirstTwoComponents(Prioritised(findings, endpoints, policy)[i].sortKey,
                       Prioritised(findings, endpoints, policy)[j].sortKey);
  }

  /**
   * Exactly when a later entry has the more urgent band: a CRITICAL of low
   * confidence ahead of a confirmed HIGH, or such a HIGH ahead of a confirmed MEDIUM.
   */
  lemma BandInversions(findings: seq<Finding>, endpoints: map<string, string>, policy: Policy,
                       i: nat, j: nat)
    requires i < j < |Prioritised(findings, endpoints, policy)|
    ensures var out := Prioritised(findings, endpoints, policy);
            Urgency(out[j].priority) < Urgency(out[i].priority) <==>
            (out[i].severity == Critical && out[i].confidence == LowConfidence
             && out[j].severity == High && out[j].confidence == Confirmed)
            || (out[i].severity == High && out[i].confidence == LowConfidence
                && out[j].severity == Medium && out[j].confidence == Confirmed)
  {
    PairInOrder(findings, endpoints, policy, i, j);
  }

  /** Within one severity the band never improves down the list. */
  lemma BandsMonotoneWithinSeverity(
    findings: seq<Finding>, endpoints: map<string, string>, policy: Policy, i: nat, j: nat)
    requires i < j < |Prioritised(findings, endpoints, policy)|
    requires Prioritised(findings, endpoints, policy)[i].severity
             == Prioritised(findings, endpoints, policy)[j].severity
    ensures Urgency(Prioritised(findings, endpoints, policy)[i].priority)
            <= Urgency(Prioritised(findings, endpoints, policy)[j].priority)
  {
    BandInversions(findings, endpoints, policy, i, j);
  }
}
