/** The digest material of a finding id (assessment/evaluator.py, `finding_id_for`). */
module FindingIdentity {
  import opened Assessment

  /** `str(n)` for an integer. */
  function Decimal(n: int): string
    decreases if n < 0 then 1 else 0, if n < 0 then -n else n
  {
    if n < 0 then "-" + Decimal(-n)
    else if n < 10 then [Digit(n)]
    else Decimal(n / 10) + [Digit(n % 10)]
  }

  function Digit(n: int): char
    requires 0 <= n < 10
  {
    '0' + n as char
  }

  /** `separator.join(parts)`. */
  function Join(separator: string, parts: seq<string>): string {
    if parts == [] then ""
    else if |parts| == 1 then parts[0]
    else parts[0] + separator + Join(separator, parts[1..])
  }

  function Decimals(ns: seq<int>): (r: seq<string>)
    ensures |r| == |ns|
  {
    seq(|ns|, i requires 0 <= i < |ns| => Decimal(ns[i]))
  }

  function Positions(ns: seq<int>): string { Join(",", Decimals(ns)) }

  /** Everything the digest is taken over. */
  function Material(r: RuleResult, policy: Policy): string {
    Join("|", [r.policyId, policy.fingerprint, r.ruleId, r.captureId, r.sessionId,
               Positions(r.offsets), Positions(r.packets)])
  }

  ghost predicate Free(c: char, s: string) { forall i :: 0 <= i < |s| ==> s[i] != c }

  // ---- decimal printing is invertible --------------------------------------

  predicate IsDigit(c: char) { '0' <= c <= '9' }

  lemma {:induction false} DecimalDigits(n: int)
    ensures Decimal(n) != []
    ensures n >= 0 ==> forall i :: 0 <= i < |Decimal(n)| ==> IsDigit(Decimal(n)[i])
    ensures n < 0 ==> Decimal(n)[0] == '-'
    ensures n < 0 ==> forall i :: 1 <= i < |Decimal(n)| ==> IsDigit(Decimal(n)[i])
    decreases if n < 0 then 1 else 0, if n < 0 then -n else n
  {
    if n < 0 {
      DecimalDigits(-n);
    } else if n >= 10 {
      DecimalDigits(n / 10);
    }
  }

  lemma DecimalLength(n: nat)
    ensures |Decimal(n)| == 1 <==> n < 10
  {
    if n >= 10 {
      DecimalDigits(n / 10);
    }
  }

  lemma {:induction false} NaturalInjective(a: nat, b: nat)
    requires Decimal(a) == Decimal(b)
    ensures a == b
    decreases a + b
  {
    var s := Decimal(a);
    DecimalLength(a);
    DecimalLength(b);
    if a < 10 && b < 10 {
      assert s[0] == Digit(a) == Digit(b);
    } else if a >= 10 && b >= 10 {
      var p, q := Decimal(a / 10), Decimal(b / 10);
      assert s[..|s| - 1] == p && s[..|s| - 1] == q;
      assert s[|s| - 1] == Digit(a % 10) == Digit(b % 10);
      NaturalInjective(a / 10, b / 10);
    }
  }

  lemma DecimalInjective(a: int, b: int)
    requires Decimal(a) == Decimal(b)
    ensures a == b
  {
    DecimalDigits(a);
    DecimalDigits(b);
    if a < 0 && b < 0 {
      assert Decimal(a)[1..] == Decimal(-a) && Decimal(b)[1..] == Decimal(-b);
      NaturalInjective(-a, -b);
    } else if a >= 0 && b >= 0 {
      NaturalInjective(a, b);
    }
  }

  /** `int(s)` for the digits of a natural number. */
  function Natural(s: string): int {
    if s == [] then 0 else Natural(s[..|s| - 1]) * 10 + (s[|s| - 1] as int - '0' as int)
  }

  /** `int(s)`. */
  function Value(s: string): int { if s != [] && s[0] == '-' then -Natural(s[1..]) else Natural(s) }

  lemma {:induction false} NaturalReadsBack(n: nat)
    ensures Natural(Decimal(n)) == n
  {
    if n < 10 {
      assert Decimal(n)[..0] == [];
    } else {
      NaturalReadsBack(n / 10);
      assert Decimal(n)[..|Decimal(n)| - 1] == Decimal(n / 10);
    }
  }

  /** What is printed reads back as the number. */
  lemma DecimalReadsBack(n: int)
    ensures Value(Decimal(n)) == n
  {
    DecimalDigits(n);
    if n < 0 {
      NaturalReadsBack(-n);
      assert Decimal(n)[1..] == Decimal(-n);
    } else {
      NaturalReadsBack(n);
    }
  }

  // ---- joining is invertible ------------------------------------------------

  /** A separator that does not occur in the first part marks where it ends. */
  lemma {:induction false} SplitUnique(c: char, a: string, x: string, b: string, y: string)
    requires Free(c, a) && Free(c, b)
    requires a + [c] + x == b + [c] + y
    ensures a == b && x == y
  {
    var s := a + [c] + x;
    assert s[|a|] == c && s[|b|] == c;
    assert forall i :: 0 <= i < |a| ==> s[i] == a[i];
    assert forall i :: 0 <= i < |b| ==> s[i] == b[i];
    assert |a| == |b|;
    assert a == s[..|a|] == b;
    assert x == s[|a| + 1..] == y;
  }

  /** Without separators inside the parts, and counting none for empty, join has one reading. */
  lemma {:induction false} JoinInjective(c: char, ps: seq<string>, qs: seq<string>)
    requires forall i :: 0 <= i < |ps| ==> Free(c, ps[i])
    requires forall i :: 0 <= i < |qs| ==> Free(c, qs[i])
    requires |ps| == |qs| || ((forall i :: 0 <= i < |ps| ==> ps[i] != "")
                              && (forall i :: 0 <= i < |qs| ==> qs[i] != ""))
    requires Join([c], ps) == Join([c], qs)
    ensures ps == qs
  {
    if ps == [] || qs == [] {
      JoinLength(c, ps);
      JoinLength(c, qs);
    } else if |ps| == 1 && |qs| == 1 {
    } else if |ps| == 1 || |qs| == 1 {
      JoinHasSeparator(c, ps);
      JoinHasSeparator(c, qs);
    } else {
      SplitUnique(c, ps[0], Join([c], ps[1..]), qs[0], Join([c], qs[1..]));
      JoinInjective(c, ps[1..], qs[1..]);
      assert ps == [ps[0]] + ps[1..] && qs == [qs[0]] + qs[1..];
    }
  }

  lemma JoinHasSeparator(c: char, ps: seq<string>)
    ensures |ps| > 1 ==> !Free(c, Join([c], ps))
  {
    if |ps| > 1 {
      assert Join([c], ps)[|ps[0]|] == c;
    }
  }

  lemma JoinLength(c: char, ps: seq<string>)
    ensures ps != [] && ps[0] != "" ==> Join([c], ps) != ""
  {
  }

  lemma DecimalsFree(c: char, ns: seq<int>)
    requires c != '-' && !IsDigit(c)
    ensures forall i :: 0 <= i < |ns| ==> Free(c, Decimals(ns)[i]) && Decimals(ns)[i] != ""
  {
    forall i | 0 <= i < |ns| ensures Free(c, Decimals(ns)[i]) && Decimals(ns)[i] != "" {
      DecimalDigits(ns[i]);
    }
  }

  lemma PositionsInjective(a: seq<int>, b: seq<int>)
    requires Positions(a) == Positions(b)
    ensures a == b
  {
    DecimalsFree(',', a);
    DecimalsFree(',', b);
    JoinInjective(',', Decimals(a), Decimals(b));
    forall i | 0 <= i < |a| ensures a[i] == b[i] {
      assert Decimals(a)[i] == Decimals(b)[i];
      DecimalInjective(a[i], b[i]);
    }
  }

  lemma {:induction false} JoinFree(c: char, separator: string, ps: seq<string>)
    requires Free(c, separator) && forall i :: 0 <= i < |ps| ==> Free(c, ps[i])
    ensures Free(c, Join(separator, ps))
  {
    if |ps| > 1 {
      JoinFree(c, separator, ps[1..]);
    }
  }

  lemma PositionsFree(ns: seq<int>)
    ensures Free('|', Positions(ns))
  {
    DecimalsFree('|', ns);
    JoinFree('|', ",", Decimals(ns));
  }

  ghost predicate PipeFree(r: RuleResult, policy: Policy) {
    && Free('|', r.policyId) && Free('|', policy.fingerprint) && Free('|', r.ruleId)
    && Free('|', r.captureId) && Free('|', r.sessionId)
  }

  /**
   * Two results with the same material agree on every identifying input: the
   * policy id and fingerprint, the rule, the capture, the session, the offset
   * list and the packet list, empty lists included.
   */
  lemma MaterialInjective(r: RuleResult, p: Policy, s: RuleResult, q: Policy)
    requires PipeFree(r, p) && PipeFree(s, q)
    ensures Material(r, p) == Material(s, q) <==>
            && r.policyId == s.policyId && p.fingerprint == q.fingerprint
            && r.ruleId == s.ruleId && r.captureId == s.captureId
            && r.sessionId == s.sessionId
            && r.offsets == s.offsets && r.packets == s.packets
  {
    var a := [r.policyId, p.fingerprint, r.ruleId, r.captureId, r.sessionId,
              Positions(r.offsets), Positions(r.packets)];
    var b := [s.policyId, q.fingerprint, s.ruleId, s.captureId, s.sessionId,
              Positions(s.offsets), Positions(s.packets)];
    PositionsFree(r.offsets);
    PositionsFree(r.packets);
    PositionsFree(s.offsets);
    PositionsFree(s.packets);
    if Material(r, p) == Material(s, q) {
      JoinInjective('|', a, b);
      assert a[0] == b[0] && a[1] == b[1] && a[2] == b[2] && a[3] == b[3] && a[4] == b[4]
          && a[5] == b[5] && a[6] == b[6];
      PositionsInjective(r.offsets, s.offsets);
      PositionsInjective(r.packets, s.packets);
    }
  }
}
