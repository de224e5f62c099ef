/**
 * The cipher suites the application can name (tls/registry.py) under the cipher rules
 * (assessment/rules.py) and the policy's two algorithm tables (assessment/policy.py):
 * three tables written separately, and what every suite comes to under them.
 */
module SuiteRegistry {
  import opened Assessment
  import opened SessionEvaluation
  import opened RuleReports
  import Rules

  // ---- the names ------------------------------------------------------------------

  /** The encryption names that occur. */
  const NAMES: seq<string> := [
    "AES_128_GCM", "AES_256_GCM", "CHACHA20_POLY1305", "AES_128_CCM", "AES_128_CCM_8",
    "AES_128_CBC", "AES_256_CBC", "NONE", "RC4_128", "3DES_EDE_CBC", "NULL"]

  const AES_128_GCM: nat := 0
  const AES_256_GCM: nat := 1
  const CHACHA20_POLY1305: nat := 2
  const AES_128_CCM: nat := 3
  const AES_128_CCM_8: nat := 4
  const AES_128_CBC: nat := 5
  const AES_256_CBC: nat := 6
  const NO_CIPHER: nat := 7
  const RC4_128: nat := 8
  const TRIPLE_DES: nat := 9
  const NULL_CIPHER: nat := 10

  lemma ApprovedNames(n: nat)
    requires n < |NAMES|
    ensures NAMES[n] in Rules.APPROVED <==> n < 5
  {
    if n >= 5 {
      assert forall e :: e in Rules.APPROVED ==>
        |e| >= 11 && (e[9] == 'C' || e[9] == 'P' || e[8] == 'G' || e[8] == 'C');
    }
  }

  lemma OwnedNames(n: nat)
    requires n < |NAMES|
    ensures Rules.OwnedBy(NAMES[n], "TLS-CIPHER-003") <==> n == 8
    ensures Rules.OwnedBy(NAMES[n], "TLS-CIPHER-004") <==> n == 9
    ensures NAMES[n] == "NULL" <==> n == 10
  {
    assert "TLS-CIPHER-001"[13] == '1' && "TLS-CIPHER-003"[13] == '3' && "TLS-CIPHER-004"[13] == '4';
    if n < 8 {
      assert forall e :: e in Rules.PROHIBITED ==> (e[0] != 'A' && e[0] != 'C' && e[1] != 'O');
    } else {
      assert "NULL"[0] == 'N' && "RC4_128"[4] == '1' && "RC4_40"[4] == '4' && "RC2_CBC_40"[2] == '2'
          && "3DES_EDE_CBC"[0] == '3' && "DES_CBC"[0] == 'D' && "DES40_CBC"[0] == 'D';
    }
  }

  // ---- the suites -----------------------------------------------------------------

  /** One suite: its code point, the place of its encryption in `NAMES`, and its flags. */
  datatype Entry = Entry(code: int, name: nat, aead: bool, anonymous: bool, tls13Only: bool)

  /** `_CIPHER_SUITES`, by ascending code point, in four runs. */
  const OLDEST: seq<Entry> := [
    Entry(0x0004, RC4_128, false, false, false),
    Entry(0x0005, RC4_128, false, false, false),
    Entry(0x000A, TRIPLE_DES, false, false, false),
    Entry(0x002F, AES_128_CBC, false, false, false),
    Entry(0x0033, AES_128_CBC, false, false, false),
    Entry(0x0034, AES_128_CBC, false, true, false),
    Entry(0x0035, AES_256_CBC, false, false, false),
    Entry(0x0039, AES_256_CBC, false, false, false),
    Entry(0x003B, NULL_CIPHER, false, false, false),
    Entry(0x003C, AES_128_CBC, false, false, false),
    Entry(0x003D, AES_256_CBC, false, false, false)]

  const OLDER: seq<Entry> := [
    Entry(0x0067, AES_128_CBC, false, false, false),
    Entry(0x006B, AES_256_CBC, false, false, false),
    Entry(0x009C, AES_128_GCM, true, false, false),
    Entry(0x009D, AES_256_GCM, true, false, false),
    Entry(0x009E, AES_128_GCM, true, false, false),
    Entry(0x009F, AES_256_GCM, true, false, false),
    Entry(0x00AA, AES_128_GCM, true, false, false),
    Entry(0x00AE, AES_128_CBC, false, false, false),
    Entry(0x00FF, NO_CIPHER, false, false, false),
    Entry(0x1301, AES_128_GCM, true, false, true),
    Entry(0x1302, AES_256_GCM, true, false, true)]

  const NEWER: seq<Entry> := [
    Entry(0x1303, CHACHA20_POLY1305, true, false, true),
    Entry(0x1304, AES_128_CCM, true, false, true),
    Entry(0x1305, AES_128_CCM_8, true, false, true),
    Entry(0x5600, NO_CIPHER, false, false, false),
    Entry(0xC009, AES_128_CBC, false, false, false),
    Entry(0xC00A, AES_256_CBC, false, false, false),
    Entry(0xC013, AES_128_CBC, false, false, false),
    Entry(0xC014, AES_256_CBC, false, false, false),
    Entry(0xC018, AES_128_CBC, false, true, false),
    Entry(0xC023, AES_128_CBC, false, false, false),
    Entry(0xC024, AES_256_CBC, false, false, false)]

  const NEWEST: seq<Entry> := [
    Entry(0xC027, AES_128_CBC, false, false, false),
    Entry(0xC028, AES_256_CBC, false, false, false),
    Entry(0xC02B, AES_128_GCM, true, false, false),
    Entry(0xC02C, AES_256_GCM, true, false, false),
    Entry(0xC02F, AES_128_GCM, true, false, false),
    Entry(0xC030, AES_256_GCM, true, false, false),
    Entry(0xC035, AES_128_CBC, false, false, false),
    Entry(0xCCA8, CHACHA20_POLY1305, true, false, false),
    Entry(0xCCA9, CHACHA20_POLY1305, true, false, false),
    Entry(0xCCAA, CHACHA20_POLY1305, true, false, false)]

  const SUITES: seq<Entry> := OLDEST + OLDER + NEWER + NEWEST

  /** What the flags and the name of a suite say of its code point, and of each other. */
  predicate Consistent(e: Entry) {
    && e.name < |NAMES|
    && (e.name < 5 <==> e.aead)
    && (e.name == 8 <==> e.code == 0x0004 || e.code == 0x0005)
    && (e.name == 9 <==> e.code == 0x000A)
    && (e.name == 10 <==> e.code == 0x003B)
    && (e.anonymous <==> e.code == 0x0034 || e.code == 0xC018)
    && (e.tls13Only <==> 0x1301 <= e.code <= 0x1305)
  }

  lemma OldestConsistent(i: nat)
    requires i < |OLDEST|
    ensures Consistent(OLDEST[i])
  {
  }

  lemma OldestIncrease(i: nat)
    requires 0 < i < |OLDEST|
    ensures OLDEST[i - 1].code < OLDEST[i].code
  {
  }

  lemma OlderConsistent(i: nat)
    requires i < |OLDER|
    ensures Consistent(OLDER[i])
  {
  }

  lemma OlderIncrease(i: nat)
    requires 0 < i < |OLDER|
    ensures OLDER[i - 1].code < OLDER[i].code
  {
  }

  lemma NewerConsistent(i: nat)
    requires i < |NEWER|
    ensures Consistent(NEWER[i])
  {
  }

  lemma NewerIncrease(i: nat)
    requires 0 < i < |NEWER|
    ensures NEWER[i - 1].code < NEWER[i].code
  {
  }

  lemma NewestConsistent(i: nat)
    requires i < |NEWEST|
    ensures Consistent(NEWEST[i])
  {
  }

  lemma NewestIncrease(i: nat)
    requires 0 < i < |NEWEST|
    ensures NEWEST[i - 1].code < NEWEST[i].code
  {
  }

  lemma RunsMeet()
    ensures |OLDEST| == 11 && |OLDER| == 11 && |NEWER| == 11 && |NEWEST| == 10
    ensures OLDEST[10].code < OLDER[0].code && OLDER[10].code < NEWER[0].code && NEWER[10].code < NEWEST[0].code
  {
  }

  /** Which run a suite is in. */
  lemma SuiteInRun(i: nat)
    requires i < 43
    ensures |SUITES| == 43
    ensures SUITES[i] == if i < 11 then OLDEST[i] else if i < 22 then OLDER[i - 11]
                         else if i < 33 then NEWER[i - 22] else NEWEST[i - 33]
  {
  }

  lemma SuiteConsistent(i: nat)
    requires i < |SUITES|
    ensures Consistent(SUITES[i])
  {
    hide Consistent;
    SuiteInRun(i);
    if i < 11 {
      OldestConsistent(i);
    } else if i < 22 {
      OlderConsistent(i - 11);
    } else if i < 33 {
      NewerConsistent(i - 22);
    } else {
      NewestConsistent(i - 33);
    }
  }

  lemma NextCode(i: nat)
    requires 0 < i < |SUITES|
    ensures SUITES[i - 1].code < SUITES[i].code
  {
    RunsMeet();
    SuiteInRun(i - 1);
    SuiteInRun(i);
    if 0 < i < 11 { OldestIncrease(i); }
    if 11 < i < 22 { OlderIncrease(i - 11); }
    if 22 < i < 33 { NewerIncrease(i - 22); }
    if 33 < i { NewestIncrease(i - 33); }
  }

  function Codes(): (codes: seq<int>)
    ensures |codes| == |SUITES| && forall i :: 0 <= i < |codes| ==> codes[i] == SUITES[i].code
  {
    seq(|SUITES|, i requires 0 <= i < |SUITES| => SUITES[i].code)
  }

  lemma CodesApart(i: nat, j: nat)
    requires i < j < |SUITES|
    ensures SUITES[i].code < SUITES[j].code
  {
    hide Codes;
    var codes := Codes();
    forall k | 0 < k < |codes| ensures codes[k - 1] < codes[k] { NextCode(k); }
    Increasing(codes, i, j);
  }

  // ---- the dictionary --------------------------------------------------------------

  function SuiteAt(i: nat): Rules.Suite
    requires i < |SUITES|
  {
    SuiteConsistent(i);
    Rules.Suite(NAMES[SUITES[i].name], SUITES[i].anonymous, SUITES[i].tls13Only)
  }

  /** `dict(zip(keys, values))`: a later entry replaces an earlier one of the same key. */
  function DictOf<K(==), V>(keys: seq<K>, values: seq<V>): map<K, V>
    requires |keys| == |values|
  {
    if keys == [] then map[]
    else
      var n := |keys| - 1;
      DictOf(keys[..n], values[..n])[keys[n] := values[n]]
  }

  lemma {:induction false} DictKeys<K, V>(keys: seq<K>, values: seq<V>)
    requires |keys| == |values|
    ensures forall k :: k in DictOf(keys, values) <==> k in keys
  {
    if keys != [] {
      var n := |keys| - 1;
      DictKeys(keys[..n], values[..n]);
      assert keys == keys[..n] + [keys[n]];
    }
  }

  lemma {:induction false} DictHolds<K, V>(keys: seq<K>, values: seq<V>, i: nat)
    requires i < |keys| == |values| && forall m :: i < m < |keys| ==> keys[m] != keys[i]
    ensures keys[i] in DictOf(keys, values) && DictOf(keys, values)[keys[i]] == values[i]
  {
    var n := |keys| - 1;
    if i < n {
      assert keys[..n][i] == keys[i];
      DictHolds(keys[..n], values[..n], i);
    }
  }

  /** `lookup_cipher_suite`: the registry as a dictionary. */
  function Registry(): map<int, Rules.Suite> {
    DictOf(Codes(), seq(|SUITES|, i requires 0 <= i < |SUITES| => SuiteAt(i)))
  }

  lemma RegistryHolds(i: nat)
    requires i < |SUITES|
    ensures SUITES[i].code in Registry() && Registry()[SUITES[i].code] == SuiteAt(i)
  {
    var codes := Codes();
    forall m | i < m < |codes| ensures codes[m] != codes[i] { CodesApart(i, m); }
    DictHolds(codes, seq(|SUITES|, n requires 0 <= n < |SUITES| => SuiteAt(n)), i);
  }

  lemma RegistryHoldsNoOther(code: int)
    requires forall i :: 0 <= i < |SUITES| ==> SUITES[i].code != code
    ensures code !in Registry()
  {
    DictKeys(Codes(), seq(|SUITES|, n requires 0 <= n < |SUITES| => SuiteAt(n)));
  }

  // ---- what every suite comes to -----------------------------------------------------

  /** A session that negotiated this code point. */
  predicate Negotiated(ctx: Rules.Context, code: int) {
    ctx.registry == Registry() && ctx.tls.Some? && ctx.tls.value.selected == Option.Some(code)
  }

  lemma SuiteOfCode(ctx: Rules.Context, i: nat)
    requires i < |SUITES| && Negotiated(ctx, SUITES[i].code)
    ensures Rules.SuiteOf(ctx) == Option.Some(SuiteAt(i))
  {
    RegistryHolds(i);
  }

  lemma SuiteVerdicts(ctx: Rules.Context, i: nat)
    requires i < |SUITES| && Negotiated(ctx, SUITES[i].code)
    ensures var code := SUITES[i].code;
            && Rules.Cipher001(ctx) == Rules.FailWhen(code == 0x003B)
            && Rules.Cipher002(ctx)
               == (if 0x1301 <= code <= 0x1305 then NotApplicable
                   else Rules.FailWhen(code == 0x0034 || code == 0xC018))
            && Rules.Cipher003(ctx) == Rules.FailWhen(code == 0x0004 || code == 0x0005)
            && Rules.Cipher004(ctx) == Rules.FailWhen(code == 0x000A)
            && Rules.Cipher005(ctx) == Rules.FailWhen(!SUITES[i].aead)
  {
    SuiteOfCode(ctx, i);
    SuiteConsistent(i);
    ApprovedNames(SUITES[i].name);
    OwnedNames(SUITES[i].name);
  }

  /**
   * What a session reports for every suite in the registry: the modern-suite rule passes
   * exactly the AEAD suites; the two RC4 suites, the 3DES suite and the NULL suite are the
   * ones their owners report; and the two anonymous suites are the ones reported for that.
   */
  lemma EverySuite(ctx: Rules.Context, evidence: Evidence, i: nat)
    requires i < |SUITES| && Negotiated(ctx, SUITES[i].code) && CiphersEnabled(ctx.policy)
    ensures var code := SUITES[i].code;
            && (Reports(ctx, evidence, "TLS-CIPHER-005", Pass) <==> SUITES[i].aead)
            && (Reports(ctx, evidence, "TLS-CIPHER-005", Fail) <==> !SUITES[i].aead)
            && (Reports(ctx, evidence, "TLS-CIPHER-001", Fail) <==> code == 0x003B)
            && (Reports(ctx, evidence, "TLS-CIPHER-003", Fail) <==> code == 0x0004 || code == 0x0005)
            && (Reports(ctx, evidence, "TLS-CIPHER-004", Fail) <==> code == 0x000A)
            && (Reports(ctx, evidence, "TLS-CIPHER-002", Fail) <==> code == 0x0034 || code == 0xC018)
            && (Reports(ctx, evidence, "TLS-CIPHER-002", NotApplicable) <==> 0x1301 <= code <= 0x1305)
  {
    hide Reports, Rules.Cipher001, Rules.Cipher002, Rules.Cipher003, Rules.Cipher004, Rules.Cipher005, Negotiated;
    SuiteVerdicts(ctx, i);
    CipherRuleReports(ctx, evidence);
    if 0x1301 <= SUITES[i].code <= 0x1305 { assert SUITES[i].code != 0x0034 && SUITES[i].code != 0xC018; }
  }

  /** A code point the registry does not hold is UNKNOWN under all five. */
  lemma UnlistedSuite(ctx: Rules.Context, evidence: Evidence, code: int, id: string)
    requires Negotiated(ctx, code) && CiphersEnabled(ctx.policy)
    requires forall i :: 0 <= i < |SUITES| ==> SUITES[i].code != code
    requires id in OWNERS || id == "TLS-CIPHER-002" || id == "TLS-CIPHER-005"
    ensures Reports(ctx, evidence, id, Unknown)
  {
    RegistryHoldsNoOther(code);
    CiphersUndecided(ctx, evidence, id);
  }
}
