/**
 * Sessions `evaluate_session` can produce at which documented properties of the
 * score fail: most pair two contexts, or two policies, with a score that moves the
 * wrong way. All rules but the named ones are disabled.
 */
module Counterexamples {
  import opened Orders
  import opened Sorting
  import opened Sums
  import opened Assessment
  import opened Scoring
  import opened UnitTheorems
  import opened ScoreTheorems
  import opened Monotonicity
  import opened EvidenceLoss
  import opened DisabledRules
  import opened WrongWays
  import opened Evaluator
  import opened Agreement
  import opened SessionEvaluation
  import opened Prioritization
  import Rules

  // ---- a policy that keeps a few rules ---------------------------------------------

  const CERT_003: nat := 2
  const MAIL_001: nat := 7
  const MAIL_002: nat := 8
  const CIPHER_003: nat := 16
  const CIPHER_005: nat := 18

  /** Every rule but these. */
  function AllBut(kept: set<nat>): set<string> {
    set i: nat | i < |CATALOG| && i !in kept :: CATALOG[i].ruleId
  }

  function Keeping(kept: set<nat>, overrides: map<string, real>): Policy {
    Policy("policy", "fingerprint", SEVERITY_WEIGHTS, overrides, map[], AllBut(kept), 0.5, false, map[])
  }

  lemma KeepingEnables(policy: Policy, kept: set<nat>, i: nat)
    requires i < |CATALOG| && policy.disabledRules == AllBut(kept)
    ensures policy.Enabled(CATALOG[i].ruleId) <==> i in kept
  {
    if CATALOG[i].ruleId in policy.disabledRules {
      var j: nat :| j < |CATALOG| && j !in kept && CATALOG[j].ruleId == CATALOG[i].ruleId;
      if i < j { CatalogIdsApart(i, j); } else if j < i { CatalogIdsApart(j, i); }
    }
  }

  /** `p` accepts exactly the elements at these positions. */
  ghost predicate AcceptsAt<T>(s: seq<T>, p: T -> bool, at: set<int>) {
    forall i :: 0 <= i < |s| ==> (p(s[i]) <==> i in at)
  }

  /** The filter of what lies from position `k` on. */
  function FilterFrom<T>(s: seq<T>, p: T -> bool, k: nat): seq<T>
    requires k <= |s|
    decreases |s| - k
  {
    if k == |s| then []
    else if p(s[k]) then [s[k]] + FilterFrom(s, p, k + 1)
    else FilterFrom(s, p, k + 1)
  }

  lemma {:induction false} FilterIsFrom<T>(s: seq<T>, p: T -> bool, k: nat)
    requires k <= |s|
    ensures Filter(s[k..], p) == FilterFrom(s, p, k)
    decreases |s| - k
  {
    if k < |s| {
      FilterIsFrom(s, p, k + 1);
      assert s[k..][1..] == s[k + 1..];
    }
  }

  /** `p` accepts nothing from position `k` up to `m`. */
  ghost predicate NoneIn<T>(s: seq<T>, p: T -> bool, k: nat, m: nat)
    requires m <= |s|
  {
    forall i :: k <= i < m ==> !p(s[i])
  }

  lemma {:induction false} SkipTo<T>(s: seq<T>, p: T -> bool, k: nat, m: nat)
    requires k <= m <= |s| && NoneIn(s, p, k, m)
    ensures FilterFrom(s, p, k) == FilterFrom(s, p, m)
    decreases m - k
  {
    if k < m { SkipTo(s, p, k + 1, m); }
  }

  /** The next accepted position after `k` is `m`. */
  lemma NextAt<T>(s: seq<T>, p: T -> bool, k: nat, m: nat)
    requires k <= m < |s| && p(s[m]) && NoneIn(s, p, k, m)
    ensures FilterFrom(s, p, k) == [s[m]] + FilterFrom(s, p, m + 1)
  {
    SkipTo(s, p, k, m);
  }

  lemma FromOne<T>(s: seq<T>, p: T -> bool, k: nat, c: nat)
    requires k <= c < |s| && p(s[c]) && NoneIn(s, p, k, c) && NoneIn(s, p, c + 1, |s|)
    ensures FilterFrom(s, p, k) == [s[c]]
  {
    NextAt(s, p, k, c);
    SkipTo(s, p, c + 1, |s|);
  }

  lemma FromTwo<T>(s: seq<T>, p: T -> bool, k: nat, b: nat, c: nat)
    requires k <= b < c < |s| && p(s[b]) && p(s[c])
    requires NoneIn(s, p, k, b) && NoneIn(s, p, b + 1, c) && NoneIn(s, p, c + 1, |s|)
    ensures FilterFrom(s, p, k) == [s[b], s[c]]
  {
    hide FilterFrom;
    NextAt(s, p, k, b);
    FromOne(s, p, b + 1, c);
  }

  lemma FromThree<T>(s: seq<T>, p: T -> bool, a: nat, b: nat, c: nat)
    requires a < b < c < |s| && p(s[a]) && p(s[b]) && p(s[c])
    requires NoneIn(s, p, 0, a) && NoneIn(s, p, a + 1, b) && NoneIn(s, p, b + 1, c) && NoneIn(s, p, c + 1, |s|)
    ensures FilterFrom(s, p, 0) == [s[a], s[b], s[c]]
  {
    hide FilterFrom;
    NextAt(s, p, 0, a);
    FromTwo(s, p, a + 1, b, c);
  }

  lemma FilterWhole<T>(s: seq<T>, p: T -> bool)
    ensures Filter(s, p) == FilterFrom(s, p, 0)
  {
    FilterIsFrom(s, p, 0);
    assert s[0..] == s;
  }

  lemma KeepingAccepts(policy: Policy, kept: set<nat>)
    requires policy.disabledRules == AllBut(kept)
    ensures AcceptsAt(CATALOG, EnabledBy(policy), kept)
  {
    forall i: nat | i < |CATALOG| ensures EnabledBy(policy)(CATALOG[i]) <==> i in kept {
      KeepingEnables(policy, kept, i);
    }
  }

  /** With two rules kept, a session has two results. */
  lemma TwoKept(ctx: Rules.Context, evidence: Evidence, a: nat, b: nat)
    requires a < b < |CATALOG| && ctx.policy.disabledRules == AllBut({a, b})
    ensures RawResults(CATALOG, ctx, evidence)
            == [ResultOf(ctx, evidence)(CATALOG[a]), ResultOf(ctx, evidence)(CATALOG[b])]
  {
    KeepingAccepts(ctx.policy, {a, b});
    MapOfTwo(CATALOG, EnabledBy(ctx.policy), ResultOf(ctx, evidence), a, b);
  }

  /** Between two kept positions nothing is accepted. */
  lemma Gap<T>(s: seq<T>, p: T -> bool, at: set<int>, k: nat, m: nat)
    requires m <= |s| && AcceptsAt(s, p, at)
    requires forall x :: x in at ==> x < k || m <= x
    ensures NoneIn(s, p, k, m)
  {
  }

  lemma FilterOfTwo<T>(s: seq<T>, p: T -> bool, a: nat, b: nat)
    requires a < b < |s| && AcceptsAt(s, p, {a, b})
    ensures Filter(s, p) == [s[a], s[b]]
  {
    hide Filter, FilterFrom, NoneIn;
    FilterWhole(s, p);
    Gap(s, p, {a, b}, 0, a);
    Gap(s, p, {a, b}, a + 1, b);
    Gap(s, p, {a, b}, b + 1, |s|);
    FromTwo(s, p, 0, a, b);
  }

  lemma MapOfTwo<T, U>(s: seq<T>, p: T -> bool, f: T -> U, a: nat, b: nat)
    requires a < b < |s| && AcceptsAt(s, p, {a, b})
    ensures Map(Filter(s, p), f) == [f(s[a]), f(s[b])]
  {
    hide Filter, AcceptsAt, Map;
    FilterOfTwo(s, p, a, b);
    MapTwo(s[a], s[b], f);
  }

  lemma ThreeKept(ctx: Rules.Context, evidence: Evidence, a: nat, b: nat, c: nat)
    requires a < b < c < |CATALOG| && ctx.policy.disabledRules == AllBut({a, b, c})
    ensures RawResults(CATALOG, ctx, evidence)
            == [ResultOf(ctx, evidence)(CATALOG[a]), ResultOf(ctx, evidence)(CATALOG[b]),
                ResultOf(ctx, evidence)(CATALOG[c])]
  {
    KeepingAccepts(ctx.policy, {a, b, c});
    MapOfThree(CATALOG, EnabledBy(ctx.policy), ResultOf(ctx, evidence), a, b, c);
  }

  lemma FilterOfThree<T>(s: seq<T>, p: T -> bool, a: nat, b: nat, c: nat)
    requires a < b < c < |s| && AcceptsAt(s, p, {a, b, c})
    ensures Filter(s, p) == [s[a], s[b], s[c]]
  {
    hide Filter, FilterFrom, NoneIn;
    FilterWhole(s, p);
    Gap(s, p, {a, b, c}, 0, a);
    Gap(s, p, {a, b, c}, a + 1, b);
    Gap(s, p, {a, b, c}, b + 1, c);
    Gap(s, p, {a, b, c}, c + 1, |s|);
    FromThree(s, p, a, b, c);
  }

  lemma MapOfThree<T, U>(s: seq<T>, p: T -> bool, f: T -> U, a: nat, b: nat, c: nat)
    requires a < b < c < |s| && AcceptsAt(s, p, {a, b, c})
    ensures Map(Filter(s, p), f) == [f(s[a]), f(s[b]), f(s[c])]
  {
    hide Filter, AcceptsAt, Map;
    FilterOfThree(s, p, a, b, c);
    MapThree(s[a], s[b], s[c], f);
  }

  lemma MapTwo<T, U>(x: T, y: T, f: T -> U)
    ensures Map([x, y], f) == [f(x), f(y)]
  {
  }

  lemma MapThree<T, U>(x: T, y: T, z: T, f: T -> U)
    ensures Map([x, y, z], f) == [f(x), f(y), f(z)]
  {
  }

  // ---- the sessions -------------------------------------------------------------------

  /** A handshake whose certificate was captured, with or without the choice of suite. */
  function Handshake(selected: Option<int>): Rules.Tls {
    Rules.Tls(selected, Rules.Observed, [Rules.Leaf(0, 1)], None)
  }

  const RC4_SUITE := 0x0005
  const AES_SUITE := 0x002F

  /** The two entries of the suite registry these sessions look up. */
  const REGISTRY: map<int, Rules.Suite> := map[
    RC4_SUITE := Rules.Suite("RC4_128", false, false),
    AES_SUITE := Rules.Suite("AES_128_CBC", false, false)]

  /** A TLS session that negotiated this suite, or whose choice was not captured. */
  function TlsSession(suite: Option<int>, policy: Policy): Rules.Context {
    Rules.Context("capture", "session", 0, Option.Some(Handshake(suite)), None, policy, None, REGISTRY)
  }

  /** A mail session upgraded to TLS without an attempt before it, parsed to its end or cut short. */
  function MailSession(fullyParsed: bool, policy: Policy): Rules.Context {
    Rules.Context(
      "capture", "session", 0, Option.Some(Handshake(None)),
      Option.Some(Rules.Protocol(
        Rules.DetectionConfirmed, fullyParsed, [], Option.Some(Rules.Upgrade(Rules.UpgradeAccepted, true)))),
      policy, None, REGISTRY)
  }

  /** Every rule decided outside the model has this outcome, with nothing to point at. */
  function Everywhere(o: Outcome): Evidence {
    Evidence((_: string) => o, (_: string) => Confirmed, (_: string) => [], (_: string) => [])
  }

  /** The result of a catalogue entry in the session "session". */
  function Result(i: nat, o: Outcome): RuleResult
    requires i < |CATALOG|
  {
    RuleResult(CATALOG[i].ruleId, o, CATALOG[i].severity, Confirmed, "capture", "session", "policy",
               [], [], CATALOG[i].dedupGroup, true)
  }

  lemma SuiteVerdicts(policy: Policy)
    ensures Rules.Cipher003(TlsSession(Option.Some(AES_SUITE), policy)) == Pass
    ensures Rules.Cipher005(TlsSession(Option.Some(AES_SUITE), policy)) == Fail
    ensures Rules.Cipher003(TlsSession(Option.Some(RC4_SUITE), policy)) == Fail
    ensures Rules.Cipher005(TlsSession(Option.Some(RC4_SUITE), policy)) == Fail
    ensures Rules.Cipher003(TlsSession(None, policy)) == Unknown
    ensures Rules.Cipher005(TlsSession(None, policy)) == Unknown
  {
    CbcIsUnlisted();
    Rc4IsProhibited();
    Rules.ProhibitedIsNotApproved("RC4_128");
  }

  lemma CbcIsUnlisted()
    ensures "AES_128_CBC" !in Rules.PROHIBITED && "AES_128_CBC" !in Rules.APPROVED
  {
    assert "AES_128_CBC"[0] == 'A' && "AES_128_CBC"[9] == 'B';
    assert forall e :: e in Rules.PROHIBITED ==> e[0] in {'N', 'R', 'D', '3'};
    assert forall e :: e in Rules.APPROVED ==> |e| > 9 && e[9] != 'B';
  }

  lemma Rc4IsProhibited()
    ensures "RC4_128" in Rules.PROHIBITED && Rules.PROHIBITED["RC4_128"] == "TLS-CIPHER-003"
  {
    assert "RC4_128"[4] == '1' && "RC4_40"[4] == '4' && "RC2_CBC_40"[2] == '2' && "RC4_128"[2] == '4';
    assert "DES_CBC"[0] == 'D' && "DES40_CBC"[0] == 'D' && "3DES_EDE_CBC"[0] == '3' && "NULL"[0] == 'N';
  }

  // ---- a session's results -------------------------------------------------------------

  lemma ResultIs(ctx: Rules.Context, o: Outcome, def: RuleDefinition)
    requires ctx.policy.policyId == "policy"
    requires ctx.captureId == "capture" && ctx.sessionId == "session"
    ensures ResultOf(ctx, Everywhere(o))(def) ==
            RuleResult(def.ruleId, Verdict(def, ctx, Everywhere(o)),
                       ctx.policy.SeverityFor(def.ruleId, def.severity), Confirmed, "capture",
                       "session", "policy", [], [], def.dedupGroup, true)
  {
    var r := ResultOf(ctx, Everywhere(o))(def);
    assert r.offsets == [] && r.packets == [] && r.confidence == Confirmed;
  }

  lemma CertResult(ctx: Rules.Context, o: Outcome)
    requires ctx.policy.ruleSeverityOverrides == map[] && ctx.policy.policyId == "policy"
    requires ctx.captureId == "capture" && ctx.sessionId == "session"
    ensures ResultOf(ctx, Everywhere(o))(CATALOG[CERT_003]) == Result(CERT_003, o)
  {
    ResultIs(ctx, o, CATALOG[CERT_003]);
  }

  lemma CipherResults(ctx: Rules.Context, o: Outcome)
    requires ctx.policy.ruleSeverityOverrides == map[] && ctx.policy.policyId == "policy"
    requires ctx.captureId == "capture" && ctx.sessionId == "session"
    ensures ResultOf(ctx, Everywhere(o))(CATALOG[CIPHER_003]) == Result(CIPHER_003, Rules.Cipher003(ctx))
    ensures ResultOf(ctx, Everywhere(o))(CATALOG[CIPHER_005]) == Result(CIPHER_005, Rules.Cipher005(ctx))
  {
    ResultIs(ctx, o, CATALOG[CIPHER_003]);
    ResultIs(ctx, o, CATALOG[CIPHER_005]);
  }

  lemma MailResults(ctx: Rules.Context, o: Outcome)
    requires ctx.policy.ruleSeverityOverrides == map[] && ctx.policy.policyId == "policy"
    requires ctx.captureId == "capture" && ctx.sessionId == "session"
    ensures ResultOf(ctx, Everywhere(o))(CATALOG[MAIL_001]) == Result(MAIL_001, Rules.Mail001(ctx))
    ensures ResultOf(ctx, Everywhere(o))(CATALOG[MAIL_002]) == Result(MAIL_002, Rules.Mail002(ctx))
  {
    ResultIs(ctx, o, CATALOG[MAIL_001]);
    ResultIs(ctx, o, CATALOG[MAIL_002]);
  }

  lemma CipherGroups(o: Outcome, x: Outcome, y: Outcome)
    ensures TwoGroups(Result(CERT_003, o), Result(CIPHER_003, x), Result(CIPHER_005, y))
  {
    assert "CERT_KEY_STRENGTH"[0] == 'C' && CIPHER_GROUP[0] == 'N';
  }

  lemma MailGroups(o: Outcome, x: Outcome, y: Outcome)
    ensures TwoGroups(Result(CERT_003, o), Result(MAIL_001, x), Result(MAIL_002, y))
  {
    assert "CERT_KEY_STRENGTH"[0] == 'C' && "PLAINTEXT_AUTH"[0] == 'P';
  }

  // ---- the policies -------------------------------------------------------------------

  /** TLS-CIPHER-003 is weighted below the rule it outranks. */
  const LIGHT_CIPHER: map<string, real> := map["TLS-CIPHER-003" := 1.0]

  const CIPHER_POLICY: Policy := Keeping({CERT_003, CIPHER_003, CIPHER_005}, LIGHT_CIPHER)

  /** MAIL-001 is weighted below the rule it outranks. */
  const LIGHT_MAIL: map<string, real> := map["MAIL-001" := 1.0]

  const MAIL_POLICY: Policy := Keeping({CERT_003, MAIL_001, MAIL_002}, LIGHT_MAIL)

  /** The published weights. */
  const PLAIN_POLICY: Policy := Keeping({CERT_003, CIPHER_003}, map[])

  lemma CipherWeights(o: Outcome)
    ensures WeightOf(Result(CERT_003, o), CIPHER_POLICY) == 6.0
    ensures WeightOf(Result(CIPHER_003, o), CIPHER_POLICY) == 1.0
    ensures WeightOf(Result(CIPHER_005, o), CIPHER_POLICY) == 3.0
  {
    assert "TLS-CIPHER-005"[13] == '5' && "TLS-CIPHER-003"[13] == '3' && "CERT-003"[0] == 'C';
  }

  lemma MailWeights(o: Outcome)
    ensures WeightOf(Result(CERT_003, o), MAIL_POLICY) == 6.0
    ensures WeightOf(Result(MAIL_001, o), MAIL_POLICY) == 1.0
    ensures WeightOf(Result(MAIL_002, o), MAIL_POLICY) == 6.0
  {
    assert "MAIL-002"[7] == '2' && "MAIL-001"[7] == '1' && "CERT-003"[0] == 'C';
    assert Result(CERT_003, o).ruleId == "CERT-003" && Result(MAIL_002, o).ruleId == "MAIL-002";
  }

  lemma PlainWeights(o: Outcome)
    ensures WeightOf(Result(CERT_003, o), PLAIN_POLICY) == WeightOf(Result(CIPHER_003, o), PLAIN_POLICY) == 6.0
  {
  }

  // ---- the units of a session ----------------------------------------------------------

  lemma CipherSession(suite: Option<int>, x: Outcome, y: Outcome)
    requires Rules.Cipher003(TlsSession(suite, CIPHER_POLICY)) == x
    requires Rules.Cipher005(TlsSession(suite, CIPHER_POLICY)) == y
    ensures SessionUnits(TlsSession(suite, CIPHER_POLICY), Everywhere(Pass)) ==
            Units([Result(CERT_003, Pass), Result(CIPHER_003, x), Result(CIPHER_005, y)], CIPHER_POLICY)
  {
    var ctx := TlsSession(suite, CIPHER_POLICY);
    UnitsOfSession(ctx, Everywhere(Pass));
    ThreeKept(ctx, Everywhere(Pass), CERT_003, CIPHER_003, CIPHER_005);
    CertResult(ctx, Pass);
    CipherResults(ctx, Pass);
  }

  lemma PlainSession(suite: Option<int>, x: Outcome)
    requires Rules.Cipher003(TlsSession(suite, PLAIN_POLICY)) == x
    ensures SessionUnits(TlsSession(suite, PLAIN_POLICY), Everywhere(Pass)) ==
            Units([Result(CERT_003, Pass), Result(CIPHER_003, x)], PLAIN_POLICY)
  {
    var ctx := TlsSession(suite, PLAIN_POLICY);
    UnitsOfSession(ctx, Everywhere(Pass));
    TwoKept(ctx, Everywhere(Pass), CERT_003, CIPHER_003);
    CertResult(ctx, Pass);
    CipherResults(ctx, Pass);
  }

  lemma MailResultList(fullyParsed: bool, x: Outcome, y: Outcome)
    requires Rules.Mail001(MailSession(fullyParsed, MAIL_POLICY)) == x
    requires Rules.Mail002(MailSession(fullyParsed, MAIL_POLICY)) == y
    ensures RawResults(CATALOG, MailSession(fullyParsed, MAIL_POLICY), Everywhere(Fail)) ==
            [Result(CERT_003, Fail), Result(MAIL_001, x), Result(MAIL_002, y)]
  {
    var ctx := MailSession(fullyParsed, MAIL_POLICY);
    ThreeKept(ctx, Everywhere(Fail), CERT_003, MAIL_001, MAIL_002);
    CertResult(ctx, Fail);
    MailResults(ctx, Fail);
  }

  lemma CutMailSession(fullyParsed: bool, x: Outcome, y: Outcome)
    requires Rules.Mail001(MailSession(fullyParsed, MAIL_POLICY)) == x
    requires Rules.Mail002(MailSession(fullyParsed, MAIL_POLICY)) == y
    ensures SessionUnits(MailSession(fullyParsed, MAIL_POLICY), Everywhere(Fail)) ==
            Units([Result(CERT_003, Fail), Result(MAIL_001, x), Result(MAIL_002, y)], MAIL_POLICY)
  {
    UnitsOfSession(MailSession(fullyParsed, MAIL_POLICY), Everywhere(Fail));
    MailResultList(fullyParsed, x, y);
  }

  // ---- one more failing rule raises the score ---------------------------------------------

  lemma CipherTakeOver()
    ensures Raises(Units([Result(CERT_003, Pass), Result(CIPHER_003, Pass), Result(CIPHER_005, Fail)], CIPHER_POLICY),
                   Units([Result(CERT_003, Pass), Result(CIPHER_003, Fail), Result(CIPHER_005, Fail)], CIPHER_POLICY))
  {
    CipherGroups(Pass, Pass, Fail);
    CipherWeights(Pass);
    CipherWeights(Fail);
    TakeOverRaises(Result(CERT_003, Pass), Result(CIPHER_003, Pass), Result(CIPHER_005, Fail), CIPHER_POLICY);
  }

  /**
   * Documented property 7 fails under a per-rule weight override: with TLS-CIPHER-003
   * weighted 1, a session that negotiates RC4 scores higher than the same session
   * negotiating AES-128-CBC, although one more rule fails.
   */
  lemma OverrideRaisesScore()
    ensures Raises(SessionUnits(TlsSession(Option.Some(AES_SUITE), CIPHER_POLICY), Everywhere(Pass)),
                   SessionUnits(TlsSession(Option.Some(RC4_SUITE), CIPHER_POLICY), Everywhere(Pass)))
  {
    SuiteVerdicts(CIPHER_POLICY);
    CipherSession(Option.Some(AES_SUITE), Pass, Fail);
    CipherSession(Option.Some(RC4_SUITE), Fail, Fail);
    CipherTakeOver();
  }

  // ---- one more UNKNOWN raises coverage -----------------------------------------------------

  const NO_003_POLICY: Policy := Keeping({CERT_003, CIPHER_005}, LIGHT_CIPHER)

  lemma UndecidedSession(suite: Option<int>, o: Outcome)
    requires Rules.Cipher005(TlsSession(suite, NO_003_POLICY)) == o
    ensures SessionUnits(TlsSession(suite, NO_003_POLICY), Everywhere(Pass)) ==
            Units([Result(CERT_003, Pass), Result(CIPHER_005, o)], NO_003_POLICY)
  {
    var ctx := TlsSession(suite, NO_003_POLICY);
    UnitsOfSession(ctx, Everywhere(Pass));
    TwoKept(ctx, Everywhere(Pass), CERT_003, CIPHER_005);
    CertResult(ctx, Pass);
    CipherResults(ctx, Pass);
  }

  lemma CipherUndecided()
    ensures Coverage(Units([Result(CERT_003, Pass), Result(CIPHER_003, Unknown), Result(CIPHER_005, Unknown)],
                           CIPHER_POLICY))
            > Coverage(Units([Result(CERT_003, Pass), Result(CIPHER_005, Unknown)], CIPHER_POLICY))
  {
    CipherGroups(Pass, Unknown, Unknown);
    CipherWeights(Pass);
    CipherWeights(Unknown);
    AddedUnknownRaisesCoverage(Result(CERT_003, Pass), Result(CIPHER_003, Unknown), Result(CIPHER_005, Unknown),
                               CIPHER_POLICY);
  }

  /**
   * The second half of documented property 1 fails under the same override: where the
   * suite was not captured, enabling TLS-CIPHER-003 adds one UNKNOWN result and raises
   * coverage.
   */
  lemma OverrideRaisesCoverage()
    ensures Coverage(SessionUnits(TlsSession(None, CIPHER_POLICY), Everywhere(Pass)))
            > Coverage(SessionUnits(TlsSession(None, NO_003_POLICY), Everywhere(Pass)))
  {
    SuiteVerdicts(CIPHER_POLICY);
    SuiteVerdicts(NO_003_POLICY);
    CipherSession(None, Unknown, Unknown);
    UndecidedSession(None, Unknown);
    UnitsReadWeights([Result(CERT_003, Pass), Result(CIPHER_005, Unknown)], NO_003_POLICY, CIPHER_POLICY);
    CipherUndecided();
  }

  // ---- losing a failure raises the score ------------------------------------------------------

  /**
   * Lost evidence raises the score under the published weights: the session that
   * negotiated RC4 scores higher when its choice of suite was not captured.
   */
  lemma LostSuiteRaisesScore()
    ensures Raises(SessionUnits(TlsSession(Option.Some(RC4_SUITE), PLAIN_POLICY), Everywhere(Pass)),
                   SessionUnits(TlsSession(None, PLAIN_POLICY), Everywhere(Pass)))
  {
    SuiteVerdicts(PLAIN_POLICY);
    PlainSession(Option.Some(RC4_SUITE), Fail);
    PlainSession(None, Unknown);
    CipherGroups(Pass, Fail, Fail);
    PlainWeights(Pass);
    PlainWeights(Fail);
    LostFailRaises(Result(CERT_003, Pass), Result(CIPHER_003, Fail), PLAIN_POLICY);
  }

  // ---- losing a pass raises the score ---------------------------------------------------------

  lemma MailVerdicts(policy: Policy)
    ensures Rules.Mail001(MailSession(true, policy)) == Pass && Rules.Mail001(MailSession(false, policy)) == Unknown
    ensures Rules.Mail002(MailSession(true, policy)) == Rules.Mail002(MailSession(false, policy)) == Pass
  {
  }

  lemma MailTakeOver()
    ensures Raises(Units([Result(CERT_003, Fail), Result(MAIL_001, Pass), Result(MAIL_002, Pass)], MAIL_POLICY),
                   Units([Result(CERT_003, Fail), Result(MAIL_001, Unknown), Result(MAIL_002, Pass)], MAIL_POLICY))
  {
    MailGroups(Fail, Pass, Pass);
    MailWeights(Pass);
    MailWeights(Fail);
    LostPassRaises(Result(CERT_003, Fail), Result(MAIL_001, Pass), Result(MAIL_002, Pass), MAIL_POLICY);
  }

  /**
   * Losing a PASS raises the score under a per-rule weight override: with MAIL-001
   * weighted 1, the session whose dialogue was cut short scores higher than the same
   * session parsed to its end.
   */
  lemma CutDialogueRaisesScore()
    ensures Raises(SessionUnits(MailSession(true, MAIL_POLICY), Everywhere(Fail)),
                   SessionUnits(MailSession(false, MAIL_POLICY), Everywhere(Fail)))
  {
    MailVerdicts(MAIL_POLICY);
    CutMailSession(true, Pass, Pass);
    CutMailSession(false, Unknown, Pass);
    MailTakeOver();
  }

  // ---- a group the documentation calls undecided passes --------------------------------------

  const PLAINTEXT_GROUP := GroupKey("session", "PLAINTEXT_AUTH")

  lemma PassBesideUnknown(a: RuleResult, r: RuleResult, c: RuleResult, policy: Policy)
    requires TwoGroups(a, r, c) && r.outcome == Unknown && c.outcome == Pass
    ensures var members := Members([a, r, c], GroupOf(r));
            && members != [] && UnitFor(GroupOf(r), members, policy).outcome == Pass
            && MethodologyOutcome(members) == Unknown
            && UnitFor(GroupOf(r), members, policy) in Units([a, r, c], policy)
  {
    GroupsOfThree(a, r, c);
    assert r in [r, c] && c in [r, c];
    UnitOutcome(GroupOf(r), [r, c], policy);
    var j := IndexOfUnit([a, r, c], policy, GroupOf(r));
  }

  /**
   * docs/scoring-methodology.md ranks UNKNOWN above PASS: by that order the mail session
   * cut short is undecided about its plaintext authentication, and the unit passes.
   */
  lemma UndecidedMailPasses()
    ensures var ctx := MailSession(false, MAIL_POLICY);
            var members := Members(RawResults(CATALOG, ctx, Everywhere(Fail)), PLAINTEXT_GROUP);
            && members != [] && MethodologyOutcome(members) == Unknown
            && UnitFor(PLAINTEXT_GROUP, members, MAIL_POLICY).outcome == Pass
            && UnitFor(PLAINTEXT_GROUP, members, MAIL_POLICY) in SessionUnits(ctx, Everywhere(Fail))
  {
    hide MailSession, Rules.Mail001, Rules.Mail002, RawResults, Result, SessionUnits, Units, UnitFor, Members;
    MailVerdicts(MAIL_POLICY);
    MailResultList(false, Unknown, Pass);
    CutMailSession(false, Unknown, Pass);
    PlaintextPasses();
  }

  lemma PlaintextPasses()
    ensures var results := [Result(CERT_003, Fail), Result(MAIL_001, Unknown), Result(MAIL_002, Pass)];
            var members := Members(results, PLAINTEXT_GROUP);
            && members != [] && MethodologyOutcome(members) == Unknown
            && UnitFor(PLAINTEXT_GROUP, members, MAIL_POLICY).outcome == Pass
            && UnitFor(PLAINTEXT_GROUP, members, MAIL_POLICY) in Units(results, MAIL_POLICY)
  {
    hide Units, UnitFor, Members, MethodologyOutcome;
    MailGroups(Fail, Unknown, Pass);
    assert GroupOf(Result(MAIL_001, Unknown)) == PLAINTEXT_GROUP;
    PassBesideUnknown(Result(CERT_003, Fail), Result(MAIL_001, Unknown), Result(MAIL_002, Pass), MAIL_POLICY);
  }

  // ---- disabling a failing rule lowers the score ----------------------------------------------

  /**
   * With TLS-CIPHER-003 weighted 1, disabling it lowers the score of the session that
   * negotiated RC4, on which it fails, and does not take weight off both sides: the
   * heavier TLS-CIPHER-005 takes its place.
   */
  lemma DisablingLowersScore()
    ensures NO_003_POLICY == Disabling(CIPHER_POLICY, "TLS-CIPHER-003")
    ensures var before := SessionUnits(TlsSession(Option.Some(RC4_SUITE), CIPHER_POLICY), Everywhere(Pass));
            var after := SessionUnits(TlsSession(Option.Some(RC4_SUITE), NO_003_POLICY), Everywhere(Pass));
            Raises(after, before) && !BothSidesDrop(before, after)
  {
    LightCipherDisabled();
    SuiteVerdicts(CIPHER_POLICY);
    SuiteVerdicts(NO_003_POLICY);
    CipherSession(Option.Some(RC4_SUITE), Fail, Fail);
    UndecidedSession(Option.Some(RC4_SUITE), Fail);
    UnitsReadWeights([Result(CERT_003, Pass), Result(CIPHER_005, Fail)], NO_003_POLICY, CIPHER_POLICY);
    CipherLeaves();
  }

  lemma LightCipherDisabled()
    ensures NO_003_POLICY == Disabling(CIPHER_POLICY, "TLS-CIPHER-003")
  {
    assert CATALOG[CIPHER_003].ruleId == "TLS-CIPHER-003";
    DisablingOneMore({CERT_003, CIPHER_003, CIPHER_005}, CIPHER_003);
    assert {CERT_003, CIPHER_003, CIPHER_005} - {CIPHER_003} == {CERT_003, CIPHER_005};
  }

  lemma DisablingOneMore(kept: set<nat>, i: nat)
    requires i < |CATALOG|
    ensures AllBut(kept) + {CATALOG[i].ruleId} == AllBut(kept - {i})
  {
  }

  lemma CipherLeaves()
    ensures var before := Units([Result(CERT_003, Pass), Result(CIPHER_003, Fail), Result(CIPHER_005, Fail)],
                                CIPHER_POLICY);
            var after := Units([Result(CERT_003, Pass), Result(CIPHER_005, Fail)], CIPHER_POLICY);
            Raises(after, before) && !BothSidesDrop(before, after)
  {
    CipherGroups(Pass, Fail, Fail);
    CipherWeights(Pass);
    CipherWeights(Fail);
    DisabledFailLowers(Result(CERT_003, Pass), Result(CIPHER_003, Fail), Result(CIPHER_005, Fail), CIPHER_POLICY);
  }

  // ---- a heavier failure raises the score -------------------------------------------------------

  /** TLS-CIPHER-003 is weighted above every severity. */
  const HEAVY_CIPHER: map<string, real> := map["TLS-CIPHER-003" := 20.0]

  const HEAVY_POLICY: Policy := Keeping({CERT_003, CIPHER_003, CIPHER_005}, HEAVY_CIPHER)

  /** The same policy, under which TLS-CIPHER-005 is CRITICAL. */
  const SEVERE_POLICY: Policy := HEAVY_POLICY.(ruleSeverityOverrides := map["TLS-CIPHER-005" := Critical])

  function SevereResult(): RuleResult { Result(CIPHER_005, Fail).(severity := Critical) }

  lemma HeavyWeights()
    ensures WeightOf(Result(CERT_003, Pass), HEAVY_POLICY) == 6.0
    ensures WeightOf(Result(CIPHER_003, Fail), HEAVY_POLICY) == 20.0
    ensures WeightOf(Result(CIPHER_005, Fail), HEAVY_POLICY) == 3.0
    ensures WeightOf(SevereResult(), HEAVY_POLICY) == 10.0
  {
    assert "TLS-CIPHER-005"[13] == '5' && "TLS-CIPHER-003"[13] == '3' && "CERT-003"[0] == 'C';
  }

  lemma SevereWeight()
    ensures WeightOf(SevereResult(), SEVERE_POLICY) == 10.0
  {
    HeavyWeights();
  }

  lemma HeavySession()
    ensures SessionUnits(TlsSession(Option.Some(RC4_SUITE), HEAVY_POLICY), Everywhere(Pass)) ==
            Units([Result(CERT_003, Pass), Result(CIPHER_003, Fail), Result(CIPHER_005, Fail)], HEAVY_POLICY)
  {
    var ctx := TlsSession(Option.Some(RC4_SUITE), HEAVY_POLICY);
    SuiteVerdicts(HEAVY_POLICY);
    UnitsOfSession(ctx, Everywhere(Pass));
    ThreeKept(ctx, Everywhere(Pass), CERT_003, CIPHER_003, CIPHER_005);
    CertResult(ctx, Pass);
    CipherResults(ctx, Pass);
  }

  lemma UnchangedResults(ctx: Rules.Context)
    requires ctx == TlsSession(Option.Some(RC4_SUITE), SEVERE_POLICY)
    ensures ResultOf(ctx, Everywhere(Pass))(CATALOG[CERT_003]) == Result(CERT_003, Pass)
    ensures ResultOf(ctx, Everywhere(Pass))(CATALOG[CIPHER_003]) == Result(CIPHER_003, Fail)
  {
    hide Rules.Cipher003;
    SuiteVerdicts(SEVERE_POLICY);
    SevereSeverities();
    ResultIs(ctx, Pass, CATALOG[CERT_003]);
    ResultIs(ctx, Pass, CATALOG[CIPHER_003]);
  }

  lemma RaisedResult(ctx: Rules.Context)
    requires ctx == TlsSession(Option.Some(RC4_SUITE), SEVERE_POLICY)
    ensures ResultOf(ctx, Everywhere(Pass))(CATALOG[CIPHER_005]) == SevereResult()
  {
    hide Rules.Cipher005;
    SuiteVerdicts(SEVERE_POLICY);
    SevereSeverities();
    ResultIs(ctx, Pass, CATALOG[CIPHER_005]);
  }

  lemma SevereSeverities()
    ensures forall s :: SEVERE_POLICY.SeverityFor(CATALOG[CERT_003].ruleId, s) == s
    ensures forall s :: SEVERE_POLICY.SeverityFor(CATALOG[CIPHER_003].ruleId, s) == s
    ensures forall s :: SEVERE_POLICY.SeverityFor(CATALOG[CIPHER_005].ruleId, s) == Critical
  {
    assert "TLS-CIPHER-005"[13] == '5' && "TLS-CIPHER-003"[13] == '3' && "CERT-003"[0] == 'C';
  }

  lemma SevereSession()
    ensures SessionUnits(TlsSession(Option.Some(RC4_SUITE), SEVERE_POLICY), Everywhere(Pass)) ==
            Units([Result(CERT_003, Pass), Result(CIPHER_003, Fail), SevereResult()], SEVERE_POLICY)
  {
    var ctx := TlsSession(Option.Some(RC4_SUITE), SEVERE_POLICY);
    UnitsOfSession(ctx, Everywhere(Pass));
    ThreeKept(ctx, Everywhere(Pass), CERT_003, CIPHER_003, CIPHER_005);
    UnchangedResults(ctx);
    RaisedResult(ctx);
  }

  lemma SevereTakeOver()
    ensures Raises(Units([Result(CERT_003, Pass), Result(CIPHER_003, Fail), Result(CIPHER_005, Fail)], HEAVY_POLICY),
                   Units([Result(CERT_003, Pass), Result(CIPHER_003, Fail), SevereResult()], HEAVY_POLICY))
  {
    CipherGroups(Pass, Fail, Fail);
    HeavyWeights();
    HeavierFailureRaises(Result(CERT_003, Pass), Result(CIPHER_003, Fail), Result(CIPHER_005, Fail), SevereResult(),
                         HEAVY_POLICY);
  }

  /**
   * A heavier failure scores above a lighter one under a weight override: with
   * TLS-CIPHER-003 weighted 20, making TLS-CIPHER-005 CRITICAL takes its failure from
   * weight 3 to 10 and raises the score of the session that negotiated RC4.
   */
  lemma HeavierSeverityRaisesScore()
    ensures WeightOf(SevereResult(), SEVERE_POLICY) > WeightOf(Result(CIPHER_005, Fail), HEAVY_POLICY)
    ensures Raises(SessionUnits(TlsSession(Option.Some(RC4_SUITE), HEAVY_POLICY), Everywhere(Pass)),
                   SessionUnits(TlsSession(Option.Some(RC4_SUITE), SEVERE_POLICY), Everywhere(Pass)))
  {
    hide TlsSession, SessionUnits, Units, Result, SevereResult, Raises;
    HeavyWeights();
    SevereWeight();
    HeavySession();
    SevereSession();
    UnitsReadWeights([Result(CERT_003, Pass), Result(CIPHER_003, Fail), SevereResult()], SEVERE_POLICY, HEAVY_POLICY);
    SevereTakeOver();
  }

  // ---- a less urgent band above a more urgent one -----------------------------------------------

  /** A CRITICAL finding of low confidence in one session and a confirmed HIGH one in another. */
  const TWO_FINDINGS: seq<Finding> := [
    Finding("find-1", "TLS-CIPHER-001", Critical, LowConfidence, "capture", "session-1", "fingerprint"),
    Finding("find-2", "TLS-KEX-001", High, Confirmed, "capture", "session-2", "fingerprint")]

  /** Priority bands are not monotone along rank: P2 is listed above P1. */
  lemma InvertedBands(policy: Policy)
    ensures var out := Prioritised(TWO_FINDINGS, map[], policy);
            && |out| == 2
            && out[0].findingId == "find-1" && out[0].priority == P2
            && out[1].findingId == "find-2" && out[1].priority == P1
  {
    var entries := Map(TWO_FINDINGS, EntryOf(TWO_FINDINGS, map[], policy));
    assert KeyOf(entries[0])[0] == Num(0) && KeyOf(entries[1])[0] == Num(1);
    SortOfTwo(entries, KeyOf);
  }

  lemma SortOfTwo<T>(s: seq<T>, key: T -> Key)
    requires |s| == 2 && !Less(key(s[1]), key(s[0]))
    ensures SortBy(s, key) == s
  {
    assert s[..1] == [s[0]] && [s[0]][..0] == [];
    assert SortBy([s[0]], key) == [s[0]];
    assert Insert(s[1], [s[0]], key) == [s[0]] + Insert(s[1], [s[0]][1..], key);
  }
}
