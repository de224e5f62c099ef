/**
 * The rules that share a dedup group with another rule (assessment/rules.py), and
 * the second implementation of the certificate-date check
 * (certificates/validate.py). Times are instants on one clock.
 */
module Rules {
  import opened Assessment

  // ---- what a rule may read -------------------------------------------------

  datatype Suite = Suite(encryption: string, anonymous: bool, tls13Only: bool)

  datatype Visibility = Observed | EncryptedTls13 | AnonymousSuite | Unavailable

  datatype Leaf = Leaf(notBefore: int, notAfter: int)

  datatype ValidationStatus = Passed | Failed | NotAvailable

  datatype DateCheck = DateCheck(status: ValidationStatus, referenceTime: Option<int>)

  datatype Tls = Tls(
    selected: Option<int>, visibility: Visibility, certificates: seq<Leaf>,
    dates: Option<DateCheck>)

  datatype DetectionStatus = DetectionConfirmed | DetectionProbable | PortHint | NoDetection

  datatype UpgradeState =
    | Plaintext | UpgradeAdvertised | UpgradeRequested | UpgradeAccepted
    | UpgradeRejected | TlsBytesObserved | Incomplete | Undetermined

  datatype Upgrade = Upgrade(state: UpgradeState, requested: bool)

  datatype Protocol = Protocol(
    detection: DetectionStatus,
    fullyParsed: bool,
    attemptsBeforeUpgrade: seq<bool>,
    upgrade: Option<Upgrade>)

  datatype Context = Context(
    captureId: string,
    sessionId: string,
    firstPacket: int,
    tls: Option<Tls>,
    protocol: Option<Protocol>,
    policy: Policy,
    referenceTime: Option<int>,
    registry: map<int, Suite>)

  function SuiteOf(ctx: Context): Option<Suite> {
    if ctx.tls.None? || ctx.tls.value.selected.None? then None
    else if ctx.tls.value.selected.value in ctx.registry
    then Option.Some(ctx.registry[ctx.tls.value.selected.value])
    else None
  }

  // ---- cipher suite ---------------------------------------------------------

  /** `PROHIBITED_ENCRYPTION`: each prohibited algorithm and the one rule that owns it. */
  const PROHIBITED: map<string, string> := map[
    "NULL" := "TLS-CIPHER-001",
    "RC4_128" := "TLS-CIPHER-003",
    "RC4_40" := "TLS-CIPHER-003",
    "DES_CBC" := "TLS-CIPHER-003",
    "DES40_CBC" := "TLS-CIPHER-003",
    "RC2_CBC_40" := "TLS-CIPHER-003",
    "3DES_EDE_CBC" := "TLS-CIPHER-004"]

  const APPROVED: set<string> :=
    {"AES_128_GCM", "AES_256_GCM", "AES_128_CCM", "AES_128_CCM_8", "CHACHA20_POLY1305"}

  /** `prohibited_for(rule_id)`, as a membership test. */
  predicate OwnedBy(encryption: string, ruleId: string) {
    encryption in PROHIBITED && PROHIBITED[encryption] == ruleId
  }

  /** `_cipher_guard`: the outcome when the suite cannot be assessed. */
  function CipherGuard(ctx: Context): Option<Outcome> {
    if ctx.tls.None? then Option.Some(NotApplicable)
    else if ctx.tls.value.selected.None? then Option.Some(Unknown)
    else if SuiteOf(ctx).None? then Option.Some(Unknown)
    else None
  }

  function FailWhen(condition: bool): Outcome { if condition then Fail else Pass }

  function Cipher001(ctx: Context): Outcome {
    if CipherGuard(ctx).Some? then CipherGuard(ctx).value
    else FailWhen(SuiteOf(ctx).value.encryption == "NULL")
  }

  function Cipher002(ctx: Context): Outcome {
    if CipherGuard(ctx).Some? then CipherGuard(ctx).value
    else if SuiteOf(ctx).value.tls13Only then NotApplicable
    else FailWhen(SuiteOf(ctx).value.anonymous)
  }

  function Cipher003(ctx: Context): Outcome {
    if CipherGuard(ctx).Some? then CipherGuard(ctx).value
    else FailWhen(OwnedBy(SuiteOf(ctx).value.encryption, "TLS-CIPHER-003"))
  }

  function Cipher004(ctx: Context): Outcome {
    if CipherGuard(ctx).Some? then CipherGuard(ctx).value
    else FailWhen(OwnedBy(SuiteOf(ctx).value.encryption, "TLS-CIPHER-004"))
  }

  function Cipher005(ctx: Context): Outcome {
    if CipherGuard(ctx).Some? then CipherGuard(ctx).value
    else FailWhen(SuiteOf(ctx).value.encryption !in APPROVED)
  }

  // ---- certificate dates ----------------------------------------------------

  /** `_certificate_guard`: every way not to have a leaf is NOT_APPLICABLE. */
  predicate CertificateAvailable(ctx: Context) {
    && ctx.tls.Some?
    && ctx.tls.value.visibility == Observed
    && ctx.tls.value.certificates != []
  }

  function ReferenceTime(ctx: Context): Option<int> {
    if ctx.policy.currentTimeMode then ctx.referenceTime
    else if ctx.tls.Some? && ctx.tls.value.dates.Some?
            && ctx.tls.value.dates.value.referenceTime.Some?
    then ctx.tls.value.dates.value.referenceTime
    else Option.Some(ctx.firstPacket)
  }

  function CertDates(ctx: Context, expired: bool): Outcome {
    if !CertificateAvailable(ctx) then NotApplicable
    else if ReferenceTime(ctx).None? then Unknown
    else
      var leaf, reference := ctx.tls.value.certificates[0], ReferenceTime(ctx).value;
      FailWhen(if expired then reference > leaf.notAfter else reference < leaf.notBefore)
  }

  /** `_dates` of the validation layer. */
  function Dates(leaf: Leaf, captureTime: Option<int>): DateCheck {
    match captureTime
    case None => DateCheck(NotAvailable, None)
    case Some(t) =>
      DateCheck(if leaf.notBefore <= t <= leaf.notAfter then Passed else Failed, captureTime)
  }

  // ---- email transport ------------------------------------------------------

  predicate MailIdentified(ctx: Context) {
    && ctx.protocol.Some?
    && ctx.protocol.value.detection in {DetectionConfirmed, DetectionProbable}
  }

  predicate UpgradeSucceeded(ctx: Context) {
    && ctx.protocol.Some? && ctx.protocol.value.upgrade.Some?
    && ctx.protocol.value.upgrade.value.state in {UpgradeAccepted, TlsBytesObserved}
  }

  function Mail001(ctx: Context): Outcome {
    if !MailIdentified(ctx) then NotApplicable
    else if ctx.protocol.value.attemptsBeforeUpgrade == [] then
      if ctx.protocol.value.fullyParsed then Pass else Unknown
    else FailWhen(!UpgradeSucceeded(ctx))
  }

  function Mail002(ctx: Context): Outcome {
    if !MailIdentified(ctx) then NotApplicable
    else if !UpgradeSucceeded(ctx) then NotApplicable
    else FailWhen(true in ctx.protocol.value.attemptsBeforeUpgrade)
  }

  function Mail003(ctx: Context): Outcome {
    if !MailIdentified(ctx) then NotApplicable
    else if ctx.protocol.value.upgrade.None? || !ctx.protocol.value.upgrade.value.requested
    then NotApplicable
    else if ctx.protocol.value.upgrade.value.state == UpgradeRejected then Fail
    else if UpgradeSucceeded(ctx) then Pass
    else Unknown
  }

  function Mail004(ctx: Context): Outcome {
    if !MailIdentified(ctx) then NotApplicable
    else if !UpgradeSucceeded(ctx) then NotApplicable
    else FailWhen(ctx.protocol.value.upgrade.value.state == UpgradeAccepted)
  }

  // ---- how the rules of one group relate ------------------------------------

  /** At most one cipher rule owns a suite, and a prohibited suite is never approved. */
  lemma CipherOwnership(ctx: Context)
    ensures !(Cipher001(ctx) == Fail && Cipher003(ctx) == Fail)
    ensures !(Cipher001(ctx) == Fail && Cipher004(ctx) == Fail)
    ensures !(Cipher003(ctx) == Fail && Cipher004(ctx) == Fail)
    ensures Cipher001(ctx) == Fail || Cipher003(ctx) == Fail || Cipher004(ctx) == Fail
            ==> Cipher005(ctx) == Fail
  {
    assert "TLS-CIPHER-001"[13] == '1' && "TLS-CIPHER-003"[13] == '3' && "TLS-CIPHER-004"[13] == '4';
    if SuiteOf(ctx).Some? {
      var e := SuiteOf(ctx).value.encryption;
      if e in PROHIBITED { ProhibitedIsNotApproved(e); }
      assert "NULL" in PROHIBITED && PROHIBITED["NULL"] == "TLS-CIPHER-001" by { ProhibitedNames(); }
    }
  }

  /** The seven table keys are seven different names. */
  lemma ProhibitedNames()
    ensures PROHIBITED["NULL"] == "TLS-CIPHER-001"
  {
    assert "NULL"[0] == 'N' && "RC4_128"[0] == 'R' && "RC4_40"[0] == 'R' && "DES_CBC"[0] == 'D'
        && "DES40_CBC"[0] == 'D' && "RC2_CBC_40"[0] == 'R' && "3DES_EDE_CBC"[0] == '3';
  }

  /**
   * Who owns what: NULL and 3DES have a rule of their own, because their weaknesses and
   * remedies differ, and every other prohibited algorithm is the broken-cipher rule's.
   */
  lemma EachOwnsItsOwn(e: string)
    requires e in PROHIBITED
    ensures OwnedBy(e, "TLS-CIPHER-001") <==> e == "NULL"
    ensures OwnedBy(e, "TLS-CIPHER-004") <==> e == "3DES_EDE_CBC"
    ensures OwnedBy(e, "TLS-CIPHER-003") <==> e != "NULL" && e != "3DES_EDE_CBC"
  {
    ProhibitedNames();
    assert "TLS-CIPHER-001"[13] == '1' && "TLS-CIPHER-003"[13] == '3' && "TLS-CIPHER-004"[13] == '4';
  }

  /** Approved names start with A or C; no prohibited name does. */
  lemma ProhibitedIsNotApproved(e: string)
    requires e in PROHIBITED
    ensures e !in APPROVED
  {
    assert e != "" && e[0] in {'N', 'R', 'D', '3'};
    assert forall a :: a in APPROVED ==> a[0] in {'A', 'C'};
  }

  /** Every prohibited algorithm is owned by one of the three rules, so one of them fails. */
  lemma ProhibitedOwners(ctx: Context)
    ensures SuiteOf(ctx).Some? ==>
              (SuiteOf(ctx).value.encryption in PROHIBITED <==>
               Cipher001(ctx) == Fail || Cipher003(ctx) == Fail || Cipher004(ctx) == Fail)
  {
    ProhibitedNames();
    if SuiteOf(ctx).Some? && SuiteOf(ctx).value.encryption in PROHIBITED {
      var e := SuiteOf(ctx).value.encryption;
      assert e == "NULL" || OwnedBy(e, "TLS-CIPHER-003") || OwnedBy(e, "TLS-CIPHER-004");
    }
  }

  lemma MailOutcomesExclude(ctx: Context)
    ensures !(Mail001(ctx) == Fail && Mail002(ctx) == Fail)
    ensures !(Mail003(ctx) == Fail && Mail004(ctx) == Fail)
  {
  }

  /** Both date rules fail exactly for an inverted window strictly around the reference. */
  lemma DateRulesBothFail(ctx: Context)
    ensures CertDates(ctx, true) == Fail && CertDates(ctx, false) == Fail <==>
            && CertificateAvailable(ctx) && ReferenceTime(ctx).Some?
            && ctx.tls.value.certificates[0].notAfter < ReferenceTime(ctx).value
            && ReferenceTime(ctx).value < ctx.tls.value.certificates[0].notBefore
  {
  }

  /**
   * The validation layer and the two date rules never disagree: in historical
   * mode, for an observed certificate checked at a capture time, `_dates` FAILS
   * exactly when one of the rules does, and PASSES exactly when both pass.
   */
  lemma DatesAgreeWithRules(ctx: Context, captureTime: Option<int>)
    requires !ctx.policy.currentTimeMode && CertificateAvailable(ctx) && captureTime.Some?
    requires ctx.tls.value.dates ==
             Option.Some(Dates(ctx.tls.value.certificates[0], captureTime))
    ensures ctx.tls.value.dates.value.status == Failed <==>
            CertDates(ctx, true) == Fail || CertDates(ctx, false) == Fail
    ensures ctx.tls.value.dates.value.status == Passed <==>
            CertDates(ctx, true) == Pass && CertDates(ctx, false) == Pass
  {
  }
}
