/**
 * What a session reports under each rule id (assessment/rules.py through
 * assessment/evaluator.py), for the rules that share a group with another: which of
 * the two or five speaks, told apart by facts about the session rather than by the rules.
 */
module RuleReports {
  import opened Sums
  import opened Assessment
  import opened Evaluator
  import opened Agreement
  import opened SessionEvaluation
  import Rules

  /** The weight column of the rule table in docs/security-policy.md, by rule id. */
  const DOCUMENTED_WEIGHTS: seq<real> := [
    6.0, 6.0, 6.0, 6.0, 6.0, 6.0, 3.0,
    10.0, 6.0, 3.0, 1.0, 6.0, 3.0, 0.0,
    10.0, 10.0, 6.0, 3.0, 3.0, 0.0,
    6.0, 0.0, 6.0, 0.0, 1.0]

  /** Its de-duplication group column. */
  const DOCUMENTED_GROUPS: seq<string> := [
    "CERT_VALIDITY", "CERT_VALIDITY", "CERT_KEY_STRENGTH",
    "CERT_SIGNATURE", "CERT_CHAIN", "CERT_IDENTITY",
    "CERT_EKU", "PLAINTEXT_AUTH", "PLAINTEXT_AUTH",
    "UPGRADE_OUTCOME", "UPGRADE_OUTCOME", "PLAINTEXT_CONTINUATION",
    "UPGRADE_AVAILABILITY", "IMPLICIT_TLS_VISIBILITY", "NEGOTIATED_CIPHER_SUITE",
    "NEGOTIATED_CIPHER_SUITE", "NEGOTIATED_CIPHER_SUITE", "NEGOTIATED_CIPHER_SUITE",
    "NEGOTIATED_CIPHER_SUITE", "UNKNOWN_CIPHER_SUITE", "FORWARD_SECRECY",
    "HYBRID_GROUP", "NEGOTIATED_PROTOCOL_VERSION", "OFFERED_PROTOCOL_VERSION",
    "NEGOTIATION_OUTCOME"]

  lemma GroupsAreDocumented(i: nat)
    requires i < |CATALOG|
    ensures |DOCUMENTED_GROUPS| == |CATALOG| && CATALOG[i].dedupGroup == DOCUMENTED_GROUPS[i]
  {
  }

  /** The catalogue's severities under the published weights are the documented weights. */
  lemma WeightsAreDocumented(i: nat)
    requires i < |CATALOG|
    ensures |DOCUMENTED_WEIGHTS| == |CATALOG| && CATALOG[i].severity in SEVERITY_WEIGHTS
    ensures SEVERITY_WEIGHTS[CATALOG[i].severity] == DOCUMENTED_WEIGHTS[i]
  {
    if CATALOG[i].severity == High { assert SEVERITY_WEIGHTS[High] == 6.0; }
  }

  /** The session's results hold this outcome for this rule id. */
  ghost predicate Reports(ctx: Rules.Context, evidence: Evidence, id: string, o: Outcome) {
    exists r :: r in SessionResults(ctx, evidence) && r.ruleId == id && r.outcome == o
  }

  lemma ReportsVerdict(ctx: Rules.Context, evidence: Evidence, i: nat)
    requires i < |CATALOG| && ctx.policy.Enabled(CATALOG[i].ruleId)
    ensures forall o :: Reports(ctx, evidence, CATALOG[i].ruleId, o) <==> Verdict(CATALOG[i], ctx, evidence) == o
  {
    hide Verdict, SessionResults;
    var own := ResultAt(ctx, evidence, i);
    SessionResultsMembership(ctx, evidence, i);
    ResultAtVerdict(ctx, evidence, i);
    SessionResultsShape(ctx, evidence);
    forall r | r in SessionResults(ctx, evidence) && r.ruleId == CATALOG[i].ruleId ensures r == own {
      IdsDecide(SessionResults(ctx, evidence), r, own);
    }
  }

  lemma ResultAtVerdict(ctx: Rules.Context, evidence: Evidence, i: nat)
    requires i < |CATALOG|
    ensures ResultAt(ctx, evidence, i).ruleId == CATALOG[i].ruleId
    ensures ResultAt(ctx, evidence, i).outcome == Verdict(CATALOG[i], ctx, evidence)
  {
    MarkedResult(ctx, evidence, CATALOG[i], RawResults(CATALOG, ctx, evidence));
  }

  /**
   * Whatever a rule decides, its result carries the evidence of that rule, the capture and
   * session it was found in, and the severity the policy gives the rule.
   */
  lemma ResultsCarryEvidence(ctx: Rules.Context, evidence: Evidence, r: RuleResult) returns (i: nat)
    requires r in SessionResults(ctx, evidence)
    ensures i < |CATALOG| && r.ruleId == CATALOG[i].ruleId && r.dedupGroup == CATALOG[i].dedupGroup
    ensures r.confidence == evidence.confidence(r.ruleId)
    ensures r.offsets == evidence.offsets(r.ruleId) && r.packets == evidence.packets(r.ruleId)
    ensures r.captureId == ctx.captureId && r.sessionId == ctx.sessionId && r.policyId == ctx.policy.policyId
    ensures r.severity == if r.ruleId in ctx.policy.ruleSeverityOverrides
                          then ctx.policy.ruleSeverityOverrides[r.ruleId] else CATALOG[i].severity
  {
    i := SessionResultOrigin(ctx, evidence, r);
    ResultFields(ctx, evidence, CATALOG[i], RawResults(CATALOG, ctx, evidence));
  }

  lemma ResultFields(ctx: Rules.Context, evidence: Evidence, def: RuleDefinition, all: seq<RuleResult>)
    ensures var r := Marked(all)(ResultOf(ctx, evidence)(def));
            && r.confidence == evidence.confidence(def.ruleId)
            && r.offsets == evidence.offsets(def.ruleId) && r.packets == evidence.packets(def.ruleId)
            && r.captureId == ctx.captureId && r.sessionId == ctx.sessionId && r.policyId == ctx.policy.policyId
            && r.severity == (if def.ruleId in ctx.policy.ruleSeverityOverrides
                              then ctx.policy.ruleSeverityOverrides[def.ruleId] else def.severity)
  {
  }

  // ---- certificate dates ------------------------------------------------------------

  lemma CertReports(ctx: Rules.Context, evidence: Evidence)
    requires ctx.policy.Enabled("CERT-001") && ctx.policy.Enabled("CERT-002")
    ensures forall o :: Reports(ctx, evidence, "CERT-001", o) <==> Rules.CertDates(ctx, true) == o
    ensures forall o :: Reports(ctx, evidence, "CERT-002", o) <==> Rules.CertDates(ctx, false) == o
  {
    hide Reports, Rules.CertDates;
    CertChecks();
    ReportsVerdict(ctx, evidence, 0);
    ReportsVerdict(ctx, evidence, 1);
  }

  /** A session whose certificate was captured and is judged at instant `t`. */
  ghost predicate JudgedAt(ctx: Rules.Context, leaf: Rules.Leaf, t: int) {
    && Rules.CertificateAvailable(ctx) && ctx.tls.value.certificates[0] == leaf
    && Rules.ReferenceTime(ctx) == Option.Some(t)
    && ctx.policy.Enabled("CERT-001") && ctx.policy.Enabled("CERT-002")
  }

  /**
   * Time runs one way: judged later, the same certificate never stops having expired, and
   * never starts being not yet valid.
   */
  lemma LaterNeverUnexpires(
    ctx: Rules.Context, later: Rules.Context, evidence: Evidence, evidence': Evidence,
    leaf: Rules.Leaf, t: int, t': int)
    requires JudgedAt(ctx, leaf, t) && JudgedAt(later, leaf, t') && t <= t'
    ensures Reports(ctx, evidence, "CERT-001", Fail) ==> Reports(later, evidence', "CERT-001", Fail)
    ensures Reports(ctx, evidence, "CERT-002", Pass) ==> Reports(later, evidence', "CERT-002", Pass)
  {
    hide Reports;
    CertReports(ctx, evidence);
    CertReports(later, evidence');
  }

  /** The certificate would have been accepted at instant `t`. */
  predicate AcceptableAt(leaf: Rules.Leaf, t: int) {
    Rules.Dates(leaf, Option.Some(t)).status == Rules.ValidationStatus.Passed
  }

  /**
   * Which of the two date rules speaks: neither at an instant the validation layer accepts;
   * at one it refuses, CERT-001 reports every certificate acceptable at some earlier
   * instant and CERT-002 every one acceptable at some later instant, and on a window that
   * holds an instant at all that is exactly when they do.
   */
  lemma DateRulesByAcceptability(ctx: Rules.Context, evidence: Evidence, leaf: Rules.Leaf, t: int)
    requires JudgedAt(ctx, leaf, t)
    ensures AcceptableAt(leaf, t) <==>
            Reports(ctx, evidence, "CERT-001", Pass) && Reports(ctx, evidence, "CERT-002", Pass)
    ensures !AcceptableAt(leaf, t) && (exists e :: e < t && AcceptableAt(leaf, e)) <==>
            Reports(ctx, evidence, "CERT-001", Fail) && leaf.notBefore <= leaf.notAfter
    ensures !AcceptableAt(leaf, t) && (exists e :: e > t && AcceptableAt(leaf, e)) <==>
            Reports(ctx, evidence, "CERT-002", Fail) && leaf.notBefore <= leaf.notAfter
  {
    hide Reports;
    CertReports(ctx, evidence);
    if leaf.notBefore <= leaf.notAfter {
      assert AcceptableAt(leaf, leaf.notBefore) && AcceptableAt(leaf, leaf.notAfter);
    }
  }

  /** A certificate was sent, in the clear, and captured. */
  predicate CertificateSeen(ctx: Rules.Context) {
    match ctx.tls
    case None => false
    case Some(tls) =>
      match tls.visibility
      case Observed => |tls.certificates| > 0
      case EncryptedTls13 => false
      case AnonymousSuite => false
      case Unavailable => false
  }

  /** Without a certificate neither speaks, and without a reference time neither decides. */
  lemma DateRulesUndecided(ctx: Rules.Context, evidence: Evidence)
    requires ctx.policy.Enabled("CERT-001") && ctx.policy.Enabled("CERT-002")
    ensures Reports(ctx, evidence, "CERT-001", NotApplicable) <==> !CertificateSeen(ctx)
    ensures Reports(ctx, evidence, "CERT-002", NotApplicable) <==> !CertificateSeen(ctx)
    ensures CertificateSeen(ctx) ==>
              (Reports(ctx, evidence, "CERT-001", Unknown) <==> Rules.ReferenceTime(ctx).None?)
              && (Reports(ctx, evidence, "CERT-002", Unknown) <==> Rules.ReferenceTime(ctx).None?)
  {
    hide Reports;
    CertReports(ctx, evidence);
  }

  // ---- the instant a certificate is judged at ------------------------------------------

  /**
   * Historical mode never looks at the analysis clock, and always has an instant: the one
   * the validation layer judged at, or the session's first packet. Current mode looks at
   * nothing but the clock.
   */
  lemma ReferenceTimeSources(ctx: Rules.Context, clock: Option<int>)
    ensures !ctx.policy.currentTimeMode ==>
              Rules.ReferenceTime(ctx).Some?
              && Rules.ReferenceTime(ctx.(referenceTime := clock)) == Rules.ReferenceTime(ctx)
    ensures ctx.policy.currentTimeMode ==> Rules.ReferenceTime(ctx.(referenceTime := clock)) == clock
    ensures !ctx.policy.currentTimeMode && ctx.tls.Some? && ctx.tls.value.dates.Some? ==>
              forall t :: ctx.tls.value.dates.value.referenceTime == Option.Some(t)
                          ==> Rules.ReferenceTime(ctx) == Option.Some(t)
    ensures !ctx.policy.currentTimeMode
            && (ctx.tls.None? || ctx.tls.value.dates.None? || ctx.tls.value.dates.value.referenceTime.None?) ==>
              Rules.ReferenceTime(ctx) == Option.Some(ctx.firstPacket)
  {
  }

  // ---- mail ---------------------------------------------------------------------------

  ghost predicate MailEnabled(policy: Policy) {
    policy.Enabled("MAIL-001") && policy.Enabled("MAIL-002") && policy.Enabled("MAIL-003") && policy.Enabled("MAIL-004")
  }

  lemma MailRuleReports(ctx: Rules.Context, evidence: Evidence)
    requires MailEnabled(ctx.policy)
    ensures forall o :: Reports(ctx, evidence, "MAIL-001", o) <==> Rules.Mail001(ctx) == o
    ensures forall o :: Reports(ctx, evidence, "MAIL-002", o) <==> Rules.Mail002(ctx) == o
    ensures forall o :: Reports(ctx, evidence, "MAIL-003", o) <==> Rules.Mail003(ctx) == o
    ensures forall o :: Reports(ctx, evidence, "MAIL-004", o) <==> Rules.Mail004(ctx) == o
  {
    hide Reports, Rules.Mail001, Rules.Mail002, Rules.Mail003, Rules.Mail004;
    MailChecks();
    ReportsVerdict(ctx, evidence, 7);
    ReportsVerdict(ctx, evidence, 8);
    ReportsVerdict(ctx, evidence, 9);
    ReportsVerdict(ctx, evidence, 10);
  }

  /** The server accepted the upgrade. */
  predicate Upgraded(p: Rules.Protocol) {
    && p.upgrade.Some?
    && (p.upgrade.value.state == Rules.UpgradeAccepted || p.upgrade.value.state == Rules.TlsBytesObserved)
  }

  /** Some authentication command went out with no accepted upgrade in effect. */
  predicate Exposed(p: Rules.Protocol) {
    exists k :: 0 <= k < |p.attemptsBeforeUpgrade| && (!Upgraded(p) || p.attemptsBeforeUpgrade[k])
  }

  lemma FirstExposes(p: Rules.Protocol, early: bool)
    requires p.attemptsBeforeUpgrade != [] && p.attemptsBeforeUpgrade[0] == early && !Upgraded(p)
    ensures Exposed(p)
  {
  }

  /** A session in which mail was identified from its payload. */
  predicate Mail(ctx: Rules.Context) {
    && ctx.protocol.Some?
    && (ctx.protocol.value.detection == Rules.DetectionConfirmed
        || ctx.protocol.value.detection == Rules.DetectionProbable)
  }

  /**
   * Credentials sent in the clear are reported exactly, and once: under MAIL-001 when no
   * upgrade was ever accepted, under MAIL-002 when one was.
   */
  lemma ExposureIsReportedOnce(ctx: Rules.Context, evidence: Evidence)
    requires MailEnabled(ctx.policy) && Mail(ctx)
    ensures Reports(ctx, evidence, "MAIL-001", Fail) <==> Exposed(ctx.protocol.value) && !Upgraded(ctx.protocol.value)
    ensures Reports(ctx, evidence, "MAIL-002", Fail) <==> Exposed(ctx.protocol.value) && Upgraded(ctx.protocol.value)
    ensures Reports(ctx, evidence, "MAIL-002", NotApplicable) <==> !Upgraded(ctx.protocol.value)
    ensures Reports(ctx, evidence, "MAIL-001", Unknown) <==>
            ctx.protocol.value.attemptsBeforeUpgrade == [] && !ctx.protocol.value.fullyParsed
  {
    hide Reports;
    MailRuleReports(ctx, evidence);
    var sent := ctx.protocol.value.attemptsBeforeUpgrade;
    if true in sent {
      var k :| 0 <= k < |sent| && sent[k];
    }
    if sent != [] && !Upgraded(ctx.protocol.value) { FirstExposes(ctx.protocol.value, sent[0]); }
  }

  /**
   * A requested upgrade: refused, it is a finding of MAIL-003 alone; accepted, it is one of
   * MAIL-004 exactly when no TLS bytes followed; with no answer, MAIL-003 stays undecided.
   */
  lemma UpgradeIsReportedOnce(ctx: Rules.Context, evidence: Evidence)
    requires MailEnabled(ctx.policy) && Mail(ctx)
    requires ctx.protocol.value.upgrade.Some? && ctx.protocol.value.upgrade.value.requested
    ensures var state := ctx.protocol.value.upgrade.value.state;
            && (Reports(ctx, evidence, "MAIL-003", Fail) <==> state == Rules.UpgradeRejected)
            && (Reports(ctx, evidence, "MAIL-003", Pass) <==> Upgraded(ctx.protocol.value))
            && (Reports(ctx, evidence, "MAIL-003", Unknown) <==>
                state != Rules.UpgradeRejected && !Upgraded(ctx.protocol.value))
            && (Reports(ctx, evidence, "MAIL-004", NotApplicable) <==> !Upgraded(ctx.protocol.value))
            && (Reports(ctx, evidence, "MAIL-004", Fail) <==> state == Rules.UpgradeAccepted)
            && (Reports(ctx, evidence, "MAIL-004", Pass) <==> state == Rules.TlsBytesObserved)
  {
    hide Reports;
    MailRuleReports(ctx, evidence);
  }

  /** Outside an identified mail session, and for an upgrade nobody asked for, nothing is reported. */
  lemma NoMailNoReport(ctx: Rules.Context, evidence: Evidence)
    requires MailEnabled(ctx.policy)
    ensures !Mail(ctx) ==>
              && Reports(ctx, evidence, "MAIL-001", NotApplicable) && Reports(ctx, evidence, "MAIL-002", NotApplicable)
              && Reports(ctx, evidence, "MAIL-003", NotApplicable) && Reports(ctx, evidence, "MAIL-004", NotApplicable)
    ensures Mail(ctx) && (ctx.protocol.value.upgrade.None? || !ctx.protocol.value.upgrade.value.requested) ==>
              Reports(ctx, evidence, "MAIL-003", NotApplicable)
  {
    hide Reports;
    MailRuleReports(ctx, evidence);
  }

  // ---- the negotiated suite -------------------------------------------------------------

  ghost predicate CiphersEnabled(policy: Policy) {
    && policy.Enabled("TLS-CIPHER-001") && policy.Enabled("TLS-CIPHER-002") && policy.Enabled("TLS-CIPHER-003")
    && policy.Enabled("TLS-CIPHER-004") && policy.Enabled("TLS-CIPHER-005")
  }

  lemma CipherRuleReports(ctx: Rules.Context, evidence: Evidence)
    requires CiphersEnabled(ctx.policy)
    ensures forall o :: Reports(ctx, evidence, "TLS-CIPHER-001", o) <==> Rules.Cipher001(ctx) == o
    ensures forall o :: Reports(ctx, evidence, "TLS-CIPHER-002", o) <==> Rules.Cipher002(ctx) == o
    ensures forall o :: Reports(ctx, evidence, "TLS-CIPHER-003", o) <==> Rules.Cipher003(ctx) == o
    ensures forall o :: Reports(ctx, evidence, "TLS-CIPHER-004", o) <==> Rules.Cipher004(ctx) == o
    ensures forall o :: Reports(ctx, evidence, "TLS-CIPHER-005", o) <==> Rules.Cipher005(ctx) == o
  {
    hide Reports, Rules.Cipher001, Rules.Cipher002, Rules.Cipher003, Rules.Cipher004, Rules.Cipher005;
    CipherIds();
    CipherChecks();
    ReportsVerdict(ctx, evidence, 14);
    ReportsVerdict(ctx, evidence, 15);
    ReportsVerdict(ctx, evidence, 16);
    ReportsVerdict(ctx, evidence, 17);
    ReportsVerdict(ctx, evidence, 18);
  }

  const OWNERS: set<string> := {"TLS-CIPHER-001", "TLS-CIPHER-003", "TLS-CIPHER-004"}

  /**
   * For a suite the registry knows: the rule that reports a prohibited algorithm is the one
   * the policy's table names for it and no other; the modern-suite rule reports whatever is
   * not approved; and an anonymous suite is reported beside either, unless it is a TLS 1.3 one.
   */
  lemma OwnerReports(ctx: Rules.Context, evidence: Evidence, owner: string)
    requires CiphersEnabled(ctx.policy) && Rules.SuiteOf(ctx).Some? && owner in OWNERS
    ensures var suite := Rules.SuiteOf(ctx).value;
            && (Reports(ctx, evidence, owner, Fail) <==> Rules.OwnedBy(suite.encryption, owner))
            && (Reports(ctx, evidence, owner, Pass) <==> !Rules.OwnedBy(suite.encryption, owner))
            && (Reports(ctx, evidence, "TLS-CIPHER-005", Fail) <==> suite.encryption !in Rules.APPROVED)
            && (Reports(ctx, evidence, "TLS-CIPHER-005", Pass) <==> suite.encryption in Rules.APPROVED)
            && (Reports(ctx, evidence, "TLS-CIPHER-002", Fail) <==> suite.anonymous && !suite.tls13Only)
            && (Reports(ctx, evidence, "TLS-CIPHER-002", NotApplicable) <==> suite.tls13Only)
  {
    hide Reports;
    CipherRuleReports(ctx, evidence);
    NullIsOwned(Rules.SuiteOf(ctx).value.encryption);
  }

  /** The NULL rule compares with a name; the table gives it that name and no other. */
  lemma NullIsOwned(e: string)
    ensures e == "NULL" <==> Rules.OwnedBy(e, "TLS-CIPHER-001")
  {
    Rules.ProhibitedNames();
    assert "TLS-CIPHER-001"[13] == '1' && "TLS-CIPHER-003"[13] == '3' && "TLS-CIPHER-004"[13] == '4';
  }

  /** What cannot be assessed is not: no TLS, no rule; no known suite, no verdict. */
  lemma CiphersUndecided(ctx: Rules.Context, evidence: Evidence, id: string)
    requires CiphersEnabled(ctx.policy) && (id in OWNERS || id == "TLS-CIPHER-002" || id == "TLS-CIPHER-005")
    ensures ctx.tls.None? ==> Reports(ctx, evidence, id, NotApplicable)
    ensures ctx.tls.Some? && Rules.SuiteOf(ctx).None? ==> Reports(ctx, evidence, id, Unknown)
  {
    hide Reports;
    CipherRuleReports(ctx, evidence);
  }
}
