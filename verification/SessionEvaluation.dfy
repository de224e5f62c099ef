/**
 * The rule catalogue (assessment/catalog.py) and `evaluate_session`
 * (assessment/evaluator.py): every enabled rule in id order, then deduplication.
 */
module SessionEvaluation {
  import opened Orders
  import opened Sorting
  import opened Sums
  import opened Assessment
  import opened Evaluator
  import opened Agreement
  import Scoring
  import Rules

  /** Which evaluator decides a rule; `Alone` are the rules with a group to themselves. */
  datatype Check =
    | Cipher001 | Cipher002 | Cipher003 | Cipher004 | Cipher005
    | Cert001 | Cert002 | Mail001 | Mail002 | Mail003 | Mail004
    | Alone

  datatype RuleDefinition = RuleDefinition(
    ruleId: string, severity: Severity, dedupGroup: string, check: Check)

  const CIPHER_GROUP := "NEGOTIATED_CIPHER_SUITE"

  /** `RULES`, sorted by id. */
  const CATALOG: seq<RuleDefinition> := [
    RuleDefinition("CERT-001", High, "CERT_VALIDITY", Cert001),
    RuleDefinition("CERT-002", High, "CERT_VALIDITY", Cert002),
    RuleDefinition("CERT-003", High, "CERT_KEY_STRENGTH", Alone),
    RuleDefinition("CERT-004", High, "CERT_SIGNATURE", Alone),
    RuleDefinition("CERT-005", High, "CERT_CHAIN", Alone),
    RuleDefinition("CERT-006", High, "CERT_IDENTITY", Alone),
    RuleDefinition("CERT-007", Medium, "CERT_EKU", Alone),
    RuleDefinition("MAIL-001", Critical, "PLAINTEXT_AUTH", Mail001),
    RuleDefinition("MAIL-002", High, "PLAINTEXT_AUTH", Mail002),
    RuleDefinition("MAIL-003", Medium, "UPGRADE_OUTCOME", Mail003),
    RuleDefinition("MAIL-004", Low, "UPGRADE_OUTCOME", Mail004),
    RuleDefinition("MAIL-005", High, "PLAINTEXT_CONTINUATION", Alone),
    RuleDefinition("MAIL-006", Medium, "UPGRADE_AVAILABILITY", Alone),
    RuleDefinition("MAIL-007", Info, "IMPLICIT_TLS_VISIBILITY", Alone),
    RuleDefinition("TLS-CIPHER-001", Critical, CIPHER_GROUP, Cipher001),
    RuleDefinition("TLS-CIPHER-002", Critical, CIPHER_GROUP, Cipher002),
    RuleDefinition("TLS-CIPHER-003", High, CIPHER_GROUP, Cipher003),
    RuleDefinition("TLS-CIPHER-004", Medium, CIPHER_GROUP, Cipher004),
    RuleDefinition("TLS-CIPHER-005", Medium, CIPHER_GROUP, Cipher005),
    RuleDefinition("TLS-CIPHER-006", Info, "UNKNOWN_CIPHER_SUITE", Alone),
    RuleDefinition("TLS-KEX-001", High, "FORWARD_SECRECY", Alone),
    RuleDefinition("TLS-KEX-002", Info, "HYBRID_GROUP", Alone),
    RuleDefinition("TLS-PROTO-001", High, "NEGOTIATED_PROTOCOL_VERSION", Alone),
    RuleDefinition("TLS-PROTO-002", Info, "OFFERED_PROTOCOL_VERSION", Alone),
    RuleDefinition("TLS-PROTO-003", Low, "NEGOTIATION_OUTCOME", Alone)]

  /** What the evaluators outside this model contribute: arbitrary, one entry per rule id. */
  datatype Evidence = Evidence(
    outcome: string -> Outcome, confidence: string -> Confidence,
    offsets: string -> seq<int>, packets: string -> seq<int>)

  function Verdict(def: RuleDefinition, ctx: Rules.Context, evidence: Evidence): Outcome {
    match def.check
    case Cipher001 => Rules.Cipher001(ctx)
    case Cipher002 => Rules.Cipher002(ctx)
    case Cipher003 => Rules.Cipher003(ctx)
    case Cipher004 => Rules.Cipher004(ctx)
    case Cipher005 => Rules.Cipher005(ctx)
    case Cert001 => Rules.CertDates(ctx, true)
    case Cert002 => Rules.CertDates(ctx, false)
    case Mail001 => Rules.Mail001(ctx)
    case Mail002 => Rules.Mail002(ctx)
    case Mail003 => Rules.Mail003(ctx)
    case Mail004 => Rules.Mail004(ctx)
    case Alone => evidence.outcome(def.ruleId)
  }

  function ResultOf(ctx: Rules.Context, evidence: Evidence): RuleDefinition -> RuleResult {
    (def: RuleDefinition) =>
      RuleResult(def.ruleId, Verdict(def, ctx, evidence),
                 ctx.policy.SeverityFor(def.ruleId, def.severity),
                 evidence.confidence(def.ruleId), ctx.captureId, ctx.sessionId,
                 ctx.policy.policyId, evidence.offsets(def.ruleId),
                 evidence.packets(def.ruleId), def.dedupGroup, true)
  }

  function EnabledBy(policy: Policy): RuleDefinition -> bool {
    (def: RuleDefinition) => policy.Enabled(def.ruleId)
  }

  function RawResults(rules: seq<RuleDefinition>, ctx: Rules.Context, evidence: Evidence)
    : seq<RuleResult>
  {
    Map(Filter(rules, EnabledBy(ctx.policy)), ResultOf(ctx, evidence))
  }

  function SessionResults(ctx: Rules.Context, evidence: Evidence): seq<RuleResult> {
    Deduplicated(RawResults(CATALOG, ctx, evidence))
  }

  /** The units one session contributes to the score. */
  function SessionUnits(ctx: Rules.Context, evidence: Evidence): seq<Scoring.Unit> {
    Scoring.Units(SessionResults(ctx, evidence), ctx.policy)
  }

  /** They can be read off the results before deduplication. */
  lemma UnitsOfSession(ctx: Rules.Context, evidence: Evidence)
    ensures SessionUnits(ctx, evidence) == Scoring.Units(RawResults(CATALOG, ctx, evidence), ctx.policy)
  {
    UnitsIgnoreFlags(SessionResults(ctx, evidence), RawResults(CATALOG, ctx, evidence), ctx.policy);
  }

  ghost predicate DistinctIds(rules: seq<RuleDefinition>) {
    forall i, j :: 0 <= i < j < |rules| ==> rules[i].ruleId != rules[j].ruleId
  }

  lemma RawIdsUnique(rules: seq<RuleDefinition>, ctx: Rules.Context, evidence: Evidence)
    requires DistinctIds(rules)
    ensures UniqueRuleIds(RawResults(rules, ctx, evidence))
  {
    var kept := Filter(rules, EnabledBy(ctx.policy));
    assert NoDuplicates(rules);
    FilterNoDuplicates(rules, EnabledBy(ctx.policy));
    forall i, j | 0 <= i < j < |kept| ensures kept[i].ruleId != kept[j].ruleId {
      assert kept[i] in kept && kept[j] in kept && kept[i] != kept[j];
    }
  }

  /** The loop of `evaluate_session` over any table of rules, and its deduplication. */
  method EvaluateRules(rules: seq<RuleDefinition>, ctx: Rules.Context, evidence: Evidence)
    returns (results: seq<RuleResult>)
    requires DistinctIds(rules)
    ensures results == Deduplicated(RawResults(rules, ctx, evidence))
  {
    var raw: seq<RuleResult> := [];
    for n := 0 to |rules|
      invariant raw == RawResults(rules[..n], ctx, evidence)
    {
      var def := rules[n];
      StepOne(rules[..n], def, ctx, evidence);
      assert rules[..n + 1] == rules[..n] + [def];
      if ctx.policy.Enabled(def.ruleId) {
        raw := raw + [ResultOf(ctx, evidence)(def)];
      }
    }
    assert rules[..|rules|] == rules;
    RawIdsUnique(rules, ctx, evidence);
    results := Deduplicate(raw);
  }

  /** `evaluate_session`: every enabled rule of the catalogue in id order, then deduplication. */
  method EvaluateSession(ctx: Rules.Context, evidence: Evidence) returns (results: seq<RuleResult>)
    ensures results == SessionResults(ctx, evidence)
  {
    CatalogIds();
    results := EvaluateRules(CATALOG, ctx, evidence);
  }

  lemma StepOne(seen: seq<RuleDefinition>, def: RuleDefinition, ctx: Rules.Context, evidence: Evidence)
    ensures RawResults(seen + [def], ctx, evidence) ==
            RawResults(seen, ctx, evidence)
            + if ctx.policy.Enabled(def.ruleId) then [ResultOf(ctx, evidence)(def)] else []
  {
    FilterAppend(seen, [def], EnabledBy(ctx.policy));
    assert Filter([def], EnabledBy(ctx.policy))
        == if ctx.policy.Enabled(def.ruleId) then [def] else [];
    MapAppend(Filter(seen, EnabledBy(ctx.policy)), Filter([def], EnabledBy(ctx.policy)),
              ResultOf(ctx, evidence));
  }

  // ---- the catalogue's ids and groups are told apart by a number ------------

  function IdCode(id: string): int {
    if |id| < 5 then 0 else id[0] as int * 10000 + id[4] as int * 10 + id[|id| - 1] as int
  }

  function GroupCode(group: string): int {
    if |group| < 6 then 0 else |group| * 1000 + group[5] as int
  }

  const ID_CODES: seq<int> := [
    670499, 670500, 670501, 670502, 670503, 670504, 670505,
    770499, 770500, 770501, 770502, 770503, 770504, 770505,
    840719, 840720, 840721, 840722, 840723, 840724,
    840799, 840800, 840849, 840850, 840851]

  lemma CatalogCode(i: nat)
    requires i < |CATALOG|
    ensures |ID_CODES| == |CATALOG| && IdCode(CATALOG[i].ruleId) == ID_CODES[i]
  {
  }

  lemma {:induction false} Increasing(codes: seq<int>, i: nat, j: nat)
    requires forall k :: 0 < k < |codes| ==> codes[k - 1] < codes[k]
    requires i < j < |codes|
    ensures codes[i] < codes[j]
  {
    if i + 1 < j { Increasing(codes, i, j - 1); }
  }

  lemma CatalogIds()
    ensures DistinctIds(CATALOG)
  {
    forall i: nat, j: nat | i < j < |CATALOG| ensures CATALOG[i].ruleId != CATALOG[j].ruleId {
      CatalogIdsApart(i, j);
    }
  }

  lemma IdCodesIncrease(i: nat, j: nat)
    requires i < j < |ID_CODES|
    ensures ID_CODES[i] < ID_CODES[j]
  {
    Increasing(ID_CODES, i, j);
  }

  lemma CatalogIdsApart(i: nat, j: nat)
    requires i < j < |CATALOG|
    ensures CATALOG[i].ruleId != CATALOG[j].ruleId
  {
    hide IdCode;
    CatalogCode(i);
    CatalogCode(j);
    IdCodesIncrease(i, j);
  }

  /** Two rules share a group only inside one of the four shared groups. */
  lemma CatalogGroups(i: nat, j: nat)
    requires i < j < |CATALOG| && CATALOG[i].dedupGroup == CATALOG[j].dedupGroup
    ensures || (i == 0 && j == 1) || (i == 7 && j == 8) || (i == 9 && j == 10)
            || (14 <= i && j <= 18)
  {
    assert GroupCode(CATALOG[i].dedupGroup) == GroupCode(CATALOG[j].dedupGroup);
  }

  // ---- how many results deduplication can suppress --------------------------

  function FailsIn(results: seq<RuleResult>, g: string): set<RuleResult> {
    set r | r in results && r.outcome == Fail && r.dedupGroup == g
  }

  lemma SuppressedAsSet(results: seq<RuleResult>)
    requires UniqueRuleIds(results)
    ensures Scoring.SuppressedCount(results) == |(set r | r in results && Scoring.Suppressed(r))|
  {
    var kept := Filter(results, Scoring.Suppressed);
    CountIsFilterLength(results, Scoring.Suppressed);
    assert NoDuplicates(results);
    FilterNoDuplicates(results, Scoring.Suppressed);
    SizeOfSequence(kept);
    assert (set r | r in results && Scoring.Suppressed(r)) == (set r | r in kept);
  }

  /** No two FAILs outside group `g` share a group. */
  ghost predicate SharedOnlyIn(results: seq<RuleResult>, g: string) {
    forall a, b | a in results && b in results && a != b ::
      a.outcome == Fail && b.outcome == Fail && a.dedupGroup == b.dedupGroup ==> a.dedupGroup == g
  }

  lemma LoneFailRepresents(results: seq<RuleResult>, g: string, r: RuleResult)
    requires SharedOnlyIn(results, g) && r in results && r.outcome == Fail && r.dedupGroup != g
    ensures Represents(results, r)
  {
    Trichotomy(ChoiceKey(r), ChoiceKey(r));
  }

  lemma GroupHasOneRepresentative(results: seq<RuleResult>, g: string) returns (rep: RuleResult)
    requires UniqueRuleIds(results) && FailsIn(results, g) != {}
    ensures rep in FailsIn(results, g)
    ensures forall r :: r in FailsIn(results, g) ==> (Represents(results, r) <==> r == rep)
  {
    var inGroup := (r: RuleResult) => r.outcome == Fail && r.dedupGroup == g;
    var fails := Filter(results, inGroup);
    var some :| some in FailsIn(results, g);
    assert some in fails;
    rep := MinBy(fails, ChoiceKey);
    MinByIsLeast(fails, ChoiceKey);
    forall m | m in results && m.outcome == Fail && m.dedupGroup == g
      ensures !Less(ChoiceKey(m), ChoiceKey(rep))
    {
      assert m in fails;
    }
    forall r | r in FailsIn(results, g) && Represents(results, r) ensures r == rep {
      Trichotomy(ChoiceKey(r), ChoiceKey(rep));
      assert ChoiceKey(r)[1] == Text(r.ruleId) && ChoiceKey(rep)[1] == Text(rep.ruleId);
      IdsDecide(results, r, rep);
    }
  }

  /** When only one group can hold two FAILs, it loses all but one of them and nothing else is lost. */
  lemma OneGroupSuppresses(results: seq<RuleResult>, g: string)
    requires UniqueRuleIds(results) && DeduplicationDone(results) && SharedOnlyIn(results, g)
    ensures forall r :: r in results && Scoring.Suppressed(r) ==> r.dedupGroup == g
    ensures Scoring.SuppressedCount(results) ==
            if FailsIn(results, g) == {} then 0 else |FailsIn(results, g)| - 1
  {
    var lost := set r | r in results && Scoring.Suppressed(r);
    SuppressedAsSet(results);
    forall r | r in lost ensures r in FailsIn(results, g) {
      if r.dedupGroup != g { LoneFailRepresents(results, g, r); }
    }
    forall r | r in results && Scoring.Suppressed(r) ensures r.dedupGroup == g {
      assert r in lost;
    }
    if FailsIn(results, g) == {} {
      assert lost == {};
    } else {
      var rep := GroupHasOneRepresentative(results, g);
      assert lost == FailsIn(results, g) - {rep};
    }
  }

  /** A session result is the marked verdict of one catalogue entry. */
  function ResultAt(ctx: Rules.Context, evidence: Evidence, i: nat): RuleResult
    requires i < |CATALOG|
  {
    Marked(RawResults(CATALOG, ctx, evidence))(ResultOf(ctx, evidence)(CATALOG[i]))
  }

  lemma SessionResultOrigin(ctx: Rules.Context, evidence: Evidence, r: RuleResult)
    returns (i: nat)
    requires r in SessionResults(ctx, evidence)
    ensures i < |CATALOG| && r == ResultAt(ctx, evidence, i)
    ensures r.ruleId == CATALOG[i].ruleId && r.dedupGroup == CATALOG[i].dedupGroup
    ensures r.outcome == Verdict(CATALOG[i], ctx, evidence)
    ensures ctx.policy.Enabled(CATALOG[i].ruleId)
  {
    var all := SessionResults(ctx, evidence);
    var kept := Filter(CATALOG, EnabledBy(ctx.policy));
    var n :| 0 <= n < |all| && all[n] == r;
    i := KeptOrigin(CATALOG, ctx.policy, n);
    MarkedResult(ctx, evidence, kept[n], RawResults(CATALOG, ctx, evidence));
  }

  lemma KeptOrigin(rules: seq<RuleDefinition>, policy: Policy, n: nat) returns (i: nat)
    requires n < |Filter(rules, EnabledBy(policy))|
    ensures i < |rules| && rules[i] == Filter(rules, EnabledBy(policy))[n]
    ensures policy.Enabled(rules[i].ruleId)
  {
    var kept := Filter(rules, EnabledBy(policy));
    assert kept[n] in kept;
    i :| 0 <= i < |rules| && rules[i] == kept[n];
  }

  /** Marking changes nothing a rule decided. */
  lemma MarkedResult(ctx: Rules.Context, evidence: Evidence, def: RuleDefinition, all: seq<RuleResult>)
    ensures var r := Marked(all)(ResultOf(ctx, evidence)(def));
            && r.ruleId == def.ruleId && r.dedupGroup == def.dedupGroup
            && r.outcome == Verdict(def, ctx, evidence)
  {
  }

  lemma SessionResultsMembership(ctx: Rules.Context, evidence: Evidence, i: nat)
    requires i < |CATALOG| && ctx.policy.Enabled(CATALOG[i].ruleId)
    ensures ResultAt(ctx, evidence, i) in SessionResults(ctx, evidence)
  {
    var kept := Filter(CATALOG, EnabledBy(ctx.policy));
    assert CATALOG[i] in kept;
    var n :| 0 <= n < |kept| && kept[n] == CATALOG[i];
    assert SessionResults(ctx, evidence)[n] == ResultAt(ctx, evidence, i);
  }

  lemma SessionResultsShape(ctx: Rules.Context, evidence: Evidence)
    ensures UniqueRuleIds(SessionResults(ctx, evidence))
    ensures DeduplicationDone(SessionResults(ctx, evidence))
    ensures OneSession(SessionResults(ctx, evidence), ctx.sessionId)
  {
    CatalogIds();
    RawIdsUnique(CATALOG, ctx, evidence);
    DeduplicatedIsDone(RawResults(CATALOG, ctx, evidence));
    assert OneSession(RawResults(CATALOG, ctx, evidence), ctx.sessionId);
  }

  /** The certificate's window is not inverted, when there is a certificate to look at. */
  ghost predicate OrderedWindow(ctx: Rules.Context) {
    Rules.CertificateAvailable(ctx) ==>
      ctx.tls.value.certificates[0].notBefore <= ctx.tls.value.certificates[0].notAfter
  }

  lemma DatePairExcludes(ctx: Rules.Context)
    requires OrderedWindow(ctx)
    ensures !(Rules.CertDates(ctx, true) == Fail && Rules.CertDates(ctx, false) == Fail)
  {
    Rules.DateRulesBothFail(ctx);
  }

  lemma CertChecks()
    ensures CATALOG[0].check == Cert001 && CATALOG[1].check == Cert002
  {
  }

  lemma MailChecks()
    ensures CATALOG[7].check == Mail001 && CATALOG[8].check == Mail002
    ensures CATALOG[9].check == Mail003 && CATALOG[10].check == Mail004
  {
  }

  lemma CertPairExcludes(ctx: Rules.Context, evidence: Evidence, a: RuleDefinition, b: RuleDefinition)
    requires OrderedWindow(ctx) && a.check == Cert001 && b.check == Cert002
    ensures !(Verdict(a, ctx, evidence) == Fail && Verdict(b, ctx, evidence) == Fail)
  {
    DatePairExcludes(ctx);
  }

  lemma MailPairsExclude(ctx: Rules.Context, evidence: Evidence, a: RuleDefinition, b: RuleDefinition)
    requires (a.check == Mail001 && b.check == Mail002) || (a.check == Mail003 && b.check == Mail004)
    ensures !(Verdict(a, ctx, evidence) == Fail && Verdict(b, ctx, evidence) == Fail)
  {
    Rules.MailOutcomesExclude(ctx);
  }

  lemma SharedPairsExclude(ctx: Rules.Context, evidence: Evidence)
    requires OrderedWindow(ctx)
    ensures !(Verdict(CATALOG[0], ctx, evidence) == Fail && Verdict(CATALOG[1], ctx, evidence) == Fail)
    ensures !(Verdict(CATALOG[7], ctx, evidence) == Fail && Verdict(CATALOG[8], ctx, evidence) == Fail)
    ensures !(Verdict(CATALOG[9], ctx, evidence) == Fail && Verdict(CATALOG[10], ctx, evidence) == Fail)
  {
    CertChecks();
    MailChecks();
    CertPairExcludes(ctx, evidence, CATALOG[0], CATALOG[1]);
    MailPairsExclude(ctx, evidence, CATALOG[7], CATALOG[8]);
    MailPairsExclude(ctx, evidence, CATALOG[9], CATALOG[10]);
  }

  lemma CipherEntries(i: nat)
    requires 14 <= i <= 18
    ensures CATALOG[i].dedupGroup == CIPHER_GROUP
  {
  }

  lemma FailingPair(ctx: Rules.Context, evidence: Evidence, i: nat, j: nat)
    requires OrderedWindow(ctx) && i < j < |CATALOG|
    requires CATALOG[i].dedupGroup == CATALOG[j].dedupGroup
    requires Verdict(CATALOG[i], ctx, evidence) == Fail == Verdict(CATALOG[j], ctx, evidence)
    ensures CATALOG[i].dedupGroup == CIPHER_GROUP
  {
    CatalogGroups(i, j);
    SharedPairsExclude(ctx, evidence);
    CipherEntries(i);
  }

  lemma OnlyCiphersShare(ctx: Rules.Context, evidence: Evidence)
    requires OrderedWindow(ctx)
    ensures SharedOnlyIn(SessionResults(ctx, evidence), CIPHER_GROUP)
  {
    var all := SessionResults(ctx, evidence);
    forall a, b | a in all && b in all && a.outcome == Fail && b.outcome == Fail
                  && a != b && a.dedupGroup == b.dedupGroup
      ensures a.dedupGroup == CIPHER_GROUP
    {
      var i := SessionResultOrigin(ctx, evidence, a);
      var j := SessionResultOrigin(ctx, evidence, b);
      if i < j {
        FailingPair(ctx, evidence, i, j);
      } else {
        FailingPair(ctx, evidence, j, i);
      }
    }
  }

  predicate FailsAt(ctx: Rules.Context, evidence: Evidence, i: nat)
    requires i < |CATALOG|
  {
    ctx.policy.Enabled(CATALOG[i].ruleId) && Verdict(CATALOG[i], ctx, evidence) == Fail
  }

  function Present(ctx: Rules.Context, evidence: Evidence, i: nat): set<RuleResult>
    requires i < |CATALOG|
  {
    if FailsAt(ctx, evidence, i) then {ResultAt(ctx, evidence, i)} else {}
  }

  lemma OnlyCipherEntries(i: nat)
    requires i < |CATALOG| && CATALOG[i].dedupGroup == CIPHER_GROUP
    ensures 14 <= i <= 18
  {
    CipherEntries(14);
    if i < 14 { CatalogGroups(i, 14); }
    if i > 14 { CatalogGroups(14, i); }
  }

  lemma PresentResults(ctx: Rules.Context, evidence: Evidence, i: nat)
    requires 14 <= i <= 18 && FailsAt(ctx, evidence, i)
    ensures ResultAt(ctx, evidence, i) in FailsIn(SessionResults(ctx, evidence), CIPHER_GROUP)
  {
    SessionResultsMembership(ctx, evidence, i);
    CipherEntries(i);
  }

  lemma CipherFailOrigin(ctx: Rules.Context, evidence: Evidence, r: RuleResult) returns (i: nat)
    requires r in FailsIn(SessionResults(ctx, evidence), CIPHER_GROUP)
    ensures 14 <= i <= 18 && r in Present(ctx, evidence, i)
  {
    i := SessionResultOrigin(ctx, evidence, r);
    OnlyCipherEntries(i);
  }

  function UnionOf<T>(p: nat -> set<T>, lo: nat, hi: nat): set<T>
    requires lo <= hi
    decreases hi
  {
    if lo == hi then {} else UnionOf(p, lo, hi - 1) + p(hi - 1)
  }

  function SizesOf<T>(p: nat -> set<T>, lo: nat, hi: nat): nat
    requires lo <= hi
    decreases hi
  {
    if lo == hi then 0 else SizesOf(p, lo, hi - 1) + |p(hi - 1)|
  }

  lemma {:induction false} UnionMembers<T>(p: nat -> set<T>, lo: nat, hi: nat, x: T)
    requires lo <= hi
    ensures x in UnionOf(p, lo, hi) <==> exists j: nat :: lo <= j < hi && x in p(j)
    decreases hi
  {
    if lo < hi { UnionMembers(p, lo, hi - 1, x); }
  }

  lemma {:induction false} UnionSize<T>(p: nat -> set<T>, lo: nat, hi: nat)
    requires lo <= hi
    requires forall i: nat, j: nat :: lo <= i < j < hi ==> p(i) !! p(j)
    ensures |UnionOf(p, lo, hi)| == SizesOf(p, lo, hi)
    decreases hi
  {
    if lo < hi {
      UnionSize(p, lo, hi - 1);
      var earlier, here := UnionOf(p, lo, hi - 1), p(hi - 1);
      forall x | x in earlier ensures x !in here {
        UnionMembers(p, lo, hi - 1, x);
      }
      assert earlier !! here;
      assert |earlier + here| == |earlier| + |here|;
    }
  }

  function PresentFrom(ctx: Rules.Context, evidence: Evidence): nat -> set<RuleResult> {
    (i: nat) => if i < |CATALOG| then Present(ctx, evidence, i) else {}
  }

  lemma PresentFromIsPresent(ctx: Rules.Context, evidence: Evidence, i: nat, r: RuleResult)
    requires 14 <= i < 19
    ensures r in PresentFrom(ctx, evidence)(i) <==> r in Present(ctx, evidence, i)
  {
  }

  lemma PresentIsCipherFail(ctx: Rules.Context, evidence: Evidence, i: nat, r: RuleResult)
    requires 14 <= i < 19 && r in Present(ctx, evidence, i)
    ensures r in FailsIn(SessionResults(ctx, evidence), CIPHER_GROUP)
  {
    PresentResults(ctx, evidence, i);
  }

  lemma CipherFailsEnumerated(ctx: Rules.Context, evidence: Evidence)
    ensures FailsIn(SessionResults(ctx, evidence), CIPHER_GROUP)
            == UnionOf(PresentFrom(ctx, evidence), 14, 19)
  {
    var fails, p := FailsIn(SessionResults(ctx, evidence), CIPHER_GROUP), PresentFrom(ctx, evidence);
    var union := UnionOf(p, 14, 19);
    forall r | r in fails ensures r in union {
      var i := CipherFailOrigin(ctx, evidence, r);
      PresentFromIsPresent(ctx, evidence, i, r);
      UnionMembers(p, 14, 19, r);
    }
    forall r | r in union ensures r in fails {
      UnionMembers(p, 14, 19, r);
      var j: nat :| 14 <= j < 19 && r in p(j);
      PresentFromIsPresent(ctx, evidence, j, r);
      PresentIsCipherFail(ctx, evidence, j, r);
    }
  }

  lemma PresentApart(ctx: Rules.Context, evidence: Evidence, i: nat, j: nat)
    requires i < j < |CATALOG|
    ensures Present(ctx, evidence, i) !! Present(ctx, evidence, j)
  {
    CatalogIds();
    assert CATALOG[i].ruleId != CATALOG[j].ruleId;
  }

  function One(b: bool): nat { if b then 1 else 0 }

  lemma CipherFailCount(ctx: Rules.Context, evidence: Evidence)
    ensures |FailsIn(SessionResults(ctx, evidence), CIPHER_GROUP)| ==
            One(FailsAt(ctx, evidence, 14)) + One(FailsAt(ctx, evidence, 15))
            + One(FailsAt(ctx, evidence, 16)) + One(FailsAt(ctx, evidence, 17))
            + One(FailsAt(ctx, evidence, 18))
  {
    CipherFailsEnumerated(ctx, evidence);
    CipherFailsApart(ctx, evidence);
    UnionSize(PresentFrom(ctx, evidence), 14, 19);
    FiveSizes(PresentFrom(ctx, evidence), 14);
    forall i: nat | 14 <= i < 19 { PresentSize(ctx, evidence, i); }
  }

  lemma CipherFailsApart(ctx: Rules.Context, evidence: Evidence)
    ensures var p := PresentFrom(ctx, evidence);
            forall i: nat, j: nat :: 14 <= i < j < 19 ==> p(i) !! p(j)
  {
    var p := PresentFrom(ctx, evidence);
    forall i: nat, j: nat | 14 <= i < j < 19 ensures p(i) !! p(j) {
      PresentApart(ctx, evidence, i, j);
    }
  }

  lemma PresentSize(ctx: Rules.Context, evidence: Evidence, i: nat)
    requires 14 <= i < 19
    ensures |PresentFrom(ctx, evidence)(i)| == One(FailsAt(ctx, evidence, i))
  {
  }

  lemma FiveSizes<T>(p: nat -> set<T>, lo: nat)
    ensures SizesOf(p, lo, lo + 5) == |p(lo)| + |p(lo + 1)| + |p(lo + 2)| + |p(lo + 3)| + |p(lo + 4)|
  {
    assert SizesOf(p, lo, lo + 1) == |p(lo)|;
    assert SizesOf(p, lo, lo + 3) == SizesOf(p, lo, lo + 1) + |p(lo + 1)| + |p(lo + 2)|;
  }

  lemma CipherChecks()
    ensures CATALOG[14].check == Cipher001 && CATALOG[15].check == Cipher002 && CATALOG[16].check == Cipher003
    ensures CATALOG[17].check == Cipher004 && CATALOG[18].check == Cipher005
  {
  }

  lemma CipherVerdicts(ctx: Rules.Context, evidence: Evidence)
    ensures Verdict(CATALOG[14], ctx, evidence) == Rules.Cipher001(ctx)
    ensures Verdict(CATALOG[15], ctx, evidence) == Rules.Cipher002(ctx)
    ensures Verdict(CATALOG[16], ctx, evidence) == Rules.Cipher003(ctx)
    ensures Verdict(CATALOG[17], ctx, evidence) == Rules.Cipher004(ctx)
    ensures Verdict(CATALOG[18], ctx, evidence) == Rules.Cipher005(ctx)
  {
    CipherChecks();
  }

  /**
   * For every session and every policy, the rules and the dedup table together
   * suppress at most two results, all of them in the cipher group.
   */
  lemma AtMostTwoSuppressed(ctx: Rules.Context, evidence: Evidence)
    requires OrderedWindow(ctx)
    ensures Scoring.SuppressedCount(SessionResults(ctx, evidence)) <= 2
    ensures forall r :: r in SessionResults(ctx, evidence) && Scoring.Suppressed(r)
                        ==> r.dedupGroup == CIPHER_GROUP
  {
    SessionResultsShape(ctx, evidence);
    OnlyCiphersShare(ctx, evidence);
    OneGroupSuppresses(SessionResults(ctx, evidence), CIPHER_GROUP);
    CipherFailCount(ctx, evidence);
    CipherVerdicts(ctx, evidence);
    Rules.CipherOwnership(ctx);
  }

  /** The negotiated suite can be looked up, so the cipher rules have something to judge. */
  predicate SuiteKnown(ctx: Rules.Context) { Rules.SuiteOf(ctx).Some? }

  /** An enabled rule that fails. */
  predicate CipherFails(ctx: Rules.Context, ruleId: string, o: Outcome) { ctx.policy.Enabled(ruleId) && o == Fail }

  /** The cipher rules that are enabled and fail. */
  function CipherFailures(ctx: Rules.Context): nat {
    One(CipherFails(ctx, "TLS-CIPHER-001", Rules.Cipher001(ctx)))
    + One(CipherFails(ctx, "TLS-CIPHER-002", Rules.Cipher002(ctx)))
    + One(CipherFails(ctx, "TLS-CIPHER-003", Rules.Cipher003(ctx)))
    + One(CipherFails(ctx, "TLS-CIPHER-004", Rules.Cipher004(ctx)))
    + One(CipherFails(ctx, "TLS-CIPHER-005", Rules.Cipher005(ctx)))
  }

  lemma CipherIds()
    ensures CATALOG[14].ruleId == "TLS-CIPHER-001" && CATALOG[15].ruleId == "TLS-CIPHER-002"
    ensures CATALOG[16].ruleId == "TLS-CIPHER-003" && CATALOG[17].ruleId == "TLS-CIPHER-004"
    ensures CATALOG[18].ruleId == "TLS-CIPHER-005"
  {
  }

  lemma CipherFailsAt(ctx: Rules.Context, evidence: Evidence)
    ensures FailsAt(ctx, evidence, 14) <==> CipherFails(ctx, "TLS-CIPHER-001", Rules.Cipher001(ctx))
    ensures FailsAt(ctx, evidence, 15) <==> CipherFails(ctx, "TLS-CIPHER-002", Rules.Cipher002(ctx))
    ensures FailsAt(ctx, evidence, 16) <==> CipherFails(ctx, "TLS-CIPHER-003", Rules.Cipher003(ctx))
    ensures FailsAt(ctx, evidence, 17) <==> CipherFails(ctx, "TLS-CIPHER-004", Rules.Cipher004(ctx))
    ensures FailsAt(ctx, evidence, 18) <==> CipherFails(ctx, "TLS-CIPHER-005", Rules.Cipher005(ctx))
  {
    CipherIds();
    CipherVerdicts(ctx, evidence);
  }

  lemma CipherFailuresCounted(ctx: Rules.Context, evidence: Evidence)
    ensures |FailsIn(SessionResults(ctx, evidence), CIPHER_GROUP)| == CipherFailures(ctx)
  {
    CipherFailCount(ctx, evidence);
    CipherFailsAt(ctx, evidence);
  }

  /** For every policy, exactly how many are suppressed: the enabled failing cipher rules but one. */
  lemma ExactlySuppressed(ctx: Rules.Context, evidence: Evidence)
    requires OrderedWindow(ctx)
    ensures Scoring.SuppressedCount(SessionResults(ctx, evidence)) ==
            if CipherFailures(ctx) == 0 then 0 else CipherFailures(ctx) - 1
  {
    SessionResultsShape(ctx, evidence);
    OnlyCiphersShare(ctx, evidence);
    OneGroupSuppresses(SessionResults(ctx, evidence), CIPHER_GROUP);
    CipherFailuresCounted(ctx, evidence);
  }

  /**
   * With every rule enabled, the count in terms of the suite: nothing unless a known
   * suite is unapproved, then one for a prohibited algorithm and one for anonymity.
   */
  lemma SuppressedByDefault(ctx: Rules.Context, evidence: Evidence)
    requires OrderedWindow(ctx) && ctx.policy.disabledRules == {}
    ensures Scoring.SuppressedCount(SessionResults(ctx, evidence)) ==
            if SuiteKnown(ctx) && Rules.SuiteOf(ctx).value.encryption !in Rules.APPROVED
            then One(Rules.SuiteOf(ctx).value.encryption in Rules.PROHIBITED)
                 + One(Rules.SuiteOf(ctx).value.anonymous && !Rules.SuiteOf(ctx).value.tls13Only)
            else 0
  {
    ExactlySuppressed(ctx, evidence);
    Rules.CipherOwnership(ctx);
    Rules.ProhibitedOwners(ctx);
  }
}
