# A verified model of SecureMailScope's assessment, job service and ingestion edges

SecureMailScope reads packet captures of mail traffic, evaluates a catalogue of
rules against every TCP session, and turns the outcomes into findings, a posture
score and a prioritised list. A background job service runs those analyses against
a SQLite file, and a few small loops at the edges (upload, dissection, diagnostics,
the narration checker) decide what evidence reaches them. This project models those
parts in Dafny and proves what they promise.

- **Assessment.** `Assessment`, `Scoring`, `Evaluator`, `Rules`, `SessionEvaluation`,
  `Engine` and `Prioritization` follow the files of `assessment/`, and
  `CapturePriorities` joins the last two. Two selections that
  were written independently, the evaluator's incremental choice of one FAIL per group
  and the scorer's sort-and-minimum choice of a representative, are proved to be the
  same selection (`Agreement`). `UnitTheorems`, `ScoreTheorems` and `Monotonicity` prove
  the properties `scoring.py` documents, with the exact condition where the code does
  not meet one.
  `EvidenceLoss` does the same for results that stop being decided, `DisabledRules` for
  rules a policy turns off and `FailureWeights` for failures of another weight.
  `WrongWays` gives the shapes in which a score moves the wrong way, and
  `Counterexamples` the concrete sessions at which a documented property so fails.
  `RuleReports`, `PostureReports` and `PriorityReports` state what a reader of the results
  finds under each rule id, in a posture record and in the two lists of findings, and
  `SuiteRegistry` what every cipher suite comes to.
- **Job service.** `Database` holds the transactions, `JobProtocol` the interleavings of
  starts, workers and crashes as a step relation with an inductive invariant,
  `JobStories` what each worker does over a run, `JobHistories` and `JobCrashes` what runs
  leave behind, and `Migration` the schema steps.
- **Edges.** `Diagnostics` is the bounded warning sink and the routing of its records,
  `Storage` the chunked upload reader, `Dissect` the walk from a frame to a TCP segment
  proved against an encoder (section 3.1 of RFC 791, section 3.1 of RFC 9293),
  `Pipeline` the frame loop, `Narration` the chatter and window loops.
- **Foundations.** `Orders` and `Sorting` give Python's orders on strings and tuples,
  `sorted` and `min`; `Sums` gives sums and counts over lists; `Bytes` gives words.

Methods carry the source's loops and state changes and are proved against
specification functions; the theorems are about those functions. Weights and scores
are reals, `round` is half-to-even, identifiers are strings compared code point by code
point. Digests, random tokens, clocks, the IPv6 branch of dissection and the outcomes of
rules that share a group with no other rule are parameters.

Where the code departs from the repository's own documentation, the departure has an
exact condition and a concrete input:

- `scoring.py` property 7 (more violations never raise the score) and the second half of
  property 1 (an added UNKNOWN lowers coverage) fail under a per-rule weight override.
- The headline of property 1 (an UNKNOWN cannot improve the score) holds for an added
  UNKNOWN and not for one that replaces a FAIL, nor under an override for one that
  replaces a PASS. docs/scoring-methodology.md accepts the first of these and denies the
  second.
- docs/scoring-methodology.md ranks UNKNOWN above PASS within a unit; the code ranks PASS
  above UNKNOWN.
- The second half of docs/scoring-methodology.md property 4 (a heavier failure never scores
  above a lighter one) fails under a per-rule weight override.
- docs/scoring-methodology.md property 6 has a disabled rule leave both sides of the
  fraction. In a shared group the next member takes its place, under an override at a
  greater weight, so that disabling a failing rule can lower the score.

Three behaviours a reader may not expect are shown the same way: priority
bands can get more urgent down the list across severities; a crash between the two
transactions of `_fail` leaves an investigation RUNNING that no restart repairs; and a
crash just after the persist commit leaves a FAILED job beside a COMPLETED
investigation.

## Model

| member | source | states |
|---|---|---|
| Scoring.GroupResults | src/securemailscope/assessment/scoring.py:116-122 | the dictionary loop holds, for every (session, group) key, exactly the results of that key in order, and its keys in order of arrival |
| Scoring.BuildUnits | src/securemailscope/assessment/scoring.py:116-158 | the loop over sorted groups yields the specified unit sequence, one unit per group in key order |
| UnitTheorems.UnitOutcome | src/securemailscope/assessment/scoring.py:126-128 | a unit fails iff a member failed, passes iff one passed and none failed, is UNKNOWN iff that is the best left |
| UnitTheorems.UnitRepresentative | src/securemailscope/assessment/scoring.py:142-156 | the unit carries the id, severity and policy weight of any deciding member that no other outranks |
| UnitTheorems.UnitListsItsMembers | src/securemailscope/assessment/scoring.py:129-156 | a unit lists its members' rule ids in ascending order, and one that does not apply weighs nothing under the first of them |
| UnitTheorems.MethodologyDisagrees | docs/scoring-methodology.md:44-45 | the unit's outcome differs from the documented order exactly for a group with a PASS, an UNKNOWN and no FAIL |
| UnitTheorems.UnitsIgnoreResultOrder | src/securemailscope/assessment/scoring.py:116-158 | permuting the results changes no unit and no unit's place |
| UnitTheorems.PerSessionUnitsAreCaptureUnits | src/securemailscope/assessment/engine.py:83-125 | with distinct session ids, concatenating per-session units is grouping the whole capture, up to order |
| UnitTheorems.CaptureScoreIsOneGrouping | src/securemailscope/assessment/engine.py:83-125 | hence the capture's whole score record equals that of one grouping of all results |
| ScoreTheorems.RoundIsNearestEven | src/securemailscope/assessment/scoring.py:262-263 | rounding is to a nearest integer, within one half, ties to the even one |
| ScoreTheorems.RoundReaches | src/securemailscope/assessment/scoring.py:262-263 | the exact threshold at which the rounded value reaches any integer, even and odd |
| ScoreTheorems.RoundMonotone | src/securemailscope/assessment/scoring.py:262-263 | a larger raw value never rounds lower |
| ScoreTheorems.ClampNeverFires | src/securemailscope/assessment/scoring.py:262-263 | raw and rounded scores always lie in 0..100, so the clamp is the identity |
| ScoreTheorems.ScoreBoundaries | src/securemailscope/assessment/scoring.py:95-100 | score 100, score 0 and each of the four bands hold iff a linear inequality between failed and evaluated weight holds |
| ScoreTheorems.ScoreAvailability | src/securemailscope/assessment/scoring.py:186-215 | a score exists iff something was evaluated and coverage reaches the floor, and otherwise the band says unavailable |
| PostureReports.RecordIsConsistent | src/securemailscope/assessment/scoring.py:181-272 | the reported fields determine each other: sufficient iff something evaluated and coverage at the floor, coverage the evaluated share of evaluated and UNKNOWN weight, and the score the rounded percentage of reported evaluated weight not deducted |
| PostureReports.TalliesCountGroups | src/securemailscope/assessment/scoring.py:172-213 | each tally counts the groups whose members come to that outcome by a member of weight, and evaluated and applicable are their sums |
| PostureReports.WorkedExample | docs/scoring-methodology.md:227-258 | the documented example comes to the documented record: score 59, WEAK, coverage 37 of 49, 15 of 37 deducted |
| ScoreTheorems.CoverageInRange | src/securemailscope/assessment/scoring.py:181-188 | coverage lies between 0 and 1 |
| ScoreTheorems.NewFailureNeverRaises | src/securemailscope/assessment/scoring.py:45-47 | a unit that starts failing never raises the raw score, and lowers it strictly when it weighs something and the score was above zero |
| ScoreTheorems.ForgettingAFailure | src/securemailscope/assessment/scoring.py:34-38 | replacing a failed unit by an UNKNOWN one raises the score iff it weighed something and something passed |
| ScoreTheorems.AddingUnknownIsNeutral | src/securemailscope/assessment/scoring.py:34-38 | an added UNKNOWN or NOT_APPLICABLE unit moves neither side of the score fraction, never raises coverage, and NOT_APPLICABLE leaves coverage alone |
| Monotonicity.FlipRaisesExactlyWhen | src/securemailscope/assessment/scoring.py:45-47 | for every policy, one rule turning into FAIL raises the raw score iff it takes an already failing group over at a lower weight while something passes |
| Monotonicity.FlipNeverRaisesScore | src/securemailscope/assessment/scoring.py:45-47 | with weights in severity order and no per-rule overrides, one more failing rule never raises raw score, rounded score or band |
| Monotonicity.PublishedWeightsOrdered | src/securemailscope/assessment/policy.py:210-216 | the published severity weights meet that condition |
| Monotonicity.AddingUnknownResult | src/securemailscope/assessment/scoring.py:34-38 | one more UNKNOWN result moves neither side of the score fraction, leaves a decided group's whole score record alone, and under ordered weights never raises coverage |
| Monotonicity.UnknownRaisesCoverageExactlyWhen | src/securemailscope/assessment/scoring.py:34-38 | for every policy, one more UNKNOWN result raises coverage iff it takes an undecided group over at a lower weight and something was evaluated |
| EvidenceLoss.LosingAFailRaisesExactlyWhen | src/securemailscope/assessment/scoring.py:34-38 | for every policy, a FAIL turning UNKNOWN raises the raw score iff a lighter FAIL takes its group over while something passes, or no other FAIL is left and it weighed something while something passes, or a PASS of weight takes over while something fails |
| EvidenceLoss.LosingAPassRaisesExactlyWhen | docs/scoring-methodology.md:92-97 | for every policy, a PASS turning UNKNOWN raises the raw score iff its group has no FAIL, it represented the group's passes, the next PASS weighs more, and something failed |
| EvidenceLoss.LosingAPassNeverHelps | docs/scoring-methodology.md:92-97 | with weights in severity order and no per-rule overrides, losing a PASS never raises raw score, rounded score or band |
| FailureWeights.OtherFailureRaisesExactlyWhen | docs/scoring-methodology.md:101-103 | for every policy, a FAIL in the place of another of its group raises the raw score iff the representative then weighs less and something passed |
| FailureWeights.HeavierFailureNeverHelps | docs/scoring-methodology.md:101-103 | with weights in severity order and no per-rule overrides, a heavier failure never raises raw score, rounded score or band above a lighter one's |
| DisabledRules.DisablingRaisesExactlyWhen | docs/scoring-methodology.md:106-108 | for every policy, removing one rule's result raises the raw score iff it was a FAIL or PASS whose loss helps: a lighter FAIL or a PASS takes over, nothing is left of a failed group, or a heavier PASS takes over |
| DisabledRules.DisablingLowersExactlyWhen | docs/scoring-methodology.md:106-108 | and lowers it iff a heavier FAIL takes a failing group over while something passed, or passed weight goes from a group without a FAIL while something failed |
| DisabledRules.DisablingUnderOrderedWeights | docs/scoring-methodology.md:106-108 | with weights in severity order and no per-rule overrides, disabling a failing rule never lowers the raw score and disabling a passing one never raises it |
| DisabledRules.BothSidesDropExactlyWhen | docs/scoring-methodology.md:106-108 | disabling a failing rule takes weight off evaluated and failed weight iff nobody of its group takes its place at the same or a greater weight |
| DisabledRules.PopulationShrinksExactlyWhen | docs/scoring-methodology.md:106-108 | the population loses one unit iff the rule was alone in its group, and otherwise keeps its size |
| DisabledRules.DisablingRemovesOneResult | src/securemailscope/assessment/evaluator.py:51-80 | a session evaluated with one more rule disabled has the same results without that rule's one |
| DisabledRules.DisablingMovesSessionExactlyWhen | src/securemailscope/assessment/policy.py:374-375 | hence both conditions, for any catalogue rule of any evaluated session |
| Counterexamples.UndecidedMailPasses | docs/scoring-methodology.md:44-45 | a mail session cut short has a group that the documented order calls UNKNOWN and whose unit passes |
| Counterexamples.HeavierSeverityRaisesScore | docs/scoring-methodology.md:101-103 | with TLS-CIPHER-003 overridden to 20, making the failing TLS-CIPHER-005 CRITICAL raises the score of a session negotiating RC4 |
| Counterexamples.DisablingLowersScore | docs/scoring-methodology.md:106-108 | with TLS-CIPHER-003 overridden to 1, disabling that failing rule lowers the score of a session negotiating RC4 and does not take weight off both sides |
| Counterexamples.OverrideRaisesScore | src/securemailscope/assessment/policy.py:365-369 | with TLS-CIPHER-003 overridden to 1, a session negotiating TLS_RSA_WITH_RC4_128_SHA scores higher than the same session negotiating TLS_RSA_WITH_AES_128_CBC_SHA, with one more rule failing |
| Counterexamples.OverrideRaisesCoverage | src/securemailscope/assessment/policy.py:365-369 | under the same override, enabling that rule where the suite was not captured adds one UNKNOWN and raises coverage |
| Counterexamples.LostSuiteRaisesScore | src/securemailscope/assessment/scoring.py:34-38 | under the published weights, a session that negotiated RC4 scores higher when its choice of suite was not captured |
| Counterexamples.CutDialogueRaisesScore | docs/scoring-methodology.md:92-97 | with MAIL-001 overridden to 1, a mail session cut short scores higher than the same session parsed to its end |
| Evaluator.Deduplicate | src/securemailscope/assessment/evaluator.py:83-111 | the incremental loop changes nothing but the counting flag of FAILs, and with unique rule ids leaves counting exactly the least FAIL of each group |
| Evaluator.BuildFindings | src/securemailscope/assessment/evaluator.py:137-179 | the findings are the counting FAILs promoted one by one, sorted by severity, rule and id |
| PriorityReports.FindingsRepeatResults | src/securemailscope/assessment/evaluator.py:137-179 | every finding repeats the rule, severity, confidence, capture and session of a counting FAIL under the policy's fingerprint, and every counting FAIL has one |
| PriorityReports.FindingsMostSevereFirst | src/securemailscope/assessment/evaluator.py:137-179 | the list goes from most to least severe, then by rule id, then by finding id |
| Agreement.CountingFailsAreFailUnits | src/securemailscope/assessment/evaluator.py:83-111 | the FAILs left counting are, as a multiset, exactly the representatives of the FAIL units the scorer forms |
| Agreement.DeductionsAreFindingWeights | src/securemailscope/assessment/scoring.py:177-184 | the failed weight is the summed policy weight of the findings |
| Agreement.FailedTallyCountsFindings | src/securemailscope/assessment/scoring.py:177-184 | the failed tally counts the findings of positive weight |
| Agreement.FindingsAndSuppressedAccountForFails | src/securemailscope/assessment/scoring.py:290-296 | findings are as many as FAIL units, and findings plus suppressed results are all FAILs |
| Agreement.EvaluatorAgreesWithScorer | src/securemailscope/assessment/evaluator.py:83-111 | the same agreement for the evaluator's own output, whatever flags its input carried |
| Agreement.UnitsIgnoreFlags | src/securemailscope/assessment/scoring.py:116-158 | units do not depend on which results are marked as counting, so deduplication never changes a score |
| FindingIdentity.DecimalInjective | src/securemailscope/assessment/evaluator.py:121-122 | decimal printing of integers loses nothing |
| FindingIdentity.DecimalReadsBack | src/securemailscope/assessment/evaluator.py:121-122 | what is printed reads back as the number |
| FindingIdentity.JoinInjective | src/securemailscope/assessment/evaluator.py:121-133 | joining separator-free strings loses nothing but the empty case, which is told apart |
| FindingIdentity.MaterialInjective | src/securemailscope/assessment/evaluator.py:121-133 | when no id contains a bar, two results have the same digest material iff policy, fingerprint, rule, capture, session, offsets and packets all agree |
| Rules.CipherOwnership | src/securemailscope/assessment/rules.py:349-470 | the three cipher ownership rules exclude each other and each forces the modern-cipher rule to fail |
| Rules.ProhibitedIsNotApproved | src/securemailscope/assessment/policy.py:268-315 | no prohibited algorithm is approved, which those exclusions rest on |
| Rules.EachOwnsItsOwn | src/securemailscope/assessment/rules.py:54-59 | NULL and 3DES have an owner of their own, and every other prohibited algorithm is the broken-cipher rule's |
| Rules.MailOutcomesExclude | src/securemailscope/assessment/rules.py:882-1044 | neither pair of mail rules fails together |
| Rules.DateRulesBothFail | src/securemailscope/assessment/rules.py:611-674 | both certificate date rules fail iff the validity window is inverted around the reference time |
| Rules.DatesAgreeWithRules | src/securemailscope/certificates/validate.py:91-138 | in historical mode the validator's date check fails iff one of the two date rules fails and passes iff both pass |
| RuleReports.ReportsVerdict | src/securemailscope/assessment/evaluator.py:51-80 | a session reports under an enabled rule's id exactly that rule's verdict |
| RuleReports.ResultsCarryEvidence | src/securemailscope/assessment/evaluator.py:51-80 | every result carries its rule's confidence, offsets and packets, the session's ids, and the policy's severity for the rule |
| RuleReports.LaterNeverUnexpires | src/securemailscope/assessment/rules.py:621-674 | judged later, the same certificate never goes from FAIL to PASS under CERT-001 nor from PASS to FAIL under CERT-002 |
| RuleReports.DateRulesByAcceptability | src/securemailscope/assessment/rules.py:621-674 | an instant the validator refuses is reported under CERT-001 iff it accepts some earlier instant and under CERT-002 iff it accepts some later one, for any window that is not inverted; an instant it accepts passes both |
| RuleReports.DateRulesUndecided | src/securemailscope/assessment/rules.py:591-634 | no certificate is NOT_APPLICABLE and no reference time UNKNOWN, under both ids |
| RuleReports.ReferenceTimeSources | src/securemailscope/assessment/rules.py:611-618 | historical mode always has an instant and never reads the analysis clock; current mode reads nothing else |
| RuleReports.ExposureIsReportedOnce | src/securemailscope/assessment/rules.py:882-964 | an authentication command with no accepted upgrade in effect is reported under exactly one id: MAIL-001 if none was ever accepted, MAIL-002 if one was |
| RuleReports.UpgradeIsReportedOnce | src/securemailscope/assessment/rules.py:967-1044 | a requested upgrade fails MAIL-003 iff refused, MAIL-004 iff accepted with no TLS bytes after it, and is UNKNOWN under MAIL-003 without an answer |
| RuleReports.NoMailNoReport | src/securemailscope/assessment/rules.py:866-879 | without identified mail all four are NOT_APPLICABLE, as is MAIL-003 without a request |
| RuleReports.OwnerReports | src/securemailscope/assessment/rules.py:349-470 | a known suite fails exactly the owner id the policy table names for its algorithm, the modern-suite id iff unapproved, and the anonymity id iff anonymous below TLS 1.3 |
| RuleReports.CiphersUndecided | src/securemailscope/assessment/rules.py:314-334 | without TLS all five are NOT_APPLICABLE, and without a known suite UNKNOWN |
| SuiteRegistry.EverySuite | src/securemailscope/tls/registry.py:88-161 | of every suite in the registry: the modern-suite rule passes exactly the AEAD ones, and the owners and the anonymity rule report exactly the six listed code points |
| SuiteRegistry.UnlistedSuite | src/securemailscope/assessment/rules.py:324-333 | a code point outside the registry is UNKNOWN under all five |
| SessionEvaluation.EvaluateSession | src/securemailscope/assessment/evaluator.py:51-80 | the loop over enabled rules, then deduplication, gives the specified results of the session |
| SessionEvaluation.CatalogIds | src/securemailscope/assessment/catalog.py:62-840 | rule ids in the table are distinct |
| SessionEvaluation.CatalogGroups | src/securemailscope/assessment/catalog.py:62-840 | two rules share a group only inside the four shared groups |
| RuleReports.WeightsAreDocumented | docs/security-policy.md:121-145 | the catalogue's severities under the published weights are the documented weight of every rule |
| RuleReports.GroupsAreDocumented | docs/security-policy.md:121-145 | and their groups the documented ones |
| SessionEvaluation.AtMostTwoSuppressed | src/securemailscope/assessment/catalog.py:119-205 | over every context with an ordered validity window, at most two results are suppressed and only in the cipher group |
| SessionEvaluation.ExactlySuppressed | src/securemailscope/assessment/rules.py:349-470 | for every policy and every context with an ordered validity window, the suppressed results are as many as the enabled failing cipher rules, less one when there are any |
| SessionEvaluation.SuppressedByDefault | src/securemailscope/assessment/policy.py:268-315 | with every rule enabled too, that count as a function of the negotiated suite |
| Engine.AssessCapture | src/securemailscope/assessment/engine.py:68-146 | the session loop's lists and counters are the per-session results, all findings, the scores of each session and of the capture, and the prioritised list of those findings |
| Engine.CaptureAddsUp | src/securemailscope/assessment/engine.py:83-132 | the capture's failed weight is the summed weight of its findings, and its suppressed count plus its findings are its FAILs |
| PostureReports.CaptureBalances | src/securemailscope/assessment/engine.py:83-146 | the record of every assessed capture: its reported deductions are the summed weight of the findings it lists, its suppressed tally plus those findings are all FAILs, and its findings and counts are those of its sessions |
| PostureReports.SessionBalances | src/securemailscope/assessment/engine.py:83-107 | the same of the record of each session |
| Engine.CaptureScoreBetweenSessions | src/securemailscope/assessment/engine.py:109-132 | the capture's raw and rounded scores lie between those of two of its sessions with evaluated weight |
| Engine.CaptureCoverageBetweenSessions | src/securemailscope/assessment/engine.py:109-132 | the capture's coverage lies between those of two of its sessions with applicable weight |
| Engine.SufficientSessionsMakeSufficientCapture | src/securemailscope/assessment/engine.py:109-132 | if every session with applicable weight is sufficient, so is the capture |
| Prioritization.CountScope | src/securemailscope/assessment/prioritization.py:91-93 | the counting loop holds, per rule, how many findings it has |
| Prioritization.Prioritise | src/securemailscope/assessment/prioritization.py:85-159 | append, sort in place and number: the specified ranked list |
| Prioritization.PrioritiseIsPermutation | src/securemailscope/assessment/prioritization.py:85-159 | one entry per finding, nothing else, ranked exactly 1..n |
| Prioritization.KeysStrictlyIncrease | src/securemailscope/assessment/prioritization.py:140-159 | with distinct finding ids the keys strictly increase along rank |
| PriorityReports.EntriesRepeatFindings | src/securemailscope/assessment/prioritization.py:95-145 | every entry repeats a finding, reports how many findings its rule has, and carries its endpoint's label in capitals, if it has one |
| PriorityReports.ListedInOrder | src/securemailscope/assessment/prioritization.py:109-159 | by the fields entries report: severity, confidence, label, number of findings of the rule with the most first, rule id, finding id |
| PriorityReports.LabelCaseDoesNotMatter | src/securemailscope/assessment/prioritization.py:104-106 | labels that differ in letter case only give the same list |
| PriorityReports.MatrixIsDocumented | docs/scoring-methodology.md:189-195 | the matrix is the documented table, and it gets no less urgent along a row or a column |
| Prioritization.PrioritiseIgnoresInputOrder | src/securemailscope/assessment/prioritization.py:85-159 | with distinct finding ids the list does not depend on the order findings came in |
| CapturePriorities.EngineFindingIdsDistinct | src/securemailscope/assessment/evaluator.py:121-133 | the findings of evaluated sessions have distinct ids, when no id contains a bar and the digest does not collide on their materials |
| CapturePriorities.AssessedParts | src/securemailscope/assessment/engine.py:74-88 | for inputs with distinct session ids, what the engine evaluates is one deduplicated part per session with unique rule ids |
| CapturePriorities.CaptureFindingIdsDistinct | src/securemailscope/assessment/engine.py:74-125 | hence every assessed capture with distinct session ids has distinct finding ids, when no identifier it supplies contains a bar and the digest does not collide |
| CapturePriorities.CapturePrioritiesStrict | src/securemailscope/assessment/engine.py:124-127 | and its priority list is in strictly increasing key order |
| PriorityReports.CaptureListedInOrder | src/securemailscope/assessment/engine.py:109-130 | the list of every assessed capture is in that order, strictly |
| PriorityReports.CaptureEntries | src/securemailscope/assessment/engine.py:64-66 | and each of its entries repeats a finding of one session and carries the label of the endpoint that session was with |
| CapturePriorities.CaptureObservedCounts | src/securemailscope/assessment/prioritization.py:91-106 | each entry's observed count is the number of that capture's sessions with a finding for its rule |
| Prioritization.BandInversions | src/securemailscope/assessment/prioritization.py:52-68 | a later entry is in a more urgent band iff it is one of two named severity and confidence pairs |
| Counterexamples.InvertedBands | src/securemailscope/assessment/prioritization.py:52-68 | a concrete list of two findings whose P2 is ranked above its P1 |
| Prioritization.BandsMonotoneWithinSeverity | src/securemailscope/assessment/prioritization.py:52-68 | within one severity bands never get more urgent along rank |
| CapturePriorities.ObservedCountIsSessions | src/securemailscope/assessment/prioritization.py:91-106 | for findings of evaluated sessions the observed count is the number of distinct sessions with that rule |
| Database.Store.RecoverInterruptedJobs | src/securemailscope/backend/database.py:445-474 | the two loops give the specified recovered tables and return how many jobs they ended |
| Database.RecoveryMeaning | src/securemailscope/backend/database.py:445-474 | afterwards every job is terminal, terminal rows are untouched, an investigation with an interrupted job is terminal, every other is untouched, and recovering again changes nothing |
| Database.Store.InsertAll | src/securemailscope/backend/database.py:182-234 | inserting rows succeeds iff no composite key repeats, and then appends exactly them |
| Database.Store.Persist | src/securemailscope/backend/service.py:209-378 | commits the specified tables or changes nothing at all, and says which |
| Database.PersistReplacesOnlyItsOwn | src/securemailscope/backend/service.py:209-378 | afterwards the investigation's session and finding rows are exactly the new report's, keys stay unique, its own row is COMPLETED under the new summary, and every other investigation's rows and every job are unchanged |
| Database.RerunReplaces | src/securemailscope/backend/service.py:226-360 | persisting twice equals persisting the second report alone, iff the second has an ML block, the first had none, or the row was there already |
| JobProtocol.StepKeepsInv | src/securemailscope/backend/service.py:98-206 | every step of every actor, a crash included, keeps the protocol's invariant |
| JobProtocol.OneJobOneWriter | src/securemailscope/backend/service.py:98-127 | in every state of every run an investigation has at most one job in progress or worker that may still write |
| JobProtocol.LateFailureHitsNoNewerJob | src/securemailscope/backend/service.py:199-206 | when the second write of `_fail` lands, every job of the investigation is terminal, none is being submitted, and the investigation reads RUNNING |
| JobProtocol.GuardOutlastsJobRow | src/securemailscope/backend/service.py:98-106 | between the two writes of `_fail` every job row is terminal and a new start is still refused |
| JobStories.StartRefusedExactly | src/securemailscope/backend/service.py:98-123 | a start is refused iff a worker of the investigation is alive, and otherwise queues both rows |
| JobStories.UnstartedReadsQueued | src/securemailscope/backend/service.py:82-96 | in every run an investigation made in it reads QUEUED until something is started for it |
| JobHistories.StepAdvancesJob | src/securemailscope/backend/service.py:144-206 | a job's status moves only QUEUED to RUNNING to COMPLETED or FAILED by its own worker, or to FAILED by recovery |
| JobHistories.JobHistory | src/securemailscope/backend/service.py:144-206 | over any stretch of a run status only advances and a terminal job never changes |
| JobHistories.CompletedMeansPersisted | src/securemailscope/backend/service.py:176-197 | a job that became COMPLETED in a run had its persist transaction commit earlier in it |
| JobStories.EveryJobFollowsACourse | src/securemailscope/backend/service.py:144-206 | in every run the steps taken for a job are the beginning of one of three courses: success, analysis raised, persist raised |
| JobStories.OutcomeFollowsAnalysis | src/securemailscope/backend/service.py:160-206 | in every run a completed job was analysed and persisted and neither failed, a failed one failed its analysis or its persist and never persisted, and a failed analysis never persists |
| JobStories.CauseComesFirst | src/securemailscope/backend/service.py:160-206 | and those steps come before the end that rests on them |
| JobStories.RowsAfterStep | src/securemailscope/backend/service.py:144-206 | both rows as a client reads them after each step of a worker |
| JobStories.SuccessRuns | src/securemailscope/backend/service.py:144-197 | for every acceptable report the success course is a run |
| JobStories.UnanalysedRuns | src/securemailscope/backend/service.py:164-177 | so is the one whose analysis raises |
| JobStories.UnpersistedRuns | src/securemailscope/backend/service.py:179-184 | and the one whose persist raises |
| JobCrashes.RestartLeavesNothingInProgress | src/securemailscope/backend/database.py:445-474 | after a crash and restart no job is in progress, no investigation that had one is, and no COMPLETED investigation is overwritten |
| JobCrashes.StuckExactly | src/securemailscope/backend/service.py:199-206 | the one step that leaves an investigation RUNNING with only terminal jobs is the first write of `_fail`, and only the second write or a new start ends that |
| JobCrashes.RestartKeepsStuck | src/securemailscope/backend/database.py:445-474 | a restart neither repairs nor causes such an investigation |
| JobCrashes.StuckAfterRestartIsReachable | src/securemailscope/backend/service.py:199-206 | a concrete run that ends in one and stays there over another restart |
| JobCrashes.CrashDuringJob | src/securemailscope/backend/service.py:176-197 | a crash during a job ends it FAILED, and its investigation COMPLETED iff the persist had already committed, FAILED otherwise |
| JobCrashes.FailedJobBesideCompletedInvestigation | src/securemailscope/backend/service.py:176-197 | a concrete run, for any job and investigation, whose crash right after the persist commit leaves the job FAILED and the investigation COMPLETED |
| JobHistories.RowsChangeOnlyByPersist | src/securemailscope/backend/service.py:209-378 | no other step of any actor touches an investigation's session or finding rows |
| JobHistories.RowsAreLastCommitted | src/securemailscope/backend/service.py:209-378 | hence at any time they are those of the last commit for that investigation |
| Migration.SchemaStore.Widen | src/securemailscope/backend/database.py:318-366 | rebuilding a table keeps every row in order and succeeds iff the rows satisfy the wider key |
| Migration.SchemaStore.Migrate | src/securemailscope/backend/database.py:418-425 | from every version the loop reaches the current shape around the rows there were, and never fails on a well-formed file |
| Migration.MigrationMeaning | src/securemailscope/backend/database.py:312-383 | from versions 0 to 3 that shape has version 3, from any version the same session and finding rows and investigations and unique composite keys, and migrating it again changes nothing |
| Migration.OldKeyIsStricter | src/securemailscope/backend/database.py:318-330 | uniqueness under the single-column key is uniqueness under the composite key |
| Diagnostics.Create | src/securemailscope/diagnostics.py:20-26 | a cap below one is refused, anything else gives an empty sink |
| Diagnostics.WarningSink.BindCapture | src/securemailscope/diagnostics.py:28-33 | every stored warning then has a capture id, those that had one keep it, and counts do not move |
| Diagnostics.WarningSink.Add | src/securemailscope/diagnostics.py:35-58 | the arrival is recorded once under the current capture id and the sink stays exactly the capped prefix of its arrivals |
| Diagnostics.WarningSink.Extend | src/securemailscope/diagnostics.py:60-73 | adopted warnings arrive in order with a missing capture id filled in, under the same cap |
| Diagnostics.WarningSink.Count | src/securemailscope/diagnostics.py:75-77 | the total of a code includes suppressed occurrences |
| Diagnostics.WarningSink.Collect | src/securemailscope/diagnostics.py:79-100 | the stored warnings followed by one summary per overflowing code in ascending order, all naming the capture once it is known |
| Diagnostics.KeepsFirstArrivals | src/securemailscope/diagnostics.py:45-73 | per code the stored warnings are exactly the first min(total, cap) arrivals in order |
| Diagnostics.KeptIsSubsequence | src/securemailscope/diagnostics.py:45-73 | across codes the stored warnings keep arrival order |
| Diagnostics.EmittedPlusSuppressed | src/securemailscope/diagnostics.py:79-100 | for every code, emitted plus reported-as-suppressed equals what arrived |
| Diagnostics.CollectIsBounded | src/securemailscope/diagnostics.py:1-7 | the collected list is at most (cap + 1) times the number of codes |
| Diagnostics.EnumerationUnique | src/securemailscope/diagnostics.py:79-82 | the list of codes, and so the output, does not depend on dictionary order |
| Diagnostics.ReplayCountsWhatWasKept | src/securemailscope/diagnostics.py:60-73 | replaying a scratch sink's records counts min(total, scratch cap) occurrences of a code, so totals are exact only while it did not overflow |
| Diagnostics.AttachWarnings | src/securemailscope/pipeline.py:120-135 | each session gets exactly the warnings naming it, in order, and the rest stay with the capture |
| Diagnostics.RoutingPartitions | src/securemailscope/pipeline.py:120-135 | routing loses and repeats nothing iff every session a warning names is listed exactly once |
| Storage.CaptureStorage.Store | src/securemailscope/backend/storage.py:131-180 | the outcome and the file depend on the uploaded bytes alone, however the stream chunks them; accepted files equal the upload and anything else, a broken stream included, leaves no file |
| Storage.CaptureStorage.Receive | src/securemailscope/backend/storage.py:138-170 | the read loop's digest and file are the whole upload and its head the first eight bytes, with each rejection reason exactly when it applies |
| Storage.AcceptedExactly | src/securemailscope/backend/storage.py:143-170 | accepted iff non-empty, within the limit and recognised from the first twelve bytes |
| Storage.RejectedExactly | src/securemailscope/backend/storage.py:143-170 | each rejection reason iff: over the limit, empty, no format's magic number in either byte order, a pcapng block type without a byte-order magic |
| Storage.FilterAgreesWithDetector | src/securemailscope/ingestion/formats.py:42-75 | the magic-prefix filter never turns away what the detector accepts |
| Storage.FilterGap | src/securemailscope/ingestion/formats.py:57-70 | what the filter passes and the detector refuses is exactly a pcapng block type without a valid byte-order magic |
| Storage.DetectionReadsMagic | src/securemailscope/ingestion/formats.py:29-53 | a classic capture is recognised iff its first word, read in the reported byte order, is the microsecond or nanosecond magic number |
| Storage.DetectionReadsByteOrderMagic | src/securemailscope/ingestion/formats.py:57-70 | a pcapng capture iff the section block type is followed by the byte-order magic in the reported order |
| Dissect.StripLinkLayer | src/securemailscope/ingestion/dissect.py:121-165 | the offset-and-counter loop over VLAN tags equals the structural walk |
| Dissect.StripInverts | src/securemailscope/ingestion/dissect.py:121-165 | for every supported header with up to three tags, stripping returns exactly what was wrapped and its label |
| Dissect.StripOfCut | src/securemailscope/ingestion/dissect.py:121-165 | a frame cut anywhere inside its link header is reported as too short |
| Dissect.FourTagsAreNotIp | src/securemailscope/ingestion/dissect.py:139-147 | a frame with more than three tags is reported as not IP |
| Dissect.LabelDecides | src/securemailscope/ingestion/dissect.py:212-244 | for every supported link header and anything it carries, the EtherType decides when there is one, the version nibble when there is none, and everything else is not IP |
| Dissect.UnsupportedExactly | src/securemailscope/ingestion/dissect.py:212-218 | a frame is reported as of an unsupported link type iff it is |
| Dissect.DissectInvertsEncode | src/securemailscope/ingestion/dissect.py:212-286 | for any link header, IPv4 and TCP headers with any options, payload and padding: a fragment iff more fragments follow or the offset is not zero, else not TCP iff another protocol, else exactly the fields and the payload |
| Dissect.OtherFramesDissect | src/securemailscope/ingestion/dissect.py:258-264 | the same of fragments and other protocols with any body and any declared length |
| Dissect.DeclaredLengthDecides | src/securemailscope/ingestion/dissect.py:247-286 | for any declared length and any cut, nothing is payload when it does not cover both headers, and otherwise what it covers of what was captured |
| Dissect.FirstByteDecides | src/securemailscope/ingestion/dissect.py:248-257 | another version, or a header length below the least or past the packet, is malformed |
| Dissect.DataOffsetDecides | src/securemailscope/ingestion/dissect.py:266-275 | a data offset short of the fixed TCP header is malformed |
| Dissect.SnapshotDissects | src/securemailscope/ingestion/dissect.py:179-286 | a snapshot cut is malformed iff it stops inside the headers' fixed parts; otherwise it dissects as the whole frame would, the payload being the part captured, flagged truncated iff some is missing |
| Dissect.PayloadIsCaptured | src/securemailscope/ingestion/dissect.py:247-286 | for arbitrary bytes, a reported payload is a run of the packet, never longer than declared, truncated iff shorter |
| Pipeline.ClassifyFrames | src/securemailscope/pipeline.py:317-359 | counters, observed segments, first and last timestamp and sink totals after the loop, for any capture |
| Pipeline.EveryFrameCountedOnce | src/securemailscope/pipeline.py:326-361 | the five counters partition the packets, every segment is observed, and each malformed frame raises one warning |
| Pipeline.WholeFramesAreClassified | src/securemailscope/pipeline.py:326-361 | a capture of whole encoded frames hands on exactly the segments sent whole, in order; every fragment is counted as not TCP and raises one warning, every other protocol is counted so without one, and no other counter moves |
| Narration.ChatterRun | scripts/check_narration.py:111-124 | the loop returns the greatest run of two or more consecutive bursts with every gap in range, or zero |
| Narration.GapInFrames | scripts/check_narration.py:119-121 | a gap is in range iff three to ten frames |
| Narration.TruncatedTowardsZero | scripts/check_narration.py:150-152 | the window size is the integer part, towards zero |
| Narration.ScanMix | scripts/check_narration.py:143-156 | the windows analysed are, in increasing order, exactly the grid positions before the limit with a long enough chunk; the early break loses none; a zero step is an error |
| Narration.StartsInTrack | scripts/check_narration.py:150-156 | those positions, in samples: the first, and every later grid position with more than half a window before the end, as long as it holds a second |
| Narration.WindowsSeeEveryBurst | scripts/check_narration.py:143-156 | every stretch of at most half a window lies inside an analysed window iff track and window last a second and the last window kept reaches the end |
| Narration.DefaultWindowSuffices | scripts/check_narration.py:143-156 | with the default window that is exactly the tracks of a second or more |

## Left out

- Floating point: weights, coverage and raw scores are reals, so rounding error and the four-digit display rounding of weights are not modelled.
- Prose: messages, rationales, explanations, limitations and `deduction_detail`.
- SHA-256 and BLAKE2b: digests are abstract functions of their material; in `Storage` a digest is the bytes it was fed.
- Rules alone in their dedup group: their outcomes, and all confidences, offsets and packet lists, are arbitrary inputs (`Evidence`), so what each of those rules looks for is not modelled.
- Suite names: upper-casing is modelled for ASCII letters only.
- Order of rule evaluation: the catalogue is listed in ascending id order rather than sorted at run time; order independence of the results is proved.
- Remediation selection, inventories, pagination, tokens, CORS and routing: only easy members.
- Monotonicity.AddingUnknownResult: appends the result at the end; `UnitTheorems.UnitsIgnoreResultOrder` covers every other place.
- Job service bookkeeping: single-row transactions are assumed to succeed, the pool to be unbounded, and progress stages, timestamps, error texts and pool shutdown are not modelled; the protocol is a relation on values, with `start` a transaction step and a submit step under one lock.
- Database.Store.Persist: leaves out the capture rows and their status, which investigations share, and constraint violations other than repeated composite keys.
- SQL: PRAGMAs, indexes, journalling and column types; a database is its tables, and a transaction an all-or-nothing method.
- Migration.SchemaStore.Migrate: starts from files some version of the application wrote; hand-edited schemas are outside.
- Warnings are values: two sinks never share one warning object, so the in-place capture id of an adopted warning is not seen through the scratch sink.
- Engine.AssessCapture: leaves out the remediation list and the policy description it copies into its result.
- Warnings raised by the TCP engine and the parsers while the frame loop runs.
- IPv6 dissection, malformed option lists inside headers, and the capture file readers.
- Storage: permissions, path resolution, display names and reports; the random identifier is assumed not to be in use.
- Narration: decoding, loudness and zero-crossing measurement; the noisy frame indices are an input.
- TCP reassembly, protocol and TLS parsing, intelligence, machine learning and reporting.
