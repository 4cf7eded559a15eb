# Governance gate and append-only ledger: a Dafny model

This project models the decision core of the repository and proves properties of it.

* **Canonical JSON and divergence.** `Utf8`, `Decimals`, `Json`, `JsonText`, `JsonRoundTrip`,
  `Printers` and `Divergence` hold the plain JSON printers, an RFC 8259 reader, JSON Pointers, the recursive
  comparison of a predicted with an actual outcome, and the executor's parameter check;
  `DivergenceLeaves` says where each leaf of a comparison stands and what it scores.
* **The four-valued gate.** `Models`, `Traces`, `Canonical`, `GateRules`, `Changes` and `Gate` hold
  the frozen records, the trace validator, snapshot canonicalization, the twelve fact rules, the
  change report and the reducer. `GateEvidence`, `GateVerdict`, `GateProperties`, `GateTrace` and
  `GateChanges` prove what an answer means; `GateExamples` says when there is one, and gives concrete snapshots.
  `GateSnapshots` and `GateStops` say for which reason there is none. `GateRecords`, `GateLaterRecords`,
  `GateTriggers`, `GateQuestions` and `GateAnswers` tell every step and every list of an answer from the
  snapshot as it was given, `CanonicalOrder` the order of the rows, `GateFields` and `GateSteps` the
  change report from the recorded fields, and `TraceStructure` the accepted traces and results from
  identities and ordinals.
* **The ledger.** `LedgerTables` holds the tables and the SQL constraints as insert guards,
  `LedgerSteps` each serializable transaction as a function on the tables, `LedgerDatabase` the same
  transactions statement by statement, and `LedgerRuns` the state machine: clients step in any
  order, and between two transactions of its own a client may hold a proven rollback or a reviewed
  decision. `LedgerInvariant`, `LedgerTheorems`, `LedgerHistory` and `LedgerPrecedents` prove what
  every run keeps, for every ledger reachable from the empty one; `LedgerContents` and `LedgerRetrieved`
  say what rows and retrieved precedents contain, `LedgerAnswers` what a request under a stored key or
  identity gets; `LedgerLimit` joins the search with the gate's limit, and `LedgerEvaluations` and
  `LedgerScenarios` give runs that reach each kind of row. `Retry` models the retry envelope and nested transactions.

Code that works step by step in the repository is a method here (the comparison loops, the trace
validator, every rule loop of the evaluator, the grouping of precedents, the database transactions
on a class whose `tables` field the inserts reassign, the retry loop); each is proved against a
function, and the theorems are about that function. Pure code is functions and lemmas.

Conventions. A digest is the record it was computed from, so it is injective. Scores, similarities
and thresholds are exact reals. A gap is identified by its signature, and lists ordered by a hash
(gaps, triggered predicates, changed rules) are sets. The step of a rule keeps its textual identity,
because a dependency may be named like a step. The sort of a collection is Python's stable sort on
the same key. A fault is part of a step: the effect insert may fail with an error that proves the
rollback; a serialization failure or any other error that leaves nothing behind is no step at all;
a lost acknowledgement is a committed step.

Results worth knowing, each stated as a theorem of the code as it is:

* Two clients with different keys can both commit an ERROR receipt for one decision
  (`TwoErrors`, `TwoErrorsReached`); afterwards the decision can never be executed (`ErrorBlocksForever`).
* A decision may be committed on an evaluation that a re-evaluation superseded after the review
  (`StaleDecision`, `StaleReached`); exactly a finalized re-evaluation in between does that
  (`ReviewStaysFresh`).
* A blocked evaluation ends the genealogy of its proposal: a prior must be a finalized result, so no
  re-evaluation can name it (`BlockedIsTerminal`).
* A requirement with an empty resolving rule makes the gate's own MAYBE result fail the result
  validator; so does a prior trace with an operator step of no fact rule
  (`ResultAcceptedExactly`, `OwnResultRefused`, `ForeignRuleRefused`).
* The change report names F12 although nothing changed when the identities of unresolved
  dependencies name different rules among the step identities of the prior trace and among those
  the same rules get in the new one (`ReportIsExact`, `FalseAlarm`).
* Of several evidence references of one kind only the last by `ref_id` counts, so an invalid last
  one hides a valid earlier one (`SatisfiedExactly`, `HiddenExactly`, `ReferenceHides`).
* The search limits the candidate proposals to five, but returns one precedent for each of their
  finalized evaluations; a proposal evaluated more than five times blocks every evaluation that
  retrieves it, its own next one included (`RetrievalOverLimitExactly`, `OftenEvaluatedIsBlocked`).
* The memory's printer does not round integers, the other printers round every number to 28
  digits; they agree exactly on integers of at most 28 significant digits (`PrintersAgreeExactly`).
* A mean up to half a millionth below 0.5 is stored as 0.5 and summarized as MORE
  (`ThresholdSurvives`, `SummaryAgrees`, `RoundedUpIsMore`).

Verify with `dafny verify dfyconfig.toml`.

## Model

| member | source | states |
|---|---|---|
| Ordering.SameSortExactly | src/governance.py:253-311 | two lists have one sorted form if and only if they agree, key by key, on the order of rows that share the key |
| Ordering.SortIsStable | src/governance.py:253-311 | sorting keeps the order of rows with equal keys |
| Ordering.RearrangementSortsAlike | src/governance.py:253-311 | every rearrangement of rows with distinct keys has the same sorted form |
| Utf8.BytesOrderIsTextOrder | src/consequences.py:198 | byte order of two UTF-8 encodings is code-point order of the texts (section 1 of RFC 3629) |
| Utf8.ByteSortIsListing | src/traces.py:152-160 | listing object keys by UTF-8 bytes and by code points gives the same list |
| Json.UnescapeEscape | src/consequences.py:166-168 | unescaping inverts pointer escaping and an escaped token holds no separator (section 3 of RFC 6901) |
| Json.ParseRender | src/consequences.py:166-168 | reading a rendered pointer gives its reference tokens back |
| Decimals.ValueIsInjective | src/consequences.py:109-115 | two normalized decimals are equal exactly when their values are |
| Decimals.StripKeepsValue | src/consequences.py:109-115 | normalizing a decimal keeps its value |
| JsonRoundTrip.ReadInvertsPrint | src/consequences.py:118-141 | an RFC 8259 reader gives a printed document back, numbers at 28 significant digits |
| JsonRoundTrip.PrintingIsInjective | src/memory.py:122-157 | two documents print alike if and only if they agree at 28 significant digits |
| JsonRoundTrip.CanonicalTexts | src/agent.py:157-177 | a text survives reading and printing exactly when it is some document's printed form, and then rounding changes nothing in it |
| JsonRoundTrip.NormalizingIsIdempotent | src/agent.py:343-378 | the normal form of any valid text is canonical and normalizing it again changes nothing |
| JsonRoundTrip.RoundFacts | src/executor.py:119-122 | rounding to 28 digits keeps the sign, leaves at most 28 digits and is done once and for all |
| JsonRoundTrip.RoundIsNearest | src/executor.py:119-122 | a number of more than 28 digits is rounded to the nearest multiple of the unit of its 28th digit, to the even one of two equally near; a shorter number is kept |
| JsonRoundTrip.JsonScalarExactly | src/executor.py:74-105 | the parameter check accepts exactly the canonical one-member objects with a scalar of at most 256 bytes, and returns the scalar the text stands for |
| JsonRoundTrip.AgentTextAccepted | src/agent.py:343-378 | the agent's canonical text is accepted by the executor if and only if the document is a one-member object with such a scalar |
| JsonRoundTrip.ScalarTextAgrees | src/executor.py:108-124 | the executor's printer prints scalars as the document printer does, and nothing else |
| Printers.PrintersAgreeExactly | src/memory.py:122-157 | without binary floats the memory prints a value as the other printers print its document if and only if every integer in it has at most 28 significant digits |
| Printers.LongInteger | src/memory.py:132-140 | an integer above 10^28 that does not end in zero is printed differently |
| Divergence.Compare | src/consequences.py:177-223 | the recursive comparison returns the report: the leaves addressed by their reference tokens below the given path |
| Divergence.CompareMembers | src/consequences.py:192-209 | the loop over the keys of two objects, in byte order, yields their report |
| Divergence.CompareMember | src/consequences.py:199-208 | one key contributes a missing leaf or the leaves below it |
| Divergence.CompareItems | src/consequences.py:210-223 | the loop over array positions yields the report of two arrays |
| Divergence.CompareItem | src/consequences.py:215-222 | one position contributes a missing leaf or the leaves below it |
| Divergence.SumScores | src/consequences.py:240 | the accumulated sum is the total of all leaf scores |
| Divergence.CompareJson | src/consequences.py:226-250 | a threshold outside [0,1] is rejected; otherwise version, document digests, leaves, quantized mean and threshold are those of the report |
| Divergence.ScoresAreBounded | src/consequences.py:177-223 | the leaf list is never empty and every score lies in [0,1] |
| Divergence.ZeroExactlyWhenEqual | src/consequences.py:177-223 | all scores are zero if and only if the documents are equal |
| Divergence.SwapMirrors | src/consequences.py:177-223 | swapping the documents keeps pointers and scores and swaps the presence flags |
| Divergence.PointersArePrefixFree | src/consequences.py:166-223 | no pointer of a report equals, contains or is contained in another |
| Divergence.ReportPointers | src/consequences.py:166-223 | pointers are pairwise distinct as texts, resolve in a document exactly when its presence flag is set (section 4 of RFC 6901), and score zero exactly where the documents agree |
| Divergence.ReportIsComplete | src/consequences.py:177-223 | wherever the documents differ some leaf with a positive score names that node, an ancestor or a descendant |
| Divergence.MeanIsSound | src/consequences.py:240-242 | the mean lies in [0,1], is zero exactly on equal documents and is symmetric |
| Divergence.QuantizeIsNear | src/consequences.py:240-242 | quantization moves a score to the nearest millionth, to the even one of two equally near, and keeps six-place scores |
| Divergence.QuantizeIsMonotone | src/consequences.py:240-242 | quantization is monotone |
| Divergence.ThresholdSurvives | src/consequences.py:460-462 | the quantized score reaches a six-place threshold exactly from half a millionth below it, ties going to the even neighbour; so a mean at the threshold is never stored below it |
| Divergence.StoredScoreIsSound | schema/init.sql:485-488 | the stored score satisfies the column's bound, is symmetric, and is zero exactly for means of at most half a millionth |
| DivergenceLeaves.ScoreExactly | src/consequences.py:184 | the score of two numbers is their distance divided by the largest of 1 and their magnitudes |
| DivergenceLeaves.ScoreNearUnit | src/consequences.py:184 | for magnitudes up to 1 it is the distance, at most 1 |
| DivergenceLeaves.ScoreScales | src/consequences.py:184 | from magnitude 1 on it does not change when both numbers grow by the same factor |
| DivergenceLeaves.LeavesExactly | src/consequences.py:177-223 | there is a leaf for a place if and only if some document has a node there, all nodes above are containers open in both and the node itself is not; it is the only one, and says which documents have the node, the kind of difference, and its score: that of the two numbers, 0 for equal scalars and empty containers of one kind, otherwise 1 |
| DivergenceLeaves.LeavesInOrder | src/consequences.py:192-223 | where the pointers of two leaves part, the earlier leaf takes the smaller key or position |
| DivergenceLeaves.MeanIsAverage | src/consequences.py:240-242 | the mean is the sum of the leaf scores divided by their number |
| Traces.StepIdTellsOrdinal | src/traces.py:229-235 | within one evaluation a step identity determines the ordinal |
| Traces.PairsExactly | src/traces.py:336-341 | formula steps stand in adjacent pairs exactly when their ordinals, two by two, are consecutive |
| Traces.OnceExactly | src/traces.py:335-343 | every other rule occurs once exactly when its list of ordinals has one entry |
| Traces.ValidateStep | src/traces.py:317-334 | one step is accepted exactly when identity, pole and reducer binding are right and its decisive steps come earlier |
| Traces.ValidatePositions | src/traces.py:335-343 | the check over collected ordinals decides pairing and uniqueness of rules |
| Traces.ValidateTrace | src/traces.py:304-359 | the validator accepts exactly the traces of the declared structure |
| Traces.ValidateCheckResult | src/traces.py:418-437 | the result validator decides gaps, changed rules, trace, IFF dependency, profile and digest |
| TraceStructure.AcceptedExactly | src/traces.py:304-359 | accepted are exactly the traces of 1 to 99 steps with the identities evaluation:NN:rule in order, poles of their families, reducers bound to their pole that decide by earlier steps, every rule once, formulas in adjacent pairs, and the conclusion last |
| TraceStructure.ResultExactly | src/traces.py:418-437 | a finalized result is valid if and only if its gaps name a rule, its changed rules are F01 to F12 with or without a suffix, its trace is structured, an IFF has an unresolved dependency, a profile version is not empty and the digest is that of its content |
| TraceStructure.AcceptedPoles | src/traces.py:304-334 | every step of an accepted trace carries one of the eighteen pairs of family and pole |
| Canonical.CanonicalIsIdempotent | src/governance.py:253-311 | canonicalizing a snapshot twice is canonicalizing it once, nested lists included |
| Canonical.RearrangedIsSame | src/governance.py:253-311 | snapshots that differ in the order of sorted rows, nested ones included, have one canonical form when sort keys are distinct |
| Canonical.SameCanonicalExactly | src/governance.py:253-311 | without that assumption: one canonical form if and only if the rest is equal and rows with equal keys stand in the same order |
| CanonicalOrder.CanonicalIsOrdered | src/governance.py:253-311 | the canonical form has the rows of the snapshot in the order of their identifying texts, collection by collection and nested lists included, and changes nothing else |
| Gate.ValidateSnapshot | src/traces.py:475-492 | decides the declared conditions on a frozen snapshot and its prior trace |
| Gate.ValidateInput | src/governance.py:314-358 | returns the first reason not to judge a snapshot, with the weaker prior check standing in when the full one fails |
| Gate.ExamineExclusions | src/governance.py:692-740 | the loop over exclusions yields the F03 findings |
| Gate.ExamineRetrieval | src/governance.py:742-807 | the loop over precedents yields the near ones and the F04 findings |
| Gate.ExamineIdentity | src/governance.py:809-840 | the loop over near precedents yields the qualifying ones and the F05 step |
| Gate.ExamineEvidence | src/governance.py:907-965 | the loop over requirements yields the F07 findings, the last reference of a kind counting |
| Gate.CheckReports | src/governance.py:971-985 | decides whether every consequence is bound to an observed receipt at the pinned threshold |
| Gate.ExamineReports | src/governance.py:991-1019 | the loop over reports yields rows, warnings, predicates and gaps |
| Gate.ExamineMissing | src/governance.py:1020-1045 | the loop over precedents without a report yields their predicates and gaps |
| Gate.ExamineConsequences | src/governance.py:967-1064 | the F08 findings and warnings |
| Gate.IndexCapabilities | src/governance.py:1075-1079 | the dictionary of capability facts, or the report of a repeated identity |
| Gate.ReadCapabilities | src/governance.py:1080-1147 | the recorded states, flags and evidence of the required capabilities |
| Gate.JudgeCapabilities | src/governance.py:1086-1131 | the predicates and gaps of the required capabilities |
| Gate.ExamineCapabilities | src/governance.py:1066-1147 | the F09 findings |
| Gate.ExamineDependencies | src/governance.py:1149-1218 | the loop over dependencies yields the F10 pairs, predicates and gaps |
| Gate.ExamineFacts | src/governance.py:585-1218 | the fact rules F01 to F10 in order, with the stops inside them |
| Gate.EvaluateProposal | src/governance.py:566-1364 | the whole evaluation: its outcome is the one the evaluation function gives, blocked codes included |
| GateSnapshots.SnapshotExactly | src/traces.py:475-492 | the snapshot validator accepts a snapshot if and only if its lineage is complete or absent, its identities are not empty, its prior is a finished evaluation of the proposal, its precedents are complete, its dependency names distinct and its digest its own |
| GateStops.BlockedExactly | src/governance.py:314-358 | an evaluation is blocked with the code of the first check that fails, the checks in order and told from the snapshot as given; when none fails only the trace limit or an unusable identity or prior conclusion can block it |
| GateStops.BindingExactly | src/governance.py:574-582 | PRIOR_BINDING_MISMATCH is answered if and only if every earlier check passes and the prior's evaluator version, configuration digest or policy digest differs |
| GateStops.BlockedIsBound | src/governance.py:430-465 | a blocked answer carries the identities and digests of its snapshot, one step that says it was blocked, and the prior only when the input passed its checks |
| GateAnswers.WarningsExactly | src/governance.py:991-1019 | the warnings of an answer, in order, are as a multiset the identities of the consequences with divergence at least one half under the near, exactly matching, approved precedents of the snapshot |
| GateAnswers.ListsExactly | src/governance.py:1335-1345 | precedents named and dependencies carried by an answer are those of the snapshot, sorted |
| GateTrace.AnswerIsBound | src/governance.py:1335-1355 | a finalized answer carries the identities, versions and digests of its snapshot and configuration, and the change report of its own trace and gaps |
| GateRecords.BindingRecorded | src/governance.py:593-620 | F01 records proposal, snapshot, policy, configuration and prior of the judged snapshot |
| GateRecords.ScopeRecorded | src/governance.py:622-669 | F02 records the rules that apply and stands OUTSIDE if and only if one of them denies; without any it has no step |
| GateRecords.ExclusionRecorded | src/governance.py:692-740 | F03 records every exclusion and stands SAME if and only if one is of exactly this action on this target |
| GateRecords.RetrievalRecorded | src/governance.py:742-807 | F04 records every candidate with its nearness, the counts and the flags, and stands NEAR if and only if one has similarity at least 0.85 |
| GateRecords.IdentityRecorded | src/governance.py:809-840 | F05 records every near precedent and stands SAME if and only if one is of exactly this action on this target |
| GateRecords.ConflictRecorded | src/governance.py:860-905 | F06 records how the governing precedents were decided and stands ALONE if and only if an approval meets a rejection or a modification |
| GateLaterRecords.EvidenceRecorded | src/governance.py:907-965 | F07 records every demanded requirement with the last reference of its kind and stands ALONE if and only if one is not met |
| GateLaterRecords.ConsequenceRecorded | src/governance.py:967-1064 | F08 records the reports of the approved governing precedents, their number, those without any, and stands MORE if and only if some divergence reaches one half |
| GateLaterRecords.CapabilityRecorded | src/governance.py:1066-1147 | F09 records the declared state of every needed capability with its evidence and stands CANNOT if and only if one is false, unresolved or missing |
| GateLaterRecords.FormulaRecorded | src/governance.py:1149-1193 | F10 records every dependency as IF and as THEN, field by field, sorted by identity |
| GateQuestions.AggregateRecorded | src/governance.py:1220-1230 | F11 records exactly the predicates the snapshot gives cause for, and stands SOME if and only if there is one |
| GateQuestions.QuestionsExactly | src/governance.py:671-690 | the gaps of a MAYBE are exactly the questions the snapshot gives cause for, word by word; other answers have none |
| GateQuestions.ConclusionExactly | src/governance.py:1232-1333 | the reducer lists, in trace order, exactly the steps that decide the verdict, and the conclusion names the reducer, those steps, the gaps and the unresolved dependencies |
| GateVerdict.ListsMeaning | src/governance.py:585-1218 | the three predicate lists are empty exactly when no refusal, no open question, no complete formula is declared by the snapshot |
| GateEvidence.SatisfiedExactly | src/governance.py:917-926 | a requirement is met if and only if the last reference of its kind, by identity and then by position, is valid |
| GateEvidence.HiddenExactly | src/governance.py:917-926 | a kind with some valid reference still counts as missing if and only if the last reference of the kind is invalid |
| GateEvidence.MeetsByIdentity | src/governance.py:917-920 | with distinct identities: met if and only if some valid reference of the kind has an identity larger than all others of the kind |
| GateVerdict.ReducerIsTotal | src/governance.py:1232-1286 | empty predicate lists imply the whole R4 conjunction, so one of R1 to R4 always applies |
| GateVerdict.CanonicalKeepsVerdict | src/governance.py:573-574 | canonicalization does not change the declared verdict |
| GateVerdict.VerdictIsDeclared | src/governance.py:566-1286 | the verdict of every finalized evaluation is the declared four-valued verdict of the snapshot as given |
| GateProperties.NeverNonTotal | src/governance.py:1285-1286 | the code REDUCER_NON_TOTAL is unreachable |
| GateProperties.TraceExplains | src/governance.py:1220-1333 | the recorded predicates determine verdict and risk; gaps exist exactly for MAYBE and are exactly the questions of the triggered predicates; every refusal has its step among the decisive steps |
| GateProperties.FailClosed | src/governance.py:631-741 | further DENY rules, exclusions and dependencies never raise a verdict in NO < MAYBE < IFF < YES |
| GateProperties.OrderIsIrrelevant | src/governance.py:573-574 | rearranged snapshots get the identical outcome, trace digest included |
| GateProperties.ReorderingIsIrrelevant | src/governance.py:253-311 | reordering rows, and inside them requirements, capability lists and consequences, changes nothing in the answer |
| GateProperties.CanonicalAnswersAlike | src/governance.py:573-574 | the canonical form of any snapshot gets the same outcome |
| GateTrace.AllSteps | src/governance.py:585-1230 | the steps before the reducer climb through the fact rules, formulas in pairs, at most ten besides those |
| GateTrace.FinishedTraceAccepted | src/governance.py:1290-1333 | every finalized trace is accepted by the validator |
| GateTrace.LimitNeverHit | src/governance.py:1288-1289 | with at most 43 dependencies TRACE_LIMIT_EXCEEDED never occurs |
| GateTrace.ResultAcceptedExactly | src/traces.py:418-437 | a finalized result passes the result validator if and only if the snapshot is refused or every missing requirement names a resolving rule, and the operator steps of the prior trace belong to fact rules |
| GateTrace.UnmetRaisesGap | src/governance.py:937-951 | under MAYBE every demanded requirement that is not met has its gap in the result |
| GateTrace.BlockedResultAccepted | src/governance.py:430-465 | every blocked result passes the validator of blocked results |
| GateExamples.FinalizedExactly | src/governance.py:566-582 | with at most 43 dependencies an evaluation is finalized if and only if its input is valid, no fact rule stops and the prior conclusion can be read |
| GateExamples.LimitExactly | src/governance.py:341-342 | an evaluation is blocked with PRECEDENT_LIMIT_EXCEEDED if and only if everything checked before is in order and the snapshot holds more than five precedents |
| GateExamples.OwnResultRefused | src/traces.py:418-437 | a concrete snapshot whose own MAYBE result the result validator refuses |
| GateExamples.ForeignRuleRefused | src/governance.py:549-563 | a concrete snapshot whose prior trace holds a step of no fact rule: the rule is reported as changed and the result validator refuses the answer |
| GateExamples.ReferenceHides | src/governance.py:917-949 | a concrete snapshot that gets YES gets MAYBE, with the gap of the requirement, when an invalid second reference of the kind is added |
| Changes.CollectProjections | src/governance.py:532-546 | the dictionary of projections, filled step by step, maps every rule to its projections in trace order |
| Changes.ChangedFactIds | src/governance.py:549-563 | the reported rules are exactly those whose projections differ |
| GateFields.FactReportedExactly | src/governance.py:468-500 | a fact rule is reported as changed if and only if its steps in the two traces differ in number or in one of the compared fields, named rule by rule |
| GateSteps.DependencyReportedExactly | src/governance.py:490-497 | against a prior answer F10 is reported if and only if the sorted dependencies differ in number or somewhere in identity, state, necessity or sufficiency |
| GateSteps.DependencyChangeIsReported | src/governance.py:490-497 | so a dependency that no dependency of the other evaluation matches in those fields makes the new answer name F10 |
| GateChanges.EmptyReportMeansSame | src/governance.py:549-563 | an empty report means the prior trace concludes the same verdict and risk from the same triggered predicates on the same gaps |
| GateChanges.EmptyReportKeepsVerdict | src/governance.py:549-563 | against a prior answer of the gate an empty report means the same verdict, risk and gaps |
| GateChanges.ReportIsExact | src/governance.py:468-563 | evaluating the same facts under fresh identities keeps verdict, risk and gaps; from the prior and the new evaluation identity alone: the report is empty, except that it names F12 exactly when the identities of unresolved dependencies name different rules in the prior trace and in that trace numbered under the new identity |
| GateChanges.ReportIsEmptyOrFalse | src/governance.py:503-529 | without a collision in either numbering the report is empty; with one in one of them alone it is a false alarm for F12 |
| GateExamples.FalseAlarm | src/governance.py:503-529 | a concrete pair of evaluations with the same verdict, risk and gaps and F12 reported as changed |
| LedgerDatabase.ValidateBinding | src/memory.py:713-740 | decides whether snapshot and result are valid and bound to each other |
| LedgerDatabase.Database.Close | src/executor.py:631-722 | attempt and receipt are inserted together or the transaction is rolled back |
| LedgerDatabase.Database.AppendProposalAndEvaluation | src/memory.py:820-861 | first evaluation of a new proposal, its replay, conflict or rollback, as one atomic step |
| LedgerDatabase.Database.AppendReEvaluation | src/memory.py:863-904 | a further evaluation behind the latest one, its replay, or a conflict |
| LedgerDatabase.Database.ExactEvaluation | src/cli.py:126-154 | the review before a decision: finalized, valid and latest finalized |
| LedgerDatabase.Database.AppendDecision | src/cli.py:156-249 | decision and exclusion as one atomic step, with replay, conflict and refusal |
| LedgerDatabase.Database.FindAuthority | src/executor.py:395-427 | finds decision and proposal exactly when the whole authority chain holds |
| LedgerDatabase.Database.Execute | src/executor.py:374-497 | the effect transaction: replay, refusal, proven rollback, violated constraint or commit of effect, attempt and receipt |
| LedgerDatabase.Database.AppendError | src/executor.py:344-372 | the later transaction that records a proven rollback, or refuses when an effect or another receipt is there |
| LedgerDatabase.Database.ReportConsequence | src/consequences.py:377-476 | the consequence report as one atomic step, with replay, conflict and refusal |
| LedgerRuns.StepExtends | schema/init.sql:1-545 | no step changes or removes a row |
| LedgerRuns.RunExtends | schema/init.sql:1-545 | every run of every interleaving only appends |
| LedgerEvaluations.EvaluatedRun | src/memory.py:820-904 | for every number of distinct names there is a run from the empty ledger that leaves exactly that many evaluations of one proposal, each behind the one before it |
| LedgerInvariant.ExecuteKeepsExecutions | src/executor.py:374-497 | the effect transaction keeps the correspondence of effects, observed attempts and receipts |
| LedgerInvariant.ErrorKeepsExecutions | src/executor.py:344-372 | recording an error keeps it, and a failed decision without effect |
| LedgerInvariant.RunKeeps | src/executor.py:325-497 | every run of every interleaving, pending rollbacks and reviews included, keeps the whole ledger invariant |
| LedgerTheorems.EffectExactlyWhenObserved | schema/init.sql:287 | in every reachable ledger a decision has an effect exactly when it has an observed receipt; then that is its only receipt; with an error receipt there is no effect |
| LedgerTheorems.ErrorIsFinal | src/executor.py:344-372 | a decision with an error receipt has no effect now and gains none in any later run |
| LedgerTheorems.ExecutionReplaysForever | src/executor.py:377-396 | at every later point of every run the same command gets the same observed receipt and writes nothing |
| LedgerAnswers.StoredReceiptAnswersExactly | src/executor.py:377-396 | a command for an executed decision, or under its key, writes nothing: it gets the stored receipt if and only if decision and executor are those of the receipt and no other receipt stands under its key |
| LedgerTheorems.ErrorBlocksForever | src/executor.py:377-396 | after an error no execution of the decision writes again, whoever asks with whatever key |
| LedgerTheorems.ExecutionCommitsExactly | src/executor.py:429-497 | an authorized first execution with fresh draws on a healthy database commits one effect, attempt and receipt if and only if the drawn effect identity is unused |
| LedgerTheorems.EffectInsertRefusedExactly | schema/init.sql:226-294 | the constraints of the effect table refuse an authorized first execution if and only if the drawn effect identity is taken |
| LedgerTheorems.ErrorRecordedExactly | src/executor.py:344-372 | a proven rollback is recorded if and only if its key has no receipt and its decision no effect |
| LedgerHistory.TwoErrors | src/executor.py:337-372 | two clients with different keys that both fail before either records it both commit an error receipt for the one decision |
| LedgerScenarios.TwoErrorsReached | src/executor.py:337-372 | a run from the empty ledger that ends with two error receipts for one decision |
| LedgerScenarios.EffectReached | src/executor.py:374-497 | a run from the empty ledger that commits an effect with its observed receipt |
| LedgerScenarios.ReportReached | src/consequences.py:377-476 | a run from the empty ledger that commits a consequence report |
| LedgerScenarios.ExclusionReached | src/cli.py:251-301 | a run from the empty ledger that commits an exclusion |
| LedgerHistory.VersionsCountUp | schema/init.sql:271-287 | the versions of a key are 1..n, each row naming identity, version and digest of the row before it, the first starting from the zero digest |
| LedgerHistory.SameDigestSameHistory | src/executor.py:429-460 | two ledgers whose latest digests for a key agree have the same whole history of values for it |
| LedgerHistory.NoForks | src/memory.py:863-904 | evaluations of a proposal with the same prior are the same evaluation |
| LedgerHistory.EvaluationsChain | src/memory.py:887-900 | the evaluations of a proposal form one chain: each names the one appended immediately before it, the first none, and all but the last are finalized |
| LedgerHistory.BlockedIsTerminal | src/memory.py:887-900 | nothing is ever appended behind a blocked evaluation |
| LedgerHistory.ReportLineage | src/consequences.py:408-440 | every report leads through an observed receipt, an attempt and an effect to an approving decision on a finalized evaluation of a proposal |
| LedgerHistory.LineageIsUnique | schema/init.sql:392-506 | the report determines every row of that lineage |
| LedgerHistory.OnePerProposal | schema/init.sql:163 | at most one decision and one effect per proposal; exclusions only under REJECT |
| LedgerContents.PlanExactly | src/executor.py:552-572 | the allowlist check accepts exactly the proposals SET_DEMO_VALUE on demo_kv:KEY with parameters {"value":TEXT}, TEXT the canonical text of a scalar of at most 256 bytes, and answers KEY and TEXT |
| LedgerContents.EffectIsWhatWasApproved | src/executor.py:412-427 | in every reachable ledger an effect sets the key of the one approved proposal's target to the value text inside its parameters, under its action digest |
| LedgerContents.AttemptIsWhatWasApproved | src/executor.py:573-722 | so does every attempt, the failed ones included; it starts from the zero digest or the digest of a version of its key |
| LedgerContents.ExecutionStores | src/executor.py:429-497 | an execution that writes appends exactly one effect, attempt and receipt, which repeat each other column by column under the drawn identities and the command's key and executor |
| LedgerContents.RollbackCarries | src/executor.py:429-460 | a refused effect insert writes nothing; its client carries command, approved decision, proposal, the key and value it asks for, and the digest of the newest version of the key |
| LedgerContents.ErrorStores | src/executor.py:725-870 | a recorded rollback appends exactly one failed attempt without an effect, with what its client carried, and its receipt |
| LedgerHistory.RejectedActionStaysRefused | src/cli.py:251-301 | an exclusion names action and target of its rejected proposal, and the gate answers NO to them in every snapshot that holds it |
| LedgerHistory.FreshDecisionStored | src/cli.py:205-244 | a committed decision is stored under the drawn identity with every field of its request and with the exclusion it asked for, and with no other |
| LedgerHistory.StoredKeyAnswersExactly | src/cli.py:180-204 | at every later point of every run a request under a stored key writes nothing: it gets the decision if and only if all its fields are the stored ones, and is a conflict otherwise |
| LedgerAnswers.ReviewedExactly | src/cli.py:126-154 | a request passes the review if and only if its proposal is stored, it is about the last finalized evaluation of that proposal with its trace, and it excludes only with a rejection |
| LedgerAnswers.DecisionCommitsExactly | src/cli.py:208-244 | a reviewed request under a new key for an undecided proposal is committed if and only if the drawn identities are unused; otherwise a constraint refuses it |
| LedgerAnswers.DecidedOnce | src/cli.py:200-207 | a decided proposal is not decided again under a new key |
| LedgerHistory.DecisionReplaysForever | src/cli.py:180-204 | the same request gets the same decision at every later point of every run and writes nothing |
| LedgerHistory.SubmissionReplaysForever | src/memory.py:835-853 | a committed first evaluation is answered to the same submission for ever |
| LedgerHistory.WrittenSubmissionReplays | src/memory.py:820-861 | a submission that was written is replayed at every later point of every run |
| LedgerHistory.ReEvaluationReplaysForever | src/memory.py:877-886 | so is a committed re-evaluation |
| LedgerHistory.WrittenReEvaluationReplays | src/memory.py:863-904 | so is a re-evaluation that was written |
| LedgerAnswers.StoredProposalAnswersExactly | src/memory.py:835-853 | a submission under a stored proposal identity is replayed if and only if exactly this proposal and this evaluation are stored, and is a conflict otherwise |
| LedgerAnswers.StoredEvaluationAnswersExactly | src/memory.py:877-886 | a re-evaluation under a stored identity is replayed if and only if the stored trace is its own, and is a conflict otherwise |
| LedgerHistory.FreshReportStoredAs | src/consequences.py:438-474 | a committed report is stored under the observation that asked for it and the identity drawn for it |
| LedgerHistory.ReportReplaysForever | src/consequences.py:392-407 | a committed report is answered to the same observation for ever |
| LedgerAnswers.StoredObservationAnswersExactly | src/consequences.py:392-407 | an observation under a stored key gets the report if and only if receipt, number, reporter and actual document are the stored ones, and is a conflict otherwise |
| LedgerHistory.ReportRefusedExactly | schema/init.sql:471-506 | the report table refuses a report if and only if its identity or observation number is taken; score, threshold and receipt checks always hold |
| LedgerHistory.SummaryAgrees | src/consequences.py:460-462 | a stored report compares the predicted outcome of its proposal, rounded once, with an actual document; leaves and score are those of the comparison, and the summary is MORE exactly when rule F08 calls the score high, which is when the mean reaches 0.4999995 |
| LedgerHistory.RoundedUpIsMore | src/consequences.py:460-462 | a concrete pair of documents with mean 0.4999997 is stored as 0.5 and summarized as MORE |
| LedgerHistory.ReviewStaysFresh | src/cli.py:126-154 | a reviewed evaluation is still the latest finalized one if and only if no finalized evaluation of the proposal was appended since |
| LedgerHistory.StaleDecision | src/cli.py:173-249 | a re-evaluation between review and decision leaves a committed decision on a superseded evaluation |
| LedgerScenarios.StaleReached | src/cli.py:173-249 | a run from the empty ledger that ends with an approval of an evaluation that is no longer the latest |
| LedgerPrecedents.GroupRows | src/memory.py:985-988 | the dictionary of groups holds, per proposal and evaluation, the joined rows in order |
| LedgerPrecedents.SearchPrecedents | src/memory.py:985-1055 | the returned precedents are those of the groups by increasing key |
| LedgerPrecedents.PrecedentsSound | src/memory.py:958-1055 | over a reachable ledger every precedent passes the precedent validator, its consequences are observed at the pinned threshold, and keys increase strictly |
| LedgerRetrieved.PrecedentStates | src/memory.py:985-1055 | over a reachable ledger the one precedent of a joined row carries that row's proposal, evaluation, similarity and decision columns, the receipt columns of the first row of its key, and exactly the joined reports as references |
| LedgerPrecedents.ReportPlacedOnce | src/memory.py:985-1012 | a joined consequence report stands in exactly one precedent, the one of its proposal and evaluation |
| LedgerPrecedents.NoReportTwice | src/memory.py:992-1012 | and it stands there once |
| LedgerPrecedents.NeverInvalidConsequence | src/governance.py:980-985 | such precedents never stop the gate with INVALID_CONSEQUENCE |
| LedgerLimit.PrecedentCount | src/memory.py:958-1055 | the search returns exactly one precedent for each pair of a candidate and one of its finalized evaluations other than the current one |
| LedgerLimit.RetrievalOverLimitExactly | src/governance.py:341-342 | a snapshot with the returned precedents is blocked with PRECEDENT_LIMIT_EXCEEDED if and only if it is in order so far and there are more than five such pairs |
| LedgerLimit.OftenRetrieved | src/memory.py:958-1055 | in the ledger with n evaluations of one proposal, which a run reaches, the search that finds it alone returns n precedents, all of them valid |
| LedgerLimit.OftenEvaluatedIsBlocked | src/governance.py:341-342 | after more than five evaluations of a proposal its next one, which retrieves them, is blocked with PRECEDENT_LIMIT_EXCEEDED |
| Retry.Memory.Attempt | src/memory.py:683-697 | one serializable attempt commits the operation or leaves the state |
| Retry.Memory.RetryOperation | src/memory.py:699-710 | outside a transaction the envelope over the script of failures; inside one the operation runs once on the working state without attempt or commit of its own |
| Retry.Memory.Nested | src/consequences.py:390-476 | appends nested in one transaction commit together or not at all |
| Retry.EnvelopeIsSound | src/memory.py:699-710 | a bounded number of attempts, at most one commit, the others' state or exactly one application to it, never the non-total answer; the same loop serves src/consequences.py:367-374 |
| Retry.SucceedsExactly | src/consequences.py:367-374 | the caller gets a value if and only if the first attempt that is no serialization failure comes within the bound, is calm, and commits |

## Left out

- The database driver, SQL text, pools and `dependency_facts`, `tool_evidence`: plumbing, or one more keyed append of the kind proved for the other tables.
- Vector search and similarity computation: candidate proposals with their similarities are parameters, and the rows of the precedent join are the database's answer, each once, in any order.
- Rows are in append order: `created_at` ties between transactions are not modelled.
- NFC normalization, case folding and white-space collapsing of action and target keys: the normalizer is a parameter; duplicate keys after NFC and the agent's forbidden output keys are not modelled.
- JSON texts with lone surrogates, NaN or infinities, the text of a binary float, and Python's limits on exponents and digits.
- Division and mean at 28 digits in the comparison: `NumberScore` and `Mean` are exact; only the final quantization rounds.
- `canonical_json_bytes` as text, SHA-256 and the truncated hash in a gap identity: digests and gap identities are symbolic.
- Checks that a digest field is 64 hexadecimal digits, that a `_json` field is canonical, and the embedding contract in `validate_snapshot`: shape checks on single fields.
- A prior trace whose stored step result lacks the fields of its rule: step results are typed, except that a conclusion without a verdict is modelled.
- The safe messages of blocked results: a code carries them.
- UUID, text-length and blank checks of commands and decisions, and the derivation of the executor identity from the database principal.
- Reading rows back from JSON columns: stored records are returned as written; `_snapshot_from_json` reads other names than are written, so no round trip is claimed.
- Blocked evaluations with a profile version: the binding check rejects them.
- `get_divergence_warnings`, `reevaluate_with_consequence` and history output: queries over what is proved here.
- The agent's prompt, draft and model calls, the Lambda, ccloud, configuration and release scripts: network and process plumbing.
- JsonRoundTrip.PrintingIsInjective: about parsed documents; the memory's `int` branch is in `Printers`, and the text of a binary float is a parameter there.
- JsonRoundTrip.NormalizingIsIdempotent: without NFC and the agent's forbidden output keys.
- Traces.ValidateStep: without the shape checks of digest and JSON fields.
- Traces.ValidateTrace: without the shape checks of digest and JSON fields.
- Traces.ValidateCheckResult: without the shape checks of fields; changed rules are a set, so their order is not checked.
- Gate.ValidateSnapshot: without the embedding contract and the shape checks of fields.
- Gate.ValidateInput: without the shape checks of fields inside the snapshot validation.
- LedgerDatabase.ValidateBinding: without the shape checks of fields of snapshot and result.
- Gate.ExamineFacts: the additions to the decisive set inside the fact rules are made at the reducer, where they repeat rules of R1 predicates.
- Gate.ReadCapabilities: the capability loop is written as two loops, one for what is recorded and one for what is judged; both run over the same identities in the same order.
- GateLaterRecords.EvidenceRecorded: says which rows F07 lists, not how often a requirement that two granting rules repeat stands there.
- GateLaterRecords.ConsequenceRecorded: says which rows F08 lists and how many, not in which order.
- GateStops.BlockedExactly: the check of the frozen snapshot with its prior is one entry of the list; `SnapshotExactly` says when the full check passes, and the weaker prior check stands in as in the code.
- LedgerDatabase.Database.Execute: the read-back of the inserted effect and the decoding checks of stored rows are reduced to the digest checks.
