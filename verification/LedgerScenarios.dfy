/** Runs from the empty ledger that reach the states the theorems are about. */
module LedgerScenarios {
  import opened Gate
  import opened GateExamples
  import opened Json
  import opened JsonRoundTrip
  import opened JsonText
  import opened LedgerEvaluations
  import opened LedgerHistory
  import opened LedgerInvariant
  import opened LedgerRuns
  import opened LedgerSteps
  import opened LedgerTables
  import opened LedgerTheorems
  import opened Models
  import opened Sequences
  import opened Traces
  import opened Utf8

  lemma RunFour(w: World, steps: seq<Step>, a: Step, b: Step, c: Step, d: Step)
    ensures Run(w, steps + [a] + [b] + [c]) == Next(Next(Next(Run(w, steps), a), b), c)
    ensures Run(w, steps + [a] + [b] + [c] + [d]) == Next(Next(Next(Next(Run(w, steps), a), b), c), d)
  {
    hide Run, Next;
    RunStep(w, steps, a);
    RunStep(w, steps + [a], b);
    RunStep(w, steps + [a] + [b], c);
    RunStep(w, steps + [a] + [b] + [c], d);
  }

  // ----- submitted, reviewed and decided

  /** The names of the evaluations of the one proposal. */
  function Called(n: nat): string { if n == 0 then Uuid('1') else Uuid('2') }

  function DecisionName(): string { Uuid('d') }

  function ExclusionName(): string { Uuid('e') }

  ghost function Asked(): Tables { Evaluated(Called, 1) }

  ghost function Opening(): seq<Step> { Evaluating(Called, 1) }

  ghost function AskRow(): EvaluationRow { RowOf(Called, 0) }

  lemma FreshNames()
    ensures Fresh(Called, 1) && Fresh(Called, 2)
  {
    hide Uuid;
  }

  lemma AskBinding()
    ensures Asked().proposals == [Ask()] && Asked().evaluations == [AskRow()]
    ensures AskRow().outcome.Finalized? && AskRow().Id() == Uuid('1') && OutcomeAccepted(AskRow().outcome) && AskRow().proposalId == Named()
  {
    hide OutcomeAt, Uuid, Named, Sample, PlainJson, ResultAccepted, Fresh;
    FreshNames();
    OutcomeIsValid(Called, 0);
    OutcomeFields(Called, 0);
  }

  lemma OpeningRun()
    ensures Run(START, Opening()) == World(Asked(), map[], map[])
  {
    hide Uuid, Fresh, Evaluating, Evaluated, Run, Called;
    FreshNames();
    EvaluatedRun(Called, 1);
  }

  ghost function Answer(d: DecisionValue, exclude: bool): DecisionRequest {
    DecisionRequest(Named(), Uuid('1'), AskRow().TraceDigest(), d, "human", "because", "key", exclude)
  }

  ghost function Decision(d: DecisionValue, exclude: bool): DecisionRecord { DecisionFor(Answer(d, exclude), DecisionName()) }

  ghost function DecidedSteps(d: DecisionValue, exclude: bool): seq<Step> {
    Opening() + [Review(0, Answer(d, exclude))] + [Decide(0, DecisionName(), ExclusionName())]
  }

  ghost function DecidedTables(d: DecisionValue, exclude: bool): Tables {
    Asked().(decisions := [Decision(d, exclude)],
             exclusions := if exclude then [ExclusionFor(Ask(), Decision(d, exclude), ExclusionName())] else [])
  }

  lemma AskReviewed(d: DecisionValue, exclude: bool)
    requires exclude ==> d == Reject
    ensures Reviewed(Asked(), Answer(d, exclude)) == Some(Ask())
  {
    hide Sample, OutcomeAt, PlainJson, OutcomeAccepted;
    AskBinding();
    SampleDigests(PlainJson(Document()), []);
  }

  lemma FirstDecision(t: Tables, row: EvaluationRow, q: DecisionRequest, p: Proposal, decisionId: string, exclusionId: string)
    requires t.decisions == [] && t.exclusions == [] && row in t.evaluations && (q.exclude ==> q.decision == Reject)
    requires Finalizes(row, q.proposalId, q.evaluationId, q.traceDigest) && p.proposalId == q.proposalId
    ensures var d := DecisionFor(q, decisionId);
      Decided(t, q, p, decisionId, exclusionId).tables
        == t.(decisions := [d], exclusions := if q.exclude then [ExclusionFor(p, d, exclusionId)] else [])
  {
    hide DecisionDigest, ExclusionDigest;
    var d := DecisionFor(q, decisionId);
    assert d in [d];
  }

  lemma AskDecided(d: DecisionValue, exclude: bool)
    requires exclude ==> d == Reject
    ensures Decided(Asked(), Answer(d, exclude), Ask(), DecisionName(), ExclusionName()).tables == DecidedTables(d, exclude)
  {
    hide Sample, OutcomeAt, PlainJson, DecisionFor, ExclusionFor, Decided, OutcomeAccepted, FirstAccepted;
    AskBinding();
    SampleDigests(PlainJson(Document()), []);
    assert AskRow() in Asked().evaluations;
    FirstDecision(Asked(), AskRow(), Answer(d, exclude), Ask(), DecisionName(), ExclusionName());
  }

  lemma DecidedRun(d: DecisionValue, exclude: bool)
    requires exclude ==> d == Reject
    ensures Run(START, DecidedSteps(d, exclude)) == World(DecidedTables(d, exclude), map[], map[])
  {
    hide Run, Asked, Answer, DecidedTables, Reviewed, Decided, Opening;
    OpeningRun();
    AskReviewed(d, exclude);
    AskDecided(d, exclude);
    RunStep(START, Opening(), Review(0, Answer(d, exclude)));
    RunStep(START, Opening() + [Review(0, Answer(d, exclude))], Decide(0, DecisionName(), ExclusionName()));
  }

  // ----- executed

  lemma {:induction false} EncodedLength(s: string)
    ensures |Encode(s)| <= 4 * |s|
  {
    hide EncodeChar;
    if s != [] { EncodedLength(s[1..]); }
  }

  lemma AskedValue()
    ensures JsonScalar(PlainJson(Document())).Accepted?
  {
    var text := PlainJson(Document());
    assert PlainJson(JBool(true)) == "true";
    hide PlainJson, JsonScalar, Encode;
    EncodedLength("true");
    AgentTextAccepted(Document());
    JsonScalarExactly(text);
  }

  lemma AskPlan()
    ensures ValidateEffect(Ask()).Some?
  {
    hide JsonScalar, PlainJson, Encode, ActionDigest, ProposalDigest;
    AskedValue();
    EncodedLength("demo_kv:a");
    assert TARGET_PREFIX + "a" == "demo_kv:a";
    assert "demo_kv:a"[|TARGET_PREFIX|..] == "a";
    assert TARGET_PREFIX <= "demo_kv:a";
  }

  ghost function Approved(): Tables { DecidedTables(Approve, false) }

  function Asking(key: string): Command { Command(DecisionName(), "executor", key) }

  lemma AskAuthorized(key: string)
    ensures Authorized(Approved(), Asking(key)) == Some((Decision(Approve, false), Ask()))
  {
    hide Sample, OutcomeAt, PlainJson, OutcomeAccepted, ActionDigest, ProposalDigest;
    AskBinding();
    SampleDigests(PlainJson(Document()), []);
  }

  function Drawn(c: char): Draws { Draws(Uuid('f'), Uuid(c), Uuid(c), 0, 0) }

  lemma ApprovedKept()
    ensures Reachable(World(Approved(), map[], map[]))
    ensures ExecutionRows(Approved()) && Versions(Approved().effects)
  {
    hide Run, Inv, Reachable, DecidedTables, DecidedSteps, ExecutionRows, Versions;
    DecidedRun(Approve, false);
    ReachedBy(World(Approved(), map[], map[]), DecidedSteps(Approve, false));
    ReachableKept(World(Approved(), map[], map[]));
    KeptTables(World(Approved(), map[], map[]));
  }

  lemma NothingExecuted(key: string, c: char)
    ensures Filter(ReceiptFor(key, DecisionName()), Approved().receipts) == [] && FreshDraws(Approved(), Drawn(c))
    ensures Approved().effects == [] && Approved().attempts == [] && Approved().receipts == []
  {
    hide Sample, Decision, AskRow, PlainJson;
  }

  ghost function Committed(e: Effect): Tables {
    var a := ObservedAttempt(e, Drawn('1'));
    Approved().(effects := [e], attempts := [a], receipts := [ReceiptOf(a, Drawn('1').receiptId)])
  }

  /** An approved decision is executed. */
  lemma ExecutedRun() returns (steps: seq<Step>, e: Effect)
    ensures Run(START, steps) == World(Committed(e), map[], map[])
    ensures e.authority == AuthorityOf(Decision(Approve, false)) && e.effectId == Uuid('f')
  {
    hide Run, DecidedTables, DecidedSteps, ValidateEffect, Authorized, Ask, Decision, Executed, ExecutionRows, Versions, Inv, FreshDraws, EffectFor,
      ObservedAttempt, ReceiptOf;
    var (w, c) := (Drawn('1'), Asking("k"));
    var a := Execute(0, "executor", c, w, Healthy);
    steps := DecidedSteps(Approve, false) + [a];
    DecidedRun(Approve, false);
    RunStep(START, DecidedSteps(Approve, false), a);
    ApprovedKept();
    NothingExecuted("k", '1');
    AskAuthorized("k");
    AskPlan();
    var plan := ValidateEffect(Ask()).value;
    e := EffectFor(Approved(), c, Decision(Approve, false), Ask(), plan, w.effectId);
    ExecutionCommits(Approved(), "executor", c, w, Decision(Approve, false), Ask(), plan);
    EffectForFacts(Approved(), c, Decision(Approve, false), Ask(), plan, w.effectId);
    assert [] + [e] == [e];
  }

  lemma CommittedReceipt(e: Effect) returns (r: Receipt)
    ensures Committed(e).receipts == [r] && r.receiptId == Uuid('1') && r.status == Observed && r.authority == e.authority
    ensures r.receiptDigest == ReceiptDigest(r) && r.after.Some? && r.version.Some? && r.attemptId == Uuid('1')
    ensures |Committed(e).attempts| == 1 && Committed(e).attempts[0].attemptId == Uuid('1') && Committed(e).attempts[0].effectId.Some?
  {
    hide AttemptDigest, OutcomeDigest, DecidedTables;
    r := Committed(e).receipts[0];
  }

  lemma EffectReached() returns (steps: seq<Step>)
    ensures HasEffect(Run(START, steps).tables, DecisionName()) && HasReceipt(Run(START, steps).tables, DecisionName(), Observed)
  {
    hide Run, Decision, Approved, ObservedAttempt, ReceiptOf;
    var e;
    steps, e := ExecutedRun();
    var r := CommittedReceipt(e);
    DecisionIdentity();
    assert e in Committed(e).effects && r in Committed(e).receipts;
  }

  function Seen(): Observation { Observation(Uuid('1'), 1, PlainJson(Document()), "human", "report") }

  lemma CommittedReportable(e: Effect, r: Receipt)
    requires e.authority == AuthorityOf(Decision(Approve, false)) && Committed(e).receipts == [r] && r.authority == e.authority
    requires r.status == Observed && r.receiptDigest == ReceiptDigest(r) && r.after.Some? && r.version.Some? && r.attemptId == Uuid('1')
    requires |Committed(e).attempts| == 1 && Committed(e).attempts[0].attemptId == Uuid('1') && Committed(e).attempts[0].effectId.Some?
    ensures Reportable(Committed(e), r)
  {
    hide Sample, OutcomeAt, PlainJson, ReceiptDigest, ObservedAttempt, ReceiptOf, FirstAccepted, OutcomeAccepted;
    AskBinding();
  }

  lemma FirstReport(t: Tables, r: Receipt, p: Proposal, v: Json, o: Observation, id: string)
    requires t.reports == [] && t.receipts == [r] && t.proposals == [p] && r.authority.proposalId == p.proposalId
    requires r.receiptId == o.receiptId && r.status == Observed && Reportable(t, r)
    requires o.number > 0 && o.reportedBy != "" && o.idempotencyKey != ""
    requires ReadText(o.actualText) == Some(v) && ReadText(p.predictedOutcomeJson) == Some(v)
    ensures Reported(t, o, id).tables.reports == [ReportFor(r, Rounded(v), Rounded(v), o, id)]
  {
    hide ReadText, Rounded, Reportable, ReportFor, ReportAllowed;
    assert r in t.receipts && p in t.proposals;
    ReportRefusedExactly(t, r, Rounded(v), Rounded(v), o, id);
  }

  /** An executed effect is reported on. */
  lemma ReportReached() returns (steps: seq<Step>)
    ensures Run(START, steps).tables.reports != []
  {
    hide Run, Decision, Ask, PlainJson, ReadText, Rounded, Reportable, ReportFor, Reported, Committed, Document;
    var front, e := ExecutedRun();
    steps := front + [Observe(Seen(), Uuid('c'))];
    RunStep(START, front, Observe(Seen(), Uuid('c')));
    var r := CommittedReceipt(e);
    CommittedReportable(e, r);
    ReadInvertsPrint(Document());
    CommittedProposal(e);
    FirstReport(Committed(e), r, Ask(), Rounded(Document()), Seen(), Uuid('c'));
  }

  lemma CommittedProposal(e: Effect)
    ensures Committed(e).proposals == [Ask()] && Committed(e).reports == []
    ensures Ask().proposalId == Named() && Ask().predictedOutcomeJson == PlainJson(Document()) && Decision(Approve, false).proposalId == Named()
  {
    hide PlainJson, ObservedAttempt, ReceiptOf, ActionDigest, ProposalDigest;
  }

  lemma DecisionIdentity()
    ensures Decision(Approve, false).decisionId == DecisionName()
  {}

  /** Two error receipts for one decision. */
  lemma TwoErrorsReached() returns (steps: seq<Step>)
    ensures ErrorIn(Run(START, steps).tables, "k", DecisionName()) && ErrorIn(Run(START, steps).tables, "l", DecisionName())
  {
    hide Run, DecidedTables, DecidedSteps, ValidateEffect, Authorized, Ask, Decision, Next, Reachable, FreshDraws, ErrorIn;
    var (a, b) := (Execute(0, "executor", Asking("k"), Drawn('1'), EffectFails), Execute(1, "executor", Asking("l"), Drawn('2'), EffectFails));
    var (c, d) := (RecordError(0, Drawn('1')), RecordError(1, Drawn('2')));
    steps := DecidedSteps(Approve, false) + [a] + [b] + [c] + [d];
    RunFour(START, DecidedSteps(Approve, false), a, b, c, d);
    DecidedRun(Approve, false);
    ApprovedKept();
    NothingExecuted("k", '1');
    NothingExecuted("l", '2');
    AskAuthorized("k");
    AskAuthorized("l");
    AskPlan();
    assert Drawn('1').attemptId[35] != Drawn('2').attemptId[35];
    TwoErrors(World(Approved(), map[], map[]), 0, 1, "executor", Asking("k"), Asking("l"), Drawn('1'), Drawn('2'), Drawn('1'), Drawn('2'),
              Decision(Approve, false), Ask(), ValidateEffect(Ask()).value);
  }

  /** A rejected action is excluded. */
  lemma ExclusionReached() returns (steps: seq<Step>)
    ensures Run(START, steps).tables.exclusions != []
  {
    hide Run, DecidedSteps, ExclusionFor, Decision, Asked;
    steps := DecidedSteps(Reject, true);
    DecidedRun(Reject, true);
  }

  // ----- a decision on a superseded evaluation

  /** A committed approval of an evaluation that is no longer the latest. */
  lemma StaleReached() returns (steps: seq<Step>, q: DecisionRequest)
    ensures var t := Run(START, steps).tables;
      DecisionFor(q, DecisionName()) in t.decisions && q.decision == Approve && Reviewed(t, q) == None
  {
    hide OutcomeAt, SnapshotAt, Reachable, Run, Evaluated, Answer, Reviewed, ReEvaluated, Evaluating, Next, DecisionFor, Fresh, Uuid;
    FreshNames();
    AgainAppended();
    AskReviewed(Approve, false);
    OpeningRun();
    ReachedBy(World(Asked(), map[], map[]), Opening());
    NoDecisions();
    q := Answer(Approve, false);
    var (a, b, c) := (Review(0, q), ReEvaluate(SnapshotAt(Called, 1), OutcomeAt(Called, 1)), Decide(0, DecisionName(), ExclusionName()));
    steps := Opening() + [a] + [b] + [c];
    StaleDecision(World(Asked(), map[], map[]), 0, q, SnapshotAt(Called, 1), OutcomeAt(Called, 1), DecisionName(), ExclusionName());
    RunFour(START, Opening(), a, b, c, Leave(0));
  }

  lemma AgainAppended()
    requires Fresh(Called, 2)
    ensures OutcomeAt(Called, 1).Finalized? && SnapshotAt(Called, 1).proposal.proposalId == Named()
    ensures ReEvaluated(Asked(), SnapshotAt(Called, 1), OutcomeAt(Called, 1)).reply.Written?
  {
    hide OutcomeAt, SnapshotAt, ReEvaluated, Evaluated, Fresh, Uuid, Sample, PlainJson, BindingAccepted;
    AppendedBehind(Called, 1);
    OutcomeFields(Called, 1);
    OutcomeIsBound(Called, 1);
    SampleDigests(PlainJson(Document()), []);
  }

  lemma NoDecisions()
    ensures Asked().decisions == []
    ensures var q := Answer(Approve, false); !q.exclude && q.proposalId == Named() && q.decision == Approve
  {}
}
