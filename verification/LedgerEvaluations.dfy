/** One proposal evaluated any number of times, from the empty ledger. */
module LedgerEvaluations {
  import opened Gate
  import opened GateExamples
  import opened GateTrace
  import opened Json
  import opened JsonText
  import opened LedgerRuns
  import opened LedgerSteps
  import opened LedgerTables
  import opened Models
  import opened Traces

  function Document(): Json { JObject(map["value" := JBool(true)]) }

  function Ask(): Proposal { Sample(PlainJson(Document()), []) }

  /** The names of the evaluations. */
  type Names = nat -> string

  /** The first n names are distinct and not blank. */
  ghost predicate Fresh(ids: Names, n: nat) {
    (forall i | 0 <= i < n :: ids(i) != "") && forall i, j | 0 <= i < j < n :: ids(i) != ids(j)
  }

  // ----- the evaluations, each with the one before it as its prior

  ghost function Before(ids: Names, n: nat): Option<PriorEvaluation>
    decreases n, 0
  {
    if n == 0 then None
    else
      match OutcomeAt(ids, n - 1)
      case Finalized(r) => Some(PriorEvaluation(Named(), r))
      case Blocked(_) => None
  }

  ghost function SnapshotAt(ids: Names, n: nat): EvaluationSnapshot
    decreases n, 1
  {
    SampleSnapshot(Ask(), [], ids(n), Before(ids, n))
  }

  ghost function OutcomeAt(ids: Names, n: nat): Outcome
    decreases n, 2
  {
    Evaluation(Keys, SnapshotAt(ids, n), CONFIG)
  }

  lemma {:induction false} OutcomeIsValid(ids: Names, n: nat)
    requires Fresh(ids, n + 1)
    ensures OutcomeAt(ids, n).Finalized? && ResultAccepted(OutcomeAt(ids, n).result)
    ensures Usable(Some(PriorEvaluation(Named(), OutcomeAt(ids, n).result)), Ask(), []) && Usable(Before(ids, n), Ask(), [])
  {
    hide Evaluation, Sample, SampleSnapshot, SamplePolicy, ResultAccepted, Usable, PriorOfFactRules, PlainJson, Named, Short;
    var text := PlainJson(Document());
    ShortSample(text, [], []);
    SampleParts(Ask(), [], ids(n), Before(ids, n));
    if n > 0 {
      OutcomeIsValid(ids, n - 1);
      FactsBefore(ids, n);
    } else {
      UsableNone(Ask(), []);
      NoneBefore(SnapshotAt(ids, n));
    }
    SamplePrior(text, [], [], ids(n), Before(ids, n));
  }

  lemma NoneBefore(s: EvaluationSnapshot)
    requires s.prior.None?
    ensures PriorOfFactRules(s)
  {}

  lemma FactsBefore(ids: Names, n: nat)
    requires 0 < n && OutcomeAt(ids, n - 1).Finalized?
    ensures PriorOfFactRules(SnapshotAt(ids, n))
  {
    hide Evaluation, Sample, SampleSnapshot, PlainJson, Named, FactRule;
    SampleParts(Ask(), [], ids(n), Before(ids, n));
    OperatorRules(Keys, SnapshotAt(ids, n - 1), CONFIG);
  }

  lemma OutcomeFields(ids: Names, n: nat)
    requires Fresh(ids, n + 1)
    ensures OutcomeAt(ids, n).Finalized?
    ensures var r := OutcomeAt(ids, n).result;
      && r.evaluationId == ids(n) && r.priorEvaluationId == (if n == 0 then None else Some(ids(n - 1))) && r.profileVersion.None?
      && r.inputSnapshotDigest == SnapshotDigest(SnapshotAt(ids, n)) && r.policyDigest == SamplePolicy([]).policyDigest
      && (n == 0 ==> r.changedFactRules == {})
  {
    hide Evaluation, Sample, SampleSnapshot, SamplePolicy, ResultAccepted, Usable, PlainJson, Named, SnapshotDigest, ResultDigest;
    OutcomeIsValid(ids, n);
    SampleParts(Ask(), [], ids(n), Before(ids, n));
    AnswerIsBound(Keys, SnapshotAt(ids, n), CONFIG);
    if n > 0 {
      OutcomeIsValid(ids, n - 1);
      SampleParts(Ask(), [], ids(n - 1), Before(ids, n - 1));
      AnswerIsBound(Keys, SnapshotAt(ids, n - 1), CONFIG);
    } else {
      NothingChanged(OutcomeAt(ids, n).result);
    }
  }

  lemma OutcomeIsBound(ids: Names, n: nat)
    requires Fresh(ids, n + 1)
    ensures BindingAccepted(SnapshotAt(ids, n), OutcomeAt(ids, n))
    ensures if n == 0 then FirstAccepted(Ask(), SnapshotAt(ids, n), OutcomeAt(ids, n)) else NextAccepted(SnapshotAt(ids, n), OutcomeAt(ids, n))
    ensures SnapshotAt(ids, n).proposal == Ask() && SnapshotAt(ids, n).prior == Before(ids, n)
  {
    hide Evaluation, Sample, SampleSnapshot, SamplePolicy, ResultAccepted, Usable, PlainJson, Named, SnapshotDigest, ResultDigest, SnapshotAccepted,
      ActionDigest, ProposalDigest, PolicyDigest, Short;
    var text := PlainJson(Document());
    ShortSample(text, [], []);
    OutcomeIsValid(ids, n);
    OutcomeFields(ids, n);
    SampleAccepted(text, [], [], ids(n), Before(ids, n));
    SampleParts(Ask(), [], ids(n), Before(ids, n));
    SampleDigests(text, []);
    PolicySealed([]);
    if n > 0 { OutcomeFields(ids, n - 1); }
  }

  // ----- their run

  ghost function RowOf(ids: Names, n: nat): EvaluationRow
  {
    EvaluationRow(Named(), OutcomeAt(ids, n))
  }

  ghost function Rows(ids: Names, n: nat): seq<EvaluationRow>
  {
    seq(n, i requires 0 <= i < n => RowOf(ids, i))
  }

  ghost function Evaluated(ids: Names, n: nat): Tables {
    EMPTY.(proposals := if n == 0 then [] else [Ask()], evaluations := Rows(ids, n))
  }

  ghost function Evaluating(ids: Names, n: nat): seq<Step> {
    if n == 0 then []
    else
      var (s, o) := (SnapshotAt(ids, n - 1), OutcomeAt(ids, n - 1));
      Evaluating(ids, n - 1) + [if n == 1 then Submit(Ask(), s, o) else ReEvaluate(s, o)]
  }

  /** A finalized first evaluation of a proposal without parent goes into the empty ledger. */
  lemma FirstIntoEmpty(p: Proposal, s: EvaluationSnapshot, o: Outcome)
    requires FirstAccepted(p, s, o) && LineageAccepted(p) && p.parentProposalId.None?
    requires o.Finalized? && o.result.profileVersion.None?
    ensures Submitted(EMPTY, p, s, o).tables == EMPTY.(proposals := [p], evaluations := [EvaluationRow(p.proposalId, o)])
  {
    hide BindingAccepted, EvaluationRow.Replay;
    assert p in [p];
  }

  /** A further one goes behind the latest, when identity and replay columns are new. */
  lemma NextBehindLatest(t: Tables, s: EvaluationSnapshot, o: Outcome, p: Proposal, latest: EvaluationRow)
    requires NextAccepted(s, o) && o.Finalized? && o.result.profileVersion.None?
    requires t.evaluations != [] && latest == t.evaluations[|t.evaluations| - 1] && latest.proposalId == s.proposal.proposalId
    requires s.prior.value.result.evaluationId == latest.Id() && s.prior.value.result.traceDigest == latest.TraceDigest()
    requires p in t.proposals && p.proposalId == s.proposal.proposalId
    requires var row := EvaluationRow(s.proposal.proposalId, o); forall f | f in t.evaluations :: f.Id() != row.Id() && f.Replay() != row.Replay()
    ensures ReEvaluated(t, s, o) ==
      Tx(t.(evaluations := t.evaluations + [EvaluationRow(s.proposal.proposalId, o)]), Written(EvaluationRow(s.proposal.proposalId, o).Id()))
  {
    hide BindingAccepted, EvaluationRow.Replay;
    assert latest in t.evaluations;
  }

  lemma OtherReplay(ids: Names, i: nat, n: nat)
    requires i < n && Fresh(ids, n + 1)
    ensures RowOf(ids, i).Id() != RowOf(ids, n).Id() && RowOf(ids, i).Replay() != RowOf(ids, n).Replay()
  {
    hide Evaluation, OutcomeAt, Sample, PlainJson, Named, Before;
    OutcomeFields(ids, i);
    OutcomeFields(ids, n);
    SampleParts(Ask(), [], ids(i), Before(ids, i));
    SampleParts(Ask(), [], ids(n), Before(ids, n));
    assert SnapshotDigest(SnapshotAt(ids, i)) != SnapshotDigest(SnapshotAt(ids, n));
  }

  lemma LatestIsPrior(ids: Names, n: nat)
    requires 0 < n && Fresh(ids, n + 1)
    ensures var (p, row) := (Before(ids, n), RowOf(ids, n - 1));
      p.Some? && p.value.result.evaluationId == row.Id() && p.value.result.traceDigest == row.TraceDigest()
  {
    hide Evaluation, Sample, PlainJson, Named;
    OutcomeFields(ids, n - 1);
  }

  lemma AppendedBehind(ids: Names, n: nat)
    requires 0 < n && Fresh(ids, n + 1)
    ensures ReEvaluated(Evaluated(ids, n), SnapshotAt(ids, n), OutcomeAt(ids, n)) == Tx(Evaluated(ids, n + 1), Written(ids(n)))
  {
    hide OutcomeAt, SnapshotAt, Before, Sample, PlainJson, Named, NextAccepted, ReEvaluated, EvaluationRow.Replay, BindingAccepted, FirstAccepted;
    OutcomeFields(ids, n);
    OutcomeIsBound(ids, n);
    LatestIsPrior(ids, n);
    SampleDigests(PlainJson(Document()), []);
    forall f | f in Rows(ids, n) ensures f.Id() != RowOf(ids, n).Id() && f.Replay() != RowOf(ids, n).Replay() {
      var i :| 0 <= i < n && Rows(ids, n)[i] == f;
      OtherReplay(ids, i, n);
    }
    var t := Evaluated(ids, n);
    assert t.evaluations[n - 1] == RowOf(ids, n - 1) && Ask() in t.proposals;
    assert Rows(ids, n + 1) == Rows(ids, n) + [RowOf(ids, n)];
    NextBehindLatest(t, SnapshotAt(ids, n), OutcomeAt(ids, n), Ask(), RowOf(ids, n - 1));
  }

  lemma FirstSubmitted(ids: Names)
    requires Fresh(ids, 1)
    ensures Submitted(Evaluated(ids, 0), Ask(), SnapshotAt(ids, 0), OutcomeAt(ids, 0)).tables == Evaluated(ids, 1)
  {
    hide OutcomeAt, SnapshotAt, Before, Sample, PlainJson, Named, Submitted, FirstAccepted, BindingAccepted, NextAccepted;
    OutcomeFields(ids, 0);
    OutcomeIsBound(ids, 0);
    SampleDigests(PlainJson(Document()), []);
    FirstIntoEmpty(Ask(), SnapshotAt(ids, 0), OutcomeAt(ids, 0));
    assert Rows(ids, 0) == [] && Rows(ids, 1) == [RowOf(ids, 0)];
  }

  /** The run leaves exactly the evaluations, in their order. */
  lemma {:induction false} EvaluatedRun(ids: Names, n: nat)
    requires Fresh(ids, n)
    ensures Run(START, Evaluating(ids, n)) == World(Evaluated(ids, n), map[], map[])
  {
    hide OutcomeAt, SnapshotAt, Ask, Submitted, ReEvaluated, Run, Fresh;
    if n == 0 {
      NothingEvaluated(ids);
      EmptyRun();
    } else {
      EvaluatedRun(ids, n - 1) by { FewerNames(ids, n); }
      if n == 1 { FirstSubmitted(ids); } else { AppendedBehind(ids, n - 1); }
      hide Evaluated;
      var (s, o) := (SnapshotAt(ids, n - 1), OutcomeAt(ids, n - 1));
      RunStep(START, Evaluating(ids, n - 1), if n == 1 then Submit(Ask(), s, o) else ReEvaluate(s, o));
    }
  }

  lemma FewerNames(ids: Names, n: nat)
    requires n > 0 && Fresh(ids, n)
    ensures Fresh(ids, n - 1)
  {}

  lemma NothingEvaluated(ids: Names)
    ensures Evaluating(ids, 0) == [] && Evaluated(ids, 0) == EMPTY
  {
    hide RowOf;
  }

  lemma EmptyRun()
    ensures Run(START, []) == START
  {}
}
