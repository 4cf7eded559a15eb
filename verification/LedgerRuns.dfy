/** The ledger as a state machine: the tables, the clients between their transactions, the
    steps of every client in any order, and what every step keeps. */
module LedgerRuns {
  import opened Gate
  import opened JsonRoundTrip
  import opened JsonText
  import opened LedgerSteps
  import opened LedgerTables
  import opened Models
  import opened Sequences

  /** A human decision between its review and its own transaction. */
  datatype PendingDecision = PendingDecision(request: DecisionRequest, proposal: Proposal)

  /** Clients hold a proven rollback or a reviewed request between two of their transactions. */
  datatype World = World(tables: Tables, failed: map<nat, FailedEffect>, reviewed: map<nat, PendingDecision>)

  datatype Step =
    | Submit(p: Proposal, s: EvaluationSnapshot, o: Outcome)
    | ReEvaluate(s: EvaluationSnapshot, o: Outcome)
    | Review(client: nat, q: DecisionRequest)
    | Decide(client: nat, decisionId: string, exclusionId: string)
    | Execute(client: nat, self: string, c: Command, w: Draws, fault: Fault)
    | RecordError(client: nat, w: Draws)
    | Observe(observation: Observation, id: string)
    | Leave(client: nat)

  ghost function Next(w: World, a: Step): World {
    match a
    case Submit(p, s, o) => w.(tables := Submitted(w.tables, p, s, o).tables)
    case ReEvaluate(s, o) => w.(tables := ReEvaluated(w.tables, s, o).tables)
    case Review(k, q) =>
      (match Reviewed(w.tables, q)
       case None => w
       case Some(p) => w.(reviewed := w.reviewed[k := PendingDecision(q, p)]))
    case Decide(k, decisionId, exclusionId) =>
      if k !in w.reviewed then w
      else w.(tables := Decided(w.tables, w.reviewed[k].request, w.reviewed[k].proposal, decisionId, exclusionId).tables,
              reviewed := w.reviewed - {k})
    case Execute(k, self, c, draws, fault) =>
      if k in w.failed then w
      else
        var x := Executed(w.tables, self, c, draws, fault);
        (match x.answer
         case Receipted(_) => w.(tables := x.tables)
         case ProvenRollback(f) => w.(tables := x.tables, failed := w.failed[k := f]))
    case RecordError(k, draws) =>
      if k !in w.failed then w
      else w.(tables := ErrorRecorded(w.tables, w.failed[k], draws).tables, failed := w.failed - {k})
    case Observe(o, id) => w.(tables := Reported(w.tables, o, id).tables)
    case Leave(k) => w.(failed := w.failed - {k}, reviewed := w.reviewed - {k})
  }

  const START := World(EMPTY, map[], map[])

  ghost function Run(w: World, steps: seq<Step>): World {
    if steps == [] then w else Next(Run(w, steps[..|steps| - 1]), steps[|steps| - 1])
  }

  ghost predicate Reachable(w: World) { exists steps :: w == Run(START, steps) }

  lemma RunStep(w: World, steps: seq<Step>, a: Step)
    ensures Run(w, steps + [a]) == Next(Run(w, steps), a)
  {
    hide Next;
    assert (steps + [a])[..|steps|] == steps;
  }

  lemma ReachedBy(w: World, steps: seq<Step>)
    requires Run(START, steps) == w
    ensures Reachable(w)
  {
    hide Run;
  }

  lemma ReachableNext(w: World, a: Step)
    requires Reachable(w)
    ensures Reachable(Next(w, a))
  {
    hide Run, Next;
    var steps :| w == Run(START, steps);
    RunStep(START, steps, a);
  }

  // ----- tables only grow

  ghost predicate Extends(t: Tables, u: Tables) {
    && t.proposals <= u.proposals && t.evaluations <= u.evaluations && t.decisions <= u.decisions
    && t.exclusions <= u.exclusions && t.effects <= u.effects && t.attempts <= u.attempts
    && t.receipts <= u.receipts && t.reports <= u.reports
  }

  lemma SubmitExtends(t: Tables, p: Proposal, s: EvaluationSnapshot, o: Outcome)
    ensures Extends(t, Submitted(t, p, s, o).tables)
  {
    hide FirstAccepted, ProposalAllowed, EvaluationAllowed;
  }

  lemma ReEvaluateExtends(t: Tables, s: EvaluationSnapshot, o: Outcome)
    ensures Extends(t, ReEvaluated(t, s, o).tables)
  {
    hide NextAccepted, EvaluationAllowed;
  }

  lemma DecideExtends(t: Tables, q: DecisionRequest, p: Proposal, decisionId: string, exclusionId: string)
    ensures Extends(t, Decided(t, q, p, decisionId, exclusionId).tables)
  {
    hide DecisionAllowed, ExclusionAllowed, DecisionReplay;
  }

  lemma ClosedExtends(begin: Tables, t: Tables, a: Attempt, id: string)
    requires Extends(begin, t)
    ensures Extends(begin, Closed(begin, t, a, id).tables)
  {
    hide AttemptAllowed, ReceiptAllowed, ReceiptOf;
  }

  lemma ExecuteExtends(t: Tables, self: string, c: Command, w: Draws, fault: Fault)
    ensures Extends(t, Executed(t, self, c, w, fault).tables)
  {
    hide EffectAllowed, ValidateEffect, Closed, Authorized, Filter, EffectFor, ObservedAttempt;
    if Authorized(t, c).Some? && ValidateEffect(Authorized(t, c).value.1).Some? {
      var (d, p) := Authorized(t, c).value;
      var e := EffectFor(t, c, d, p, ValidateEffect(p).value, w.effectId);
      ClosedExtends(t, t.(effects := t.effects + [e]), ObservedAttempt(e, w), w.receiptId);
    }
  }

  lemma ErrorExtends(t: Tables, f: FailedEffect, w: Draws)
    ensures Extends(t, ErrorRecorded(t, f, w).tables)
  {
    hide Closed, ErrorAttempt;
    ClosedExtends(t, t, ErrorAttempt(f, w), w.receiptId);
  }

  lemma ReportExtends(t: Tables, o: Observation, id: string)
    ensures Extends(t, Reported(t, o, id).tables)
  {
    hide ReportAllowed, Reportable, ReportReplay, ReportFor, ReadText, Rounded;
  }

  /** No step changes or removes a row. */
  lemma StepExtends(w: World, a: Step)
    ensures Extends(w.tables, Next(w, a).tables)
  {
    hide Submitted, ReEvaluated, Decided, Executed, ErrorRecorded, Reported, Reviewed;
    match a {
      case Submit(p, s, o) => SubmitExtends(w.tables, p, s, o);
      case ReEvaluate(s, o) => ReEvaluateExtends(w.tables, s, o);
      case Review(k, q) =>
      case Decide(k, d, x) =>
        if k in w.reviewed { DecideExtends(w.tables, w.reviewed[k].request, w.reviewed[k].proposal, d, x); }
      case Execute(k, self, c, draws, fault) => ExecuteExtends(w.tables, self, c, draws, fault);
      case RecordError(k, draws) => if k in w.failed { ErrorExtends(w.tables, w.failed[k], draws); }
      case Observe(o, id) => ReportExtends(w.tables, o, id);
      case Leave(k) =>
    }
  }

  lemma ExtendsTransitive(t: Tables, u: Tables, v: Tables)
    requires Extends(t, u) && Extends(u, v)
    ensures Extends(t, v)
  {}

  /** Every run only appends. */
  lemma {:induction false} RunExtends(w: World, steps: seq<Step>)
    ensures Extends(w.tables, Run(w, steps).tables)
  {
    hide Next, Extends;
    if steps == [] {
      NothingAppended(w.tables);
    } else {
      var front := steps[..|steps| - 1];
      RunExtends(w, front);
      StepExtends(Run(w, front), steps[|steps| - 1]);
      ExtendsTransitive(w.tables, Run(w, front).tables, Run(w, steps).tables);
    }
  }

  lemma NothingAppended(t: Tables)
    ensures Extends(t, t)
  {}
}
