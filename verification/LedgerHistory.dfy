/** Histories: version chains, genealogies, provenance, and the schedules that need care. */
module LedgerHistory {
  import opened Divergence
  import opened Gate
  import GateVerdict
  import opened Json
  import opened JsonRoundTrip
  import opened JsonText
  import opened LedgerInvariant
  import opened LedgerRuns
  import opened LedgerSteps
  import opened LedgerTables
  import opened LedgerTheorems
  import opened Models
  import opened Sequences

  // ----- effect histories

  function History(t: Tables, key: string): seq<Effect> { Filter(HasEffectKey(key), t.effects) }

  function ValueOf(e: Effect): string { e.value }

  lemma SameDigestSameRow(e: Effect, f: Effect)
    requires EffectDigest(e) == EffectDigest(f)
    ensures e.(effectId := "", digest := Zero) == f.(effectId := "", digest := Zero)
  {}

  /** Two chains whose last digests agree carry the same values, version by version. */
  lemma {:induction false} DigestDeterminesChain(es: seq<Effect>, fs: seq<Effect>)
    requires EffectChain(es) && EffectChain(fs) && es != [] && fs != []
    requires es[|es| - 1].digest == fs[|fs| - 1].digest
    ensures |es| == |fs| && Each(ValueOf, es) == Each(ValueOf, fs)
    ensures forall i | 0 <= i < |es| :: es[i].authority == fs[i].authority
    decreases |es|
  {
    hide EffectDigest;
    var n, m := |es| - 1, |fs| - 1;
    assert VersionLink(es, n) && VersionLink(fs, m);
    SameDigestSameRow(es[n], fs[m]);
    assert n == m;
    if n > 0 {
      forall i | 0 <= i < n ensures VersionLink(es[..n], i) && VersionLink(fs[..n], i) {
        assert VersionLink(es, i) && VersionLink(fs, i);
      }
      DigestDeterminesChain(es[..n], fs[..n]);
      assert forall i | 0 <= i < n :: Each(ValueOf, es)[i] == Each(ValueOf, es[..n])[i] && Each(ValueOf, fs)[i] == Each(ValueOf, fs[..n])[i];
    }
  }

  /** In every reachable ledger the versions of a key are 1..n, each row naming identity, version
      and digest of the row before it and the first starting from the zero digest. */
  lemma VersionsCountUp(w: World, key: string, i: nat)
    requires Reachable(w) && i < |History(w.tables, key)|
    ensures var h := History(w.tables, key);
      && h[i].version == i + 1 && h[i].digest == EffectDigest(h[i])
      && (i == 0 ==> h[i].before == Zero && h[i].priorId == None && h[i].priorVersion == None)
      && (i > 0 ==> h[i].before == h[i - 1].digest && h[i].priorId == Some(h[i - 1].effectId) && h[i].priorVersion == Some(h[i - 1].version))
  {
    hide EffectDigest, Filter, ExecutionRows, Genealogy, DecisionRows, ExclusionRows, ReportRows, Inv, Reachable;
    ReachableKept(w);
    KeptTables(w);
    var h := History(w.tables, key);
    assert EffectChain(h);
    assert VersionLink(h, i) && (i > 0 ==> VersionLink(h, i - 1));
  }

  /** Two reachable ledgers whose latest digests for a key agree have the same history of values. */
  lemma SameDigestSameHistory(v: World, w: World, key: string)
    requires Reachable(v) && Reachable(w) && LatestEffect(v.tables, key).Present? && LatestEffect(w.tables, key).Present?
    requires LatestEffect(v.tables, key).row.digest == LatestEffect(w.tables, key).row.digest
    ensures Each(ValueOf, History(v.tables, key)) == Each(ValueOf, History(w.tables, key))
    ensures |History(v.tables, key)| == |History(w.tables, key)|
  {
    hide Filter, ExecutionRows, Genealogy, DecisionRows, ExclusionRows, ReportRows, EffectChain, Newest, Inv, Reachable;
    ReachableKept(v);
    ReachableKept(w);
    KeptTables(v);
    KeptTables(w);
    var h, k := History(v.tables, key), History(w.tables, key);
    assert EffectChain(h) && EffectChain(k);
    NewestOfChain(h);
    NewestOfChain(k);
    DigestDeterminesChain(h, k);
  }

  // ----- two clients, two errors

  lemma RollsBack(w: World, client: nat, self: string, c: Command, x: Draws, d: DecisionRecord, p: Proposal, plan: EffectPlan)
    requires client !in w.failed && c.executorId == self
    requires Filter(ReceiptFor(c.idempotencyKey, c.decisionId), w.tables.receipts) == []
    requires Authorized(w.tables, c) == Some((d, p)) && ValidateEffect(p) == Some(plan)
    ensures var v := Next(w, Execute(client, self, c, x, EffectFails));
      && v.tables == w.tables && v.failed.Keys == w.failed.Keys + {client}
      && (forall k | k in w.failed :: v.failed[k] == w.failed[k])
      && v.failed[client].command == c && v.failed[client].decision == d && v.failed[client].proposal == p
  {
    hide Filter, Authorized, ValidateEffect, EffectFor;
  }

  ghost predicate ErrorIn(t: Tables, key: string, decisionId: string) {
    exists r :: r in t.receipts && r.idempotencyKey == key && r.authority.decisionId == decisionId && r.status == Error
  }

  lemma RecordsError(w: World, client: nat, y: Draws)
    requires Inv(w) && client in w.failed && FreshDraws(w.tables, y)
    requires forall r | r in w.tables.receipts :: r.idempotencyKey != w.failed[client].command.idempotencyKey
    requires !HasEffect(w.tables, w.failed[client].decision.decisionId)
    ensures var (v, f, a) := (Next(w, RecordError(client, y)), w.failed[client], ErrorAttempt(w.failed[client], y));
      && v.failed == w.failed - {client} && v.tables.effects == w.tables.effects
      && v.tables.receipts == w.tables.receipts + [ReceiptOf(a, y.receiptId)]
      && v.tables.attempts == w.tables.attempts + [a]
  {
    hide Inv, FailureBound, ExecutionRows, ErrorRecorded, ErrorAttempt, ReceiptOf, FreshDraws, HasEffect;
    FailureKept(w, client);
    BoundErrorRecorded(w.tables, w.failed[client], y);
    ErrorRows(w.tables, w.failed[client], y);
  }

  lemma ErrorAppears(t: Tables, f: FailedEffect, y: Draws)
    requires ReceiptOf(ErrorAttempt(f, y), y.receiptId) in t.receipts
    ensures ErrorIn(t, f.command.idempotencyKey, f.decision.decisionId)
  {
    hide ErrorAttempt;
    ErrorFacts(f, y);
    var r := ReceiptOf(ErrorAttempt(f, y), y.receiptId);
    assert r.status == Error;
  }

  lemma ErrorRows(t: Tables, f: FailedEffect, y: Draws)
    requires ErrorRecorded(t, f, y).reply.Written?
    ensures ErrorRecorded(t, f, y).tables.attempts == t.attempts + [ErrorAttempt(f, y)]
  {
    hide ErrorAttempt, ReceiptOf, AttemptAllowed, ReceiptAllowed, ReceiptDigest;
  }

  /** Two clients that both hold a rollback of one decision both record it. */
  lemma BothRecord(w: World, k: nat, l: nat, y: Draws, u: Draws)
    requires Inv(w) && k != l && k in w.failed && l in w.failed
    requires w.failed[k].decision == w.failed[l].decision
    requires w.failed[k].command.idempotencyKey != w.failed[l].command.idempotencyKey
    requires !HasEffect(w.tables, w.failed[k].decision.decisionId)
    requires forall r | r in w.tables.receipts ::
      r.idempotencyKey != w.failed[k].command.idempotencyKey && r.idempotencyKey != w.failed[l].command.idempotencyKey
    requires FreshDraws(w.tables, y) && FreshDraws(w.tables, u) && y.attemptId != u.attemptId && y.receiptId != u.receiptId
    ensures var v := Next(Next(w, RecordError(k, y)), RecordError(l, u));
      && ErrorIn(v.tables, w.failed[k].command.idempotencyKey, w.failed[k].decision.decisionId)
      && ErrorIn(v.tables, w.failed[l].command.idempotencyKey, w.failed[k].decision.decisionId)
  {
    hide Next, Inv, FreshDraws, ErrorAttempt, ReceiptOf, HasEffect, ErrorIn;
    var f, g := w.failed[k], w.failed[l];
    var w1 := Next(w, RecordError(k, y));
    StepKeeps(w, RecordError(k, y));
    RecordsError(w, k, y);
    var a := ErrorAttempt(f, y);
    ErrorIdentity(f, y);
    SameEffectsSame(w.tables, w1.tables, f.decision.decisionId);
    StillFresh(w.tables, w1.tables, a, ReceiptOf(a, y.receiptId), u);
    RecordsError(w1, l, u);
    var v := Next(w1, RecordError(l, u));
    ErrorAppears(v.tables, f, y);
    ErrorAppears(v.tables, g, u);
  }

  lemma ErrorIdentity(f: FailedEffect, y: Draws)
    ensures var a := ErrorAttempt(f, y);
      && a.attemptId == y.attemptId && ReceiptOf(a, y.receiptId).receiptId == y.receiptId
      && ReceiptOf(a, y.receiptId).idempotencyKey == f.command.idempotencyKey
  {
    hide AttemptDigest, ReceiptDigest, OutcomeDigest;
  }

  /** The schedule in which two clients with different keys both fail before either records it:
      both error receipts are committed for the one decision. */
  lemma TwoErrors(w: World, k: nat, l: nat, self: string, c: Command, e: Command, x: Draws, z: Draws, y: Draws, u: Draws,
                  d: DecisionRecord, p: Proposal, plan: EffectPlan)
    requires Reachable(w) && k != l && k !in w.failed && l !in w.failed
    requires c.executorId == e.executorId == self && c.decisionId == e.decisionId && c.idempotencyKey != e.idempotencyKey
    requires Filter(ReceiptFor(c.idempotencyKey, c.decisionId), w.tables.receipts) == []
    requires Filter(ReceiptFor(e.idempotencyKey, e.decisionId), w.tables.receipts) == []
    requires Authorized(w.tables, c) == Some((d, p)) && ValidateEffect(p) == Some(plan)
    requires FreshDraws(w.tables, y) && FreshDraws(w.tables, u) && y.attemptId != u.attemptId && y.receiptId != u.receiptId
    ensures var v := Next(Next(Next(Next(w, Execute(k, self, c, x, EffectFails)), Execute(l, self, e, z, EffectFails)),
                               RecordError(k, y)), RecordError(l, u));
      ErrorIn(v.tables, c.idempotencyKey, c.decisionId) && ErrorIn(v.tables, e.idempotencyKey, e.decisionId)
  {
    hide Next, Inv, Filter, ValidateEffect, Authorized, FreshDraws, HasEffect, ErrorIn, ExecutionRows, Reachable;
    ReachableKept(w);
    var w2 := Next(Next(w, Execute(k, self, c, x, EffectFails)), Execute(l, self, e, z, EffectFails));
    BothRollBack(w, k, l, self, c, e, x, z, d, p, plan);
    KeptTables(w);
    AuthorizedFacts(w.tables, c);
    NoEffectYet(w.tables, c);
    NoKeyYet(w.tables, c);
    NoKeyYet(w.tables, e);
    BothRecord(w2, k, l, y, u);
  }

  lemma BothRollBack(w: World, k: nat, l: nat, self: string, c: Command, e: Command, x: Draws, z: Draws,
                     d: DecisionRecord, p: Proposal, plan: EffectPlan)
    requires Inv(w) && k != l && k !in w.failed && l !in w.failed
    requires c.executorId == e.executorId == self && c.decisionId == e.decisionId
    requires Filter(ReceiptFor(c.idempotencyKey, c.decisionId), w.tables.receipts) == []
    requires Filter(ReceiptFor(e.idempotencyKey, e.decisionId), w.tables.receipts) == []
    requires Authorized(w.tables, c) == Some((d, p)) && ValidateEffect(p) == Some(plan)
    ensures var v := Next(Next(w, Execute(k, self, c, x, EffectFails)), Execute(l, self, e, z, EffectFails));
      && Inv(v) && v.tables == w.tables && k in v.failed && l in v.failed
      && v.failed[k].command == c && v.failed[l].command == e && v.failed[k].decision == d && v.failed[l].decision == d
  {
    hide Next, Inv, Filter, ValidateEffect, Authorized;
    var w1 := Next(w, Execute(k, self, c, x, EffectFails));
    SameAuthority(w.tables, c, e);
    RollsBack(w, k, self, c, x, d, p, plan);
    RollsBack(w1, l, self, e, z, d, p, plan);
    StepKeeps(w, Execute(k, self, c, x, EffectFails));
    StepKeeps(w1, Execute(l, self, e, z, EffectFails));
  }

  lemma SameAuthority(t: Tables, c: Command, e: Command)
    requires c.decisionId == e.decisionId
    ensures Authorized(t, c) == Authorized(t, e)
  {
    hide OutcomeAccepted;
  }

  lemma NoEffectYet(t: Tables, c: Command)
    requires ExecutionRows(t) && Filter(ReceiptFor(c.idempotencyKey, c.decisionId), t.receipts) == []
    ensures !HasEffect(t, c.decisionId)
  {
    hide ExecutionRows;
    FreshKeyAndDecision(t, c.idempotencyKey, c.decisionId);
  }

  lemma NoKeyYet(t: Tables, c: Command)
    requires Filter(ReceiptFor(c.idempotencyKey, c.decisionId), t.receipts) == []
    ensures forall r | r in t.receipts :: r.idempotencyKey != c.idempotencyKey
  {
    FilterEmpty(ReceiptFor(c.idempotencyKey, c.decisionId), t.receipts);
    forall r | r in t.receipts ensures r.idempotencyKey != c.idempotencyKey { assert !ReceiptFor(c.idempotencyKey, c.decisionId)(r); }
  }

  lemma SameEffectsSame(t: Tables, u: Tables, decisionId: string)
    requires t.effects == u.effects
    ensures HasEffect(t, decisionId) <==> HasEffect(u, decisionId)
  {}

  lemma StillFresh(t: Tables, u: Tables, a: Attempt, r: Receipt, w: Draws)
    requires FreshDraws(t, w) && u.attempts == t.attempts + [a] && u.receipts == t.receipts + [r]
    requires a.attemptId != w.attemptId && r.receiptId != w.receiptId
    ensures FreshDraws(u, w)
  {}

  // ----- genealogy of evaluations

  /** The evaluations of a proposal form one chain: the first names no prior, each other one names
      the one appended immediately before it, and all but the last are finalized. */
  lemma EvaluationsChain(w: World, proposalId: string, i: nat)
    requires Reachable(w) && i < |Filter(OfProposalRow(proposalId), w.tables.evaluations)|
    ensures var es := Filter(OfProposalRow(proposalId), w.tables.evaluations);
      && es[i].PriorId() == (if i == 0 then None else Some(es[i - 1].Id()))
      && (i < |es| - 1 ==> es[i].outcome.Finalized?)
  {
    hide ExecutionRows, Versions, DecisionRows, ExclusionRows, ReportRows, Filter, OutcomeAccepted, ProposalIntact, Inv, Reachable;
    ReachableKept(w);
    KeptTables(w);
    var es := Filter(OfProposalRow(proposalId), w.tables.evaluations);
    assert EvaluationChain(es);
    assert Link(es, i);
  }

  lemma ChainIds(es: seq<EvaluationRow>, i: nat, j: nat)
    requires EvaluationChain(es) && Distinct(EvaluationRowId, es) && i < |es| && j < |es| && es[i].PriorId() == es[j].PriorId()
    ensures i == j
  {
    assert Link(es, i) && Link(es, j);
    if i > 0 && j > 0 {
      assert EvaluationRowId(es[i - 1]) == EvaluationRowId(es[j - 1]);
    }
  }

  /** The evaluations of a proposal do not fork: a prior has at most one successor, and there is
      one first evaluation. */
  lemma NoForks(w: World, e: EvaluationRow, f: EvaluationRow)
    requires Reachable(w) && e in w.tables.evaluations && f in w.tables.evaluations
    requires e.proposalId == f.proposalId && e.PriorId() == f.PriorId()
    ensures e == f
  {
    hide ExecutionRows, Versions, DecisionRows, ExclusionRows, ReportRows, Filter, OutcomeAccepted, ProposalIntact, EvaluationChain, Inv, Reachable;
    ReachableKept(w);
    KeptTables(w);
    var es := Filter(OfProposalRow(e.proposalId), w.tables.evaluations);
    FilterMembers(OfProposalRow(e.proposalId), w.tables.evaluations);
    FilterDistinct(EvaluationRowId, OfProposalRow(e.proposalId), w.tables.evaluations);
    assert EvaluationChain(es);
    var i :| 0 <= i < |es| && es[i] == e;
    var j :| 0 <= j < |es| && es[j] == f;
    ChainIds(es, i, j);
  }

  /** A blocked evaluation is the end of its proposal's genealogy: no run appends behind it. */
  lemma BlockedIsTerminal(w: World, e: EvaluationRow, f: EvaluationRow)
    requires Reachable(w) && e in w.tables.evaluations && f in w.tables.evaluations
    requires e.proposalId == f.proposalId && e.outcome.Blocked?
    ensures f.PriorId() != Some(e.Id())
  {
    hide ExecutionRows, Versions, DecisionRows, ExclusionRows, ReportRows, Filter, OutcomeAccepted, ProposalIntact, EvaluationChain, Inv, Reachable;
    ReachableKept(w);
    KeptTables(w);
    var es := Filter(OfProposalRow(e.proposalId), w.tables.evaluations);
    FilterMembers(OfProposalRow(e.proposalId), w.tables.evaluations);
    FilterDistinct(EvaluationRowId, OfProposalRow(e.proposalId), w.tables.evaluations);
    assert EvaluationChain(es);
    var i :| 0 <= i < |es| && es[i] == e;
    var j :| 0 <= j < |es| && es[j] == f;
    BlockedEnds(es, i, j);
  }

  lemma BlockedEnds(es: seq<EvaluationRow>, i: nat, j: nat)
    requires EvaluationChain(es) && Distinct(EvaluationRowId, es) && i < |es| && j < |es| && es[i].outcome.Blocked?
    ensures es[j].PriorId() != Some(es[i].Id())
  {
    assert Link(es, i) && Link(es, j);
    if j > 0 { SameIdSameIndex(es, j - 1, i); }
  }

  lemma SameIdSameIndex(es: seq<EvaluationRow>, i: nat, j: nat)
    requires Distinct(EvaluationRowId, es) && i < |es| && j < |es|
    ensures es[i].Id() == es[j].Id() ==> i == j
  {
    assert i != j ==> EvaluationRowId(es[i]) != EvaluationRowId(es[j]);
  }

  // ----- provenance

  /** The rows a consequence report leads through. */
  datatype Lineage = Lineage(receipt: Receipt, attempt: Attempt, effect: Effect, decision: DecisionRecord, evaluation: EvaluationRow, proposal: Proposal)

  ghost predicate LeadsTo(t: Tables, c: ConsequenceReport, l: Lineage) {
    && l.receipt in t.receipts && ReportedOn(c, l.receipt)
    && l.attempt in t.attempts && Paired(l.attempt, l.receipt)
    && l.effect in t.effects && SameEffect(l.attempt, l.effect)
    && l.decision in t.decisions && l.decision.decision == Approve && AuthorityOf(l.decision) == l.effect.authority
    && l.evaluation in t.evaluations && Finalizes(l.evaluation, l.decision.proposalId, l.decision.evaluationId, l.decision.traceDigest)
    && l.proposal in t.proposals && l.proposal.proposalId == c.proposalId == l.decision.proposalId
  }

  /** Every consequence report leads through an observed receipt, an attempt and an effect to one
      approving decision on one finalized evaluation of one proposal. */
  lemma ReportLineage(w: World, c: ConsequenceReport) returns (l: Lineage)
    requires Reachable(w) && c in w.tables.reports
    ensures LeadsTo(w.tables, c, l)
  {
    hide Versions, ExclusionRows, Paired, SameEffect, ReportDigest, Measures, EvaluationChains, OutcomeAccepted, ProposalIntact, Inv, Reachable;
    ReachableKept(w);
    KeptTables(w);
    var t := w.tables;
    assert ReportStored(t, c);
    var r :| r in t.receipts && ReportedOn(c, r);
    var a, e := ReceiptHasEffect(t, r);
    PairedColumns(a, r);
    var d :| d in t.decisions && d.decision == Approve && AuthorityOf(d) == a.authority;
    assert Decides(t, d);
    var g :| g in t.evaluations && Finalizes(g, d.proposalId, d.evaluationId, d.traceDigest);
    assert HasProposal(t, g.proposalId);
    var p :| p in t.proposals && p.proposalId == g.proposalId;
    l := Lineage(r, a, e, d, g, p);
  }

  /** Each row of the lineage is the only one: the report determines it. */
  lemma LineageIsUnique(w: World, c: ConsequenceReport, l: Lineage, m: Lineage)
    requires Reachable(w) && LeadsTo(w.tables, c, l) && LeadsTo(w.tables, c, m)
    ensures l == m
  {
    hide Inv, Versions, ExclusionRows, ExecutionRows, DecisionRows, Genealogy, ReportRows, LeadsTo, Reachable;
    ReachableKept(w);
    KeptTables(w);
    SameExecutionRows(w.tables, c, l, m);
    SameDecisionRows(w.tables, c, l, m);
  }

  lemma SameExecutionRows(t: Tables, c: ConsequenceReport, l: Lineage, m: Lineage)
    requires ExecutionRows(t) && LeadsTo(t, c, l) && LeadsTo(t, c, m)
    ensures l.receipt == m.receipt && l.attempt == m.attempt
  {
    hide ExecutionRows, Paired, SameEffect;
    EffectsUnique(t);
    PairedColumns(l.attempt, l.receipt);
    PairedColumns(m.attempt, m.receipt);
    DistinctRows(ReceiptRowId, t.receipts, l.receipt, m.receipt);
    DistinctRows(AttemptRowId, t.attempts, l.attempt, m.attempt);
  }

  lemma SameDecisionRows(t: Tables, c: ConsequenceReport, l: Lineage, m: Lineage)
    requires ExecutionRows(t) && DecisionRows(t) && Genealogy(t) && LeadsTo(t, c, l) && LeadsTo(t, c, m)
    requires l.attempt == m.attempt
    ensures l.effect == m.effect && l.decision == m.decision && l.evaluation == m.evaluation && l.proposal == m.proposal
  {
    hide Paired, ReportDigest, Measures, EvaluationChains, OutcomeAccepted, ProposalIntact, EffectsObserved, AlignedRows, DecisionDigest, ReportedOn;
    DistinctRows(EffectRowId, t.effects, l.effect, m.effect);
    DistinctRows(DecisionRowId, t.decisions, l.decision, m.decision);
    DistinctRows(EvaluationRowId, t.evaluations, l.evaluation, m.evaluation);
    DistinctRows(ProposalRowId, t.proposals, l.proposal, m.proposal);
  }

  /** A proposal has at most one decision and at most one effect, and exclusions come from
      rejecting decisions only. */
  lemma OnePerProposal(w: World)
    requires Reachable(w)
    ensures forall d, e | d in w.tables.decisions && e in w.tables.decisions && d.proposalId == e.proposalId :: d == e
    ensures forall e, f | e in w.tables.effects && f in w.tables.effects && e.authority.proposalId == f.authority.proposalId :: e == f
    ensures forall x | x in w.tables.exclusions :: exists d :: d in w.tables.decisions && RejectedBy(x, d)
    ensures forall x, e | x in w.tables.exclusions && e in w.tables.effects :: x.sourceDecisionId != e.authority.decisionId
  {
    hide Versions, Genealogy, ReportRows, Paired, SameEffect, EffectsObserved, AlignedRows, DecisionDigest, ExclusionDigest, Decides, Inv, Reachable;
    ReachableKept(w);
    KeptTables(w);
    var t := w.tables;
    forall d, e | d in t.decisions && e in t.decisions && d.proposalId == e.proposalId ensures d == e {
      DistinctRows(DecisionProposal, t.decisions, d, e);
    }
    forall e, f | e in t.effects && f in t.effects && e.authority.proposalId == f.authority.proposalId ensures e == f {
      var d := EffectDecisionRow(t, e);
      var c := EffectDecisionRow(t, f);
      DistinctRows(DecisionProposal, t.decisions, d, c);
      DistinctRows(EffectDecision, t.effects, e, f);
    }
    forall x, e | x in t.exclusions && e in t.effects ensures x.sourceDecisionId != e.authority.decisionId {
      var d := EffectDecisionRow(t, e);
      var c :| c in t.decisions && RejectedBy(x, c);
      if x.sourceDecisionId == e.authority.decisionId { DistinctRows(DecisionRowId, t.decisions, d, c); }
    }
  }

  lemma EffectDecisionRow(t: Tables, e: Effect) returns (d: DecisionRecord)
    requires ExecutionRows(t) && e in t.effects
    ensures d in t.decisions && d.decision == Approve && AuthorityOf(d) == e.authority
  {
    hide Paired, AlignedRows, UniqueExecutions, OutcomeDigest, AttemptDigest, SameEffect;
    var a :| a in t.attempts && SameEffect(a, e);
    ObservedStatus(a, e);
    d :| d in t.decisions && d.decision == Approve && AuthorityOf(d) == a.authority;
  }

  // ----- what was rejected stays refused

  /** The exclusion of a rejected proposal makes the gate refuse that action on that target
      whenever it is among the exclusions of a snapshot. */
  lemma RejectedActionStaysRefused(w: World, x: ExclusionRef, normalize: Normalizer, s: EvaluationSnapshot, config: RuleConfig)
    returns (p: Proposal)
    requires Reachable(w) && x in w.tables.exclusions && x in s.exclusions
    ensures p in w.tables.proposals && Targets(x, p)
    ensures s.proposal.actionTypeKey == p.actionTypeKey && s.proposal.targetKey == p.targetKey ==>
      GateVerdict.AnsweredNo(normalize, s, config)
  {
    hide Versions, ReportRows, ExecutionRows, DecisionRows, Genealogy, GateVerdict.AnsweredNo, RejectedBy, ExclusionDigest, Inv, Reachable;
    ReachableKept(w);
    KeptTables(w);
    assert ExclusionStored(w.tables, x);
    p :| p in w.tables.proposals && Targets(x, p);
    if s.proposal.actionTypeKey == p.actionTypeKey && s.proposal.targetKey == p.targetKey {
      assert GateRules.Excludes(s.proposal)(x);
      GateVerdict.DeniedIsNo(normalize, s, config);
    }
  }

  // ----- replays of the other appends

  /** The decision of a request with the exclusion it asked for. */
  ghost predicate DecisionStored(t: Tables, q: DecisionRequest, d: DecisionRecord) {
    && d in t.decisions && SameRequest(d, q) && d.idempotencyKey == q.idempotencyKey
    && (q.exclude <==> exists x :: x in t.exclusions && x.sourceDecisionId == d.decisionId)
  }

  lemma StoredDecisionReplays(t: Tables, q: DecisionRequest, p: Proposal, d: DecisionRecord, decisionId: string, exclusionId: string)
    requires DecisionRows(t) && ExclusionRows(t) && DecisionStored(t, q, d)
    ensures Decided(t, q, p, decisionId, exclusionId) == Tx(t, Replayed(d))
  {
    hide DecisionAllowed, ExclusionAllowed, DecisionDigest, ExclusionDigest, RejectedBy, Decides, SameRequest, FindLast;
    var found := FindLast(DecisionKeyed(q.idempotencyKey), t.decisions);
    assert DecisionKeyed(q.idempotencyKey)(d);
    DistinctRows(DecisionIdempotency, t.decisions, d, found.row);
    var x := FindLast(ExcludedBy(d.decisionId), t.exclusions);
    if q.exclude {
      var y :| y in t.exclusions && y.sourceDecisionId == d.decisionId;
      assert ExcludedBy(d.decisionId)(y);
    }
  }

  /** At every later point of every run a request under the key of a stored decision is answered
      without a write: with the decision when every field of the request is the stored one and it
      asks for an exclusion exactly when there is one, and otherwise as a conflict. */
  lemma StoredKeyAnswersExactly(w: World, steps: seq<Step>, q: DecisionRequest, d: DecisionRecord, p: Proposal,
                                decisionId: string, exclusionId: string)
    requires Reachable(w) && d in w.tables.decisions && d.idempotencyKey == q.idempotencyKey
    ensures var t := Run(w, steps).tables;
      var same := d.proposalId == q.proposalId && d.evaluationId == q.evaluationId && d.traceDigest == q.traceDigest
        && d.decision == q.decision && d.decidedBy == q.decidedBy && d.rationale == q.rationale
        && (q.exclude <==> exists x :: x in t.exclusions && x.sourceDecisionId == d.decisionId);
      Decided(t, q, p, decisionId, exclusionId) == Tx(t, if same then Replayed(d) else Conflicting)
  {
    hide Run, Inv, Reachable, DecisionAllowed, ExclusionAllowed, DecisionDigest, ExclusionDigest, RejectedBy, Decides, FindLast;
    ReachableKept(w);
    RunKeeps(w, steps);
    RunExtends(w, steps);
    KeptTables(Run(w, steps));
    var t := Run(w, steps).tables;
    var found := FindLast(DecisionKeyed(q.idempotencyKey), t.decisions);
    assert d in t.decisions && DecisionKeyed(q.idempotencyKey)(d);
    DistinctRows(DecisionIdempotency, t.decisions, d, found.row);
    var x := FindLast(ExcludedBy(d.decisionId), t.exclusions);
    if y :| y in t.exclusions && y.sourceDecisionId == d.decisionId { assert ExcludedBy(d.decisionId)(y); }
  }

  lemma FreshDecisionStored(t: Tables, q: DecisionRequest, p: Proposal, decisionId: string, exclusionId: string)
    requires ExclusionRows(t) && Decided(t, q, p, decisionId, exclusionId).reply.Written?
    ensures DecisionStored(Decided(t, q, p, decisionId, exclusionId).tables, q, Decided(t, q, p, decisionId, exclusionId).reply.value)
    ensures Decided(t, q, p, decisionId, exclusionId).reply.value.decisionId == decisionId
    ensures q.exclude ==>
      exists x :: x in Decided(t, q, p, decisionId, exclusionId).tables.exclusions && x.exclusionId == exclusionId && x.sourceDecisionId == decisionId
  {
    hide Decided, DecisionDigest, ExclusionDigest, ExclusionAllowed, DecisionFor, ExclusionFor, SameRequest;
    var d := DecideWrites(t, q, p, decisionId, exclusionId);
    RequestFacts(q, decisionId);
    ExclusionFacts(p, d, exclusionId);
    forall x | x in t.exclusions ensures x.sourceDecisionId != d.decisionId {
      var c :| c in t.decisions && RejectedBy(x, c);
    }
    if q.exclude {
      var v := Decided(t, q, p, decisionId, exclusionId).tables;
      assert ExclusionFor(p, d, exclusionId) in v.exclusions;
    }
  }

  /** Later decisions add no exclusion to an earlier one. */
  lemma StoredInDecided(t: Tables, q: DecisionRequest, d: DecisionRecord, o: DecisionRequest, p: Proposal, decisionId: string, exclusionId: string)
    requires DecisionStored(t, q, d)
    ensures DecisionStored(Decided(t, o, p, decisionId, exclusionId).tables, q, d)
  {
    hide Decided, DecisionDigest, ExclusionDigest, ExclusionAllowed, DecisionFor, ExclusionFor, SameRequest;
    var v := Decided(t, o, p, decisionId, exclusionId).tables;
    DecideExtends(t, o, p, decisionId, exclusionId);
    if Decided(t, o, p, decisionId, exclusionId).reply.Written? {
      var e := DecideWrites(t, o, p, decisionId, exclusionId);
      RequestFacts(o, decisionId);
      ExclusionFacts(p, e, exclusionId);
      assert e.decisionId != d.decisionId;
      assert forall x :: x in v.exclusions && x.sourceDecisionId == d.decisionId ==> x in t.exclusions;
      assert forall x :: x in t.exclusions ==> x in v.exclusions;
    } else {
      DecideUnchanged(t, o, p, decisionId, exclusionId);
    }
  }

  lemma StoredInStep(w: World, a: Step, q: DecisionRequest, d: DecisionRecord)
    requires DecisionStored(w.tables, q, d)
    ensures DecisionStored(Next(w, a).tables, q, d)
  {
    hide Submitted, ReEvaluated, Decided, Executed, ErrorRecorded, Reported, Reviewed, SameRequest;
    match a {
      case Submit(p, s, o) => SubmitFrame(w.tables, p, s, o);
      case ReEvaluate(s, o) => ReEvaluateFrame(w.tables, s, o);
      case Review(k, o) =>
      case Decide(k, i, x) =>
        if k in w.reviewed { StoredInDecided(w.tables, q, d, w.reviewed[k].request, w.reviewed[k].proposal, i, x); }
      case Execute(k, self, c, draws, fault) => ExecuteFrame(w.tables, self, c, draws, fault);
      case RecordError(k, draws) => if k in w.failed { ErrorFrame(w.tables, w.failed[k], draws); }
      case Observe(o, id) => ReportFrame(w.tables, o, id);
      case Leave(k) =>
    }
  }

  lemma {:induction false} StoredInRun(w: World, steps: seq<Step>, q: DecisionRequest, d: DecisionRecord)
    requires DecisionStored(w.tables, q, d)
    ensures DecisionStored(Run(w, steps).tables, q, d)
  {
    hide Next, DecisionStored;
    if steps != [] {
      StoredInRun(w, steps[..|steps| - 1], q, d);
      StoredInStep(Run(w, steps[..|steps| - 1]), steps[|steps| - 1], q, d);
    }
  }

  /** A committed decision is answered to the same request at every later point of every run, and
      nothing is written. */
  lemma DecisionReplaysForever(w: World, steps: seq<Step>, q: DecisionRequest, d: DecisionRecord, p: Proposal, decisionId: string, exclusionId: string)
    requires Reachable(w) && DecisionStored(w.tables, q, d)
    ensures var t := Run(w, steps).tables; Decided(t, q, p, decisionId, exclusionId) == Tx(t, Replayed(d))
  {
    hide Inv, Run, Decided, DecisionStored, ExclusionRows, DecisionRows, Reachable;
    ReachableKept(w);
    StoredInRun(w, steps, q, d);
    RunKeeps(w, steps);
    KeptTables(Run(w, steps));
    StoredDecisionReplays(Run(w, steps).tables, q, p, d, decisionId, exclusionId);
  }

  lemma SubmitWrites(t: Tables, p: Proposal, s: EvaluationSnapshot, o: Outcome)
    requires Submitted(t, p, s, o).reply.Written?
    ensures FirstAccepted(p, s, o)
    ensures p in Submitted(t, p, s, o).tables.proposals && EvaluationRow(p.proposalId, o) in Submitted(t, p, s, o).tables.evaluations
    ensures Submitted(t, p, s, o).reply == Written(EvaluationRow(p.proposalId, o).Id())
  {
    hide FirstAccepted, ProposalAllowed, EvaluationAllowed;
  }

  /** A committed proposal and evaluation are answered to the same submission for ever. */
  lemma SubmissionReplaysForever(w: World, p: Proposal, s: EvaluationSnapshot, o: Outcome, steps: seq<Step>)
    requires Reachable(w) && FirstAccepted(p, s, o)
    requires p in w.tables.proposals && EvaluationRow(p.proposalId, o) in w.tables.evaluations
    ensures var t := Run(w, steps).tables; Submitted(t, p, s, o) == Tx(t, Replayed(EvaluationRow(p.proposalId, o).Id()))
  {
    hide Inv, Run, FirstAccepted, ExecutionRows, Versions, DecisionRows, ExclusionRows, ReportRows, OutcomeAccepted, ProposalIntact,
      EvaluationChains, FindLast, ProposalAllowed, EvaluationAllowed, Reachable;
    ReachableKept(w);
    RunKeeps(w, steps);
    RunExtends(w, steps);
    KeptTables(Run(w, steps));
    var t, row := Run(w, steps).tables, EvaluationRow(p.proposalId, o);
    assert p in t.proposals && row in t.evaluations;
    assert HasProposalId(p.proposalId)(p) && HasEvaluationId(row.Id())(row);
    DistinctRows(ProposalRowId, t.proposals, p, FindLast(HasProposalId(p.proposalId), t.proposals).row);
    DistinctRows(EvaluationRowId, t.evaluations, row, FindLast(HasEvaluationId(row.Id()), t.evaluations).row);
  }

  /** A submission that was written is replayed for ever. */
  lemma WrittenSubmissionReplays(w: World, p: Proposal, s: EvaluationSnapshot, o: Outcome, steps: seq<Step>)
    requires Reachable(w) && Submitted(w.tables, p, s, o).reply.Written?
    ensures var t := Run(Next(w, Submit(p, s, o)), steps).tables;
      Submitted(t, p, s, o) == Tx(t, Replayed(EvaluationRow(p.proposalId, o).Id()))
  {
    hide Run, FirstAccepted, Submitted, Reachable;
    SubmitWrites(w.tables, p, s, o);
    ReachableNext(w, Submit(p, s, o));
    SubmissionReplaysForever(Next(w, Submit(p, s, o)), p, s, o, steps);
  }

  /** So is a committed re-evaluation. */
  lemma ReEvaluationReplaysForever(w: World, s: EvaluationSnapshot, o: Outcome, steps: seq<Step>)
    requires Reachable(w) && NextAccepted(s, o) && EvaluationRow(s.proposal.proposalId, o) in w.tables.evaluations
    ensures var t := Run(w, steps).tables; ReEvaluated(t, s, o) == Tx(t, Replayed(EvaluationRow(s.proposal.proposalId, o).Id()))
  {
    hide Inv, Run, NextAccepted, ExecutionRows, Versions, DecisionRows, ExclusionRows, ReportRows, OutcomeAccepted, ProposalIntact,
      EvaluationChains, FindLast, EvaluationAllowed, Reachable;
    ReachableKept(w);
    RunKeeps(w, steps);
    RunExtends(w, steps);
    KeptTables(Run(w, steps));
    var t, row := Run(w, steps).tables, EvaluationRow(s.proposal.proposalId, o);
    assert row in t.evaluations && HasEvaluationId(row.Id())(row);
    DistinctRows(EvaluationRowId, t.evaluations, row, FindLast(HasEvaluationId(row.Id()), t.evaluations).row);
  }

  lemma WrittenReEvaluationReplays(w: World, s: EvaluationSnapshot, o: Outcome, steps: seq<Step>)
    requires Reachable(w) && ReEvaluated(w.tables, s, o).reply.Written?
    ensures var t := Run(Next(w, ReEvaluate(s, o)), steps).tables;
      ReEvaluated(t, s, o) == Tx(t, Replayed(EvaluationRow(s.proposal.proposalId, o).Id()))
  {
    hide Run, NextAccepted, ReEvaluated, Reachable, EvaluationAllowed;
    var latest := ReEvaluateWrites(w.tables, s, o);
    ReachableNext(w, ReEvaluate(s, o));
    ReEvaluationReplaysForever(Next(w, ReEvaluate(s, o)), s, o, steps);
  }

  /** The stored answer to an observation. */
  ghost predicate ObservationStored(t: Tables, o: Observation, c: ConsequenceReport) {
    && c in t.reports && c.idempotencyKey == o.idempotencyKey && c.receiptId == o.receiptId && c.observationNumber == o.number
    && c.reportedBy == o.reportedBy && o.number > 0 && o.reportedBy != "" && o.idempotencyKey != ""
    && ReadText(o.actualText).Some? && c.actualText == PlainJson(ReadText(o.actualText).value)
  }

  lemma FreshReportStoredAs(t: Tables, o: Observation, id: string)
    requires Reported(t, o, id).reply.Written?
    ensures ObservationStored(Reported(t, o, id).tables, o, Reported(t, o, id).reply.value)
    ensures Reported(t, o, id).reply.value.consequenceId == id
  {
    hide Rounded, ReportFor, ReportAllowed, Reportable, ReadText, PlainJson, ReportDigest;
    var r, p, predicted, actual := ReportWrites(t, o, id);
    ReportFacts(r, Rounded(predicted), Rounded(actual), o, id);
    PrintRounded(actual);
  }

  /** A committed report is answered to the same observation for ever. */
  lemma ReportReplaysForever(w: World, o: Observation, c: ConsequenceReport, steps: seq<Step>, id: string)
    requires Reachable(w) && ObservationStored(w.tables, o, c)
    ensures var t := Run(w, steps).tables; Reported(t, o, id) == Tx(t, Replayed(c))
  {
    hide Inv, Run, ExecutionRows, Versions, DecisionRows, ExclusionRows, Genealogy, FindLast, ReadText, PlainJson, Rounded, ReportFor,
      ReportAllowed, Reportable, ReportDigest, Measures, ReportedOn, Reachable;
    ReachableKept(w);
    RunKeeps(w, steps);
    RunExtends(w, steps);
    KeptTables(Run(w, steps));
    var t := Run(w, steps).tables;
    assert c in t.reports && ReportKeyed(o.idempotencyKey)(c);
    assert ReportStored(t, c);
    DistinctRows(ReportIdempotency, t.reports, c, FindLast(ReportKeyed(o.idempotencyKey), t.reports).row);
  }

  // ----- the report table's checks

  /** The table's bounds on score, threshold and receipt hold of every report that reaches the
      insert: it is refused exactly for a taken identity or observation number. */
  lemma ReportRefusedExactly(t: Tables, r: Receipt, predicted: Json, actual: Json, o: Observation, id: string)
    requires r in t.receipts && r.status == Observed && o.number > 0
    requires exists p :: p in t.proposals && p.proposalId == r.authority.proposalId
    requires forall d | d in t.reports :: d.idempotencyKey != o.idempotencyKey
    ensures ReportAllowed(t, ReportFor(r, predicted, actual, o, id)) <==>
      forall d | d in t.reports :: d.consequenceId != id && (d.receiptId, d.observationNumber) != (r.receiptId, o.number)
  {
    hide Report, Mean, PlainJson, ReportDigest, Measures;
    StoredScoreIsSound(predicted, actual, DEFAULT_THRESHOLD);
    ReportFacts(r, predicted, actual, o, id);
    MeasuresScore(ReportFor(r, predicted, actual, o, id), predicted, actual);
  }

  lemma MeasuresScore(c: ConsequenceReport, predicted: Json, actual: Json)
    requires Measures(c, predicted, actual)
    ensures c.score == Divergence.Divergence(predicted, actual, DEFAULT_THRESHOLD).score && c.threshold == 0.5
  {
    hide Report, Mean, PlainJson;
  }

  /** A stored summary says MORE exactly when rule F08 calls the stored score high, which it does
      whenever the mean reaches the threshold; the comparison is of the outcome that the proposal
      predicted with the one that was observed. */
  lemma SummaryAgrees(w: World, c: ConsequenceReport) returns (p: Proposal, predicted: Json, actual: Json)
    requires Reachable(w) && c in w.tables.reports
    ensures p in w.tables.proposals && p.proposalId == c.proposalId
    ensures ReadText(p.predictedOutcomeJson).Some? && predicted == Rounded(ReadText(p.predictedOutcomeJson).value)
    ensures c.predictedText == PlainJson(predicted) && c.actualText == PlainJson(actual)
    ensures c.leaves == Report(predicted, actual, "") && c.score == Millionths(Quantize(Mean(predicted, actual)))
    ensures c.summary == SummaryMore <==> c.score >= PINNED.divergenceThreshold
    ensures Mean(predicted, actual) >= PINNED.divergenceThreshold ==> c.summary == SummaryMore
    ensures c.summary == SummaryMore <==> Mean(predicted, actual) >= 0.4999995
  {
    hide ExecutionRows, Versions, DecisionRows, ExclusionRows, Genealogy, Report, PlainJson, ReportDigest, ReportedOn, Mean, Inv, Reachable,
      ReadText, Rounded, EffectsAsked;
    ReachableKept(w);
    KeptTables(w);
    assert ReportStored(w.tables, c);
    p, actual :| p in w.tables.proposals && Predicts(p, c) && Measures(c, Rounded(ReadText(p.predictedOutcomeJson).value), actual);
    predicted := Rounded(ReadText(p.predictedOutcomeJson).value);
    ThresholdSurvives(Mean(predicted, actual), 500000);
  }

  /** A mean below the threshold that is reported as MORE. */
  lemma RoundedUpIsMore(r: Receipt, o: Observation, id: string)
    ensures var c := ReportFor(r, WHOLE, OVER_HALF, o, id);
      Mean(WHOLE, OVER_HALF) < c.threshold && c.score == 0.5 && c.summary == SummaryMore
  {
    hide Report, Mean, PlainJson, ReportDigest, Quantize;
    RoundedUpToThreshold();
  }

  // ----- reviews and stale decisions

  /** A reviewed evaluation is still the latest finalized one exactly when no finalized evaluation
      of the proposal was appended since. */
  lemma ReviewStaysFresh(v: World, steps: seq<Step>, q: DecisionRequest)
    requires Reachable(v) && Reviewed(v.tables, q).Some?
    ensures var (t, u) := (v.tables, Run(v, steps).tables);
      Reviewed(u, q).Some? <==> Filter(FinalizedOf(q.proposalId), u.evaluations) == Filter(FinalizedOf(q.proposalId), t.evaluations)
  {
    hide Inv, Run, OutcomeAccepted, FindLast, Filter, ExecutionRows, Versions, DecisionRows, ExclusionRows, ReportRows, EvaluationChains, ProposalIntact, Reachable;
    ReachableKept(v);
    RunKeeps(v, steps);
    RunExtends(v, steps);
    KeptTables(v);
    KeptTables(Run(v, steps));
    var t, u := v.tables, Run(v, steps).tables;
    FindLastInFilter(FinalizedOf(q.proposalId), t.evaluations);
    FindLastInFilter(FinalizedOf(q.proposalId), u.evaluations);
    SameRowsFound(t, u, q);
    FilterPrefix(FinalizedOf(q.proposalId), t.evaluations, u.evaluations);
    FilterDistinct(EvaluationRowId, FinalizedOf(q.proposalId), u.evaluations);
    SameLast(Filter(FinalizedOf(q.proposalId), t.evaluations), Filter(FinalizedOf(q.proposalId), u.evaluations));
  }

  lemma SameRowsFound(t: Tables, u: Tables, q: DecisionRequest)
    requires Genealogy(u) && t.proposals <= u.proposals && t.evaluations <= u.evaluations
    requires FindLast(HasProposalId(q.proposalId), t.proposals).Present? && FindLast(HasEvaluationId(q.evaluationId), t.evaluations).Present?
    ensures FindLast(HasProposalId(q.proposalId), u.proposals) == FindLast(HasProposalId(q.proposalId), t.proposals)
    ensures FindLast(HasEvaluationId(q.evaluationId), u.evaluations) == FindLast(HasEvaluationId(q.evaluationId), t.evaluations)
  {
    hide FindLast, OutcomeAccepted, EvaluationChains, ProposalIntact;
    var p, e := FindLast(HasProposalId(q.proposalId), t.proposals).row, FindLast(HasEvaluationId(q.evaluationId), t.evaluations).row;
    assert p in u.proposals && e in u.evaluations;
    DistinctRows(ProposalRowId, u.proposals, p, FindLast(HasProposalId(q.proposalId), u.proposals).row);
    DistinctRows(EvaluationRowId, u.evaluations, e, FindLast(HasEvaluationId(q.evaluationId), u.evaluations).row);
  }

  lemma {:induction false} FilterPrefix<T>(p: T -> bool, s: seq<T>, t: seq<T>)
    requires s <= t
    ensures Filter(p, s) <= Filter(p, t)
    decreases |t|
  {
    if s == t {
    } else {
      assert s <= t[..|t| - 1];
      FilterPrefix(p, s, t[..|t| - 1]);
    }
  }

  lemma SameLast(s: seq<EvaluationRow>, t: seq<EvaluationRow>)
    requires s <= t && s != [] && Distinct(EvaluationRowId, t)
    ensures t[|t| - 1].Id() == s[|s| - 1].Id() <==> s == t
  {
    if t[|t| - 1].Id() == s[|s| - 1].Id() {
      assert t[|s| - 1] == s[|s| - 1];
      assert EvaluationRowId(t[|t| - 1]) == EvaluationRowId(t[|s| - 1]);
    }
  }

  /** The decision itself does not look again: a schedule in which a re-evaluation commits between
      the review and the decision leaves a decision on a superseded evaluation. */
  lemma StaleDecision(w: World, k: nat, q: DecisionRequest, s: EvaluationSnapshot, o: Outcome, decisionId: string, exclusionId: string)
    requires Reachable(w) && Reviewed(w.tables, q).Some? && !q.exclude
    requires ReEvaluated(w.tables, s, o).reply.Written? && o.Finalized? && s.proposal.proposalId == q.proposalId
    requires forall d | d in w.tables.decisions ::
      d.proposalId != q.proposalId && d.evaluationId != q.evaluationId && d.idempotencyKey != q.idempotencyKey && d.decisionId != decisionId
    ensures var v := Next(Next(Next(w, Review(k, q)), ReEvaluate(s, o)), Decide(k, decisionId, exclusionId));
      DecisionFor(q, decisionId) in v.tables.decisions && Reviewed(v.tables, q) == None
  {
    hide Inv, ReEvaluated, Reviewed, Decided, NextAccepted, EvaluationAllowed, DecisionFor, Reachable;
    ReachableKept(w);
    var row := EvaluationRow(q.proposalId, o);
    var latest := ReEvaluateWrites(w.tables, s, o);
    var t := w.tables.(evaluations := w.tables.evaluations + [row]);
    DecidesAnyway(w.tables, t, q, Reviewed(w.tables, q).value, decisionId, exclusionId);
    NewIdentity(w.tables, row, q);
    SupersededNotReviewed(t.(decisions := t.decisions + [DecisionFor(q, decisionId)]), w.tables.evaluations, q, row);
  }

  lemma DecidesAnyway(t: Tables, u: Tables, q: DecisionRequest, p: Proposal, decisionId: string, exclusionId: string)
    requires Reviewed(t, q).Some? && !q.exclude && u == t.(evaluations := u.evaluations) && t.evaluations <= u.evaluations
    requires forall d | d in t.decisions ::
      d.proposalId != q.proposalId && d.evaluationId != q.evaluationId && d.idempotencyKey != q.idempotencyKey && d.decisionId != decisionId
    ensures Decided(u, q, p, decisionId, exclusionId).tables == u.(decisions := u.decisions + [DecisionFor(q, decisionId)])
  {
    hide Reviewed, FindLast, DecisionDigest, ExclusionFor;
    ReviewedRow(t, q);
    KeyUnused(u, q);
    var e :| e in t.evaluations && Finalizes(e, q.proposalId, q.evaluationId, q.traceDigest);
    assert e in u.evaluations;
    assert DecisionAllowed(u, DecisionFor(q, decisionId));
  }

  lemma SupersededNotReviewed(t: Tables, es: seq<EvaluationRow>, q: DecisionRequest, row: EvaluationRow)
    requires t.evaluations == es + [row] && row.outcome.Finalized? && row.proposalId == q.proposalId && row.Id() != q.evaluationId
    ensures Reviewed(t, q) == None
  {
    hide OutcomeAccepted;
    assert FindLast(FinalizedOf(q.proposalId), t.evaluations) == Present(row);
  }

  lemma ReviewedRow(t: Tables, q: DecisionRequest)
    requires Reviewed(t, q).Some?
    ensures exists e | e in t.evaluations :: Finalizes(e, q.proposalId, q.evaluationId, q.traceDigest)
  {
    hide OutcomeAccepted;
    var latest := FindLast(FinalizedOf(q.proposalId), t.evaluations).row;
    assert Finalizes(latest, q.proposalId, q.evaluationId, q.traceDigest);
  }

  lemma KeyUnused(t: Tables, q: DecisionRequest)
    requires forall d | d in t.decisions :: d.proposalId != q.proposalId && d.idempotencyKey != q.idempotencyKey
    ensures FindLast(DecisionKeyed(q.idempotencyKey), t.decisions) == Absent && FindLast(DecidesProposal(q.proposalId), t.decisions) == Absent
  {}

  lemma NewIdentity(t: Tables, row: EvaluationRow, q: DecisionRequest)
    requires EvaluationAllowed(t, row) && Reviewed(t, q).Some?
    ensures row.Id() != q.evaluationId
  {
    hide OutcomeAccepted;
    var e := FindLast(HasEvaluationId(q.evaluationId), t.evaluations).row;
    assert e in t.evaluations && e.Id() == q.evaluationId;
  }
}
