/** Safety of the execution protocol over every run of every interleaving. */
module LedgerTheorems {
  import opened Json
  import opened LedgerInvariant
  import opened LedgerRuns
  import opened LedgerSteps
  import opened LedgerTables
  import opened Models
  import opened Sequences

  // ----- one effect, one observed receipt

  lemma AttemptOfReceipt(t: Tables, r: Receipt) returns (a: Attempt)
    requires ExecutionRows(t) && r in t.receipts
    ensures a in t.attempts && Paired(a, r)
  {
    hide Paired, UniqueExecutions, EffectsObserved, ApprovalHeld, OutcomeDigest, AttemptDigest;
    var i :| 0 <= i < |t.receipts| && t.receipts[i] == r;
    a := t.attempts[i];
  }

  lemma ReceiptOfAttempt(t: Tables, a: Attempt) returns (r: Receipt)
    requires ExecutionRows(t) && a in t.attempts
    ensures r in t.receipts && Paired(a, r)
  {
    hide Paired, UniqueExecutions, EffectsObserved, ApprovalHeld, OutcomeDigest, AttemptDigest;
    var i :| 0 <= i < |t.attempts| && t.attempts[i] == a;
    r := t.receipts[i];
  }

  ghost predicate HasEffect(t: Tables, decisionId: string) { exists e :: e in t.effects && e.authority.decisionId == decisionId }

  ghost predicate HasReceipt(t: Tables, decisionId: string, status: ExecutionStatus) {
    exists r :: r in t.receipts && r.authority.decisionId == decisionId && r.status == status
  }

  lemma PairedColumns(a: Attempt, r: Receipt)
    requires Paired(a, r)
    ensures r.authority == a.authority && r.status == a.status && r.attemptId == a.attemptId && r.idempotencyKey == a.idempotencyKey
  {}

  lemma EffectHasReceipt(t: Tables, e: Effect) returns (r: Receipt)
    requires ExecutionRows(t) && e in t.effects
    ensures r in t.receipts && r.authority == e.authority && r.status == Observed && r.idempotencyKey == e.idempotencyKey
  {
    hide Paired, AlignedRows, UniqueExecutions, ApprovalHeld, OutcomeDigest, AttemptDigest;
    var a :| a in t.attempts && SameEffect(a, e);
    r := ReceiptOfAttempt(t, a);
    PairedColumns(a, r);
  }

  lemma ReceiptHasEffect(t: Tables, r: Receipt) returns (a: Attempt, e: Effect)
    requires ExecutionRows(t) && r in t.receipts && r.status == Observed
    ensures a in t.attempts && Paired(a, r) && e in t.effects && SameEffect(a, e)
    ensures e.authority == r.authority && r.attemptId == a.attemptId
  {
    hide Paired, AlignedRows, UniqueExecutions, ApprovalHeld, OutcomeDigest, AttemptDigest;
    a := AttemptOfReceipt(t, r);
    PairedColumns(a, r);
    e :| e in t.effects && SameEffect(a, e);
  }

  lemma ErrorHasNoEffect(t: Tables, r: Receipt)
    requires ExecutionRows(t) && r in t.receipts && r.status == Error
    ensures !HasEffect(t, r.authority.decisionId)
  {
    hide Paired, AlignedRows, UniqueExecutions, ApprovalHeld, OutcomeDigest, AttemptDigest, SameEffect;
    var a := AttemptOfReceipt(t, r);
    PairedColumns(a, r);
  }

  /** An effect has one observed attempt. */
  lemma OneObserver(t: Tables, a: Attempt, b: Attempt, e: Effect)
    requires ExecutionRows(t) && a in t.attempts && b in t.attempts && SameEffect(a, e) && SameEffect(b, e)
    ensures a == b
  {
    hide Paired, EffectsObserved, ApprovalHeld, OutcomeDigest, AttemptDigest;
    var r := ReceiptOfAttempt(t, a);
    var q := ReceiptOfAttempt(t, b);
    PairedColumns(a, r);
    PairedColumns(b, q);
    DistinctRows(ReceiptIdempotency, t.receipts, r, q);
    DistinctRows(AttemptRowId, t.attempts, a, b);
  }

  lemma OneObservedReceipt(t: Tables, r: Receipt, q: Receipt)
    requires ExecutionRows(t) && r in t.receipts && q in t.receipts
    requires r.status == Observed && q.status == Observed && r.authority.decisionId == q.authority.decisionId
    ensures r == q
  {
    var a, e := ReceiptHasEffect(t, r);
    var b, f := ReceiptHasEffect(t, q);
    assert UniqueExecutions(t.effects, t.attempts, t.receipts);
    PairedColumns(a, r);
    PairedColumns(b, q);
    hide Paired, EffectsObserved, ApprovalHeld, OutcomeDigest, AttemptDigest, SameEffect, ExecutionRows, AlignedRows;
    DistinctRows(EffectDecision, t.effects, e, f);
    OneObserver(t, a, b, e);
    DistinctRows(ReceiptIdempotency, t.receipts, r, q);
  }

  /** For every decision of a sound ledger: an effect exists exactly when an observed receipt
      does; there is at most one of either; and then there is no other receipt. */
  lemma ExecutionsCorrespond(t: Tables, decisionId: string)
    requires ExecutionRows(t)
    ensures HasEffect(t, decisionId) <==> HasReceipt(t, decisionId, Observed)
    ensures HasReceipt(t, decisionId, Error) ==> !HasEffect(t, decisionId)
    ensures HasEffect(t, decisionId) ==>
      forall r, q | r in t.receipts && q in t.receipts && r.authority.decisionId == q.authority.decisionId == decisionId :: r == q
    ensures forall e, f | e in t.effects && f in t.effects && e.authority.decisionId == f.authority.decisionId :: e == f
  {
    hide ExecutionRows, SameEffect, Paired;
    if HasEffect(t, decisionId) {
      var e :| e in t.effects && e.authority.decisionId == decisionId;
      var r := EffectHasReceipt(t, e);
    }
    if HasReceipt(t, decisionId, Observed) {
      var r :| r in t.receipts && r.authority.decisionId == decisionId && r.status == Observed;
      var a, e := ReceiptHasEffect(t, r);
    }
    forall r | r in t.receipts && r.status == Error ensures !HasEffect(t, r.authority.decisionId) { ErrorHasNoEffect(t, r); }
    if HasEffect(t, decisionId) {
      forall r, q | r in t.receipts && q in t.receipts && r.authority.decisionId == q.authority.decisionId == decisionId
        ensures r == q
      {
        OneObservedReceipt(t, r, q);
      }
    }
    EffectsUnique(t);
    forall e, f | e in t.effects && f in t.effects && e.authority.decisionId == f.authority.decisionId ensures e == f {
      DistinctRows(EffectDecision, t.effects, e, f);
    }
  }

  lemma EffectsUnique(t: Tables)
    requires ExecutionRows(t)
    ensures UniqueExecutions(t.effects, t.attempts, t.receipts)
  {}

  lemma KeptTables(w: World)
    requires Inv(w)
    ensures ExecutionRows(w.tables) && Versions(w.tables.effects) && Genealogy(w.tables)
    ensures DecisionRows(w.tables) && ExclusionRows(w.tables) && ReportRows(w.tables) && EffectsAsked(w.tables)
  {
    hide ExecutionRows, Versions, EffectsAsked, Genealogy, DecisionRows, ExclusionRows, ReportRows, FailureBound, ReviewBound;
  }

  lemma StillThere(w: World, steps: seq<Step>, r: Receipt)
    requires r in w.tables.receipts
    ensures r in Run(w, steps).tables.receipts
  {
    hide Run;
    RunExtends(w, steps);
  }

  /** For every decision of a reachable ledger: an effect exists exactly when an observed receipt
      does; there is at most one of either; and then there is no other receipt. */
  lemma EffectExactlyWhenObserved(w: World, decisionId: string)
    requires Reachable(w)
    ensures HasEffect(w.tables, decisionId) <==> HasReceipt(w.tables, decisionId, Observed)
    ensures HasReceipt(w.tables, decisionId, Error) ==> !HasEffect(w.tables, decisionId)
    ensures HasEffect(w.tables, decisionId) ==>
      forall r, q | r in w.tables.receipts && q in w.tables.receipts && r.authority.decisionId == q.authority.decisionId == decisionId :: r == q
    ensures forall e, f | e in w.tables.effects && f in w.tables.effects && e.authority.decisionId == f.authority.decisionId :: e == f
  {
    hide Reachable, Inv, ExecutionRows, HasEffect, HasReceipt;
    ReachableKept(w);
    KeptTables(w);
    ExecutionsCorrespond(w.tables, decisionId);
  }

  /** Once a decision has an error receipt, no later run of any clients gives it an effect. */
  lemma ErrorIsFinal(w: World, steps: seq<Step>, r: Receipt)
    requires Reachable(w) && r in w.tables.receipts && r.status == Error
    ensures !HasEffect(w.tables, r.authority.decisionId)
    ensures !HasEffect(Run(w, steps).tables, r.authority.decisionId)
  {
    hide Inv, Run, ExecutionRows, HasEffect, Reachable;
    ReachableKept(w);
    KeptTables(w);
    ErrorHasNoEffect(w.tables, r);
    RunKeeps(w, steps);
    KeptTables(Run(w, steps));
    StillThere(w, steps, r);
    ErrorHasNoEffect(Run(w, steps).tables, r);
  }

  // ----- replays

  lemma OneKnownReceipt(t: Tables, r: Receipt, key: string, decisionId: string)
    requires ExecutionRows(t) && r in t.receipts && r.status == Observed
    requires r.idempotencyKey == key && r.authority.decisionId == decisionId
    ensures Filter(ReceiptFor(key, decisionId), t.receipts) == [r]
  {
    hide ExecutionRows, SameEffect, Paired;
    var a, e := ReceiptHasEffect(t, r);
    assert HasEffect(t, decisionId);
    ExecutionsCorrespond(t, decisionId);
    EffectsUnique(t);
    var k :| 0 <= k < |t.receipts| && t.receipts[k] == r;
    forall i | 0 <= i < |t.receipts| && i != k ensures !ReceiptFor(key, decisionId)(t.receipts[i]) {
      assert t.receipts[i] in t.receipts;
      assert ReceiptIdempotency(t.receipts[i]) != key;
      assert t.receipts[i] != r;
    }
    FilterOnly(ReceiptFor(key, decisionId), t.receipts, k);
  }

  lemma ReceiptDigestKept(t: Tables, r: Receipt)
    requires ExecutionRows(t) && r in t.receipts
    ensures r.receiptDigest == ReceiptDigest(r)
  {
    hide ExecutionRows;
    var a := AttemptOfReceipt(t, r);
  }

  /** At every later point of every run the same command gets the same observed receipt back and
      writes nothing. */
  lemma ExecutionReplaysForever(w: World, steps: seq<Step>, r: Receipt, draws: Draws, fault: Fault)
    requires Reachable(w) && r in w.tables.receipts && r.status == Observed
    ensures var t := Run(w, steps).tables;
      Executed(t, r.executorId, Command(r.authority.decisionId, r.executorId, r.idempotencyKey), draws, fault)
        == ExecuteTx(t, Receipted(Replayed(r)))
  {
    hide Run, Inv, ExecutionRows, Authorized, AuthorizedExecution, ReceiptDigest, Filter, Reachable;
    ReachableKept(w);
    RunKeeps(w, steps);
    var t := Run(w, steps).tables;
    KeptTables(Run(w, steps));
    StillThere(w, steps, r);
    OneKnownReceipt(t, r, r.idempotencyKey, r.authority.decisionId);
    ReceiptDigestKept(t, r);
  }

  /** After an error no execution of the decision ever writes again, whoever asks: it is refused
      or answered with an error receipt. */
  lemma ErrorBlocksForever(w: World, steps: seq<Step>, r: Receipt, self: string, c: Command, draws: Draws, fault: Fault)
    requires Reachable(w) && r in w.tables.receipts && r.status == Error && c.decisionId == r.authority.decisionId
    ensures var t := Run(w, steps).tables;
      var x := Executed(t, self, c, draws, fault);
      x.tables == t && x.answer.Receipted? && (x.answer.reply.Refused? || (x.answer.reply.Replayed? && x.answer.reply.value.status == Error))
  {
    hide Run, Inv, ExecutionRows, Authorized, AuthorizedExecution, ReceiptDigest, Filter, Reachable;
    ReachableKept(w);
    RunKeeps(w, steps);
    var t := Run(w, steps).tables;
    KeptTables(Run(w, steps));
    StillThere(w, steps, r);
    FilterMembers(ReceiptFor(c.idempotencyKey, c.decisionId), t.receipts);
    var known := Filter(ReceiptFor(c.idempotencyKey, c.decisionId), t.receipts);
    assert r in known;
  }

  // ----- when the effect insert fails

  lemma PlanFacts(p: Proposal, plan: EffectPlan)
    requires ValidateEffect(p) == Some(plan)
    ensures p.actionTypeKey == ACTION_KEY && p.targetKey == TARGET_PREFIX + plan.key && EffectKeyText(plan.key)
  {
    hide EffectKeyText;
  }

  lemma FreshKeyAndDecision(t: Tables, key: string, decisionId: string)
    requires ExecutionRows(t) && Filter(ReceiptFor(key, decisionId), t.receipts) == []
    ensures forall e | e in t.effects :: e.idempotencyKey != key && e.authority.decisionId != decisionId
  {
    hide ExecutionRows;
    FilterEmpty(ReceiptFor(key, decisionId), t.receipts);
    forall e | e in t.effects ensures e.idempotencyKey != key && e.authority.decisionId != decisionId {
      var r := EffectHasReceipt(t, e);
      assert !ReceiptFor(key, decisionId)(r);
    }
  }

  lemma NextVersionFree(t: Tables, c: Command, d: DecisionRecord, p: Proposal, plan: EffectPlan, id: string)
    requires Versions(t.effects)
    ensures var e := EffectFor(t, c, d, p, plan, id);
      && VersionLineage(e)
      && (forall f | f in t.effects :: (f.effectKey, f.version) != (e.effectKey, e.version))
      && (e.priorId.Some? ==> exists f | f in t.effects :: Precedes(f, e))
  {
    hide Filter, Newest, EffectDigest;
    var e := EffectFor(t, c, d, p, plan, id);
    var es := Filter(HasEffectKey(plan.key), t.effects);
    assert EffectChain(es);
    NewestOfChain(es);
    FilterMembers(HasEffectKey(plan.key), t.effects);
    EffectForFacts(t, c, d, p, plan, id);
    if es != [] {
      var last := es[|es| - 1];
      assert VersionLink(es, |es| - 1);
      assert last in es;
      assert Precedes(last, e);
    }
    forall f | f in t.effects ensures (f.effectKey, f.version) != (e.effectKey, e.version) {
      if f.effectKey == plan.key {
        assert f in es;
        var i :| 0 <= i < |es| && es[i] == f;
        assert VersionLink(es, i);
      }
    }
  }

  /** In a sound ledger an authorized first execution can be refused by the effect table for one
      reason only: the drawn effect identity is taken. */
  lemma EffectInsertRefusedExactly(t: Tables, c: Command, d: DecisionRecord, p: Proposal, plan: EffectPlan, id: string)
    requires ExecutionRows(t) && Versions(t.effects)
    requires Filter(ReceiptFor(c.idempotencyKey, c.decisionId), t.receipts) == []
    requires Authorized(t, c) == Some((d, p)) && ValidateEffect(p) == Some(plan)
    ensures EffectAllowed(t, EffectFor(t, c, d, p, plan, id)) <==> forall f | f in t.effects :: f.effectId != id
  {
    hide ExecutionRows, Versions, Filter, Authorized, ValidateEffect, EffectFor, VersionLineage, Precedes, EffectKeyText, DecisionDigest;
    var e := EffectFor(t, c, d, p, plan, id);
    AuthorizedFacts(t, c);
    EffectForFacts(t, c, d, p, plan, id);
    PlanFacts(p, plan);
    FreshKeyAndDecision(t, c.idempotencyKey, c.decisionId);
    NextVersionFree(t, c, d, p, plan, id);
    assert ActionBound(t, e.authority.proposalId, e.targetKey, e.actionDigest);
    assert ApprovalHeld(t, e.authority);
  }

  // ----- recording a proven rollback

  ghost predicate FreshDraws(t: Tables, w: Draws) {
    && w.finishedAt >= w.startedAt
    && (forall a | a in t.attempts :: a.attemptId != w.attemptId)
    && (forall r | r in t.receipts :: r.receiptId != w.receiptId)
  }

  lemma ReceiptAttemptIds(t: Tables, id: string)
    requires ExecutionRows(t) && forall a | a in t.attempts :: a.attemptId != id
    ensures forall r | r in t.receipts :: r.attemptId != id
  {
    hide ExecutionRows, Paired;
    forall r | r in t.receipts ensures r.attemptId != id {
      var a := AttemptOfReceipt(t, r);
      PairedColumns(a, r);
    }
  }

  lemma AttemptKeys(t: Tables, key: string)
    requires ExecutionRows(t) && forall r | r in t.receipts :: r.idempotencyKey != key
    ensures forall a | a in t.attempts :: a.idempotencyKey != key
  {
    hide ExecutionRows, Paired;
    forall a | a in t.attempts ensures a.idempotencyKey != key {
      var r := ReceiptOfAttempt(t, a);
      PairedColumns(a, r);
    }
  }

  lemma ErrorAttemptAllowed(t: Tables, f: FailedEffect, w: Draws)
    requires FailureBound(t, f) && FreshDraws(t, w) && forall a | a in t.attempts :: a.idempotencyKey != f.command.idempotencyKey
    ensures AttemptAllowed(t, ErrorAttempt(f, w))
  {
    hide ValidateEffect, EffectKeyText, AttemptDigest;
    PlanFacts(f.proposal, f.plan);
    var a := ErrorAttempt(f, w);
    assert ApprovalHeld(t, a.authority);
    assert ActionBound(t, a.authority.proposalId, a.targetKey, a.actionDigest);
  }

  lemma ErrorReceiptAllowed(t: Tables, f: FailedEffect, w: Draws)
    requires FailureBound(t, f) && FreshDraws(t, w)
    requires forall r | r in t.receipts :: r.idempotencyKey != f.command.idempotencyKey && r.attemptId != w.attemptId
    ensures var a := ErrorAttempt(f, w); ReceiptAllowed(t.(attempts := t.attempts + [a]), ReceiptOf(a, w.receiptId))
  {
    hide ValidateEffect, AttemptDigest, ReceiptDigest;
    var a := ErrorAttempt(f, w);
    var u := t.(attempts := t.attempts + [a]);
    assert a in u.attempts && Repeats(ReceiptOf(a, w.receiptId), a);
    assert ApprovalHeld(u, a.authority);
  }

  /** A bound rollback with fresh draws is recorded exactly when its key has no receipt and its
      decision no effect. */
  lemma BoundErrorRecorded(t: Tables, f: FailedEffect, w: Draws)
    requires ExecutionRows(t) && FailureBound(t, f) && FreshDraws(t, w)
    ensures ErrorRecorded(t, f, w).reply.Written? <==>
      (forall r | r in t.receipts :: r.idempotencyKey != f.command.idempotencyKey) && !HasEffect(t, f.decision.decisionId)
    ensures ErrorRecorded(t, f, w).reply.Written? ==>
      ErrorRecorded(t, f, w).tables.receipts == t.receipts + [ReceiptOf(ErrorAttempt(f, w), w.receiptId)]
      && ErrorRecorded(t, f, w).tables.effects == t.effects
  {
    hide ExecutionRows, FailureBound, AttemptAllowed, ReceiptAllowed, ErrorAttempt, ReceiptOf, ReceiptDigest;
    if (forall r | r in t.receipts :: r.idempotencyKey != f.command.idempotencyKey) && !HasEffect(t, f.decision.decisionId) {
      ReceiptAttemptIds(t, w.attemptId);
      AttemptKeys(t, f.command.idempotencyKey);
      ErrorAttemptAllowed(t, f, w);
      ErrorReceiptAllowed(t, f, w);
    }
  }

  // ----- progress

  lemma NewEffectUnobserved(t: Tables, id: string)
    requires ExecutionRows(t) && forall f | f in t.effects :: f.effectId != id
    ensures forall a | a in t.attempts :: a.effectId != Some(id)
  {
    forall a | a in t.attempts ensures a.effectId != Some(id) {
      var r := ReceiptOfAttempt(t, a);
      assert a.status == Error ==> a.effectId.None?;
    }
  }

  lemma ObservedAttemptAllowed(t: Tables, e: Effect, w: Draws)
    requires FreshDraws(t, w) && e.version > 0 && forall a | a in t.attempts :: a.idempotencyKey != e.idempotencyKey && a.effectId != Some(e.effectId)
    requires EffectAllowed(t, e)
    ensures AttemptAllowed(t.(effects := t.effects + [e]), ObservedAttempt(e, w))
  {
    hide EffectKeyText, AttemptDigest, OutcomeDigest;
    var u := t.(effects := t.effects + [e]);
    assert ApprovalHeld(u, e.authority) && ActionBound(u, e.authority.proposalId, e.targetKey, e.actionDigest);
    assert e in u.effects && Observes(ObservedAttempt(e, w), e);
  }

  lemma ObservedReceiptAllowed(t: Tables, e: Effect, w: Draws)
    requires FreshDraws(t, w) && e.version > 0 && EffectAllowed(t, e)
    requires forall r | r in t.receipts :: r.idempotencyKey != e.idempotencyKey && r.attemptId != w.attemptId
    ensures var a := ObservedAttempt(e, w);
      ReceiptAllowed(t.(effects := t.effects + [e], attempts := t.attempts + [a]), ReceiptOf(a, w.receiptId))
  {
    hide EffectKeyText, AttemptDigest, OutcomeDigest, ReceiptDigest;
    var a := ObservedAttempt(e, w);
    var u := t.(effects := t.effects + [e], attempts := t.attempts + [a]);
    assert ApprovalHeld(u, e.authority);
    assert a in u.attempts && Repeats(ReceiptOf(a, w.receiptId), a);
  }

  /** An authorized first execution with fresh draws commits, when the database does not fail,
      if and only if the effect identity is unused; and then it appends exactly one effect with
      its attempt and its receipt. */
  lemma ExecutionCommits(t: Tables, self: string, c: Command, w: Draws, d: DecisionRecord, p: Proposal, plan: EffectPlan)
    requires ExecutionRows(t) && Versions(t.effects) && FreshDraws(t, w) && c.executorId == self
    requires Filter(ReceiptFor(c.idempotencyKey, c.decisionId), t.receipts) == []
    requires Authorized(t, c) == Some((d, p)) && ValidateEffect(p) == Some(plan)
    ensures var (e, x) := (EffectFor(t, c, d, p, plan, w.effectId), Executed(t, self, c, w, Healthy));
      var (a, free) := (ObservedAttempt(e, w), forall f | f in t.effects :: f.effectId != w.effectId);
      && (x.answer.Receipted? <==> free)
      && (free ==> x == ExecuteTx(t.(effects := t.effects + [e], attempts := t.attempts + [a], receipts := t.receipts + [ReceiptOf(a, w.receiptId)]),
                                  Receipted(Written(ReceiptOf(a, w.receiptId)))))
  {
    hide ExecutionRows, Versions, EffectAllowed, FreshDraws, Filter, Authorized, ValidateEffect, EffectFor, ObservedAttempt, ReceiptOf,
      AttemptAllowed, ReceiptAllowed, ReceiptFor;
    EffectInsertRefusedExactly(t, c, d, p, plan, w.effectId);
    var e := EffectFor(t, c, d, p, plan, w.effectId);
    if EffectAllowed(t, e) {
      EffectForFacts(t, c, d, p, plan, w.effectId);
      FirstKeys(t, c, e, w);
      PositiveVersion(t, e);
      ObservedAttemptAllowed(t, e, w);
      ObservedReceiptAllowed(t, e, w);
    }
  }

  lemma PositiveVersion(t: Tables, e: Effect)
    requires EffectAllowed(t, e)
    ensures e.version > 0
  {}

  lemma FirstKeys(t: Tables, c: Command, e: Effect, w: Draws)
    requires ExecutionRows(t) && FreshDraws(t, w) && Filter(ReceiptFor(c.idempotencyKey, c.decisionId), t.receipts) == []
    requires e.idempotencyKey == c.idempotencyKey && forall f | f in t.effects :: f.effectId != e.effectId
    ensures forall a | a in t.attempts :: a.idempotencyKey != e.idempotencyKey && a.effectId != Some(e.effectId)
    ensures forall r | r in t.receipts :: r.idempotencyKey != e.idempotencyKey && r.attemptId != w.attemptId
  {
    hide ExecutionRows, Filter;
    FilterEmpty(ReceiptFor(c.idempotencyKey, c.decisionId), t.receipts);
    forall r | r in t.receipts ensures r.idempotencyKey != c.idempotencyKey { assert !ReceiptFor(c.idempotencyKey, c.decisionId)(r); }
    AttemptKeys(t, c.idempotencyKey);
    ReceiptAttemptIds(t, w.attemptId);
    NewEffectUnobserved(t, e.effectId);
  }

  // ----- of every reachable ledger

  /** An authorized first execution with fresh draws commits, when the database does not fail,
      if and only if the effect identity is unused; and then it appends exactly one effect with
      its attempt and its receipt. */
  lemma ExecutionCommitsExactly(w: World, self: string, c: Command, x: Draws, d: DecisionRecord, p: Proposal, plan: EffectPlan)
    requires Reachable(w) && FreshDraws(w.tables, x) && c.executorId == self
    requires Filter(ReceiptFor(c.idempotencyKey, c.decisionId), w.tables.receipts) == []
    requires Authorized(w.tables, c) == Some((d, p)) && ValidateEffect(p) == Some(plan)
    ensures var t := w.tables;
      var (e, y) := (EffectFor(t, c, d, p, plan, x.effectId), Executed(t, self, c, x, Healthy));
      var (a, free) := (ObservedAttempt(e, x), forall f | f in t.effects :: f.effectId != x.effectId);
      && (y.answer.Receipted? <==> free)
      && (free ==> y == ExecuteTx(t.(effects := t.effects + [e], attempts := t.attempts + [a], receipts := t.receipts + [ReceiptOf(a, x.receiptId)]),
                                  Receipted(Written(ReceiptOf(a, x.receiptId)))))
  {
    hide Reachable, Inv, ExecutionRows, Versions, FreshDraws, Filter, Authorized, ValidateEffect, EffectFor, ObservedAttempt, ReceiptOf, Executed;
    ReachableKept(w);
    KeptTables(w);
    ExecutionCommits(w.tables, self, c, x, d, p, plan);
  }

  /** A pending rollback with fresh draws is recorded if and only if its key has no receipt and
      its decision no effect by then. */
  lemma ErrorRecordedExactly(w: World, client: nat, x: Draws)
    requires Reachable(w) && client in w.failed && FreshDraws(w.tables, x)
    ensures var (t, f) := (w.tables, w.failed[client]);
      && (ErrorRecorded(t, f, x).reply.Written? <==>
            (forall r | r in t.receipts :: r.idempotencyKey != f.command.idempotencyKey) && !HasEffect(t, f.decision.decisionId))
      && (ErrorRecorded(t, f, x).reply.Written? ==>
            ErrorRecorded(t, f, x).tables.receipts == t.receipts + [ReceiptOf(ErrorAttempt(f, x), x.receiptId)]
            && ErrorRecorded(t, f, x).tables.effects == t.effects)
  {
    hide Reachable, Inv, ExecutionRows, FreshDraws, FailureBound, ErrorRecorded, ErrorAttempt, ReceiptOf, HasEffect;
    ReachableKept(w);
    FailureKept(w, client);
    BoundErrorRecorded(w.tables, w.failed[client], x);
  }

  lemma FailureKept(w: World, client: nat)
    requires Inv(w) && client in w.failed
    ensures FailureBound(w.tables, w.failed[client]) && ExecutionRows(w.tables)
  {
    hide FailureBound, TablesKept, ReviewBound;
    KeptTables(w);
  }
}
