/** What the rows of an execution say, field by field. */
module LedgerContents {
  import opened Gate
  import opened Json
  import opened JsonRoundTrip
  import opened JsonText
  import opened LedgerHistory
  import opened LedgerInvariant
  import opened LedgerRuns
  import opened LedgerSteps
  import opened LedgerTables
  import opened LedgerTheorems
  import opened Models
  import opened Sequences
  import opened Utf8

  // ----- what a proposal asks for

  /** The proposal asks to set a demo key to a value. */
  ghost predicate AsksFor(p: Proposal, key: string, value: string) {
    && p.actionType == "SET_DEMO_VALUE" && p.actionTypeKey == "set_demo_value"
    && p.target == "demo_kv:" + key && p.targetKey == "demo_kv:" + key && EffectKeyText(key)
    && p.parametersJson == "{\"value\":" + value + "}" && |Encode(value)| <= 256
  }

  /** The canonical text of some scalar. */
  ghost predicate TextOfScalar(value: string) { exists w :: Scalar(w) && PlainJson(w) == value }

  lemma EnvelopeInside(a: string, b: string)
    ensures "{\"value\":" + a + "}" == "{\"value\":" + b + "}" ==> a == b
  {
    var (s, t) := ("{\"value\":" + a + "}", "{\"value\":" + b + "}");
    assert |"{\"value\":"| == 9;
    assert s[9..|s| - 1] == a && t[9..|t| - 1] == b;
  }

  lemma ParametersExactly(text: string, value: string)
    ensures JsonScalar(text).Accepted? && JsonScalar(text).canonical == value <==>
      text == "{\"value\":" + value + "}" && |Encode(value)| <= 256 && TextOfScalar(value)
  {
    hide JsonScalar, PlainJson, Encode;
    JsonScalarExactly(text);
    if JsonScalar(text).Accepted? {
      var w :| Scalar(w) && |Encode(PlainJson(w))| <= VALUE_BYTES && text == Envelope(PlainJson(w));
      EnvelopeInside(PlainJson(w), JsonScalar(text).canonical);
      EnvelopeInside(JsonScalar(text).canonical, value);
    }
  }

  lemma PrefixedKey(target: string, key: string)
    ensures target == "demo_kv:" + key <==> TARGET_PREFIX <= target && target[|TARGET_PREFIX|..] == key
  {}

  /** The allowlist check accepts exactly the proposals that ask to set a demo key to the canonical
      text of a scalar, and answers with that key and that text. */
  lemma PlanExactly(p: Proposal, key: string, value: string)
    ensures ValidateEffect(p) == Some(EffectPlan(key, value)) <==>
      AsksFor(p, key, value) && TextOfScalar(value) && |Encode(p.targetKey)| <= 256
  {
    hide JsonScalar, Encode, EffectKeyText, TextOfScalar;
    ParametersExactly(p.parametersJson, value);
    PrefixedKey(p.target, key);
    PrefixedKey(p.targetKey, key);
  }

  // ----- what was approved is what was done

  lemma AskedProposal(e: Effect, p: Proposal)
    requires AskedBy(e, p)
    ensures p.proposalId == e.authority.proposalId && p.actionDigest == e.actionDigest && p.targetKey == e.targetKey
    ensures AsksFor(p, e.effectKey, e.value) && TextOfScalar(e.value)
  {
    hide ValidateEffect, AsksFor, TextOfScalar;
    PlanExactly(p, e.effectKey, e.value);
  }

  /** Every committed effect sets the key and the value that the approved proposal asks for: the
      key of its target and the scalar of its parameters; and that proposal is the only one with
      its identity. */
  lemma EffectIsWhatWasApproved(w: World, e: Effect) returns (p: Proposal, d: DecisionRecord)
    requires Reachable(w) && e in w.tables.effects
    ensures p in w.tables.proposals && AsksFor(p, e.effectKey, e.value) && TextOfScalar(e.value)
    ensures e.targetKey == "demo_kv:" + e.effectKey && e.actionDigest == ActionDigest(p)
    ensures d in w.tables.decisions && d.decision == Approve && AuthorityOf(d) == e.authority && d.proposalId == p.proposalId
    ensures forall q | q in w.tables.proposals && q.proposalId == p.proposalId :: q == p
  {
    hide Versions, ExclusionRows, ReportRows, ExecutionRows, DecisionRows, EvaluationChains, OutcomeAccepted, AskedBy, Inv, Reachable,
      AttemptAsked, TextOfScalar;
    ReachableKept(w);
    KeptTables(w);
    p :| p in w.tables.proposals && AskedBy(e, p);
    d := EffectDecisionRow(w.tables, e);
    AskedProposal(e, p);
    assert ProposalIntact(p);
    forall q | q in w.tables.proposals && q.proposalId == p.proposalId ensures q == p {
      DistinctRows(ProposalRowId, w.tables.proposals, p, q);
    }
  }

  lemma AttemptProposal(a: Attempt, p: Proposal)
    requires AttemptAskedBy(a, p)
    ensures p.proposalId == a.authority.proposalId && p.actionDigest == a.actionDigest && p.targetKey == a.targetKey
    ensures AsksFor(p, a.effectKey, a.requestedValue) && TextOfScalar(a.requestedValue)
  {
    hide ValidateEffect, AsksFor, TextOfScalar;
    PlanExactly(p, a.effectKey, a.requestedValue);
  }

  /** So does every attempt, the failed ones included; and it starts from the zero digest or from
      the digest of a version of its key. */
  lemma AttemptIsWhatWasApproved(w: World, a: Attempt) returns (p: Proposal)
    requires Reachable(w) && a in w.tables.attempts
    ensures p in w.tables.proposals && p.proposalId == a.authority.proposalId && AsksFor(p, a.effectKey, a.requestedValue)
    ensures TextOfScalar(a.requestedValue) && a.targetKey == "demo_kv:" + a.effectKey && a.actionDigest == ActionDigest(p)
    ensures a.before == Zero || exists e :: e in w.tables.effects && e.effectKey == a.effectKey && e.digest == a.before
  {
    hide Versions, ExclusionRows, ReportRows, ExecutionRows, DecisionRows, EvaluationChains, OutcomeAccepted, AskedBy, Inv, Reachable,
      AttemptAskedBy, TextOfScalar;
    ReachableKept(w);
    KeptTables(w);
    assert AttemptAsked(w.tables, a);
    p :| p in w.tables.proposals && AttemptAskedBy(a, p);
    AttemptProposal(a, p);
    assert ProposalIntact(p);
  }

  // ----- the rows of one execution

  /** The identities, key and executor of an execution are those of its command and its draws. */
  ghost predicate ExecutedUnder(a: Attempt, r: Receipt, c: Command, x: Draws) {
    && a.attemptId == x.attemptId && a.startedAt == x.startedAt && a.finishedAt == x.finishedAt
    && a.executorId == c.executorId && a.idempotencyKey == c.idempotencyKey && a.authority.decisionId == c.decisionId
    && r.receiptId == x.receiptId && r.attemptId == a.attemptId && r.attemptDigest == a.attemptDigest && r.authority == a.authority
    && r.actionDigest == a.actionDigest && r.targetKey == a.targetKey && r.status == a.status && r.outcomeDigest == a.outcomeDigest
    && r.before == a.before && r.after == a.after && r.version == a.version
    && r.executorId == c.executorId && r.idempotencyKey == c.idempotencyKey
  }

  /** The observed attempt repeats its effect. */
  ghost predicate ObservedOf(a: Attempt, e: Effect) {
    && a.status == Observed && a.effectId == Some(e.effectId) && a.authority == e.authority && a.actionDigest == e.actionDigest
    && a.targetKey == e.targetKey && a.effectKey == e.effectKey && a.requestedValue == e.value
    && a.before == e.before && a.after == Some(e.digest) && a.version == Some(e.version)
  }

  lemma ObservedRows(e: Effect, c: Command, x: Draws)
    requires e.executorId == c.executorId && e.idempotencyKey == c.idempotencyKey && e.authority.decisionId == c.decisionId
    ensures var a := ObservedAttempt(e, x); ObservedOf(a, e) && ExecutedUnder(a, ReceiptOf(a, x.receiptId), c, x)
  {}

  /** An execution that writes appends one effect, one attempt and one receipt, under the identities
      drawn and the key and executor of the command. */
  lemma ExecutionStores(w: World, self: string, c: Command, x: Draws, fault: Fault) returns (e: Effect, a: Attempt, r: Receipt)
    requires Executed(w.tables, self, c, x, fault).answer.Receipted? && Executed(w.tables, self, c, x, fault).answer.reply.Written?
    ensures var (t, u) := (w.tables, Executed(w.tables, self, c, x, fault).tables);
      u == t.(effects := t.effects + [e], attempts := t.attempts + [a], receipts := t.receipts + [r])
    ensures Executed(w.tables, self, c, x, fault).answer.reply.value == r && c.executorId == self
    ensures e.effectId == x.effectId && e.executorId == c.executorId && e.idempotencyKey == c.idempotencyKey
    ensures ObservedOf(a, e) && ExecutedUnder(a, r, c, x)
  {
    hide Authorized, ValidateEffect, EffectFor, ObservedAttempt, ReceiptOf, EffectAllowed, AttemptAllowed, ReceiptAllowed, Filter,
      ObservedOf, ExecutedUnder, ActionBound, TargetBound;
    var t := w.tables;
    var d, p, plan, f := ExecuteWrites(t, self, c, x, fault);
    e, a, r := f, ObservedAttempt(f, x), ReceiptOf(ObservedAttempt(f, x), x.receiptId);
    AuthorizedFacts(t, c);
    EffectForFacts(t, c, d, p, plan, x.effectId);
    ObservedRows(e, c, x);
    ClosedRows(t, t.(effects := t.effects + [e]), a, x.receiptId);
  }

  // ----- a proven rollback

  /** The digest of the version of the key with the largest number, or zero without any version. */
  ghost predicate NewestDigest(t: Tables, key: string, d: Digest) {
    if exists e :: e in t.effects && e.effectKey == key then
      exists e :: e in t.effects && e.effectKey == key && e.digest == d && NoneNewer(t, e)
    else d == Zero
  }

  ghost predicate NoneNewer(t: Tables, e: Effect) { forall f | f in t.effects && f.effectKey == e.effectKey :: f.version <= e.version }

  lemma {:induction false} NewestIsLargest(es: seq<Effect>)
    ensures Newest(es).Absent? <==> es == []
    ensures Newest(es).Present? ==> Newest(es).row in es && forall e | e in es :: e.version <= Newest(es).row.version
  {
    if es != [] {
      var front, last := es[..|es| - 1], es[|es| - 1];
      NewestIsLargest(front);
      assert es == front + [last];
    }
  }

  lemma BeforeIsNewest(t: Tables, c: Command, d: DecisionRecord, p: Proposal, plan: EffectPlan, id: string)
    ensures NewestDigest(t, plan.key, EffectFor(t, c, d, p, plan, id).before)
  {
    hide Newest, EffectDigest, Filter;
    var es := Filter(HasEffectKey(plan.key), t.effects);
    FilterMembers(HasEffectKey(plan.key), t.effects);
    NewestIsLargest(es);
    if es != [] {
      var e := Newest(es).row;
      assert e in t.effects && e.effectKey == plan.key;
      forall f | f in t.effects && f.effectKey == plan.key ensures f.version <= e.version { assert f in es; }
      assert NoneNewer(t, e);
    }
  }

  /** An execution whose effect the table refused writes nothing; its client carries the command,
      the approved decision, the proposal, what it asks for, and the digest it would have started from. */
  lemma RollbackCarries(w: World, self: string, c: Command, x: Draws, fault: Fault)
    requires Executed(w.tables, self, c, x, fault).answer.ProvenRollback?
    ensures var (t, f) := (w.tables, Executed(w.tables, self, c, x, fault).answer.failed);
      && Executed(t, self, c, x, fault).tables == t && f.command == c
      && f.decision in t.decisions && f.decision.decisionId == c.decisionId && f.decision.decision == Approve
      && f.proposal in t.proposals && f.proposal.proposalId == f.decision.proposalId
      && AsksFor(f.proposal, f.plan.key, f.plan.value) && NewestDigest(t, f.plan.key, f.before)
  {
    hide Authorized, ValidateEffect, EffectAllowed, EffectFor, Closed, ObservedAttempt, Filter, DigestOfKey, NewestDigest, AsksFor, TextOfScalar;
    var t := w.tables;
    RollbackBound(t, self, c, x, fault);
    var (d, p) := Authorized(t, c).value;
    var plan := ValidateEffect(p).value;
    BeforeIsNewest(t, c, d, p, plan, x.effectId);
    PlanExactly(p, plan.key, plan.value);
  }

  lemma ErrorRows(f: FailedEffect, x: Draws)
    requires f.decision.decisionId == f.command.decisionId
    ensures var a := ErrorAttempt(f, x);
      && ExecutedUnder(a, ReceiptOf(a, x.receiptId), f.command, x)
      && a.status == Error && a.effectId.None? && a.after.None? && a.version.None? && a.authority == AuthorityOf(f.decision)
      && a.effectKey == f.plan.key && a.requestedValue == f.plan.value && a.before == f.before
  {}

  /** A recorded rollback appends one failed attempt and its receipt, without an effect, under the
      command that failed. */
  lemma ErrorStores(w: World, client: nat, x: Draws) returns (a: Attempt, r: Receipt)
    requires Reachable(w) && client in w.failed && ErrorRecorded(w.tables, w.failed[client], x).reply.Written?
    ensures var (t, u) := (w.tables, ErrorRecorded(w.tables, w.failed[client], x).tables);
      u == t.(attempts := t.attempts + [a], receipts := t.receipts + [r])
    ensures a.status == Error && a.effectId.None? && a.after.None? && a.version.None?
    ensures ExecutedUnder(a, r, w.failed[client].command, x)
    ensures var f := w.failed[client];
      a.authority == AuthorityOf(f.decision) && a.effectKey == f.plan.key && a.requestedValue == f.plan.value && a.before == f.before
  {
    hide Reachable, Inv, ErrorAttempt, ReceiptOf, AttemptAllowed, ReceiptAllowed, ExecutedUnder, DigestOfKey, ValidateEffect, ExecutionRows,
      ReceiptDigest;
    ReachableKept(w);
    FailureKept(w, client);
    var f := w.failed[client];
    a, r := ErrorAttempt(f, x), ReceiptOf(ErrorAttempt(f, x), x.receiptId);
    ErrorRows(f, x);
    ClosedRows(w.tables, w.tables, a, x.receiptId);
  }
}
