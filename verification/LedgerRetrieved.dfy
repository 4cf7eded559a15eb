/** What a retrieved precedent says about the rows it was made of, field by field. */
module LedgerRetrieved {
  import opened Json
  import opened LedgerInvariant
  import opened LedgerPrecedents
  import opened LedgerRuns
  import opened LedgerTables
  import opened LedgerTheorems
  import opened Models
  import opened Ordering
  import opened Sequences

  /** The fields of the proposal and its evaluation, with the similarity of the candidate. */
  ghost predicate StatesProposal(p: PrecedentRef, v: JoinRow) {
    var q := v.candidate.proposal;
    && p.proposalId == q.proposalId && p.proposalDigest == q.proposalDigest && p.actionDigest == q.actionDigest
    && p.actionTypeKey == q.actionTypeKey && p.targetKey == q.targetKey
    && p.similarity == Some(v.candidate.similarity) && p.similarityErrorCode.None?
    && p.evaluationId == v.evaluation.Id() && p.traceDigest == v.evaluation.TraceDigest()
  }

  /** Value, identity and digest of the decision, or nothing. */
  ghost predicate StatesDecision(p: PrecedentRef, v: JoinRow) {
    match v.decision
    case Some(d) => p.decision == Some(d.decision) && p.decisionId == Some(d.decisionId) && p.decisionDigest == Some(d.decisionDigest)
    case None => p.decision.None? && p.decisionId.None? && p.decisionDigest.None?
  }

  ghost predicate StatesReceipt(p: PrecedentRef, v: JoinRow) {
    match v.receipt
    case Some(r) => p.receiptId == Some(r.receiptId) && p.receiptDigest == Some(r.receiptDigest) && p.receiptStatus == Some(r.status)
    case None => p.receiptId.None? && p.receiptDigest.None? && p.receiptStatus.None?
  }

  ghost predicate StatesReport(c: ConsequenceRef, v: JoinRow) {
    match (v.report, v.receipt)
    case (Some(x), Some(r)) =>
      && c.consequenceId == x.consequenceId && c.receiptId == x.receiptId && c.receiptDigest == x.receiptDigest
      && c.receiptStatus == Observed && c.divergence == x.score && c.divergenceThreshold == x.threshold && c.reportDigest == x.reportDigest
    case _ => false
  }

  /** The row that stands first among those of its proposal and evaluation. */
  ghost predicate FirstOfKey(rows: seq<JoinRow>, v: JoinRow) {
    exists j | 0 <= j < |rows| && rows[j] == v :: forall i | 0 <= i < j :: KeyOf(rows[i]) != KeyOf(v)
  }

  lemma {:induction false} FirstInFilter(rows: seq<JoinRow>, k: GroupKey)
    requires Filter(InGroup(k), rows) != []
    ensures var v := Filter(InGroup(k), rows)[0]; v in rows && KeyOf(v) == k && FirstOfKey(rows, v)
  {
    var n := |rows| - 1;
    var front := rows[..n];
    if Filter(InGroup(k), front) == [] {
      FilterEmpty(InGroup(k), front);
      forall i | 0 <= i < n ensures KeyOf(rows[i]) != k { assert rows[i] == front[i] && front[i] in front; }
      assert rows[n] == Filter(InGroup(k), rows)[0];
    } else {
      FirstInFilter(front, k);
      var v := Filter(InGroup(k), front)[0];
      var j :| 0 <= j < |front| && front[j] == v && forall i | 0 <= i < j :: KeyOf(front[i]) != KeyOf(v);
      assert rows[j] == v;
      forall i | 0 <= i < j ensures KeyOf(rows[i]) != KeyOf(v) { assert rows[i] == front[i]; }
    }
  }

  lemma HeadStates(group: seq<JoinRow>)
    requires group != []
    ensures var p := PrecedentOf(group);
      StatesProposal(p, group[0]) && StatesDecision(p, group[0]) && StatesReceipt(p, group[0]) && p.consequenceRefs == Gather(RefsOf, group)
  {
    hide Gather;
  }

  lemma SameStates(p: PrecedentRef, v: JoinRow, w: JoinRow)
    requires StatesProposal(p, v) && StatesDecision(p, v)
    requires v.candidate == w.candidate && v.evaluation == w.evaluation && v.decision == w.decision
    ensures StatesProposal(p, w) && StatesDecision(p, w)
  {}

  lemma RefStates(t: Tables, w: JoinRow)
    requires ExecutionRows(t) && ReportRows(t) && ReceiptJoined(t, w) && ReportJoined(t, w) && w.decision.Some? && HasReport(w)
    ensures StatesReport(RefOf(w), w)
  {
    hide ExecutionRows, ReportRows;
    ReportedReceipt(t, w);
  }

  /** The references of a group are those of its reports. */
  lemma GroupRefs(t: Tables, cs: seq<Candidate>, current: string, group: seq<JoinRow>)
    requires ExecutionRows(t) && ReportRows(t) && forall v | v in group :: Joined(t, cs, current, v)
    ensures forall c | c in Gather(RefsOf, group) :: exists v :: v in group && StatesReport(c, v)
    ensures forall v | v in group && v.report.Some? :: exists c :: c in Gather(RefsOf, group) && StatesReport(c, v)
  {
    hide ExecutionRows, ReportRows, StatesReport, EvaluationJoined, DecisionJoined;
    GatherMembers(RefsOf, group);
    forall v | v in group && HasReport(v) ensures v.decision.Some? && StatesReport(RefOf(v), v) { RefStates(t, v); }
    forall c | c in Gather(RefsOf, group) ensures exists v :: v in group && StatesReport(c, v) {
      var v :| v in group && c in RefsOf(v);
      assert c == RefOf(v);
    }
    forall v | v in group && v.report.Some? ensures exists c :: c in Gather(RefsOf, group) && StatesReport(c, v) {
      assert RefOf(v) in RefsOf(v);
    }
  }

  /** The receipt of a row is the only one of its decision when it is observed or missing. */
  lemma SoleReceipt(t: Tables, cs: seq<Candidate>, current: string, v: JoinRow, w: JoinRow)
    requires ExecutionRows(t) && Joined(t, cs, current, v) && Joined(t, cs, current, w) && v.decision == w.decision
    requires w.receipt.None? || w.receipt.value.status == Observed
    ensures v.receipt == w.receipt
  {
    hide ExecutionRows, EvaluationJoined, DecisionJoined, ReportJoined;
    if w.receipt.Some? {
      var (d, r) := (w.decision.value, w.receipt.value);
      ExecutionsCorrespond(t, d.decisionId);
      assert HasReceipt(t, d.decisionId, Observed);
    }
  }

  /** For every joined row the one precedent with its key states the fields of its proposal, its
      evaluation and its decision; the receipt it states is that of the first row of the key, which
      is the row's own when that is observed or there is none; and its references are those of the
      reports of the key. */
  lemma PrecedentStates(w: World, cs: seq<Candidate>, current: string, rows: seq<JoinRow>, row: JoinRow) returns (i: nat, first: JoinRow)
    requires Reachable(w) && CandidatesOf(w.tables, cs) && JoinAnswer(w.tables, cs, current, rows) && row in rows
    ensures i < |Precedents(rows)| && forall j | 0 <= j < |Precedents(rows)| ::
      (Precedents(rows)[j].proposalId == row.candidate.proposal.proposalId && Precedents(rows)[j].evaluationId == row.evaluation.Id()) <==> j == i
    ensures StatesProposal(Precedents(rows)[i], row) && StatesDecision(Precedents(rows)[i], row)
    ensures first in rows && KeyOf(first) == KeyOf(row) && FirstOfKey(rows, first) && StatesReceipt(Precedents(rows)[i], first)
    ensures row.receipt.None? || row.receipt.value.status == Observed ==> first.receipt == row.receipt
    ensures forall c | c in Precedents(rows)[i].consequenceRefs :: exists v :: v in rows && KeyOf(v) == KeyOf(row) && StatesReport(c, v)
    ensures forall v | v in rows && KeyOf(v) == KeyOf(row) && v.report.Some? ::
      exists c :: c in Precedents(rows)[i].consequenceRefs && StatesReport(c, v)
  {
    hide Inv, Reachable, ExecutionRows, Genealogy, DecisionRows, ReportRows, CandidatesOf, Joined, SortedKeys, Filter, Gather, PrecedentOf,
      StatesProposal, StatesDecision, StatesReceipt, StatesReport, FirstOfKey;
    ReachableKept(w);
    KeptTables(w);
    var k := KeyOf(row);
    i := KeyIsListed(rows, row);
    KeyAlone(rows, i);
    GroupOccupied(rows, k);
    var group := Filter(InGroup(k), rows);
    FilterMembers(InGroup(k), rows);
    first := group[0];
    FirstInFilter(rows, k);
    HeadStates(group);
    SameGroup(w.tables, cs, current, first, row);
    SameStates(PrecedentOf(group), first, row);
    GroupRefs(w.tables, cs, current, group);
    if row.receipt.None? || row.receipt.value.status == Observed { SoleReceipt(w.tables, cs, current, first, row); }
  }

  lemma KeyAlone(rows: seq<JoinRow>, i: nat)
    requires i < |SortedKeys(rows)|
    ensures |Precedents(rows)| == |SortedKeys(rows)|
    ensures forall j | 0 <= j < |Precedents(rows)| ::
      (Precedents(rows)[j].proposalId == SortedKeys(rows)[i].0 && Precedents(rows)[j].evaluationId == SortedKeys(rows)[i].1) <==> j == i
  {
    hide SortedKeys, KeyLess, SortKeyOf, PrecedentAt;
    KeysIncrease(rows);
    forall j | 0 <= j < |Precedents(rows)|
      ensures Precedents(rows)[j].proposalId == SortedKeys(rows)[j].0 && Precedents(rows)[j].evaluationId == SortedKeys(rows)[j].1
    {
      KeyOfPrecedent(rows, SortedKeys(rows)[j]);
    }
    forall j | 0 <= j < |Precedents(rows)| && j != i ensures SortedKeys(rows)[j] != SortedKeys(rows)[i] {
      KeyTrichotomy(SortKeyOf(SortedKeys(rows)[i]), SortKeyOf(SortedKeys(rows)[i]));
    }
  }

  lemma KeyOfPrecedent(rows: seq<JoinRow>, k: GroupKey)
    requires k in KeysOf(rows)
    ensures PrecedentAt(rows, k).proposalId == k.0 && PrecedentAt(rows, k).evaluationId == k.1
  {
    hide Filter, Gather, KeysOf;
    GroupOccupied(rows, k);
    FilterMembers(InGroup(k), rows);
    assert Filter(InGroup(k), rows)[0] in Filter(InGroup(k), rows);
  }
}
