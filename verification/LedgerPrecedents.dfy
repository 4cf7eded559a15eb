/** Precedents: grouping the rows that join candidate proposals with their evaluations,
    decisions, receipts and consequence reports. */
module LedgerPrecedents {
  import opened Canonical
  import opened Gate
  import opened GateRules
  import opened GateVerdict
  import opened Json
  import opened LedgerInvariant
  import opened LedgerRuns
  import opened LedgerSteps
  import opened LedgerTables
  import opened LedgerTheorems
  import opened Models
  import opened Ordering
  import opened Sequences
  import opened Traces

  /** A candidate proposal of the vector search with its similarity. */
  datatype Candidate = Candidate(proposal: Proposal, similarity: real)

  datatype JoinRow = JoinRow(
    candidate: Candidate, evaluation: EvaluationRow, decision: Option<DecisionRecord>, receipt: Option<Receipt>,
    report: Option<ConsequenceReport>)

  // ----- the join

  /** The inner part: a candidate with one of its finalized evaluations. */
  ghost predicate EvaluationJoined(t: Tables, cs: seq<Candidate>, current: string, w: JoinRow) {
    && w.candidate in cs && w.evaluation in t.evaluations && w.evaluation.outcome.Finalized?
    && w.evaluation.proposalId == w.candidate.proposal.proposalId && w.evaluation.Id() != current
  }

  /** Left joins: a missing part means that no row matches. */
  ghost predicate DecisionJoined(t: Tables, w: JoinRow) {
    match w.decision
    case Some(d) => d in t.decisions && d.evaluationId == w.evaluation.Id()
    case None => forall d | d in t.decisions :: d.evaluationId != w.evaluation.Id()
  }

  ghost predicate ReceiptJoined(t: Tables, w: JoinRow) {
    match (w.decision, w.receipt)
    case (Some(d), Some(r)) => r in t.receipts && r.authority.decisionId == d.decisionId
    case (Some(d), None) => forall r | r in t.receipts :: r.authority.decisionId != d.decisionId
    case (None, r) => r.None?
  }

  ghost predicate ReportJoined(t: Tables, w: JoinRow) {
    match (w.receipt, w.report)
    case (Some(r), Some(c)) => c in t.reports && c.receiptId == r.receiptId
    case (Some(r), None) => forall c | c in t.reports :: c.receiptId != r.receiptId
    case (None, c) => c.None?
  }

  ghost predicate Joined(t: Tables, cs: seq<Candidate>, current: string, w: JoinRow) {
    EvaluationJoined(t, cs, current, w) && DecisionJoined(t, w) && ReceiptJoined(t, w) && ReportJoined(t, w)
  }

  /** The database's answer: exactly the rows of the join, each once. */
  ghost predicate JoinAnswer(t: Tables, cs: seq<Candidate>, current: string, rows: seq<JoinRow>) {
    && (forall w :: w in rows <==> Joined(t, cs, current, w))
    && (forall i, j | 0 <= i < j < |rows| :: rows[i] != rows[j])
  }

  /** Candidates are rows of the proposal table, at most one each. */
  ghost predicate CandidatesOf(t: Tables, cs: seq<Candidate>) {
    && (forall c | c in cs :: c.proposal in t.proposals)
    && (forall i, j | 0 <= i < j < |cs| :: cs[i].proposal.proposalId != cs[j].proposal.proposalId)
  }

  // ----- grouping

  type GroupKey = (string, string)

  function KeyOf(w: JoinRow): GroupKey { (w.candidate.proposal.proposalId, w.evaluation.Id()) }
  function SortKeyOf(k: GroupKey): Key { [k.0, k.1] }
  function InGroup(k: GroupKey): JoinRow -> bool { (w: JoinRow) => KeyOf(w) == k }
  function HasReport(w: JoinRow): bool { w.report.Some? && w.receipt.Some? }

  /** The keys in the order of their first rows. */
  function KeysOf(rows: seq<JoinRow>): seq<GroupKey> {
    if rows == [] then []
    else
      var front := KeysOf(rows[..|rows| - 1]);
      var k := KeyOf(rows[|rows| - 1]);
      if k in front then front else front + [k]
  }

  function RefOf(w: JoinRow): ConsequenceRef
    requires HasReport(w)
  {
    var (c, r) := (w.report.value, w.receipt.value);
    ConsequenceRef(c.consequenceId, r.receiptId, r.status, r.receiptDigest, c.score, c.threshold, c.reportDigest)
  }

  function RefsOf(w: JoinRow): seq<ConsequenceRef> { if HasReport(w) then [RefOf(w)] else [] }

  function PrecedentOf(group: seq<JoinRow>): PrecedentRef
    requires group != []
  {
    var first := group[0];
    var p := first.candidate.proposal;
    PrecedentRef(
      p.proposalId, p.proposalDigest, p.actionDigest, p.actionTypeKey, p.targetKey,
      if first.decision.Some? then Some(first.decision.value.decision) else None,
      if first.decision.Some? then Some(first.decision.value.decisionId) else None,
      if first.decision.Some? then Some(first.decision.value.decisionDigest) else None,
      Some(first.candidate.similarity), None, first.evaluation.Id(), first.evaluation.TraceDigest(),
      if first.receipt.Some? then Some(first.receipt.value.receiptId) else None,
      if first.receipt.Some? then Some(first.receipt.value.receiptDigest) else None,
      if first.receipt.Some? then Some(first.receipt.value.status) else None,
      Gather(RefsOf, group))
  }

  lemma {:induction false} KeysMembers(rows: seq<JoinRow>)
    ensures forall k :: k in KeysOf(rows) <==> exists w :: w in rows && KeyOf(w) == k
    ensures forall i, j | 0 <= i < j < |KeysOf(rows)| :: KeysOf(rows)[i] != KeysOf(rows)[j]
  {
    if rows != [] {
      KeysMembers(rows[..|rows| - 1]);
      assert rows == rows[..|rows| - 1] + [rows[|rows| - 1]];
      assert rows[|rows| - 1] in rows;
    }
  }

  lemma GroupOccupied(rows: seq<JoinRow>, k: GroupKey)
    ensures k in KeysOf(rows) <==> Filter(InGroup(k), rows) != []
  {
    KeysMembers(rows);
    FilterEmpty(InGroup(k), rows);
  }

  ghost predicate Grouped(grouped: map<GroupKey, seq<JoinRow>>, order: seq<GroupKey>, rows: seq<JoinRow>) {
    && order == KeysOf(rows)
    && (forall k :: k in grouped <==> k in order)
    && (forall k | k in grouped :: grouped[k] == Filter(InGroup(k), rows))
  }

  lemma GroupedStep(grouped: map<GroupKey, seq<JoinRow>>, order: seq<GroupKey>, rows: seq<JoinRow>, i: nat)
    requires i < |rows| && Grouped(grouped, order, rows[..i])
    ensures var k := KeyOf(rows[i]);
      Grouped(grouped[k := (if k in grouped then grouped[k] else []) + [rows[i]]],
              if k in grouped then order else order + [k], rows[..i + 1])
  {
    var k, w := KeyOf(rows[i]), rows[i];
    TakeStep(rows, i);
    forall q ensures Filter(InGroup(q), rows[..i + 1]) == Filter(InGroup(q), rows[..i]) + if q == k then [w] else [] {
      FilterStep(InGroup(q), rows, i);
    }
    GroupOccupied(rows[..i], k);
  }

  /** The dictionary of groups, filled row by row in the order of the answer. */
  method GroupRows(rows: seq<JoinRow>) returns (grouped: map<GroupKey, seq<JoinRow>>, order: seq<GroupKey>)
    ensures Grouped(grouped, order, rows)
  {
    hide Filter;
    grouped, order := map[], [];
    NoGroups(rows);
    for i := 0 to |rows|
      invariant Grouped(grouped, order, rows[..i])
    {
      GroupedStep(grouped, order, rows, i);
      var k := KeyOf(rows[i]);
      if k !in grouped {
        order := order + [k];
        grouped := grouped[k := []];
      }
      grouped := grouped[k := grouped[k] + [rows[i]]];
    }
    LoopStart(rows);
  }

  lemma NoGroups(rows: seq<JoinRow>)
    ensures Grouped(map[], [], rows[..0])
  {}

  function PrecedentAt(rows: seq<JoinRow>, k: GroupKey): PrecedentRef
    requires k in KeysOf(rows)
  {
    GroupOccupied(rows, k);
    PrecedentOf(Filter(InGroup(k), rows))
  }

  function SortedKeys(rows: seq<JoinRow>): (r: seq<GroupKey>)
    ensures |r| == |KeysOf(rows)|
    ensures forall i | 0 <= i < |r| :: r[i] in KeysOf(rows)
  {
    SortedKeysFacts(rows);
    Sort(SortKeyOf, KeysOf(rows))
  }

  lemma SortedKeysFacts(rows: seq<JoinRow>)
    ensures |Sort(SortKeyOf, KeysOf(rows))| == |KeysOf(rows)|
    ensures forall i | 0 <= i < |Sort(SortKeyOf, KeysOf(rows))| :: Sort(SortKeyOf, KeysOf(rows))[i] in KeysOf(rows)
  {
    hide Sort;
    SortMembers(SortKeyOf, KeysOf(rows));
    forall i | 0 <= i < |Sort(SortKeyOf, KeysOf(rows))| ensures Sort(SortKeyOf, KeysOf(rows))[i] in KeysOf(rows) {
      SortMember(SortKeyOf, KeysOf(rows), i);
    }
  }

  /** The precedents of an answer, by increasing key. */
  function Precedents(rows: seq<JoinRow>): seq<PrecedentRef> {
    var keys := SortedKeys(rows);
    seq(|keys|, i requires 0 <= i < |keys| => PrecedentAt(rows, keys[i]))
  }

  method SearchPrecedents(rows: seq<JoinRow>) returns (result: seq<PrecedentRef>)
    ensures result == Precedents(rows)
  {
    hide Filter, PrecedentOf, Sort;
    var grouped, order := GroupRows(rows);
    var keys := Sort(SortKeyOf, order);
    SortMembers(SortKeyOf, order);
    result := [];
    for i := 0 to |keys|
      invariant |result| == i
      invariant forall j | 0 <= j < i :: keys[j] in order && result[j] == PrecedentAt(rows, keys[j])
    {
      assert keys[i] in keys;
      GroupOccupied(rows, keys[i]);
      result := result + [PrecedentOf(grouped[keys[i]])];
    }
  }

  // ----- rows of one group agree

  /** Two joined rows of one group share candidate, evaluation and decision. */
  lemma SameGroup(t: Tables, cs: seq<Candidate>, current: string, v: JoinRow, w: JoinRow)
    requires Genealogy(t) && DecisionRows(t) && CandidatesOf(t, cs)
    requires Joined(t, cs, current, v) && Joined(t, cs, current, w) && KeyOf(v) == KeyOf(w)
    ensures v.candidate == w.candidate && v.evaluation == w.evaluation && v.decision == w.decision
  {
    hide ReceiptJoined, ReportJoined, OutcomeAccepted, ProposalIntact, EvaluationChains, Decides, DecisionDigest;
    var i :| 0 <= i < |cs| && cs[i] == v.candidate;
    var j :| 0 <= j < |cs| && cs[j] == w.candidate;
    assert i == j || cs[i].proposal.proposalId != cs[j].proposal.proposalId || i > j;
    DistinctRows(EvaluationRowId, t.evaluations, v.evaluation, w.evaluation);
    if v.decision.Some? && w.decision.Some? {
      DistinctRows(DecisionEvaluation, t.decisions, v.decision.value, w.decision.value);
    }
  }

  /** A row with a report has the only receipt of its decision, and that receipt is observed. */
  lemma ReportedReceipt(t: Tables, w: JoinRow)
    requires ExecutionRows(t) && ReportRows(t) && ReceiptJoined(t, w) && ReportJoined(t, w) && HasReport(w) && w.decision.Some?
    ensures w.receipt.value.status == Observed && w.receipt.value.receiptDigest == w.report.value.receiptDigest
    ensures w.report.value.threshold == 0.5 && 0.0 <= w.report.value.score <= 1.0
    ensures forall r | r in t.receipts && r.authority.decisionId == w.decision.value.decisionId :: r == w.receipt.value
  {
    hide ExecutionRows, Measures, ReportDigest;
    var c, r := w.report.value, w.receipt.value;
    assert ReportStored(t, c);
    var q :| q in t.receipts && ReportedOn(c, q);
    EffectsUnique(t);
    DistinctRows(ReceiptRowId, t.receipts, r, q);
    ExecutionsCorrespond(t, w.decision.value.decisionId);
    assert HasReceipt(t, w.decision.value.decisionId, Observed);
  }

  /** Every row of a group with some report has the receipt of that report. */
  lemma GroupReceipt(t: Tables, cs: seq<Candidate>, current: string, v: JoinRow, w: JoinRow)
    requires ExecutionRows(t) && Genealogy(t) && DecisionRows(t) && ReportRows(t) && CandidatesOf(t, cs)
    requires Joined(t, cs, current, v) && Joined(t, cs, current, w) && KeyOf(v) == KeyOf(w) && HasReport(w)
    ensures v.receipt == w.receipt && v.receipt.value.status == Observed
  {
    hide ExecutionRows, Genealogy, DecisionRows, ReportRows, CandidatesOf;
    SameGroup(t, cs, current, v, w);
    ReportedReceipt(t, w);
  }

  // ----- the precedents of a sound ledger

  /** The precedent of a group is valid and its consequences are bound as rule F08 demands. */
  ghost predicate PrecedentSound(p: PrecedentRef) {
    && PrecedentAccepted(p)
    && (forall c | c in p.consequenceRefs :: c.receiptStatus == Observed && c.divergenceThreshold == 0.5 && 0.0 <= c.divergence <= 1.0)
  }

  lemma GroupSound(t: Tables, cs: seq<Candidate>, current: string, rows: seq<JoinRow>, k: GroupKey)
    requires ExecutionRows(t) && Genealogy(t) && DecisionRows(t) && ReportRows(t) && CandidatesOf(t, cs)
    requires JoinAnswer(t, cs, current, rows) && k in KeysOf(rows)
    ensures PrecedentSound(PrecedentAt(rows, k))
    ensures PrecedentAt(rows, k).proposalId == k.0 && PrecedentAt(rows, k).evaluationId == k.1
  {
    hide ExecutionRows, Genealogy, DecisionRows, ReportRows, CandidatesOf, Filter, Gather, DecisionJoined, EvaluationJoined;
    var group := Filter(InGroup(k), rows);
    GroupOccupied(rows, k);
    FilterMembers(InGroup(k), rows);
    GatherMembers(RefsOf, group);
    var first := group[0];
    assert first in group && Joined(t, cs, current, first);
    forall c | c in Gather(RefsOf, group)
      ensures c.receiptStatus == Observed && c.divergenceThreshold == 0.5 && 0.0 <= c.divergence <= 1.0
      ensures first.receipt.Some? && first.receipt.value.status == Observed
    {
      var w :| w in group && c in RefsOf(w);
      assert Joined(t, cs, current, w) && c == RefOf(w);
      GroupReceipt(t, cs, current, first, w);
      ReportedReceipt(t, w);
    }
    if Gather(RefsOf, group) != [] { assert Gather(RefsOf, group)[0] in Gather(RefsOf, group); }
  }

  /** Every list of precedents built from a sound ledger passes the precedent validator, binds its
      consequences to observed receipts at the pinned threshold, and increases strictly by key. */
  lemma PrecedentsSound(w: World, cs: seq<Candidate>, current: string, rows: seq<JoinRow>)
    requires Reachable(w) && CandidatesOf(w.tables, cs) && JoinAnswer(w.tables, cs, current, rows)
    ensures var ps := Precedents(rows);
      && (forall p | p in ps :: PrecedentSound(p))
      && (forall i, j | 0 <= i < j < |ps| :: KeyLess(PrecedentKey(ps[i]), PrecedentKey(ps[j])))
  {
    hide Inv, ExecutionRows, Genealogy, DecisionRows, ReportRows, CandidatesOf, JoinAnswer, PrecedentSound, PrecedentAt, SortedKeys, KeyLess, Reachable;
    ReachableKept(w);
    KeptTables(w);
    var keys, ps := SortedKeys(rows), Precedents(rows);
    forall i | 0 <= i < |ps| ensures PrecedentSound(ps[i]) && PrecedentKey(ps[i]) == SortKeyOf(keys[i]) {
      GroupSound(w.tables, cs, current, rows, keys[i]);
    }
    KeysIncrease(rows);
  }

  lemma KeysIncrease(rows: seq<JoinRow>)
    ensures var keys := SortedKeys(rows);
      forall i, j | 0 <= i < j < |keys| :: KeyLess(SortKeyOf(keys[i]), SortKeyOf(keys[j]))
  {
    hide Sort, KeyLess;
    var keys := SortedKeys(rows);
    KeysMembers(rows);
    SortFacts(SortKeyOf, KeysOf(rows));
    NoRepeats(KeysOf(rows), keys);
    forall i, j | 0 <= i < j < |keys| ensures KeyLess(SortKeyOf(keys[i]), SortKeyOf(keys[j])) {
      KeyTrichotomy(SortKeyOf(keys[i]), SortKeyOf(keys[j]));
      SameSortKey(keys[i], keys[j]);
    }
  }

  lemma SameSortKey(k: GroupKey, q: GroupKey)
    ensures SortKeyOf(k) == SortKeyOf(q) ==> k == q
  {
    assert SortKeyOf(k)[0] == k.0 && SortKeyOf(k)[1] == k.1 && SortKeyOf(q)[0] == q.0 && SortKeyOf(q)[1] == q.1;
  }

  /** A permutation of a list without repeats has no repeats. */
  lemma NoRepeats<T>(a: seq<T>, b: seq<T>)
    requires multiset(a) == multiset(b) && forall i, j | 0 <= i < j < |a| :: a[i] != a[j]
    ensures forall i, j | 0 <= i < j < |b| :: b[i] != b[j]
  {
    forall i, j | 0 <= i < j < |b| ensures b[i] != b[j] {
      if b[i] == b[j] {
        TwiceIn(b, i, j);
        OnceIn(a, b[i]);
      }
    }
  }

  lemma TwiceIn<T>(b: seq<T>, i: nat, j: nat)
    requires i < j < |b| && b[i] == b[j]
    ensures multiset(b)[b[i]] >= 2
  {
    assert b == b[..i + 1] + b[i + 1..];
    assert b[i] in b[..i + 1] && b[i + 1..][j - i - 1] == b[j];
    assert multiset(b) == multiset(b[..i + 1]) + multiset(b[i + 1..]);
    assert b[i] in multiset(b[..i + 1]) && b[j] in multiset(b[i + 1..]);
  }

  lemma {:induction false} OnceIn<T>(a: seq<T>, x: T)
    requires forall i, j | 0 <= i < j < |a| :: a[i] != a[j]
    ensures multiset(a)[x] <= 1
  {
    if a != [] {
      OnceIn(a[1..], x);
      assert a == [a[0]] + a[1..];
      if a[0] == x { assert forall k | 0 <= k < |a[1..]| :: a[1..][k] != x; }
    }
  }

  ghost predicate Holds(p: PrecedentRef, consequenceId: string) {
    exists c :: c in p.consequenceRefs && c.consequenceId == consequenceId
  }

  lemma KeyIsListed(rows: seq<JoinRow>, row: JoinRow) returns (i: nat)
    requires row in rows
    ensures i < |SortedKeys(rows)| && SortedKeys(rows)[i] == KeyOf(row)
  {
    hide Sort;
    KeysMembers(rows);
    SortMembers(SortKeyOf, KeysOf(rows));
    assert KeyOf(row) in SortedKeys(rows);
    i :| 0 <= i < |SortedKeys(rows)| && SortedKeys(rows)[i] == KeyOf(row);
  }

  /** The precedent at i holds the report of a row exactly when it is the one of its key. */
  lemma ReportHeldByKey(w: World, cs: seq<Candidate>, current: string, rows: seq<JoinRow>, row: JoinRow, i: nat)
    requires Reachable(w) && CandidatesOf(w.tables, cs) && JoinAnswer(w.tables, cs, current, rows)
    requires row in rows && HasReport(row) && i < |Precedents(rows)|
    ensures Holds(Precedents(rows)[i], row.report.value.consequenceId) <==> SortedKeys(rows)[i] == KeyOf(row)
    ensures PrecedentKey(Precedents(rows)[i]) == SortKeyOf(SortedKeys(rows)[i])
  {
    hide Inv, ExecutionRows, Genealogy, DecisionRows, ReportRows, CandidatesOf, SortedKeys, Filter, Gather, Joined, Reachable;
    ReachableKept(w);
    KeptTables(w);
    var k := SortedKeys(rows)[i];
    GroupOccupied(rows, k);
    var group := Filter(InGroup(k), rows);
    FilterMembers(InGroup(k), rows);
    GatherMembers(RefsOf, group);
    GroupSound(w.tables, cs, current, rows, k);
    if k == KeyOf(row) {
      assert row in group && RefOf(row) in RefsOf(row);
    }
    if c :| c in Gather(RefsOf, group) && c.consequenceId == row.report.value.consequenceId {
      var v :| v in group && c in RefsOf(v);
      SameReportSameKey(w.tables, cs, current, v, row);
    }
  }

  /** Each consequence report of a candidate's other finalized evaluations stands in exactly one
      precedent: the one of its proposal and evaluation. */
  lemma ReportPlacedOnce(w: World, cs: seq<Candidate>, current: string, rows: seq<JoinRow>, row: JoinRow) returns (i: nat)
    requires Reachable(w) && CandidatesOf(w.tables, cs) && JoinAnswer(w.tables, cs, current, rows)
    requires row in rows && HasReport(row)
    ensures i < |Precedents(rows)| && PrecedentKey(Precedents(rows)[i]) == SortKeyOf(KeyOf(row))
    ensures forall j | 0 <= j < |Precedents(rows)| :: Holds(Precedents(rows)[j], row.report.value.consequenceId) <==> j == i
  {
    hide SortedKeys, PrecedentAt, Holds, Reachable, CandidatesOf, JoinAnswer, KeyLess, SortKeyOf;
    i := KeyIsListed(rows, row);
    KeysIncrease(rows);
    ReportHeldByKey(w, cs, current, rows, row, i);
    forall j | 0 <= j < |Precedents(rows)| ensures Holds(Precedents(rows)[j], row.report.value.consequenceId) <==> j == i {
      ReportHeldByKey(w, cs, current, rows, row, j);
      KeyTrichotomy(SortKeyOf(KeyOf(row)), SortKeyOf(KeyOf(row)));
    }
  }

  lemma SameReportSameKey(t: Tables, cs: seq<Candidate>, current: string, v: JoinRow, w: JoinRow)
    requires ExecutionRows(t) && Genealogy(t) && DecisionRows(t) && ReportRows(t)
    requires Joined(t, cs, current, v) && Joined(t, cs, current, w) && HasReport(v) && HasReport(w)
    requires v.report.value.consequenceId == w.report.value.consequenceId
    ensures KeyOf(v) == KeyOf(w)
  {
    hide ExecutionRows, OutcomeAccepted, ProposalIntact, EvaluationChains, Decides, DecisionDigest, ReportStored;
    DistinctRows(ReportRowId, t.reports, v.report.value, w.report.value);
    EffectsUnique(t);
    DistinctRows(ReceiptRowId, t.receipts, v.receipt.value, w.receipt.value);
    DistinctRows(DecisionRowId, t.decisions, v.decision.value, w.decision.value);
    DistinctRows(EvaluationRowId, t.evaluations, v.evaluation, w.evaluation);
  }

  /** And it stands there once. */
  lemma NoReportTwice(w: World, cs: seq<Candidate>, current: string, rows: seq<JoinRow>, i: nat, a: nat, b: nat)
    requires Reachable(w) && CandidatesOf(w.tables, cs) && JoinAnswer(w.tables, cs, current, rows)
    requires i < |Precedents(rows)| && a < b < |Precedents(rows)[i].consequenceRefs|
    ensures Precedents(rows)[i].consequenceRefs[a].consequenceId != Precedents(rows)[i].consequenceRefs[b].consequenceId
  {
    hide Inv, SortedKeys, Filter, Gather, Joined, Reachable;
    ReachableKept(w);
    KeptTables(w);
    var k := SortedKeys(rows)[i];
    GroupOccupied(rows, k);
    var group := Filter(InGroup(k), rows);
    FilterMembers(InGroup(k), rows);
    FilterDistinct(Whole, InGroup(k), rows);
    DistinctRefs(w.tables, cs, current, group, a, b);
  }

  function Whole(w: JoinRow): JoinRow { w }

  lemma {:induction false} DistinctRefs(t: Tables, cs: seq<Candidate>, current: string, group: seq<JoinRow>, a: nat, b: nat)
    requires ExecutionRows(t) && Genealogy(t) && DecisionRows(t) && ReportRows(t) && CandidatesOf(t, cs)
    requires (forall v | v in group :: Joined(t, cs, current, v)) && Distinct(Whole, group)
    requires a < b < |Gather(RefsOf, group)|
    ensures Gather(RefsOf, group)[a].consequenceId != Gather(RefsOf, group)[b].consequenceId
  {
    hide ExecutionRows, Genealogy, DecisionRows, ReportRows, CandidatesOf, Joined;
    var n := |group|;
    var front, last := group[..n - 1], group[n - 1];
    if b < |Gather(RefsOf, front)| {
      DistinctRefs(t, cs, current, front, a, b);
    } else {
      GatherMembers(RefsOf, front);
      assert Gather(RefsOf, front)[a] in Gather(RefsOf, front);
      var v :| v in front && Gather(RefsOf, front)[a] in RefsOf(v);
      assert v in group && last in group;
      var m :| 0 <= m < n - 1 && front[m] == v;
      assert Whole(group[m]) != Whole(group[n - 1]);
      if RefOf(v).consequenceId == RefOf(last).consequenceId { SameReportSameRow(t, cs, current, v, last); }
    }
  }

  lemma SameReportSameRow(t: Tables, cs: seq<Candidate>, current: string, v: JoinRow, w: JoinRow)
    requires ExecutionRows(t) && Genealogy(t) && DecisionRows(t) && ReportRows(t) && CandidatesOf(t, cs)
    requires Joined(t, cs, current, v) && Joined(t, cs, current, w) && HasReport(v) && HasReport(w)
    requires v.report.value.consequenceId == w.report.value.consequenceId
    ensures v == w
  {
    hide ExecutionRows, Genealogy, DecisionRows, CandidatesOf, EvaluationJoined, DecisionJoined, ReportStored;
    SameReportSameKey(t, cs, current, v, w);
    SameGroup(t, cs, current, v, w);
    DistinctRows(ReportRowId, t.reports, v.report.value, w.report.value);
    EffectsUnique(t);
    DistinctRows(ReceiptRowId, t.receipts, v.receipt.value, w.receipt.value);
  }

  /** Precedents taken from a sound ledger never stop the gate with an invalid consequence. */
  lemma NeverInvalidConsequence(s: EvaluationSnapshot, config: RuleConfig)
    requires Thresholds(config) && forall p | p in s.precedents :: PrecedentSound(p)
    ensures FactStop(CanonicalSnapshot(s), config) != Some(InvalidConsequence)
  {
    hide CanonicalSnapshot, Approved, Reports, GovernsAs, PrecedentAccepted, CanonicalPrecedent, DuplicateCapability;
    var c := CanonicalSnapshot(s);
    ReportMembers(c, config);
    CanonicalGoverns(s);
    forall r | r in Reports(Approved(c, config)) ensures ReportBound(config, r) {
      var x :| GovernsAs(s, x, Approve) && r.0 == CanonicalPrecedent(x);
      CanonicalPrecedentKeeps(x);
      GovernsMember(s, x);
    }
  }

  lemma GovernsMember(s: EvaluationSnapshot, x: PrecedentRef)
    requires GovernsAs(s, x, Approve)
    ensures x in s.precedents
  {}
}
