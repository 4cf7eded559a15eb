/** How many precedents the search returns, and when they are too many for the gate. */
module LedgerLimit {
  import opened Canonical
  import opened Gate
  import opened GateExamples
  import opened Json
  import opened LedgerEvaluations
  import opened LedgerPrecedents
  import opened LedgerRuns
  import opened LedgerTables
  import opened Models
  import opened Ordering
  import opened Sequences
  import opened Traces

  // ----- one precedent for each candidate and finalized evaluation

  /** The candidates with their finalized evaluations, except for the current one. */
  ghost predicate PairJoined(t: Tables, cs: seq<Candidate>, current: string, c: Candidate, e: EvaluationRow) {
    && c in cs && e in t.evaluations && e.outcome.Finalized?
    && e.proposalId == c.proposal.proposalId && e.Id() != current
  }

  ghost function Pairs(t: Tables, cs: seq<Candidate>, current: string): set<GroupKey> {
    set c, e | c in cs && e in t.evaluations && PairJoined(t, cs, current, c, e) :: (c.proposal.proposalId, e.Id())
  }

  /** The left joins keep every pair. */
  lemma PairHasRow(t: Tables, cs: seq<Candidate>, current: string, c: Candidate, e: EvaluationRow) returns (w: JoinRow)
    requires PairJoined(t, cs, current, c, e)
    ensures Joined(t, cs, current, w) && w.candidate == c && w.evaluation == e
  {
    w := JoinRow(c, e, None, None, None);
    if d :| d in t.decisions && d.evaluationId == e.Id() {
      w := w.(decision := Some(d));
      if r :| r in t.receipts && r.authority.decisionId == d.decisionId {
        w := w.(receipt := Some(r));
        if x :| x in t.reports && x.receiptId == r.receiptId { w := w.(report := Some(x)); }
      }
    }
  }

  lemma {:induction false} DistinctCount<T>(s: seq<T>)
    requires forall i, j | 0 <= i < j < |s| :: s[i] != s[j]
    ensures |set x | x in s| == |s|
  {
    if s != [] {
      var front := s[..|s| - 1];
      DistinctCount(front);
      assert s == front + [s[|s| - 1]];
      assert (set x | x in s) == (set x | x in front) + {s[|s| - 1]};
    }
  }

  /** The search returns exactly one precedent for each pair. */
  lemma PrecedentCount(t: Tables, cs: seq<Candidate>, current: string, rows: seq<JoinRow>)
    requires JoinAnswer(t, cs, current, rows)
    ensures |Precedents(rows)| == |Pairs(t, cs, current)|
  {
    hide DecisionJoined, ReceiptJoined, ReportJoined;
    KeysMembers(rows);
    DistinctCount(KeysOf(rows));
    forall k: GroupKey ensures k in KeysOf(rows) <==> k in Pairs(t, cs, current) {
      if k in KeysOf(rows) {
        var w :| w in rows && KeyOf(w) == k;
        assert PairJoined(t, cs, current, w.candidate, w.evaluation);
      }
      if k in Pairs(t, cs, current) {
        var c, e :| c in cs && e in t.evaluations && PairJoined(t, cs, current, c, e) && k == (c.proposal.proposalId, e.Id());
        var w := PairHasRow(t, cs, current, c, e);
        assert w in rows && KeyOf(w) == k;
      }
    }
    assert (set k | k in KeysOf(rows)) == Pairs(t, cs, current);
  }

  /** A snapshot that takes what the search returns is blocked for too many precedents exactly
      when it is in order so far and the join has more than five pairs. */
  lemma RetrievalOverLimitExactly(t: Tables, cs: seq<Candidate>, current: string, rows: seq<JoinRow>,
                                  normalize: Normalizer, s: EvaluationSnapshot, config: RuleConfig)
    requires JoinAnswer(t, cs, current, rows) && s.precedents == Precedents(rows)
    ensures TooMany(normalize, s, config) <==> Admitted(normalize, s, config) && |Pairs(t, cs, current)| > 5
  {
    hide TooMany, Admitted, JoinAnswer, Pairs, Precedents;
    PrecedentCount(t, cs, current, rows);
    LimitExactly(normalize, s, config);
  }

  // ----- a proposal evaluated more than five times

  ghost function RowsJoined(ids: Names, n: nat, c: Candidate): seq<JoinRow> {
    seq(n, i requires 0 <= i < n => JoinRow(c, RowOf(ids, i), None, None, None))
  }

  ghost function Joining(ids: Names, n: nat, similarity: real): seq<JoinRow> { RowsJoined(ids, n, Candidate(Ask(), similarity)) }

  lemma RowIdentity(ids: Names, i: nat, n: nat)
    requires i < n && Fresh(ids, n)
    ensures RowOf(ids, i).Id() == ids(i) && RowOf(ids, i).outcome.Finalized? && RowOf(ids, i).proposalId == Named()
  {
    hide OutcomeAt;
    OutcomeFields(ids, i);
  }

  /** The answer of the join to a search that finds the proposal alone. */
  lemma OftenJoined(ids: Names, n: nat, similarity: real, current: string)
    requires Fresh(ids, n) && forall i | 0 <= i < n :: ids(i) != current
    ensures var c := Candidate(Ask(), similarity);
      JoinAnswer(Evaluated(ids, n), [c], current, RowsJoined(ids, n, c))
  {
    hide RowOf, Ask, Fresh;
    var (c, t) := (Candidate(Ask(), similarity), Evaluated(ids, n));
    var rows := RowsJoined(ids, n, c);
    AskNamed();
    forall i | 0 <= i < n ensures RowOf(ids, i).Id() == ids(i) && RowOf(ids, i).outcome.Finalized? && RowOf(ids, i).proposalId == Named() {
      RowIdentity(ids, i, n);
    }
    forall w ensures w in rows <==> Joined(t, [c], current, w) {
      if w in rows {
        var i :| 0 <= i < n && rows[i] == w;
        assert t.evaluations[i] == w.evaluation;
      }
      if Joined(t, [c], current, w) {
        var i :| 0 <= i < |t.evaluations| && t.evaluations[i] == w.evaluation;
        assert rows[i] == w;
      }
    }
    forall i, j | 0 <= i < j < |rows| ensures rows[i] != rows[j] { DistinctNames(ids, n, i, j); }
  }

  lemma AskNamed()
    ensures Ask().proposalId == Named()
  {
    SampleDigests(JsonText.PlainJson(Document()), []);
  }

  lemma DistinctNames(ids: Names, n: nat, i: nat, j: nat)
    requires Fresh(ids, n) && i < j < n
    ensures ids(i) != ids(j)
  {}

  lemma OftenPairs(ids: Names, n: nat, similarity: real, current: string)
    requires Fresh(ids, n) && forall i | 0 <= i < n :: ids(i) != current
    ensures |Precedents(RowsJoined(ids, n, Candidate(Ask(), similarity)))| == n
  {
    hide RowOf, Ask, Fresh;
    var rows := RowsJoined(ids, n, Candidate(Ask(), similarity));
    forall i | 0 <= i < n ensures KeyOf(rows[i]) == (Ask().proposalId, ids(i)) { RowIdentity(ids, i, n); }
    forall i, j | 0 <= i < j < |rows| ensures KeyOf(rows[i]) != KeyOf(rows[j]) { DistinctNames(ids, n, i, j); }
    DistinctKeysOf(rows);
  }

  lemma {:induction false} DistinctKeysOf(rows: seq<JoinRow>)
    requires forall i, j | 0 <= i < j < |rows| :: KeyOf(rows[i]) != KeyOf(rows[j])
    ensures |KeysOf(rows)| == |rows|
  {
    if rows != [] {
      var front := rows[..|rows| - 1];
      DistinctKeysOf(front);
      KeysMembers(front);
    }
  }

  /** The next evaluation of the proposal, which retrieves the earlier ones. */
  ghost function Retrieving(ids: Names, n: nat, ps: seq<PrecedentRef>): EvaluationSnapshot {
    var s := SnapshotAt(ids, n).(precedents := ps);
    s.(snapshotDigest := SnapshotDigest(CanonicalSnapshot(s)))
  }

  lemma CanonicalAccepted(p: PrecedentRef)
    requires PrecedentAccepted(p)
    ensures PrecedentAccepted(CanonicalPrecedent(p))
  {
    hide Sort;
    SortMembers(ConsequenceKey, p.consequenceRefs);
  }

  lemma CanonicalRetrieving(x: EvaluationSnapshot, ps: seq<PrecedentRef>)
    requires CanonicalSnapshot(x) == x
    ensures var s := x.(precedents := ps);
      var c := CanonicalSnapshot(s.(snapshotDigest := SnapshotDigest(CanonicalSnapshot(s))));
      && c == x.(precedents := Each(CanonicalPrecedent, Sort(PrecedentKey, ps)), snapshotDigest := c.snapshotDigest)
      && c.snapshotDigest == SnapshotDigest(c)
  {
    hide Sort, CanonicalRules, CanonicalProposal;
  }

  lemma PrecedentsAccepted(ps: seq<PrecedentRef>)
    requires forall p | p in ps :: PrecedentAccepted(p)
    ensures forall p | p in Each(CanonicalPrecedent, Sort(PrecedentKey, ps)) :: PrecedentAccepted(p)
  {
    hide Sort, CanonicalPrecedent, PrecedentAccepted;
    SortMembers(PrecedentKey, ps);
    EachMembers(CanonicalPrecedent, Sort(PrecedentKey, ps));
    forall p | p in ps ensures PrecedentAccepted(CanonicalPrecedent(p)) { CanonicalAccepted(p); }
  }

  lemma WithPrecedents(x: EvaluationSnapshot, c: EvaluationSnapshot)
    requires SnapshotAccepted(x) && c == x.(precedents := c.precedents, snapshotDigest := c.snapshotDigest)
    requires c.snapshotDigest == SnapshotDigest(c) && forall p | p in c.precedents :: PrecedentAccepted(p)
    ensures SnapshotAccepted(c)
  {
    hide PriorAccepted, PrecedentAccepted, SnapshotDigest;
  }

  lemma RetrievingAdmitted(ids: Names, n: nat, ps: seq<PrecedentRef>)
    requires Fresh(ids, n + 1) && forall p | p in ps :: PrecedentAccepted(p)
    ensures Admitted(Keys, Retrieving(ids, n, ps), CONFIG)
  {
    hide Sample, SampleSnapshot, SamplePolicy, Short, Usable, SnapshotAccepted, CanonicalSnapshot, ProposalStop, PolicyDigest, SnapshotDigest,
      JsonText.PlainJson, Before, Fresh, PrecedentAccepted, Named;
    var text := JsonText.PlainJson(Document());
    var x, s := SnapshotAt(ids, n), Retrieving(ids, n, ps);
    NotBlank(ids, n);
    OutcomeIsValid(ids, n);
    ShortSample(text, [], []);
    SampleCanonical(Ask(), [], ids(n), Before(ids, n));
    SampleAccepted(text, [], [], ids(n), Before(ids, n));
    SampleParts(Ask(), [], ids(n), Before(ids, n));
    SampleKeys(text, []);
    PolicySealed([]);
    PinnedConfig();
    CanonicalRetrieving(x, ps);
    PrecedentsAccepted(ps);
    WithPrecedents(x, CanonicalSnapshot(s));
  }

  lemma NotBlank(ids: Names, n: nat)
    requires Fresh(ids, n + 1)
    ensures ids(n) != "" && Fresh(ids, n) && forall i | 0 <= i < n :: ids(i) != ids(n)
  {}

  /** The ledger is reachable. */
  lemma EvaluatedIsReachable(ids: Names, n: nat)
    requires Fresh(ids, n)
    ensures Reachable(World(Evaluated(ids, n), map[], map[]))
  {
    hide Run, Fresh, Evaluating, Evaluated, Reachable;
    EvaluatedRun(ids, n);
    ReachedBy(World(Evaluated(ids, n), map[], map[]), Evaluating(ids, n));
  }

  /** In the reachable ledger with n evaluations of one proposal the search that finds it alone
      returns n precedents, all of them valid. */
  lemma OftenRetrieved(ids: Names, n: nat, similarity: real, current: string)
    requires n > 0 && Fresh(ids, n) && forall i | 0 <= i < n :: ids(i) != current
    ensures JoinAnswer(Evaluated(ids, n), [Candidate(Ask(), similarity)], current, Joining(ids, n, similarity))
    ensures |Precedents(Joining(ids, n, similarity))| == n
    ensures forall p | p in Precedents(Joining(ids, n, similarity)) :: PrecedentAccepted(p)
  {
    hide JoinAnswer, Precedents, RowsJoined, Fresh, Ask, Run, Evaluating, Reachable, PrecedentSound, CandidatesOf, PrecedentAccepted;
    EvaluatedIsReachable(ids, n);
    var c := Candidate(Ask(), similarity);
    var rows := Joining(ids, n, similarity);
    OftenJoined(ids, n, similarity, current);
    OftenPairs(ids, n, similarity, current);
    AskIsCandidate(ids, n, c);
    PrecedentsSound(World(Evaluated(ids, n), map[], map[]), [c], current, rows);
    forall p | p in Precedents(rows) ensures PrecedentAccepted(p) { SoundIsAccepted(p); }
  }

  /** A proposal with more than five evaluations blocks its next one: the snapshot that takes over
      what the search returns, with the latest evaluation as its prior and in order otherwise, is
      not evaluated. */
  lemma OftenEvaluatedIsBlocked(ids: Names, n: nat, similarity: real)
    requires n > 5 && Fresh(ids, n + 1)
    ensures TooMany(Keys, Retrieving(ids, n, Precedents(Joining(ids, n, similarity))), CONFIG)
  {
    hide TooMany, Admitted, JoinAnswer, Precedents, Joining, Fresh, Ask, Run, Evaluating, SnapshotAt, PrecedentAccepted;
    NotBlank(ids, n);
    OftenRetrieved(ids, n, similarity, ids(n));
    RetrievingAdmitted(ids, n, Precedents(Joining(ids, n, similarity)));
    LimitExactly(Keys, Retrieving(ids, n, Precedents(Joining(ids, n, similarity))), CONFIG);
  }

  lemma SoundIsAccepted(p: PrecedentRef)
    requires PrecedentSound(p)
    ensures PrecedentAccepted(p)
  {}

  lemma AskIsCandidate(ids: Names, n: nat, c: Candidate)
    requires n > 0 && c.proposal == Ask()
    ensures CandidatesOf(Evaluated(ids, n), [c])
  {
    hide Ask;
  }
}
