/** The lists of a finalized answer, told from the snapshot as it was given. */
module GateAnswers {
  import opened Canonical
  import opened Changes
  import opened Gate
  import opened GateProperties
  import opened GateRules
  import opened GateTrace
  import opened GateVerdict
  import opened Json
  import opened Models
  import opened Ordering
  import opened Sequences

  // ----- what gathering keeps

  lemma {:induction false} GatherGather<T, U, V>(f: U -> seq<V>, g: T -> seq<U>, h: T -> seq<V>, s: seq<T>)
    requires forall x :: h(x) == Gather(f, g(x))
    ensures Gather(f, Gather(g, s)) == Gather(h, s)
  {
    if s != [] {
      GatherGather(f, g, h, s[..|s| - 1]);
      GatherConcat(f, Gather(g, s[..|s| - 1]), g(s[|s| - 1]));
    }
  }

  lemma {:induction false} GatherFiltered<T, U>(p: T -> bool, g: T -> seq<U>, h: T -> seq<U>, s: seq<T>)
    requires forall x :: h(x) == if p(x) then g(x) else []
    ensures Gather(g, Filter(p, s)) == Gather(h, s)
  {
    if s != [] {
      var front, last := s[..|s| - 1], s[|s| - 1];
      GatherFiltered(p, g, h, front);
      if p(last) {
        GatherConcat(g, Filter(p, front), [last]);
        GatherOne(g, last);
      } else {
        assert Filter(p, s) == Filter(p, front);
      }
    }
  }

  lemma GatherOne<T, U>(g: T -> seq<U>, x: T)
    ensures Gather(g, [x]) == g(x)
  {
    assert [x][..0] == [];
  }

  lemma {:induction false} GatherEach<T, U, V>(f: U -> seq<V>, k: T -> U, h: T -> seq<V>, s: seq<T>)
    requires forall x :: h(x) == f(k(x))
    ensures Gather(f, Each(k, s)) == Gather(h, s)
  {
    if s != [] {
      var n := |s| - 1;
      GatherEach(f, k, h, s[..n]);
      assert Each(k, s)[..n] == Each(k, s[..n]);
    }
  }

  lemma {:induction false} SameContents<T, U>(f: T -> seq<U>, g: T -> seq<U>, s: seq<T>)
    requires forall x :: multiset(f(x)) == multiset(g(x))
    ensures multiset(Gather(f, s)) == multiset(Gather(g, s))
  {
    if s != [] { SameContents(f, g, s[..|s| - 1]); }
  }

  lemma {:induction false} GatherWithout<T, U>(f: T -> seq<U>, s: seq<T>, j: nat)
    requires j < |s|
    ensures multiset(Gather(f, s)) == multiset(Gather(f, s[..j] + s[j + 1..])) + multiset(f(s[j]))
  {
    var n := |s| - 1;
    if j < n {
      GatherWithout(f, s[..n], j);
      var t := s[..j] + s[j + 1..];
      assert t[..|t| - 1] == s[..n][..j] + s[..n][j + 1..];
      assert t[|t| - 1] == s[n];
    } else {
      assert s[..j] + s[j + 1..] == s[..n];
    }
  }

  lemma TakeOut<T>(a: multiset<T>, b: multiset<T>, x: T)
    requires a + multiset{x} == b + multiset{x}
    ensures a == b
  {
    assert a == a + multiset{x} - multiset{x} && b == b + multiset{x} - multiset{x};
  }

  /** What is gathered depends on the rows, not on their order. */
  lemma {:induction false} GatherRearranged<T, U>(f: T -> seq<U>, a: seq<T>, b: seq<T>)
    requires multiset(a) == multiset(b)
    ensures multiset(Gather(f, a)) == multiset(Gather(f, b))
    decreases |a|
  {
    if a == [] {
      assert |multiset(b)| == 0;
    } else {
      var n := |a| - 1;
      assert a == a[..n] + [a[n]];
      assert a[n] in multiset(b);
      var j :| 0 <= j < |b| && b[j] == a[n];
      var rest := b[..j] + b[j + 1..];
      assert b == b[..j] + [b[j]] + b[j + 1..];
      assert multiset(b) == multiset(rest) + multiset{a[n]};
      assert multiset(a) == multiset(a[..n]) + multiset{a[n]};
      TakeOut(multiset(a[..n]), multiset(rest), a[n]);
      GatherRearranged(f, a[..n], rest);
      GatherWithout(f, b, j);
    }
  }

  // ----- the warnings

  /** The identities of the consequences that diverged by at least one half. */
  function HighIds(cs: seq<ConsequenceRef>): seq<string> {
    if cs == [] then []
    else HighIds(cs[..|cs| - 1]) + if cs[|cs| - 1].divergence >= 0.5 then [cs[|cs| - 1].consequenceId] else []
  }

  /** The precedent is near, of exactly this action on exactly this target, and was approved. */
  predicate ApprovedAlike(p: Proposal, x: PrecedentRef) {
    && x.similarity.Some? && x.similarity.value >= 0.85
    && x.actionTypeKey == p.actionTypeKey && x.targetKey == p.targetKey && x.decision == Some(Approve)
  }

  function HighIdsOf(p: Proposal): PrecedentRef -> seq<string> {
    (x: PrecedentRef) => if ApprovedAlike(p, x) then HighIds(x.consequenceRefs) else []
  }

  function HighWarning(c: ConsequenceRef): seq<string> { if c.divergence >= 0.5 then [c.consequenceId] else [] }

  lemma {:induction false} HighIdsGather(cs: seq<ConsequenceRef>)
    ensures HighIds(cs) == Gather(HighWarning, cs)
  {
    if cs != [] { HighIdsGather(cs[..|cs| - 1]); }
  }

  lemma WarningsOfOne(config: RuleConfig, x: PrecedentRef)
    requires Thresholds(config)
    ensures Gather(WarningsOf(config), ReportsOf(x)) == HighIds(x.consequenceRefs)
  {
    HighIdsGather(x.consequenceRefs);
    GatherEach(WarningsOf(config), ReportOf(x), HighWarning, x.consequenceRefs);
  }

  function IdsOf(x: PrecedentRef): seq<string> { HighIds(x.consequenceRefs) }

  function IfApproved(x: PrecedentRef): seq<string> { if IsApproved(x) then IdsOf(x) else [] }

  function IfSame(p: Proposal): PrecedentRef -> seq<string> { (x: PrecedentRef) => if IsSame(p)(x) then IfApproved(x) else [] }

  lemma WarningContents(s: EvaluationSnapshot, config: RuleConfig)
    requires Thresholds(config)
    ensures multiset(Warnings(config, Approved(s, config))) == multiset(Gather(HighIdsOf(s.proposal), s.precedents))
  {
    hide Sort, Gather, Filter, HighIds, Each;
    var app := Approved(s, config);
    SortFacts(ReportKey, Gather(ReportsOf, app));
    GatherRearranged(WarningsOf(config), Reports(app), Gather(ReportsOf, app));
    forall x ensures IdsOf(x) == Gather(WarningsOf(config), ReportsOf(x)) { WarningsOfOne(config, x); }
    GatherGather(WarningsOf(config), ReportsOf, IdsOf, app);
    GatherFiltered(IsApproved, IdsOf, IfApproved, Qualifying(s, config));
    GatherFiltered(IsSame(s.proposal), IfApproved, IfSame(s.proposal), NearOnes(s, config));
    GatherFiltered(IsNear(config), IfSame(s.proposal), HighIdsOf(s.proposal), SortedPrecedents(s));
    SortFacts(PrecedentKey, s.precedents);
    GatherRearranged(HighIdsOf(s.proposal), SortedPrecedents(s), s.precedents);
  }

  function Canonically(p: Proposal): PrecedentRef -> seq<string> { (x: PrecedentRef) => HighIdsOf(p)(CanonicalPrecedent(x)) }

  lemma CanonicalIds(p: Proposal, x: PrecedentRef)
    ensures multiset(Canonically(p)(x)) == multiset(HighIdsOf(p)(x))
  {
    hide Sort;
    var y := CanonicalPrecedent(x);
    assert ApprovedAlike(p, y) <==> ApprovedAlike(p, x);
    SortFacts(ConsequenceKey, x.consequenceRefs);
    HighIdsGather(x.consequenceRefs);
    HighIdsGather(y.consequenceRefs);
    GatherRearranged(HighWarning, y.consequenceRefs, x.consequenceRefs);
  }

  lemma SameWarnings(s: EvaluationSnapshot)
    ensures var c := CanonicalSnapshot(s);
      multiset(Gather(HighIdsOf(c.proposal), c.precedents)) == multiset(Gather(HighIdsOf(s.proposal), s.precedents))
  {
    hide Sort, CanonicalRules, CanonicalPrecedent, Gather, Each;
    var c := CanonicalSnapshot(s);
    var p := s.proposal;
    var sorted := Sort(PrecedentKey, s.precedents);
    forall x ensures HighIdsOf(c.proposal)(x) == HighIdsOf(p)(x) {}
    GatherEach(HighIdsOf(c.proposal), CanonicalPrecedent, Canonically(p), sorted);
    forall x ensures multiset(Canonically(p)(x)) == multiset(HighIdsOf(p)(x)) { CanonicalIds(p, x); }
    SameContents(Canonically(p), HighIdsOf(p), sorted);
    SortFacts(PrecedentKey, s.precedents);
    GatherRearranged(HighIdsOf(p), sorted, s.precedents);
  }

  lemma FinishedLists(c: EvaluationSnapshot, config: RuleConfig, f: Findings, red: Reduction, r: CheckResult)
    requires FinishedAs(c, config, f, red, r)
    ensures r.consequenceWarningRefs == Sort(TextKey, Warnings(config, Approved(c, config)))
    ensures r.precedentRefs == Each(ProposalId, SortedPrecedents(c)) && r.dependencies == SortedDependencies(c)
  {
    hide AllFindings, FactStop, ConfigAccepted, Thresholds, Reduce, FullTrace, SortedDependencies, SortedPrecedents, Warnings, ChangedRules;
  }

  /** The warnings of a finalized answer, in order of their text, are the identities of exactly the
      consequences that diverged by at least one half under an approved precedent of the same
      action on the same target that is near enough, each as often as it stands there. */
  lemma WarningsExactly(normalize: Normalizer, s: EvaluationSnapshot, config: RuleConfig)
    requires Evaluation(normalize, s, config).Finalized?
    ensures var ws := Evaluation(normalize, s, config).result.consequenceWarningRefs;
      && (forall i, j | 0 <= i < j < |ws| :: !TextLess(ws[j], ws[i]))
      && multiset(ws) == multiset(Gather(HighIdsOf(s.proposal), s.precedents))
  {
    hide Evaluation, FinishedAs, CanonicalSnapshot, InputStop, Sort, Gather, Warnings, TextLess, KeyLess, Approved;
    var c, f, red := Finished(normalize, s, config);
    var r := Evaluation(normalize, s, config).result;
    FinishedConfig(c, config, f, red, r);
    FinishedLists(c, config, f, red, r);
    WarningContents(c, config);
    SameWarnings(s);
    var ws := Warnings(config, Approved(c, config));
    SortFacts(TextKey, ws);
    forall i, j | 0 <= i < j < |Sort(TextKey, ws)| ensures !TextLess(Sort(TextKey, ws)[j], Sort(TextKey, ws)[i]) {
      KeyOfOne(Sort(TextKey, ws)[j], Sort(TextKey, ws)[i]);
    }
  }

  /** The precedents named and the dependencies carried are those of the snapshot, sorted. */
  lemma ListsExactly(normalize: Normalizer, s: EvaluationSnapshot, config: RuleConfig)
    requires Evaluation(normalize, s, config).Finalized?
    ensures var (r, xs) := (Evaluation(normalize, s, config).result, Sort(PrecedentKey, s.precedents));
      && |r.precedentRefs| == |xs| && (forall i | 0 <= i < |xs| :: r.precedentRefs[i] == xs[i].proposalId)
      && r.dependencies == Sort(DependencyKey, s.dependencies)
  {
    hide Evaluation, FinishedAs, InputStop, Sort, CanonicalRules, CanonicalProposal;
    var c, f, red := Finished(normalize, s, config);
    var r := Evaluation(normalize, s, config).result;
    FinishedLists(c, config, f, red, r);
    SortIsIdempotent(DependencyKey, s.dependencies);
    SortIsIdempotent(PrecedentKey, s.precedents);
    KeysKept();
    SortEach(PrecedentKey, CanonicalPrecedent, Sort(PrecedentKey, s.precedents));
  }
}
