/** The canonical form of an evaluation snapshot: every unordered collection sorted. */
module Canonical {
  import opened Models
  import opened Ordering
  import opened Sequences

  function RefKey(e: EvidenceRef): Key { [e.refId] }
  function RequirementKey(r: EvidenceRequirement): Key { [r.requirementId] }
  function DependencyKey(d: DependencyRef): Key { [d.dependencyId] }
  function RuleKey(r: PolicyRule): Key { [r.ruleId] }
  function ConsequenceKey(c: ConsequenceRef): Key { [c.receiptId, c.consequenceId] }
  function PrecedentKey(p: PrecedentRef): Key { [p.proposalId, p.evaluationId] }
  function ExclusionKey(e: ExclusionRef): Key { [e.actionTypeKey, e.targetKey, e.exclusionId] }
  function CapabilityKey(c: CapabilityFact): Key { [c.capabilityId] }

  function Members(s: seq<string>): set<string> { set x | x in s }

  function CanonicalRule(r: PolicyRule): PolicyRule {
    r.(requiredEvidence := Sort(RequirementKey, r.requiredEvidence),
       requiredCapabilityIds := Listing(Members(r.requiredCapabilityIds)))
  }

  function CanonicalRules(rules: seq<PolicyRule>): seq<PolicyRule> {
    Each(CanonicalRule, Sort(RuleKey, rules))
  }

  function CanonicalPrecedent(p: PrecedentRef): PrecedentRef {
    p.(consequenceRefs := Sort(ConsequenceKey, p.consequenceRefs))
  }

  function CanonicalProposal(p: Proposal): Proposal {
    p.(evidenceRefs := Sort(RefKey, p.evidenceRefs), dependencies := Sort(DependencyKey, p.dependencies))
  }

  function CanonicalSnapshot(s: EvaluationSnapshot): EvaluationSnapshot {
    s.(proposal := CanonicalProposal(s.proposal),
       policy := s.policy.(rules := CanonicalRules(s.policy.rules)),
       precedents := Each(CanonicalPrecedent, Sort(PrecedentKey, s.precedents)),
       exclusions := Sort(ExclusionKey, s.exclusions),
       capabilities := Sort(CapabilityKey, s.capabilities),
       dependencies := Sort(DependencyKey, s.dependencies))
  }

  // ----- idempotence

  lemma ListingTwice(s: set<string>)
    ensures Members(Listing(s)) == s
  {}

  lemma CanonicalRuleTwice(r: PolicyRule)
    ensures CanonicalRule(CanonicalRule(r)) == CanonicalRule(r)
  {
    SortIsIdempotent(RequirementKey, r.requiredEvidence);
    ListingTwice(Members(r.requiredCapabilityIds));
  }

  lemma CanonicalRulesTwice(rules: seq<PolicyRule>)
    ensures CanonicalRules(CanonicalRules(rules)) == CanonicalRules(rules)
  {
    hide Sort, CanonicalRule;
    var sorted := Sort(RuleKey, rules);
    forall r ensures RuleKey(CanonicalRule(r)) == RuleKey(r) { RuleKeyKept(r); }
    SortEach(RuleKey, CanonicalRule, sorted);
    SortIsIdempotent(RuleKey, rules);
    forall i | 0 <= i < |sorted| ensures CanonicalRule(CanonicalRule(sorted[i])) == CanonicalRule(sorted[i]) {
      CanonicalRuleTwice(sorted[i]);
    }
  }

  lemma RuleKeyKept(r: PolicyRule)
    ensures RuleKey(CanonicalRule(r)) == RuleKey(r)
  {}

  lemma CanonicalPrecedentsTwice(ps: seq<PrecedentRef>)
    ensures var c := Each(CanonicalPrecedent, Sort(PrecedentKey, ps));
      Each(CanonicalPrecedent, Sort(PrecedentKey, c)) == c
  {
    hide Sort;
    var sorted := Sort(PrecedentKey, ps);
    forall p ensures PrecedentKey(CanonicalPrecedent(p)) == PrecedentKey(p) {}
    SortEach(PrecedentKey, CanonicalPrecedent, sorted);
    SortIsIdempotent(PrecedentKey, ps);
    forall i | 0 <= i < |sorted|
      ensures CanonicalPrecedent(CanonicalPrecedent(sorted[i])) == CanonicalPrecedent(sorted[i])
    {
      SortIsIdempotent(ConsequenceKey, sorted[i].consequenceRefs);
    }
  }

  /** Canonicalizing twice is canonicalizing once. */
  lemma CanonicalIsIdempotent(s: EvaluationSnapshot)
    ensures CanonicalSnapshot(CanonicalSnapshot(s)) == CanonicalSnapshot(s)
  {
    hide Sort, CanonicalRules, CanonicalPrecedent;
    SortIsIdempotent(RefKey, s.proposal.evidenceRefs);
    SortIsIdempotent(DependencyKey, s.proposal.dependencies);
    SortIsIdempotent(ExclusionKey, s.exclusions);
    SortIsIdempotent(CapabilityKey, s.capabilities);
    SortIsIdempotent(DependencyKey, s.dependencies);
    CanonicalRulesTwice(s.policy.rules);
    CanonicalPrecedentsTwice(s.precedents);
  }

  // ----- independence of the order

  /** The same rows in some order, with pairwise distinct sort keys. */
  ghost predicate Shuffled<T>(key: T -> Key, a: seq<T>, b: seq<T>) {
    multiset(a) == multiset(b) && DistinctKeys(key, a)
  }

  /** The same rows in some order, each with its own nested lists in some order. */
  ghost predicate Regrouped<T(!new)>(key: T -> Key, inner: T -> T, a: seq<T>, b: seq<T>) {
    Shuffled(key, Each(inner, a), Each(inner, b))
  }

  /** Equal except for the rows that canonicalization sorts. */
  predicate SameFrame(a: EvaluationSnapshot, b: EvaluationSnapshot) {
    b == a.(
      proposal := a.proposal.(evidenceRefs := b.proposal.evidenceRefs, dependencies := b.proposal.dependencies),
      policy := a.policy.(rules := b.policy.rules),
      precedents := b.precedents, exclusions := b.exclusions,
      capabilities := b.capabilities, dependencies := b.dependencies)
  }

  /** Snapshots that differ only in the order of rows that canonicalization sorts. */
  ghost predicate Rearranged(a: EvaluationSnapshot, b: EvaluationSnapshot) {
    && Shuffled(RefKey, a.proposal.evidenceRefs, b.proposal.evidenceRefs)
    && Shuffled(DependencyKey, a.proposal.dependencies, b.proposal.dependencies)
    && Shuffled(ExclusionKey, a.exclusions, b.exclusions)
    && Shuffled(CapabilityKey, a.capabilities, b.capabilities)
    && Shuffled(DependencyKey, a.dependencies, b.dependencies)
    && Regrouped(RuleKey, CanonicalRule, a.policy.rules, b.policy.rules)
    && Regrouped(PrecedentKey, CanonicalPrecedent, a.precedents, b.precedents)
    && SameFrame(a, b)
  }

  lemma RegroupedSortsAlike<T(!new)>(key: T -> Key, inner: T -> T, a: seq<T>, b: seq<T>)
    requires Regrouped(key, inner, a, b) && forall y :: key(inner(y)) == key(y)
    ensures Each(inner, Sort(key, a)) == Each(inner, Sort(key, b))
  {
    SortEach(key, inner, a);
    SortEach(key, inner, b);
    RearrangementSortsAlike(key, Each(inner, a), Each(inner, b));
  }

  /** The same rule with its requirements reordered and its capability list reordered or repeating itself. */
  ghost predicate ReorderedRule(r: PolicyRule, q: PolicyRule) {
    && Shuffled(RequirementKey, r.requiredEvidence, q.requiredEvidence)
    && Members(r.requiredCapabilityIds) == Members(q.requiredCapabilityIds)
    && q == r.(requiredEvidence := q.requiredEvidence, requiredCapabilityIds := q.requiredCapabilityIds)
  }

  ghost predicate ReorderedPrecedent(p: PrecedentRef, q: PrecedentRef) {
    Shuffled(ConsequenceKey, p.consequenceRefs, q.consequenceRefs) && q == p.(consequenceRefs := q.consequenceRefs)
  }

  /** Reordered inside, row by row, and then as rows. */
  ghost predicate ReorderedPolicy(a: seq<PolicyRule>, b: seq<PolicyRule>) {
    exists mid: seq<PolicyRule> ::
      |mid| == |a| && (forall i | 0 <= i < |a| :: ReorderedRule(a[i], mid[i])) && Shuffled(RuleKey, mid, b)
  }

  ghost predicate ReorderedPrecedents(a: seq<PrecedentRef>, b: seq<PrecedentRef>) {
    exists mid: seq<PrecedentRef> ::
      |mid| == |a| && (forall i | 0 <= i < |a| :: ReorderedPrecedent(a[i], mid[i])) && Shuffled(PrecedentKey, mid, b)
  }

  lemma InnerOrderOfRule(r: PolicyRule, q: PolicyRule)
    requires ReorderedRule(r, q)
    ensures CanonicalRule(r) == CanonicalRule(q)
  {
    RearrangementSortsAlike(RequirementKey, r.requiredEvidence, q.requiredEvidence);
  }

  lemma InnerOrderOfPrecedent(p: PrecedentRef, q: PrecedentRef)
    requires ReorderedPrecedent(p, q)
    ensures CanonicalPrecedent(p) == CanonicalPrecedent(q)
  {
    RearrangementSortsAlike(ConsequenceKey, p.consequenceRefs, q.consequenceRefs);
  }

  lemma ShuffledEach<T(!new)>(key: T -> Key, inner: T -> T, a: seq<T>, b: seq<T>)
    requires Shuffled(key, a, b) && forall y :: key(inner(y)) == key(y)
    ensures Regrouped(key, inner, a, b)
  {
    hide Sort;
    RearrangementSortsAlike(key, a, b);
    SortEach(key, inner, a);
    SortEach(key, inner, b);
    SortFacts(key, Each(inner, a));
    SortFacts(key, Each(inner, b));
  }

  lemma ReorderedRegroups(a: EvaluationSnapshot, b: EvaluationSnapshot)
    requires ReorderedPolicy(a.policy.rules, b.policy.rules) && ReorderedPrecedents(a.precedents, b.precedents)
    ensures Regrouped(RuleKey, CanonicalRule, a.policy.rules, b.policy.rules)
    ensures Regrouped(PrecedentKey, CanonicalPrecedent, a.precedents, b.precedents)
  {
    hide ReorderedRule, ReorderedPrecedent, CanonicalRule, CanonicalPrecedent, Shuffled;
    KeysKept();
    var rules: seq<PolicyRule> :| |rules| == |a.policy.rules|
      && (forall i | 0 <= i < |rules| :: ReorderedRule(a.policy.rules[i], rules[i])) && Shuffled(RuleKey, rules, b.policy.rules);
    forall i | 0 <= i < |rules| ensures CanonicalRule(a.policy.rules[i]) == CanonicalRule(rules[i]) {
      InnerOrderOfRule(a.policy.rules[i], rules[i]);
    }
    assert Each(CanonicalRule, a.policy.rules) == Each(CanonicalRule, rules);
    ShuffledEach(RuleKey, CanonicalRule, rules, b.policy.rules);
    var ps: seq<PrecedentRef> :| |ps| == |a.precedents|
      && (forall i | 0 <= i < |ps| :: ReorderedPrecedent(a.precedents[i], ps[i])) && Shuffled(PrecedentKey, ps, b.precedents);
    forall i | 0 <= i < |ps| ensures CanonicalPrecedent(a.precedents[i]) == CanonicalPrecedent(ps[i]) {
      InnerOrderOfPrecedent(a.precedents[i], ps[i]);
    }
    assert Each(CanonicalPrecedent, a.precedents) == Each(CanonicalPrecedent, ps);
    ShuffledEach(PrecedentKey, CanonicalPrecedent, ps, b.precedents);
  }

  /** Snapshots that differ only in the order of rows and of the lists nested in them. */
  ghost predicate Reordered(a: EvaluationSnapshot, b: EvaluationSnapshot) {
    && Shuffled(RefKey, a.proposal.evidenceRefs, b.proposal.evidenceRefs)
    && Shuffled(DependencyKey, a.proposal.dependencies, b.proposal.dependencies)
    && Shuffled(ExclusionKey, a.exclusions, b.exclusions)
    && Shuffled(CapabilityKey, a.capabilities, b.capabilities)
    && Shuffled(DependencyKey, a.dependencies, b.dependencies)
    && ReorderedPolicy(a.policy.rules, b.policy.rules)
    && ReorderedPrecedents(a.precedents, b.precedents)
    && SameFrame(a, b)
  }

  lemma ReorderedIsRearranged(a: EvaluationSnapshot, b: EvaluationSnapshot)
    requires Reordered(a, b)
    ensures Rearranged(a, b)
  {
    hide Shuffled, Regrouped, ReorderedPolicy, ReorderedPrecedents;
    ReorderedRegroups(a, b);
  }

  lemma RearrangedPolicy(a: EvaluationSnapshot, b: EvaluationSnapshot)
    requires Regrouped(RuleKey, CanonicalRule, a.policy.rules, b.policy.rules)
    requires Regrouped(PrecedentKey, CanonicalPrecedent, a.precedents, b.precedents)
    ensures CanonicalRules(a.policy.rules) == CanonicalRules(b.policy.rules)
    ensures Each(CanonicalPrecedent, Sort(PrecedentKey, a.precedents)) == Each(CanonicalPrecedent, Sort(PrecedentKey, b.precedents))
  {
    hide Sort, Regrouped;
    KeysKept();
    RegroupedSortsAlike(RuleKey, CanonicalRule, a.policy.rules, b.policy.rules);
    RegroupedSortsAlike(PrecedentKey, CanonicalPrecedent, a.precedents, b.precedents);
  }

  /** Rearranged snapshots have one canonical form. */
  lemma RearrangedIsSame(a: EvaluationSnapshot, b: EvaluationSnapshot)
    requires Rearranged(a, b)
    ensures CanonicalSnapshot(a) == CanonicalSnapshot(b)
  {
    hide Sort, CanonicalRules, CanonicalPrecedent, Regrouped;
    RearrangementSortsAlike(RefKey, a.proposal.evidenceRefs, b.proposal.evidenceRefs);
    RearrangementSortsAlike(DependencyKey, a.proposal.dependencies, b.proposal.dependencies);
    RearrangementSortsAlike(ExclusionKey, a.exclusions, b.exclusions);
    RearrangementSortsAlike(CapabilityKey, a.capabilities, b.capabilities);
    RearrangementSortsAlike(DependencyKey, a.dependencies, b.dependencies);
    RearrangedPolicy(a, b);
  }

  /** Every collection lists the rows that share a sort key in the same order. */
  ghost predicate SameTies(a: EvaluationSnapshot, b: EvaluationSnapshot) {
    && SameClasses(RefKey, a.proposal.evidenceRefs, b.proposal.evidenceRefs)
    && SameClasses(DependencyKey, a.proposal.dependencies, b.proposal.dependencies)
    && SameClasses(ExclusionKey, a.exclusions, b.exclusions)
    && SameClasses(CapabilityKey, a.capabilities, b.capabilities)
    && SameClasses(DependencyKey, a.dependencies, b.dependencies)
    && SameClasses(RuleKey, Each(CanonicalRule, a.policy.rules), Each(CanonicalRule, b.policy.rules))
    && SameClasses(PrecedentKey, Each(CanonicalPrecedent, a.precedents), Each(CanonicalPrecedent, b.precedents))
  }

  lemma TiesOfNested(a: EvaluationSnapshot, b: EvaluationSnapshot)
    ensures CanonicalRules(a.policy.rules) == CanonicalRules(b.policy.rules) <==>
      SameClasses(RuleKey, Each(CanonicalRule, a.policy.rules), Each(CanonicalRule, b.policy.rules))
    ensures Each(CanonicalPrecedent, Sort(PrecedentKey, a.precedents)) == Each(CanonicalPrecedent, Sort(PrecedentKey, b.precedents)) <==>
      SameClasses(PrecedentKey, Each(CanonicalPrecedent, a.precedents), Each(CanonicalPrecedent, b.precedents))
  {
    hide Sort, SameClasses, CanonicalRule, CanonicalPrecedent, Each;
    KeysKept();
    SortEach(RuleKey, CanonicalRule, a.policy.rules);
    SortEach(RuleKey, CanonicalRule, b.policy.rules);
    SortEach(PrecedentKey, CanonicalPrecedent, a.precedents);
    SortEach(PrecedentKey, CanonicalPrecedent, b.precedents);
    SameSortExactly(RuleKey, Each(CanonicalRule, a.policy.rules), Each(CanonicalRule, b.policy.rules));
    SameSortExactly(PrecedentKey, Each(CanonicalPrecedent, a.precedents), Each(CanonicalPrecedent, b.precedents));
  }

  lemma KeysKept()
    ensures forall r :: RuleKey(CanonicalRule(r)) == RuleKey(r)
    ensures forall p :: PrecedentKey(CanonicalPrecedent(p)) == PrecedentKey(p)
  {
    forall r ensures RuleKey(CanonicalRule(r)) == RuleKey(r) { RuleKeyKept(r); }
    forall p ensures PrecedentKey(CanonicalPrecedent(p)) == PrecedentKey(p) {}
  }

  /** Without any assumption on the keys: two snapshots have one canonical form exactly when
      they agree outside the sorted collections and on the order of rows with equal keys. */
  lemma SameCanonicalExactly(a: EvaluationSnapshot, b: EvaluationSnapshot)
    ensures CanonicalSnapshot(a) == CanonicalSnapshot(b) <==> SameFrame(a, b) && SameTies(a, b)
  {
    hide Sort, SameClasses, CanonicalRules, CanonicalPrecedent, Each;
    SameSortExactly(RefKey, a.proposal.evidenceRefs, b.proposal.evidenceRefs);
    SameSortExactly(DependencyKey, a.proposal.dependencies, b.proposal.dependencies);
    SameSortExactly(ExclusionKey, a.exclusions, b.exclusions);
    SameSortExactly(CapabilityKey, a.capabilities, b.capabilities);
    SameSortExactly(DependencyKey, a.dependencies, b.dependencies);
    TiesOfNested(a, b);
  }
}
