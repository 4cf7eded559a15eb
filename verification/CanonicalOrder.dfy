/** In which order the canonical form of a snapshot lists its rows. */
module CanonicalOrder {
  import opened Canonical
  import opened Models
  import opened Ordering
  import opened Sequences

  // ----- orders by one, two and three texts

  ghost predicate ByOne<T>(a: T -> string, xs: seq<T>) {
    forall i, j | 0 <= i < j < |xs| :: !TextLess(a(xs[j]), a(xs[i]))
  }

  /** By the first text, and by the second where the first is the same. */
  ghost predicate ByTwo<T>(a: T -> string, b: T -> string, xs: seq<T>) {
    forall i, j | 0 <= i < j < |xs| ::
      !TextLess(a(xs[j]), a(xs[i])) && (a(xs[j]) == a(xs[i]) ==> !TextLess(b(xs[j]), b(xs[i])))
  }

  ghost predicate ByThree<T>(a: T -> string, b: T -> string, c: T -> string, xs: seq<T>) {
    forall i, j | 0 <= i < j < |xs| ::
      && !TextLess(a(xs[j]), a(xs[i])) && (a(xs[j]) == a(xs[i]) ==> !TextLess(b(xs[j]), b(xs[i])))
      && (a(xs[j]) == a(xs[i]) && b(xs[j]) == b(xs[i]) ==> !TextLess(c(xs[j]), c(xs[i])))
  }

  lemma SortedByOne<T(!new)>(key: T -> Key, a: T -> string, xs: seq<T>)
    requires forall x :: key(x) == [a(x)]
    ensures ByOne(a, Sort(key, xs)) && multiset(Sort(key, xs)) == multiset(xs)
  {
    hide Sort, TextLess, KeyLess;
    SortFacts(key, xs);
    var s := Sort(key, xs);
    forall i, j | 0 <= i < j < |s| ensures !TextLess(a(s[j]), a(s[i])) {
      KeyOfOne(a(s[j]), a(s[i]));
    }
  }

  lemma SortedByTwo<T(!new)>(key: T -> Key, a: T -> string, b: T -> string, xs: seq<T>)
    requires forall x :: key(x) == [a(x), b(x)]
    ensures ByTwo(a, b, Sort(key, xs)) && multiset(Sort(key, xs)) == multiset(xs)
  {
    hide Sort, TextLess, KeyLess;
    SortFacts(key, xs);
    var s := Sort(key, xs);
    forall i, j | 0 <= i < j < |s|
      ensures !TextLess(a(s[j]), a(s[i])) && (a(s[j]) == a(s[i]) ==> !TextLess(b(s[j]), b(s[i])))
    {
      KeyOfTwo(a(s[j]), b(s[j]), a(s[i]), b(s[i]));
    }
  }

  lemma SortedByThree<T(!new)>(key: T -> Key, a: T -> string, b: T -> string, c: T -> string, xs: seq<T>)
    requires forall x :: key(x) == [a(x), b(x), c(x)]
    ensures ByThree(a, b, c, Sort(key, xs)) && multiset(Sort(key, xs)) == multiset(xs)
  {
    hide Sort, TextLess, KeyLess;
    SortFacts(key, xs);
    var s := Sort(key, xs);
    forall i, j | 0 <= i < j < |s|
      ensures !TextLess(a(s[j]), a(s[i])) && (a(s[j]) == a(s[i]) ==> !TextLess(b(s[j]), b(s[i])))
      ensures a(s[j]) == a(s[i]) && b(s[j]) == b(s[i]) ==> !TextLess(c(s[j]), c(s[i]))
    {
      KeyOfThree(a(s[j]), b(s[j]), c(s[j]), a(s[i]), b(s[i]), c(s[i]));
    }
  }

  // ----- the collections

  function RefIdOf(e: EvidenceRef): string { e.refId }
  function RequirementIdOf(q: EvidenceRequirement): string { q.requirementId }
  function DependencyIdOf(d: DependencyRef): string { d.dependencyId }
  function RuleIdOf(r: PolicyRule): string { r.ruleId }
  function ReceiptIdOf(c: ConsequenceRef): string { c.receiptId }
  function ConsequenceIdOf(c: ConsequenceRef): string { c.consequenceId }
  function ProposalIdOf(x: PrecedentRef): string { x.proposalId }
  function EvaluationIdOf(x: PrecedentRef): string { x.evaluationId }
  function ActionOf(e: ExclusionRef): string { e.actionTypeKey }
  function TargetOf(e: ExclusionRef): string { e.targetKey }
  function ExclusionIdOf(e: ExclusionRef): string { e.exclusionId }
  function CapabilityIdOf(c: CapabilityFact): string { c.capabilityId }

  /** The canonical rows of a collection: the same rows in order. */
  ghost predicate RowsOrdered(c: EvaluationSnapshot, s: EvaluationSnapshot) {
    && ByOne(RefIdOf, c.proposal.evidenceRefs) && multiset(c.proposal.evidenceRefs) == multiset(s.proposal.evidenceRefs)
    && ByOne(DependencyIdOf, c.proposal.dependencies) && multiset(c.proposal.dependencies) == multiset(s.proposal.dependencies)
    && ByOne(DependencyIdOf, c.dependencies) && multiset(c.dependencies) == multiset(s.dependencies)
    && ByOne(CapabilityIdOf, c.capabilities) && multiset(c.capabilities) == multiset(s.capabilities)
    && ByThree(ActionOf, TargetOf, ExclusionIdOf, c.exclusions) && multiset(c.exclusions) == multiset(s.exclusions)
  }

  lemma RowsInOrder(s: EvaluationSnapshot)
    ensures RowsOrdered(CanonicalSnapshot(s), s)
  {
    hide Sort, CanonicalRules, ByOne, ByThree;
    SortedByOne(RefKey, RefIdOf, s.proposal.evidenceRefs);
    SortedByOne(DependencyKey, DependencyIdOf, s.proposal.dependencies);
    SortedByOne(DependencyKey, DependencyIdOf, s.dependencies);
    SortedByOne(CapabilityKey, CapabilityIdOf, s.capabilities);
    SortedByThree(ExclusionKey, ActionOf, TargetOf, ExclusionIdOf, s.exclusions);
  }

  /** A canonical rule: requirements in order, every capability once and in order. */
  ghost predicate RuleOrdered(q: PolicyRule, r: PolicyRule) {
    && ByOne(RequirementIdOf, q.requiredEvidence) && multiset(q.requiredEvidence) == multiset(r.requiredEvidence)
    && Increasing(q.requiredCapabilityIds) && (forall id :: id in q.requiredCapabilityIds <==> id in r.requiredCapabilityIds)
    && q == r.(requiredEvidence := q.requiredEvidence, requiredCapabilityIds := q.requiredCapabilityIds)
  }

  /** A canonical precedent: consequences in order. */
  ghost predicate PrecedentOrdered(y: PrecedentRef, x: PrecedentRef) {
    && ByTwo(ReceiptIdOf, ConsequenceIdOf, y.consequenceRefs) && multiset(y.consequenceRefs) == multiset(x.consequenceRefs)
    && y == x.(consequenceRefs := y.consequenceRefs)
  }

  ghost predicate RulesOrdered(qs: seq<PolicyRule>, rules: seq<PolicyRule>) {
    && ByOne(RuleIdOf, qs)
    && exists rs: seq<PolicyRule> ::
         |rs| == |qs| && multiset(rs) == multiset(rules) && forall i | 0 <= i < |qs| :: RuleOrdered(qs[i], rs[i])
  }

  ghost predicate PrecedentsOrdered(ys: seq<PrecedentRef>, precedents: seq<PrecedentRef>) {
    && ByTwo(ProposalIdOf, EvaluationIdOf, ys)
    && exists xs: seq<PrecedentRef> ::
         |xs| == |ys| && multiset(xs) == multiset(precedents) && forall i | 0 <= i < |ys| :: PrecedentOrdered(ys[i], xs[i])
  }

  lemma RuleInOrder(r: PolicyRule)
    ensures RuleOrdered(CanonicalRule(r), r)
  {
    hide Sort, Listing, ByOne, Increasing;
    SortedByOne(RequirementKey, RequirementIdOf, r.requiredEvidence);
    ListingIncreases(Members(r.requiredCapabilityIds));
  }

  lemma RulesInOrder(rules: seq<PolicyRule>)
    ensures RulesOrdered(CanonicalRules(rules), rules)
  {
    hide Sort, RuleOrdered, CanonicalRule;
    var rs := Sort(RuleKey, rules);
    SortedByOne(RuleKey, RuleIdOf, rules);
    forall r ensures RuleOrdered(CanonicalRule(r), r) && RuleIdOf(CanonicalRule(r)) == RuleIdOf(r) {
      RuleInOrder(r);
      RuleIdKept(r);
    }
    assert |rs| == |CanonicalRules(rules)| && multiset(rs) == multiset(rules);
  }

  lemma RuleIdKept(r: PolicyRule)
    ensures CanonicalRule(r).ruleId == r.ruleId
  {}

  lemma PrecedentInOrder(x: PrecedentRef)
    ensures PrecedentOrdered(CanonicalPrecedent(x), x)
  {
    hide Sort, ByTwo;
    SortedByTwo(ConsequenceKey, ReceiptIdOf, ConsequenceIdOf, x.consequenceRefs);
  }

  lemma PrecedentsInOrder(precedents: seq<PrecedentRef>)
    ensures PrecedentsOrdered(Each(CanonicalPrecedent, Sort(PrecedentKey, precedents)), precedents)
  {
    hide Sort, PrecedentOrdered, CanonicalPrecedent;
    var xs := Sort(PrecedentKey, precedents);
    SortedByTwo(PrecedentKey, ProposalIdOf, EvaluationIdOf, precedents);
    forall x
      ensures PrecedentOrdered(CanonicalPrecedent(x), x)
      ensures CanonicalPrecedent(x).proposalId == x.proposalId && CanonicalPrecedent(x).evaluationId == x.evaluationId
    {
      PrecedentInOrder(x);
      PrecedentIdsKept(x);
    }
    assert |xs| == |Each(CanonicalPrecedent, xs)| && multiset(xs) == multiset(precedents);
  }

  lemma PrecedentIdsKept(x: PrecedentRef)
    ensures CanonicalPrecedent(x).proposalId == x.proposalId && CanonicalPrecedent(x).evaluationId == x.evaluationId
  {}

  /** The canonical form has the rows of the snapshot in this order: references, dependencies and
      capabilities by identity, exclusions by action, target and identity, rules by identity with
      their requirements by identity and every capability once, precedents by proposal and evaluation
      with their consequences by receipt and identity; the rest is the snapshot's. */
  lemma CanonicalIsOrdered(s: EvaluationSnapshot)
    ensures var c := CanonicalSnapshot(s);
      RowsOrdered(c, s) && RulesOrdered(c.policy.rules, s.policy.rules) && PrecedentsOrdered(c.precedents, s.precedents) && SameFrame(s, c)
  {
    hide RowsOrdered, RulesOrdered, PrecedentsOrdered, Sort, CanonicalRules;
    RowsInOrder(s);
    RulesInOrder(s.policy.rules);
    PrecedentsInOrder(s.precedents);
  }
}
