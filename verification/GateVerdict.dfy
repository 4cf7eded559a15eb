/** The verdict as a four-valued specification over the unsorted snapshot, and its totality. */
module GateVerdict {
  import opened Canonical
  import opened Changes
  import opened Gate
  import opened GateEvidence
  import opened GateRules
  import opened Json
  import opened Models
  import opened Ordering
  import opened Sequences
  import opened Traces

  // ----- the specification

  const NEAR_ENOUGH := 0.85
  const HIGH_DIVERGENCE := 0.5

  ghost predicate Prohibits(s: EvaluationSnapshot, r: PolicyRule) {
    r in s.policy.rules && Applies(s.proposal)(r) && r.effect == Deny
  }

  ghost predicate Grants(s: EvaluationSnapshot, r: PolicyRule) {
    r in s.policy.rules && Applies(s.proposal)(r) && r.effect == Allow
  }

  /** A near precedent of exactly this action on exactly this target. */
  ghost predicate Governs(s: EvaluationSnapshot, x: PrecedentRef) {
    && x in s.precedents
    && x.similarity.Some? && x.similarity.value >= NEAR_ENOUGH
    && x.actionTypeKey == s.proposal.actionTypeKey && x.targetKey == s.proposal.targetKey
  }

  ghost predicate GovernsAs(s: EvaluationSnapshot, x: PrecedentRef, d: DecisionValue) {
    Governs(s, x) && x.decision == Some(d)
  }

  ghost predicate Needs(s: EvaluationSnapshot, id: string) {
    exists r :: Grants(s, r) && id in r.requiredCapabilityIds
  }

  ghost predicate Demands(s: EvaluationSnapshot, q: EvidenceRequirement) {
    exists r :: Grants(s, r) && q in r.requiredEvidence
  }

  ghost predicate Declares(s: EvaluationSnapshot, id: string, state: DependencyState) {
    exists c :: c in s.capabilities && c.capabilityId == id && c.state == state
  }

  /** The last reference of the demanded kind is valid. */
  ghost predicate Evidenced(s: EvaluationSnapshot, q: EvidenceRequirement) {
    Meets(s.proposal.evidenceRefs, q.kind)
  }

  ghost predicate DependencyIn(s: EvaluationSnapshot, d: DependencyRef, state: DependencyState) {
    d in s.dependencies && d.state == state
  }

  /** A reason to refuse: a hard policy, an active exclusion, a false capability or dependency. */
  ghost predicate Denied(s: EvaluationSnapshot) {
    || (exists r :: Prohibits(s, r))
    || (exists e :: e in s.exclusions && Excludes(s.proposal)(e))
    || (exists id :: Needs(s, id) && Declares(s, id, StateFalse))
    || (exists d :: DependencyIn(s, d, StateFalse))
  }

  /** The precedents leave the question open. */
  ghost predicate PrecedentsOpen(s: EvaluationSnapshot) {
    || (exists x :: x in s.precedents && x.similarity.None?)
    || !(exists x :: GovernsAs(s, x, Approve))
    || (exists x :: GovernsAs(s, x, Reject) || GovernsAs(s, x, Modify))
  }

  /** The consequences of the approved precedents leave the question open. */
  ghost predicate ConsequencesOpen(s: EvaluationSnapshot) {
    || (exists x, c :: GovernsAs(s, x, Approve) && c in x.consequenceRefs && c.divergence >= HIGH_DIVERGENCE)
    || ((exists r :: Grants(s, r) && r.requireConsequence)
        && exists x :: GovernsAs(s, x, Approve) && x.consequenceRefs == [])
  }

  /** Something needed for an answer is not known. */
  ghost predicate Unsettled(s: EvaluationSnapshot) {
    || !(exists r :: Grants(s, r))
    || PrecedentsOpen(s)
    || (exists q :: Demands(s, q) && !Evidenced(s, q))
    || ConsequencesOpen(s)
    || (exists id :: Needs(s, id) && !Declares(s, id, StateTrue) && !Declares(s, id, StateFalse))
    || (exists d :: DependencyIn(s, d, StateUnresolved) && !Complete(d))
  }

  ghost function DeclaredVerdict(s: EvaluationSnapshot): Verdict {
    if Denied(s) then NO
    else if Unsettled(s) then MAYBE
    else if exists d :: DependencyIn(s, d, StateUnresolved) then IFF
    else YES
  }

  // ----- the three predicate lists, rule by rule

  function PolicyPart(s: EvaluationSnapshot): Findings { ScopeFindings(s) }
  function ExclusionPart(s: EvaluationSnapshot): Findings { ExclusionFindings(s.proposal, SortedExclusions(s)) }
  function RetrievalPart(s: EvaluationSnapshot, c: RuleConfig): Findings { RetrievalFindings(s.proposal, c, SortedPrecedents(s)) }
  function ApprovalPart(s: EvaluationSnapshot, c: RuleConfig): Findings { ApprovalFindings(s.proposal, Approved(s, c)) }
  function ConflictPart(s: EvaluationSnapshot, c: RuleConfig): Findings { ConflictFindings(s.proposal, Qualifying(s, c)) }
  function EvidencePart(s: EvaluationSnapshot): Findings {
    EvidenceFindings(s.proposal, Sort(RefKey, s.proposal.evidenceRefs), Requirements(s))
  }
  function ConsequencePart(s: EvaluationSnapshot, c: RuleConfig): Findings {
    ConsequenceFindings(s.proposal, c, ConsequenceRequired(c, AllowRules(s)), Approved(s, c))
  }
  function CapabilityPart(s: EvaluationSnapshot): Findings {
    CapabilityFindings(s.proposal, s.capabilities, RequiredCapabilities(AllowRules(s)))
  }
  function DependencyPart(s: EvaluationSnapshot): Findings { DependencyFindings(SortedDependencies(s)) }

  /** The first six rules: only policy and exclusions refuse, retrieval and approval ask. */
  lemma EarlyParts(b: Findings, p: Findings, e: Findings, r: Findings, i: Findings, a: Findings) returns (f: Findings)
    requires b.r1 == b.r2 == b.r3 == [] && b.gaps == [] && i.r1 == i.r2 == i.r3 == [] && i.gaps == []
    requires p.r3 == [] && e.r2 == e.r3 == [] && e.gaps == [] && r.r1 == r.r3 == [] && a.r1 == a.r3 == []
    ensures f == b.Then(p).Then(e).Then(r).Then(i).Then(a)
    ensures f.r1 == p.r1 + e.r1 && f.r2 == p.r2 + r.r2 + a.r2 && f.r3 == [] && f.gaps == p.gaps + r.gaps + a.gaps
  {
    f := b.Then(p).Then(e).Then(r).Then(i).Then(a);
  }

  lemma LateParts(x: Findings, c: Findings, v: Findings, q: Findings, k: Findings, d: Findings) returns (f: Findings)
    requires x.r3 == [] && c.r1 == c.r3 == [] && v.r1 == v.r3 == [] && q.r1 == q.r3 == [] && k.r3 == []
    ensures f == x.Then(c).Then(v).Then(q).Then(k).Then(d)
    ensures f.r1 == x.r1 + k.r1 + d.r1 && f.r2 == x.r2 + c.r2 + v.r2 + q.r2 + k.r2 + d.r2 && f.r3 == d.r3
    ensures f.gaps == x.gaps + c.gaps + v.gaps + q.gaps + k.gaps + d.gaps
  {
    f := x.Then(c).Then(v).Then(q).Then(k).Then(d);
  }

  lemma ListParts(s: EvaluationSnapshot, c: RuleConfig, id: Option<string>)
    ensures var f := FactFindings(s, c, id);
      && f.r1 == PolicyPart(s).r1 + ExclusionPart(s).r1 + CapabilityPart(s).r1 + DependencyPart(s).r1
      && f.r2 == PolicyPart(s).r2 + RetrievalPart(s, c).r2 + ApprovalPart(s, c).r2 + ConflictPart(s, c).r2 + EvidencePart(s).r2
                 + ConsequencePart(s, c).r2 + CapabilityPart(s).r2 + DependencyPart(s).r2
      && f.r3 == DependencyPart(s).r3
      && f.gaps == PolicyPart(s).gaps + RetrievalPart(s, c).gaps + ApprovalPart(s, c).gaps + ConflictPart(s, c).gaps
                 + EvidencePart(s).gaps + ConsequencePart(s, c).gaps + CapabilityPart(s).gaps + DependencyPart(s).gaps
  {
    hide BindFindings, ScopeFindings, ExclusionFindings, RetrievalFindings, IdentityFindings, ApprovalFindings, ConflictFindings,
      EvidenceFindings, ConsequenceFindings, CapabilityFindings, DependencyFindings, Findings.Then;
    var x := EarlyParts(BindFindings(s, c, id), PolicyPart(s), ExclusionPart(s), RetrievalPart(s, c),
                        IdentityFindings(s.proposal, NearOnes(s, c)), ApprovalPart(s, c));
    var f := LateParts(x, ConflictPart(s, c), EvidencePart(s), ConsequencePart(s, c), CapabilityPart(s), DependencyPart(s));
  }

  // ----- the members of the derived lists

  ghost predicate Thresholds(c: RuleConfig) {
    c.similarityThreshold == NEAR_ENOUGH && c.divergenceThreshold == HIGH_DIVERGENCE && c.requireConsequenceForYes
  }

  lemma ApplicableMembers(s: EvaluationSnapshot)
    ensures forall r :: r in AllowRules(s) <==> Grants(s, r)
    ensures forall r :: r in DenyRules(s) <==> Prohibits(s, r)
  {
    hide Sort, Filter;
    FilterMembers(Applies(s.proposal), s.policy.rules);
    SortMembers(RuleKey, Filter(Applies(s.proposal), s.policy.rules));
    FilterMembers(IsAllow, Applicable(s));
    FilterMembers(IsDeny, Applicable(s));
  }

  lemma PrecedentMembers(s: EvaluationSnapshot, c: RuleConfig)
    requires Thresholds(c)
    ensures forall x :: x in SortedPrecedents(s) <==> x in s.precedents
    ensures forall x :: x in Qualifying(s, c) <==> Governs(s, x)
    ensures forall x :: x in Approved(s, c) <==> GovernsAs(s, x, Approve)
  {
    hide Sort, Filter;
    SortMembers(PrecedentKey, s.precedents);
    FilterMembers(IsNear(c), SortedPrecedents(s));
    FilterMembers(IsSame(s.proposal), NearOnes(s, c));
    FilterMembers(IsApproved, Qualifying(s, c));
  }

  lemma Occupied<T>(s: seq<T>)
    ensures s == [] <==> forall x :: x !in s
  {
    if s != [] { assert s[0] in s; }
  }

  // ----- when each rule is silent

  lemma PolicyVerdict(s: EvaluationSnapshot)
    ensures PolicyPart(s).r1 == [] <==> !exists r :: Prohibits(s, r)
    ensures PolicyPart(s).r1 == [] ==> (PolicyPart(s).r2 == [] <==> exists r :: Grants(s, r))
  {
    hide Grants, Prohibits, AllowRules, DenyRules;
    ApplicableMembers(s);
    Occupied(AllowRules(s));
    Occupied(DenyRules(s));
  }

  lemma ExclusionVerdict(s: EvaluationSnapshot)
    ensures ExclusionPart(s).r1 == [] <==> !exists e :: e in s.exclusions && Excludes(s.proposal)(e)
  {
    hide Sort;
    SortMembers(ExclusionKey, s.exclusions);
  }

  lemma RetrievalVerdict(s: EvaluationSnapshot, c: RuleConfig)
    ensures RetrievalPart(s, c).r2 == [] <==> !exists x :: x in s.precedents && x.similarity.None?
  {
    hide Sort, Gather, RetrievalStep;
    SortMembers(PrecedentKey, s.precedents);
    GatherEmpty(SimilarityPredicates, SortedPrecedents(s));
  }

  lemma ApprovalVerdict(s: EvaluationSnapshot, c: RuleConfig)
    requires Thresholds(c)
    ensures ApprovalPart(s, c).r2 == [] <==> exists x :: GovernsAs(s, x, Approve)
  {
    hide Approved, GovernsAs, ApprovalGap;
    PrecedentMembers(s, c);
    Occupied(Approved(s, c));
  }

  lemma DecisionMembers(s: EvaluationSnapshot, c: RuleConfig, d: DecisionValue)
    requires Thresholds(c)
    ensures Some(d) in Each(DecisionOf, Qualifying(s, c)) <==> exists x :: GovernsAs(s, x, d)
  {
    hide Qualifying, Approved, Governs;
    PrecedentMembers(s, c);
    EachMembers(DecisionOf, Qualifying(s, c));
    if Some(d) in Each(DecisionOf, Qualifying(s, c)) {
      var x :| x in Qualifying(s, c) && Some(d) == DecisionOf(x);
      assert GovernsAs(s, x, d);
    }
    if x :| GovernsAs(s, x, d) { assert x in Qualifying(s, c) && Some(d) == DecisionOf(x); }
  }

  lemma ConflictVerdict(s: EvaluationSnapshot, c: RuleConfig)
    requires Thresholds(c)
    ensures ConflictPart(s, c).r2 == [] <==>
      !((exists x :: GovernsAs(s, x, Approve)) && exists x :: GovernsAs(s, x, Reject) || GovernsAs(s, x, Modify))
  {
    hide Qualifying, GovernsAs, ConflictGap;
    DecisionMembers(s, c, Approve);
    DecisionMembers(s, c, Reject);
    DecisionMembers(s, c, Modify);
  }

  lemma RequirementMembers(s: EvaluationSnapshot)
    ensures forall q :: q in Requirements(s) <==> Demands(s, q)
  {
    hide Sort, Gather, AllowRules, Grants;
    ApplicableMembers(s);
    GatherMembers(EvidenceOf, AllowRules(s));
    SortMembers(RequirementKey, Gather(EvidenceOf, AllowRules(s)));
  }

  lemma EvidenceVerdict(s: EvaluationSnapshot)
    ensures EvidencePart(s).r2 == [] <==> !exists q :: Demands(s, q) && !Evidenced(s, q)
    ensures EvidencePart(s).r2 == [] ==> AllSatisfied(Sort(RefKey, s.proposal.evidenceRefs), Requirements(s))
  {
    hide Sort, Gather, Requirements, Demands, Satisfied, Meets;
    RequirementMembers(s);
    var refs := Sort(RefKey, s.proposal.evidenceRefs);
    GatherEmpty(RequirementPredicates(refs), Requirements(s));
    forall q ensures Satisfied(refs, q) <==> Evidenced(s, q) { SatisfiedExactly(s.proposal.evidenceRefs, q); }
  }

  lemma ReportMembers(s: EvaluationSnapshot, c: RuleConfig)
    requires Thresholds(c)
    ensures forall r :: r in Reports(Approved(s, c)) <==> GovernsAs(s, r.0, Approve) && r.1 in r.0.consequenceRefs
  {
    hide Sort, Gather, Approved, GovernsAs;
    PrecedentMembers(s, c);
    var rows := Gather(ReportsOf, Approved(s, c));
    GatherMembers(ReportsOf, Approved(s, c));
    SortMembers(ReportKey, rows);
    forall r: Report ensures r in rows <==> GovernsAs(s, r.0, Approve) && r.1 in r.0.consequenceRefs {
      forall x: PrecedentRef ensures r in ReportsOf(x) <==> r.0 == x && r.1 in x.consequenceRefs {
        EachMembers(ReportOf(x), x.consequenceRefs);
      }
    }
  }

  lemma MissingMembers(s: EvaluationSnapshot, c: RuleConfig)
    requires Thresholds(c)
    ensures MissingIds(Approved(s, c)) == [] <==> !exists x :: GovernsAs(s, x, Approve) && x.consequenceRefs == []
  {
    hide Filter, Approved, GovernsAs;
    PrecedentMembers(s, c);
    FilterEmpty(HasNoReport, Approved(s, c));
  }

  lemma RequiredMembers(s: EvaluationSnapshot, c: RuleConfig)
    requires Thresholds(c)
    ensures ConsequenceRequired(c, AllowRules(s)) <==> exists r :: Grants(s, r) && r.requireConsequence
  {
    hide AllowRules, Grants;
    ApplicableMembers(s);
  }

  lemma ConsequenceVerdict(s: EvaluationSnapshot, c: RuleConfig)
    requires Thresholds(c)
    ensures ConsequencePart(s, c).r2 == [] <==> !ConsequencesOpen(s)
  {
    hide Gather, Approved, AllowRules, GovernsAs, Grants, Reports, MissingIds, ConsequenceRequired, DivergenceGap, ObservationGap, OutcomeGap;
    PrecedentMembers(s, c);
    Occupied(Approved(s, c));
    ReportMembers(s, c);
    MissingMembers(s, c);
    RequiredMembers(s, c);
    var reports, missing := Reports(Approved(s, c)), MissingIds(Approved(s, c));
    GatherEmpty(DivergencePredicates(c), reports);
    GatherEmpty(MissingPredicates, missing);
    Occupied(missing);
    HighReports(s, c);
  }

  lemma HighReports(s: EvaluationSnapshot, c: RuleConfig)
    requires Thresholds(c)
    ensures (exists r | r in Reports(Approved(s, c)) :: IsMore(c, r)) <==>
      exists x, k :: GovernsAs(s, x, Approve) && k in x.consequenceRefs && k.divergence >= HIGH_DIVERGENCE
  {
    hide Approved, GovernsAs, Reports;
    ReportMembers(s, c);
    if x, k :| GovernsAs(s, x, Approve) && k in x.consequenceRefs && k.divergence >= HIGH_DIVERGENCE {
      assert (x, k) in Reports(Approved(s, c)) && IsMore(c, (x, k));
    }
  }

  lemma NeedMembers(s: EvaluationSnapshot)
    ensures forall id :: id in RequiredCapabilities(AllowRules(s)) <==> Needs(s, id)
  {
    hide AllowRules, Grants, Listing;
    ApplicableMembers(s);
  }

  /** Without duplicates the dictionary lookup is the declared state. */
  lemma {:induction false} DeclaredState(facts: seq<CapabilityFact>, id: string, state: DependencyState)
    requires !DuplicateCapability(facts)
    ensures StateOf(facts, id) == Some(state) <==> exists c :: c in facts && c.capabilityId == id && c.state == state
  {
    if facts != [] {
      var front, last := facts[..|facts| - 1], facts[|facts| - 1];
      assert facts == front + [last];
      assert !DuplicateCapability(front);
      DeclaredState(front, id, state);
      if last.capabilityId == id {
        if c :| c in facts && c.capabilityId == id && c.state == state {
          var i :| 0 <= i < |facts| && facts[i] == c;
          assert i == |facts| - 1;
        }
        assert last in facts;
      }
    }
  }

  lemma CapabilityVerdict(s: EvaluationSnapshot)
    requires !DuplicateCapability(s.capabilities)
    ensures CapabilityPart(s).r1 == [] <==> !exists id :: Needs(s, id) && Declares(s, id, StateFalse)
    ensures CapabilityPart(s).r2 == [] <==>
      !exists id :: Needs(s, id) && !Declares(s, id, StateTrue) && !Declares(s, id, StateFalse)
  {
    hide Gather, AllowRules, Needs, RequiredCapabilities, StateOf, DuplicateCapability, Declares;
    NeedMembers(s);
    var ids := RequiredCapabilities(AllowRules(s));
    Occupied(ids);
    GatherEmpty(FalseCapability(s.capabilities), ids);
    GatherEmpty(OpenCapability(s.capabilities), ids);
    forall id
      ensures FalseCapability(s.capabilities)(id) == [] <==> !Declares(s, id, StateFalse)
      ensures OpenCapability(s.capabilities)(id) == [] <==> Declares(s, id, StateTrue) || Declares(s, id, StateFalse)
    {
      DeclaredByState(s, id, StateTrue);
      DeclaredByState(s, id, StateFalse);
      OpenMeans(s.capabilities, id);
    }
  }

  lemma OpenMeans(facts: seq<CapabilityFact>, id: string)
    ensures OpenCapability(facts)(id) == [] <==> StateOf(facts, id) == Some(StateTrue) || StateOf(facts, id) == Some(StateFalse)
  {
    hide StateOf;
    var state := StateOf(facts, id);
    assert state.Some? ==> state.value.StateTrue? || state.value.StateFalse? || state.value.StateUnresolved?;
  }

  lemma DeclaredByState(s: EvaluationSnapshot, id: string, state: DependencyState)
    requires !DuplicateCapability(s.capabilities)
    ensures StateOf(s.capabilities, id) == Some(state) <==> Declares(s, id, state)
  {
    DeclaredState(s.capabilities, id, state);
  }

  lemma DependencyVerdict(s: EvaluationSnapshot)
    ensures DependencyPart(s).r1 == [] <==> !exists d :: DependencyIn(s, d, StateFalse)
    ensures DependencyPart(s).r2 == [] <==> !exists d :: DependencyIn(s, d, StateUnresolved) && !Complete(d)
    ensures DependencyPart(s).r3 == [] <==> !exists d :: DependencyIn(s, d, StateUnresolved) && Complete(d)
  {
    hide Sort, Gather, Complete, FormulaStep;
    var ds := SortedDependencies(s);
    SortMembers(DependencyKey, s.dependencies);
    GatherEmpty(FalseDependency, ds);
    GatherEmpty(OpenDependency, ds);
    GatherEmpty(ConditionalDependency, ds);
    forall d
      ensures d in ds && FalseDependency(d) != [] <==> DependencyIn(s, d, StateFalse)
      ensures d in ds && OpenDependency(d) != [] <==> DependencyIn(s, d, StateUnresolved) && !Complete(d)
      ensures d in ds && ConditionalDependency(d) != [] <==> DependencyIn(s, d, StateUnresolved) && Complete(d)
    {}
  }

  // ----- the lists together

  lemma ListsMeaning(s: EvaluationSnapshot, c: RuleConfig, id: Option<string>)
    requires Thresholds(c) && !DuplicateCapability(s.capabilities)
    ensures var f := FactFindings(s, c, id);
      && (f.r1 == [] <==> !Denied(s))
      && (f.r1 == [] ==> (f.r2 == [] <==> !Unsettled(s)))
      && (f.r3 == [] <==> !exists d :: DependencyIn(s, d, StateUnresolved) && Complete(d))
  {
    hide FactFindings, PolicyPart, ExclusionPart, RetrievalPart, ApprovalPart, ConflictPart, EvidencePart, ConsequencePart,
      CapabilityPart, DependencyPart, Thresholds, DuplicateCapability, Grants, Prohibits, GovernsAs, Needs, Declares, Demands, Evidenced,
      ConsequencesOpen, Complete;
    ListParts(s, c, id);
    PolicyVerdict(s);
    ExclusionVerdict(s);
    RetrievalVerdict(s, c);
    ApprovalVerdict(s, c);
    ConflictVerdict(s, c);
    EvidenceVerdict(s);
    ConsequenceVerdict(s, c);
    CapabilityVerdict(s);
    DependencyVerdict(s);
  }

  // ----- totality of the reducer

  lemma ClearApproval(s: EvaluationSnapshot, c: RuleConfig)
    requires Thresholds(c) && !Unsettled(s)
    ensures AllowRules(s) != [] && Approved(s, c) != []
    ensures ConsequenceRequired(c, AllowRules(s)) ==> forall x | x in Approved(s, c) :: x.consequenceRefs != []
    ensures forall x | x in Approved(s, c) :: forall k | k in x.consequenceRefs :: k.divergence < c.divergenceThreshold
    ensures AllSatisfied(Sort(RefKey, s.proposal.evidenceRefs), Requirements(s))
  {
    hide AllowRules, Approved, Grants, Demands, GovernsAs, Requirements, Satisfied, ConsequenceRequired, Sort, Meets;
    ApplicableMembers(s);
    PrecedentMembers(s, c);
    RequiredMembers(s, c);
    RequirementMembers(s);
    forall x | x in Approved(s, c) ensures forall k | k in x.consequenceRefs :: k.divergence < c.divergenceThreshold {
      assert GovernsAs(s, x, Approve);
    }
    assert AllSatisfied(Sort(RefKey, s.proposal.evidenceRefs), Requirements(s)) by {
      forall q | q in Requirements(s) ensures Satisfied(Sort(RefKey, s.proposal.evidenceRefs), q) {
        SatisfiedExactly(s.proposal.evidenceRefs, q);
        assert Evidenced(s, q);
      }
    }
  }

  lemma ClearCapabilities(s: EvaluationSnapshot)
    requires !DuplicateCapability(s.capabilities) && !Denied(s) && !Unsettled(s)
    ensures forall id | id in RequiredCapabilities(AllowRules(s)) :: StateOf(s.capabilities, id) == Some(StateTrue)
  {
    hide AllowRules, RequiredCapabilities, Needs, Declares, StateOf, DuplicateCapability, PrecedentsOpen, ConsequencesOpen, Grants, Prohibits, Evidenced;
    NeedMembers(s);
    forall id | id in RequiredCapabilities(AllowRules(s)) ensures StateOf(s.capabilities, id) == Some(StateTrue) {
      DeclaredByState(s, id, StateTrue);
      assert Needs(s, id) && !Declares(s, id, StateFalse);
    }
  }

  lemma ClearDependencies(s: EvaluationSnapshot)
    requires !Denied(s) && !Unsettled(s) && !exists d :: DependencyIn(s, d, StateUnresolved) && Complete(d)
    ensures forall d | d in SortedDependencies(s) :: d.state == StateTrue
  {
    hide Sort, Needs, Declares, PrecedentsOpen, ConsequencesOpen, Grants, Prohibits, Evidenced, Complete;
    SortMembers(DependencyKey, s.dependencies);
    forall d | d in SortedDependencies(s) ensures d.state == StateTrue {
      assert !DependencyIn(s, d, StateFalse);
      assert DependencyIn(s, d, StateUnresolved) ==> Complete(d);
    }
  }

  /** Empty predicate lists imply the whole R4 conjunction, so one of the four reducers always
      applies and the non-total stop is unreachable. */
  lemma ReducerIsTotal(s: EvaluationSnapshot, c: RuleConfig, id: Option<string>)
    requires Thresholds(c) && FactStop(s, c).None?
    ensures Reduce(s, c, AllFindings(s, c, id)).Some?
    ensures Judgement(s, c, id) != Stopped(ReducerNonTotal)
  {
    hide FactFindings, AllowRules, Approved, Requirements, RequiredCapabilities, ConsequenceRequired, SortedDependencies, Denied, Unsettled,
      Reports, ReportBound, DuplicateCapability, Complete, StateOf, Finish;
    ListsMeaning(s, c, id);
    var f := FactFindings(s, c, id);
    if f.r1 == [] && f.r2 == [] && f.r3 == [] {
      ClearApproval(s, c);
      ClearCapabilities(s);
      ClearDependencies(s);
      assert AllClear(s, c);
    }
  }

  /** The reduced verdict is the declared one. */
  lemma ReducedVerdict(s: EvaluationSnapshot, c: RuleConfig, id: Option<string>)
    requires Thresholds(c) && FactStop(s, c).None?
    ensures Reduce(s, c, AllFindings(s, c, id)).Some?
    ensures Reduce(s, c, AllFindings(s, c, id)).value.verdict == DeclaredVerdict(s)
  {
    hide FactFindings, AllClear, Denied, Unsettled, Reports, ReportBound, DuplicateCapability, Complete, Judgement;
    ReducerIsTotal(s, c, id);
    ListsMeaning(s, c, id);
    var f := FactFindings(s, c, id);
    if f.r1 == [] && f.r2 == [] && f.r3 == [] { OnlyComplete(s); }
    if f.r3 != [] {
      var d :| DependencyIn(s, d, StateUnresolved) && Complete(d);
    }
  }

  lemma OnlyComplete(s: EvaluationSnapshot)
    requires !Unsettled(s) && !exists d :: DependencyIn(s, d, StateUnresolved) && Complete(d)
    ensures !exists d :: DependencyIn(s, d, StateUnresolved)
  {
    hide Needs, Declares, PrecedentsOpen, ConsequencesOpen, Grants, Prohibits, Evidenced, Complete;
  }

  // ----- the canonical form keeps the specification

  lemma SameContent(r: PolicyRule)
    ensures forall q :: q in CanonicalRule(r).requiredEvidence <==> q in r.requiredEvidence
    ensures forall id :: id in CanonicalRule(r).requiredCapabilityIds <==> id in r.requiredCapabilityIds
  {
    hide Sort, Listing;
    SortMembers(RequirementKey, r.requiredEvidence);
  }

  lemma CanonicalRuleMembers(s: EvaluationSnapshot)
    ensures forall r :: r in CanonicalRules(s.policy.rules) <==> exists q :: q in s.policy.rules && r == CanonicalRule(q)
  {
    hide Sort, CanonicalRule;
    SortMembers(RuleKey, s.policy.rules);
    EachMembers(CanonicalRule, Sort(RuleKey, s.policy.rules));
  }

  lemma CanonicalGrants(s: EvaluationSnapshot)
    ensures var c := CanonicalSnapshot(s);
      && (forall r | Grants(s, r) :: Grants(c, CanonicalRule(r)))
      && (forall r | Grants(c, r) :: exists q :: Grants(s, q) && r == CanonicalRule(q))
      && ((exists r :: Prohibits(c, r)) <==> exists r :: Prohibits(s, r))
  {
    hide Sort, Listing, CanonicalRules;
    CanonicalRuleMembers(s);
    var c := CanonicalSnapshot(s);
    forall r | Grants(c, r) ensures exists q :: Grants(s, q) && r == CanonicalRule(q) {
      var q :| q in s.policy.rules && r == CanonicalRule(q);
      assert Grants(s, q);
    }
    if r :| Prohibits(c, r) {
      var q :| q in s.policy.rules && r == CanonicalRule(q);
      assert Prohibits(s, q);
    }
    if r :| Prohibits(s, r) { assert Prohibits(c, CanonicalRule(r)); }
  }

  lemma CanonicalNeeds(s: EvaluationSnapshot)
    ensures var c := CanonicalSnapshot(s);
      && ((exists r :: Grants(c, r)) <==> exists r :: Grants(s, r))
      && ((exists r :: Grants(c, r) && r.requireConsequence) <==> exists r :: Grants(s, r) && r.requireConsequence)
      && (forall id :: Needs(c, id) <==> Needs(s, id))
      && (forall q :: Demands(c, q) <==> Demands(s, q))
  {
    hide Grants, CanonicalSnapshot, CanonicalRule;
    CanonicalGrants(s);
    forall r ensures CanonicalRule(r).requireConsequence == r.requireConsequence { ConsequenceFlagKept(r); }
    forall r, id ensures id in CanonicalRule(r).requiredCapabilityIds <==> id in r.requiredCapabilityIds { SameContent(r); }
    forall r, q ensures q in CanonicalRule(r).requiredEvidence <==> q in r.requiredEvidence { SameContent(r); }
  }

  lemma ConsequenceFlagKept(r: PolicyRule)
    ensures CanonicalRule(r).requireConsequence == r.requireConsequence
  {}

  lemma CanonicalPrecedentKeeps(x: PrecedentRef)
    ensures CanonicalPrecedent(x) == x.(consequenceRefs := CanonicalPrecedent(x).consequenceRefs)
    ensures forall k :: k in CanonicalPrecedent(x).consequenceRefs <==> k in x.consequenceRefs
    ensures CanonicalPrecedent(x).consequenceRefs == [] <==> x.consequenceRefs == []
  {
    hide Sort;
    SortMembers(ConsequenceKey, x.consequenceRefs);
  }

  lemma CanonicalPrecedentMembers(s: EvaluationSnapshot)
    ensures forall x :: x in CanonicalSnapshot(s).precedents <==> exists y :: y in s.precedents && x == CanonicalPrecedent(y)
  {
    hide Sort, CanonicalPrecedent, CanonicalRules;
    SortMembers(PrecedentKey, s.precedents);
    EachMembers(CanonicalPrecedent, Sort(PrecedentKey, s.precedents));
  }

  lemma CanonicalKeys(s: EvaluationSnapshot)
    ensures CanonicalSnapshot(s).proposal.actionTypeKey == s.proposal.actionTypeKey
    ensures CanonicalSnapshot(s).proposal.targetKey == s.proposal.targetKey
  {}

  lemma CanonicalGoverns(s: EvaluationSnapshot)
    ensures var c := CanonicalSnapshot(s);
      && (forall x, d | GovernsAs(s, x, d) :: GovernsAs(c, CanonicalPrecedent(x), d))
      && (forall x, d | GovernsAs(c, x, d) :: exists y :: GovernsAs(s, y, d) && x == CanonicalPrecedent(y))
      && ((exists x :: x in c.precedents && x.similarity.None?) <==> exists x :: x in s.precedents && x.similarity.None?)
  {
    hide CanonicalSnapshot, CanonicalPrecedent;
    CanonicalPrecedentMembers(s);
    CanonicalKeys(s);
    forall x ensures CanonicalPrecedent(x) == x.(consequenceRefs := CanonicalPrecedent(x).consequenceRefs) { CanonicalPrecedentKeeps(x); }
    var c := CanonicalSnapshot(s);
    forall x, d | GovernsAs(c, x, d) ensures exists y :: GovernsAs(s, y, d) && x == CanonicalPrecedent(y) {
      var y :| y in s.precedents && x == CanonicalPrecedent(y);
      assert GovernsAs(s, y, d);
    }
    if x :| x in s.precedents && x.similarity.None? { assert CanonicalPrecedent(x) in c.precedents; }
  }

  lemma CanonicalPrecedentsOpen(s: EvaluationSnapshot)
    ensures PrecedentsOpen(CanonicalSnapshot(s)) <==> PrecedentsOpen(s)
  {
    hide CanonicalSnapshot, GovernsAs, CanonicalPrecedent;
    CanonicalGoverns(s);
  }

  lemma CanonicalConsequencesOpen(s: EvaluationSnapshot)
    ensures ConsequencesOpen(CanonicalSnapshot(s)) <==> ConsequencesOpen(s)
  {
    hide CanonicalSnapshot, GovernsAs, CanonicalPrecedent, Grants;
    CanonicalGoverns(s);
    CanonicalNeeds(s);
    forall x
      ensures forall k :: k in CanonicalPrecedent(x).consequenceRefs <==> k in x.consequenceRefs
      ensures CanonicalPrecedent(x).consequenceRefs == [] <==> x.consequenceRefs == []
    {
      CanonicalPrecedentKeeps(x);
    }
    var c := CanonicalSnapshot(s);
    if x, k :| GovernsAs(c, x, Approve) && k in x.consequenceRefs && k.divergence >= HIGH_DIVERGENCE {
      var y :| GovernsAs(s, y, Approve) && x == CanonicalPrecedent(y);
    }
    if x, k :| GovernsAs(s, x, Approve) && k in x.consequenceRefs && k.divergence >= HIGH_DIVERGENCE {
      assert GovernsAs(c, CanonicalPrecedent(x), Approve);
    }
  }

  lemma CanonicalRows(s: EvaluationSnapshot)
    ensures var c := CanonicalSnapshot(s);
      && (forall e :: e in c.exclusions && Excludes(c.proposal)(e) <==> e in s.exclusions && Excludes(s.proposal)(e))
      && (forall d, state :: DependencyIn(c, d, state) <==> DependencyIn(s, d, state))
      && (forall id, state :: Declares(c, id, state) <==> Declares(s, id, state))
      && (forall q :: Evidenced(c, q) <==> Evidenced(s, q))
  {
    hide Sort, Satisfied, Meets, CanonicalRules, CanonicalPrecedent;
    SortMembers(ExclusionKey, s.exclusions);
    SortMembers(DependencyKey, s.dependencies);
    SortMembers(CapabilityKey, s.capabilities);
    SortIsIdempotent(RefKey, s.proposal.evidenceRefs);
    forall q ensures Evidenced(CanonicalSnapshot(s), q) <==> Evidenced(s, q) {
      SatisfiedExactly(s.proposal.evidenceRefs, q);
      SatisfiedExactly(CanonicalSnapshot(s).proposal.evidenceRefs, q);
    }
  }

  lemma CanonicalKeepsVerdict(s: EvaluationSnapshot)
    ensures DeclaredVerdict(CanonicalSnapshot(s)) == DeclaredVerdict(s)
  {
    hide CanonicalSnapshot, GovernsAs, Grants, Prohibits, Needs, Declares, Demands, Evidenced, DependencyIn, PrecedentsOpen, ConsequencesOpen, Complete;
    CanonicalGrants(s);
    CanonicalNeeds(s);
    CanonicalPrecedentsOpen(s);
    CanonicalConsequencesOpen(s);
    CanonicalRows(s);
  }

  lemma PinnedThresholds(c: RuleConfig)
    requires ConfigAccepted(c)
    ensures Thresholds(c)
  {}

  lemma JudgedConfig(normalize: Normalizer, s: EvaluationSnapshot, config: RuleConfig)
    requires InputStop(normalize, s, config).None?
    ensures ConfigAccepted(config) && Thresholds(config)
  {
    hide ConfigAccepted, SnapshotStop, ContentStop, BindingStop;
    if ConfigAccepted(config) { PinnedThresholds(config); }
  }

  /** The gate's verdict is the declared four-valued verdict of the snapshot as it was given. */
  lemma VerdictIsDeclared(normalize: Normalizer, s: EvaluationSnapshot, config: RuleConfig)
    ensures var outcome := Evaluation(normalize, s, config);
      outcome.Finalized? ==> outcome.result.verdict == DeclaredVerdict(s)
  {
    hide CanonicalSnapshot, InputStop, Reduce, FactStop, AllFindings, DeclaredVerdict, FullTrace, BlockedOf, ChangedRules, Warnings, ResultDigest;
    var c := CanonicalSnapshot(s);
    CanonicalKeepsVerdict(s);
    if InputStop(normalize, c, config).None? && FactStop(c, config).None? {
      JudgedConfig(normalize, c, config);
      ReducedVerdict(c, config, PriorId(c));
    }
  }

  /** The gate answers NO, if it answers. */
  ghost predicate AnsweredNo(normalize: Normalizer, s: EvaluationSnapshot, config: RuleConfig) {
    var outcome := Evaluation(normalize, s, config);
    outcome.Finalized? ==> outcome.result.verdict == NO
  }

  lemma DeniedIsNo(normalize: Normalizer, s: EvaluationSnapshot, config: RuleConfig)
    requires Denied(s)
    ensures AnsweredNo(normalize, s, config)
  {
    hide Evaluation, Denied;
    VerdictIsDeclared(normalize, s, config);
  }
}
