/** The predicates that a finished trace records as triggered, the questions it asks and the steps
    it decides by, told from the snapshot as it was given. */
module GateTriggers {
  import opened Canonical
  import opened Gate
  import opened GateLaterRecords
  import opened GateRecords
  import opened GateRules
  import opened GateVerdict
  import opened Json
  import opened Models
  import opened Ordering
  import opened Sequences

  // ----- what the snapshot triggers

  ghost predicate BlindId(s: EvaluationSnapshot, id: string) {
    exists x :: x in s.precedents && x.similarity.None? && x.proposalId == id
  }

  ghost predicate UnmetId(s: EvaluationSnapshot, id: string) {
    exists q :: Demands(s, q) && !Evidenced(s, q) && q.requirementId == id
  }

  ghost predicate HighId(s: EvaluationSnapshot, id: string) {
    exists x, k :: GovernsAs(s, x, Approve) && k in x.consequenceRefs && k.divergence >= 0.5 && k.consequenceId == id
  }

  ghost predicate FalseId(s: EvaluationSnapshot, id: string) {
    exists d :: d in s.dependencies && d.state == StateFalse && d.dependencyId == id
  }

  /** An unresolved dependency, necessary and sufficient for the answer or not both. */
  ghost predicate OpenId(s: EvaluationSnapshot, id: string, complete: bool) {
    exists d :: d in s.dependencies && d.state == StateUnresolved && d.dependencyId == id && (d.necessaryForYes && d.sufficientIfTrue <==> complete)
  }

  ghost predicate NoRule(s: EvaluationSnapshot) { !SomeGrant(s) && !SomeProhibition(s) }

  /** The snapshot gives cause for the predicate. */
  ghost predicate Triggers(s: EvaluationSnapshot, q: Predicate) {
    match q
    case HardPolicyOutside => SomeProhibition(s)
    case PolicySourceUnresolved => NoRule(s)
    case TargetScopeUnresolved => NoRule(s)
    case ActiveExclusionSame => SomeExclusion(s)
    case SimilarityUnresolved(id) => BlindId(s, id)
    case NoQualifyingApprove => !SomeDecided(s, Approve)
    case PrecedentConflict => InConflict(s)
    case EvidenceMissing(id) => UnmetId(s, id)
    case HighDivergence(id) => HighId(s, id)
    case MissingConsequence(id) => ConsequencesAsked(s) && Unobserved(s, id)
    case CapabilityMissing(id) => Needs(s, id) && Undeclared(s, id)
    case CapabilityFalse(id) => Needs(s, id) && Declares(s, id, StateFalse)
    case CapabilityUnresolved(id) => Needs(s, id) && Declares(s, id, StateUnresolved)
    case DependencyFalse(id) => FalseId(s, id)
    case CompleteFormula(id) => OpenId(s, id, true)
    case IncompleteFormula(id) => OpenId(s, id, false)
  }

  // ----- rule by rule

  predicate Lists(f: Findings, q: Predicate) { q in f.r1 || q in f.r2 || q in f.r3 }

  /** The findings list exactly the triggered predicates of the rule. */
  ghost predicate ListsExactly(s: EvaluationSnapshot, f: Findings, rule: RuleName) {
    forall q :: Lists(f, q) <==> q.Rule() == rule && Triggers(s, q)
  }

  lemma PolicyListed(s: EvaluationSnapshot)
    ensures ListsExactly(s, PolicyPart(CanonicalSnapshot(s)), F02)
  {
    hide CanonicalSnapshot, AllowRules, DenyRules, Applicable, PolicyGap, TargetGap;
    PolicySides(s);
  }

  lemma PolicySides(s: EvaluationSnapshot)
    ensures DenyRules(CanonicalSnapshot(s)) == [] <==> !SomeProhibition(s)
    ensures AllowRules(CanonicalSnapshot(s)) == [] <==> !SomeGrant(s)
  {
    hide CanonicalSnapshot, Grants, Prohibits, AllowRules, DenyRules;
    var c := CanonicalSnapshot(s);
    ApplicableMembers(c);
    SameScope(s);
    Occupied(AllowRules(c));
    Occupied(DenyRules(c));
  }

  lemma ExclusionListed(s: EvaluationSnapshot)
    ensures ListsExactly(s, ExclusionPart(CanonicalSnapshot(s)), F03)
  {
    hide CanonicalSnapshot, Sort;
    SameExclusions(s);
    SortMembers(ExclusionKey, s.exclusions);
    assert SomeExcludes(CanonicalSnapshot(s).proposal, Sort(ExclusionKey, s.exclusions)) <==> SomeExclusion(s);
  }

  lemma BlindGiven(s: EvaluationSnapshot, id: string)
    ensures (exists x :: x in CanonicalSnapshot(s).precedents && x.similarity.None? && x.proposalId == id) <==> BlindId(s, id)
  {
    hide CanonicalSnapshot, CanonicalPrecedent;
    CanonicalPrecedentMembers(s);
    var c := CanonicalSnapshot(s);
    if x :| x in c.precedents && x.similarity.None? && x.proposalId == id {
      var y :| y in s.precedents && x == CanonicalPrecedent(y);
      KeptFields(y);
    }
    if y :| y in s.precedents && y.similarity.None? && y.proposalId == id {
      KeptFields(y);
      assert CanonicalPrecedent(y) in c.precedents;
    }
  }

  lemma RetrievalListed(s: EvaluationSnapshot, config: RuleConfig)
    ensures ListsExactly(s, RetrievalPart(CanonicalSnapshot(s), config), F04)
  {
    hide CanonicalSnapshot, Sort, Gather, RetrievalStep, BlindId, SimilarityGap;
    var c := CanonicalSnapshot(s);
    SortMembers(PrecedentKey, c.precedents);
    GatherMembers(SimilarityPredicates, SortedPrecedents(c));
    forall q ensures Lists(RetrievalPart(c, config), q) <==> q.Rule() == F04 && Triggers(s, q) {
      if q.SimilarityUnresolved? { BlindGiven(s, q.id); }
    }
  }

  lemma SameDecided(s: EvaluationSnapshot, d: DecisionValue)
    ensures SomeDecided(CanonicalSnapshot(s), d) <==> SomeDecided(s, d)
  {
    hide CanonicalSnapshot, GovernsAs, CanonicalPrecedent;
    CanonicalGoverns(s);
  }

  lemma ApprovalListed(s: EvaluationSnapshot, config: RuleConfig)
    requires Thresholds(config)
    ensures ListsExactly(s, ApprovalPart(CanonicalSnapshot(s), config), F05)
  {
    hide CanonicalSnapshot, Approved, GovernsAs, ApprovalGap;
    PrecedentMembers(CanonicalSnapshot(s), config);
    Occupied(Approved(CanonicalSnapshot(s), config));
    SameDecided(s, Approve);
  }

  lemma ConflictListed(s: EvaluationSnapshot, config: RuleConfig)
    requires Thresholds(config)
    ensures ListsExactly(s, ConflictPart(CanonicalSnapshot(s), config), F06)
  {
    hide CanonicalSnapshot, Qualifying, GovernsAs, ConflictGap;
    var c := CanonicalSnapshot(s);
    forall d: DecisionValue ensures Some(d) in Each(DecisionOf, Qualifying(c, config)) <==> SomeDecided(s, d) {
      DecisionMembers(c, config, d);
      SameDecided(s, d);
    }
  }

  lemma UnmetListed(s: EvaluationSnapshot, q: Predicate)
    ensures var refs := Sort(RefKey, s.proposal.evidenceRefs);
      (exists r :: Demands(s, r) && q in RequirementPredicates(refs)(r)) <==> q.EvidenceMissing? && UnmetId(s, q.id)
  {
    hide Sort, Satisfied, Demands, Evidenced;
    var refs := Sort(RefKey, s.proposal.evidenceRefs);
    forall r ensures Satisfied(refs, r) <==> Evidenced(s, r) { RequirementTold(s, r); }
    if q.EvidenceMissing? && UnmetId(s, q.id) {
      var r :| Demands(s, r) && !Evidenced(s, r) && r.requirementId == q.id;
      assert q in RequirementPredicates(refs)(r);
    }
  }

  lemma EvidenceListed(s: EvaluationSnapshot)
    ensures ListsExactly(s, EvidencePart(CanonicalSnapshot(s)), F07)
  {
    hide CanonicalSnapshot, Sort, Gather, Requirements, RequirementPredicates, BoundRef, RequirementGaps, Demands, UnmetId, AllSatisfied;
    var refs, qs := Sort(RefKey, s.proposal.evidenceRefs), Requirements(CanonicalSnapshot(s));
    SameRefs(s);
    SameDemands(s);
    GatherMembers(RequirementPredicates(refs), qs);
    forall q ensures Lists(EvidencePart(CanonicalSnapshot(s)), q) <==> q.Rule() == F07 && Triggers(s, q) { UnmetListed(s, q); }
  }

  ghost predicate HighAmong(config: RuleConfig, given: seq<Report>, id: string) {
    exists r :: r in given && IsMore(config, r) && r.1.consequenceId == id
  }

  lemma HighFrom(s: EvaluationSnapshot, config: RuleConfig, r: Report)
    requires Thresholds(config) && GivenBy(s, r) && IsMore(config, r)
    ensures HighId(s, r.1.consequenceId)
  {
    hide GovernsAs;
  }

  lemma HighTo(config: RuleConfig, given: seq<Report>, r: Report)
    requires Thresholds(config) && r in given && r.1.divergence >= 0.5
    ensures HighAmong(config, given, r.1.consequenceId)
  {
    MoreMeans(config, r);
  }

  lemma HighListed(s: EvaluationSnapshot, config: RuleConfig, id: string)
    requires Thresholds(config)
    ensures HighAmong(config, Reports(Approved(CanonicalSnapshot(s), config)), id) <==> HighId(s, id)
  {
    hide CanonicalSnapshot, CanonicalPrecedent, Reports, Approved, GovernsAs, Thresholds, IsMore, GivenBy;
    ReportsGiven(s, config);
    var given := Reports(Approved(CanonicalSnapshot(s), config));
    if HighId(s, id) {
      var x, k :| GovernsAs(s, x, Approve) && k in x.consequenceRefs && k.divergence >= 0.5 && k.consequenceId == id;
      HighTo(config, given, (CanonicalPrecedent(x), k));
    } else if r :| r in given && IsMore(config, r) && r.1.consequenceId == id {
      HighFrom(s, config, r);
    }
  }

  lemma MoreMeans(config: RuleConfig, r: Report)
    requires Thresholds(config)
    ensures IsMore(config, r) <==> r.1.divergence >= 0.5
  {}

  lemma ReportsListed(config: RuleConfig, given: seq<Report>, missing: seq<string>, q: Predicate)
    ensures q in Gather(DivergencePredicates(config), given) <==>
      q.HighDivergence? && HighAmong(config, given, q.id)
    ensures q in Gather(MissingPredicates, missing) <==> q.MissingConsequence? && q.id in missing
  {
    hide Gather, IsMore;
    GatherMembers(DivergencePredicates(config), given);
    GatherMembers(MissingPredicates, missing);
    if q.HighDivergence? && HighAmong(config, given, q.id) {
      var r :| r in given && IsMore(config, r) && r.1.consequenceId == q.id;
      assert q in DivergencePredicates(config)(r);
    }
    if q.MissingConsequence? && q.id in missing { assert q in MissingPredicates(q.id); }
  }

  lemma ConsequenceListed(s: EvaluationSnapshot, config: RuleConfig)
    requires Thresholds(config)
    ensures ListsExactly(s, ConsequencePart(CanonicalSnapshot(s), config), F08)
  {
    hide CanonicalSnapshot, Gather, Approved, Reports, MissingIds, ConsequenceRequired, AllowRules, HighId, Unobserved, ConsequencesAsked, IsMore, HighAmong,
      DivergenceGaps, MissingGaps, ConsequenceStep, Thresholds;
    var c := CanonicalSnapshot(s);
    var given, missing := Reports(Approved(c, config)), MissingIds(Approved(c, config));
    MissingGiven(s, config);
    AskedGiven(s, config);
    NothingApproved(config);
    forall q ensures Lists(ConsequencePart(c, config), q) <==> q.Rule() == F08 && Triggers(s, q) {
      ReportsListed(config, given, missing, q);
      if q.HighDivergence? { HighListed(s, config, q.id); }
    }
  }

  lemma NothingApproved(config: RuleConfig)
    ensures Reports([]) == [] && MissingIds([]) == [] && forall id :: !HighAmong(config, [], id)
  {}

  lemma CapabilityListed(s: EvaluationSnapshot)
    requires !DuplicateCapability(CanonicalSnapshot(s).capabilities)
    ensures ListsExactly(s, CapabilityPart(CanonicalSnapshot(s)), F09)
  {
    hide CanonicalSnapshot, Gather, Needs, Declares, Undeclared, RequiredCapabilities, AllowRules, StateOf, DuplicateCapability, SomeInState,
      CapabilityEvidence, CapabilityGaps, RowOfCapability, CapabilityRowSays, Increasing;
    var facts, ids := CanonicalSnapshot(s).capabilities, RequiredCapabilities(AllowRules(CanonicalSnapshot(s)));
    NeedsGiven(s);
    GatherMembers(FalseCapability(facts), ids);
    GatherMembers(OpenCapability(facts), ids);
    forall q ensures Lists(CapabilityPart(CanonicalSnapshot(s)), q) <==> q.Rule() == F09 && Triggers(s, q) {
      CapabilityPredicates(s, q);
    }
  }

  /** The predicates of one capability. */
  lemma CapabilityPredicates(s: EvaluationSnapshot, q: Predicate)
    requires !DuplicateCapability(CanonicalSnapshot(s).capabilities)
    ensures var facts := CanonicalSnapshot(s).capabilities;
      forall id :: q in FalseCapability(facts)(id) || q in OpenCapability(facts)(id) <==>
        q.Rule() == F09 && q.id == id && (q.CapabilityMissing? ==> Undeclared(s, id)) && (q.CapabilityFalse? ==> Declares(s, id, StateFalse))
        && (q.CapabilityUnresolved? ==> Declares(s, id, StateUnresolved))
  {
    hide CanonicalSnapshot, Declares, Undeclared, StateOf, DuplicateCapability, RowOfCapability, CapabilityRowSays;
    forall id
      ensures var o := StateOf(CanonicalSnapshot(s).capabilities, id);
        (forall state :: o == Some(state) <==> Declares(s, id, state)) && (o == None <==> Undeclared(s, id))
    {
      StateGiven(s, id);
    }
  }

  predicate DependencyLists(d: DependencyRef, q: Predicate) {
    q in FalseDependency(d) || q in OpenDependency(d) || q in ConditionalDependency(d)
  }

  lemma DependencyPredicates(s: EvaluationSnapshot, q: Predicate)
    ensures (exists d :: d in s.dependencies && DependencyLists(d, q)) <==> q.Rule() == F10 && Triggers(s, q)
  {
    if q.Rule() == F10 && Triggers(s, q) {
      var d :| d in s.dependencies && d.dependencyId == q.id && DependencyLists(d, q);
    }
  }

  lemma DependencyListed(s: EvaluationSnapshot)
    ensures ListsExactly(s, DependencyPart(CanonicalSnapshot(s)), F10)
  {
    hide CanonicalSnapshot, Sort, Gather, FormulaStep, Triggers, FalseDependency, OpenDependency, ConditionalDependency, DependencyGaps,
      SortedDependencies;
    var ds := SortedDependencies(CanonicalSnapshot(s));
    DependenciesGiven(s);
    GatherMembers(FalseDependency, ds);
    GatherMembers(OpenDependency, ds);
    GatherMembers(ConditionalDependency, ds);
    forall q ensures Lists(DependencyPart(CanonicalSnapshot(s)), q) <==> q.Rule() == F10 && Triggers(s, q) { DependencyPredicates(s, q); }
  }

  lemma DependenciesGiven(s: EvaluationSnapshot)
    ensures forall d :: d in SortedDependencies(CanonicalSnapshot(s)) <==> d in s.dependencies
  {
    hide Sort, CanonicalRules;
    SortMembers(DependencyKey, s.dependencies);
    SortMembers(DependencyKey, CanonicalSnapshot(s).dependencies);
  }

  // ----- all rules

  lemma AllListed(s: EvaluationSnapshot, config: RuleConfig)
    requires var c := CanonicalSnapshot(s); Thresholds(config) && !DuplicateCapability(c.capabilities)
    ensures var c := CanonicalSnapshot(s);
      forall q :: q in Triggered(FactFindings(c, config, PriorId(c))) <==> Triggers(s, q)
  {
    hide CanonicalSnapshot, FactFindings, PolicyPart, ExclusionPart, RetrievalPart, ApprovalPart, ConflictPart, EvidencePart, ConsequencePart,
      CapabilityPart, DependencyPart, Thresholds, DuplicateCapability, Triggers, PriorId;
    var c := CanonicalSnapshot(s);
    PolicyListed(s);
    ExclusionListed(s);
    RetrievalListed(s, config);
    ApprovalListed(s, config);
    ConflictListed(s, config);
    EvidenceListed(s);
    ConsequenceListed(s, config);
    CapabilityListed(s);
    DependencyListed(s);
    ListParts(c, config, PriorId(c));
    QuietLists(c, config);
    forall q ensures q in Triggered(FactFindings(c, config, PriorId(c))) <==> Triggers(s, q) {
      assert Lists(PolicyPart(c), q) <==> q.Rule() == F02 && Triggers(s, q);
      assert Lists(ExclusionPart(c), q) <==> q.Rule() == F03 && Triggers(s, q);
      assert Lists(RetrievalPart(c, config), q) <==> q.Rule() == F04 && Triggers(s, q);
      assert Lists(ApprovalPart(c, config), q) <==> q.Rule() == F05 && Triggers(s, q);
      assert Lists(ConflictPart(c, config), q) <==> q.Rule() == F06 && Triggers(s, q);
      assert Lists(EvidencePart(c), q) <==> q.Rule() == F07 && Triggers(s, q);
      assert Lists(ConsequencePart(c, config), q) <==> q.Rule() == F08 && Triggers(s, q);
      assert Lists(CapabilityPart(c), q) <==> q.Rule() == F09 && Triggers(s, q);
      assert Lists(DependencyPart(c), q) <==> q.Rule() == F10 && Triggers(s, q);
    }
  }

  /** The lists a rule never adds to. */
  lemma QuietLists(c: EvaluationSnapshot, config: RuleConfig)
    ensures PolicyPart(c).r3 == ExclusionPart(c).r2 == ExclusionPart(c).r3 == RetrievalPart(c, config).r1 == RetrievalPart(c, config).r3 == []
    ensures ApprovalPart(c, config).r1 == ApprovalPart(c, config).r3 == ConflictPart(c, config).r1 == ConflictPart(c, config).r3 == []
    ensures EvidencePart(c).r1 == EvidencePart(c).r3 == ConsequencePart(c, config).r1 == ConsequencePart(c, config).r3 == CapabilityPart(c).r3 == []
  {
    hide ScopeFindings, ExclusionFindings, RetrievalFindings, ApprovalFindings, ConflictFindings, EvidenceFindings, ConsequenceFindings,
      CapabilityFindings;
  }
}
