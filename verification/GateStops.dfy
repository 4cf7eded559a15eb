/** For which reason an evaluation is blocked: the checks in order, told from the snapshot as it
    was given, and the first one that fails. */
module GateStops {
  import opened Canonical
  import opened Changes
  import opened Gate
  import opened GateAnswers
  import opened GateLaterRecords
  import opened GateProperties
  import opened GateRules
  import opened GateVerdict
  import opened Json
  import opened Models
  import opened Ordering
  import opened Sequences
  import opened Traces

  datatype Check = Check(failed: bool, code: ErrorCode)

  /** The code of the first check that fails. */
  function StopOf(cs: seq<Check>): Option<ErrorCode> {
    if cs == [] then None else if cs[0].failed then Some(cs[0].code) else StopOf(cs[1..])
  }

  /** A check stops with its code exactly when it is the first one that fails. */
  lemma {:induction false} StopMeans(cs: seq<Check>, k: nat)
    requires k < |cs| && cs[k].failed && forall j | 0 <= j < k :: !cs[j].failed
    ensures StopOf(cs) == Some(cs[k].code)
  {
    if k > 0 {
      assert !cs[0].failed;
      forall j | 0 <= j < k - 1 ensures !cs[1..][j].failed { assert !cs[j + 1].failed; }
      StopMeans(cs[1..], k - 1);
    }
  }

  lemma {:induction false} NoStopMeans(cs: seq<Check>)
    ensures StopOf(cs) == None <==> forall k | 0 <= k < |cs| :: !cs[k].failed
  {
    if cs != [] {
      NoStopMeans(cs[1..]);
      assert forall k | 0 < k < |cs| :: cs[k] == cs[1..][k - 1];
      if !cs[0].failed && forall k | 0 <= k < |cs[1..]| :: !cs[1..][k].failed {
        forall k | 0 <= k < |cs| ensures !cs[k].failed { if k > 0 { assert cs[k] == cs[1..][k - 1]; } }
      }
      if forall k | 0 <= k < |cs| :: !cs[k].failed {
        forall k | 0 <= k < |cs[1..]| ensures !cs[1..][k].failed { assert !cs[k + 1].failed; }
      }
    }
  }

  lemma {:induction false} StopConcat(a: seq<Check>, b: seq<Check>)
    ensures StopOf(a + b) == First(StopOf(a), StopOf(b))
  {
    if a == [] {
      assert a + b == b;
    } else {
      StopConcat(a[1..], b);
      assert (a + b)[1..] == a[1..] + b;
    }
  }

  lemma OneCheck(c: Check)
    ensures StopOf([c]) == Refuse(c.failed, c.code)
  {}

  lemma CheckThen(c: Check, b: seq<Check>)
    ensures StopOf([c] + b) == First(Refuse(c.failed, c.code), StopOf(b))
  {
    OneCheck(c);
    StopConcat([c], b);
  }

  // ----- the keys and digests of the proposal

  /** The display text normalizes to the key. */
  function KeyChecks(normalize: Normalizer, display: string, key: string, mismatch: ErrorCode): seq<Check> {
    [Check(normalize(display).None?, EmptyNormalizedKey), Check(normalize(display) != Some(key), mismatch)]
  }

  function ProposalChecks(normalize: Normalizer, p: Proposal): seq<Check> {
    KeyChecks(normalize, p.actionType, p.actionTypeKey, ActionKeyMismatch)
    + (KeyChecks(normalize, p.target, p.targetKey, TargetKeyMismatch)
       + [Check(31 as char in p.actionTypeKey || 31 as char in p.targetKey, ClassKeyMismatch),
          Check(p.actionDigest != OfAction(p.actionType, p.actionTypeKey, p.target, p.targetKey, p.parametersJson), ActionDigestMismatch),
          Check(p.proposalDigest != OfProposal(CanonicalProposal(p).(proposalDigest := Zero)), ProposalDigestMismatch)])
  }

  lemma KeyChecked(normalize: Normalizer, display: string, key: string, mismatch: ErrorCode)
    ensures StopOf(KeyChecks(normalize, display, key, mismatch)) == KeyStop(normalize, display, key, mismatch)
  {
    TwoChecks(Check(normalize(display).None?, EmptyNormalizedKey), Check(normalize(display) != Some(key), mismatch));
  }

  lemma TwoChecks(a: Check, b: Check)
    ensures StopOf([a, b]) == First(Refuse(a.failed, a.code), Refuse(b.failed, b.code))
  {
    OneCheck(b);
    CheckThen(a, [b]);
    assert [a] + [b] == [a, b];
  }

  lemma ThreeChecks(a: Check, b: Check, c: Check)
    ensures StopOf([a, b, c]) == First(Refuse(a.failed, a.code), First(Refuse(b.failed, b.code), Refuse(c.failed, c.code)))
  {
    TwoChecks(b, c);
    CheckThen(a, [b, c]);
    assert [a] + [b, c] == [a, b, c];
  }

  lemma ProposalChecked(normalize: Normalizer, p: Proposal)
    ensures StopOf(ProposalChecks(normalize, p)) == ProposalStop(normalize, CanonicalProposal(p))
  {
    hide StopOf, KeyChecks, KeyStop, Sort;
    var q := CanonicalProposal(p);
    var c := Check(31 as char in p.actionTypeKey || 31 as char in p.targetKey, ClassKeyMismatch);
    var d := Check(p.actionDigest != OfAction(p.actionType, p.actionTypeKey, p.target, p.targetKey, p.parametersJson), ActionDigestMismatch);
    var e := Check(p.proposalDigest != OfProposal(q.(proposalDigest := Zero)), ProposalDigestMismatch);
    var targets := KeyChecks(normalize, p.target, p.targetKey, TargetKeyMismatch);
    ThreeChecks(c, d, e);
    KeyChecked(normalize, p.target, p.targetKey, TargetKeyMismatch);
    StopConcat(targets, [c, d, e]);
    KeyChecked(normalize, p.actionType, p.actionTypeKey, ActionKeyMismatch);
    StopConcat(KeyChecks(normalize, p.actionType, p.actionTypeKey, ActionKeyMismatch), targets + [c, d, e]);
  }

  // ----- the exclusions

  predicate ExclusionGood(normalize: Normalizer, e: ExclusionRef) {
    normalize(e.actionType) == Some(e.actionTypeKey) && normalize(e.target) == Some(e.targetKey) && e.sourceDecisionValue == Reject
  }

  /** The first text of the exclusion that fails normalizes to nothing. */
  predicate Nameless(normalize: Normalizer, e: ExclusionRef) {
    normalize(e.actionType).None? || (normalize(e.actionType) == Some(e.actionTypeKey) && normalize(e.target).None?)
  }

  predicate GoodBefore(normalize: Normalizer, es: seq<ExclusionRef>, i: nat)
    requires i <= |es|
  {
    forall j | 0 <= j < i :: ExclusionGood(normalize, es[j])
  }

  /** The first exclusion that fails does so by a text that normalizes to nothing. */
  predicate NamelessFirst(normalize: Normalizer, es: seq<ExclusionRef>) {
    exists i | 0 <= i < |es| :: GoodBefore(normalize, es, i) && Nameless(normalize, es[i])
  }

  predicate AllGood(normalize: Normalizer, es: seq<ExclusionRef>) { GoodBefore(normalize, es, |es|) }

  function ExclusionChecks(normalize: Normalizer, es: seq<ExclusionRef>): seq<Check> {
    [Check(NamelessFirst(normalize, es), EmptyNormalizedKey), Check(!AllGood(normalize, es), InvalidExclusion)]
  }

  lemma GoodShift(normalize: Normalizer, es: seq<ExclusionRef>, i: nat)
    requires i < |es| && ExclusionGood(normalize, es[0])
    ensures GoodBefore(normalize, es, i + 1) <==> GoodBefore(normalize, es[1..], i)
  {
    hide ExclusionGood;
    var rest := es[1..];
    if GoodBefore(normalize, es, i + 1) {
      forall j | 0 <= j < i ensures ExclusionGood(normalize, rest[j]) { assert rest[j] == es[j + 1]; }
    }
    if GoodBefore(normalize, rest, i) {
      forall j | 0 <= j < i + 1 ensures ExclusionGood(normalize, es[j]) { if j > 0 { assert es[j] == rest[j - 1]; } }
    }
  }

  lemma GoodHead(normalize: Normalizer, es: seq<ExclusionRef>)
    requires es != [] && ExclusionGood(normalize, es[0])
    ensures AllGood(normalize, es) <==> AllGood(normalize, es[1..])
    ensures NamelessFirst(normalize, es) <==> NamelessFirst(normalize, es[1..])
  {
    hide ExclusionGood, Nameless, GoodBefore;
    var rest := es[1..];
    NotNameless(normalize, es[0]);
    GoodShift(normalize, es, |rest|);
    if i :| 0 <= i < |es| && GoodBefore(normalize, es, i) && Nameless(normalize, es[i]) {
      GoodShift(normalize, es, i - 1);
      assert rest[i - 1] == es[i];
    }
    if i :| 0 <= i < |rest| && GoodBefore(normalize, rest, i) && Nameless(normalize, rest[i]) {
      GoodShift(normalize, es, i);
      assert es[i + 1] == rest[i];
    }
  }

  lemma NotNameless(normalize: Normalizer, e: ExclusionRef)
    requires ExclusionGood(normalize, e)
    ensures !Nameless(normalize, e)
  {}

  lemma {:induction false} ExclusionsChecked(normalize: Normalizer, es: seq<ExclusionRef>)
    ensures StopOf(ExclusionChecks(normalize, es)) == ExclusionsStop(normalize, es)
  {
    TwoChecks(Check(NamelessFirst(normalize, es), EmptyNormalizedKey), Check(!AllGood(normalize, es), InvalidExclusion));
    if es != [] {
      if ExclusionGood(normalize, es[0]) {
        GoodHead(normalize, es);
        ExclusionsChecked(normalize, es[1..]);
        TwoChecks(Check(NamelessFirst(normalize, es[1..]), EmptyNormalizedKey), Check(!AllGood(normalize, es[1..]), InvalidExclusion));
      } else {
        BadHead(normalize, es);
      }
    }
  }

  lemma BadHead(normalize: Normalizer, es: seq<ExclusionRef>)
    requires es != [] && !ExclusionGood(normalize, es[0])
    ensures !AllGood(normalize, es) && (NamelessFirst(normalize, es) <==> Nameless(normalize, es[0]))
  {
    hide ExclusionGood, Nameless;
  }

  // ----- the dependencies named by the proposal

  lemma {:induction false} Uniform<T>(p: seq<T>, q: seq<T>, x: T)
    requires (forall y | y in p :: y == x) && (forall y | y in q :: y == x) && multiset(p) == multiset(q)
    ensures p == q
  {
    assert |multiset(p)| == |p| && |multiset(q)| == |q|;
    forall i | 0 <= i < |p| && i < |q| ensures p[i] == q[i] { assert p[i] in p && q[i] in q; }
  }

  lemma SameTexts(a: seq<string>, b: seq<string>)
    ensures Sort(TextKey, a) == Sort(TextKey, b) <==> multiset(a) == multiset(b)
  {
    hide Sort, Class;
    SortFacts(TextKey, a);
    SortFacts(TextKey, b);
    SameSortExactly(TextKey, a, b);
    if multiset(a) == multiset(b) {
      forall k ensures Class(TextKey, k, a) == Class(TextKey, k, b) { SameTextClass(a, b, k); }
    }
  }

  lemma SameTextClass(a: seq<string>, b: seq<string>, k: Key)
    requires multiset(a) == multiset(b)
    ensures Class(TextKey, k, a) == Class(TextKey, k, b)
  {
    var p, q := Class(TextKey, k, a), Class(TextKey, k, b);
    ClassMembers(TextKey, k, a);
    ClassMembers(TextKey, k, b);
    forall x ensures multiset(p)[x] == multiset(q)[x] {
      ClassCount(TextKey, k, a, x);
      ClassCount(TextKey, k, b, x);
    }
    if |k| > 0 { Uniform(p, q, k[0]); }
    if |k| == 0 { Uniform(p, q, ""); }
  }

  lemma NamesRearranged(a: seq<DependencyRef>)
    ensures multiset(Each(DependencyId, Sort(DependencyKey, a))) == multiset(Each(DependencyId, a))
  {
    hide Sort;
    SortFacts(DependencyKey, a);
    NamesGathered(a);
    NamesGathered(Sort(DependencyKey, a));
    GatherRearranged(NameOf, Sort(DependencyKey, a), a);
  }

  function NameOf(d: DependencyRef): seq<string> { [d.dependencyId] }

  lemma {:induction false} NamesGathered(a: seq<DependencyRef>)
    ensures Gather(NameOf, a) == Each(DependencyId, a)
  {
    if a != [] { NamesGathered(a[..|a| - 1]); }
  }

  /** Proposal and snapshot name different dependencies, each counted as often as it stands there. */
  predicate OtherDependencies(s: EvaluationSnapshot) {
    multiset(Each(DependencyId, s.proposal.dependencies)) != multiset(Each(DependencyId, s.dependencies))
  }

  lemma DependenciesChecked(s: EvaluationSnapshot)
    ensures var c := CanonicalSnapshot(s); SameDependencyIds(c.proposal.dependencies, c.dependencies) <==> !OtherDependencies(s)
  {
    hide Sort, CanonicalRules, Each;
    var c := CanonicalSnapshot(s);
    NamesRearranged(s.proposal.dependencies);
    NamesRearranged(s.dependencies);
    SameTexts(Each(DependencyId, c.proposal.dependencies), Each(DependencyId, c.dependencies));
  }

  // ----- the capabilities

  predicate SameCapabilityTwice(facts: seq<CapabilityFact>) {
    exists i, j | 0 <= i < j < |facts| :: facts[i].capabilityId == facts[j].capabilityId
  }

  lemma {:induction false} PairInClass(facts: seq<CapabilityFact>, i: nat, j: nat)
    requires i < j < |facts| && facts[i].capabilityId == facts[j].capabilityId
    ensures |Class(CapabilityKey, CapabilityKey(facts[i]), facts)| > 1
  {
    var k, rest := CapabilityKey(facts[i]), facts[1..];
    if i == 0 {
      ClassMembers(CapabilityKey, k, rest);
      assert facts[j] == rest[j - 1];
      assert facts[j] in Class(CapabilityKey, k, rest);
    } else {
      PairInClass(rest, i - 1, j - 1);
    }
  }

  lemma {:induction false} PairFromClass(facts: seq<CapabilityFact>, k: Key)
    requires |Class(CapabilityKey, k, facts)| > 1
    ensures SameCapabilityTwice(facts)
  {
    hide SameCapabilityTwice;
    var rest := facts[1..];
    TwiceHead(facts);
    ClassMembers(CapabilityKey, k, rest);
    if CapabilityKey(facts[0]) == k {
      var x := Class(CapabilityKey, k, rest)[0];
      assert x in rest && [x.capabilityId] == [facts[0].capabilityId];
      assert x.capabilityId == [x.capabilityId][0] == [facts[0].capabilityId][0];
    } else {
      PairFromClass(rest, k);
    }
  }

  lemma TwiceHead(facts: seq<CapabilityFact>)
    requires facts != []
    ensures SameCapabilityTwice(facts) <==>
      SameCapabilityTwice(facts[1..]) || exists x :: x in facts[1..] && x.capabilityId == facts[0].capabilityId
  {
    var rest := facts[1..];
    if i, j :| 0 <= i < j < |facts| && facts[i].capabilityId == facts[j].capabilityId {
      assert facts[j] == rest[j - 1];
      if i > 0 { assert facts[i] == rest[i - 1]; }
    }
    if i, j :| 0 <= i < j < |rest| && rest[i].capabilityId == rest[j].capabilityId {
      assert facts[i + 1] == rest[i] && facts[j + 1] == rest[j];
    }
    if x :| x in rest && x.capabilityId == facts[0].capabilityId {
      var j :| 0 <= j < |rest| && rest[j] == x;
      assert facts[j + 1] == x;
    }
  }

  lemma TwiceRearranged(a: seq<CapabilityFact>, b: seq<CapabilityFact>)
    requires SameCapabilityTwice(a) && forall k :: Class(CapabilityKey, k, a) == Class(CapabilityKey, k, b)
    ensures SameCapabilityTwice(b)
  {
    hide Class;
    var i, j :| 0 <= i < j < |a| && a[i].capabilityId == a[j].capabilityId;
    PairInClass(a, i, j);
    PairFromClass(b, CapabilityKey(a[i]));
  }

  lemma CapabilitiesChecked(s: EvaluationSnapshot)
    ensures DuplicateCapability(CanonicalSnapshot(s).capabilities) <==> SameCapabilityTwice(s.capabilities)
  {
    hide Sort, Class, CanonicalRules;
    var sorted := Sort(CapabilityKey, s.capabilities);
    forall k ensures Class(CapabilityKey, k, sorted) == Class(CapabilityKey, k, s.capabilities) { SortIsStable(CapabilityKey, k, s.capabilities); }
    if SameCapabilityTwice(s.capabilities) { TwiceRearranged(s.capabilities, sorted); }
    if SameCapabilityTwice(sorted) { TwiceRearranged(sorted, s.capabilities); }
  }

  // ----- all checks in order

  predicate ConfigWrong(config: RuleConfig) {
    || config.(digest := Zero) != RuleConfig(Zero, "gam-gate/1.1", 0.85, 0.5, 5, true, true, true, "gam-normalize/1.1")
    || config.digest != OfConfig(config.(digest := Zero))
  }

  /** The frozen snapshot with its prior trace, as the snapshot validator judges its canonical form. */
  ghost function SnapshotCheck(s: EvaluationSnapshot): Check {
    match SnapshotStop(CanonicalSnapshot(s)) case None => Check(false, InvalidSnapshot) case Some(e) => Check(true, e)
  }

  function PolicyChecks(s: EvaluationSnapshot): seq<Check> {
    [Check(s.policy.policyDigest != OfPolicy(s.policy.policyVersion, CanonicalRules(s.policy.rules)), PolicyDigestMismatch),
     Check(s.policy.policyVersion == "", InvalidPolicy), Check(s.profileVersion == Some(""), InvalidProfile)]
  }

  function CountChecks(s: EvaluationSnapshot): seq<Check> { [Check(|s.precedents| > 5, PrecedentLimitExceeded)] }

  /** The prior was judged by another evaluator, another configuration or another policy. */
  predicate OtherBinding(s: EvaluationSnapshot, config: RuleConfig) {
    s.prior.Some? &&
    (|| s.prior.value.result.evaluatorVersion != "gam-gate/1.1" || s.prior.value.result.ruleConfigDigest != config.digest
     || s.prior.value.result.policyDigest != s.policy.policyDigest)
  }

  ghost function ContentChecks(normalize: Normalizer, s: EvaluationSnapshot): seq<Check> {
    ProposalChecks(normalize, s.proposal)
    + (PolicyChecks(s)
       + (CountChecks(s)
          + (ExclusionChecks(normalize, Sort(ExclusionKey, s.exclusions))
             + [Check(OtherDependencies(s), DependencySnapshotMismatch)])))
  }

  /** Everything that is checked before the prior's binding. */
  ghost function EarlierChecks(normalize: Normalizer, s: EvaluationSnapshot, config: RuleConfig): seq<Check> {
    [Check(ConfigWrong(config), InvalidRuleConfig)] + ([SnapshotCheck(s)] + ContentChecks(normalize, s))
  }

  /** A consequence of an approved governing precedent that was not observed under the pinned threshold. */
  ghost predicate UnboundConsequence(s: EvaluationSnapshot) {
    exists x, k :: GovernsAs(s, x, Approve) && k in x.consequenceRefs && (k.receiptStatus != Observed || k.divergenceThreshold != 0.5)
  }

  /** The checks of the input, the binding of the prior last. */
  ghost function InputChecks(normalize: Normalizer, s: EvaluationSnapshot, config: RuleConfig): seq<Check> {
    EarlierChecks(normalize, s, config) + [Check(OtherBinding(s, config), PriorBindingMismatch)]
  }

  /** The checks inside the fact rules. */
  ghost function FactChecks(s: EvaluationSnapshot): seq<Check> {
    [Check(UnboundConsequence(s), InvalidConsequence), Check(SameCapabilityTwice(s.capabilities), DuplicatedCapability)]
  }

  ghost function Checks(normalize: Normalizer, s: EvaluationSnapshot, config: RuleConfig): seq<Check> {
    InputChecks(normalize, s, config) + FactChecks(s)
  }

  // ----- the checks are those of the gate

  lemma PolicyChecked(s: EvaluationSnapshot)
    ensures var c := CanonicalSnapshot(s);
      StopOf(PolicyChecks(s)) == First(Refuse(c.policy.policyDigest != PolicyDigest(c.policy), PolicyDigestMismatch),
                                 First(Refuse(c.policy.policyVersion == "", InvalidPolicy), Refuse(c.profileVersion == Some(""), InvalidProfile)))
  {
    hide StopOf, CanonicalRules, Sort, CanonicalProposal;
    CanonicalRulesTwice(s.policy.rules);
    var a := Check(s.policy.policyDigest != OfPolicy(s.policy.policyVersion, CanonicalRules(s.policy.rules)), PolicyDigestMismatch);
    ThreeChecks(a, Check(s.policy.policyVersion == "", InvalidPolicy), Check(s.profileVersion == Some(""), InvalidProfile));
  }

  lemma PrecedentsCounted(s: EvaluationSnapshot)
    ensures |CanonicalSnapshot(s).precedents| == |s.precedents|
  {
    hide Sort, CanonicalRules;
    SortFacts(PrecedentKey, s.precedents);
    assert |multiset(s.precedents)| == |s.precedents| && |multiset(Sort(PrecedentKey, s.precedents))| == |Sort(PrecedentKey, s.precedents)|;
  }

  lemma CanonicalParts(s: EvaluationSnapshot)
    ensures var c := CanonicalSnapshot(s);
      && c.proposal == CanonicalProposal(s.proposal) && c.exclusions == Sort(ExclusionKey, s.exclusions)
      && c.prior == s.prior && c.policy.policyDigest == s.policy.policyDigest
  {
    hide Sort, CanonicalRules, CanonicalProposal;
  }

  lemma ContentChecked(normalize: Normalizer, s: EvaluationSnapshot, config: RuleConfig)
    requires config.precedentTopK == 5
    ensures StopOf(ContentChecks(normalize, s)) == ContentStop(normalize, CanonicalSnapshot(s), config)
  {
    hide StopOf, ProposalChecks, PolicyChecks, CountChecks, ExclusionChecks, CanonicalSnapshot, ProposalStop, PolicyDigest, ExclusionsStop,
      SameDependencyIds, OtherDependencies, Sort, CanonicalProposal;
    var c := CanonicalSnapshot(s);
    var last := [Check(OtherDependencies(s), DependencySnapshotMismatch)];
    var exclusions := ExclusionChecks(normalize, Sort(ExclusionKey, s.exclusions));
    CanonicalParts(s);
    DependenciesChecked(s);
    OneCheck(last[0]);
    ExclusionsChecked(normalize, Sort(ExclusionKey, s.exclusions));
    StopConcat(exclusions, last);
    Counted(s);
    StopConcat(CountChecks(s), exclusions + last);
    PolicyChecked(s);
    StopConcat(PolicyChecks(s), CountChecks(s) + (exclusions + last));
    ProposalChecked(normalize, s.proposal);
    StopConcat(ProposalChecks(normalize, s.proposal), PolicyChecks(s) + (CountChecks(s) + (exclusions + last)));
  }

  lemma Counted(s: EvaluationSnapshot)
    ensures StopOf(CountChecks(s)) == Refuse(|CanonicalSnapshot(s).precedents| > 5, PrecedentLimitExceeded)
  {
    hide CanonicalSnapshot;
    PrecedentsCounted(s);
    OneCheck(CountChecks(s)[0]);
  }

  lemma ConfigChecked(config: RuleConfig)
    ensures ConfigWrong(config) <==> !ConfigAccepted(config)
    ensures ConfigAccepted(config) ==> config.precedentTopK == 5 && config.evaluatorVersion == "gam-gate/1.1"
  {}

  lemma EarlierChecked(normalize: Normalizer, s: EvaluationSnapshot, config: RuleConfig)
    ensures StopOf(EarlierChecks(normalize, s, config)) ==
      First(Refuse(!ConfigAccepted(config), InvalidRuleConfig),
            First(SnapshotStop(CanonicalSnapshot(s)), ContentStop(normalize, CanonicalSnapshot(s), config)))
  {
    hide StopOf, ContentChecks, ContentStop, SnapshotStop, ConfigWrong, ConfigAccepted, CanonicalSnapshot;
    ConfigChecked(config);
    var first := Check(ConfigWrong(config), InvalidRuleConfig);
    CheckThen(first, [SnapshotCheck(s)] + ContentChecks(normalize, s));
    CheckThen(SnapshotCheck(s), ContentChecks(normalize, s));
    if ConfigAccepted(config) { ContentChecked(normalize, s, config); }
  }

  lemma BindingChecked(s: EvaluationSnapshot, config: RuleConfig)
    requires ConfigAccepted(config)
    ensures BindingStop(CanonicalSnapshot(s), config) == Refuse(OtherBinding(s, config), PriorBindingMismatch)
  {
    hide CanonicalSnapshot, ConfigAccepted;
    ConfigChecked(config);
    CanonicalParts(s);
  }

  ghost predicate UnboundAmong(config: RuleConfig, given: seq<Report>) { exists r | r in given :: !ReportBound(config, r) }

  lemma UnboundFrom(s: EvaluationSnapshot, config: RuleConfig, r: Report)
    requires Thresholds(config) && GivenBy(s, r) && !ReportBound(config, r)
    ensures UnboundConsequence(s)
  {
    hide GovernsAs;
  }

  lemma UnboundTo(config: RuleConfig, given: seq<Report>, r: Report)
    requires Thresholds(config) && r in given && (r.1.receiptStatus != Observed || r.1.divergenceThreshold != 0.5)
    ensures UnboundAmong(config, given)
  {}

  lemma ConsequencesChecked(s: EvaluationSnapshot, config: RuleConfig)
    requires Thresholds(config)
    ensures UnboundAmong(config, Reports(Approved(CanonicalSnapshot(s), config))) <==> UnboundConsequence(s)
  {
    hide CanonicalSnapshot, CanonicalPrecedent, Reports, Approved, GovernsAs, ReportBound, Thresholds, GivenBy;
    var given := Reports(Approved(CanonicalSnapshot(s), config));
    ReportsGiven(s, config);
    if UnboundConsequence(s) {
      var x, k :| GovernsAs(s, x, Approve) && k in x.consequenceRefs && (k.receiptStatus != Observed || k.divergenceThreshold != 0.5);
      UnboundTo(config, given, (CanonicalPrecedent(x), k));
    } else if r :| r in given && !ReportBound(config, r) {
      UnboundFrom(s, config, r);
    }
  }

  lemma FactsChecked(s: EvaluationSnapshot, config: RuleConfig)
    requires Thresholds(config)
    ensures FactStop(CanonicalSnapshot(s), config) ==
      First(Refuse(UnboundConsequence(s), InvalidConsequence), Refuse(SameCapabilityTwice(s.capabilities), DuplicatedCapability))
  {
    hide CanonicalSnapshot, Reports, Approved, ReportBound, DuplicateCapability, SameCapabilityTwice, UnboundConsequence, Thresholds;
    ConsequencesChecked(s, config);
    CapabilitiesChecked(s);
  }

  ghost predicate BlockedWith(normalize: Normalizer, s: EvaluationSnapshot, config: RuleConfig, e: ErrorCode) {
    var o := Evaluation(normalize, s, config);
    o.Blocked? && o.blocked.error == e
  }

  /** What remains once every check has passed: the trace may be too long, or a prior conclusion or
      the empty evaluation identity unusable. */
  ghost predicate LateOnly(normalize: Normalizer, s: EvaluationSnapshot, config: RuleConfig) {
    var o := Evaluation(normalize, s, config);
    o.Blocked? ==> o.blocked.error == TraceLimitExceeded || o.blocked.error == InternalEvaluatorError
  }

  lemma StopsOfGate(normalize: Normalizer, s: EvaluationSnapshot, config: RuleConfig)
    ensures var c := CanonicalSnapshot(s);
      var stop := First(InputStop(normalize, c, config), FactStop(c, config));
      (stop.Some? ==> BlockedWith(normalize, s, config, stop.value)) && (stop.None? ==> LateOnly(normalize, s, config))
  {
    hide CanonicalSnapshot, InputStop, FactStop, AllFindings, Reduce, Finish, Readable;
    NeverNonTotal(normalize, s, config);
  }

  lemma InputChecked(normalize: Normalizer, s: EvaluationSnapshot, config: RuleConfig)
    ensures InputStop(normalize, CanonicalSnapshot(s), config) == StopOf(InputChecks(normalize, s, config))
    ensures InputStop(normalize, CanonicalSnapshot(s), config).None? ==> ConfigAccepted(config)
  {
    hide StopOf, CanonicalSnapshot, EarlierChecks, SnapshotStop, ContentStop, BindingStop, ConfigAccepted, OtherBinding;
    var last := Check(OtherBinding(s, config), PriorBindingMismatch);
    EarlierChecked(normalize, s, config);
    StopConcat(EarlierChecks(normalize, s, config), [last]);
    OneCheck(last);
    if ConfigAccepted(config) { BindingChecked(s, config); }
  }

  lemma StopsChecked(normalize: Normalizer, s: EvaluationSnapshot, config: RuleConfig)
    ensures var c := CanonicalSnapshot(s);
      First(InputStop(normalize, c, config), FactStop(c, config)) == StopOf(Checks(normalize, s, config))
  {
    hide StopOf, CanonicalSnapshot, InputChecks, InputStop, FactStop, ConfigAccepted, UnboundConsequence, SameCapabilityTwice, Thresholds;
    InputChecked(normalize, s, config);
    StopConcat(InputChecks(normalize, s, config), FactChecks(s));
    if ConfigAccepted(config) {
      PinnedThresholds(config);
      FactsChecked(s, config);
      TwoChecks(Check(UnboundConsequence(s), InvalidConsequence), Check(SameCapabilityTwice(s.capabilities), DuplicatedCapability));
    }
  }

  /** An evaluation is blocked with the code of the first check that fails; when none fails only
      the end of the evaluation can still block it. */
  lemma BlockedExactly(normalize: Normalizer, s: EvaluationSnapshot, config: RuleConfig)
    ensures var stop := StopOf(Checks(normalize, s, config));
      (stop.Some? ==> BlockedWith(normalize, s, config, stop.value)) && (stop.None? ==> LateOnly(normalize, s, config))
  {
    hide StopOf, CanonicalSnapshot, Checks, InputStop, FactStop, BlockedWith, LateOnly;
    StopsChecked(normalize, s, config);
    StopsOfGate(normalize, s, config);
  }

  // ----- the binding of the prior

  ghost predicate Without(cs: seq<Check>, e: ErrorCode) { forall k | 0 <= k < |cs| :: cs[k].code != e }

  lemma {:induction false} NeverStops(cs: seq<Check>, e: ErrorCode)
    requires Without(cs, e)
    ensures StopOf(cs) != Some(e)
  {
    if cs != [] {
      assert cs[0].code != e;
      forall k | 0 <= k < |cs[1..]| ensures cs[1..][k].code != e { assert cs[1..][k] == cs[k + 1]; }
      NeverStops(cs[1..], e);
    }
  }

  lemma {:induction false} PriorStepCodes(e: string, trace: seq<TraceStep>, i: nat)
    requires i <= |trace|
    ensures PriorStepsStop(e, trace, i) != Some(PriorBindingMismatch)
    decreases |trace| - i
  {
    hide MakeStepId;
    if i < |trace| { PriorStepCodes(e, trace, i + 1); }
  }

  lemma SnapshotCodes(s: EvaluationSnapshot)
    ensures SnapshotStop(s) != Some(PriorBindingMismatch)
  {
    hide SnapshotAccepted, PriorStepsStop, Reducers, SnapshotDigest, ResultDigest;
    if s.prior.Some? { PriorStepCodes(s.prior.value.result.evaluationId, s.prior.value.result.trace, 0); }
  }

  lemma EarlierCodes(normalize: Normalizer, s: EvaluationSnapshot, config: RuleConfig)
    ensures Without(EarlierChecks(normalize, s, config), PriorBindingMismatch)
  {
    hide SnapshotStop, CanonicalSnapshot, ConfigWrong, OtherDependencies, NamelessFirst, AllGood, Sort, CanonicalRules, CanonicalProposal;
    SnapshotCodes(CanonicalSnapshot(s));
  }

  /** The mismatch of the prior's binding is reported exactly when every check before it passes
      and the prior's evaluator version, configuration digest or policy digest differs. */
  lemma BindingExactly(normalize: Normalizer, s: EvaluationSnapshot, config: RuleConfig)
    ensures BlockedWith(normalize, s, config, PriorBindingMismatch) <==>
      (forall k | 0 <= k < |EarlierChecks(normalize, s, config)| :: !EarlierChecks(normalize, s, config)[k].failed) && OtherBinding(s, config)
  {
    hide StopOf, EarlierChecks, BlockedWith, OtherBinding, FactChecks;
    var earlier := EarlierChecks(normalize, s, config);
    var last := Check(OtherBinding(s, config), PriorBindingMismatch);
    BlockedExactly(normalize, s, config);
    OneCode(normalize, s, config);
    EarlierCodes(normalize, s, config);
    NeverStops(earlier, PriorBindingMismatch);
    NoStopMeans(earlier);
    StopConcat(earlier, [last]);
    StopConcat(earlier + [last], FactChecks(s));
    OneCheck(last);
    NoBindingLater(s);
  }

  lemma NoBindingLater(s: EvaluationSnapshot)
    ensures StopOf(FactChecks(s)) != Some(PriorBindingMismatch)
  {
    hide UnboundConsequence, SameCapabilityTwice;
    NeverStops(FactChecks(s), PriorBindingMismatch);
  }

  lemma OneCode(normalize: Normalizer, s: EvaluationSnapshot, config: RuleConfig)
    ensures forall d, e :: BlockedWith(normalize, s, config, d) && BlockedWith(normalize, s, config, e) ==> d == e
    ensures LateOnly(normalize, s, config) ==> !BlockedWith(normalize, s, config, PriorBindingMismatch)
  {
    hide Evaluation;
  }

  // ----- what a blocked answer carries

  ghost predicate BlockedSays(s: EvaluationSnapshot, config: RuleConfig, b: BlockedResult) {
    && b.evaluationId == (if s.evaluationId == "" then "blocked-evaluation" else s.evaluationId)
    && b.evaluatorVersion == (if config.evaluatorVersion == "" then "gam-gate/1.1" else config.evaluatorVersion)
    && b.ruleConfigDigest == config.digest && b.inputSnapshotDigest == s.snapshotDigest && b.policyDigest == s.policy.policyDigest
    && |b.trace| == 1 && b.trace[0].OperatorStep? && b.trace[0].rule == F01 && b.trace[0].family == This && b.trace[0].pole == THIS
    && b.trace[0].subjectRef == (if s.proposal.proposalId == "" then "unbound-proposal" else s.proposal.proposalId)
    && b.trace[0].objectRefs == [] && b.trace[0].evidenceRefs == [] && b.trace[0].gapRefs == {} && b.trace[0].fact == BlockedEarly
    && b.traceDigest == BlockedDigest(b)
  }

  /** It names the prior only when the input passed its checks. */
  ghost predicate Blocks(normalize: Normalizer, s: EvaluationSnapshot, config: RuleConfig) {
    var o := Evaluation(normalize, s, config);
    o.Blocked? ==>
      BlockedSays(s, config, o.blocked)
      && o.blocked.priorEvaluationId ==
           if StopOf(InputChecks(normalize, s, config)).None? && s.prior.Some? then Some(s.prior.value.result.evaluationId) else None
  }

  lemma BlockedOfSays(s: EvaluationSnapshot, config: RuleConfig, stop: ErrorCode, id: Option<string>)
    ensures BlockedSays(s, config, BlockedOf(CanonicalSnapshot(s), config, stop, id))
    ensures BlockedOf(CanonicalSnapshot(s), config, stop, id).priorEvaluationId == id
  {
    hide Sort, CanonicalRules;
  }

  /** A blocked answer is bound to its snapshot and records one step, which says so; it names the
      prior unless the input was refused. */
  lemma BlockedIsBound(normalize: Normalizer, s: EvaluationSnapshot, config: RuleConfig)
    ensures Blocks(normalize, s, config)
  {
    hide CanonicalSnapshot, InputStop, FactStop, AllFindings, Reduce, Finish, Readable, BlockedOf, BlockedSays, InputChecks, StopOf;
    forall stop, id { BlockedOfSays(s, config, stop, id); }
    InputChecked(normalize, s, config);
    CanonicalParts(s);
  }
}
