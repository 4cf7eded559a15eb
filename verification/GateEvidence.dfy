/** Which of the evidence references of one kind decides whether a requirement is met. */
module GateEvidence {
  import opened Canonical
  import opened GateRules
  import opened Json
  import opened Models
  import opened Ordering

  /** The reference at j stands before the one at i: by identity, and by position when the
      identities are equal. */
  predicate Before(refs: seq<EvidenceRef>, j: nat, i: nat)
    requires i < |refs| && j < |refs|
  {
    TextLess(refs[j].refId, refs[i].refId) || (refs[j].refId == refs[i].refId && j < i)
  }

  /** The reference at i is the last one of its kind. */
  ghost predicate LastOfKind(refs: seq<EvidenceRef>, i: nat)
    requires i < |refs|
  {
    forall j | 0 <= j < |refs| && j != i && refs[j].kind == refs[i].kind :: Before(refs, j, i)
  }

  /** The references of a kind meet a requirement when the last of them is valid. */
  ghost predicate Meets(refs: seq<EvidenceRef>, kind: string) {
    exists i | 0 <= i < |refs| && refs[i].kind == kind :: EvidenceValid(refs[i]) && LastOfKind(refs, i)
  }

  // ----- the reference found in the sorted list

  lemma SingleKey(a: EvidenceRef, b: EvidenceRef)
    ensures KeyLess(RefKey(a), RefKey(b)) <==> TextLess(a.refId, b.refId)
  {
    KeyOfOne(a.refId, b.refId);
  }

  lemma {:induction false} BoundCons(x: EvidenceRef, s: seq<EvidenceRef>, kind: string)
    ensures Bound([x] + s, kind) == if Bound(s, kind).Some? then Bound(s, kind) else if x.kind == kind then Some(x) else None
  {
    if s != [] {
      assert ([x] + s)[..|[x] + s| - 1] == [x] + s[..|s| - 1];
      BoundCons(x, s[..|s| - 1], kind);
    }
  }

  lemma {:induction false} BoundIsMember(s: seq<EvidenceRef>, kind: string)
    ensures Bound(s, kind).Some? ==> Bound(s, kind).value in s && Bound(s, kind).value.kind == kind
  {
    if s != [] { BoundIsMember(s[..|s| - 1], kind); }
  }

  /** The later of two references of a kind, the first one when neither identity is smaller. */
  function Later(found: Option<EvidenceRef>, x: EvidenceRef): EvidenceRef {
    if found.Some? && !TextLess(found.value.refId, x.refId) then found.value else x
  }

  lemma {:induction false} InsertBound(x: EvidenceRef, s: seq<EvidenceRef>, kind: string)
    requires Sorted(RefKey, s)
    ensures Bound(Insert(RefKey, x, s), kind) == if x.kind == kind then Some(Later(Bound(s, kind), x)) else Bound(s, kind)
  {
    hide KeyLess, TextLess, Bound;
    BoundIsMember(s, kind);
    if s == [] || !KeyLess(RefKey(s[0]), RefKey(x)) {
      BoundCons(x, s, kind);
      if Bound(s, kind).Some? {
        var i :| 0 <= i < |s| && s[i] == Bound(s, kind).value;
        if i > 0 { KeyWeakOrder(RefKey(x), RefKey(s[0]), RefKey(s[i])); }
        SingleKey(s[i], x);
      } else {
        assert s == [] ==> Bound(s, kind) == None;
      }
    } else {
      InsertBound(x, s[1..], kind);
      assert s == [s[0]] + s[1..];
      BoundCons(s[0], s[1..], kind);
      BoundCons(s[0], Insert(RefKey, x, s[1..]), kind);
      SingleKey(s[0], x);
    }
  }

  // ----- and its place in the list as given

  lemma LastInTail(x: EvidenceRef, rest: seq<EvidenceRef>, i: nat)
    requires i < |rest| && LastOfKind(rest, i) && (x.kind == rest[i].kind ==> !TextLess(rest[i].refId, x.refId))
    ensures LastOfKind([x] + rest, i + 1)
  {
    hide TextLess;
    var s := [x] + rest;
    TextTrichotomy(x.refId, rest[i].refId);
    forall j | 0 <= j < |s| && j != i + 1 && s[j].kind == s[i + 1].kind ensures Before(s, j, i + 1) {
      if j > 0 { assert Before(rest, j - 1, i); }
    }
  }

  lemma LastAtHead(x: EvidenceRef, rest: seq<EvidenceRef>, i: nat)
    requires i < |rest| && LastOfKind(rest, i) && TextLess(rest[i].refId, x.refId) && x.kind == rest[i].kind
    ensures LastOfKind([x] + rest, 0)
  {
    hide TextLess;
    var s := [x] + rest;
    forall j | 0 < j < |s| && s[j].kind == s[0].kind ensures Before(s, j, 0) {
      if j - 1 != i {
        assert Before(rest, j - 1, i);
        if rest[j - 1].refId != rest[i].refId { TextTransitive(rest[j - 1].refId, rest[i].refId, x.refId); }
      }
    }
  }

  /** Whether a kind has a reference at all, and where its last one stands. */
  ghost predicate Located(refs: seq<EvidenceRef>, kind: string, found: Option<EvidenceRef>) {
    match found
    case None => forall e | e in refs :: e.kind != kind
    case Some(e) => exists i | 0 <= i < |refs| && refs[i] == e :: e.kind == kind && LastOfKind(refs, i)
  }

  lemma {:induction false} BoundIsLast(refs: seq<EvidenceRef>, kind: string)
    ensures Located(refs, kind, Bound(Sort(RefKey, refs), kind))
  {
    hide LastOfKind, Insert, TextLess;
    if refs != [] {
      var x, rest := refs[0], refs[1..];
      assert refs == [x] + rest;
      var sorted := Sort(RefKey, rest);
      SortFacts(RefKey, rest);
      InsertBound(x, sorted, kind);
      BoundIsLast(rest, kind);
      var found := Bound(sorted, kind);
      if found.Some? {
        var i :| 0 <= i < |rest| && rest[i] == found.value && LastOfKind(rest, i);
        if x.kind == kind && TextLess(rest[i].refId, x.refId) {
          LastAtHead(x, rest, i);
        } else {
          LastInTail(x, rest, i);
          assert refs[i + 1] == found.value;
        }
      } else if x.kind == kind {
        OnlyAtHead(x, rest);
      }
    }
  }

  lemma OnlyAtHead(x: EvidenceRef, rest: seq<EvidenceRef>)
    requires forall e | e in rest :: e.kind != x.kind
    ensures LastOfKind([x] + rest, 0)
  {
    forall j | 0 < j < |[x] + rest| ensures ([x] + rest)[j].kind != x.kind { assert rest[j - 1] in rest; }
  }

  lemma OneLast(refs: seq<EvidenceRef>, i: nat, j: nat)
    requires i < |refs| && j < |refs| && refs[i].kind == refs[j].kind && LastOfKind(refs, i) && LastOfKind(refs, j)
    ensures i == j
  {
    hide TextLess;
    if i != j {
      assert Before(refs, i, j) && Before(refs, j, i);
      TextTrichotomy(refs[i].refId, refs[j].refId);
    }
  }

  /** The evaluator's check of a requirement is about the last reference of its kind. */
  lemma SatisfiedExactly(refs: seq<EvidenceRef>, q: EvidenceRequirement)
    ensures Satisfied(Sort(RefKey, refs), q) <==> Meets(refs, q.kind)
  {
    hide LastOfKind, Sort, EvidenceValid, Bound;
    BoundIsLast(refs, q.kind);
    var found := Bound(Sort(RefKey, refs), q.kind);
    if found.Some? {
      var k :| 0 <= k < |refs| && refs[k] == found.value && LastOfKind(refs, k);
      if i :| 0 <= i < |refs| && refs[i].kind == q.kind && EvidenceValid(refs[i]) && LastOfKind(refs, i) { OneLast(refs, i, k); }
    }
  }

  /** A kind with some valid reference still counts as missing exactly when the last reference
      of the kind is invalid. */
  lemma HiddenExactly(refs: seq<EvidenceRef>, kind: string)
    requires exists e | e in refs :: e.kind == kind && EvidenceValid(e)
    ensures !Meets(refs, kind) <==> exists i | 0 <= i < |refs| && refs[i].kind == kind :: !EvidenceValid(refs[i]) && LastOfKind(refs, i)
  {
    hide LastOfKind, Sort, EvidenceValid, Bound;
    BoundIsLast(refs, kind);
    var k :| 0 <= k < |refs| && refs[k].kind == kind && LastOfKind(refs, k);
    forall i | 0 <= i < |refs| && refs[i].kind == kind && LastOfKind(refs, i) ensures i == k { OneLast(refs, i, k); }
  }

  /** With distinct identities the positions do not matter. */
  lemma MeetsByIdentity(refs: seq<EvidenceRef>, kind: string)
    requires DistinctKeys(RefKey, refs)
    ensures Meets(refs, kind) <==>
      exists e | e in refs && e.kind == kind :: EvidenceValid(e) && forall f | f in refs && f.kind == kind && f != e :: TextLess(f.refId, e.refId)
  {
    hide TextLess, EvidenceValid;
    forall i, j | 0 <= i < |refs| && 0 <= j < |refs| && i != j ensures refs[i].refId != refs[j].refId {
      assert RefKey(refs[i]) != RefKey(refs[j]);
    }
    if e :| e in refs && e.kind == kind && EvidenceValid(e) && forall f | f in refs && f.kind == kind && f != e :: TextLess(f.refId, e.refId) {
      var i :| 0 <= i < |refs| && refs[i] == e;
      assert LastOfKind(refs, i);
    }
    if i :| 0 <= i < |refs| && refs[i].kind == kind && EvidenceValid(refs[i]) && LastOfKind(refs, i) {
      forall f | f in refs && f.kind == kind && f != refs[i] ensures TextLess(f.refId, refs[i].refId) {
        var j :| 0 <= j < |refs| && refs[j] == f;
        assert Before(refs, j, i);
      }
    }
  }
}
