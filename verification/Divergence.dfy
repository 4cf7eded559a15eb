/** The structural comparison of a predicted and an actual JSON document. */
module Divergence {
  import opened Decimals
  import opened Json
  import opened Ordering

  datatype Kind =
    | TypeMismatch | Numeric | Boolean | Text | Null
    | EmptyObject | EmptyArray | MissingPredicted | MissingActual

  datatype Leaf = Leaf(pointer: string, predicted: bool, actual: bool, kind: Kind, score: real)

  // ----- the specification: a spot is a leaf addressed by its reference tokens

  datatype Spot = Spot(tokens: seq<string>, predicted: bool, actual: bool, kind: Kind, score: real)

  function Abs(x: real): real { if x < 0.0 then -x else x }

  function Max(x: real, y: real): real { if x < y then y else x }

  /** The relative distance of two numbers, at most one. */
  function NumberScore(x: real, y: real): (r: real)
    ensures 0.0 <= r <= 1.0
    ensures r == 0.0 <==> x == y
    ensures r == NumberDistance(y, x)
  {
    NumberDistance(x, y)
  }

  function NumberDistance(x: real, y: real): (r: real)
    ensures 0.0 <= r <= 1.0
    ensures r == 0.0 <==> x == y
  {
    var scale := Max(Max(Abs(x), Abs(y)), 1.0);
    var d := Abs(x - y) / scale;
    assert d >= 0.0 && (d == 0.0 <==> Abs(x - y) == 0.0) by { QuotientSign(Abs(x - y), scale); }
    if d < 1.0 then d else 1.0
  }

  lemma QuotientSign(x: real, y: real)
    requires x >= 0.0 && y >= 1.0
    ensures x / y >= 0.0 && (x / y == 0.0 <==> x == 0.0)
  {}

  predicate SameKind(p: Json, a: Json) {
    match p
    case JNull => a.JNull?
    case JBool(_) => a.JBool?
    case JNumber(_) => a.JNumber?
    case JString(_) => a.JString?
    case JArray(_) => a.JArray?
    case JObject(_) => a.JObject?
  }

  predicate Container(d: Json) { d.JArray? || d.JObject? }

  function Indices(n: nat): seq<string> { seq(n, i requires 0 <= i < n => NatText(i)) }

  /** The tokens under which either of two containers of one kind has a child, in report order. */
  function Tokens(p: Json, a: Json): seq<string>
    requires SameKind(p, a) && Container(p)
  {
    match p
    case JObject(m) => Listing(m.Keys + a.members.Keys)
    case JArray(xs) => Indices(if |xs| < |a.items| then |a.items| else |xs|)
  }

  function Under(token: string, spots: seq<Spot>): seq<Spot> {
    seq(|spots|, i requires 0 <= i < |spots| => spots[i].(tokens := [token] + spots[i].tokens))
  }

  function Spots(p: Json, a: Json): seq<Spot>
    decreases p, 1, 0
  {
    if !SameKind(p, a) then [Spot([], true, true, TypeMismatch, 1.0)]
    else if Container(p) then
      if Tokens(p, a) == [] then [Spot([], true, true, if p.JObject? then EmptyObject else EmptyArray, 0.0)]
      else ChildSpots(p, a, Tokens(p, a))
    else
      match p
      case JNumber(x) => [Spot([], true, true, Numeric, NumberScore(Value(x), Value(a.n)))]
      case JNull => [Spot([], true, true, Null, 0.0)]
      case JBool(_) => [Spot([], true, true, Boolean, if p == a then 0.0 else 1.0)]
      case _ => [Spot([], true, true, Text, if p == a then 0.0 else 1.0)]
  }

  function SpotsAt(p: Json, a: Json, t: string): seq<Spot>
    decreases p, 0, 0
  {
    match (Child(p, t), Child(a, t))
    case (Some(x), Some(y)) => ChildIsSmaller(p, t); Under(t, Spots(x, y))
    case (Some(_), None) => [Spot([t], true, false, MissingActual, 1.0)]
    case (None, Some(_)) => [Spot([t], false, true, MissingPredicted, 1.0)]
    case (None, None) => []
  }

  function ChildSpots(p: Json, a: Json, ts: seq<string>): seq<Spot>
    decreases p, 0, |ts| + 1
  {
    if ts == [] then [] else SpotsAt(p, a, ts[0]) + ChildSpots(p, a, ts[1..])
  }

  function AsLeaves(spots: seq<Spot>, path: string): seq<Leaf> {
    seq(|spots|, i requires 0 <= i < |spots| => AsLeaf(spots[i], path))
  }

  /** The leaf list of two documents below a pointer. */
  function Report(p: Json, a: Json, path: string): seq<Leaf> {
    AsLeaves(Spots(p, a), path)
  }

  function AsLeaf(s: Spot, path: string): Leaf {
    Leaf(path + Render(s.tokens), s.predicted, s.actual, s.kind, s.score)
  }

  // ----- membership

  lemma {:induction false} ChildSpotsMembers(p: Json, a: Json, ts: seq<string>)
    ensures forall s :: s in ChildSpots(p, a, ts) <==> exists t :: t in ts && s in SpotsAt(p, a, t)
  {
    if ts != [] {
      ChildSpotsMembers(p, a, ts[1..]);
      forall s ensures s in ChildSpots(p, a, ts) <==> exists t :: t in ts && s in SpotsAt(p, a, t) {
        if s in ChildSpots(p, a, ts) {
          if s in SpotsAt(p, a, ts[0]) { assert ts[0] in ts; }
        }
        if t :| t in ts && s in SpotsAt(p, a, t) {
          assert t == ts[0] || t in ts[1..];
        }
      }
    }
  }

  lemma UnderMembers(t: string, spots: seq<Spot>)
    ensures forall s :: s in Under(t, spots) <==> s.tokens != [] && s.tokens[0] == t && s.(tokens := s.tokens[1..]) in spots
  {
    forall s ensures s in Under(t, spots) <==> s.tokens != [] && s.tokens[0] == t && s.(tokens := s.tokens[1..]) in spots {
      if s in Under(t, spots) {
        var i :| 0 <= i < |spots| && Under(t, spots)[i] == s;
        assert s.(tokens := s.tokens[1..]) == spots[i];
      }
      if s.tokens != [] && s.tokens[0] == t && s.(tokens := s.tokens[1..]) in spots {
        var i :| 0 <= i < |spots| && spots[i] == s.(tokens := s.tokens[1..]);
        assert s.tokens == [t] + spots[i].tokens;
        assert Under(t, spots)[i] == s;
      }
    }
  }

  lemma ArrayTokens(n: nat, t: string)
    ensures t in Indices(n) <==> ParseIndex(t).Some? && ParseIndex(t).value < n
  {
    if t in Indices(n) {
      var i :| 0 <= i < n && Indices(n)[i] == t;
      ParseIndexOfNat(i);
    }
    if ParseIndex(t).Some? && ParseIndex(t).value < n {
      NatTextOfDigits(t);
      assert Indices(n)[ParseIndex(t).value] == t;
    }
  }

  /** The report visits exactly the tokens under which a document has a child, each once. */
  lemma TokensFacts(p: Json, a: Json)
    requires SameKind(p, a) && Container(p)
    ensures forall t :: t in Tokens(p, a) <==> Child(p, t).Some? || Child(a, t).Some?
    ensures forall i, j | 0 <= i < j < |Tokens(p, a)| :: Tokens(p, a)[i] != Tokens(p, a)[j]
  {
    if p.JObject? {
      TextOrder();
      ListingIncreases(p.members.Keys + a.members.Keys);
    } else {
      var n := |Tokens(p, a)|;
      forall t ensures t in Tokens(p, a) <==> Child(p, t).Some? || Child(a, t).Some? { ArrayTokens(n, t); }
      forall i, j | 0 <= i < j < n ensures Tokens(p, a)[i] != Tokens(p, a)[j] {
        ParseIndexOfNat(i);
        ParseIndexOfNat(j);
      }
    }
  }

  lemma SameItem(p: Json, a: Json, i: nat)
    requires p.JArray? && a.JArray? && forall t :: Child(p, t) == Child(a, t)
    ensures (i < |p.items| <==> i < |a.items|) && (i < |p.items| && i < |a.items| ==> p.items[i] == a.items[i])
  {
    ParseIndexOfNat(i);
    assert Child(p, NatText(i)) == Child(a, NatText(i));
  }

  lemma SameChildren(p: Json, a: Json)
    requires SameKind(p, a) && Container(p) && forall t :: Child(p, t) == Child(a, t)
    ensures p == a
  {
    match p
    case JObject(m) =>
      forall k ensures k in m <==> k in a.members { assert Child(p, k) == Child(a, k); }
      forall k | k in m ensures m[k] == a.members[k] { assert Child(p, k) == Child(a, k); }
      assert m == a.members;
    case JArray(xs) =>
      SameItem(p, a, |xs|);
      SameItem(p, a, |a.items|);
      forall i | 0 <= i < |xs| ensures xs[i] == a.items[i] { SameItem(p, a, i); }
      assert xs == a.items;
  }

  // ----- soundness of the scores

  /** The report is never empty and its scores lie in [0,1]. */
  lemma {:induction false} ScoresAreBounded(p: Json, a: Json)
    ensures Spots(p, a) != []
    ensures forall s | s in Spots(p, a) :: 0.0 <= s.score <= 1.0
    decreases p
  {
    if SameKind(p, a) && Container(p) && Tokens(p, a) != [] {
      var ts := Tokens(p, a);
      ChildSpotsMembers(p, a, ts);
      TokensFacts(p, a);
      forall t | t in ts ensures SpotsAt(p, a, t) != [] && forall s | s in SpotsAt(p, a, t) :: 0.0 <= s.score <= 1.0 {
        if Child(p, t).Some? && Child(a, t).Some? {
          ChildIsSmaller(p, t);
          ScoresAreBounded(Child(p, t).value, Child(a, t).value);
          UnderMembers(t, Spots(Child(p, t).value, Child(a, t).value));
        }
      }
      assert ts[0] in ts;
    }
  }

  ghost predicate AllZero(spots: seq<Spot>) { forall s | s in spots :: s.score == 0.0 }

  /** All scores are zero exactly when the documents are equal. */
  lemma {:induction false} ZeroExactlyWhenEqual(p: Json, a: Json)
    ensures AllZero(Spots(p, a)) <==> p == a
    decreases p
  {
    if SameKind(p, a) && Container(p) {
      var ts := Tokens(p, a);
      TokensFacts(p, a);
      ChildSpotsMembers(p, a, ts);
      forall t ensures (t in ts ==> AllZero(SpotsAt(p, a, t))) <==> Child(p, t) == Child(a, t) { ZeroAt(p, a, t); }
      if p != a { if forall t :: Child(p, t) == Child(a, t) { SameChildren(p, a); } }
      if ts != [] && p != a {
        var t :| Child(p, t) != Child(a, t);
        assert t in ts && !AllZero(SpotsAt(p, a, t));
      }
    } else if SameKind(p, a) && p.JNumber? {
      ValueIsInjective(p.n, a.n);
      assert Spots(p, a)[0].score == NumberScore(Value(p.n), Value(a.n));
    } else {
      assert Spots(p, a)[0] in Spots(p, a);
    }
  }

  lemma {:induction false} ZeroAt(p: Json, a: Json, t: string)
    requires SameKind(p, a) && Container(p)
    ensures AllZero(SpotsAt(p, a, t)) <==> Child(p, t) == Child(a, t)
    decreases p, 0
  {
    match (Child(p, t), Child(a, t))
    case (Some(x), Some(y)) =>
      ChildIsSmaller(p, t);
      ZeroExactlyWhenEqual(x, y);
      UnderMembers(t, Spots(x, y));
      forall s | s in Spots(x, y) ensures s.(tokens := [t] + s.tokens) in Under(t, Spots(x, y)) {
        var u := s.(tokens := [t] + s.tokens);
        assert u.(tokens := u.tokens[1..]) == s;
      }
    case (None, None) =>
    case _ => assert SpotsAt(p, a, t)[0].score == 1.0;
  }

  // ----- symmetry

  function MirrorKind(k: Kind): Kind {
    match k
    case MissingPredicted => MissingActual
    case MissingActual => MissingPredicted
    case _ => k
  }

  function Mirror(s: Spot): Spot {
    s.(predicted := s.actual, actual := s.predicted, kind := MirrorKind(s.kind))
  }

  function Mirrored(spots: seq<Spot>): seq<Spot> {
    seq(|spots|, i requires 0 <= i < |spots| => Mirror(spots[i]))
  }

  /** Swapping the documents keeps every pointer and score and swaps the presence flags. */
  lemma {:induction false} SwapMirrors(p: Json, a: Json)
    ensures Spots(a, p) == Mirrored(Spots(p, a))
    decreases p
  {
    if SameKind(p, a) && Container(p) {
      if p.JObject? { assert p.members.Keys + a.members.Keys == a.members.Keys + p.members.Keys; }
      assert Tokens(p, a) == Tokens(a, p);
      SwapMirrorsChildren(p, a, Tokens(p, a));
    }
  }

  lemma {:induction false} SwapMirrorsChildren(p: Json, a: Json, ts: seq<string>)
    ensures ChildSpots(a, p, ts) == Mirrored(ChildSpots(p, a, ts))
    decreases p, 0, |ts|
  {
    hide SpotsAt, Mirror;
    if ts != [] {
      SwapMirrorsChildren(p, a, ts[1..]);
      SwapMirrorsAt(p, a, ts[0]);
    }
  }

  lemma {:induction false} SwapMirrorsAt(p: Json, a: Json, t: string)
    ensures SpotsAt(a, p, t) == Mirrored(SpotsAt(p, a, t))
    decreases p, 0, 0
  {
    hide Spots;
    if Child(p, t).Some? && Child(a, t).Some? {
      ChildIsSmaller(p, t);
      SwapMirrors(Child(p, t).value, Child(a, t).value);
    }
  }

  function Total(spots: seq<Spot>): real {
    if spots == [] then 0.0 else spots[0].score + Total(spots[1..])
  }

  lemma {:induction false} TotalMirrored(spots: seq<Spot>)
    ensures Total(Mirrored(spots)) == Total(spots)
  {
    if spots != [] {
      assert Mirrored(spots)[1..] == Mirrored(spots[1..]);
      TotalMirrored(spots[1..]);
    }
  }

  // ----- pointers

  ghost predicate Comparable(x: seq<string>, y: seq<string>) { x <= y || y <= x }

  /** No pointer of the report is equal to, above or below another. */
  ghost predicate PrefixFree(spots: seq<Spot>) {
    forall i, j | 0 <= i < j < |spots| :: !Comparable(spots[i].tokens, spots[j].tokens)
  }

  lemma SpotsAtHead(p: Json, a: Json, t: string)
    ensures forall s | s in SpotsAt(p, a, t) :: s.tokens != [] && s.tokens[0] == t
  {
    if Child(p, t).Some? && Child(a, t).Some? {
      ChildIsSmaller(p, t);
      UnderMembers(t, Spots(Child(p, t).value, Child(a, t).value));
    }
  }

  lemma {:induction false} PointersArePrefixFree(p: Json, a: Json)
    ensures PrefixFree(Spots(p, a))
    decreases p
  {
    if SameKind(p, a) && Container(p) && Tokens(p, a) != [] {
      TokensFacts(p, a);
      ChildrenArePrefixFree(p, a, Tokens(p, a));
    }
  }

  lemma {:induction false} ChildrenArePrefixFree(p: Json, a: Json, ts: seq<string>)
    requires forall i, j | 0 <= i < j < |ts| :: ts[i] != ts[j]
    ensures PrefixFree(ChildSpots(p, a, ts))
    decreases p, 0, |ts|
  {
    if ts != [] {
      var t := ts[0];
      var here, rest := SpotsAt(p, a, t), ChildSpots(p, a, ts[1..]);
      ChildrenArePrefixFree(p, a, ts[1..]);
      assert PrefixFree(here) by {
        if Child(p, t).Some? && Child(a, t).Some? {
          ChildIsSmaller(p, t);
          var inner := Spots(Child(p, t).value, Child(a, t).value);
          PointersArePrefixFree(Child(p, t).value, Child(a, t).value);
          forall i, j | 0 <= i < j < |here| ensures !Comparable(here[i].tokens, here[j].tokens) {
            SameHead(t, inner[i].tokens, inner[j].tokens);
          }
        }
      }
      SpotsAtHead(p, a, t);
      ChildSpotsMembers(p, a, ts[1..]);
      forall s | s in rest ensures s.tokens != [] && s.tokens[0] != t {
        var u :| u in ts[1..] && s in SpotsAt(p, a, u);
        SpotsAtHead(p, a, u);
      }
    }
  }

  lemma SameHead(t: string, x: seq<string>, y: seq<string>)
    ensures Comparable([t] + x, [t] + y) <==> Comparable(x, y)
  {
    assert ([t] + x)[1..] == x && ([t] + y)[1..] == y;
    if [t] + x <= [t] + y { assert x == ([t] + y)[..|x| + 1][1..]; }
    if [t] + y <= [t] + x { assert y == ([t] + x)[..|y| + 1][1..]; }
  }

  ghost predicate Placed(p: Json, a: Json, s: Spot) {
    && (Resolve(p, s.tokens).Some? <==> s.predicted)
    && (Resolve(a, s.tokens).Some? <==> s.actual)
    && (Resolve(p, s.tokens) == Resolve(a, s.tokens) <==> s.score == 0.0)
  }

  /** Every pointer resolves in a document exactly when the leaf says the document has it, and
      the score is zero exactly when the documents agree there. */
  lemma {:induction false} PointersResolve(p: Json, a: Json)
    ensures forall s | s in Spots(p, a) :: Placed(p, a, s)
    decreases p
  {
    if SameKind(p, a) && Container(p) {
      var ts := Tokens(p, a);
      if ts == [] {
        TokensFacts(p, a);
        SameChildren(p, a);
      } else {
        ChildSpotsMembers(p, a, ts);
        forall s | s in Spots(p, a) ensures Placed(p, a, s) {
          var t :| t in ts && s in SpotsAt(p, a, t);
          if Child(p, t).Some? && Child(a, t).Some? {
            ChildIsSmaller(p, t);
            PointersResolve(Child(p, t).value, Child(a, t).value);
            UnderMembers(t, Spots(Child(p, t).value, Child(a, t).value));
          }
        }
      }
    } else if SameKind(p, a) && p.JNumber? {
      ValueIsInjective(p.n, a.n);
    }
  }

  /** Wherever the documents disagree, the report has a leaf with a positive score at, above or
      below that pointer. */
  lemma {:induction false} DisagreementsAreReported(p: Json, a: Json, ts: seq<string>) returns (s: Spot)
    requires Resolve(p, ts) != Resolve(a, ts)
    ensures s in Spots(p, a) && s.score > 0.0 && Comparable(s.tokens, ts)
    decreases p
  {
    ScoresAreBounded(p, a);
    if ts == [] {
      ZeroExactlyWhenEqual(p, a);
      s :| s in Spots(p, a) && s.score != 0.0;
    } else if !SameKind(p, a) {
      s := Spots(p, a)[0];
    } else {
      var t := ts[0];
      TokensFacts(p, a);
      ChildSpotsMembers(p, a, Tokens(p, a));
      assert t in Tokens(p, a);
      match (Child(p, t), Child(a, t))
      case (Some(x), Some(y)) =>
        ChildIsSmaller(p, t);
        var u := DisagreementsAreReported(x, y, ts[1..]);
        s := u.(tokens := [t] + u.tokens);
        UnderMembers(t, Spots(x, y));
        assert s.(tokens := s.tokens[1..]) == u;
        SameHead(t, u.tokens, ts[1..]);
        assert ts == [t] + ts[1..];
        assert s in SpotsAt(p, a, t);
      case _ =>
        s := SpotsAt(p, a, t)[0];
        assert s in SpotsAt(p, a, t);
    }
  }

  // ----- the report as text

  lemma LeafPlacement(p: Json, a: Json, i: nat)
    requires i < |Report(p, a, "")|
    ensures var l := Report(p, a, "")[i];
      && ParsePointer(l.pointer) == Some(Spots(p, a)[i].tokens)
      && (Lookup(p, l.pointer).Some? <==> l.predicted)
      && (Lookup(a, l.pointer).Some? <==> l.actual)
      && (Lookup(p, l.pointer) == Lookup(a, l.pointer) <==> l.score == 0.0)
  {
    var s, l := Spots(p, a)[i], Report(p, a, "")[i];
    assert l.pointer == Render(s.tokens);
    ParseRender(s.tokens);
    PointersResolve(p, a);
    assert Placed(p, a, s);
  }

  /** Pointers of a report are pairwise distinct, resolve exactly where the presence flags say,
      and carry a zero score exactly where the documents agree. */
  lemma ReportPointers(p: Json, a: Json)
    ensures var r := Report(p, a, "");
      && (forall i, j | 0 <= i < j < |r| :: r[i].pointer != r[j].pointer)
      && (forall i | 0 <= i < |r| :: (Lookup(p, r[i].pointer).Some? <==> r[i].predicted)
                                  && (Lookup(a, r[i].pointer).Some? <==> r[i].actual)
                                  && (Lookup(p, r[i].pointer) == Lookup(a, r[i].pointer) <==> r[i].score == 0.0))
  {
    var spots, r := Spots(p, a), Report(p, a, "");
    forall i, j | 0 <= i < j < |r| ensures r[i].pointer != r[j].pointer {
      PointersArePrefixFree(p, a);
      assert !Comparable(spots[i].tokens, spots[j].tokens);
      LeafPlacement(p, a, i);
      LeafPlacement(p, a, j);
    }
    forall i | 0 <= i < |r|
      ensures (Lookup(p, r[i].pointer).Some? <==> r[i].predicted) && (Lookup(a, r[i].pointer).Some? <==> r[i].actual)
      ensures Lookup(p, r[i].pointer) == Lookup(a, r[i].pointer) <==> r[i].score == 0.0
    {
      LeafPlacement(p, a, i);
    }
  }

  /** No disagreement goes unreported: at every pointer where the documents differ there is a
      leaf with a positive score that names that node, one of its ancestors or one of its
      descendants. */
  lemma ReportIsComplete(p: Json, a: Json, pointer: string) returns (l: Leaf)
    requires Lookup(p, pointer) != Lookup(a, pointer)
    ensures l in Report(p, a, "") && l.score > 0.0
    ensures ParsePointer(l.pointer).Some? && Comparable(ParsePointer(l.pointer).value, ParsePointer(pointer).value)
  {
    var s := DisagreementsAreReported(p, a, ParsePointer(pointer).value);
    ParseRender(s.tokens);
    var i :| 0 <= i < |Spots(p, a)| && Spots(p, a)[i] == s;
    l := Report(p, a, "")[i];
    assert l.pointer == Render(s.tokens);
  }

  // ----- the recursive comparison with a growing path and result list

  function Pointer(path: string, component: string): string {
    path + "/" + Escape(component)
  }

  lemma LeavesUnder(t: string, spots: seq<Spot>, path: string)
    ensures AsLeaves(Under(t, spots), path) == AsLeaves(spots, Pointer(path, t))
  {
    forall i | 0 <= i < |spots|
      ensures AsLeaf(Under(t, spots)[i], path) == AsLeaf(spots[i], Pointer(path, t))
    {
      assert ([t] + spots[i].tokens)[1..] == spots[i].tokens;
      assert path + ("/" + Escape(t) + Render(spots[i].tokens)) == path + "/" + Escape(t) + Render(spots[i].tokens);
    }
  }

  lemma {:induction false} ChildSpotsSnoc(p: Json, a: Json, ts: seq<string>, t: string)
    ensures ChildSpots(p, a, ts + [t]) == ChildSpots(p, a, ts) + SpotsAt(p, a, t)
  {
    hide SpotsAt;
    if ts == [] {
      assert ([t] + [])[1..] == [];
      assert ts + [t] == [t];
    } else {
      assert (ts + [t])[1..] == ts[1..] + [t];
      ChildSpotsSnoc(p, a, ts[1..], t);
    }
  }

  /** One more visited token extends the leaf list by that child's leaves. */
  lemma LeavesSnoc(p: Json, a: Json, ts: seq<string>, i: nat, path: string)
    requires i < |ts|
    ensures AsLeaves(ChildSpots(p, a, ts[..i + 1]), path)
         == AsLeaves(ChildSpots(p, a, ts[..i]), path) + AsLeaves(SpotsAt(p, a, ts[i]), path)
  {
    hide ChildSpots, SpotsAt, AsLeaf;
    assert ts[..i + 1] == ts[..i] + [ts[i]];
    ChildSpotsSnoc(p, a, ts[..i], ts[i]);
  }

  lemma SingleLeaf(t: string, predicted: bool, actual: bool, kind: Kind, path: string)
    ensures AsLeaves([Spot([t], predicted, actual, kind, 1.0)], path) == [Leaf(Pointer(path, t), predicted, actual, kind, 1.0)]
  {
    assert [t][1..] == [];
    assert Render([t]) == "/" + Escape(t) + Render([]) == "/" + Escape(t);
    assert path + Render([t]) == Pointer(path, t);
  }

  lemma ContainerReport(p: Json, a: Json, path: string)
    requires SameKind(p, a) && Container(p)
    ensures Tokens(p, a) == [] ==> Report(p, a, path) == [Leaf(path, true, true, if p.JObject? then EmptyObject else EmptyArray, 0.0)]
    ensures Tokens(p, a) != [] ==> Report(p, a, path) == AsLeaves(ChildSpots(p, a, Tokens(p, a)), path)
  {
    assert path + "" == path;
  }

  method Compare(predicted: Json, actual: Json, path: string) returns (leaves: seq<Leaf>)
    ensures leaves == Report(predicted, actual, path)
    decreases predicted, 2, 0
  {
    assert path + "" == path;
    if !SameKind(predicted, actual) {
      return [Leaf(path, true, true, TypeMismatch, 1.0)];
    }
    match predicted {
      case JNumber(x) => leaves := [Leaf(path, true, true, Numeric, NumberScore(Value(x), Value(actual.n)))];
      case JBool(_) => leaves := [Leaf(path, true, true, Boolean, if predicted == actual then 0.0 else 1.0)];
      case JString(_) => leaves := [Leaf(path, true, true, Text, if predicted == actual then 0.0 else 1.0)];
      case JNull => leaves := [Leaf(path, true, true, Null, 0.0)];
      case JObject(_) => leaves := CompareMembers(predicted, actual, path);
      case JArray(_) => leaves := CompareItems(predicted, actual, path);
    }
  }

  method CompareMembers(predicted: Json, actual: Json, path: string) returns (leaves: seq<Leaf>)
    requires predicted.JObject? && actual.JObject?
    ensures leaves == Report(predicted, actual, path)
    decreases predicted, 1, 0
  {
    ContainerReport(predicted, actual, path);
    var p, a := predicted.members, actual.members;
    var keys := Listing(p.Keys + a.Keys);
    if p.Keys == {} && a.Keys == {} {
      return [Leaf(path, true, true, EmptyObject, 0.0)];
    }
    leaves := [];
    for i := 0 to |keys|
      invariant leaves == AsLeaves(ChildSpots(predicted, actual, keys[..i]), path)
    {
      assert keys[i] in keys;
      var below := CompareMember(predicted, actual, keys[i], path);
      LeavesSnoc(predicted, actual, keys, i, path);
      leaves := leaves + below;
    }
    assert keys[..|keys|] == keys;
  }

  method CompareMember(predicted: Json, actual: Json, key: string, path: string) returns (leaves: seq<Leaf>)
    requires predicted.JObject? && actual.JObject?
    requires key in predicted.members || key in actual.members
    ensures leaves == AsLeaves(SpotsAt(predicted, actual, key), path)
    decreases predicted, 0, 0
  {
    var p, a := predicted.members, actual.members;
    var child := Pointer(path, key);
    if key !in p {
      SingleLeaf(key, false, true, MissingPredicted, path);
      leaves := [Leaf(child, false, true, MissingPredicted, 1.0)];
    } else if key !in a {
      SingleLeaf(key, true, false, MissingActual, path);
      leaves := [Leaf(child, true, false, MissingActual, 1.0)];
    } else {
      LeavesUnder(key, Spots(p[key], a[key]), path);
      leaves := Compare(p[key], a[key], child);
    }
  }

  method CompareItems(predicted: Json, actual: Json, path: string) returns (leaves: seq<Leaf>)
    requires predicted.JArray? && actual.JArray?
    ensures leaves == Report(predicted, actual, path)
    decreases predicted, 1, 0
  {
    var p, a := predicted.items, actual.items;
    ContainerReport(predicted, actual, path);
    if p == [] && a == [] {
      return [Leaf(path, true, true, EmptyArray, 0.0)];
    }
    var count := if |p| < |a| then |a| else |p|;
    ghost var tokens := Indices(count);
    leaves := [];
    for i := 0 to count
      invariant leaves == AsLeaves(ChildSpots(predicted, actual, tokens[..i]), path)
    {
      var below := CompareItem(predicted, actual, i, path);
      LeavesSnoc(predicted, actual, tokens, i, path);
      leaves := leaves + below;
    }
    assert tokens[..count] == tokens;
  }

  method CompareItem(predicted: Json, actual: Json, i: nat, path: string) returns (leaves: seq<Leaf>)
    requires predicted.JArray? && actual.JArray?
    requires i < |predicted.items| || i < |actual.items|
    ensures leaves == AsLeaves(SpotsAt(predicted, actual, NatText(i)), path)
    decreases predicted, 0, 0
  {
    var p, a := predicted.items, actual.items;
    var index := NatText(i);
    var child := Pointer(path, index);
    ParseIndexOfNat(i);
    if i >= |p| {
      SingleLeaf(index, false, true, MissingPredicted, path);
      leaves := [Leaf(child, false, true, MissingPredicted, 1.0)];
    } else if i >= |a| {
      SingleLeaf(index, true, false, MissingActual, path);
      leaves := [Leaf(child, true, false, MissingActual, 1.0)];
    } else {
      LeavesUnder(index, Spots(p[i], a[i]), path);
      leaves := Compare(p[i], a[i], child);
    }
  }

  // ----- the score of a report

  function TotalScore(leaves: seq<Leaf>): real {
    if leaves == [] then 0.0 else leaves[0].score + TotalScore(leaves[1..])
  }

  lemma {:induction false} TotalIsBounded(leaves: seq<Leaf>)
    requires forall l | l in leaves :: 0.0 <= l.score <= 1.0
    ensures 0.0 <= TotalScore(leaves) <= |leaves| as real
    ensures TotalScore(leaves) == 0.0 <==> forall l | l in leaves :: l.score == 0.0
  {
    if leaves != [] {
      TotalIsBounded(leaves[1..]);
      assert leaves == [leaves[0]] + leaves[1..];
    }
  }

  lemma {:induction false} TotalOfSpots(spots: seq<Spot>, path: string)
    ensures TotalScore(AsLeaves(spots, path)) == Total(spots)
  {
    if spots != [] {
      assert AsLeaves(spots, path)[1..] == AsLeaves(spots[1..], path);
      TotalOfSpots(spots[1..], path);
    }
  }

  function Mean(p: Json, a: Json): real {
    ReportScores(p, a);
    TotalScore(Report(p, a, "")) / |Report(p, a, "")| as real
  }

  lemma QuotientBounds(x: real, n: real)
    requires 0.0 <= x <= n && n >= 1.0
    ensures 0.0 <= x / n <= 1.0 && (x / n == 0.0 <==> x == 0.0)
  {}

  lemma ReportScores(p: Json, a: Json)
    ensures Report(p, a, "") != []
    ensures forall l | l in Report(p, a, "") :: 0.0 <= l.score <= 1.0
    ensures (forall l | l in Report(p, a, "") :: l.score == 0.0) <==> p == a
  {
    hide Spots;
    var spots, r := Spots(p, a), Report(p, a, "");
    ScoresAreBounded(p, a);
    ZeroExactlyWhenEqual(p, a);
    assert |r| == |spots|;
    forall i | 0 <= i < |r| ensures r[i].score == spots[i].score && r[i] in r && spots[i] in spots {}
    assert AllZero(spots) <==> forall i | 0 <= i < |spots| :: spots[i].score == 0.0;
  }

  lemma TotalIsSymmetric(p: Json, a: Json)
    ensures TotalScore(Report(a, p, "")) == TotalScore(Report(p, a, ""))
    ensures |Report(a, p, "")| == |Report(p, a, "")|
  {
    hide Spots, Total, TotalScore;
    SwapMirrors(p, a);
    TotalMirrored(Spots(p, a));
    TotalOfSpots(Spots(p, a), "");
    TotalOfSpots(Spots(a, p), "");
  }

  /** The mean lies in [0,1], is zero exactly on equal documents, and does not depend on which
      document is called the prediction. */
  lemma MeanIsSound(p: Json, a: Json)
    ensures 0.0 <= Mean(p, a) <= 1.0
    ensures Mean(p, a) == 0.0 <==> p == a
    ensures Mean(a, p) == Mean(p, a)
  {
    hide Report, TotalScore;
    ReportScores(p, a);
    TotalIsBounded(Report(p, a, ""));
    QuotientBounds(TotalScore(Report(p, a, "")), |Report(p, a, "")| as real);
    TotalIsSymmetric(p, a);
  }

  /** Rounding half to even at six decimal places, in millionths. */
  function Quantize(x: real): int {
    var scaled := x * 1000000.0;
    var low := scaled.Floor;
    var rest := scaled - low as real;
    if rest < 0.5 || (rest == 0.5 && low % 2 == 0) then low else low + 1
  }

  function Millionths(m: int): real { m as real / 1000000.0 }

  /** Quantization moves a score to the nearest millionth, to the even one of two equally near. */
  lemma QuantizeIsNear(x: real)
    ensures x - 0.0000005 <= Millionths(Quantize(x)) <= x + 0.0000005
    ensures Millionths(Quantize(x)) == x - 0.0000005 || Millionths(Quantize(x)) == x + 0.0000005 ==> Quantize(x) % 2 == 0
    ensures forall m: int :: x == Millionths(m) ==> Quantize(x) == m
  {
    forall m: int | x == Millionths(m) ensures Quantize(x) == m {
      assert x * 1000000.0 == m as real;
    }
  }

  lemma QuantizeIsMonotone(x: real, y: real)
    requires x <= y
    ensures Quantize(x) <= Quantize(y)
  {
    assert x * 1000000.0 <= y * 1000000.0;
  }

  /** A score at or above a threshold of at most six places is never stored below it, and the
      stored score reaches the threshold exactly from half a millionth below, the tie going to
      the even neighbour. */
  lemma ThresholdSurvives(x: real, t: int)
    ensures Quantize(x) >= t <==>
      x > Millionths(t) - 0.0000005 || (x == Millionths(t) - 0.0000005 && t % 2 == 0)
  {
    var low := (x * 1000000.0).Floor;
    assert x * 1000000.0 - t as real == (x - Millionths(t)) * 1000000.0;
  }

  // ----- the comparison of two documents

  const DEFAULT_THRESHOLD := 0.5
  const COMPARISON_VERSION := "json-divergence-v1"

  /** The digest of a document stands for the document. */
  datatype DocumentDigest = DigestOf(document: Json)

  datatype DivergenceResult = DivergenceResult(
    comparisonVersion: string, predictedDigest: DocumentDigest, actualDigest: DocumentDigest,
    leaves: seq<Leaf>, score: real, threshold: real)

  datatype Comparison = Compared(result: DivergenceResult) | ThresholdRejected

  function Divergence(p: Json, a: Json, threshold: real): DivergenceResult {
    DivergenceResult(COMPARISON_VERSION, DigestOf(p), DigestOf(a), Report(p, a, ""), Millionths(Quantize(Mean(p, a))), threshold)
  }

  method SumScores(leaves: seq<Leaf>) returns (total: real)
    ensures total == TotalScore(leaves)
  {
    total := 0.0;
    var i := 0;
    assert leaves[0..] == leaves;
    while i < |leaves|
      invariant 0 <= i <= |leaves|
      invariant total + TotalScore(leaves[i..]) == TotalScore(leaves)
    {
      assert leaves[i..][1..] == leaves[i + 1..];
      total, i := total + leaves[i].score, i + 1;
    }
  }

  method CompareJson(predicted: Json, actual: Json, threshold: real) returns (r: Comparison)
    ensures r.ThresholdRejected? <==> threshold < 0.0 || threshold > 1.0
    ensures r.Compared? ==> r.result == Divergence(predicted, actual, threshold)
  {
    hide Report, TotalScore, Quantize, Millionths;
    if threshold < 0.0 || threshold > 1.0 {
      return ThresholdRejected;
    }
    var leaves := Compare(predicted, actual, "");
    ReportScores(predicted, actual);
    var total := SumScores(leaves);
    r := Compared(DivergenceResult(COMPARISON_VERSION, DigestOf(predicted), DigestOf(actual),
                                   leaves, Millionths(Quantize(total / |leaves| as real)), threshold));
  }

  /** The stored score satisfies the table's bound, is zero on equal documents, and is the
      same for swapped documents; on different documents it is zero only when the mean is at
      most half a millionth. */
  lemma StoredScoreIsSound(p: Json, a: Json, threshold: real)
    ensures 0.0 <= Divergence(p, a, threshold).score <= 1.0
    ensures Divergence(p, a, threshold).score == 0.0 <==> Mean(p, a) <= 0.0000005
    ensures Divergence(a, p, threshold).score == Divergence(p, a, threshold).score
  {
    MeanIsSound(p, a);
    QuantizeIsNear(0.0);
    QuantizeIsNear(1.0);
    assert Millionths(0) == 0.0 && Millionths(1000000) == 1.0;
    QuantizeIsMonotone(0.0, Mean(p, a));
    QuantizeIsMonotone(Mean(p, a), 1.0);
    ThresholdSurvives(Mean(p, a), 1);
  }

  const WHOLE := JNumber(Number(1, 0))
  const OVER_HALF := JNumber(Number(5000003, -7))

  /** A mean below the threshold that is stored as the threshold. */
  lemma RoundedUpToThreshold()
    ensures Mean(WHOLE, OVER_HALF) == 0.4999997 && Divergence(WHOLE, OVER_HALF, DEFAULT_THRESHOLD).score == 0.5
  {
    var p, a := WHOLE, OVER_HALF;
    TenMillionths();
    var leaves := Report(p, a, "");
    assert NumberScore(1.0, 0.5000003) == 0.4999997;
    assert Spots(p, a) == [Spot([], true, true, Numeric, 0.4999997)];
    assert leaves == [AsLeaf(Spots(p, a)[0], "")];
    assert leaves[1..] == [] && TotalScore(leaves) == 0.4999997;
    assert Mean(p, a) == 0.4999997 / 1.0;
    assert (0.4999997 * 1000000.0).Floor == 499999;
  }

  lemma TenMillionths()
    ensures Value(Number(1, 0)) == 1.0 && Value(Number(5000003, -7)) == 0.5000003
  {
    assert Pow10(-1) == 0.1 && Pow10(-2) == 0.01 && Pow10(-3) == 0.001;
    assert Pow10(-5) == 0.00001 && Pow10(-6) == 0.000001 && Pow10(-7) == 0.0000001;
  }
}
