/** The leaves of a comparison, told from the two documents alone: where they are, what they say,
    and in which order; and what their scores are worth. */
module DivergenceLeaves {
  import opened Decimals
  import opened Divergence
  import opened Json
  import opened Ordering

  // ----- the score of two numbers

  function Distance(x: real, y: real): real { if x < y then y - x else x - y }

  /** With m the largest of 1 and the two magnitudes: the distance in units of m, capped at 1. */
  lemma ScoreExactly(x: real, y: real, m: real)
    requires m >= 1.0 && -m <= x <= m && -m <= y <= m && (m == 1.0 || m == x || m == -x || m == y || m == -y)
    ensures if Distance(x, y) < m then NumberScore(x, y) * m == Distance(x, y) else NumberScore(x, y) == 1.0
  {
    assert Max(Max(Abs(x), Abs(y)), 1.0) == m;
    QuotientExactly(Distance(x, y), m);
  }

  lemma QuotientExactly(d: real, m: real)
    requires m >= 1.0 && d >= 0.0
    ensures d / m * m == d && (d / m < 1.0 <==> d < m)
  {
    var q := d / m;
    assert q * m == d;
    if q < 1.0 {
      Positive(m, 1.0 - q);
      assert m * (1.0 - q) == m - q * m;
    } else {
      NotNegative(m, q - 1.0);
      assert m * (q - 1.0) == q * m - m;
    }
  }

  /** Magnitudes up to 1 are compared as they are. */
  lemma ScoreNearUnit(x: real, y: real)
    requires -1.0 <= x <= 1.0 && -1.0 <= y <= 1.0
    ensures NumberScore(x, y) == if Distance(x, y) < 1.0 then Distance(x, y) else 1.0
  {
    ScoreExactly(x, y, 1.0);
  }

  /** Larger ones are compared relatively: a common factor does not matter. */
  lemma ScoreScales(x: real, y: real, k: real)
    requires k >= 1.0 && (x >= 1.0 || x <= -1.0 || y >= 1.0 || y <= -1.0)
    ensures NumberScore(k * x, k * y) == NumberScore(x, y)
  {
    hide NumberScore, NumberDistance, Distance;
    var m := Largest(x, y);
    ScoreExactly(x, y, m);
    Magnified(k, x, m);
    Magnified(k, y, m);
    MagnifiedDistance(k, x, y);
    ScaledScore(x, y, m, k * x, k * y, k * m, k);
  }

  lemma ScaledScore(x: real, y: real, m: real, u: real, v: real, n: real, k: real)
    requires k >= 1.0 && m >= 1.0 && n == k * m && n >= 1.0 && -n <= u <= n && -n <= v <= n && (n == u || n == -u || n == v || n == -v)
    requires Distance(u, v) == k * Distance(x, y)
    requires if Distance(x, y) < m then NumberScore(x, y) * m == Distance(x, y) else NumberScore(x, y) == 1.0
    ensures NumberScore(u, v) == NumberScore(x, y)
  {
    hide NumberScore, NumberDistance, Distance;
    ScoreExactly(u, v, n);
    NotNegativeDistance(x, y);
    SameQuotient(NumberScore(x, y), NumberScore(u, v), Distance(x, y), m, Distance(u, v), n, k);
  }

  lemma NotNegativeDistance(x: real, y: real)
    ensures Distance(x, y) >= 0.0
  {}

  lemma Largest(x: real, y: real) returns (m: real)
    requires x >= 1.0 || x <= -1.0 || y >= 1.0 || y <= -1.0
    ensures m >= 1.0 && -m <= x <= m && -m <= y <= m && (m == x || m == -x || m == y || m == -y)
  {
    m := Max(Abs(x), Abs(y));
  }

  lemma Magnified(k: real, x: real, m: real)
    requires k >= 1.0 && m >= 1.0 && -m <= x <= m
    ensures k * m >= 1.0 && -(k * m) <= k * x <= k * m && (m == x ==> k * m == k * x) && (m == -x ==> k * m == -(k * x))
  {}

  lemma MagnifiedDistance(k: real, x: real, y: real)
    requires k >= 1.0
    ensures Distance(k * x, k * y) == k * Distance(x, y)
  {
    assert k * (y - x) == k * y - k * x && k * (x - y) == k * x - k * y;
    if x < y { Positive(k, y - x); } else { NotNegative(k, x - y); }
  }

  lemma Positive(k: real, d: real)
    requires k >= 1.0 && d > 0.0
    ensures k * d > 0.0
  {}

  lemma NotNegative(k: real, d: real)
    requires k >= 1.0 && d >= 0.0
    ensures k * d >= 0.0
  {}

  lemma SameQuotient(r: real, q: real, d: real, m: real, e: real, n: real, k: real)
    requires k >= 1.0 && m >= 1.0 && d >= 0.0 && e == k * d && n == k * m
    requires if d < m then r * m == d else r == 1.0
    requires if e < n then q * n == e else q == 1.0
    ensures q == r
  {
    SameOrder(k, d, m);
    if d < m {
      Commute(q, k, m);
      Cancel(q * m, d, k);
      Cancel(q, r, m);
    }
  }

  lemma SameOrder(k: real, d: real, m: real)
    requires k >= 1.0
    ensures k * d < k * m <==> d < m
  {
    assert k * (m - d) == k * m - k * d;
    if d < m { Positive(k, m - d); } else { NotNegative(k, d - m); assert k * (d - m) == k * d - k * m; }
  }

  lemma Commute(q: real, k: real, m: real)
    ensures q * (k * m) == (q * m) * k
  {}

  lemma Cancel(x: real, y: real, k: real)
    requires k >= 1.0 && x * k == y * k
    ensures x == y
  {}

  // ----- the mean

  /** The total of a list with one more leaf at its end. */
  lemma {:induction false} TotalIsSum(leaves: seq<Leaf>, l: Leaf)
    ensures TotalScore([]) == 0.0 && TotalScore(leaves + [l]) == TotalScore(leaves) + l.score
  {
    if leaves == [] {
      assert [l][1..] == [];
      assert leaves + [l] == [l];
    } else {
      assert (leaves + [l])[1..] == leaves[1..] + [l];
      TotalIsSum(leaves[1..], l);
    }
  }

  /** The mean times the number of leaves is the total of their scores. */
  lemma MeanIsAverage(p: Json, a: Json)
    ensures Report(p, a, "") != [] && Mean(p, a) * |Report(p, a, "")| as real == TotalScore(Report(p, a, ""))
  {
    hide Report, TotalScore;
    ReportScores(p, a);
    Divided(TotalScore(Report(p, a, "")), |Report(p, a, "")| as real);
  }

  lemma Divided(x: real, n: real)
    requires n >= 1.0
    ensures x / n * n == x
  {}

  // ----- where the leaves are

  /** The comparison goes on below two containers of one kind that are not both empty. */
  predicate Opens(x: Json, y: Json) {
    || (x.JObject? && y.JObject? && (x.members.Keys != {} || y.members.Keys != {}))
    || (x.JArray? && y.JArray? && (x.items != [] || y.items != []))
  }

  ghost predicate BothOpen(x: Option<Json>, y: Option<Json>) { x.Some? && y.Some? && Opens(x.value, y.value) }

  /** There is a leaf where some document has a node, every node above is open in both, and the
      node itself is not. */
  ghost predicate LeafAt(p: Json, a: Json, ts: seq<string>) {
    && (Resolve(p, ts).Some? || Resolve(a, ts).Some?) && !BothOpen(Resolve(p, ts), Resolve(a, ts))
    && forall n | 0 <= n < |ts| :: BothOpen(Resolve(p, ts[..n]), Resolve(a, ts[..n]))
  }

  /** What a leaf says about the two nodes. */
  ghost predicate Says(x: Option<Json>, y: Option<Json>, predicted: bool, actual: bool, kind: Kind, score: real) {
    && predicted == x.Some? && actual == y.Some?
    && match (x, y)
       case (Some(_), None) => kind == MissingActual && score == 1.0
       case (None, Some(_)) => kind == MissingPredicted && score == 1.0
       case (None, None) => false
       case (Some(u), Some(v)) =>
         match (u, v)
         case (JNumber(m), JNumber(n)) => kind == Numeric && score == NumberScore(Value(m), Value(n))
         case (JNull, JNull) => kind == Null && score == 0.0
         case (JBool(b), JBool(c)) => kind == Boolean && score == if b == c then 0.0 else 1.0
         case (JString(s), JString(t)) => kind == Text && score == if s == t then 0.0 else 1.0
         case (JObject(_), JObject(_)) => kind == EmptyObject && score == 0.0
         case (JArray(_), JArray(_)) => kind == EmptyArray && score == 0.0
         case _ => kind == TypeMismatch && score == 1.0
  }

  ghost predicate SpotSays(p: Json, a: Json, s: Spot) {
    LeafAt(p, a, s.tokens) && Says(Resolve(p, s.tokens), Resolve(a, s.tokens), s.predicted, s.actual, s.kind, s.score)
  }

  lemma OpensExactly(p: Json, a: Json)
    ensures Opens(p, a) <==> SameKind(p, a) && Container(p) && Tokens(p, a) != []
  {
    if SameKind(p, a) && Container(p) {
      TokensFacts(p, a);
      if p.JArray? {
        assert |Tokens(p, a)| == if |p.items| < |a.items| then |a.items| else |p.items|;
      } else {
        if k :| k in p.members.Keys + a.members.Keys { assert k in Listing(p.members.Keys + a.members.Keys); }
        if Tokens(p, a) != [] { assert Tokens(p, a)[0] in Listing(p.members.Keys + a.members.Keys); }
      }
    }
  }

  lemma OpenSpots(p: Json, a: Json)
    requires Opens(p, a)
    ensures SameKind(p, a) && Container(p) && Spots(p, a) == ChildSpots(p, a, Tokens(p, a))
  {
    OpensExactly(p, a);
  }

  lemma AtRoot(p: Json, a: Json)
    requires !Opens(p, a)
    ensures LeafAt(p, a, []) && forall s | s in Spots(p, a) :: SpotSays(p, a, s) && s.tokens == []
    ensures |Spots(p, a)| == 1
  {
    hide NumberScore, Value, Listing;
    OpensExactly(p, a);
    if SameKind(p, a) && Container(p) { assert Tokens(p, a) == []; }
  }

  ghost predicate LeafBelow(x: Option<Json>, y: Option<Json>, us: seq<string>) {
    if x.Some? && y.Some? then LeafAt(x.value, y.value, us) else (x.Some? || y.Some?) && us == []
  }

  ghost function Below(d: Json, t: string, us: seq<string>): Option<Json> {
    if Child(d, t).Some? then Resolve(Child(d, t).value, us) else None
  }

  lemma ResolveBelow(d: Json, t: string, us: seq<string>, n: nat)
    requires n <= |us|
    ensures Resolve(d, ([t] + us)[..n + 1]) == Below(d, t, us[..n])
  {
    var ts := ([t] + us)[..n + 1];
    assert ts[0] == t && ts[1..] == us[..n];
  }

  /** Below a token the places are those of the two children. */
  lemma PlacesBelow(p: Json, a: Json, t: string, us: seq<string>)
    requires Opens(p, a)
    ensures Resolve(p, [t] + us) == Below(p, t, us) && Resolve(a, [t] + us) == Below(a, t, us)
    ensures LeafAt(p, a, [t] + us) <==> LeafBelow(Child(p, t), Child(a, t), us)
  {
    hide Opens, Child;
    var ts := [t] + us;
    assert ts[..|us| + 1] == ts && us[..|us|] == us;
    forall n | 0 <= n <= |us| ensures Resolve(p, ts[..n + 1]) == Below(p, t, us[..n]) && Resolve(a, ts[..n + 1]) == Below(a, t, us[..n]) {
      ResolveBelow(p, t, us, n);
      ResolveBelow(a, t, us, n);
    }
    assert Resolve(p, ts[..0]) == Some(p) && Resolve(a, ts[..0]) == Some(a);
    if LeafAt(p, a, ts) {
      forall n | 0 <= n < |us| ensures BothOpen(Below(p, t, us[..n]), Below(a, t, us[..n])) {
        assert BothOpen(Resolve(p, ts[..n + 1]), Resolve(a, ts[..n + 1]));
      }
      if us != [] { assert BothOpen(Below(p, t, us[..0]), Below(a, t, us[..0])); }
    }
    if LeafBelow(Child(p, t), Child(a, t), us) {
      forall n | 0 <= n < |ts| ensures BothOpen(Resolve(p, ts[..n]), Resolve(a, ts[..n])) {
        if n > 0 {
          assert BothOpen(Below(p, t, us[..n - 1]), Below(a, t, us[..n - 1]));
          assert ts[..n] == ts[..(n - 1) + 1];
        }
      }
    }
  }

  // ----- the leaves are exactly those

  lemma SpotBelow(p: Json, a: Json, t: string, s: Spot)
    requires Opens(p, a) && s in SpotsAt(p, a, t)
    requires Child(p, t).Some? && Child(a, t).Some? ==>
      forall u | u in Spots(Child(p, t).value, Child(a, t).value) :: SpotSays(Child(p, t).value, Child(a, t).value, u)
    ensures SpotSays(p, a, s)
  {
    hide Opens, Child, NumberScore, LeafAt;
    if Child(p, t).Some? && Child(a, t).Some? {
      var (x, y) := (Child(p, t).value, Child(a, t).value);
      ChildIsSmaller(p, t);
      UnderMembers(t, Spots(x, y));
      var u := s.(tokens := s.tokens[1..]);
      assert SpotSays(x, y, u) && s.tokens == [t] + u.tokens;
      PlacesBelow(p, a, t, u.tokens);
    } else {
      PlacesBelow(p, a, t, []);
      assert [t] + [] == [t];
    }
  }

  /** Every leaf stands at such a place and says what is there. */
  lemma {:induction false} SpotsSay(p: Json, a: Json)
    ensures forall s | s in Spots(p, a) :: SpotSays(p, a, s)
    decreases p
  {
    hide SpotSays;
    if Opens(p, a) {
      OpenSpots(p, a);
      ChildSpotsMembers(p, a, Tokens(p, a));
      forall s | s in Spots(p, a) ensures SpotSays(p, a, s) {
        var t :| t in Tokens(p, a) && s in SpotsAt(p, a, t);
        if Child(p, t).Some? && Child(a, t).Some? {
          ChildIsSmaller(p, t);
          SpotsSay(Child(p, t).value, Child(a, t).value);
        }
        SpotBelow(p, a, t, s);
      }
    } else {
      AtRoot(p, a);
    }
  }

  /** Every such place has a leaf. */
  lemma {:induction false} PlaceHasSpot(p: Json, a: Json, ts: seq<string>) returns (s: Spot)
    requires LeafAt(p, a, ts)
    ensures s in Spots(p, a) && s.tokens == ts
    decreases p
  {
    hide LeafAt, Opens;
    if Opens(p, a) {
      OpenRoot(p, a, ts);
      var t, us := ts[0], ts[1..];
      assert ts == [t] + us;
      PlacesBelow(p, a, t, us);
      OpenSpots(p, a);
      TokensFacts(p, a);
      ChildSpotsMembers(p, a, Tokens(p, a));
      if Child(p, t).Some? && Child(a, t).Some? {
        ChildIsSmaller(p, t);
        var u := PlaceHasSpot(Child(p, t).value, Child(a, t).value, us);
        UnderMembers(t, Spots(Child(p, t).value, Child(a, t).value));
        s := u.(tokens := ts);
        assert s.(tokens := s.tokens[1..]) == u;
      } else {
        s := SpotsAt(p, a, t)[0];
      }
      assert s in SpotsAt(p, a, t);
    } else {
      ClosedRoot(p, a, ts);
      AtRoot(p, a);
      s := Spots(p, a)[0];
      assert s in Spots(p, a);
    }
  }

  lemma OpenRoot(p: Json, a: Json, ts: seq<string>)
    requires Opens(p, a) && LeafAt(p, a, ts)
    ensures ts != []
  {}

  lemma ClosedRoot(p: Json, a: Json, ts: seq<string>)
    requires !Opens(p, a) && LeafAt(p, a, ts)
    ensures ts == []
  {
    assert ts != [] ==> BothOpen(Resolve(p, ts[..0]), Resolve(a, ts[..0]));
    assert ts[..0] == [];
  }

  /** The report has exactly one leaf for every such place, which says what the documents hold
      there, and no other leaf. */
  lemma LeavesExactly(p: Json, a: Json, ts: seq<string>)
    ensures (exists l :: l in Report(p, a, "") && l.pointer == Render(ts)) <==> LeafAt(p, a, ts)
    ensures forall l | l in Report(p, a, "") && l.pointer == Render(ts) ::
      Says(Resolve(p, ts), Resolve(a, ts), l.predicted, l.actual, l.kind, l.score)
    ensures forall i, j | 0 <= i < j < |Report(p, a, "")| :: Report(p, a, "")[i].pointer != Report(p, a, "")[j].pointer
  {
    hide LeafAt, Says, Spots;
    SpotsSay(p, a);
    ReportPointers(p, a);
    var (spots, r) := (Spots(p, a), Report(p, a, ""));
    if LeafAt(p, a, ts) {
      var s := PlaceHasSpot(p, a, ts);
      var i :| 0 <= i < |spots| && spots[i] == s;
      assert r[i] in r && r[i].pointer == Render(ts);
    }
    forall l | l in r && l.pointer == Render(ts)
      ensures LeafAt(p, a, ts) && Says(Resolve(p, ts), Resolve(a, ts), l.predicted, l.actual, l.kind, l.score)
    {
      var i :| 0 <= i < |r| && r[i] == l;
      ParseRender(ts);
      ParseRender(spots[i].tokens);
      assert l.pointer == Render(spots[i].tokens) && SpotSays(p, a, spots[i]);
    }
  }

  // ----- and their order

  /** Keys come by code point, array positions by number. */
  ghost predicate TokenBefore(d: Json, s: string, t: string) {
    if d.JArray? then ParseIndex(s).Some? && ParseIndex(t).Some? && ParseIndex(s).value < ParseIndex(t).value else TextLess(s, t)
  }

  /** Where two token lists part, the first comes first in the node above. */
  ghost predicate Earlier(p: Json, x: seq<string>, y: seq<string>) {
    exists n | 0 <= n < |x| && n < |y| :: x[..n] == y[..n] && Resolve(p, x[..n]).Some? && TokenBefore(Resolve(p, x[..n]).value, x[n], y[n])
  }

  lemma EarlierBelow(p: Json, t: string, x: seq<string>, y: seq<string>)
    requires Child(p, t).Some? && Earlier(Child(p, t).value, x, y)
    ensures Earlier(p, [t] + x, [t] + y)
  {
    var n :| 0 <= n < |x| && n < |y| && x[..n] == y[..n] && Resolve(Child(p, t).value, x[..n]).Some?
             && TokenBefore(Resolve(Child(p, t).value, x[..n]).value, x[n], y[n]);
    ResolveBelow(p, t, x, n);
    var (u, v) := ([t] + x, [t] + y);
    assert u[..n + 1] == [t] + x[..n] && v[..n + 1] == [t] + y[..n] && u[n + 1] == x[n] && v[n + 1] == y[n];
  }

  lemma EarlierHere(p: Json, x: seq<string>, y: seq<string>)
    requires x != [] && y != [] && TokenBefore(p, x[0], y[0])
    ensures Earlier(p, x, y)
  {
    assert x[..0] == [] && y[..0] == [];
  }

  lemma TokensInOrder(p: Json, a: Json, i: nat, j: nat)
    requires SameKind(p, a) && Container(p) && i < j < |Tokens(p, a)|
    ensures TokenBefore(p, Tokens(p, a)[i], Tokens(p, a)[j])
  {
    if p.JObject? {
      ListingIncreases(p.members.Keys + a.members.Keys);
    } else {
      ParseIndexOfNat(i);
      ParseIndexOfNat(j);
    }
  }

  ghost predicate InOrder(p: Json, spots: seq<Spot>) {
    forall i, j | 0 <= i < j < |spots| :: Earlier(p, spots[i].tokens, spots[j].tokens)
  }

  lemma UnderInOrder(p: Json, t: string, spots: seq<Spot>)
    requires Child(p, t).Some? && InOrder(Child(p, t).value, spots)
    ensures InOrder(p, Under(t, spots))
  {
    hide Earlier;
    forall i, j | 0 <= i < j < |spots| ensures Earlier(p, Under(t, spots)[i].tokens, Under(t, spots)[j].tokens) {
      EarlierBelow(p, t, spots[i].tokens, spots[j].tokens);
    }
  }

  lemma ConcatInOrder(p: Json, a: seq<Spot>, b: seq<Spot>)
    requires InOrder(p, a) && InOrder(p, b) && forall x, y | x in a && y in b :: Earlier(p, x.tokens, y.tokens)
    ensures InOrder(p, a + b)
  {
    hide Earlier;
    forall i, j | 0 <= i < j < |a + b| ensures Earlier(p, (a + b)[i].tokens, (a + b)[j].tokens) {
      if i < |a| <= j { assert (a + b)[i] in a && (a + b)[j] in b; }
    }
  }

  lemma {:induction false} ChildrenInOrder(p: Json, a: Json, ts: seq<string>)
    requires forall i, j | 0 <= i < j < |ts| :: TokenBefore(p, ts[i], ts[j])
    ensures InOrder(p, ChildSpots(p, a, ts))
    decreases p, 0, |ts|
  {
    hide Earlier, TokenBefore;
    if ts != [] {
      ChildrenInOrder(p, a, ts[1..]);
      ChildInOrder(p, a, ts[0]);
      SpotsAtHead(p, a, ts[0]);
      ChildSpotsMembers(p, a, ts[1..]);
      forall x, y | x in SpotsAt(p, a, ts[0]) && y in ChildSpots(p, a, ts[1..]) ensures Earlier(p, x.tokens, y.tokens) {
        var t :| t in ts[1..] && y in SpotsAt(p, a, t);
        SpotsAtHead(p, a, t);
        var j :| 0 <= j < |ts[1..]| && ts[1..][j] == t;
        assert TokenBefore(p, ts[0], ts[j + 1]);
        EarlierHere(p, x.tokens, y.tokens);
      }
      ConcatInOrder(p, SpotsAt(p, a, ts[0]), ChildSpots(p, a, ts[1..]));
    }
  }

  lemma {:induction false} ChildInOrder(p: Json, a: Json, t: string)
    ensures InOrder(p, SpotsAt(p, a, t))
    decreases p, 0, 0
  {
    hide Earlier;
    if Child(p, t).Some? && Child(a, t).Some? {
      ChildIsSmaller(p, t);
      SpotsInOrder(Child(p, t).value, Child(a, t).value);
      UnderInOrder(p, t, Spots(Child(p, t).value, Child(a, t).value));
    }
  }

  lemma {:induction false} SpotsInOrder(p: Json, a: Json)
    ensures InOrder(p, Spots(p, a))
    decreases p, 1, 0
  {
    hide Earlier, TokenBefore;
    if Opens(p, a) {
      OpenSpots(p, a);
      forall i, j | 0 <= i < j < |Tokens(p, a)| ensures TokenBefore(p, Tokens(p, a)[i], Tokens(p, a)[j]) { TokensInOrder(p, a, i, j); }
      ChildrenInOrder(p, a, Tokens(p, a));
    } else {
      AtRoot(p, a);
    }
  }

  /** The leaves are listed in the order of the documents: where the pointers of two leaves part,
      the earlier one takes the smaller key or the smaller position. */
  lemma LeavesInOrder(p: Json, a: Json, i: nat, j: nat)
    requires i < j < |Report(p, a, "")|
    ensures var (x, y) := (ParsePointer(Report(p, a, "")[i].pointer), ParsePointer(Report(p, a, "")[j].pointer));
      x.Some? && y.Some? && Earlier(p, x.value, y.value)
  {
    hide Earlier, Spots, ParsePointer, Render, Report;
    SpotsInOrder(p, a);
    PointerOf(p, a, i);
    PointerOf(p, a, j);
  }

  lemma PointerOf(p: Json, a: Json, i: nat)
    requires i < |Report(p, a, "")|
    ensures |Report(p, a, "")| == |Spots(p, a)| && ParsePointer(Report(p, a, "")[i].pointer) == Some(Spots(p, a)[i].tokens)
  {
    hide Spots;
    ParseRender(Spots(p, a)[i].tokens);
    assert Report(p, a, "")[i].pointer == Render(Spots(p, a)[i].tokens);
  }
}
