/** Lexicographic orders and the stable keyed sort that the repository's
    canonical forms are built from. */
module Ordering {

  /** The strict lexicographic order on sequences over a strict order on elements. */
  predicate Lex<T(==)>(less: (T, T) -> bool, a: seq<T>, b: seq<T>)
    decreases |a|
  {
    if b == [] then false
    else if a == [] then true
    else less(a[0], b[0]) || (a[0] == b[0] && Lex(less, a[1..], b[1..]))
  }

  ghost predicate StrictTotal<T(!new)>(less: (T, T) -> bool) {
    && (forall x :: !less(x, x))
    && (forall x, y, z :: less(x, y) && less(y, z) ==> less(x, z))
    && (forall x, y :: x == y || less(x, y) || less(y, x))
  }

  lemma {:induction false} LexIrreflexive<T(!new)>(less: (T, T) -> bool, a: seq<T>)
    requires StrictTotal(less)
    ensures !Lex(less, a, a)
  {
    if a != [] { LexIrreflexive(less, a[1..]); }
  }

  lemma {:induction false} LexTransitive<T(!new)>(less: (T, T) -> bool, a: seq<T>, b: seq<T>, c: seq<T>)
    requires StrictTotal(less) && Lex(less, a, b) && Lex(less, b, c)
    ensures Lex(less, a, c)
    decreases |a|
  {
    if a != [] && a[0] == b[0] && b[0] == c[0] {
      LexTransitive(less, a[1..], b[1..], c[1..]);
    }
  }

  lemma {:induction false} LexConnected<T(!new)>(less: (T, T) -> bool, a: seq<T>, b: seq<T>)
    requires StrictTotal(less)
    ensures a == b || Lex(less, a, b) || Lex(less, b, a)
    decreases |a|
  {
    if a != [] && b != [] && a[0] == b[0] {
      LexConnected(less, a[1..], b[1..]);
      assert a == [a[0]] + a[1..] && b == [b[0]] + b[1..];
    }
  }

  predicate CharLess(x: char, y: char) { x < y }

  /** Code-point order on text, as Python compares strings. */
  predicate TextLess(a: string, b: string) { Lex(CharLess, a, b) }

  /** A sort key: one text, or a tuple of texts compared component by component. */
  type Key = seq<string>

  predicate KeyLess(a: Key, b: Key) { Lex(TextLess, a, b) }

  lemma CharOrder()
    ensures StrictTotal(CharLess)
  {}

  lemma TextTrichotomy(a: string, b: string)
    ensures a == b || TextLess(a, b) || TextLess(b, a)
    ensures !(TextLess(a, b) && TextLess(b, a)) && !TextLess(a, a)
  {
    CharOrder();
    LexConnected(CharLess, a, b);
    LexIrreflexive(CharLess, a);
    if TextLess(a, b) && TextLess(b, a) { LexTransitive(CharLess, a, b, a); }
  }

  lemma TextTransitive(a: string, b: string, c: string)
    requires TextLess(a, b) && TextLess(b, c)
    ensures TextLess(a, c)
  {
    CharOrder();
    LexTransitive(CharLess, a, b, c);
  }

  lemma TextOrder()
    ensures StrictTotal(TextLess)
  {
    hide TextLess;
    forall a ensures !TextLess(a, a) { TextTrichotomy(a, a); }
    forall a, b, c | TextLess(a, b) && TextLess(b, c) ensures TextLess(a, c) { TextTransitive(a, b, c); }
    forall a, b ensures a == b || TextLess(a, b) || TextLess(b, a) { TextTrichotomy(a, b); }
  }

  lemma KeyTrichotomy(a: Key, b: Key)
    ensures a == b || KeyLess(a, b) || KeyLess(b, a)
    ensures !(KeyLess(a, b) && KeyLess(b, a)) && !KeyLess(a, a)
  {
    TextOrder();
    LexConnected(TextLess, a, b);
    LexIrreflexive(TextLess, a);
    if KeyLess(a, b) && KeyLess(b, a) { LexTransitive(TextLess, a, b, a); }
  }

  lemma KeyTransitive(a: Key, b: Key, c: Key)
    requires KeyLess(a, b) && KeyLess(b, c)
    ensures KeyLess(a, c)
  {
    TextOrder();
    LexTransitive(TextLess, a, b, c);
  }

  /** "Not after" is transitive. */
  lemma KeyWeakOrder(a: Key, b: Key, c: Key)
    requires !KeyLess(b, a) && !KeyLess(c, b)
    ensures !KeyLess(c, a)
  {
    hide KeyLess;
    KeyTrichotomy(a, b);
    if KeyLess(c, a) && KeyLess(a, b) { KeyTransitive(c, a, b); }
  }

  /** Places x before the first element whose key is not smaller. */
  /** Keys compare by their first text, then by the second, then by the third. */
  lemma KeyOfOne(a: string, x: string)
    ensures KeyLess([a], [x]) <==> TextLess(a, x)
  {
    KeyStep([a], [x]);
  }

  lemma KeyStep(k: Key, l: Key)
    requires k != [] && l != []
    ensures KeyLess(k, l) <==> TextLess(k[0], l[0]) || (k[0] == l[0] && KeyLess(k[1..], l[1..]))
  {}

  lemma KeyOfTwo(a: string, b: string, x: string, y: string)
    ensures KeyLess([a, b], [x, y]) <==> TextLess(a, x) || (a == x && TextLess(b, y))
  {
    hide KeyLess;
    var k, l := [a, b], [x, y];
    KeyStep(k, l);
    assert k[1..] == [b] && l[1..] == [y];
    KeyOfOne(b, y);
  }

  lemma KeyOfThree(a: string, b: string, c: string, x: string, y: string, z: string)
    ensures KeyLess([a, b, c], [x, y, z]) <==> TextLess(a, x) || (a == x && (TextLess(b, y) || (b == y && TextLess(c, z))))
  {
    hide KeyLess;
    var k, l := [a, b, c], [x, y, z];
    KeyStep(k, l);
    assert k[1..] == [b, c] && l[1..] == [y, z];
    KeyOfTwo(b, c, y, z);
  }

  function Insert<T>(key: T -> Key, x: T, s: seq<T>): seq<T> {
    if s == [] || !KeyLess(key(s[0]), key(x)) then [x] + s
    else [s[0]] + Insert(key, x, s[1..])
  }

  /** The stable sort by key. */
  function Sort<T>(key: T -> Key, s: seq<T>): seq<T> {
    if s == [] then [] else Insert(key, s[0], Sort(key, s[1..]))
  }

  /** No element stands before one with a smaller key. */
  ghost predicate Sorted<T>(key: T -> Key, s: seq<T>) {
    forall i, j | 0 <= i < j < |s| :: !KeyLess(key(s[j]), key(s[i]))
  }

  /** The rows carrying one key, in their order. */
  function Class<T>(key: T -> Key, k: Key, s: seq<T>): seq<T> {
    if s == [] then []
    else (if key(s[0]) == k then [s[0]] else []) + Class(key, k, s[1..])
  }

  ghost predicate SameClasses<T>(key: T -> Key, a: seq<T>, b: seq<T>) {
    forall k :: Class(key, k, a) == Class(key, k, b)
  }

  ghost predicate DistinctKeys<T>(key: T -> Key, s: seq<T>) {
    forall i, j | 0 <= i < j < |s| :: key(s[i]) != key(s[j])
  }

  lemma SortedCons<T>(key: T -> Key, x: T, s: seq<T>)
    requires Sorted(key, s) && forall y | y in s :: !KeyLess(key(y), key(x))
    ensures Sorted(key, [x] + s)
  {
    hide KeyLess;
  }

  lemma {:induction false} InsertFacts<T>(key: T -> Key, x: T, s: seq<T>)
    requires Sorted(key, s)
    ensures Sorted(key, Insert(key, x, s))
    ensures multiset(Insert(key, x, s)) == multiset{x} + multiset(s)
  {
    hide KeyLess;
    if s == [] || !KeyLess(key(s[0]), key(x)) {
      forall y | y in s ensures !KeyLess(key(y), key(x)) {
        var i :| 0 <= i < |s| && s[i] == y;
        if i > 0 { KeyWeakOrder(key(x), key(s[0]), key(y)); }
      }
      SortedCons(key, x, s);
    } else {
      InsertFacts(key, x, s[1..]);
      var t := Insert(key, x, s[1..]);
      assert s == [s[0]] + s[1..];
      forall y | y in t ensures !KeyLess(key(y), key(s[0])) {
        assert y in multiset(t);
        KeyTrichotomy(key(x), key(s[0]));
        assert y == x || y in s[1..];
      }
      SortedCons(key, s[0], t);
    }
  }

  lemma {:induction false} SortFacts<T>(key: T -> Key, s: seq<T>)
    ensures Sorted(key, Sort(key, s))
    ensures multiset(Sort(key, s)) == multiset(s)
  {
    hide KeyLess, Insert;
    if s != [] {
      SortFacts(key, s[1..]);
      InsertFacts(key, s[0], Sort(key, s[1..]));
      assert s == [s[0]] + s[1..];
    }
  }

  lemma ClassCons<T>(key: T -> Key, k: Key, x: T, s: seq<T>)
    ensures Class(key, k, [x] + s) == (if key(x) == k then [x] else []) + Class(key, k, s)
  {
    assert ([x] + s)[1..] == s;
  }

  lemma {:induction false} InsertClass<T>(key: T -> Key, k: Key, x: T, s: seq<T>)
    ensures Class(key, k, Insert(key, x, s)) == (if key(x) == k then [x] else []) + Class(key, k, s)
  {
    hide KeyLess;
    if s == [] || !KeyLess(key(s[0]), key(x)) {
      ClassCons(key, k, x, s);
    } else {
      InsertClass(key, k, x, s[1..]);
      ClassCons(key, k, s[0], Insert(key, x, s[1..]));
      KeyTrichotomy(key(s[0]), key(x));
    }
  }

  /** Stability: sorting keeps the order of rows that share a key. */
  lemma {:induction false} SortIsStable<T>(key: T -> Key, k: Key, s: seq<T>)
    ensures Class(key, k, Sort(key, s)) == Class(key, k, s)
  {
    hide Insert;
    if s != [] {
      SortIsStable(key, k, s[1..]);
      InsertClass(key, k, s[0], Sort(key, s[1..]));
    }
  }

  lemma {:induction false} ClassMembers<T>(key: T -> Key, k: Key, s: seq<T>)
    ensures forall x :: x in Class(key, k, s) <==> x in s && key(x) == k
    ensures forall i | 0 <= i < |Class(key, k, s)| :: Class(key, k, s)[i] in s && key(Class(key, k, s)[i]) == k
  {
    if s != [] { ClassMembers(key, k, s[1..]); }
  }

  /** The first row of a sorted list is not after any row carrying its own class elsewhere. */
  lemma HeadNotAfter<T>(key: T -> Key, a: seq<T>, b: seq<T>)
    requires a != [] && b != [] && Sorted(key, b) && SameClasses(key, a, b)
    ensures !KeyLess(key(a[0]), key(b[0]))
  {
    hide KeyLess;
    var k := key(a[0]);
    assert Class(key, k, a) == Class(key, k, b);
    ClassMembers(key, k, b);
    assert Class(key, k, a)[0] == a[0];
    var i :| 0 <= i < |b| && b[i] == a[0];
    KeyTrichotomy(k, k);
  }

  lemma SameHead<T>(key: T -> Key, a: seq<T>, b: seq<T>)
    requires a != [] && b != [] && Sorted(key, a) && Sorted(key, b) && SameClasses(key, a, b)
    ensures a[0] == b[0]
  {
    hide KeyLess;
    HeadNotAfter(key, a, b);
    HeadNotAfter(key, b, a);
    KeyTrichotomy(key(a[0]), key(b[0]));
    var k := key(a[0]);
    assert Class(key, k, a)[0] == a[0] && Class(key, k, b)[0] == b[0];
  }

  lemma TailClasses<T>(key: T -> Key, a: seq<T>, b: seq<T>)
    requires a != [] && b != [] && a[0] == b[0] && SameClasses(key, a, b)
    ensures SameClasses(key, a[1..], b[1..])
  {
    forall k ensures Class(key, k, a[1..]) == Class(key, k, b[1..]) {
      assert Class(key, k, a) == Class(key, k, b);
      assert Class(key, k, a[1..]) == if k == key(a[0]) then Class(key, k, a)[1..] else Class(key, k, a);
      assert Class(key, k, b[1..]) == if k == key(b[0]) then Class(key, k, b)[1..] else Class(key, k, b);
    }
  }

  lemma EmptyClasses<T>(key: T -> Key, a: seq<T>)
    requires SameClasses(key, a, [])
    ensures a == []
  {
    assert a == [] || Class(key, key(a[0]), a) == Class(key, key(a[0]), []);
  }

  lemma {:induction false} SortedClassesDetermine<T>(key: T -> Key, a: seq<T>, b: seq<T>)
    requires Sorted(key, a) && Sorted(key, b) && SameClasses(key, a, b)
    ensures a == b
    decreases |a|
  {
    hide KeyLess, Class;
    if b == [] {
      EmptyClasses(key, a);
    } else if a == [] {
      EmptyClasses(key, b);
    } else {
      SameHead(key, a, b);
      TailClasses(key, a, b);
      SortedClassesDetermine(key, a[1..], b[1..]);
      assert a == [a[0]] + a[1..] && b == [b[0]] + b[1..];
    }
  }

  /** Two lists have one canonical form exactly when they agree, key by key, on the order of
      the rows that share the key. */
  lemma SameSortExactly<T>(key: T -> Key, a: seq<T>, b: seq<T>)
    ensures Sort(key, a) == Sort(key, b) <==> SameClasses(key, a, b)
  {
    SortFacts(key, a);
    SortFacts(key, b);
    forall k ensures Class(key, k, Sort(key, a)) == Class(key, k, a) { SortIsStable(key, k, a); }
    forall k ensures Class(key, k, Sort(key, b)) == Class(key, k, b) { SortIsStable(key, k, b); }
    if SameClasses(key, a, b) {
      assert SameClasses(key, Sort(key, a), Sort(key, b));
      SortedClassesDetermine(key, Sort(key, a), Sort(key, b));
    }
  }

  lemma SomeMember<T>(s: seq<T>)
    ensures s == [] || exists x :: x in s
  {
    if s != [] { assert s[0] in s; }
  }

  lemma {:induction false} DistinctClass<T>(key: T -> Key, k: Key, s: seq<T>)
    requires DistinctKeys(key, s)
    ensures |Class(key, k, s)| <= 1
  {
    if s != [] {
      DistinctClass(key, k, s[1..]);
      ClassMembers(key, k, s[1..]);
      forall x | x in s[1..] ensures key(x) != key(s[0]) {
        var j :| 0 < j < |s| && s[j] == x;
      }
      SomeMember(Class(key, k, s[1..]));
    }
  }

  /** How often a row occurs in its class depends only on how often it occurs at all. */
  lemma {:induction false} ClassCount<T>(key: T -> Key, k: Key, s: seq<T>, x: T)
    ensures multiset(Class(key, k, s))[x] == if key(x) == k then multiset(s)[x] else 0
  {
    if s != [] {
      ClassCount(key, k, s[1..], x);
      assert s == [s[0]] + s[1..];
      assert multiset(s) == multiset{s[0]} + multiset(s[1..]);
    }
  }

  lemma RearrangedClass<T>(key: T -> Key, k: Key, a: seq<T>, b: seq<T>)
    requires multiset(a) == multiset(b) && DistinctKeys(key, a)
    ensures Class(key, k, a) == Class(key, k, b)
  {
    var p, q := Class(key, k, a), Class(key, k, b);
    DistinctClass(key, k, a);
    forall x ensures multiset(p)[x] == multiset(q)[x] {
      ClassCount(key, k, a, x);
      ClassCount(key, k, b, x);
    }
    AtMostOneRow(p, q);
  }

  lemma AtMostOneRow<T>(p: seq<T>, q: seq<T>)
    requires |p| <= 1 && forall x :: multiset(p)[x] == multiset(q)[x]
    ensures p == q
  {
    assert multiset(p) == multiset(q);
    assert |p| == |multiset(p)| == |multiset(q)| == |q|;
    if p != [] {
      assert p == [p[0]] && q == [q[0]];
      assert q[0] in multiset(p);
    }
  }

  /** Every rearrangement of rows with distinct keys sorts to the same list. */
  lemma RearrangementSortsAlike<T>(key: T -> Key, a: seq<T>, b: seq<T>)
    requires multiset(a) == multiset(b) && DistinctKeys(key, a)
    ensures Sort(key, a) == Sort(key, b)
  {
    forall k ensures Class(key, k, a) == Class(key, k, b) { RearrangedClass(key, k, a, b); }
    SameSortExactly(key, a, b);
  }

  /** Sorting twice is sorting once. */
  lemma SortIsIdempotent<T>(key: T -> Key, s: seq<T>)
    ensures Sort(key, Sort(key, s)) == Sort(key, s)
  {
    SortFacts(key, s);
    forall k ensures Class(key, k, Sort(key, s)) == Class(key, k, s) { SortIsStable(key, k, s); }
    SameSortExactly(key, Sort(key, s), s);
  }

  predicate IsLeast(x: string, s: set<string>) {
    x in s && forall y | y in s :: x == y || TextLess(x, y)
  }

  lemma {:induction false} LeastOf(s: set<string>) returns (m: string)
    requires s != {}
    ensures IsLeast(m, s)
  {
    hide TextLess;
    var x :| x in s;
    if s == {x} {
      m := x;
    } else {
      var rest := s - {x};
      assert s == {x} + rest;
      m := LeastOf(rest);
      TextTrichotomy(x, m);
      if TextLess(x, m) {
        forall y | y in s ensures x == y || TextLess(x, y) {
          if y != x && y != m { TextTransitive(x, m, y); }
        }
        m := x;
      }
    }
  }

  lemma LeastIsUnique(s: set<string>, x: string, y: string)
    requires IsLeast(x, s) && IsLeast(y, s)
    ensures x == y
  {
    hide TextLess;
    TextTrichotomy(x, y);
  }

  lemma OneLeast(s: set<string>)
    requires s != {}
    ensures exists x :: IsLeast(x, s)
    ensures forall x, y | IsLeast(x, s) && IsLeast(y, s) :: x == y
  {
    hide IsLeast;
    var m := LeastOf(s);
    forall x, y | IsLeast(x, s) && IsLeast(y, s) ensures x == y { LeastIsUnique(s, x, y); }
  }

  function Least(s: set<string>): (r: string)
    requires s != {}
    ensures IsLeast(r, s)
  {
    OneLeast(s);
    var x :| IsLeast(x, s);
    x
  }

  /** The elements of a set of texts in increasing order: Python's sorted(set(...)). */
  function Listing(s: set<string>): (r: seq<string>)
    ensures forall x :: x in r <==> x in s
  {
    if s == {} then [] else [Least(s)] + Listing(s - {Least(s)})
  }

  ghost predicate Increasing(s: seq<string>) {
    forall i, j | 0 <= i < j < |s| :: TextLess(s[i], s[j])
  }

  lemma {:induction false} ListingIncreases(s: set<string>)
    ensures Increasing(Listing(s))
  {
    hide TextLess, Least;
    if s != {} {
      var r := Listing(s - {Least(s)});
      ListingIncreases(s - {Least(s)});
      forall i | 0 <= i < |r| ensures TextLess(Least(s), r[i]) { assert r[i] in r; }
    }
  }

  lemma IncreasingTail(s: seq<string>)
    requires s != [] && Increasing(s)
    ensures Increasing(s[1..])
    ensures forall k :: k in s[1..] <==> k in s && k != s[0]
  {
    hide TextLess;
    forall k | k in s && k != s[0] ensures k in s[1..] {
      var i :| 0 <= i < |s| && s[i] == k;
      assert s[1..][i - 1] == k;
    }
    forall k | k in s[1..] ensures k in s && k != s[0] {
      var i :| 0 <= i < |s[1..]| && s[1..][i] == k;
      assert s[i + 1] == k && TextLess(s[0], s[i + 1]);
      TextTrichotomy(k, k);
    }
  }

  lemma HeadIsLeast(a: seq<string>, s: set<string>)
    requires a != [] && Increasing(a) && forall k :: k in a <==> k in s
    ensures IsLeast(a[0], s)
  {
    hide TextLess;
    forall y | y in s ensures a[0] == y || TextLess(a[0], y) {
      var i :| 0 <= i < |a| && a[i] == y;
    }
    assert a[0] in a;
  }

  /** A set of texts has one increasing listing. */
  lemma {:induction false} IncreasingIsListing(a: seq<string>, s: set<string>)
    requires Increasing(a) && forall k :: k in a <==> k in s
    ensures a == Listing(s)
    decreases |a|
  {
    hide TextLess, Least;
    if a == [] {
      assert s == {};
    } else {
      HeadIsLeast(a, s);
      LeastIsUnique(s, a[0], Least(s));
      IncreasingTail(a);
      IncreasingIsListing(a[1..], s - {a[0]});
      assert a == [a[0]] + a[1..];
    }
  }
}
