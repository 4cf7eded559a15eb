/** Mapping, filtering and gathering over sequences, defined so that a loop extends them by one
    element at the end. */
module Sequences {
  import opened Ordering

  function Each<T, U>(f: T -> U, s: seq<T>): (r: seq<U>)
    ensures |r| == |s|
    ensures forall i | 0 <= i < |s| :: r[i] == f(s[i])
  {
    seq(|s|, i requires 0 <= i < |s| => f(s[i]))
  }

  function Filter<T>(f: T -> bool, s: seq<T>): seq<T> {
    if s == [] then []
    else Filter(f, s[..|s| - 1]) + if f(s[|s| - 1]) then [s[|s| - 1]] else []
  }

  function Gather<T, U>(f: T -> seq<U>, s: seq<T>): seq<U> {
    if s == [] then [] else Gather(f, s[..|s| - 1]) + f(s[|s| - 1])
  }

  datatype Found<+T> = Absent | Present(row: T)

  /** The last element satisfying p. */
  function FindLast<T>(p: T -> bool, s: seq<T>): (r: Found<T>)
    ensures r.Present? ==> r.row in s && p(r.row)
    ensures r.Absent? ==> forall x | x in s :: !p(x)
  {
    if s == [] then Absent
    else if p(s[|s| - 1]) then Present(s[|s| - 1])
    else
      assert s == s[..|s| - 1] + [s[|s| - 1]];
      FindLast(p, s[..|s| - 1])
  }

  ghost predicate Distinct<T(!new), K(!new)>(key: T -> K, s: seq<T>) {
    forall i, j | 0 <= i < j < |s| :: key(s[i]) != key(s[j])
  }

  lemma DistinctSnoc<T(!new), K(!new)>(key: T -> K, s: seq<T>, x: T)
    requires Distinct(key, s) && forall y | y in s :: key(y) != key(x)
    ensures Distinct(key, s + [x])
  {}

  lemma DistinctRows<T(!new), K(!new)>(key: T -> K, s: seq<T>, x: T, y: T)
    requires Distinct(key, s) && x in s && y in s && key(x) == key(y)
    ensures x == y
  {
    var i :| 0 <= i < |s| && s[i] == x;
    var j :| 0 <= j < |s| && s[j] == y;
    if i < j {} else if j < i {}
  }

  /** The row found last is the last of the rows that pass. */
  lemma {:induction false} FindLastInFilter<T>(p: T -> bool, s: seq<T>)
    ensures Filter(p, s) == [] <==> FindLast(p, s).Absent?
    ensures Filter(p, s) != [] ==> FindLast(p, s) == Present(Filter(p, s)[|Filter(p, s)| - 1])
  {
    if s != [] { FindLastInFilter(p, s[..|s| - 1]); }
  }

  /** When exactly one element passes, the filter keeps it alone. */
  lemma {:induction false} FilterOnly<T>(p: T -> bool, s: seq<T>, k: nat)
    requires k < |s| && p(s[k]) && forall i | 0 <= i < |s| && i != k :: !p(s[i])
    ensures Filter(p, s) == [s[k]]
  {
    var n := |s|;
    if k == n - 1 {
      FilterEmpty(p, s[..n - 1]);
    } else {
      FilterOnly(p, s[..n - 1], k);
    }
  }

  lemma {:induction false} FilterDistinct<T(!new), K(!new)>(key: T -> K, p: T -> bool, s: seq<T>)
    requires Distinct(key, s)
    ensures Distinct(key, Filter(p, s))
  {
    if s != [] {
      var front, last := s[..|s| - 1], s[|s| - 1];
      FilterDistinct(key, p, front);
      FilterMembers(p, front);
      if p(last) { DistinctSnoc(key, Filter(p, front), last); }
    }
  }

  lemma FilterSnoc<T>(p: T -> bool, s: seq<T>, x: T)
    ensures Filter(p, s + [x]) == Filter(p, s) + if p(x) then [x] else []
  {
    assert (s + [x])[..|s|] == s;
  }

  lemma {:induction false} FilterMembers<T>(f: T -> bool, s: seq<T>)
    ensures forall x :: x in Filter(f, s) <==> x in s && f(x)
  {
    if s != [] {
      FilterMembers(f, s[..|s| - 1]);
      assert s == s[..|s| - 1] + [s[|s| - 1]];
    }
  }

  lemma {:induction false} GatherMembers<T, U>(f: T -> seq<U>, s: seq<T>)
    ensures forall y :: y in Gather(f, s) <==> exists x :: x in s && y in f(x)
  {
    if s != [] {
      var front, last := s[..|s| - 1], s[|s| - 1];
      GatherMembers(f, front);
      assert s == front + [last];
      forall y ensures y in Gather(f, s) <==> exists x :: x in s && y in f(x) {
        if y in f(last) { assert last in s; }
        if x :| x in s && y in f(x) { assert x == last || x in front; }
      }
    }
  }

  lemma EachMembers<T, U>(f: T -> U, s: seq<T>)
    ensures forall y :: y in Each(f, s) <==> exists x :: x in s && y == f(x)
  {
    forall y ensures y in Each(f, s) <==> exists x :: x in s && y == f(x) {
      if y in Each(f, s) {
        var i :| 0 <= i < |s| && Each(f, s)[i] == y;
        assert s[i] in s;
      }
      if x :| x in s && y == f(x) {
        var i :| 0 <= i < |s| && s[i] == x;
        assert Each(f, s)[i] == y;
      }
    }
  }

  /** One more element in a loop over s. */
  lemma TakeStep<T>(s: seq<T>, i: nat)
    requires i < |s|
    ensures s[..i + 1][..i] == s[..i] && s[..i + 1][i] == s[i] && |s[..i + 1]| == i + 1
  {}

  lemma {:induction false} GatherEmpty<T, U>(f: T -> seq<U>, s: seq<T>)
    ensures Gather(f, s) == [] <==> forall x | x in s :: f(x) == []
  {
    if s != [] {
      GatherEmpty(f, s[..|s| - 1]);
      assert s == s[..|s| - 1] + [s[|s| - 1]];
    }
  }

  lemma {:induction false} GatherConcat<T, U>(f: T -> seq<U>, a: seq<T>, b: seq<T>)
    ensures Gather(f, a + b) == Gather(f, a) + Gather(f, b)
  {
    if b == [] {
      assert a + b == a;
    } else {
      var n := |b|;
      GatherConcat(f, a, b[..n - 1]);
      assert (a + b)[..|a + b| - 1] == a + b[..n - 1];
    }
  }

  /** When only the element at k contributes, the gathering is its contribution. */
  lemma {:induction false} GatherOnly<T, U>(f: T -> seq<U>, s: seq<T>, k: nat)
    requires k < |s| && forall i | 0 <= i < |s| && i != k :: f(s[i]) == []
    ensures Gather(f, s) == f(s[k])
  {
    var n := |s|;
    if k == n - 1 {
      GatherEmpty(f, s[..n - 1]);
    } else {
      GatherOnly(f, s[..n - 1], k);
    }
  }

  lemma {:induction false} FilterEmpty<T>(f: T -> bool, s: seq<T>)
    ensures Filter(f, s) == [] <==> forall x | x in s :: !f(x)
  {
    if s != [] {
      FilterEmpty(f, s[..|s| - 1]);
      assert s == s[..|s| - 1] + [s[|s| - 1]];
    }
  }

  /** A loop over s that has not begun. */
  lemma LoopStart<T>(s: seq<T>)
    ensures s[..0] == [] && s[..|s|] == s
  {}

  lemma GatherNone<T, U>(f: T -> seq<U>)
    ensures Gather(f, []) == []
  {}

  lemma FilterNone<T>(f: T -> bool)
    ensures Filter(f, []) == []
  {}

  lemma EachStep<T, U>(f: T -> U, s: seq<T>, i: nat)
    requires i < |s|
    ensures Each(f, s[..i + 1]) == Each(f, s[..i]) + [f(s[i])]
  {}

  lemma FilterStep<T>(f: T -> bool, s: seq<T>, i: nat)
    requires i < |s|
    ensures Filter(f, s[..i + 1]) == Filter(f, s[..i]) + if f(s[i]) then [s[i]] else []
  {
    TakeStep(s, i);
  }

  lemma GatherStep<T, U>(f: T -> seq<U>, s: seq<T>, i: nat)
    requires i < |s|
    ensures Gather(f, s[..i + 1]) == Gather(f, s[..i]) + f(s[i])
  {
    TakeStep(s, i);
  }

  lemma SortMembers<T>(key: T -> Key, s: seq<T>)
    ensures |Sort(key, s)| == |s|
    ensures forall x :: x in Sort(key, s) <==> x in s
  {
    SortFacts(key, s);
    assert |multiset(s)| == |s| && |multiset(Sort(key, s))| == |Sort(key, s)|;
    forall x ensures x in Sort(key, s) <==> x in s {
      assert x in s <==> x in multiset(s);
    }
  }

  lemma SortMember<T>(key: T -> Key, s: seq<T>, i: nat)
    requires i < |Sort(key, s)|
    ensures Sort(key, s)[i] in s
  {
    SortFacts(key, s);
    assert Sort(key, s)[i] in multiset(Sort(key, s));
    assert Sort(key, s)[i] in multiset(s);
  }

  // ----- sorting and mapping commute when the map keeps the keys

  lemma {:induction false} InsertEach<T>(key: T -> Key, f: T -> T, x: T, s: seq<T>)
    requires forall y :: key(f(y)) == key(y)
    ensures Insert(key, f(x), Each(f, s)) == Each(f, Insert(key, x, s))
  {
    hide KeyLess;
    if s == [] || !KeyLess(key(s[0]), key(x)) {
    } else {
      InsertEach(key, f, x, s[1..]);
      assert Each(f, s)[1..] == Each(f, s[1..]);
      assert Each(f, [s[0]] + Insert(key, x, s[1..])) == [f(s[0])] + Each(f, Insert(key, x, s[1..]));
    }
  }

  lemma {:induction false} SortEach<T>(key: T -> Key, f: T -> T, s: seq<T>)
    requires forall y :: key(f(y)) == key(y)
    ensures Sort(key, Each(f, s)) == Each(f, Sort(key, s))
  {
    hide Insert;
    if s != [] {
      SortEach(key, f, s[1..]);
      assert Each(f, s)[1..] == Each(f, s[1..]);
      InsertEach(key, f, s[0], Sort(key, s[1..]));
    }
  }
}
