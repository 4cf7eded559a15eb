/** Finite decimal numbers, kept in the one form without trailing zeros in the coefficient,
    so that equal values are equal numbers. */
module Decimals {
  datatype Number = Number(coefficient: int, exponent: int)

  predicate Canonical(n: Number) {
    if n.coefficient == 0 then n.exponent == 0 else n.coefficient % 10 != 0
  }

  type Decimal = n: Number | Canonical(n) witness Number(0, 0)

  function Pow10(e: int): (r: real)
    ensures r > 0.0
    decreases if e < 0 then -e else e
  {
    if e == 0 then 1.0 else if e > 0 then 10.0 * Pow10(e - 1) else Pow10(e + 1) / 10.0
  }

  function Value(n: Number): real {
    n.coefficient as real * Pow10(n.exponent)
  }

  /** The canonical form of coefficient * 10^exponent. */
  function Strip(c: int, e: int): (r: Decimal)
    ensures r.coefficient == 0 <==> c == 0
    decreases if c < 0 then -c else c
  {
    if c == 0 then Number(0, 0)
    else if c % 10 == 0 then Strip(c / 10, e + 1)
    else Number(c, e)
  }

  lemma {:induction false} StripKeepsValue(c: int, e: int)
    ensures Value(Strip(c, e)) == Value(Number(c, e))
    decreases if c < 0 then -c else c
  {
    hide Value;
    if c == 0 {
      ZeroValue(e);
      ZeroValue(0);
    } else if c % 10 == 0 {
      StripKeepsValue(c / 10, e + 1);
      ShiftValue(c / 10, e);
    }
  }

  lemma ZeroValue(e: int)
    ensures Value(Number(0, e)) == 0.0
  {}

  lemma ShiftValue(q: int, e: int)
    ensures Value(Number(q, e + 1)) == Value(Number(10 * q, e))
  {
    Pow10Step(e);
    ShiftDigit(q, Pow10(e));
  }

  lemma Pow10Step(e: int)
    ensures Pow10(e + 1) == 10.0 * Pow10(e)
  {}

  lemma ShiftDigit(q: int, p: real)
    ensures q as real * (10.0 * p) == (10 * q) as real * p
  {
    assert (10 * q) as real == 10.0 * q as real;
  }

  function IntPow10(k: nat): (r: int)
    ensures r > 0
  {
    if k == 0 then 1 else 10 * IntPow10(k - 1)
  }

  lemma {:induction false} Pow10Shift(e: int, k: nat)
    ensures Pow10(e + k) == IntPow10(k) as real * Pow10(e)
  {
    if k > 0 {
      Pow10Shift(e, k - 1);
      Pow10Step(e + k - 1);
      assert IntPow10(k) as real == 10.0 * IntPow10(k - 1) as real;
    }
  }

  lemma CancelScale(c: int, d: int, m: int, p: real, q: real)
    requires p > 0.0 && q == m as real * p && c as real * p == d as real * q
    ensures c == d * m
  {
    assert d as real * (m as real * p) == (d as real * m as real) * p;
    assert d as real * m as real == (d * m) as real;
    CancelFactor(c as real, (d * m) as real, p);
  }

  lemma CancelFactor(x: real, y: real, p: real)
    requires p > 0.0 && x * p == y * p
    ensures x == y
  {
    assert (x - y) * p == 0.0;
  }

  lemma ValuesMeet(a: Number, b: Number, k: nat)
    requires Value(a) == Value(b) && b.exponent == a.exponent + k
    ensures a.coefficient == b.coefficient * IntPow10(k)
  {
    hide Pow10, IntPow10;
    Pow10Shift(a.exponent, k);
    CancelScale(a.coefficient, b.coefficient, IntPow10(k), Pow10(a.exponent), Pow10(b.exponent));
  }

  lemma RescaledIsEqual(a: Decimal, b: Decimal, k: nat)
    requires Value(a) == Value(b) && b.exponent == a.exponent + k
    ensures a == b
  {
    hide Value, IntPow10;
    ValuesMeet(a, b, k);
    MultipleOfTen(b.coefficient, k);
  }

  lemma MultipleOfTen(c: int, k: nat)
    ensures k > 0 ==> c * IntPow10(k) % 10 == 0
    ensures c != 0 <==> c * IntPow10(k) != 0
    ensures c * IntPow10(0) == c
  {
    if k > 0 { assert c * IntPow10(k) == 10 * (c * IntPow10(k - 1)); }
  }

  /** Equal values are equal decimals. */
  lemma ValueIsInjective(a: Decimal, b: Decimal)
    ensures a == b <==> Value(a) == Value(b)
  {
    if Value(a) == Value(b) {
      var k := b.exponent - a.exponent;
      if k >= 0 { RescaledIsEqual(a, b, k); } else { RescaledIsEqual(b, a, -k); }
    }
  }
}
