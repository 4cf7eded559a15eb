/** Reading what the printer wrote: the canonical text determines the document up to the
    printer's 28 significant digits. */
module JsonRoundTrip {
  import opened Decimals
  import opened Json
  import opened JsonText
  import opened Ordering
  import opened Utf8

  /** The document the printer actually writes: every number at 28 significant digits. */
  function Rounded(v: Json): Json {
    match v
    case JNumber(n) => JNumber(Round(n))
    case JArray(xs) => JArray(seq(|xs|, i requires 0 <= i < |xs| => Rounded(xs[i])))
    case JObject(m) => JObject(map k | k in m :: Rounded(m[k]))
    case _ => v
  }

  // ----- digits

  lemma {:induction false} DigitRunStops(ds: string, rest: string)
    requires AllDigits(ds) && (rest == "" || !IsDigit(rest[0]))
    ensures DigitRun(ds + rest) == |ds|
  {
    if ds == "" {
      assert ds + rest == rest;
    } else {
      assert (ds + rest)[1..] == ds[1..] + rest;
      assert ds[0] in ds;
      DigitRunStops(ds[1..], rest);
    }
  }

  lemma AppendZero(t: string)
    requires AllDigits(t)
    ensures AllDigits(t + ['0']) && DigitsValue(t + ['0']) == 10 * DigitsValue(t)
  {
    assert (t + ['0'])[..|t|] == t;
  }

  lemma TimesTen(x: int, y: int)
    ensures x * (10 * y) == 10 * (x * y)
  {}

  lemma {:induction false} TrailingZeros(ds: string, k: nat)
    requires AllDigits(ds)
    ensures AllDigits(ds + Zeros(k))
    ensures DigitsValue(ds + Zeros(k)) == DigitsValue(ds) * IntPow10(k)
  {
    if k == 0 {
      assert ds + Zeros(0) == ds;
    } else {
      TrailingZeros(ds, k - 1);
      AppendZero(ds + Zeros(k - 1));
      assert ds + Zeros(k) == ds + Zeros(k - 1) + ['0'];
      TimesTen(DigitsValue(ds), IntPow10(k - 1));
    }
  }

  lemma {:induction false} LeadingZeros(k: nat, ds: string)
    requires AllDigits(ds)
    ensures AllDigits(Zeros(k) + ds)
    ensures DigitsValue(Zeros(k) + ds) == DigitsValue(ds)
    decreases |ds|, k
  {
    if ds == "" {
      assert Zeros(k) + ds == Zeros(k);
      if k > 0 {
        LeadingZeros(k - 1, "");
        assert Zeros(k)[..k - 1] == Zeros(k - 1) + "";
      }
    } else {
      var t := Zeros(k) + ds;
      LeadingZeros(k, ds[..|ds| - 1]);
      assert t[..|t| - 1] == Zeros(k) + ds[..|ds| - 1];
    }
  }

  lemma StripTen(d: int, e: int)
    requires d != 0
    ensures Strip(10 * d, e) == Strip(d, e + 1)
  {
    assert (10 * d) % 10 == 0 && (10 * d) / 10 == d;
  }

  lemma {:induction false} StripShift(c: int, k: nat, e: int)
    ensures Strip(c * IntPow10(k), e) == Strip(c, e + k)
  {
    hide Strip;
    MultipleOfTen(c, k);
    if k > 0 {
      StripShift(c, k - 1, e + 1);
      MultipleOfTen(c, k - 1);
      TimesTen(c, IntPow10(k - 1));
      if c != 0 { StripTen(c * IntPow10(k - 1), e); } else { StripZero(e); StripZero(e + k); }
    }
  }

  lemma StripZero(e: int)
    ensures Strip(0, e) == Number(0, 0)
  {}

  // ----- numbers

  ghost predicate NumberEnds(rest: string) {
    rest == "" || !(IsDigit(rest[0]) || rest[0] in {'.', 'e', 'E'})
  }

  ghost predicate WholePart(ds: string) {
    ds != "" && AllDigits(ds) && (ds[0] == '0' ==> |ds| == 1)
  }

  lemma WholeStops(ds: string, rest: string)
    requires WholePart(ds) && (rest == "" || !IsDigit(rest[0]))
    ensures WholeLength(ds + rest) == |ds| && (ds + rest)[..|ds|] == ds && (ds + rest)[|ds|..] == rest
  {
    DigitRunStops(ds, rest);
  }

  lemma FractionStops(fs: string, rest: string)
    requires fs != "" && AllDigits(fs) && (rest == "" || !IsDigit(rest[0]))
    ensures SplitFraction("." + fs + rest) == (fs, rest)
  {
    var s := "." + fs + rest;
    DigitRunStops(fs, rest);
    assert s[1..] == fs + rest;
  }

  lemma ReadWhole(ds: string, rest: string)
    requires WholePart(ds) && NumberEnds(rest)
    ensures ReadMagnitude(ds + rest) == Some((Strip(DigitsValue(ds), 0), rest))
  {
    WholeStops(ds, rest);
    assert ds + "" == ds;
  }

  lemma ReadFraction(ds: string, fs: string, m: nat, rest: string)
    requires WholePart(ds) && fs != "" && AllDigits(fs) && NumberEnds(rest)
    requires AllDigits(ds + fs) && DigitsValue(ds + fs) == m && m % 10 != 0
    ensures ReadMagnitude(ds + ("." + fs + rest)) == Some((Number(m, -|fs|), rest))
  {
    WholeStops(ds, "." + fs + rest);
    FractionStops(fs, rest);
  }

  lemma NatTextWhole(m: nat)
    ensures WholePart(NatText(m)) && DigitsValue(NatText(m)) == m
    ensures m > 0 ==> NatText(m)[0] != '0'
  {
    NatTextFacts(m);
  }

  lemma ReadInteger(d: string, m: nat, e: nat, rest: string)
    requires WholePart(d) && d[0] != '0' && DigitsValue(d) == m && m % 10 != 0 && NumberEnds(rest)
    ensures ReadMagnitude(d + Zeros(e) + rest) == Some((Number(m, e), rest))
  {
    hide ReadMagnitude;
    TrailingZeros(d, e);
    ReadWhole(d + Zeros(e), rest);
    StripShift(m, e, 0);
  }

  lemma Assoc(a: string, b: string, c: string, rest: string)
    ensures a + b + c + rest == a + (b + c + rest)
  {}

  lemma SplitWhole(d: string, p: nat)
    requires WholePart(d) && d[0] != '0' && 0 < p < |d|
    ensures WholePart(d[..p]) && AllDigits(d[p..]) && d[..p] + d[p..] == d
  {}

  lemma ReadMixed(ds: string, fs: string, m: nat, rest: string)
    requires WholePart(ds) && fs != "" && AllDigits(fs) && NumberEnds(rest)
    requires AllDigits(ds + fs) && DigitsValue(ds + fs) == m && m % 10 != 0
    ensures ReadMagnitude(ds + "." + fs + rest) == Some((Number(m, -|fs|), rest))
  {
    hide *;
    ReadFraction(ds, fs, m, rest);
    Assoc(ds, ".", fs, rest);
  }

  lemma PadFraction(d: string, z: nat)
    requires AllDigits(d)
    ensures AllDigits(Zeros(z) + d) && AllDigits("0" + (Zeros(z) + d))
    ensures DigitsValue("0" + (Zeros(z) + d)) == DigitsValue(d)
  {
    LeadingZeros(z, d);
    LeadingZeros(1, Zeros(z) + d);
    assert Zeros(1) + (Zeros(z) + d) == "0" + (Zeros(z) + d);
  }

  lemma PadShape(z: string, d: string, rest: string)
    ensures "0." + z + d + rest == "0" + "." + (z + d) + rest
  {}

  lemma ReadSmall(d: string, m: nat, z: nat, rest: string)
    requires WholePart(d) && DigitsValue(d) == m && m % 10 != 0 && NumberEnds(rest)
    ensures ReadMagnitude("0." + Zeros(z) + d + rest) == Some((Number(m, 0 - z - |d|), rest))
  {
    hide ReadMagnitude, DigitsValue;
    PadFraction(d, z);
    ReadMixed("0", Zeros(z) + d, m, rest);
    PadShape(Zeros(z), d, rest);
  }

  lemma ReadPositional(m: nat, e: int, rest: string)
    requires m % 10 != 0 && NumberEnds(rest)
    ensures ReadMagnitude(Positional(m, e) + rest) == Some((Number(m, e), rest))
  {
    hide ReadMagnitude, NatText, DigitsValue;
    var d := NatText(m);
    NatTextWhole(m);
    if e >= 0 {
      ReadInteger(d, m, e, rest);
    } else if |d| > -e {
      SplitWhole(d, |d| + e);
      ReadMixed(d[..|d| + e], d[|d| + e..], m, rest);
    } else {
      ReadSmall(d, m, -e - |d|, rest);
    }
  }

  lemma TextOfNat(m: nat)
    ensures NatText(m) != "" && (m % 10 != 0 ==> NatText(m)[|NatText(m)| - 1] != '0')
  {}

  /** Positional text needs no trimming: a fraction never ends in zero or in the point. */
  lemma NothingToTrim(sign: string, m: nat, e: int)
    requires m % 10 != 0 && '.' !in sign
    ensures var t := sign + Positional(m, e); '.' in t ==> TrimRight(TrimRight(t, '0'), '.') == t
  {
    var d := NatText(m);
    NatTextFacts(m);
    TextOfNat(m);
    var t := sign + Positional(m, e);
    if e >= 0 {
      TrailingZeros(d, e);
      assert AllDigits(Positional(m, e));
    } else {
      assert t[|t| - 1] == d[|d| - 1];
      assert d[|d| - 1] in d;
    }
  }

  // ----- rounding

  lemma {:induction false} NatTextLength(m: nat, k: nat)
    requires m < IntPow10(k)
    ensures |NatText(m)| <= if k == 0 then 1 else k
  {
    if k > 1 && m >= 10 { NatTextLength(m / 10, k - 1); }
  }

  lemma {:induction false} NatTextFloor(m: nat)
    ensures m < IntPow10(|NatText(m)|)
    ensures m > 0 ==> m >= IntPow10(|NatText(m)| - 1)
  {
    if m >= 10 { NatTextFloor(m / 10); } else { assert IntPow10(1) == 10; }
  }

  lemma {:induction false} StripShrinks(c: int, e: int)
    ensures Magnitude(Strip(c, e).coefficient) <= Magnitude(c)
    ensures c > 0 ==> Strip(c, e).coefficient > 0
    ensures c < 0 ==> Strip(c, e).coefficient < 0
    decreases Magnitude(c)
  {
    if c != 0 && c % 10 == 0 { StripShrinks(c / 10, e + 1); }
  }

  lemma StripFits(c: int, e: int, p: nat)
    requires p > 0 && Magnitude(c) <= IntPow10(p)
    ensures Digits(Strip(c, e)) <= p
  {
    StripShrinks(c, e);
    if Magnitude(c) < IntPow10(p) {
      NatTextLength(Magnitude(Strip(c, e).coefficient), p);
    } else {
      var sign := if c > 0 then 1 else -1;
      StripShift(sign, p, e);
      assert Strip(sign, e + p) == Number(sign, e + p);
      assert Strip(c, e) == Number(sign, e + p);
    }
  }

  lemma QuotientRange(m: nat, unit: int, least: int, bound: int)
    requires unit > 0 && least >= 1 && unit * least <= m < unit * bound
    ensures 1 <= m / unit < bound
  {
    var q := m / unit;
    assert m == unit * q + m % unit;
    if q >= bound { Scale(unit, bound, q); }
    if q < 1 { Scale(unit, 1, least); Scale(unit, q, 0); }
  }

  lemma Scale(unit: int, x: int, y: int)
    requires unit > 0 && x <= y
    ensures unit * x <= unit * y
  {}

  lemma {:induction false} IntPow10Sum(a: nat, b: nat)
    ensures IntPow10(a + b) == IntPow10(a) * IntPow10(b)
  {
    if a > 0 { IntPow10Sum(a - 1, b); }
  }

  /** The quotient kept by rounding has between one and p digits. */
  lemma KeptQuotient(m: nat, p: nat)
    requires 0 < p < |NatText(m)|
    ensures 1 <= m / IntPow10(|NatText(m)| - p) < IntPow10(p)
  {
    hide IntPow10, NatText;
    var k := |NatText(m)| - p;
    NatTextFloor(m);
    IntPow10Sum(k, p);
    IntPow10Sum(k, p - 1);
    if m == 0 { ZeroText(); }
    QuotientRange(m, IntPow10(k), IntPow10(p - 1), IntPow10(p));
  }

  lemma ZeroText()
    ensures |NatText(0)| == 1
  {}

  lemma RoundToFacts(n: Decimal, p: nat)
    requires p > 0
    ensures Digits(RoundTo(n, p)) <= p
    ensures n.coefficient > 0 <==> RoundTo(n, p).coefficient > 0
    ensures n.coefficient < 0 <==> RoundTo(n, p).coefficient < 0
  {
    hide IntPow10, NatText, Strip;
    if Digits(n) > p {
      var m, k := Magnitude(n.coefficient), Digits(n) - p;
      KeptQuotient(m, p);
      if m == 0 { ZeroText(); }
      var low, rest := m / IntPow10(k), m % IntPow10(k);
      var kept := if 2 * rest < IntPow10(k) || (2 * rest == IntPow10(k) && low % 2 == 0) then low else low + 1;
      var c := if n.coefficient < 0 then -kept else kept;
      StripShrinks(c, n.exponent + k);
      StripFits(c, n.exponent + k, p);
    }
  }

  /** Rounding keeps the sign and leaves at most 28 digits, so it is done once and for all. */
  lemma RoundFacts(n: Decimal)
    ensures Digits(Round(n)) <= PRECISION
    ensures Round(Round(n)) == Round(n)
    ensures n.coefficient > 0 <==> Round(n).coefficient > 0
    ensures n.coefficient < 0 <==> Round(n).coefficient < 0
  {
    RoundToFacts(n, PRECISION);
  }

  /** The multiple q of the unit u is nearest to x, the even one of two equally near. */
  ghost predicate Nearest(x: real, q: int, u: real) {
    var d := q as real * u - x;
    -u <= 2.0 * d <= u && (2.0 * d == u || 2.0 * d == -u ==> q % 2 == 0)
  }

  /** The quotient rounded half to even. */
  function Kept(m: int, unit: int): int
    requires unit > 0
  {
    if 2 * (m % unit) < unit || (2 * (m % unit) == unit && m / unit % 2 == 0) then m / unit else m / unit + 1
  }

  /** Within half a unit of the coefficient, the even one of two equally near. */
  predicate Close(c: int, q: int, unit: int) {
    var d := 2 * (q * unit - c);
    -unit <= d <= unit && (d == unit || d == -unit ==> q % 2 == 0)
  }

  lemma KeptIsNearest(m: int, unit: int)
    requires unit > 0
    ensures Close(m, Kept(m, unit), unit)
  {
    var low, rest := m / unit, m % unit;
    assert m == low * unit + rest;
    assert (low + 1) * unit == low * unit + unit;
  }

  lemma NearestScales(m: int, q: int, unit: int, p: real)
    requires p > 0.0 && unit > 0 && Close(m, q, unit)
    ensures Nearest(m as real * p, q, unit as real * p)
  {
    var d := q * unit - m;
    assert q as real * (unit as real * p) - m as real * p == d as real * p by {
      assert q as real * (unit as real * p) == (q as real * unit as real) * p;
      assert q as real * unit as real == (q * unit) as real;
      assert (q * unit) as real * p - m as real * p == ((q * unit) as real - m as real) * p;
    }
    ScaleBound(2 * d, unit, p);
    ScaleBound(-unit, 2 * d, p);
    assert 2.0 * (d as real * p) == (2 * d) as real * p;
    if 2.0 * (d as real * p) == unit as real * p { CancelFactor((2 * d) as real, unit as real, p); }
    if 2.0 * (d as real * p) == -(unit as real * p) {
      assert -(unit as real * p) == (-unit) as real * p;
      CancelFactor((2 * d) as real, (-unit) as real, p);
    }
    assert (-unit) as real * p == -(unit as real * p);
  }

  lemma ScaleBound(a: int, b: int, p: real)
    requires p > 0.0 && a <= b
    ensures a as real * p <= b as real * p
  {}

  lemma SignedNearest(m: int, kept: int, unit: int, c: int, q: int)
    requires m == Magnitude(c) && q == if c < 0 then -kept else kept
    requires Close(m, kept, unit)
    ensures Close(c, q, unit)
  {
    if c < 0 { assert q * unit - c == -(kept * unit - m); }
  }

  lemma RoundForm(n: Decimal, k: nat)
    requires Digits(n) == 28 + k && k > 0
    ensures var kept := Kept(Magnitude(n.coefficient), IntPow10(k));
      Round(n) == Strip(if n.coefficient < 0 then -kept else kept, n.exponent + k)
  {
    hide Strip, NatText;
  }

  lemma CloseIsNearest(c: int, q: int, unit: int, p: real, x: real, u: real)
    requires p > 0.0 && unit > 0 && Close(c, q, unit) && x == c as real * p && u == unit as real * p
    ensures Nearest(x, q, u)
  {
    hide Nearest;
    NearestScales(c, q, unit, p);
  }

  lemma RoundedBy(n: Decimal, k: nat) returns (q: int)
    requires Digits(n) == 28 + k && k > 0
    ensures Value(Round(n)) == Value(Number(q, n.exponent + k)) && Nearest(Value(n), q, Pow10(n.exponent + k))
  {
    hide IntPow10, NatText, Strip, Pow10, Nearest, Kept, Round, Close;
    var m, unit := Magnitude(n.coefficient), IntPow10(k);
    KeptIsNearest(m, unit);
    q := if n.coefficient < 0 then -Kept(m, unit) else Kept(m, unit);
    SignedNearest(m, Kept(m, unit), unit, n.coefficient, q);
    RoundForm(n, k);
    StripKeepsValue(q, n.exponent + k);
    Pow10Shift(n.exponent, k);
    CloseIsNearest(n.coefficient, q, unit, Pow10(n.exponent), Value(n), Pow10(n.exponent + k));
  }

  /** A number of more than 28 digits is rounded to the nearest multiple of the unit of its 28th
      digit, to the even one of two equally near; a shorter number is kept. */
  lemma RoundIsNearest(n: Decimal) returns (q: int)
    ensures Digits(n) <= 28 ==> Round(n) == n
    ensures Digits(n) > 28 ==>
      var e := n.exponent + Digits(n) - 28;
      Value(Round(n)) == Value(Number(q, e)) && Nearest(Value(n), q, Pow10(e))
  {
    hide NatText, Strip, Pow10, Nearest, Value;
    q := 0;
    if Digits(n) > 28 { q := RoundedBy(n, Digits(n) - 28); }
  }

  // ----- printed numbers

  lemma PositionalStart(m: nat, e: int)
    ensures Positional(m, e) != "" && IsDigit(Positional(m, e)[0])
  {
    NatTextFacts(m);
    assert NatText(m)[0] in NatText(m);
  }

  lemma SignedTextFacts(negative: bool, r: Decimal)
    requires r.coefficient != 0
    ensures SignedText(negative, r) == (if negative then "-" else "") + Positional(Magnitude(r.coefficient), r.exponent)
  {
    NothingToTrim(if negative then "-" else "", Magnitude(r.coefficient), r.exponent);
  }

  lemma DecimalTextStart(n: Decimal)
    ensures DecimalText(n) != "" && (DecimalText(n)[0] == '-' || IsDigit(DecimalText(n)[0]))
  {
    RoundFacts(n);
    if n.coefficient != 0 {
      SignedTextStart(n.coefficient < 0, Round(n));
    }
  }

  lemma SignedTextStart(negative: bool, r: Decimal)
    requires r.coefficient != 0
    ensures SignedText(negative, r) != "" && (SignedText(negative, r)[0] == '-' || IsDigit(SignedText(negative, r)[0]))
  {
    SignedTextFacts(negative, r);
    PositionalStart(Magnitude(r.coefficient), r.exponent);
  }

  lemma ReadSigned(r: Decimal, rest: string)
    requires r.coefficient != 0 && NumberEnds(rest)
    ensures ReadNumber(SignedText(r.coefficient < 0, r) + rest) == Some((r, rest))
  {
    hide ReadMagnitude, NatText, DigitsValue, Positional, SignedText;
    var p := Positional(Magnitude(r.coefficient), r.exponent);
    SignedTextFacts(r.coefficient < 0, r);
    ReadPositional(Magnitude(r.coefficient), r.exponent, rest);
    PositionalStart(Magnitude(r.coefficient), r.exponent);
    if r.coefficient < 0 {
      assert "-" + p + rest == "-" + (p + rest);
      assert ("-" + (p + rest))[1..] == p + rest;
    } else {
      assert "" + p == p;
    }
  }

  lemma ReadZero(rest: string)
    requires NumberEnds(rest)
    ensures ReadNumber("0" + rest) == Some((Number(0, 0), rest))
  {
    ReadWhole("0", rest);
    assert "0"[..0] == "";
  }

  /** Reading a printed number gives the rounded number. */
  lemma ReadDecimal(n: Decimal, rest: string)
    requires NumberEnds(rest)
    ensures ReadNumber(DecimalText(n) + rest) == Some((Round(n), rest))
  {
    RoundFacts(n);
    if n.coefficient == 0 { ReadZero(rest); } else { ReadSigned(Round(n), rest); }
  }

  // ----- strings

  lemma HexValueOfDigit(d: nat)
    requires d < 16
    ensures HexValue(HexDigit(d)) == Some(d)
  {}

  lemma HexOfControl(h: char, l: char)
    requires HexValue(h).Some? && HexValue(l).Some?
    ensures HexRun(['0', '0', h, l]) == Some(16 * HexValue(h).value + HexValue(l).value)
  {
    var s := ['0', '0', h, l];
    assert HexRun(['0']) == Some(0) by { assert ['0'][..0] == []; }
    assert HexRun(['0', '0']) == Some(0) by { assert ['0', '0'][..1] == ['0']; }
    assert HexRun(['0', '0', h]) == Some(HexValue(h).value) by { assert ['0', '0', h][..2] == ['0', '0']; }
    assert s[..3] == ['0', '0', h];
  }

  ghost function Prefixed(c: char, r: Option<(string, string)>): Option<(string, string)> {
    match r case None => None case Some((t, end)) => Some(([c] + t, end))
  }

  lemma ReadPlainChar(c: char, tail: string)
    requires QuoteChar(c) == [c]
    ensures ReadString([c] + tail) == Prefixed(c, ReadString(tail))
  {
    assert ([c] + tail)[1..] == tail;
  }

  lemma ReadEscaped(e: string, c: char, tail: string)
    requires ReadEscape(e + tail) == Some((c, tail))
    ensures ReadString("\\" + e + tail) == Prefixed(c, ReadString(tail))
  {
    hide ReadEscape;
    assert "\\" + e + tail == "\\" + (e + tail);
    assert ("\\" + (e + tail))[1..] == e + tail;
  }

  lemma ReadControl(h: char, l: char, tail: string)
    requires HexValue(h).Some? && HexValue(l).Some? && HexValue(h).value < 2 && HexValue(l).value < 16
    ensures ReadEscape("u00" + [h, l] + tail) == Some(((16 * HexValue(h).value + HexValue(l).value) as char, tail))
  {
    hide HexRun, HexValue;
    var s := "u00" + [h, l] + tail;
    HexOfControl(h, l);
    assert s[0] == 'u' && s[1..5] == ['0', '0', h, l] && s[5..] == tail;
  }

  lemma ReadShort(e: char, tail: string)
    ensures e in {'"', '\\'} ==> ReadEscape([e] + tail) == Some((e, tail))
    ensures e == 'b' ==> ReadEscape([e] + tail) == Some((8 as char, tail))
    ensures e == 'f' ==> ReadEscape([e] + tail) == Some((12 as char, tail))
    ensures e == 'n' ==> ReadEscape([e] + tail) == Some(('\n', tail))
    ensures e == 'r' ==> ReadEscape([e] + tail) == Some(('\r', tail))
    ensures e == 't' ==> ReadEscape([e] + tail) == Some(('\t', tail))
  {
    assert ([e] + tail)[1..] == tail;
  }

  /** The shape of a quoted character: itself, or a backslash and an escape that reads back. */
  lemma QuoteCharShape(c: char, tail: string) returns (e: string)
    ensures QuoteChar(c) == [c] || (QuoteChar(c) == "\\" + e && ReadEscape(e + tail) == Some((c, tail)))
  {
    hide ReadEscape, HexValue, HexDigit;
    e := QuoteChar(c)[1..];
    if |QuoteChar(c)| == 2 {
      ReadShort(e[0], tail);
    } else if |QuoteChar(c)| > 2 {
      var h, l := HexDigit(c as int / 16), HexDigit(c as int % 16);
      HexValueOfDigit(c as int / 16);
      HexValueOfDigit(c as int % 16);
      ReadControl(h, l, tail);
      assert e == "u00" + [h, l];
    }
  }

  lemma ReadQuotedChar(c: char, tail: string)
    ensures ReadString(QuoteChar(c) + tail) == Prefixed(c, ReadString(tail))
  {
    hide ReadEscape, ReadString, QuoteChar;
    var e := QuoteCharShape(c, tail);
    if QuoteChar(c) == [c] { ReadPlainChar(c, tail); } else { ReadEscaped(e, c, tail); }
  }

  lemma {:induction false} ReadQuoted(s: string, rest: string)
    ensures ReadString(QuoteChars(s) + rest) == Some((s, rest))
  {
    if s == "" {
      assert (QuoteChars(s) + rest)[1..] == rest;
    } else {
      hide ReadString, QuoteChar;
      var tail := QuoteChars(s[1..]) + rest;
      assert QuoteChars(s) + rest == QuoteChar(s[0]) + tail;
      ReadQuoted(s[1..], rest);
      ReadQuotedChar(s[0], tail);
      assert s == [s[0]] + s[1..];
    }
  }

  // ----- whole documents

  function RoundedItems(xs: seq<Json>): seq<Json> { seq(|xs|, i requires 0 <= i < |xs| => Rounded(xs[i])) }

  function RoundedMembers(m: map<string, Json>, keys: seq<string>): map<string, Json>
    requires forall k | k in keys :: k in m
  {
    map k | k in keys :: Rounded(m[k])
  }

  ghost predicate Begins(s: string) {
    s != "" && !IsSpace(s[0]) && s[0] !in {']', '}'}
  }

  lemma PlainBegins(v: Json)
    ensures Begins(PlainJson(v))
  {
    hide DecimalText;
    if v.JNumber? { DecimalTextStart(v.n); }
  }

  lemma FirstCharDecides(s: string)
    ensures "null" <= s ==> s[0] == 'n'
    ensures "true" <= s ==> s[0] == 't'
    ensures "false" <= s ==> s[0] == 'f'
  {
    if "null" <= s { assert s[0] == "null"[0]; }
    if "true" <= s { assert s[0] == "true"[0]; }
    if "false" <= s { assert s[0] == "false"[0]; }
  }

  lemma ReadNumberStart(s: string)
    requires s != "" && (s[0] == '-' || IsDigit(s[0]))
    ensures ReadValue(s) == match ReadNumber(s) case None => None case Some((n, rest)) => Some((JNumber(n), rest))
  {
    hide ReadNumber;
    FirstCharDecides(s);
  }

  lemma ReadStringStart(s: string)
    requires s != "" && s[0] == '"'
    ensures ReadValue(s) == match ReadString(s[1..]) case None => None case Some((t, rest)) => Some((JString(t), rest))
  {
    hide ReadString;
    FirstCharDecides(s);
  }

  lemma ReadPlainNumber(n: Decimal, rest: string)
    requires NumberEnds(rest)
    ensures ReadValue(DecimalText(n) + rest) == Some((JNumber(Round(n)), rest))
  {
    hide DecimalText, ReadNumber, ReadValue;
    DecimalTextStart(n);
    ReadDecimal(n, rest);
    ReadNumberStart(DecimalText(n) + rest);
  }

  lemma ReadPlainString(s: string, rest: string)
    ensures ReadValue(Quote(s) + rest) == Some((JString(s), rest))
  {
    hide QuoteChars, ReadString, ReadValue;
    ReadQuoted(s, rest);
    assert (Quote(s) + rest)[1..] == QuoteChars(s) + rest;
    ReadStringStart(Quote(s) + rest);
  }

  lemma ReadLiterals(rest: string)
    ensures ReadValue("null" + rest) == Some((JNull, rest))
    ensures ReadValue("true" + rest) == Some((JBool(true), rest))
    ensures ReadValue("false" + rest) == Some((JBool(false), rest))
  {
    hide ReadNumber, ReadItems, ReadMembers, ReadString;
    FirstCharDecides("true" + rest);
    FirstCharDecides("false" + rest);
    assert ("null" + rest)[4..] == rest;
    assert ("true" + rest)[0] == 't' && ("true" + rest)[4..] == rest;
    assert ("false" + rest)[0] == 'f' && ("false" + rest)[5..] == rest;
  }

  lemma ReadBrackets(body: string)
    requires body != "" && !IsSpace(body[0])
    ensures ReadValue("[" + body) ==
      if body[0] == ']' then Some((JArray([]), body[1..]))
      else match ReadItems(body) case None => None case Some((xs, rest)) => Some((JArray(xs), rest))
  {
    hide ReadNumber, ReadItems, ReadMembers, ReadString;
    FirstCharDecides("[" + body);
    assert ("[" + body)[1..] == body && SkipSpace(body) == body;
  }

  lemma ReadBraces(body: string)
    requires body != "" && !IsSpace(body[0])
    ensures ReadValue("{" + body) ==
      if body[0] == '}' then Some((JObject(map[]), body[1..]))
      else match ReadMembers(body) case None => None case Some((m, rest)) => Some((JObject(m), rest))
  {
    hide ReadNumber, ReadItems, ReadMembers, ReadString;
    FirstCharDecides("{" + body);
    assert ("{" + body)[1..] == body && SkipSpace(body) == body;
  }

  /** Reading a printed document gives the document at 28 significant digits. */
  lemma {:induction false} ReadPlain(v: Json, rest: string)
    requires v.JNumber? ==> NumberEnds(rest)
    ensures ReadValue(PlainJson(v) + rest) == Some((Rounded(v), rest))
    decreases v, 1, 0
  {
    hide ReadValue;
    match v {
      case JNull => ReadLiterals(rest);
      case JBool(b) => ReadLiterals(rest);
      case JNumber(n) => ReadPlainNumber(n, rest);
      case JString(s) => ReadPlainString(s, rest);
      case JArray(xs) => ReadPlainArray(v, rest);
      case JObject(m) => ReadPlainObject(v, rest);
    }
  }

  lemma {:induction false} ReadPlainArray(v: Json, rest: string)
    requires v.JArray?
    ensures ReadValue(PlainJson(v) + rest) == Some((Rounded(v), rest))
    decreases v, 0, |v.items| + 1
  {
    hide ReadValue, ReadItems, PrintItems, Rounded;
    RoundedArray(v);
    if v.items == [] {
      assert PlainJson(v) + rest == "[" + ("]" + rest);
      assert ("]" + rest)[1..] == rest;
      ReadBrackets("]" + rest);
      NoItems();
    } else {
      var body := PrintItems(v, v.items) + rest;
      assert PlainJson(v) + rest == "[" + body;
      ItemsBegin(v, v.items);
      ReadPlainItems(v, v.items, rest);
      ReadBrackets(body);
    }
  }

  lemma RoundedArray(v: Json)
    requires v.JArray?
    ensures Rounded(v) == JArray(RoundedItems(v.items))
  {}

  lemma RoundedObject(v: Json)
    requires v.JObject?
    ensures Rounded(v) == JObject(RoundedMembers(v.members, Listing(v.members.Keys)))
  {}

  lemma ItemsBegin(v: Json, xs: seq<Json>)
    requires xs != [] && forall i | 0 <= i < |xs| :: xs[i] < v
    ensures Begins(PrintItems(v, xs))
  {
    hide PlainJson;
    PlainBegins(xs[0]);
  }

  lemma RoundedItemsStep(xs: seq<Json>)
    requires xs != []
    ensures RoundedItems(xs) == [Rounded(xs[0])] + RoundedItems(xs[1..])
  {}

  /** One printed item in front of what follows it. */
  lemma ReadPlainItem(x: Json, tail: string)
    requires tail != "" && tail[0] in {',', ']'} && ReadValue(PlainJson(x) + tail) == Some((Rounded(x), tail))
    ensures ReadItems(PlainJson(x) + tail) ==
      if tail[0] == ']' then Some(([Rounded(x)], tail[1..]))
      else
        match ReadItems(SkipSpace(tail[1..]))
        case None => None
        case Some((xs, end)) => Some(([Rounded(x)] + xs, end))
  {
    hide PlainJson, Rounded, ReadValue;
  }

  lemma {:induction false} ReadPlainItems(v: Json, xs: seq<Json>, rest: string)
    requires xs != [] && forall i | 0 <= i < |xs| :: xs[i] < v
    ensures ReadItems(PrintItems(v, xs) + rest) == Some((RoundedItems(xs), rest))
    decreases v, 0, |xs|
  {
    hide PlainJson, ReadValue, ReadItems, Rounded, RoundedItems;
    var tail := if |xs| == 1 then "]" + rest else "," + (PrintItems(v, xs[1..]) + rest);
    assert PrintItems(v, xs) + rest == PlainJson(xs[0]) + tail;
    ReadPlain(xs[0], tail);
    ReadPlainItem(xs[0], tail);
    RoundedItemsStep(xs);
    if |xs| == 1 {
      assert tail[1..] == rest;
      assert xs[1..] == [];
      NoItems();
      assert RoundedItems(xs) == [Rounded(xs[0])];
    } else {
      assert tail[1..] == PrintItems(v, xs[1..]) + rest;
      ItemsBegin(v, xs[1..]);
      ReadPlainItems(v, xs[1..], rest);
    }
  }

  lemma NoItems()
    ensures RoundedItems([]) == []
  {}

  lemma {:induction false} ReadPlainObject(v: Json, rest: string)
    requires v.JObject?
    ensures ReadValue(PlainJson(v) + rest) == Some((Rounded(v), rest))
    decreases v, 0, |Listing(v.members.Keys)| + 1
  {
    hide ReadValue, ReadMembers, Listing, Rounded;
    var keys := Listing(v.members.Keys);
    RoundedObject(v);
    if v.members.Keys == {} {
      assert PlainJson(v) + rest == "{" + ("}" + rest);
      assert ("}" + rest)[1..] == rest;
      assert RoundedMembers(v.members, keys) == map[];
      ReadBraces("}" + rest);
    } else {
      var k :| k in v.members;
      assert k in keys;
      var body := PrintMembers(v, keys) + rest;
      assert PlainJson(v) + rest == "{" + body;
      assert body[0] == '"';
      ListingIncreases(v.members.Keys);
      ReadPlainMembers(v, keys, rest);
      ReadBraces(body);
    }
  }

  lemma ReadPlainKey(k: string, after: string)
    requires after != "" && !IsSpace(after[0])
    ensures ReadKey(Quote(k) + (":" + after)) == Some((k, after))
  {
    hide QuoteChars, ReadString;
    var s := Quote(k) + (":" + after);
    assert s[0] == '"' && s[1..] == QuoteChars(k) + (":" + after);
    ReadQuoted(k, ":" + after);
    assert (":" + after)[0] == ':' && SkipSpace(":" + after) == ":" + after;
    assert (":" + after)[1..] == after && SkipSpace(after) == after;
  }

  /** One printed member in front of what follows it. */
  lemma ReadPlainMember(k: string, x: Json, tail: string)
    requires tail != "" && tail[0] in {',', '}'} && ReadValue(PlainJson(x) + tail) == Some((Rounded(x), tail))
    ensures ReadMembers(Quote(k) + ":" + PlainJson(x) + tail) ==
      if tail[0] == '}' then Some((map[k := Rounded(x)], tail[1..]))
      else
        match ReadMembers(SkipSpace(tail[1..]))
        case None => None
        case Some((m, end)) => if k in m then None else Some((m[k := Rounded(x)], end))
  {
    hide PlainJson, Rounded, ReadValue, ReadKey, Quote;
    var after := PlainJson(x) + tail;
    PlainBegins(x);
    assert after[0] == PlainJson(x)[0];
    ReadPlainKey(k, after);
    assert Quote(k) + ":" + PlainJson(x) + tail == Quote(k) + (":" + after);
    assert SkipSpace(tail) == tail;
  }

  lemma RoundedMembersStep(m: map<string, Json>, keys: seq<string>)
    requires keys != [] && forall k | k in keys :: k in m
    ensures RoundedMembers(m, keys) == RoundedMembers(m, keys[1..])[keys[0] := Rounded(m[keys[0]])]
  {
    assert keys == [keys[0]] + keys[1..];
  }

  lemma PrintMembersStep(v: Json, keys: seq<string>, rest: string) returns (tail: string)
    requires v.JObject? && keys != [] && forall k | k in keys :: k in v.members
    ensures tail == if |keys| == 1 then "}" + rest else "," + (PrintMembers(v, keys[1..]) + rest)
    ensures PrintMembers(v, keys) + rest == Quote(keys[0]) + ":" + PlainJson(v.members[keys[0]]) + tail
    ensures PrintMembers(v, keys) != "" && PrintMembers(v, keys)[0] == '"'
  {
    hide PlainJson, QuoteChars;
    tail := if |keys| == 1 then "}" + rest else "," + (PrintMembers(v, keys[1..]) + rest);
  }

  lemma {:induction false} ReadPlainMembers(v: Json, keys: seq<string>, rest: string)
    requires v.JObject? && keys != [] && Increasing(keys) && forall k | k in keys :: k in v.members
    ensures ReadMembers(PrintMembers(v, keys) + rest) == Some((RoundedMembers(v.members, keys), rest))
    decreases v, 0, |keys|
  {
    hide PlainJson, PrintMembers, ReadValue, ReadMembers, Quote, Increasing, Rounded;
    var x := v.members[keys[0]];
    var tail := PrintMembersStep(v, keys, rest);
    IncreasingTail(keys);
    RoundedMembersStep(v.members, keys);
    ReadPlain(x, tail);
    ReadPlainMember(keys[0], x, tail);
    if |keys| == 1 {
      assert tail[1..] == rest;
      assert RoundedMembers(v.members, []) == map[];
      assert keys[1..] == [];
    } else {
      assert tail[1..] == PrintMembers(v, keys[1..]) + rest;
      ReadPlainMembers(v, keys[1..], rest);
      var next := PrintMembersStep(v, keys[1..], rest);
    }
  }

  // ----- canonical texts

  lemma RoundedTwice(v: Json)
    ensures Rounded(Rounded(v)) == Rounded(v)
    decreases v
  {
    match v {
      case JNumber(n) => RoundFacts(n);
      case JArray(xs) =>
        forall i | 0 <= i < |xs| ensures Rounded(Rounded(xs[i])) == Rounded(xs[i]) { RoundedTwice(xs[i]); }
        assert Rounded(Rounded(v)).items == Rounded(v).items;
      case JObject(m) =>
        forall k | k in m ensures Rounded(Rounded(m[k])) == Rounded(m[k]) { assert m[k] < v; RoundedTwice(m[k]); }
        assert Rounded(Rounded(v)).members == Rounded(v).members;
      case _ =>
    }
  }

  /** Printing cannot tell a document from its rounded form. */
  lemma {:induction false} PrintRounded(v: Json)
    ensures PlainJson(Rounded(v)) == PlainJson(v)
    decreases v, 1, 0
  {
    hide DecimalText;
    match v {
      case JNumber(n) => DecimalTextRounded(n);
      case JArray(xs) =>
        RoundedArray(v);
        forall i | 0 <= i < |xs| ensures Rounded(xs[i]) < Rounded(v) { assert Rounded(v).items[i] == Rounded(xs[i]); }
        if xs != [] { PrintRoundedItems(v, xs); }
      case JObject(m) =>
        RoundedObject(v);
        assert Rounded(v).members.Keys == m.Keys;
        if m.Keys != {} { PrintRoundedMembers(v, Listing(m.Keys)); }
      case _ =>
    }
  }

  lemma DecimalTextRounded(n: Decimal)
    ensures DecimalText(Round(n)) == DecimalText(n)
  {
    hide Round, SignedText;
    RoundFacts(n);
  }

  lemma {:induction false} PrintRoundedItems(v: Json, xs: seq<Json>)
    requires v.JArray? && xs != [] && forall i | 0 <= i < |xs| :: xs[i] < v
    requires forall i | 0 <= i < |xs| :: Rounded(xs[i]) < Rounded(v)
    ensures PrintItems(Rounded(v), RoundedItems(xs)) == PrintItems(v, xs)
    decreases v, 0, |xs|
  {
    hide PlainJson, Rounded;
    PrintRounded(xs[0]);
    RoundedItemsStep(xs);
    if |xs| > 1 {
      PrintRoundedItems(v, xs[1..]);
      assert RoundedItems(xs)[1..] == RoundedItems(xs[1..]);
    }
  }

  lemma {:induction false} PrintRoundedMembers(v: Json, keys: seq<string>)
    requires v.JObject? && keys != [] && forall k | k in keys :: k in v.members
    requires Rounded(v).JObject? && forall k | k in keys :: k in Rounded(v).members
    ensures PrintMembers(Rounded(v), keys) == PrintMembers(v, keys)
    decreases v, 0, |keys|
  {
    hide PlainJson;
    PrintRounded(v.members[keys[0]]);
    if |keys| > 1 { PrintRoundedMembers(v, keys[1..]); }
  }

  /** Reading inverts printing up to the 28 digits. */
  lemma ReadInvertsPrint(v: Json)
    ensures ReadText(PlainJson(v)) == Some(Rounded(v))
  {
    hide PlainJson, Rounded, ReadValue;
    PlainBegins(v);
    ReadPlain(v, "");
    assert PlainJson(v) + "" == PlainJson(v);
  }

  /** Two documents print alike exactly when they agree at 28 significant digits. */
  lemma PrintingIsInjective(v: Json, w: Json)
    ensures PlainJson(v) == PlainJson(w) <==> Rounded(v) == Rounded(w)
  {
    ReadInvertsPrint(v);
    ReadInvertsPrint(w);
    PrintRounded(v);
    PrintRounded(w);
  }

  /** A canonical text is one that reading and printing leave alone. */
  predicate CanonicalText(text: string) {
    match ReadText(text)
    case None => false
    case Some(v) => PlainJson(v) == text
  }

  /** Exactly the printed texts are canonical, and a canonical text stores a document that
      printing does not round any further. */
  lemma CanonicalTexts(text: string)
    ensures CanonicalText(text) <==> exists v :: PlainJson(v) == text
    ensures CanonicalText(text) ==> Rounded(ReadText(text).value) == ReadText(text).value
  {
    if v :| PlainJson(v) == text {
      ReadInvertsPrint(v);
      PrintRounded(v);
      RoundedTwice(v);
    }
  }

  /** Printing after reading is done once and for all: the agent's normalization of any valid
      text is canonical, and normalizing it again changes nothing. */
  lemma NormalizingIsIdempotent(text: string)
    requires ReadText(text).Some?
    ensures var normal := PlainJson(ReadText(text).value);
      CanonicalText(normal) && PlainJson(ReadText(normal).value) == normal
  {
    CanonicalTexts(PlainJson(ReadText(text).value));
  }

  // ----- the executor's parameter check

  predicate Scalar(v: Json) { !v.JArray? && !v.JObject? }

  function Envelope(canonical: string): string { "{\"value\":" + canonical + "}" }

  const VALUE_BYTES := 256

  datatype ScalarResult = Accepted(value: Json, canonical: string) | Blocked(reason: string)

  lemma PrintOneMember(w: Json)
    ensures PlainJson(JObject(map["value" := w])) == "{" + (Quote("value") + ":" + PlainJson(w) + "}")
  {
    hide Quote;
    var v := JObject(map["value" := w]);
    assert v.members.Keys == {"value"};
    IncreasingIsListing(["value"], {"value"});
    assert PrintMembers(v, ["value"]) == Quote("value") + ":" + PlainJson(w) + "}";
  }

  lemma EnvelopePrints(w: Json)
    ensures Envelope(PlainJson(w)) == PlainJson(JObject(map["value" := w]))
  {
    hide PlainJson, Quote;
    PrintOneMember(w);
    QuotedValue();
    var p := PlainJson(w);
    assert "{" + ("\"value\"" + ":" + p + "}") == "{\"value\":" + p + "}";
  }

  lemma QuotedValue()
    ensures Quote("value") == "\"value\""
  {
    assert QuoteChars("") == "\"";
    assert QuoteChars("e") == "e\"" by { assert "e"[1..] == ""; }
    assert QuoteChars("ue") == "ue\"" by { assert "ue"[1..] == "e"; }
    assert QuoteChars("lue") == "lue\"" by { assert "lue"[1..] == "ue"; }
    assert QuoteChars("alue") == "alue\"" by { assert "alue"[1..] == "lue"; }
    assert QuoteChars("value") == "value\"" by { assert "value"[1..] == "alue"; }
  }

  lemma ReadEnvelope(w: Json)
    ensures ReadText(Envelope(PlainJson(w))) == Some(JObject(map["value" := Rounded(w)]))
  {
    hide PlainJson, ReadText;
    EnvelopePrints(w);
    ReadInvertsPrint(JObject(map["value" := w]));
    assert Rounded(JObject(map["value" := w])).members == map["value" := Rounded(w)];
  }

  /** The texts the executor accepts as parameters. */
  ghost predicate ParameterText(text: string) {
    exists w :: Scalar(w) && |Encode(PlainJson(w))| <= VALUE_BYTES && text == Envelope(PlainJson(w))
  }

  /** The agent's canonical text of a document is accepted exactly when the document is an
      object whose one member is a scalar within the byte bound. */
  lemma AgentTextAccepted(v: Json)
    ensures ParameterText(PlainJson(v)) <==>
      v.JObject? && v.members.Keys == {"value"} && Scalar(v.members["value"]) &&
      |Encode(PlainJson(v.members["value"]))| <= VALUE_BYTES
  {
    hide PlainJson, Envelope, Encode;
    if v.JObject? && v.members.Keys == {"value"} {
      EnvelopePrints(v.members["value"]);
      assert v == JObject(map["value" := v.members["value"]]);
    }
    if ParameterText(PlainJson(v)) {
      var w :| Scalar(w) && |Encode(PlainJson(w))| <= VALUE_BYTES && PlainJson(v) == Envelope(PlainJson(w));
      EnvelopePrints(w);
      PrintingIsInjective(v, JObject(map["value" := w]));
      SameEnvelope(v, w);
    }
  }

  lemma SameEnvelope(v: Json, w: Json)
    requires Rounded(v) == Rounded(JObject(map["value" := w]))
    ensures v.JObject? && v.members.Keys == {"value"}
    ensures Scalar(v.members["value"]) <==> Scalar(w)
    ensures PlainJson(v.members["value"]) == PlainJson(w)
  {
    hide PlainJson;
    assert Rounded(v).JObject?;
    assert Rounded(v).members.Keys == {"value"};
    assert Rounded(v).members["value"] == Rounded(v.members["value"]);
    assert Rounded(JObject(map["value" := w])).members["value"] == Rounded(w);
    PrintingIsInjective(v.members["value"], w);
  }

  /** The executor's printer, for scalars only. */
  function ScalarText(v: Json): Option<string> {
    match v
    case JNull => Some("null")
    case JBool(b) => Some(if b then "true" else "false")
    case JNumber(n) => Some(DecimalText(n))
    case JString(s) => Some(Quote(s))
    case _ => None
  }

  lemma ScalarTextAgrees(v: Json)
    ensures ScalarText(v) == if Scalar(v) then Some(PlainJson(v)) else None
  {}

  /** The executor's check of a parameter text. */
  function JsonScalar(text: string): ScalarResult {
    match ReadText(text)
    case None => Blocked("parameters are not canonical JSON")
    case Some(parameters) =>
      if !parameters.JObject? || parameters.members.Keys != {"value"} then Blocked("parameters must contain exactly value")
      else
        var value := parameters.members["value"];
        match ScalarText(value)
        case None => Blocked("demo value must be a JSON scalar")
        case Some(canonical) =>
          if |Encode(canonical)| > VALUE_BYTES then Blocked("demo value exceeds its byte limit")
          else if text != Envelope(canonical) then Blocked("parameters are not canonical JSON")
          else Accepted(value, canonical)
  }

  /** The check accepts exactly the canonical one-member objects holding a scalar whose text
      fits the byte bound, and hands back the scalar that the text stands for. */
  lemma JsonScalarExactly(text: string)
    ensures var r := JsonScalar(text);
      && (r.Accepted? <==> ParameterText(text))
      && (r.Accepted? ==>
            Scalar(r.value) && Rounded(r.value) == r.value && r.canonical == PlainJson(r.value) && text == Envelope(r.canonical))
  {
    hide PlainJson, ReadText, Envelope, Encode, ScalarText;
    forall v ensures ScalarText(v) == if Scalar(v) then Some(PlainJson(v)) else None { ScalarTextAgrees(v); }
    forall w | Scalar(w) && text == Envelope(PlainJson(w))
      ensures ReadText(text) == Some(JObject(map["value" := Rounded(w)])) && PlainJson(Rounded(w)) == PlainJson(w)
      ensures Scalar(Rounded(w)) && Rounded(Rounded(w)) == Rounded(w)
    {
      ReadEnvelope(w);
      PrintRounded(w);
      RoundedTwice(w);
    }
  }
}
