/** The memory's printer, which also meets integers and binary floats, against the printer of
    parsed documents. */
module Printers {
  import opened Decimals
  import opened Json
  import opened JsonRoundTrip
  import opened JsonText
  import opened Ordering

  /** A value as the database driver may return it. */
  datatype Stored =
    | SNull
    | SBool(b: bool)
    | SInt(i: int)
    | SDecimal(n: Decimal)
    | SFloat(x: real)
    | SText(s: string)
    | SList(items: seq<Stored>)
    | SMap(members: map<string, Stored>)

  function IntText(i: int): string { if i < 0 then "-" + NatText(-i) else NatText(i) }

  /** The text of a binary float is left to the caller. */
  type FloatText = real -> string

  function MemoryText(f: FloatText, v: Stored): string
    decreases v, 1, 0
  {
    match v
    case SNull => "null"
    case SBool(b) => if b then "true" else "false"
    case SText(s) => Quote(s)
    case SInt(i) => IntText(i)
    case SDecimal(n) => DecimalText(n)
    case SFloat(x) => f(x)
    case SList(xs) => "[" + ItemTexts(f, v, xs) + "]"
    case SMap(m) => "{" + MemberTexts(f, v, Listing(m.Keys)) + "}"
  }

  function ItemTexts(f: FloatText, v: Stored, xs: seq<Stored>): string
    requires forall i | 0 <= i < |xs| :: xs[i] < v
    decreases v, 0, |xs|
  {
    if xs == [] then ""
    else MemoryText(f, xs[0]) + (if |xs| == 1 then "" else "," + ItemTexts(f, v, xs[1..]))
  }

  function MemberTexts(f: FloatText, v: Stored, keys: seq<string>): string
    requires v.SMap? && forall k | k in keys :: k in v.members
    decreases v, 0, |keys|
  {
    if keys == [] then ""
    else Quote(keys[0]) + ":" + MemoryText(f, v.members[keys[0]]) + (if |keys| == 1 then "" else "," + MemberTexts(f, v, keys[1..]))
  }

  // ----- where the domains meet

  predicate Parsed(v: Stored) {
    match v
    case SFloat(_) => false
    case SList(xs) => forall i | 0 <= i < |xs| :: Parsed(xs[i])
    case SMap(m) => forall k | k in m :: Parsed(m[k])
    case _ => true
  }

  /** The document a value stands for. */
  function AsJson(v: Stored): Json
    requires Parsed(v)
  {
    match v
    case SNull => JNull
    case SBool(b) => JBool(b)
    case SText(s) => JString(s)
    case SInt(i) => JNumber(Strip(i, 0))
    case SDecimal(n) => JNumber(n)
    case SList(xs) => JArray(seq(|xs|, i requires 0 <= i < |xs| => AsJson(xs[i])))
    case SMap(m) => JObject(map k | k in m :: AsJson(m[k]))
  }

  /** Every integer has at most 28 significant digits. */
  predicate IntegersFit(v: Stored) {
    match v
    case SInt(i) => Digits(Strip(i, 0)) <= PRECISION
    case SList(xs) => forall i | 0 <= i < |xs| :: IntegersFit(xs[i])
    case SMap(m) => forall k | k in m :: IntegersFit(m[k])
    case _ => true
  }

  // ----- one integer

  lemma {:induction false} StripParts(c: int, e: int)
    requires c != 0
    ensures Strip(c, e).exponent >= e && c == Strip(c, e).coefficient * IntPow10(Strip(c, e).exponent - e)
    decreases if c < 0 then -c else c
  {
    if c % 10 == 0 {
      StripParts(c / 10, e + 1);
      var n := Strip(c / 10, e + 1);
      assert IntPow10(n.exponent - e) == 10 * IntPow10(n.exponent - (e + 1));
      TimesTen(n.coefficient, IntPow10(n.exponent - (e + 1)));
    }
  }

  lemma {:induction false} StripNegative(m: int, e: int)
    requires m >= 0
    ensures Strip(-m, e) == Negate(Strip(m, e))
    decreases m
  {
    if m != 0 && m % 10 == 0 {
      assert (-m) % 10 == 0 && (-m) / 10 == -(m / 10);
      StripNegative(m / 10, e + 1);
    }
  }

  lemma ReadInt(i: int, rest: string)
    requires NumberEnds(rest)
    ensures ReadNumber(IntText(i) + rest) == Some((Strip(i, 0), rest))
  {
    hide ReadMagnitude, NatText, Strip, DigitsValue;
    var m := Magnitude(i);
    NatTextWhole(m);
    ReadWhole(NatText(m), rest);
    if i < 0 {
      StripNegative(m, 0);
      assert IntText(i) + rest == "-" + (NatText(m) + rest);
      assert ("-" + (NatText(m) + rest))[1..] == NatText(m) + rest;
    } else {
      assert NatText(m)[0] in NatText(m);
    }
  }

  /** An integer within the digits prints as its decimal does. */
  lemma IntegerPrintsAlike(i: int)
    requires Digits(Strip(i, 0)) <= PRECISION
    ensures IntText(i) == DecimalText(Strip(i, 0))
  {
    hide NatText, DigitsValue, Positional, SignedText;
    var n := Strip(i, 0);
    if i == 0 {
      NatTextDigit(0);
    } else {
      StripParts(i, 0);
      SignedTextFacts(i < 0, n);
      PositionalInteger(n);
      MagnitudeOf(n.coefficient, IntPow10(n.exponent), i);
    }
  }

  lemma MagnitudeOf(c: int, unit: int, i: int)
    requires i == c * unit && unit > 0 && c != 0
    ensures Magnitude(i) == Magnitude(c) * unit && (i < 0 <==> c < 0)
  {}

  lemma PositionalInteger(n: Decimal)
    requires n.coefficient != 0 && n.exponent >= 0
    ensures Positional(Magnitude(n.coefficient), n.exponent) == NatText(Magnitude(n.coefficient) * IntPow10(n.exponent))
  {
    hide NatText, DigitsValue;
    var d := NatText(Magnitude(n.coefficient));
    NatTextWhole(Magnitude(n.coefficient));
    TrailingZeros(d, n.exponent);
    NatTextOfDigits(d + Zeros(n.exponent));
  }

  // ----- whole documents

  /** What may follow a value inside a text. */
  ghost predicate Closed(rest: string) { rest == "" || rest[0] in {',', ']', '}'} }

  /** Two texts that start with the two prints of a value print it alike only if its integers
      fit, and then they go on alike. */
  lemma {:induction false} Peel(f: FloatText, v: Stored, a: string, b: string)
    requires Parsed(v) && Closed(a) && Closed(b) && MemoryText(f, v) + a == PlainJson(AsJson(v)) + b
    ensures IntegersFit(v) && a == b
    decreases v, 1, 0
  {
    match v
    case SInt(i) => PeelInteger(i, a, b);
    case SList(xs) => PeelList(f, v, a, b);
    case SMap(m) => PeelMap(f, v, a, b);
    case SNull => CancelPrefix("null", a, b);
    case SBool(t) => CancelPrefix(if t then "true" else "false", a, b);
    case SText(s) => CancelPrefix(Quote(s), a, b);
    case SDecimal(n) => CancelPrefix(DecimalText(n), a, b);
  }

  lemma CancelPrefix(p: string, a: string, b: string)
    requires p + a == p + b
    ensures a == b
  {
    assert a == (p + a)[|p|..] && b == (p + b)[|p|..];
  }

  lemma PeelInteger(i: int, a: string, b: string)
    requires Closed(a) && Closed(b) && IntText(i) + a == DecimalText(Strip(i, 0)) + b
    ensures Digits(Strip(i, 0)) <= PRECISION && a == b
  {
    hide IntText, DecimalText, ReadNumber;
    ReadInt(i, a);
    ReadDecimal(Strip(i, 0), b);
    RoundFacts(Strip(i, 0));
  }

  function Documents(xs: seq<Stored>): (r: seq<Json>)
    requires forall i | 0 <= i < |xs| :: Parsed(xs[i])
    ensures |r| == |xs|
  {
    seq(|xs|, i requires 0 <= i < |xs| => AsJson(xs[i]))
  }

  lemma {:induction false} PeelList(f: FloatText, v: Stored, a: string, b: string)
    requires v.SList? && Parsed(v) && Closed(a) && Closed(b) && MemoryText(f, v) + a == PlainJson(AsJson(v)) + b
    ensures IntegersFit(v) && a == b
    decreases v, 0, 2 * |v.items| + 2
  {
    var xs := v.items;
    assert AsJson(v) == JArray(Documents(xs));
    if xs == [] {
      assert MemoryText(f, v) == "[]";
      CancelPrefix("[]", a, b);
    } else {
      var (s, t) := (ItemTexts(f, v, xs), PrintItems(AsJson(v), Documents(xs)));
      assert "[" + s + "]" + a == "[" + (s + "]" + a) && "[" + t + b == "[" + (t + b);
      CancelPrefix("[", s + "]" + a, t + b);
      PeelItems(f, v, AsJson(v), xs, a, b);
    }
  }

  lemma LastItem(s: string, a: string)
    ensures s + "" + "]" + a == s + ("]" + a) && s + "]" + a == s + ("]" + a)
  {}

  lemma NextItem(s: string, m: string, a: string)
    ensures s + ("," + m) + a == s + ("," + (m + a))
  {}

  lemma LaterDocuments(xs: seq<Stored>)
    requires xs != [] && forall i | 0 <= i < |xs| :: Parsed(xs[i])
    ensures Documents(xs)[0] == AsJson(xs[0]) && Documents(xs)[1..] == Documents(xs[1..])
    ensures forall i | 0 <= i < |xs| - 1 :: Documents(xs[1..])[i] == Documents(xs)[i + 1]
  {
    hide AsJson;
  }

  lemma {:induction false} PeelItem(f: FloatText, v: Stored, x: Stored, m: string, n: string, a: string, b: string)
    requires x < v && Parsed(x)
    requires MemoryText(f, x) + ("," + m) + ("]" + a) == PlainJson(AsJson(x)) + ("," + n) + b
    ensures IntegersFit(x) && m + "]" + a == n + b
    decreases v, 0, 0
  {
    hide MemoryText, PlainJson, IntegersFit, AsJson;
    NextItem(MemoryText(f, x), m, "]" + a);
    NextItem(PlainJson(AsJson(x)), n, b);
    Peel(f, x, "," + (m + ("]" + a)), "," + (n + b));
    CancelPrefix(",", m + ("]" + a), n + b);
    assert m + "]" + a == m + ("]" + a);
  }

  lemma {:induction false} PeelItems(f: FloatText, v: Stored, d: Json, xs: seq<Stored>, a: string, b: string)
    requires xs != [] && (forall i | 0 <= i < |xs| :: xs[i] < v && Parsed(xs[i])) && Closed(a) && Closed(b)
    requires forall i | 0 <= i < |xs| :: Documents(xs)[i] < d
    requires ItemTexts(f, v, xs) + "]" + a == PrintItems(d, Documents(xs)) + b
    ensures (forall i | 0 <= i < |xs| :: IntegersFit(xs[i])) && a == b
    decreases v, 0, |xs|
  {
    hide MemoryText, PlainJson, IntegersFit, AsJson, Documents;
    LaterDocuments(xs);
    var (s, t) := (MemoryText(f, xs[0]), PlainJson(AsJson(xs[0])));
    if |xs| == 1 {
      LastItem(s, a);
      LastItem(t, b);
      Peel(f, xs[0], "]" + a, "]" + b);
      CancelPrefix("]", a, b);
    } else {
      var (m, n) := (ItemTexts(f, v, xs[1..]), PrintItems(d, Documents(xs[1..])));
      assert ItemTexts(f, v, xs) + "]" + a == s + ("," + m) + ("]" + a);
      PeelItem(f, v, xs[0], m, n, a, b);
      PeelItems(f, v, d, xs[1..], a, b);
      forall i | 0 <= i < |xs| ensures IntegersFit(xs[i]) { if i > 0 { assert xs[i] == xs[1..][i - 1]; } }
    }
  }

  lemma {:induction false} PeelMap(f: FloatText, v: Stored, a: string, b: string)
    requires v.SMap? && Parsed(v) && Closed(a) && Closed(b) && MemoryText(f, v) + a == PlainJson(AsJson(v)) + b
    ensures IntegersFit(v) && a == b
    decreases v, 0, |Listing(v.members.Keys)| + 1
  {
    hide MemoryText, PlainJson, AsJson, Listing, IntegersFit, Parsed;
    var keys := Listing(v.members.Keys);
    MapTexts(f, v);
    MembersFit(v);
    if v.members.Keys == {} {
      CancelPrefix("{}", a, b);
    } else {
      Braces(MemberTexts(f, v, keys), a);
      Brace(PrintMembers(AsJson(v), keys), b);
      CancelPrefix("{", MemberTexts(f, v, keys) + "}" + a, PrintMembers(AsJson(v), keys) + b);
      PeelMembers(f, v, keys, a, b);
    }
  }

  lemma Brace(s: string, a: string)
    ensures "{" + s + a == "{" + (s + a)
  {}

  lemma Braces(s: string, a: string)
    ensures "{" + s + "}" + a == "{" + (s + "}" + a)
  {}

  lemma MembersFit(v: Stored)
    requires v.SMap?
    ensures IntegersFit(v) <==> forall k | k in Listing(v.members.Keys) :: IntegersFit(v.members[k])
  {}

  lemma MapKeys(v: Stored)
    requires v.SMap? && Parsed(v)
    ensures AsJson(v).JObject? && AsJson(v).members.Keys == v.members.Keys
  {}

  lemma SomeKey(keys: set<string>)
    requires keys != {}
    ensures Listing(keys) != []
  {}

  lemma MapTexts(f: FloatText, v: Stored)
    requires v.SMap? && Parsed(v)
    ensures AsJson(v).JObject? && AsJson(v).members.Keys == v.members.Keys
    ensures v.members.Keys == {} ==> MemoryText(f, v) == PlainJson(AsJson(v)) == "{}"
    ensures var keys := Listing(v.members.Keys); v.members.Keys != {} ==>
      keys != [] && MemoryText(f, v) == "{" + MemberTexts(f, v, keys) + "}" && PlainJson(AsJson(v)) == "{" + PrintMembers(AsJson(v), keys)
  {
    hide AsJson, Listing, Parsed, Quote, PrintMembers;
    MapKeys(v);
    if v.members.Keys != {} { SomeKey(v.members.Keys); } else { NoKeys(); }
  }

  lemma NoKeys()
    ensures Listing({}) == []
  {}

  lemma LastMember(q: string, s: string, a: string)
    ensures q + s + "" + "}" + a == q + (s + ("}" + a)) && q + s + "}" + a == q + (s + ("}" + a))
  {}

  lemma NextMember(q: string, s: string, m: string, a: string)
    ensures q + s + ("," + m) + a == q + (s + ("," + (m + a)))
  {}

  lemma MemberOf(v: Stored, k: string)
    requires v.SMap? && Parsed(v) && k in v.members
    ensures AsJson(v).JObject? && AsJson(v).members.Keys == v.members.Keys && AsJson(v).members[k] == AsJson(v.members[k])
  {}

  /** The texts of the members begin with the first key and its value. */
  lemma FirstMember(f: FloatText, v: Stored, keys: seq<string>, a: string, b: string)
    requires v.SMap? && Parsed(v) && keys != [] && forall k | k in keys :: k in v.members
    requires AsJson(v).members.Keys == v.members.Keys
    ensures var (q, s, t) := (Quote(keys[0]) + ":", MemoryText(f, v.members[keys[0]]), PlainJson(AsJson(v.members[keys[0]])));
      if |keys| == 1 then
        MemberTexts(f, v, keys) + "}" + a == q + (s + ("}" + a)) && PrintMembers(AsJson(v), keys) + b == q + (t + ("}" + b))
      else
        && MemberTexts(f, v, keys) + "}" + a == q + (s + ("," + (MemberTexts(f, v, keys[1..]) + "}" + a)))
        && PrintMembers(AsJson(v), keys) + b == q + (t + ("," + (PrintMembers(AsJson(v), keys[1..]) + b)))
  {
    hide MemoryText, PlainJson, Quote, AsJson;
    MemberOf(v, keys[0]);
    var q := Quote(keys[0]) + ":";
    var (s, t) := (MemoryText(f, v.members[keys[0]]), PlainJson(AsJson(v.members[keys[0]])));
    if |keys| == 1 {
      LastMember(q, s, a);
      LastMember(q, t, b);
    } else {
      var (m, n) := (MemberTexts(f, v, keys[1..]), PrintMembers(AsJson(v), keys[1..]));
      NextMember(q, s, m, "}" + a);
      NextMember(q, t, n, b);
      assert MemberTexts(f, v, keys) + "}" + a == MemberTexts(f, v, keys) + ("}" + a);
      assert m + "}" + a == m + ("}" + a);
    }
  }

  lemma {:induction false} PeelMembers(f: FloatText, v: Stored, keys: seq<string>, a: string, b: string)
    requires v.SMap? && Parsed(v) && keys != [] && (forall k | k in keys :: k in v.members) && Closed(a) && Closed(b)
    requires AsJson(v).members.Keys == v.members.Keys && MemberTexts(f, v, keys) + "}" + a == PrintMembers(AsJson(v), keys) + b
    ensures (forall k | k in keys :: IntegersFit(v.members[k])) && a == b
    decreases v, 0, |keys|
  {
    hide MemoryText, PlainJson, IntegersFit, Quote, AsJson, MemberTexts, PrintMembers;
    MemberOf(v, keys[0]);
    FirstMember(f, v, keys, a, b);
    var q := Quote(keys[0]) + ":";
    var (s, t) := (MemoryText(f, v.members[keys[0]]), PlainJson(AsJson(v.members[keys[0]])));
    if |keys| == 1 {
      CancelPrefix(q, s + ("}" + a), t + ("}" + b));
      Peel(f, v.members[keys[0]], "}" + a, "}" + b);
      CancelPrefix("}", a, b);
    } else {
      var (m, n) := (MemberTexts(f, v, keys[1..]) + "}" + a, PrintMembers(AsJson(v), keys[1..]) + b);
      CancelPrefix(q, s + ("," + m), t + ("," + n));
      Peel(f, v.members[keys[0]], "," + m, "," + n);
      CancelPrefix(",", m, n);
      PeelMembers(f, v, keys[1..], a, b);
    }
  }

  lemma {:induction false} FitPrintsAlike(f: FloatText, v: Stored)
    requires Parsed(v) && IntegersFit(v)
    ensures MemoryText(f, v) == PlainJson(AsJson(v))
    decreases v, 1, 0
  {
    match v
    case SInt(i) => IntegerPrintsAlike(i);
    case SList(xs) =>
      assert AsJson(v) == JArray(Documents(xs));
      if xs == [] { assert MemoryText(f, v) == "[]"; } else { FitItems(f, v, AsJson(v), xs); }
    case SMap(m) =>
      assert AsJson(v).members.Keys == m.Keys;
      if m.Keys == {} { assert MemoryText(f, v) == "{}"; } else { FitMembers(f, v, Listing(m.Keys)); }
    case _ =>
  }

  lemma {:induction false} FitItems(f: FloatText, v: Stored, d: Json, xs: seq<Stored>)
    requires xs != [] && (forall i | 0 <= i < |xs| :: xs[i] < v && Parsed(xs[i]) && IntegersFit(xs[i]))
    requires forall i | 0 <= i < |xs| :: Documents(xs)[i] < d
    ensures ItemTexts(f, v, xs) + "]" == PrintItems(d, Documents(xs))
    decreases v, 0, |xs|
  {
    hide MemoryText, PlainJson, IntegersFit;
    FitPrintsAlike(f, xs[0]);
    if |xs| > 1 {
      assert Documents(xs)[1..] == Documents(xs[1..]);
      FitItems(f, v, d, xs[1..]);
    }
  }

  lemma {:induction false} FitMembers(f: FloatText, v: Stored, keys: seq<string>)
    requires v.SMap? && Parsed(v) && IntegersFit(v) && keys != [] && (forall k | k in keys :: k in v.members)
    requires AsJson(v).members.Keys == v.members.Keys
    ensures MemberTexts(f, v, keys) + "}" == PrintMembers(AsJson(v), keys)
    decreases v, 0, |keys|
  {
    hide MemoryText, PlainJson, Quote;
    FitPrintsAlike(f, v.members[keys[0]]);
    if |keys| > 1 { FitMembers(f, v, keys[1..]); }
  }

  /** Without binary floats the memory prints what the other printers print for the document if
      and only if every integer has at most 28 significant digits. */
  lemma PrintersAgreeExactly(f: FloatText, v: Stored)
    requires Parsed(v)
    ensures MemoryText(f, v) == PlainJson(AsJson(v)) <==> IntegersFit(v)
  {
    hide MemoryText, PlainJson, IntegersFit, AsJson;
    if IntegersFit(v) { FitPrintsAlike(f, v); }
    if MemoryText(f, v) == PlainJson(AsJson(v)) { Peel(f, v, "", ""); }
  }

  /** Beyond the digits the memory does not print an integer as the others do. */
  lemma LongInteger(f: FloatText, i: nat)
    requires i > IntPow10(PRECISION) && i % 10 != 0
    ensures Parsed(SInt(i)) && MemoryText(f, SInt(i)) != PlainJson(AsJson(SInt(i)))
  {
    hide MemoryText, PlainJson, AsJson, IntPow10;
    LongDigits(i);
    PrintersAgreeExactly(f, SInt(i));
  }

  lemma LongDigits(i: nat)
    requires i > IntPow10(PRECISION) && i % 10 != 0
    ensures Digits(Strip(i, 0)) > PRECISION
  {
    hide IntPow10, NatText;
    assert Strip(i, 0) == Number(i, 0);
    if |NatText(i)| <= 28 {
      NatTextFloor(i);
      PowerGrows(|NatText(i)|, 28);
    }
  }

  lemma {:induction false} PowerGrows(a: nat, b: nat)
    requires a <= b
    ensures IntPow10(a) <= IntPow10(b)
    decreases b
  {
    if a < b { PowerGrows(a, b - 1); }
  }
}
