/** UTF-8 (section 3 of RFC 3629) and the order it keeps (section 1 of RFC 3629): the
    printers that sort keys by their bytes and the serializer that sorts them by code
    point list the members of an object in one order. */
module Utf8 {
  import opened Ordering

  type Byte = x: int | 0 <= x < 256

  predicate ByteLess(x: Byte, y: Byte) { x < y }

  /** The one to four bytes of a code point. */
  function EncodeChar(c: char): (r: seq<Byte>)
    ensures 1 <= |r| <= 4
  {
    var n := c as int;
    if n < 0x80 then [n]
    else if n < 0x800 then [0xC0 + n / 64, 0x80 + n % 64]
    else if n < 0x10000 then [0xE0 + n / 64 / 64, 0x80 + n / 64 % 64, 0x80 + n % 64]
    else [0xF0 + n / 64 / 64 / 64, 0x80 + n / 64 / 64 % 64, 0x80 + n / 64 % 64, 0x80 + n % 64]
  }

  function Encode(s: string): seq<Byte> {
    if s == [] then [] else EncodeChar(s[0]) + Encode(s[1..])
  }

  lemma ByteOrder()
    ensures StrictTotal(ByteLess)
  {}

  /** Digits to base 64: the larger number has the larger leading digits, or the same leading
      digits and the larger last one. */
  lemma SplitOrder(m: nat, n: nat)
    requires m < n
    ensures m / 64 < n / 64 || (m / 64 == n / 64 && m % 64 < n % 64)
  {}

  /** The first byte tells the length, longer encodings having larger first bytes. */
  lemma FirstByte(c: char)
    ensures var p := EncodeChar(c);
      && (|p| == 1 <==> c as int < 0x80) && (|p| == 2 <==> 0x80 <= c as int < 0x800)
      && (|p| == 3 <==> 0x800 <= c as int < 0x10000) && (|p| == 4 <==> 0x10000 <= c as int)
      && (|p| == 1 ==> p[0] < 0xC0) && (|p| == 2 ==> 0xC0 <= p[0] < 0xE0)
      && (|p| == 3 ==> 0xE0 <= p[0] < 0xF0) && (|p| == 4 ==> 0xF0 <= p[0])
  {}

  /** Different code points already differ, in code-point order, at some byte both have. */
  lemma CharBytesOrder(c: char, d: char) returns (i: nat)
    requires c < d
    ensures i < |EncodeChar(c)| && i < |EncodeChar(d)|
    ensures EncodeChar(c)[..i] == EncodeChar(d)[..i]
    ensures EncodeChar(c)[i] < EncodeChar(d)[i]
  {
    var p, q := EncodeChar(c), EncodeChar(d);
    FirstByte(c);
    FirstByte(d);
    if |p| != |q| { i := 0; }
    else if |p| == 1 { i := 0; }
    else if |p| == 2 { i := TwoBytes(c, d); }
    else if |p| == 3 { i := ThreeBytes(c, d); }
    else { i := FourBytes(c, d); }
  }

  lemma TwoBytes(c: char, d: char) returns (i: nat)
    requires c < d && |EncodeChar(c)| == |EncodeChar(d)| == 2
    ensures i < 2 && EncodeChar(c)[..i] == EncodeChar(d)[..i] && EncodeChar(c)[i] < EncodeChar(d)[i]
  {
    SplitOrder(c as int, d as int);
    i := if c as int / 64 < d as int / 64 then 0 else 1;
  }

  lemma ThreeBytes(c: char, d: char) returns (i: nat)
    requires c < d && |EncodeChar(c)| == |EncodeChar(d)| == 3
    ensures i < 3 && EncodeChar(c)[..i] == EncodeChar(d)[..i] && EncodeChar(c)[i] < EncodeChar(d)[i]
  {
    var m, n := c as int / 64, d as int / 64;
    SplitOrder(c as int, d as int);
    if m < n {
      SplitOrder(m, n);
      i := if m / 64 < n / 64 then 0 else 1;
    } else {
      i := 2;
    }
  }

  lemma FourBytes(c: char, d: char) returns (i: nat)
    requires c < d && |EncodeChar(c)| == |EncodeChar(d)| == 4
    ensures i < 4 && EncodeChar(c)[..i] == EncodeChar(d)[..i] && EncodeChar(c)[i] < EncodeChar(d)[i]
  {
    var m, n := c as int / 64, d as int / 64;
    SplitOrder(c as int, d as int);
    if m < n {
      SplitOrder(m, n);
      if m / 64 < n / 64 {
        SplitOrder(m / 64, n / 64);
        i := if m / 64 / 64 < n / 64 / 64 then 0 else 1;
      } else {
        i := 2;
      }
    } else {
      i := 3;
    }
  }

  lemma {:induction false} LexAt(a: seq<Byte>, b: seq<Byte>, i: nat)
    requires i < |a| && i < |b| && a[..i] == b[..i] && a[i] < b[i]
    ensures Lex(ByteLess, a, b)
  {
    if i > 0 {
      assert a[0] == a[..i][0] && b[0] == b[..i][0];
      assert a[1..][..i - 1] == a[..i][1..] && b[1..][..i - 1] == b[..i][1..];
      LexAt(a[1..], b[1..], i - 1);
    }
  }

  lemma {:induction false} LexCommonPrefix(p: seq<Byte>, a: seq<Byte>, b: seq<Byte>)
    ensures Lex(ByteLess, p + a, p + b) == Lex(ByteLess, a, b)
  {
    if p == [] {
      assert p + a == a && p + b == b;
    } else {
      assert (p + a)[1..] == p[1..] + a && (p + b)[1..] == p[1..] + b;
      LexCommonPrefix(p[1..], a, b);
    }
  }

  lemma {:induction false} TextLessEncodes(a: string, b: string)
    requires TextLess(a, b)
    ensures Lex(ByteLess, Encode(a), Encode(b))
  {
    hide EncodeChar;
    if a == [] {
      assert Encode(b) != [];
    } else if a[0] == b[0] {
      TextLessEncodes(a[1..], b[1..]);
      LexCommonPrefix(EncodeChar(a[0]), Encode(a[1..]), Encode(b[1..]));
    } else {
      var i := CharBytesOrder(a[0], b[0]);
      var p, q := EncodeChar(a[0]), EncodeChar(b[0]);
      assert Encode(a)[..i] == p[..i] && Encode(b)[..i] == q[..i];
      LexAt(Encode(a), Encode(b), i);
    }
  }

  lemma BytesAsymmetric(x: seq<Byte>, y: seq<Byte>)
    ensures !(Lex(ByteLess, x, y) && Lex(ByteLess, y, x)) && !Lex(ByteLess, x, x)
  {
    ByteOrder();
    LexIrreflexive(ByteLess, x);
    if Lex(ByteLess, x, y) && Lex(ByteLess, y, x) { LexTransitive(ByteLess, x, y, x); }
  }

  /** Comparing UTF-8 bytes is comparing code points. */
  lemma BytesOrderIsTextOrder(a: string, b: string)
    ensures Lex(ByteLess, Encode(a), Encode(b)) <==> TextLess(a, b)
  {
    hide Lex, Encode, TextLess;
    TextTrichotomy(a, b);
    BytesAsymmetric(Encode(a), Encode(b));
    if TextLess(a, b) { TextLessEncodes(a, b); }
    if TextLess(b, a) { TextLessEncodes(b, a); }
  }

  /** A list in increasing byte order, as the printers sort object keys. */
  ghost predicate ByteSorted(keys: seq<string>) {
    forall i, j | 0 <= i < j < |keys| :: Lex(ByteLess, Encode(keys[i]), Encode(keys[j]))
  }

  /** The byte-sorted listing of a set of keys is the one the code-point sort gives. */
  lemma ByteSortIsListing(keys: seq<string>)
    requires ByteSorted(keys)
    ensures keys == Listing(set k | k in keys)
  {
    hide Lex, Encode, TextLess, Listing;
    forall i, j | 0 <= i < j < |keys| ensures TextLess(keys[i], keys[j]) {
      BytesOrderIsTextOrder(keys[i], keys[j]);
    }
    IncreasingIsListing(keys, set k | k in keys);
  }
}
