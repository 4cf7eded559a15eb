/** JSON documents and the JSON Pointers of RFC 6901 into them. */
module Json {
  import opened Decimals

  datatype Option<+T> = None | Some(value: T)

  datatype Json =
    | JNull
    | JBool(b: bool)
    | JNumber(n: Decimal)
    | JString(s: string)
    | JArray(items: seq<Json>)
    | JObject(members: map<string, Json>)

  // ----- reference tokens: escaping (section 3 of RFC 6901)

  function Replace(s: string, c: char, with: string): string {
    if s == [] then [] else (if s[0] == c then with else [s[0]]) + Replace(s[1..], c, with)
  }

  /** The two replacements of the source, tilde first. */
  function Escape(token: string): string {
    Replace(Replace(token, '~', "~0"), '/', "~1")
  }

  function Unescape(s: string): Option<string> {
    if s == [] then Some([])
    else if s[0] == '~' then
      if |s| == 1 || s[1] !in {'0', '1'} then None
      else
        match Unescape(s[2..])
        case None => None
        case Some(rest) => Some([if s[1] == '0' then '~' else '/'] + rest)
    else
      match Unescape(s[1..])
      case None => None
      case Some(rest) => Some([s[0]] + rest)
  }

  lemma {:induction false} ReplaceConcat(a: string, b: string, c: char, with: string)
    ensures Replace(a + b, c, with) == Replace(a, c, with) + Replace(b, c, with)
  {
    if a == [] {
      assert a + b == b;
    } else {
      assert (a + b)[1..] == a[1..] + b;
      ReplaceConcat(a[1..], b, c, with);
    }
  }

  function EscapeChar(c: char): string {
    if c == '~' then "~0" else if c == '/' then "~1" else [c]
  }

  lemma EscapeStep(token: string)
    requires token != []
    ensures Escape(token) == EscapeChar(token[0]) + Escape(token[1..])
  {
    var first := if token[0] == '~' then "~0" else [token[0]];
    ReplaceConcat(first, Replace(token[1..], '~', "~0"), '/', "~1");
    assert Replace(first, '/', "~1") == EscapeChar(token[0]) by {
      assert first[1..] == "0" || first[1..] == "";
      assert |first| == 2 ==> first[1..][1..] == "";
    }
  }

  /** An escaped token holds no separator, and unescaping gives the token back. */
  lemma {:induction false} UnescapeEscape(token: string)
    ensures Unescape(Escape(token)) == Some(token)
    ensures '/' !in Escape(token)
  {
    if token != [] {
      EscapeStep(token);
      UnescapeEscape(token[1..]);
      var head, rest := EscapeChar(token[0]), Escape(token[1..]);
      assert (head + rest)[|head|..] == rest;
      assert token == [token[0]] + token[1..];
    }
  }

  // ----- pointers as text

  function Render(tokens: seq<string>): string {
    if tokens == [] then "" else "/" + Escape(tokens[0]) + Render(tokens[1..])
  }

  /** The length of the segment before the next separator. */
  function SegmentLength(s: string): (n: nat)
    ensures n <= |s| && '/' !in s[..n] && (n < |s| ==> s[n] == '/')
  {
    if s == [] || s[0] == '/' then 0 else 1 + SegmentLength(s[1..])
  }

  function ParsePointer(text: string): Option<seq<string>> {
    if text == "" then Some([])
    else if text[0] != '/' then None
    else
      var n := SegmentLength(text[1..]);
      match (Unescape(text[1..][..n]), ParsePointer(text[1..][n..]))
      case (Some(token), Some(rest)) => Some([token] + rest)
      case _ => None
  }

  lemma {:induction false} SegmentOfEscaped(e: string, rest: string)
    requires '/' !in e && (rest == "" || rest[0] == '/')
    ensures SegmentLength(e + rest) == |e|
  {
    if e == "" {
      assert e + rest == rest;
    } else {
      assert (e + rest)[1..] == e[1..] + rest;
      assert '/' !in e[1..];
      SegmentOfEscaped(e[1..], rest);
    }
  }

  lemma ParseStep(e: string, token: string, rest: string)
    requires '/' !in e && Unescape(e) == Some(token) && (rest == "" || rest[0] == '/')
    ensures ParsePointer("/" + e + rest) ==
      match ParsePointer(rest) case None => None case Some(tokens) => Some([token] + tokens)
  {
    hide Unescape, SegmentLength;
    SegmentOfEscaped(e, rest);
    var text := "/" + e + rest;
    assert text[0] == '/' && text[1..] == e + rest;
    assert (e + rest)[..|e|] == e && (e + rest)[|e|..] == rest;
  }

  lemma RenderStart(tokens: seq<string>)
    ensures Render(tokens) == "" || Render(tokens)[0] == '/'
  {
    hide Escape;
  }

  /** Reading a rendered pointer gives its tokens back. */
  lemma {:induction false} ParseRender(tokens: seq<string>)
    ensures ParsePointer(Render(tokens)) == Some(tokens)
  {
    hide Escape, Unescape, ParsePointer;
    if tokens == [] {
      ParseEmpty();
    } else {
      UnescapeEscape(tokens[0]);
      ParseRender(tokens[1..]);
      RenderStart(tokens[1..]);
      ParseStep(Escape(tokens[0]), tokens[0], Render(tokens[1..]));
      assert tokens == [tokens[0]] + tokens[1..];
    }
  }

  lemma ParseEmpty()
    ensures ParsePointer("") == Some([])
  {}

  // ----- array indices as tokens

  function NatText(n: nat): (r: string)
    ensures r != []
  {
    if n < 10 then [DigitChar(n)] else NatText(n / 10) + [DigitChar(n % 10)]
  }

  function DigitChar(d: nat): char
    requires d < 10
  {
    (('0' as int) + d) as char
  }

  predicate IsDigit(c: char) { '0' <= c <= '9' }

  predicate AllDigits(s: string) { forall i | 0 <= i < |s| :: IsDigit(s[i]) }

  function DigitValue(c: char): nat
    requires IsDigit(c)
  {
    c as int - '0' as int
  }

  function DigitsValue(s: string): nat
    requires AllDigits(s)
  {
    if s == [] then 0 else 10 * DigitsValue(s[..|s| - 1]) + DigitValue(s[|s| - 1])
  }

  /** An array index: decimal digits without a leading zero (section 4 of RFC 6901). */
  function ParseIndex(token: string): Option<nat> {
    if token == "" || !AllDigits(token) || (|token| > 1 && token[0] == '0') then None
    else Some(DigitsValue(token))
  }

  lemma {:induction false} NatTextFacts(n: nat)
    ensures AllDigits(NatText(n))
    ensures DigitsValue(NatText(n)) == n
    ensures n > 0 ==> NatText(n)[0] != '0'
    ensures |NatText(n)| > 1 ==> n >= 10
  {
    if n >= 10 {
      NatTextFacts(n / 10);
      var head := NatText(n / 10);
      assert NatText(n)[..|head|] == head;
    } else {
      assert NatText(n)[..0] == "";
    }
  }

  lemma ParseIndexOfNat(n: nat)
    ensures ParseIndex(NatText(n)) == Some(n)
  {
    NatTextFacts(n);
  }

  lemma NatTextStep(q: nat, d: nat)
    requires q > 0 && d < 10
    ensures NatText(10 * q + d) == NatText(q) + [DigitChar(d)]
  {
    assert (10 * q + d) / 10 == q && (10 * q + d) % 10 == d;
  }

  lemma {:induction false} DigitsArePositive(t: string)
    requires t != "" && AllDigits(t) && t[0] != '0'
    ensures DigitsValue(t) > 0
  {
    if |t| > 1 { DigitsArePositive(t[..|t| - 1]); }
  }

  lemma DigitOfChar(c: char)
    requires IsDigit(c)
    ensures DigitValue(c) < 10 && DigitChar(DigitValue(c)) == c
  {}

  lemma DigitsStep(head: string, last: char)
    requires AllDigits(head) && IsDigit(last)
    ensures AllDigits(head + [last]) && DigitsValue(head + [last]) == 10 * DigitsValue(head) + DigitValue(last)
  {
    assert (head + [last])[..|head|] == head;
  }

  lemma {:induction false} NatTextOfDigits(t: string)
    requires t != "" && AllDigits(t) && (|t| > 1 ==> t[0] != '0')
    ensures NatText(DigitsValue(t)) == t
  {
    hide NatText, DigitChar, DigitValue, DigitsValue;
    var head, last := t[..|t| - 1], t[|t| - 1];
    assert t == head + [last];
    DigitsStep(head, last);
    DigitOfChar(last);
    if |t| > 1 {
      NatTextOfDigits(head);
      DigitsArePositive(head);
      NatTextStep(DigitsValue(head), DigitValue(last));
    } else {
      assert head == "";
      NoDigits();
      NatTextDigit(DigitValue(last));
    }
  }

  lemma NoDigits()
    ensures DigitsValue("") == 0
  {}

  lemma NatTextDigit(d: nat)
    requires d < 10
    ensures NatText(d) == [DigitChar(d)]
  {}

  // ----- evaluation (section 4 of RFC 6901)

  function Child(d: Json, token: string): Option<Json> {
    match d
    case JObject(m) => if token in m then Some(m[token]) else None
    case JArray(xs) =>
      (match ParseIndex(token)
       case Some(i) => if i < |xs| then Some(xs[i]) else None
       case None => None)
    case _ => None
  }

  function Resolve(d: Json, tokens: seq<string>): Option<Json>
    decreases |tokens|
  {
    if tokens == [] then Some(d)
    else
      match Child(d, tokens[0])
      case None => None
      case Some(c) => Resolve(c, tokens[1..])
  }

  lemma ChildIsSmaller(d: Json, token: string)
    requires Child(d, token).Some?
    ensures Child(d, token).value < d
  {}

  /** The node a textual pointer names. */
  function Lookup(d: Json, pointer: string): Option<Json> {
    match ParsePointer(pointer)
    case None => None
    case Some(tokens) => Resolve(d, tokens)
  }
}
