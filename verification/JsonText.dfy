/** The canonical JSON printer of parsed documents, as the agent and the consequence reporter have
    it, and a reader for the texts of RFC 8259. */
module JsonText {
  import opened Decimals
  import opened Json
  import opened Ordering

  // ----- numbers

  const PRECISION := 28

  function Magnitude(c: int): nat { if c < 0 then -c else c }

  function Digits(n: Decimal): nat { |NatText(Magnitude(n.coefficient))| }

  /** Rounding to a number of significant digits, half to even. */
  function RoundTo(n: Decimal, p: nat): Decimal {
    if Digits(n) <= p then n
    else
      var k := Digits(n) - p;
      var unit := IntPow10(k);
      var low := Magnitude(n.coefficient) / unit;
      var rest := Magnitude(n.coefficient) % unit;
      var kept := if 2 * rest < unit || (2 * rest == unit && low % 2 == 0) then low else low + 1;
      Strip(if n.coefficient < 0 then -kept else kept, n.exponent + k)
  }

  /** Rounding in the default decimal context. */
  function Round(n: Decimal): Decimal { RoundTo(n, PRECISION) }

  function Zeros(k: nat): string { seq(k, _ => '0') }

  /** Positional notation of a magnitude with a decimal exponent. */
  function Positional(m: nat, e: int): string {
    var d := NatText(m);
    if e >= 0 then d + Zeros(e)
    else if |d| > -e then d[..|d| + e] + "." + d[|d| + e..]
    else "0." + Zeros(-e - |d|) + d
  }

  function TrimRight(s: string, c: char): string {
    if s != [] && s[|s| - 1] == c then TrimRight(s[..|s| - 1], c) else s
  }

  /** A non-zero number without an exponent part. */
  function SignedText(negative: bool, r: Decimal): string {
    var text := (if negative then "-" else "") + Positional(Magnitude(r.coefficient), r.exponent);
    if '.' in text then TrimRight(TrimRight(text, '0'), '.') else text
  }

  function DecimalText(n: Decimal): string {
    if n.coefficient == 0 then "0" else SignedText(n.coefficient < 0, Round(n))
  }

  // ----- strings

  function HexDigit(d: nat): char
    requires d < 16
  {
    "0123456789abcdef"[d]
  }

  function QuoteChar(c: char): string {
    if c == '"' then "\\\""
    else if c == '\\' then "\\\\"
    else if c == '\n' then "\\n"
    else if c == '\r' then "\\r"
    else if c == '\t' then "\\t"
    else if c as int == 8 then "\\b"
    else if c as int == 12 then "\\f"
    else if c as int < 32 then "\\u00" + [HexDigit(c as int / 16), HexDigit(c as int % 16)]
    else [c]
  }

  function QuoteChars(s: string): string {
    if s == [] then "\"" else QuoteChar(s[0]) + QuoteChars(s[1..])
  }

  function Quote(s: string): string { "\"" + QuoteChars(s) }

  // ----- the printer

  function PlainJson(v: Json): string
    decreases v, 1, 0
  {
    match v
    case JNull => "null"
    case JBool(b) => if b then "true" else "false"
    case JNumber(n) => DecimalText(n)
    case JString(s) => Quote(s)
    case JArray(xs) => if xs == [] then "[]" else "[" + PrintItems(v, xs)
    case JObject(m) => if m.Keys == {} then "{}" else "{" + PrintMembers(v, Listing(m.Keys))
  }

  function PrintItems(v: Json, xs: seq<Json>): string
    requires xs != [] && forall i | 0 <= i < |xs| :: xs[i] < v
    decreases v, 0, |xs|
  {
    PlainJson(xs[0]) + if |xs| == 1 then "]" else "," + PrintItems(v, xs[1..])
  }

  function PrintMembers(v: Json, keys: seq<string>): string
    requires v.JObject? && keys != [] && forall k | k in keys :: k in v.members
    decreases v, 0, |keys|
  {
    Quote(keys[0]) + ":" + PlainJson(v.members[keys[0]]) + if |keys| == 1 then "}" else "," + PrintMembers(v, keys[1..])
  }

  // ----- the reader

  predicate IsSpace(c: char) { c == ' ' || c == '\t' || c == '\n' || c == '\r' }

  function SkipSpace(s: string): (r: string)
    ensures |r| <= |s|
  {
    if s != [] && IsSpace(s[0]) then SkipSpace(s[1..]) else s
  }

  function DigitRun(s: string): (n: nat)
    ensures n <= |s| && AllDigits(s[..n])
  {
    if s != [] && IsDigit(s[0]) then 1 + DigitRun(s[1..]) else 0
  }

  function HexValue(c: char): Option<nat> {
    if '0' <= c <= '9' then Some(c as int - '0' as int)
    else if 'a' <= c <= 'f' then Some(c as int - 'a' as int + 10)
    else if 'A' <= c <= 'F' then Some(c as int - 'A' as int + 10)
    else None
  }

  function HexRun(s: string): (r: Option<nat>)
    ensures r.Some? && |s| <= 4 ==> r.value < 0x10000
    ensures r.Some? && |s| <= 3 ==> r.value < 0x1000
    ensures r.Some? && |s| <= 2 ==> r.value < 0x100
    ensures r.Some? && |s| <= 1 ==> r.value < 0x10
    ensures r.Some? && |s| == 0 ==> r.value == 0
  {
    if s == [] then Some(0)
    else
      match (HexRun(s[..|s| - 1]), HexValue(s[|s| - 1]))
      case (Some(h), Some(d)) => Some(16 * h + d)
      case _ => None
  }

  /** One escape sequence after its backslash. */
  function ReadEscape(s: string): (r: Option<(char, string)>)
    ensures r.Some? ==> |r.value.1| < |s|
  {
    if s == [] then None
    else if s[0] in {'"', '\\', '/'} then Some((s[0], s[1..]))
    else if s[0] == 'b' then Some((8 as char, s[1..]))
    else if s[0] == 'f' then Some((12 as char, s[1..]))
    else if s[0] == 'n' then Some(('\n', s[1..]))
    else if s[0] == 'r' then Some(('\r', s[1..]))
    else if s[0] == 't' then Some(('\t', s[1..]))
    else if s[0] == 'u' && |s| >= 5 then
      match HexRun(s[1..5])
      case None => None
      case Some(u) =>
        if u < 0xD800 || 0xE000 <= u then Some((u as char, s[5..]))
        else if u < 0xDC00 && |s| >= 11 && s[5..7] == "\\u" then
          (match HexRun(s[7..11])
           case None => None
           case Some(l) =>
             if 0xDC00 <= l < 0xE000 then Some(((0x10000 + (u - 0xD800) * 0x400 + (l - 0xDC00)) as char, s[11..]))
             else None)
        else None
    else None
  }

  /** The characters of a string up to and including its closing quote. */
  function ReadString(s: string): (r: Option<(string, string)>)
    ensures r.Some? ==> |r.value.1| < |s|
    decreases |s|
  {
    if s == [] || s[0] as int < 32 then None
    else if s[0] == '"' then Some(([], s[1..]))
    else if s[0] == '\\' then
      match ReadEscape(s[1..])
      case None => None
      case Some((c, rest)) =>
        (match ReadString(rest)
         case None => None
         case Some((t, end)) => Some(([c] + t, end)))
    else
      match ReadString(s[1..])
      case None => None
      case Some((t, end)) => Some(([s[0]] + t, end))
  }

  function WholeLength(s: string): (n: nat)
    ensures n <= |s| && AllDigits(s[..n])
  {
    if s != [] && s[0] == '0' then 1 else DigitRun(s)
  }

  /** The digits of a fraction part, if there is one, and what follows. */
  function SplitFraction(s: string): (r: (string, string))
    ensures AllDigits(r.0) && |r.1| <= |s|
  {
    if s == [] || s[0] != '.' || DigitRun(s[1..]) == 0 then ("", s)
    else (s[1..][..DigitRun(s[1..])], s[1..][DigitRun(s[1..])..])
  }

  /** The value of an exponent part, if there is one, and what follows. */
  function SplitExponent(s: string): (r: (int, string))
    ensures |r.1| <= |s|
  {
    if s == [] || s[0] !in {'e', 'E'} then (0, s)
    else
      var sign := if |s| > 1 && s[1] in {'+', '-'} then 1 else 0;
      var digits := s[1 + sign..];
      var run := DigitRun(digits);
      if run == 0 then (0, s)
      else
        var value: int := DigitsValue(digits[..run]);
        (if s[1] == '-' then -value else value, digits[run..])
  }

  /** An unsigned number: integer part, optional fraction, optional exponent. */
  function ReadMagnitude(s: string): (r: Option<(Decimal, string)>)
    ensures r.Some? ==> |r.value.1| < |s|
  {
    var whole := WholeLength(s);
    if whole == 0 then None
    else
      var (fraction, tail) := SplitFraction(s[whole..]);
      var (exponent, rest) := SplitExponent(tail);
      Some((Strip(DigitsValue(s[..whole] + fraction), exponent - |fraction|), rest))
  }

  function Negate(n: Decimal): Decimal { Number(-n.coefficient, n.exponent) }

  function ReadNumber(s: string): (r: Option<(Decimal, string)>)
    ensures r.Some? ==> |r.value.1| < |s|
  {
    if s != [] && s[0] == '-' then
      match ReadMagnitude(s[1..])
      case None => None
      case Some((n, rest)) => Some((Negate(n), rest))
    else ReadMagnitude(s)
  }

  /** A value and what follows it. */
  function ReadValue(s: string): (r: Option<(Json, string)>)
    ensures r.Some? ==> |r.value.1| < |s|
    decreases |s|, 0
  {
    if "null" <= s then Some((JNull, s[4..]))
    else if "true" <= s then Some((JBool(true), s[4..]))
    else if "false" <= s then Some((JBool(false), s[5..]))
    else if s != [] && s[0] == '"' then
      match ReadString(s[1..])
      case None => None
      case Some((t, rest)) => Some((JString(t), rest))
    else if s != [] && s[0] == '[' then
      var body := SkipSpace(s[1..]);
      if body != [] && body[0] == ']' then Some((JArray([]), body[1..]))
      else
        match ReadItems(body)
        case None => None
        case Some((xs, rest)) => Some((JArray(xs), rest))
    else if s != [] && s[0] == '{' then
      var body := SkipSpace(s[1..]);
      if body != [] && body[0] == '}' then Some((JObject(map[]), body[1..]))
      else
        match ReadMembers(body)
        case None => None
        case Some((m, rest)) => Some((JObject(m), rest))
    else
      match ReadNumber(s)
      case None => None
      case Some((n, rest)) => Some((JNumber(n), rest))
  }

  /** One or more array items up to and including the closing bracket. */
  function ReadItems(s: string): (r: Option<(seq<Json>, string)>)
    ensures r.Some? ==> |r.value.1| < |s|
    decreases |s|, 1
  {
    match ReadValue(s)
    case None => None
    case Some((x, rest)) =>
      var after := SkipSpace(rest);
      if after == [] then None
      else if after[0] == ']' then Some(([x], after[1..]))
      else if after[0] == ',' then
        (match ReadItems(SkipSpace(after[1..]))
         case None => None
         case Some((xs, end)) => Some(([x] + xs, end)))
      else None
  }

  /** A member's key with its colon, and what follows them. */
  function ReadKey(s: string): (r: Option<(string, string)>)
    ensures r.Some? ==> |r.value.1| < |s|
  {
    if s == [] || s[0] != '"' then None
    else
      match ReadString(s[1..])
      case None => None
      case Some((key, rest)) =>
        var colon := SkipSpace(rest);
        if colon == [] || colon[0] != ':' then None else Some((key, SkipSpace(colon[1..])))
  }

  /** One or more members up to and including the closing brace; a repeated key is refused. */
  function ReadMembers(s: string): (r: Option<(map<string, Json>, string)>)
    ensures r.Some? ==> |r.value.1| < |s|
    decreases |s|, 1
  {
    match ReadKey(s)
    case None => None
    case Some((key, text)) =>
      match ReadValue(text)
      case None => None
      case Some((x, rest)) =>
        var after := SkipSpace(rest);
        if after == [] then None
        else if after[0] == '}' then Some((map[key := x], after[1..]))
        else if after[0] == ',' then
          (match ReadMembers(SkipSpace(after[1..]))
           case None => None
           case Some((m, end)) => if key in m then None else Some((m[key := x], end)))
        else None
  }

  /** A whole text: one value, with white space around it. */
  function ReadText(text: string): Option<Json> {
    match ReadValue(SkipSpace(text))
    case None => None
    case Some((v, rest)) => if SkipSpace(rest) == [] then Some(v) else None
  }
}
