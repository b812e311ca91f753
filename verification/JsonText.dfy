/**
 JSON text (cpp/update_flow_core/flow_json.cpp:126-260 and 365-727): what the printer
 writes and what the recursive-descent parser accepts, as functions on the remaining text,
 and the law that connects them. Sections 2, 6 and 7 of RFC 8259.
 */
module JsonText {
  import opened FlowJson
  import opened Wrappers

  const MAX_DEPTH: nat := 64
  const MAX_SAFE: int := 9007199254740992 // 2 to the 53
  const MAX_INPUT_BYTES: nat := 1024 * 1024
  const MAX_NODES: nat := 65536

  datatype ParseLimits = ParseLimits(maxInputBytes: nat, maxNodes: nat)

  const BACKSPACE: char := '\U{0008}'
  const FORM_FEED: char := '\U{000C}'

  const DEFAULT_LIMITS := ParseLimits(MAX_INPUT_BYTES, MAX_NODES)

  // ----- printing --------------------------------------------------------------

  function HexDigit(d: nat): char
    requires d < 16
  {
    "0123456789abcdef"[d]
  }

  function EscapedChar(c: char): string {
    if c == '\"' then "\\\""
    else if c == '\\' then "\\\\"
    else if c == BACKSPACE then "\\b"
    else if c == FORM_FEED then "\\f"
    else if c == '\n' then "\\n"
    else if c == '\r' then "\\r"
    else if c == '\t' then "\\t"
    else if c < ' ' then "\\u00" + [HexDigit(c as nat / 16), HexDigit(c as nat % 16)]
    else [c]
  }

  function Escaped(s: string): string {
    if s == "" then "" else EscapedChar(s[0]) + Escaped(s[1..])
  }

  function Quoted(s: string): string {
    "\"" + Escaped(s) + "\""
  }

  function DigitChar(d: nat): char
    requires d < 10
  {
    "0123456789"[d]
  }

  function Digits(n: nat): (s: string)
    ensures |s| > 0
  {
    if n < 10 then [DigitChar(n)] else Digits(n / 10) + [DigitChar(n % 10)]
  }

  /** The integers that print, as JSON.stringify does, without a point or an exponent. */
  predicate SafeInteger(n: real) {
    n == n.Floor as real && -MAX_SAFE <= n.Floor <= MAX_SAFE
  }

  function PrintInteger(n: int): string {
    if n < 0 then "-" + Digits(-n) else Digits(n)
  }

  // ----- other numbers: %.17g, rounded exactly -------------------------------------

  const E16: int := 10000000000000000 // 10 to the 16

  /** x divided by ten until it is below ten, and how often that was. */
  function Lowered(x: real): (r: (real, nat))
    requires x >= 1.0
    ensures 1.0 <= r.0 < 10.0
    decreases x.Floor
  {
    if x < 10.0 then (x, 0)
    else
      var (m, k) := Lowered(x / 10.0);
      (m, k + 1)
  }

  lemma InverseShrinks(x: real, y: real, z: real)
    requires 0.0 < x < 1.0 && y * x == 1.0 && z * (x * 10.0) == 1.0
    ensures 0 <= z.Floor < y.Floor
  {
    assert y <= 1.0 ==> y * x < 1.0;
    assert (10.0 * z - y) * x == 0.0;
    assert 10.0 * z == y;
  }

  /** x multiplied by ten until it reaches one, and how often that was. */
  function Raised(x: real): (r: (real, nat))
    requires 0.0 < x < 10.0
    ensures 1.0 <= r.0 < 10.0
    decreases (1.0 / x).Floor
  {
    if x >= 1.0 then (x, 0)
    else
      InverseShrinks(x, 1.0 / x, 1.0 / (x * 10.0));
      var (m, k) := Raised(x * 10.0);
      (m, k + 1)
  }

  /** x with the point behind its first digit, and the power of ten that takes. */
  function Scientific(x: real): (r: (real, int))
    requires x > 0.0
    ensures 1.0 <= r.0 < 10.0
  {
    if x >= 1.0 then (Lowered(x).0, Lowered(x).1)
    else
      var k: int := Raised(x).1;
      (Raised(x).0, -k)
  }

  /** The nearest integer, an even one when two are equally near. */
  function Rounded(y: real): nat
    requires y >= 0.0
  {
    var low := y.Floor;
    var rest := y - low as real;
    if rest < 0.5 || (rest == 0.5 && low % 2 == 0) then low else low + 1
  }

  /** The last n digits of d. */
  function LastDigits(d: nat, n: nat): (s: string)
    ensures |s| == n
  {
    if n == 0 then "" else LastDigits(d / 10, n - 1) + [DigitChar(d % 10)]
  }

  function Zeros(n: nat): (s: string)
    ensures |s| == n
  {
    if n == 0 then "" else ['0'] + Zeros(n - 1)
  }

  function WithoutZeros(s: string): (r: string)
    ensures r <= s
  {
    if s != "" && s[|s| - 1] == '0' then WithoutZeros(s[..|s| - 1]) else s
  }

  function FractionText(digits: string): string {
    if WithoutZeros(digits) == "" then "" else "." + WithoutZeros(digits)
  }

  function ExponentText(e: int): string {
    (if e < 0 then "e-" else "e+") + (if -10 < e < 10 then "0" else "") + Digits(if e < 0 then -e else e)
  }

  /** Seventeen digits and the exponent of the first one. */
  function Significant(x: real): (r: (string, int))
    requires x > 0.0
    ensures |r.0| == 17
  {
    var (m, e) := Scientific(x);
    var d := Rounded(m * E16 as real);
    if d >= 10 * E16 then (LastDigits(E16, 17), e + 1) else (LastDigits(d, 17), e)
  }

  function PrintGeneral(x: real): string
    requires x > 0.0
  {
    var (ds, e) := Significant(x);
    if e < -4 || e > 16 then ds[..1] + FractionText(ds[1..]) + ExponentText(e)
    else if e >= 0 then ds[..e + 1] + FractionText(ds[e + 1..])
    else "0" + FractionText(Zeros(-e - 1) + ds)
  }

  function PrintNumber(n: real): string {
    if SafeInteger(n) then PrintInteger(n.Floor)
    else if n < 0.0 then "-" + PrintGeneral(-n)
    else PrintGeneral(n)
  }

  /** Every number in the value is a safe integer. */
  predicate SafeNumbers(v: Value) {
    match v
    case Number(n) => SafeInteger(n)
    case Array(es) => forall i :: 0 <= i < |es| ==> SafeNumbers(es[i])
    case Object(ms) => forall i :: 0 <= i < |ms| ==> SafeNumbers(ms[i].value)
    case _ => true
  }

  function Print(v: Value): string
    decreases v, 0
  {
    match v
    case Undefined => "null" // as an array element; members are skipped below
    case Null => "null"
    case Bool(b) => if b then "true" else "false"
    case Number(n) => PrintNumber(n)
    case String(s) => Quoted(s)
    case Array(es) => "[" + PrintElements(es, true) + "]"
    case Object(ms) => "{" + PrintMembers(ms, true) + "}"
  }

  function PrintElements(es: seq<Value>, first: bool): string
    decreases es, 1
  {
    if es == [] then ""
    else (if first then "" else ",") + Print(es[0]) + PrintElements(es[1..], false)
  }

  function PrintMembers(ms: seq<Member>, first: bool): string
    decreases ms, 1
  {
    if ms == [] then ""
    else if ms[0].value.Undefined? then PrintMembers(ms[1..], first) // skipped, as in WireOf
    else (if first then "" else ",") + Quoted(ms[0].key) + ":" + Print(ms[0].value) + PrintMembers(ms[1..], false)
  }

  function Stringify(v: Value): string
  {
    if v.Undefined? then "undefined" else Print(v)
  }

  // ----- scanning --------------------------------------------------------------

  predicate IsWs(c: char) {
    c == ' ' || c == '\t' || c == '\n' || c == '\r'
  }

  predicate IsDigit(c: char) {
    '0' <= c <= '9'
  }

  function SkipWs(s: string): (r: string)
    ensures |r| <= |s|
  {
    if s != "" && IsWs(s[0]) then SkipWs(s[1..]) else s
  }

  function SkipDigits(s: string): (r: string)
    ensures |r| <= |s|
  {
    if s != "" && IsDigit(s[0]) then SkipDigits(s[1..]) else s
  }

  predicate HasPrefix(s: string, p: string) {
    |p| <= |s| && s[..|p|] == p
  }

  predicate StartsWith(s: string, c: char) {
    s != "" && s[0] == c
  }

  predicate StartsWithDigit(s: string) {
    s != "" && IsDigit(s[0])
  }

  // ----- strings ---------------------------------------------------------------

  function HexValue(c: char): Option<nat> {
    if '0' <= c <= '9' then Some(c as nat - '0' as nat)
    else if 'a' <= c <= 'f' then Some(c as nat - 'a' as nat + 10)
    else if 'A' <= c <= 'F' then Some(c as nat - 'A' as nat + 10)
    else None
  }

  /** Four hexadecimal digits at the head of s. */
  function Hex4(s: string): (r: Option<nat>)
    ensures r.Some? ==> |s| >= 4 && r.value < 0x10000
  {
    if |s| < 4 then None
    else
      match (HexValue(s[0]), HexValue(s[1]), HexValue(s[2]), HexValue(s[3]))
      case (Some(a), Some(b), Some(c), Some(d)) =>
        if a < 16 && b < 16 && c < 16 && d < 16 then Some(((a * 16 + b) * 16 + c) * 16 + d) else None
      case _ => None
  }

  function Byte(n: nat): char
    requires n < 256
  {
    n as char
  }

  /** UTF-8 of a code point (section 3 of RFC 3629). */
  function Utf8(code: nat): string
    requires code < 0x110000
  {
    if code < 0x80 then [Byte(code)]
    else if code < 0x800 then [Byte(0xc0 + code / 64), Byte(0x80 + code % 64)]
    else if code < 0x10000 then [Byte(0xe0 + code / 4096), Byte(0x80 + code / 64 % 64), Byte(0x80 + code % 64)]
    else [Byte(0xf0 + code / 262144), Byte(0x80 + code / 4096 % 64), Byte(0x80 + code / 64 % 64), Byte(0x80 + code % 64)]
  }

  predicate HighSurrogate(code: nat) {
    0xd800 <= code <= 0xdbff
  }

  predicate LowSurrogate(code: nat) {
    0xdc00 <= code <= 0xdfff
  }

  /**
   A \u escape whose digits start at s: the code point and the text after it. A high
   surrogate takes an immediately following low one; a lone surrogate becomes U+FFFD.
   */
  function UnicodeEscape(s: string): (r: Option<(nat, string)>)
    ensures r.Some? ==> r.value.0 < 0x110000 && |r.value.1| <= |s| - 4
  {
    match Hex4(s)
    case None => None
    case Some(code) =>
      if HighSurrogate(code) && HasPrefix(s[4..], "\\u") then
        match Hex4(s[6..])
        case None => None
        case Some(low) =>
          if LowSurrogate(low) then Some((0x10000 + (code - 0xd800) * 1024 + (low - 0xdc00), s[10..]))
          else Some((0xfffd, s[4..]))
      else Some((if HighSurrogate(code) || LowSurrogate(code) then 0xfffd else code, s[4..]))
  }

  function SimpleEscape(c: char): Option<char> {
    if c == '\"' || c == '\\' || c == '/' then Some(c)
    else if c == 'b' then Some(BACKSPACE)
    else if c == 'f' then Some(FORM_FEED)
    else if c == 'n' then Some('\n')
    else if c == 'r' then Some('\r')
    else if c == 't' then Some('\t')
    else None
  }

  /** The rest of a string literal after its opening quote: its value and the text after it. */
  function ParseStringBody(s: string): (r: Option<(string, string)>)
    ensures r.Some? ==> |r.value.1| < |s|
    decreases |s|
  {
    if s == "" then None
    else if s[0] == '\"' then Some(("", s[1..]))
    else if s[0] != '\\' then Cons([s[0]], ParseStringBody(s[1..]))
    else if |s| < 2 then None
    else if s[1] == 'u' then
      match UnicodeEscape(s[2..])
      case None => None
      case Some((code, rest)) => Cons(Utf8(code), ParseStringBody(rest))
    else
      match SimpleEscape(s[1])
      case None => None
      case Some(c) => Cons([c], ParseStringBody(s[2..]))
  }

  function Cons(head: string, tail: Option<(string, string)>): Option<(string, string)> {
    match tail
    case None => None
    case Some((value, rest)) => Some((head + value, rest))
  }

  function ParseString(s: string): (r: Option<(string, string)>)
    ensures r.Some? ==> |r.value.1| < |s|
  {
    if StartsWith(s, '\"') then ParseStringBody(s[1..]) else None
  }

  // ----- numbers ---------------------------------------------------------------

  /** The text after a fraction part, if there is one; None when the point has no digit after it. */
  function SkipFraction(s: string): (r: Option<string>)
    ensures r.Some? ==> |r.value| <= |s|
  {
    if !StartsWith(s, '.') then Some(s)
    else if StartsWithDigit(s[1..]) then Some(SkipDigits(s[1..]))
    else None
  }

  function SkipSign(s: string): (r: string)
    ensures |r| <= |s|
  {
    if StartsWith(s, '+') || StartsWith(s, '-') then s[1..] else s
  }

  function SkipExponent(s: string): (r: Option<string>)
    ensures r.Some? ==> |r.value| <= |s|
  {
    if !(StartsWith(s, 'e') || StartsWith(s, 'E')) then Some(s)
    else
      var t := SkipSign(s[1..]);
      if StartsWithDigit(t) then Some(SkipDigits(t)) else None
  }

  /** The integer part: no leading zero unless it is the whole part. */
  function SkipInteger(s: string): (r: Option<string>)
    ensures r.Some? ==> |r.value| < |s|
  {
    if StartsWith(s, '0') then (if StartsWithDigit(s[1..]) then None else Some(s[1..]))
    else if StartsWithDigit(s) then Some(SkipDigits(s[1..]))
    else None
  }

  /** The text after a number token (section 6 of RFC 8259). */
  function SkipNumber(s: string): (r: Option<string>)
    ensures r.Some? ==> |r.value| < |s|
  {
    match SkipInteger(if StartsWith(s, '-') then s[1..] else s)
    case None => None
    case Some(t) =>
      match SkipFraction(t)
      case None => None
      case Some(u) => SkipExponent(u)
  }

  function Pow10(e: nat): (r: real)
    ensures r > 0.0
  {
    if e == 0 then 1.0 else 10.0 * Pow10(e - 1)
  }

  function Scale(significand: nat, exponent: int): real {
    if exponent >= 0 then significand as real * Pow10(exponent)
    else significand as real / Pow10(-exponent)
  }

  /** What the digit loop has gathered: at most 19 significant digits and the decimal scale. */
  datatype Decimal = Decimal(significand: nat, digits: nat, exponent: int, fraction: bool)

  function FoldDigit(d: Decimal, c: char): Decimal
    requires c == '.' || IsDigit(c)
  {
    if c == '.' then d.(fraction := true)
    else
      var digit := c as nat - '0' as nat;
      if d.significand == 0 && digit == 0 then (if d.fraction then d.(exponent := d.exponent - 1) else d)
      else if d.digits < 19 then
        Decimal(d.significand * 10 + digit, d.digits + 1, if d.fraction then d.exponent - 1 else d.exponent, d.fraction)
      else if !d.fraction then d.(exponent := d.exponent + 1)
      else d
  }

  /** Folds the digits (and the point) at the head of s; the rest starts with the exponent mark, if any. */
  function FoldDigits(d: Decimal, s: string): (Decimal, string)
    decreases |s|
  {
    if s != "" && (s[0] == '.' || IsDigit(s[0])) then FoldDigits(FoldDigit(d, s[0]), s[1..]) else (d, s)
  }

  /** The digits of an exponent, saturating: beyond that the value is infinity or zero anyway. */
  function FoldExponent(value: nat, s: string): nat
    decreases |s|
  {
    if s != "" && IsDigit(s[0]) then
      FoldExponent(if value < 100000 then value * 10 + (s[0] as nat - '0' as nat) else value, s[1..])
    else value
  }

  function ExponentPart(s: string): int {
    if s == "" then 0
    else
      var t := s[1..];
      var value: int := FoldExponent(0, SkipSign(t));
      if StartsWith(t, '-') then -value else value
  }

  /** The value of a number token, exactly as the source gathers it but without rounding. */
  function DecimalValue(token: string): real {
    var negative := StartsWith(token, '-');
    var (d, rest) := FoldDigits(Decimal(0, 0, 0, false), if negative then token[1..] else token);
    var result := if d.significand == 0 then 0.0 else Scale(d.significand, d.exponent + ExponentPart(rest));
    if negative then -result else result
  }

  // ----- values ----------------------------------------------------------------

  /** A parsed value, the text after it and the number of values read so far. */
  datatype Parsed<T> = Bad | Good(value: T, rest: string, nodes: nat)

  /** After `nodes` values, at nesting `depth`. */
  function ParseValue(s: string, depth: nat, nodes: nat, maxNodes: nat): (r: Parsed<Value>)
    requires depth <= MAX_DEPTH
    ensures r.Good? ==> |r.rest| < |s|
    decreases MAX_DEPTH - depth, |s|, 0
  {
    var t := SkipWs(s);
    if t == "" || nodes + 1 > maxNodes then Bad
    else if t[0] == '{' then
      (if depth >= MAX_DEPTH then Bad else ParseObject(t[1..], depth + 1, nodes + 1, maxNodes))
    else if t[0] == '[' then
      (if depth >= MAX_DEPTH then Bad else ParseArray(t[1..], depth + 1, nodes + 1, maxNodes))
    else if t[0] == '\"' then
      match ParseString(t)
      case None => Bad
      case Some((str, rest)) => Good(String(str), rest, nodes + 1)
    else if t[0] == 't' then (if HasPrefix(t, "true") then Good(Bool(true), t[4..], nodes + 1) else Bad)
    else if t[0] == 'f' then (if HasPrefix(t, "false") then Good(Bool(false), t[5..], nodes + 1) else Bad)
    else if t[0] == 'n' then (if HasPrefix(t, "null") then Good(Null, t[4..], nodes + 1) else Bad)
    else
      match SkipNumber(t)
      case None => Bad
      case Some(rest) => Good(Number(DecimalValue(t[..|t| - |rest|])), rest, nodes + 1)
  }

  /** An object after its opening brace. */
  function ParseObject(s: string, depth: nat, nodes: nat, maxNodes: nat): (r: Parsed<Value>)
    requires depth <= MAX_DEPTH
    ensures r.Good? ==> |r.rest| < |s|
    decreases MAX_DEPTH - depth, |s|, 2
  {
    var u := SkipWs(s);
    if StartsWith(u, '}') then Good(Object([]), u[1..], nodes)
    else
      match ParseMembers(u, [], depth, nodes, maxNodes)
      case Bad => Bad
      case Good(ms, rest, n) => Good(Object(ms), rest, n)
  }

  /** An array after its opening bracket. */
  function ParseArray(s: string, depth: nat, nodes: nat, maxNodes: nat): (r: Parsed<Value>)
    requires depth <= MAX_DEPTH
    ensures r.Good? ==> |r.rest| < |s|
    decreases MAX_DEPTH - depth, |s|, 2
  {
    var u := SkipWs(s);
    if StartsWith(u, ']') then Good(Array([]), u[1..], nodes)
    else
      match ParseElements(u, [], depth, nodes, maxNodes)
      case Bad => Bad
      case Good(es, rest, n) => Good(Array(es), rest, n)
  }

  /** The elements of an array from the next one on, after those in `done`. */
  function ParseElements(s: string, done: seq<Value>, depth: nat, nodes: nat, maxNodes: nat): (r: Parsed<seq<Value>>)
    requires depth <= MAX_DEPTH
    ensures r.Good? ==> |r.rest| < |s|
    decreases MAX_DEPTH - depth, |s|, 1
  {
    match ParseValue(s, depth, nodes, maxNodes)
    case Bad => Bad
    case Good(v, rest, n) =>
      var t := SkipWs(rest);
      if StartsWith(t, ',') then ParseElements(t[1..], done + [v], depth, n, maxNodes)
      else if StartsWith(t, ']') then Good(done + [v], t[1..], n)
      else Bad
  }

  /** The members of an object from the next key on; a repeated key keeps its position and takes the last value. */
  function ParseMembers(s: string, done: seq<Member>, depth: nat, nodes: nat, maxNodes: nat): (r: Parsed<seq<Member>>)
    requires depth <= MAX_DEPTH
    ensures r.Good? ==> |r.rest| < |s|
    decreases MAX_DEPTH - depth, |s|, 1
  {
    match ParseString(SkipWs(s))
    case None => Bad
    case Some((key, afterKey)) =>
      var t := SkipWs(afterKey);
      if !StartsWith(t, ':') then Bad
      else
        match ParseValue(t[1..], depth, nodes, maxNodes)
        case Bad => Bad
        case Good(v, rest, n) =>
          var u := SkipWs(rest);
          if StartsWith(u, ',') then ParseMembers(u[1..], SetIn(done, key, v), depth, n, maxNodes)
          else if StartsWith(u, '}') then Good(SetIn(done, key, v), u[1..], n)
          else Bad
  }

  /** A whole document: one value, white space, nothing else, within the caps. */
  function Parse(text: string, limits: ParseLimits): Option<Value> {
    if |text| > limits.maxInputBytes then None
    else
      match ParseValue(text, 0, 0, limits.maxNodes)
      case Bad => None
      case Good(v, rest, _) => if SkipWs(rest) == "" then Some(v) else None
  }
}
