/**
 Parsing what was printed (cpp/update_flow_core/flow_json.cpp): for every value within the
 parser's caps, Parse(Stringify(v)) is v as it exists on the wire.
 */
module JsonRoundTrip {
  import opened FlowJson
  import opened JsonText
  import opened Wrappers
  import JsonNumbers

  // ----- what a value looks like on the wire ------------------------------------

  /** Undefined members are dropped and undefined elements become null, as in JSON.stringify. */
  function Wire(v: Value): Value
    decreases v, 0
  {
    match v
    case Undefined => Null
    case Array(es) => Array(WireElements(es))
    case Object(ms) => Object(WireMembers(ms))
    case _ => v
  }

  function WireElements(es: seq<Value>): (r: seq<Value>)
    ensures |r| == |es|
    ensures forall i :: 0 <= i < |es| ==> r[i] == Wire(es[i])
    decreases es, 1
  {
    if es == [] then [] else [Wire(es[0])] + WireElements(es[1..])
  }

  function WireMembers(ms: seq<Member>): (r: seq<Member>)
    ensures |r| <= |ms|
    decreases ms, 1
  {
    if ms == [] then []
    else if ms[0].value.Undefined? then WireMembers(ms[1..])
    else [Member(ms[0].key, Wire(ms[0].value))] + WireMembers(ms[1..])
  }

  /** No undefined anywhere. */
  predicate Defined(v: Value) {
    match v
    case Undefined => false
    case Array(es) => forall i :: 0 <= i < |es| ==> Defined(es[i])
    case Object(ms) => forall i :: 0 <= i < |ms| ==> Defined(ms[i].value)
    case _ => true
  }

  /** Nested at most `room` levels deep. */
  predicate FitsDepth(v: Value, room: nat) {
    match v
    case Array(es) => room > 0 && forall i :: 0 <= i < |es| ==> FitsDepth(es[i], room - 1)
    case Object(ms) => room > 0 && forall i :: 0 <= i < |ms| ==> FitsDepth(ms[i].value, room - 1)
    case _ => true
  }

  function NodeCount(v: Value): (n: nat)
    ensures n > 0
    decreases v, 0
  {
    match v
    case Array(es) => 1 + ElementNodes(es)
    case Object(ms) => 1 + MemberNodes(ms)
    case _ => 1
  }

  function ElementNodes(es: seq<Value>): nat
    decreases es, 1
  {
    if es == [] then 0 else NodeCount(es[0]) + ElementNodes(es[1..])
  }

  function MemberNodes(ms: seq<Member>): nat
    decreases ms, 1
  {
    if ms == [] then 0 else NodeCount(ms[0].value) + MemberNodes(ms[1..])
  }

  // ----- strings -----------------------------------------------------------------

  lemma {:induction false} HexDigitValue(d: nat)
    requires d < 16
    ensures HexValue(HexDigit(d)) == Some(d)
  {
  }

  lemma {:induction false} ControlEscape(c: char, t: string)
    requires c < ' '
    ensures UnicodeEscape("00" + [HexDigit(c as nat / 16), HexDigit(c as nat % 16)] + t) == Some((c as nat, t))
    ensures Utf8(c as nat) == [c]
  {
    var s := "00" + [HexDigit(c as nat / 16), HexDigit(c as nat % 16)] + t;
    HexDigitValue(0);
    HexDigitValue(c as nat / 16);
    HexDigitValue(c as nat % 16);
    assert s[0] == '0' && s[1] == '0' && s[2] == HexDigit(c as nat / 16) && s[3] == HexDigit(c as nat % 16);
    assert HexValue('0') == Some(0);
    assert Hex4(s) == Some(c as nat);
    assert s[4..] == t;
  }

  lemma {:induction false} PlainCharParses(c: char, t: string)
    requires c != '\"' && c != '\\'
    ensures ParseStringBody([c] + t) == JsonText.Cons([c], ParseStringBody(t))
  {
    assert ([c] + t)[1..] == t;
  }

  lemma {:induction false} SimpleEscapeParses(e: char, c: char, t: string)
    requires e != 'u' && SimpleEscape(e) == Some(c)
    ensures ParseStringBody(['\\', e] + t) == JsonText.Cons([c], ParseStringBody(t))
  {
    hide SimpleEscape, UnicodeEscape, Utf8;
    assert (['\\', e] + t)[2..] == t;
  }

  lemma {:induction false} ControlCharParses(c: char, t: string)
    requires c < ' '
    ensures ParseStringBody("\\u00" + [HexDigit(c as nat / 16), HexDigit(c as nat % 16)] + t) ==
            JsonText.Cons([c], ParseStringBody(t))
  {
    hide SimpleEscape, UnicodeEscape, Utf8, HexDigit;
    ControlEscape(c, t);
    var hex := "00" + [HexDigit(c as nat / 16), HexDigit(c as nat % 16)] + t;
    var s := "\\u00" + [HexDigit(c as nat / 16), HexDigit(c as nat % 16)] + t;
    assert s[0] == '\\' && s[1] == 'u' && s[2..] == hex;
  }

  lemma {:induction false} EscapedCharParses(c: char, t: string)
    ensures ParseStringBody(EscapedChar(c) + t) == JsonText.Cons([c], ParseStringBody(t))
  {
    hide ParseStringBody, JsonText.Cons;
    var e := EscapedChar(c);
    if |e| == 1 {
      PlainCharParses(c, t);
    } else if |e| == 2 {
      assert e == ['\\', e[1]];
      SimpleEscapeParses(e[1], c, t);
    } else {
      ControlCharParses(c, t);
    }
  }

  lemma {:induction false} EscapedParses(s: string, k: string)
    ensures ParseStringBody(Escaped(s) + "\"" + k) == Some((s, k))
    decreases |s|
  {
    if s == "" {
      assert Escaped(s) + "\"" + k == "\"" + k;
      assert ("\"" + k)[1..] == k;
    } else {
      var t := Escaped(s[1..]) + "\"" + k;
      assert Escaped(s) + "\"" + k == EscapedChar(s[0]) + t;
      EscapedCharParses(s[0], t);
      EscapedParses(s[1..], k);
      assert s == [s[0]] + s[1..];
    }
  }

  lemma {:induction false} QuotedParses(s: string, k: string)
    ensures ParseString(Quoted(s) + k) == Some((s, k))
  {
    hide ParseStringBody, Escaped;
    EscapedParses(s, k);
    assert Quoted(s) + k == ['\"'] + (Escaped(s) + "\"" + k);
  }

  // ----- integers ------------------------------------------------------------------

  /** Text that can follow a value: nothing, a separator or a closing bracket. */
  predicate Terminates(k: string) {
    k == "" || k[0] == ',' || k[0] == ']' || k[0] == '}'
  }

  lemma IntegerSkipped(n: int, k: string)
    requires Terminates(k)
    ensures SkipNumber(PrintInteger(n) + k) == Some(k)
  {
    hide PrintInteger, SkipNumber;
    var t := JsonNumbers.IntegerToken(n);
    assert JsonNumbers.Stops(t, k);
    JsonNumbers.TokenIsScanned(t, k);
  }

  lemma {:induction false} DigitsNumeral(n: nat)
    ensures JsonNumbers.AllDigits(Digits(n)) && JsonNumbers.Numeral(0, Digits(n)) == n
  {
    JsonNumbers.PrintedDigits(n);
    JsonNumbers.DigitIs(n % 10);
    var last := [DigitChar(n % 10)];
    assert last[1..] == "" && last[0] as nat - '0' as nat == n % 10;
    if n >= 10 {
      DigitsNumeral(n / 10);
      JsonNumbers.NumeralSplit(0, Digits(n / 10), last);
    }
  }

  lemma IntegerValue(n: int)
    requires -MAX_SAFE <= n <= MAX_SAFE
    ensures DecimalValue(PrintInteger(n)) == n as real
  {
    hide DecimalValue, Digits, PrintInteger;
    var t := JsonNumbers.IntegerToken(n);
    DigitsNumeral(if n < 0 then -n else n);
    assert t.whole + JsonNumbers.FractionDigits(t) == t.whole;
    MaxSafeIsShort();
    JsonNumbers.TokenValue(t);
    assert Pow10(0) == 1.0;
  }

  lemma MaxSafeIsShort()
    ensures MAX_SAFE < JsonNumbers.PowerOfTen(19)
  {
    assert JsonNumbers.PowerOfTen(4) == 10000;
    assert JsonNumbers.PowerOfTen(8) == 100000000;
    assert JsonNumbers.PowerOfTen(12) == 1000000000000;
    assert JsonNumbers.PowerOfTen(16) == 10000000000000000;
    JsonNumbers.PowersGrow(16, 19);
  }

  // ----- values --------------------------------------------------------------------

  /** Printing only sees the wire form. */
  lemma {:induction false} WireFacts(v: Value)
    requires SafeNumbers(v)
    ensures SafeNumbers(Wire(v)) && Defined(Wire(v))
    ensures Print(v) == Print(Wire(v))
    decreases v, 0
  {
    match v {
      case Array(es) => WireElementsFacts(es, true);
      case Object(ms) => WireMembersFacts(ms, true);
      case _ =>
    }
  }

  lemma {:induction false} WireElementsFacts(es: seq<Value>, first: bool)
    requires forall i :: 0 <= i < |es| ==> SafeNumbers(es[i])
    ensures forall i :: 0 <= i < |es| ==> SafeNumbers(WireElements(es)[i]) && Defined(WireElements(es)[i])
    ensures PrintElements(es, first) == PrintElements(WireElements(es), first)
    decreases es, 1
  {
    if es != [] {
      WireFacts(es[0]);
      WireElementsFacts(es[1..], false);
      var ws := WireElements(es);
      assert ws[1..] == WireElements(es[1..]);
      forall i | 0 <= i < |es|
        ensures SafeNumbers(ws[i]) && Defined(ws[i])
      {
        if i > 0 {
          assert ws[i] == WireElements(es[1..])[i - 1];
        }
      }
    }
  }

  lemma {:induction false} WireMembersFacts(ms: seq<Member>, first: bool)
    requires forall i :: 0 <= i < |ms| ==> SafeNumbers(ms[i].value)
    ensures forall i :: 0 <= i < |WireMembers(ms)| ==>
              SafeNumbers(WireMembers(ms)[i].value) && Defined(WireMembers(ms)[i].value)
    ensures PrintMembers(ms, first) == PrintMembers(WireMembers(ms), first)
    decreases ms, 1
  {
    if ms != [] {
      var ws, rest := WireMembers(ms), WireMembers(ms[1..]);
      if ms[0].value.Undefined? {
        WireMembersFacts(ms[1..], first);
      } else {
        WireFacts(ms[0].value);
        WireMembersFacts(ms[1..], false);
        assert ws[1..] == rest && ws[0] == Member(ms[0].key, Wire(ms[0].value));
        forall i | 0 <= i < |ws|
          ensures SafeNumbers(ws[i].value) && Defined(ws[i].value)
        {
          if i > 0 {
            assert ws[i] == rest[i - 1];
          }
        }
      }
    }
  }

  lemma {:induction false} WireKeys(ms: seq<Member>)
    requires DistinctKeys(ms)
    ensures DistinctKeys(WireMembers(ms))
    ensures forall m :: m in WireMembers(ms) ==> exists i :: 0 <= i < |ms| && ms[i].key == m.key
    decreases |ms|
  {
    if ms != [] {
      var rest := ms[1..];
      assert DistinctKeys(rest) by {
        forall i, j | 0 <= i < j < |rest| ensures rest[i].key != rest[j].key {
          assert ms[i + 1].key != ms[j + 1].key;
        }
      }
      WireKeys(rest);
      var ws := WireMembers(ms);
      forall m | m in ws
        ensures exists i :: 0 <= i < |ms| && ms[i].key == m.key
      {
        if m in WireMembers(rest) {
          var i :| 0 <= i < |rest| && rest[i].key == m.key;
          assert ms[i + 1].key == m.key;
        } else {
          assert ms[0].key == m.key;
        }
      }
      if !ms[0].value.Undefined? {
        forall j | 0 < j < |ws|
          ensures ws[0].key != ws[j].key
        {
          assert ws[j] == WireMembers(rest)[j - 1] && ws[j] in WireMembers(rest);
          var i :| 0 <= i < |rest| && rest[i].key == ws[j].key;
          assert ms[0].key != ms[i + 1].key;
        }
      }
    }
  }

  /** No value starts with white space or a closing bracket, so the parser dispatches on its first character. */
  lemma {:induction false} PrintHead(v: Value, k: string)
    requires SafeNumbers(v)
    ensures Print(v) != "" && SkipWs(Print(v) + k) == Print(v) + k
    ensures Print(v)[0] != ']' && Print(v)[0] != '}'
    ensures v.Number? ==> Print(v)[0] == '-' || IsDigit(Print(v)[0])
  {
    if v.Number? {
      JsonNumbers.PrintedDigits(if v.n.Floor < 0 then -v.n.Floor else v.n.Floor);
    }
    assert (Print(v) + k)[0] == Print(v)[0];
  }

  lemma {:induction false} HeadTail(c: char, t: string)
    ensures ([c] + t)[0] == c && ([c] + t)[1..] == t
  {
  }

  lemma {:induction false} NoSkip(t: string)
    requires t != "" && !IsWs(t[0])
    ensures SkipWs(t) == t
  {
  }

  lemma {:induction false} Reassociate(a: string, b: string, c: string, d: string)
    ensures (a + b) + c + d == a + (b + c + d)
    ensures (a + b) + c + d == a + (b + (c + d))
  {
  }

  lemma {:induction false} ElementsSplit(es: seq<Value>)
    requires es != [] && forall i :: 0 <= i < |es| ==> SafeNumbers(es[i])
    ensures PrintElements(es, true) == Print(es[0]) + PrintElements(es[1..], false)
    ensures PrintElements(es, false) == [','] + PrintElements(es, true)
  {
    hide Print, SafeNumbers;
    var p, r := Print(es[0]), PrintElements(es[1..], false);
    assert PrintElements(es, true) == "" + p + r;
    assert PrintElements(es, false) == "," + p + r;
    assert "" + p + r == p + r && "," + p + r == [','] + (p + r);
  }

  lemma {:induction false} MembersSplit(ms: seq<Member>)
    requires ms != [] && forall i :: 0 <= i < |ms| ==> SafeNumbers(ms[i].value)
    requires !ms[0].value.Undefined?
    ensures PrintMembers(ms, true) ==
            Quoted(ms[0].key) + ([':'] + (Print(ms[0].value) + PrintMembers(ms[1..], false)))
    ensures PrintMembers(ms, false) == [','] + PrintMembers(ms, true)
  {
    hide Print, SafeNumbers, Quoted;
    var q, p, r := Quoted(ms[0].key), Print(ms[0].value), PrintMembers(ms[1..], false);
    assert PrintMembers(ms, true) == "" + q + ":" + p + r;
    assert PrintMembers(ms, false) == "," + q + ":" + p + r;
    assert "" + q + ":" + p + r == q + ([':'] + (p + r));
    assert "," + q + ":" + p + r == [','] + (q + ([':'] + (p + r)));
  }

  /** What follows an element: a comma and the next one, or the closing bracket. */
  lemma {:induction false} ElementsTail(es: seq<Value>, k: string)
    requires forall i :: 0 <= i < |es| ==> SafeNumbers(es[i])
    ensures PrintElements(es, false) + "]" + k ==
            if es == [] then [']'] + k else [','] + (PrintElements(es, true) + "]" + k)
  {
    hide Print, SafeNumbers;
    if es != [] {
      ElementsSplit(es);
      Reassociate([','], PrintElements(es, true), "]", k);
    }
  }

  lemma {:induction false} MembersTail(ms: seq<Member>, k: string)
    requires forall i :: 0 <= i < |ms| ==> SafeNumbers(ms[i].value) && !ms[i].value.Undefined?
    ensures PrintMembers(ms, false) + "}" + k ==
            if ms == [] then ['}'] + k else [','] + (PrintMembers(ms, true) + "}" + k)
  {
    hide Print, SafeNumbers, Quoted;
    if ms != [] {
      MembersSplit(ms);
      Reassociate([','], PrintMembers(ms, true), "}", k);
    }
  }

  lemma {:induction false} ValueRoundTrip(v: Value, k: string, depth: nat, nodes: nat, max: nat)
    requires Terminates(k) && depth <= MAX_DEPTH && Readable(v, MAX_DEPTH - depth) && nodes + NodeCount(v) <= max
    ensures ParseValue(Print(v) + k, depth, nodes, max) == Good(v, k, nodes + NodeCount(v))
    decreases v, 0
  {
    PrintHead(v, k);
    match v {
      case Null => assert HasPrefix("null" + k, "null") && ("null" + k)[4..] == k;
      case Bool(b) =>
        assert b ==> HasPrefix("true" + k, "true") && ("true" + k)[4..] == k;
        assert !b ==> HasPrefix("false" + k, "false") && ("false" + k)[5..] == k;
      case Number(n) =>
        NumberRoundTrip(n, k, depth, nodes, max);
      case String(s) =>
        QuotedParses(s, k);
      case Array(es) => ArrayRoundTrip(es, k, depth, nodes, max);
      case Object(ms) => ObjectRoundTrip(ms, k, depth, nodes, max);
    }
  }

  lemma {:induction false} NumberRoundTrip(n: real, k: string, depth: nat, nodes: nat, max: nat)
    requires SafeInteger(n) && Terminates(k) && depth <= MAX_DEPTH && nodes + 1 <= max
    ensures ParseValue(Print(Number(n)) + k, depth, nodes, max) == Good(Number(n), k, nodes + 1)
  {
    hide PrintInteger, SkipNumber, DecimalValue;
    var p := PrintInteger(n.Floor);
    PrintHead(Number(n), k);
    IntegerSkipped(n.Floor, k);
    IntegerValue(n.Floor);
    assert (p + k)[..|p + k| - |k|] == p;
  }

  lemma {:induction false} ArrayRoundTrip(es: seq<Value>, k: string, depth: nat, nodes: nat, max: nat)
    requires Terminates(k) && depth <= MAX_DEPTH && Readable(Array(es), MAX_DEPTH - depth) && nodes + NodeCount(Array(es)) <= max
    ensures ParseValue(Print(Array(es)) + k, depth, nodes, max) == Good(Array(es), k, nodes + NodeCount(Array(es)))
    decreases es, 2
  {
    hide ParseValue, ParseElements, PrintElements, Print, Readable;
    ArrayReadable(es, MAX_DEPTH - depth);
    ArrayText(es, k);
    var u := PrintElements(es, true) + "]" + k;
    if es == [] {
      EmptyElements(k);
      EmptyArrayParses(u, k, depth, nodes, max);
    } else {
      ElementsBracketed(es, k);
      ElementsRoundTrip(es, [], k, depth + 1, nodes + 1, max);
      assert [] + es == es;
      ArrayParses(u, es, k, depth, nodes, nodes + NodeCount(Array(es)), max);
    }
  }

  lemma {:induction false} EmptyElements(k: string)
    ensures var u := PrintElements([], true) + "]" + k; u != "" && u[0] == ']' && u[1..] == k
  {
    assert PrintElements([], true) + "]" + k == [']'] + k;
  }

  lemma {:induction false} EmptyMembers(k: string)
    ensures var u := PrintMembers([], true) + "}" + k; u != "" && u[0] == '}' && u[1..] == k
  {
    assert PrintMembers([], true) + "}" + k == ['}'] + k;
  }

  lemma {:induction false} ElementsBracketed(es: seq<Value>, k: string)
    requires es != [] && forall i :: 0 <= i < |es| ==> SafeNumbers(es[i])
    ensures var u := PrintElements(es, true) + "]" + k; SkipWs(u) == u && !StartsWith(u, ']')
  {
    hide Print, PrintElements, SkipWs, SafeNumbers;
    var p, t := Print(es[0]), PrintElements(es[1..], false) + "]" + k;
    ElementsSplit(es);
    Reassociate(p, PrintElements(es[1..], false), "]", k);
    PrintHead(es[0], t);
    assert (p + t)[0] == p[0];
  }

  lemma {:induction false} ArrayText(es: seq<Value>, k: string)
    requires SafeNumbers(Array(es))
    ensures Print(Array(es)) + k == ['['] + (PrintElements(es, true) + "]" + k)
  {
    Reassociate("[", PrintElements(es, true), "]", k);
  }

  lemma {:induction false} EmptyArrayParses(u: string, k: string, depth: nat, nodes: nat, max: nat)
    requires depth < MAX_DEPTH && nodes + 1 <= max && u != "" && u[0] == ']' && u[1..] == k
    ensures ParseValue(['['] + u, depth, nodes, max) == Good(Array([]), k, nodes + 1)
  {
    hide ParseString, SkipNumber, DecimalValue, HasPrefix;
    HeadTail('[', u);
  }

  lemma {:induction false} ArrayParses(u: string, es: seq<Value>, k: string, depth: nat, nodes: nat, n: nat, max: nat)
    requires depth < MAX_DEPTH && nodes + 1 <= max && SkipWs(u) == u && !StartsWith(u, ']')
    requires ParseElements(u, [], depth + 1, nodes + 1, max) == Good(es, k, n)
    ensures ParseValue(['['] + u, depth, nodes, max) == Good(Array(es), k, n)
  {
    hide ParseString, SkipNumber, DecimalValue, HasPrefix, ParseElements;
    HeadTail('[', u);
  }

  lemma {:induction false} EmptyObjectParses(u: string, k: string, depth: nat, nodes: nat, max: nat)
    requires depth < MAX_DEPTH && nodes + 1 <= max && u != "" && u[0] == '}' && u[1..] == k
    ensures ParseValue(['{'] + u, depth, nodes, max) == Good(Object([]), k, nodes + 1)
  {
    hide ParseString, SkipNumber, DecimalValue, HasPrefix;
    HeadTail('{', u);
  }

  lemma {:induction false} ObjectParses(u: string, ms: seq<Member>, k: string, depth: nat, nodes: nat, n: nat, max: nat)
    requires depth < MAX_DEPTH && nodes + 1 <= max && SkipWs(u) == u && !StartsWith(u, '}')
    requires ParseMembers(u, [], depth + 1, nodes + 1, max) == Good(ms, k, n)
    ensures ParseValue(['{'] + u, depth, nodes, max) == Good(Object(ms), k, n)
  {
    hide ParseString, SkipNumber, DecimalValue, HasPrefix, ParseMembers;
    HeadTail('{', u);
  }

  lemma {:induction false} FirstAndRest<T>(done: seq<T>, xs: seq<T>)
    requires xs != []
    ensures xs == [xs[0]] + xs[1..]
    ensures (done + [xs[0]]) + xs[1..] == done + xs
    ensures |xs| == 1 ==> done + [xs[0]] == done + xs
  {
  }

  lemma {:induction false} ArrayReadable(es: seq<Value>, room: nat)
    requires Readable(Array(es), room)
    ensures room > 0 && forall i :: 0 <= i < |es| ==> SafeNumbers(es[i]) && Readable(es[i], room - 1)
  {
  }

  lemma {:induction false} ObjectReadable(ms: seq<Member>, room: nat)
    requires Readable(Object(ms), room)
    ensures room > 0 && DistinctKeys(ms)
    ensures forall i :: 0 <= i < |ms| ==>
              SafeNumbers(ms[i].value) && Defined(ms[i].value) && Readable(ms[i].value, room - 1)
  {
  }

  lemma {:induction false} LastElement(
    s: string, e: Value, done: seq<Value>, k: string, depth: nat, nodes: nat, n: nat, max: nat)
    requires depth <= MAX_DEPTH && ParseValue(s, depth, nodes, max) == Good(e, [']'] + k, n)
    ensures ParseElements(s, done, depth, nodes, max) == Good(done + [e], k, n)
  {
    hide ParseValue;
    HeadTail(']', k);
    NoSkip([']'] + k);
  }

  lemma {:induction false} MoreElements(
    s: string, e: Value, done: seq<Value>, t: string, depth: nat, nodes: nat, n: nat, max: nat)
    requires depth <= MAX_DEPTH && ParseValue(s, depth, nodes, max) == Good(e, [','] + t, n)
    ensures ParseElements(s, done, depth, nodes, max) == ParseElements(t, done + [e], depth, n, max)
  {
    hide ParseValue;
    HeadTail(',', t);
    NoSkip([','] + t);
  }

  /** A value the parser can read back with `room` nesting levels left. */
  predicate Readable(v: Value, room: nat) {
    SafeNumbers(v) && Defined(v) && WellFormed(v) && FitsDepth(v, room)
  }

  lemma {:induction false} ElementsTailEnds(es: seq<Value>, k: string)
    requires forall i :: 0 <= i < |es| ==> SafeNumbers(es[i])
    ensures Terminates(PrintElements(es, false) + "]" + k)
  {
    hide Print, PrintElements, SafeNumbers;
    ElementsTail(es, k);
  }

  lemma {:induction false} ElementsRoundTrip(
    es: seq<Value>, done: seq<Value>, k: string, depth: nat, nodes: nat, max: nat)
    requires es != [] && Terminates(k) && depth <= MAX_DEPTH && nodes + ElementNodes(es) <= max
    requires forall i :: 0 <= i < |es| ==> SafeNumbers(es[i]) && Readable(es[i], MAX_DEPTH - depth)
    ensures ParseElements(PrintElements(es, true) + "]" + k, done, depth, nodes, max) ==
            Good(done + es, k, nodes + ElementNodes(es))
    decreases es, 1
  {
    hide ParseValue, ParseElements, Print, PrintElements, Readable, SafeNumbers, Terminates, NodeCount;
    var t := PrintElements(es[1..], false) + "]" + k;
    var s := PrintElements(es, true) + "]" + k;
    var n := nodes + NodeCount(es[0]);
    FirstAndRest(done, es);
    ElementsSplit(es);
    Reassociate(Print(es[0]), PrintElements(es[1..], false), "]", k);
    ElementsTail(es[1..], k);
    ElementsTailEnds(es[1..], k);
    ValueRoundTrip(es[0], t, depth, nodes, max);
    if |es| == 1 {
      LastElement(s, es[0], done, k, depth, nodes, n, max);
    } else {
      var t' := PrintElements(es[1..], true) + "]" + k;
      MoreElements(s, es[0], done, t', depth, nodes, n, max);
      ElementsRoundTrip(es[1..], done + [es[0]], k, depth, n, max);
    }
  }

  lemma {:induction false} ObjectRoundTrip(ms: seq<Member>, k: string, depth: nat, nodes: nat, max: nat)
    requires Terminates(k) && depth <= MAX_DEPTH && Readable(Object(ms), MAX_DEPTH - depth) && nodes + NodeCount(Object(ms)) <= max
    ensures ParseValue(Print(Object(ms)) + k, depth, nodes, max) == Good(Object(ms), k, nodes + NodeCount(Object(ms)))
    decreases ms, 2
  {
    hide ParseValue, ParseMembers, PrintMembers, Print, Readable, DistinctKeys;
    ObjectReadable(ms, MAX_DEPTH - depth);
    ObjectText(ms, k);
    var u := PrintMembers(ms, true) + "}" + k;
    if ms == [] {
      EmptyMembers(k);
      EmptyObjectParses(u, k, depth, nodes, max);
    } else {
      MembersBracketed(ms, k);
      assert [] + ms == ms;
      MembersRoundTrip(ms, [], k, depth + 1, nodes + 1, max);
      ObjectParses(u, ms, k, depth, nodes, nodes + NodeCount(Object(ms)), max);
    }
  }

  lemma {:induction false} ObjectText(ms: seq<Member>, k: string)
    requires SafeNumbers(Object(ms))
    ensures Print(Object(ms)) + k == ['{'] + (PrintMembers(ms, true) + "}" + k)
  {
    Reassociate("{", PrintMembers(ms, true), "}", k);
  }

  lemma {:induction false} MembersBracketed(ms: seq<Member>, k: string)
    requires ms != [] && forall i :: 0 <= i < |ms| ==> SafeNumbers(ms[i].value) && Defined(ms[i].value)
    ensures var u := PrintMembers(ms, true) + "}" + k; SkipWs(u) == u && !StartsWith(u, '}')
  {
    hide Print, Quoted, PrintMembers, SkipWs, Defined, SafeNumbers;
    MembersHead(ms, k);
    QuotedHead(ms[0].key, [':'] + (Print(ms[0].value) + (PrintMembers(ms[1..], false) + "}" + k)));
  }

  lemma {:induction false} MembersHead(ms: seq<Member>, k: string)
    requires ms != [] && forall i :: 0 <= i < |ms| ==> SafeNumbers(ms[i].value) && Defined(ms[i].value)
    ensures PrintMembers(ms, true) + "}" + k ==
            Quoted(ms[0].key) + ([':'] + (Print(ms[0].value) + (PrintMembers(ms[1..], false) + "}" + k)))
  {
    hide Print, Quoted, SafeNumbers;
    assert !ms[0].value.Undefined?;
    MembersSplit(ms);
    var q, p, r := Quoted(ms[0].key), Print(ms[0].value), PrintMembers(ms[1..], false);
    Reassociate(q, [':'] + (p + r), "}", k);
    Reassociate([':'], p + r, "}", k);
    Reassociate(p, r, "}", k);
  }

  lemma {:induction false} LastMember(
    key: string, v: string, value: Value, done: seq<Member>, k: string, depth: nat, nodes: nat, n: nat, max: nat)
    requires depth <= MAX_DEPTH && ParseValue(v, depth, nodes, max) == Good(value, ['}'] + k, n)
    ensures ParseMembers(Quoted(key) + ([':'] + v), done, depth, nodes, max) == Good(SetIn(done, key, value), k, n)
  {
    hide ParseValue, ParseString, Quoted, SetIn;
    QuotedHead(key, [':'] + v);
    QuotedParses(key, [':'] + v);
    HeadTail(':', v);
    NoSkip([':'] + v);
    HeadTail('}', k);
    NoSkip(['}'] + k);
  }

  lemma {:induction false} MoreMembers(
    key: string, v: string, value: Value, done: seq<Member>, t: string, depth: nat, nodes: nat, n: nat, max: nat)
    requires depth <= MAX_DEPTH && ParseValue(v, depth, nodes, max) == Good(value, [','] + t, n)
    ensures ParseMembers(Quoted(key) + ([':'] + v), done, depth, nodes, max) ==
            ParseMembers(t, SetIn(done, key, value), depth, n, max)
  {
    hide ParseValue, ParseString, Quoted, SetIn;
    QuotedHead(key, [':'] + v);
    QuotedParses(key, [':'] + v);
    HeadTail(':', v);
    NoSkip([':'] + v);
    HeadTail(',', t);
    NoSkip([','] + t);
  }

  lemma {:induction false} AllDefined(ms: seq<Member>, room: nat)
    requires forall i :: 0 <= i < |ms| ==> Readable(ms[i].value, room)
    ensures forall i :: 0 <= i < |ms| ==> Defined(ms[i].value) && !ms[i].value.Undefined?
  {
  }

  lemma {:induction false} MembersTailEnds(ms: seq<Member>, k: string)
    requires forall i :: 0 <= i < |ms| ==> SafeNumbers(ms[i].value) && !ms[i].value.Undefined?
    ensures Terminates(PrintMembers(ms, false) + "}" + k)
  {
    hide Print, PrintMembers, SafeNumbers;
    MembersTail(ms, k);
  }

  lemma {:induction false} MembersRoundTrip(
    ms: seq<Member>, done: seq<Member>, k: string, depth: nat, nodes: nat, max: nat)
    requires ms != [] && DistinctKeys(done + ms) && Terminates(k) && depth <= MAX_DEPTH && nodes + MemberNodes(ms) <= max
    requires forall i :: 0 <= i < |ms| ==> SafeNumbers(ms[i].value) && Readable(ms[i].value, MAX_DEPTH - depth)
    ensures ParseMembers(PrintMembers(ms, true) + "}" + k, done, depth, nodes, max) ==
            Good(done + ms, k, nodes + MemberNodes(ms))
    decreases ms, 1
  {
    hide ParseValue, ParseMembers, Quoted, SetIn, Print, PrintMembers, DistinctKeys, Terminates, SafeNumbers, NodeCount;
    AllDefined(ms, MAX_DEPTH - depth);
    hide Readable;
    var m, t := ms[0], PrintMembers(ms[1..], false) + "}" + k;
    var n := nodes + NodeCount(m.value);
    MembersHead(ms, k);
    FirstAndRest(done, ms);
    MembersTail(ms[1..], k);
    MembersTailEnds(ms[1..], k);
    ValueRoundTrip(m.value, t, depth, nodes, max);
    SetNewKey(done, m, ms[1..]);
    if |ms| == 1 {
      LastMember(m.key, Print(m.value) + t, m.value, done, k, depth, nodes, n, max);
    } else {
      MoreMembers(m.key, Print(m.value) + t, m.value, done, PrintMembers(ms[1..], true) + "}" + k, depth, nodes, n, max);
      MembersRoundTrip(ms[1..], done + [m], k, depth, n, max);
    }
  }

  lemma {:induction false} QuotedHead(s: string, k: string)
    ensures SkipWs(Quoted(s) + k) == Quoted(s) + k && (Quoted(s) + k)[0] == '\"'
  {
    hide Escaped;
    NoSkip(Quoted(s) + k);
  }

  lemma {:induction false} SetNewKey(done: seq<Member>, m: Member, rest: seq<Member>)
    requires DistinctKeys(done + ([m] + rest))
    ensures SetIn(done, m.key, m.value) == done + [m]
  {
    var all := done + ([m] + rest);
    forall j | 0 <= j < |done|
      ensures done[j].key != m.key
    {
      assert all[j].key != all[|done|].key;
    }
    IndexIs(done, m.key, |done|);
  }

  lemma {:induction false} WireWellFormed(v: Value)
    requires WellFormed(v)
    ensures WellFormed(Wire(v))
    decreases v, 0
  {
    match v {
      case Array(es) =>
        forall i | 0 <= i < |es| ensures WellFormed(WireElements(es)[i]) {
          WireWellFormed(es[i]);
        }
      case Object(ms) =>
        WireKeys(ms);
        WireMembersWellFormed(ms);
      case _ =>
    }
  }

  lemma {:induction false} WireMembersWellFormed(ms: seq<Member>)
    requires forall i :: 0 <= i < |ms| ==> WellFormed(ms[i].value)
    ensures forall i :: 0 <= i < |WireMembers(ms)| ==> WellFormed(WireMembers(ms)[i].value)
    decreases ms, 1
  {
    if ms != [] {
      WireWellFormed(ms[0].value);
      WireMembersWellFormed(ms[1..]);
    }
  }

  /**
   Main result: parsing the printed text gives back the value as it is on the wire, for every
   value with distinct keys and safe integers that stays within the caps.
   */
  lemma {:induction false} RoundTrip(v: Value, limits: ParseLimits)
    requires WellFormed(v) && SafeNumbers(v) && !v.Undefined?
    requires FitsDepth(Wire(v), MAX_DEPTH) && NodeCount(Wire(v)) <= limits.maxNodes
    requires |Stringify(v)| <= limits.maxInputBytes
    ensures Parse(Stringify(v), limits) == Some(Wire(v))
  {
    hide ParseValue, Wire;
    WireFacts(v);
    WireWellFormed(v);
    ValueRoundTrip(Wire(v), "", 0, 0, limits.maxNodes);
    assert Print(v) + "" == Print(v);
  }

  /** Without undefined, the value itself comes back. */
  lemma {:induction false} WireOfDefined(v: Value)
    requires Defined(v)
    ensures Wire(v) == v
    decreases v, 0
  {
    match v {
      case Array(es) =>
        forall i | 0 <= i < |es| ensures WireElements(es)[i] == es[i] {
          WireOfDefined(es[i]);
        }
      case Object(ms) => WireMembersOfDefined(ms);
      case _ =>
    }
  }

  lemma {:induction false} WireMembersOfDefined(ms: seq<Member>)
    requires forall i :: 0 <= i < |ms| ==> Defined(ms[i].value)
    ensures WireMembers(ms) == ms
    decreases ms, 1
  {
    if ms != [] {
      WireOfDefined(ms[0].value);
      WireMembersOfDefined(ms[1..]);
    }
  }

  // ----- what any accepted text yields ------------------------------------------

  /** The model's invariant on parsed values: distinct keys at every level and no undefined. */
  predicate Sound(v: Value) {
    WellFormed(v) && Defined(v)
  }

  lemma {:induction false} ParsedValueIsSound(s: string, depth: nat, nodes: nat, max: nat)
    requires depth <= MAX_DEPTH && ParseValue(s, depth, nodes, max).Good?
    ensures Sound(ParseValue(s, depth, nodes, max).value)
    decreases MAX_DEPTH - depth, |s|, 0
  {
    hide ParseString, SkipNumber, DecimalValue, ParseMembers, ParseElements, HasPrefix;
    var t := SkipWs(s);
    if t[0] == '{' {
      var u := SkipWs(t[1..]);
      if !StartsWith(u, '}') {
        ParsedMembersAreSound(u, [], depth + 1, nodes + 1, max);
      }
    } else if t[0] == '[' {
      var u := SkipWs(t[1..]);
      if !StartsWith(u, ']') {
        ParsedElementsAreSound(u, [], depth + 1, nodes + 1, max);
      }
    }
  }

  lemma {:induction false} ParsedElementsAreSound(s: string, done: seq<Value>, depth: nat, nodes: nat, max: nat)
    requires depth <= MAX_DEPTH && ParseElements(s, done, depth, nodes, max).Good?
    requires forall i :: 0 <= i < |done| ==> Sound(done[i])
    ensures var es := ParseElements(s, done, depth, nodes, max).value; forall i :: 0 <= i < |es| ==> Sound(es[i])
    decreases MAX_DEPTH - depth, |s|, 1
  {
    hide ParseValue, Sound;
    ParsedValueIsSound(s, depth, nodes, max);
    var r := ParseValue(s, depth, nodes, max);
    var t := SkipWs(r.rest);
    if StartsWith(t, ',') {
      ParsedElementsAreSound(t[1..], done + [r.value], depth, r.nodes, max);
    }
  }

  lemma {:induction false} ParsedMembersAreSound(s: string, done: seq<Member>, depth: nat, nodes: nat, max: nat)
    requires depth <= MAX_DEPTH && ParseMembers(s, done, depth, nodes, max).Good?
    requires DistinctKeys(done) && forall i :: 0 <= i < |done| ==> Sound(done[i].value)
    ensures var ms := ParseMembers(s, done, depth, nodes, max).value;
            DistinctKeys(ms) && forall i :: 0 <= i < |ms| ==> Sound(ms[i].value)
    decreases MAX_DEPTH - depth, |s|, 1
  {
    hide ParseValue, ParseString, Sound;
    var (key, afterKey) := ParseString(SkipWs(s)).value;
    var t := SkipWs(afterKey);
    ParsedValueIsSound(t[1..], depth, nodes, max);
    var r := ParseValue(t[1..], depth, nodes, max);
    SetKeepsDistinct(done, key, r.value);
    var u := SkipWs(r.rest);
    if StartsWith(u, ',') {
      ParsedMembersAreSound(u[1..], SetIn(done, key, r.value), depth, r.nodes, max);
    }
  }

  /** Whatever text is accepted, the document has distinct keys and no undefined. */
  lemma {:induction false} ParseIsSound(text: string, limits: ParseLimits)
    requires Parse(text, limits).Some?
    ensures WellFormed(Parse(text, limits).value) && Defined(Parse(text, limits).value)
  {
    ParsedValueIsSound(text, 0, 0, limits.maxNodes);
  }
}
