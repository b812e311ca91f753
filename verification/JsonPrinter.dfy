/**
 The printer as the source runs it (cpp/update_flow_core/flow_json.cpp:126-260): loops that
 append to a growing text, proved to append what JsonText prints.
 */
module JsonPrinter {
  import opened FlowJson
  import opened JsonText
  import JsonNumbers

  // ----- strings -------------------------------------------------------------------------

  method AppendEscaped(s: string, out: string) returns (r: string)
    ensures r == out + Quoted(s)
  {
    r := out + "\"";
    var i := 0;
    assert s[0..] == s;
    while i < |s|
      invariant i <= |s|
      invariant r + Escaped(s[i..]) == out + "\"" + Escaped(s)
    {
      ghost var before := r;
      r := r + EscapedChar(s[i]);
      assert before + (EscapedChar(s[i]) + Escaped(s[i + 1..])) == r + Escaped(s[i + 1..]);
      i := i + 1;
    }
    assert r + Escaped("") == r;
    r := r + "\"";
    assert out + "\"" + Escaped(s) + "\"" == out + Quoted(s);
  }

  // ----- numbers -------------------------------------------------------------------------

  predicate IsNumberChar(c: char) {
    IsDigit(c) || c == '-' || c == '+' || c == 'e' || c == 'E'
  }

  predicate AllNumberChars(s: string) {
    forall i :: 0 <= i < |s| ==> IsNumberChar(s[i])
  }

  /** What a locale may write for the decimal point: anything but the characters of numbers. */
  predicate IsPoint(point: string) {
    point != "" && forall i :: 0 <= i < |point| ==> !IsNumberChar(point[i])
  }

  /** The text as snprintf writes it under a locale. */
  function InLocale(s: string, point: string): string {
    if s == "" then "" else (if s[0] == '.' then point else [s[0]]) + InLocale(s[1..], point)
  }

  /** What is kept of it: one point for the first character that is none of a number. */
  function Normal(buf: string, written: bool): string {
    if buf == "" then ""
    else if IsNumberChar(buf[0]) then [buf[0]] + Normal(buf[1..], written)
    else (if written then "" else ".") + Normal(buf[1..], true)
  }

  /** Under every locale the number comes out as JSON has it. */
  method AppendNumber(n: real, point: string, out: string) returns (r: string)
    requires IsPoint(point)
    ensures r == out + PrintNumber(n)
  {
    hide PrintNumber;
    if SafeInteger(n) {
      IntegerPrinted(n);
      return out + PrintInteger(n.Floor);
    }
    var buf := InLocale(PrintNumber(n), point);
    r := out;
    var pointWritten := false;
    var i := 0;
    assert buf[0..] == buf;
    while i < |buf|
      invariant i <= |buf| && r + Normal(buf[i..], pointWritten) == out + Normal(buf, false)
    {
      assert buf[i..][1..] == buf[i + 1..] && buf[i..][0] == buf[i];
      ghost var before, rest := r, Normal(buf[i + 1..], true);
      if IsNumberChar(buf[i]) {
        r := r + [buf[i]];
        assert before + ([buf[i]] + Normal(buf[i + 1..], pointWritten)) == r + Normal(buf[i + 1..], pointWritten);
      } else if !pointWritten {
        r := r + ".";
        assert before + ("." + rest) == r + rest;
        pointWritten := true;
      } else {
        assert "" + rest == rest;
      }
      i := i + 1;
    }
    assert r + Normal("", pointWritten) == r;
    NormalIs(n, point);
  }

  lemma IntegerPrinted(n: real)
    requires SafeInteger(n)
    ensures PrintNumber(n) == PrintInteger(n.Floor)
  {
  }

  lemma {:induction false} PlainKept(a: string, rest: string, point: string, written: bool)
    requires AllNumberChars(a)
    ensures InLocale(a + rest, point) == a + InLocale(rest, point)
    ensures Normal(a + rest, written) == a + Normal(rest, written)
  {
    if a == "" {
      assert a + rest == rest;
      assert a + InLocale(rest, point) == InLocale(rest, point) && a + Normal(rest, written) == Normal(rest, written);
    } else {
      assert (a + rest)[1..] == a[1..] + rest && (a + rest)[0] == a[0];
      PlainKept(a[1..], rest, point, written);
      assert [a[0]] + (a[1..] + InLocale(rest, point)) == a + InLocale(rest, point);
      assert [a[0]] + (a[1..] + Normal(rest, written)) == a + Normal(rest, written);
    }
  }

  lemma {:induction false} PointRead(point: string, rest: string)
    requires forall i :: 0 <= i < |point| ==> !IsNumberChar(point[i])
    ensures Normal(point + rest, true) == Normal(rest, true)
    ensures point != "" ==> Normal(point + rest, false) == "." + Normal(rest, true)
  {
    if point == "" {
      assert point + rest == rest;
    } else {
      assert (point + rest)[1..] == point[1..] + rest && (point + rest)[0] == point[0];
      PointRead(point[1..], rest);
      assert "" + Normal(rest, true) == Normal(rest, true);
    }
  }

  lemma NormalIs(n: real, point: string)
    requires IsPoint(point)
    ensures Normal(InLocale(PrintNumber(n), point), false) == PrintNumber(n)
  {
    hide PrintNumber, IsPoint;
    var t := JsonNumbers.PrintsToken(n);
    var a := (if t.negative then "-" else "") + t.whole;
    TokenChars(t);
    if t.fraction == "" {
      assert PrintNumber(n) == (a + t.exponent) + "";
      PlainKept(a + t.exponent, "", point, false);
      assert (a + t.exponent) + InLocale("", point) == (a + t.exponent) + "";
    } else {
      var b := t.fraction[1..] + t.exponent;
      SplitAtPoint(t);
      IsPointParts(point);
      PointKept(a, b, point);
    }
  }

  lemma SplitAtPoint(t: JsonNumbers.Token)
    requires t.fraction != "" && t.fraction[0] == '.'
    ensures JsonNumbers.Text(t) == ((if t.negative then "-" else "") + t.whole) + ("." + (t.fraction[1..] + t.exponent))
  {
    var f := t.fraction[1..];
    assert t.fraction == "." + f;
    assert ("." + f) + t.exponent == "." + (f + t.exponent);
  }

  lemma PointKept(a: string, b: string, point: string)
    requires AllNumberChars(a) && AllNumberChars(b)
    requires point != "" && forall i :: 0 <= i < |point| ==> !IsNumberChar(point[i])
    ensures Normal(InLocale(a + ("." + b), point), false) == a + ("." + b)
  {
    hide IsNumberChar, AllNumberChars;
    var tail := "." + b;
    PlainKept(a, tail, point, false);
    PlainKept(b, "", point, true);
    assert b + "" == b && tail[1..] == b;
    assert InLocale(tail, point) == point + b;
    PlainKept(a, point + b, point, false);
    PointRead(point, b);
  }

  lemma IsPointParts(point: string)
    requires IsPoint(point)
    ensures point != "" && forall i :: 0 <= i < |point| ==> !IsNumberChar(point[i])
  {
  }

  lemma TokenChars(t: JsonNumbers.Token)
    requires JsonNumbers.IsToken(t)
    ensures AllNumberChars((if t.negative then "-" else "") + t.whole) && AllNumberChars(t.exponent)
    ensures t.fraction != "" ==> t.fraction[0] == '.' && AllNumberChars(t.fraction[1..])
  {
    if t.exponent != "" {
      var s := t.exponent[1..];
      assert forall i :: 0 <= i < |s| ==> t.exponent[i + 1] == s[i];
      assert SkipSign(s) == s || forall i :: 0 <= i < |SkipSign(s)| ==> SkipSign(s)[i] == s[i + 1];
    }
  }

  // ----- values --------------------------------------------------------------------------

  method AppendValue(v: Value, point: string, out: string) returns (r: string)
    requires IsPoint(point)
    ensures r == out + Print(v)
    decreases v, 0
  {
    match v {
      case Undefined => r := out + "null";
      case Null => r := out + "null";
      case Bool(b) => r := out + if b then "true" else "false";
      case Number(n) => r := AppendNumber(n, point, out);
      case String(s) => r := AppendEscaped(s, out);
      case Array(es) => r := AppendElements(es, point, out + "[");
      case Object(ms) => r := AppendMembers(ms, point, out + "{");
    }
  }

  method AppendElements(es: seq<Value>, point: string, out: string) returns (r: string)
    requires IsPoint(point)
    ensures r == out + (PrintElements(es, true) + "]")
    decreases es, 1
  {
    hide Print;
    r := out;
    var i, first := 0, true;
    assert es[0..] == es;
    while i < |es|
      invariant i <= |es|
      invariant r + PrintElements(es[i..], first) == out + PrintElements(es, true)
    {
      ghost var before, rest := r, PrintElements(es[i + 1..], false);
      ghost var comma := if first then "" else ",";
      assert PrintElements(es[i..], first) == comma + Print(es[i]) + rest by {
        assert es[i..][1..] == es[i + 1..];
      }
      if !first {
        r := r + ",";
      }
      first := false;
      r := AppendValue(es[i], point, r);
      i := i + 1;
    }
    assert r + PrintElements([], first) == r;
    r := r + "]";
    assert (out + PrintElements(es, true)) + "]" == out + (PrintElements(es, true) + "]");
  }

  method AppendMembers(ms: seq<Member>, point: string, out: string) returns (r: string)
    requires IsPoint(point)
    ensures r == out + (PrintMembers(ms, true) + "}")
    decreases ms, 1
  {
    hide Print, Quoted;
    r := out;
    var i, first := 0, true;
    assert ms[0..] == ms;
    while i < |ms|
      invariant i <= |ms|
      invariant r + PrintMembers(ms[i..], first) == out + PrintMembers(ms, true)
    {
      assert ms[i..][1..] == ms[i + 1..] && ms[i..][0] == ms[i];
      if ms[i].value.Undefined? {
        assert PrintMembers(ms[i..], first) == PrintMembers(ms[i + 1..], first);
        i := i + 1;
        continue;
      }
      ghost var before, rest := r, PrintMembers(ms[i + 1..], false);
      ghost var comma := if first then "" else ",";
      var q := Quoted(ms[i].key);
      assert PrintMembers(ms[i..], first) == comma + q + ":" + Print(ms[i].value) + rest;
      if !first {
        r := r + ",";
      }
      first := false;
      r := AppendEscaped(ms[i].key, r);
      r := r + ":";
      MemberGlue(before, comma, q, Print(ms[i].value), rest);
      r := AppendValue(ms[i].value, point, r);
      i := i + 1;
    }
    assert r + PrintMembers([], first) == r;
    r := r + "}";
    assert (out + PrintMembers(ms, true)) + "}" == out + (PrintMembers(ms, true) + "}");
  }

  lemma {:induction false} MemberGlue(before: string, comma: string, q: string, p: string, rest: string)
    ensures before + (comma + q + ":" + p + rest) == ((((before + comma) + q) + ":") + p) + rest
    ensures before + "" == before
  {
  }

  method Stringify(v: Value, point: string) returns (text: string)
    requires IsPoint(point)
    ensures text == JsonText.Stringify(v)
  {
    if v.Undefined? {
      return "undefined";
    }
    text := AppendValue(v, point, "");
    assert "" + Print(v) == Print(v);
  }
}
