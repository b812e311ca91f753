/**
 The parser as the source runs it (cpp/update_flow_core/flow_json.cpp:284-363 and 365-727):
 an object with a position, a nesting depth, a node count and a sticky failure flag, proved
 against the functions of JsonText.
 */
module JsonParser {
  import opened FlowJson
  import opened JsonText
  import opened Wrappers

  const INDEXED_OBJECT_MEMBERS: nat := 16

  // ----- the object builder ------------------------------------------------------

  /** A non-empty index knows exactly the members' keys and where they are. */
  predicate IndexValid(ms: seq<Member>, index: map<string, nat>) {
    index != map[] ==>
      && (forall i :: 0 <= i < |ms| ==> ms[i].key in index && index[ms[i].key] == i)
      && (forall key :: key in index ==> index[key] < |ms| && ms[index[key]].key == key)
  }

  method BuildIndex(ms: seq<Member>) returns (index: map<string, nat>)
    requires DistinctKeys(ms)
    ensures IndexValid(ms, index) && (ms != [] ==> index != map[])
  {
    index := map[];
    var i := 0;
    while i < |ms|
      invariant i <= |ms| && IndexValid(ms[..i], index) && (i > 0 ==> index != map[])
      invariant i == 0 ==> index == map[]
    {
      assert forall j :: 0 <= j < i ==> ms[j].key != ms[i].key;
      index := index[ms[i].key := i];
      assert ms[..i + 1] == ms[..i] + [ms[i]];
      assert ms[i].key in index;
      i := i + 1;
    }
    assert ms[..i] == ms;
  }

  /** Adds a parsed member: a scan for small objects, the hash index for large ones. */
  method AddMember(ms: seq<Member>, index: map<string, nat>, key: string, value: Value)
    returns (ms': seq<Member>, index': map<string, nat>)
    requires DistinctKeys(ms) && IndexValid(ms, index)
    ensures ms' == SetIn(ms, key, value)
    ensures DistinctKeys(ms') && IndexValid(ms', index')
  {
    index' := index;
    if |ms| == INDEXED_OBJECT_MEMBERS && index == map[] {
      index' := BuildIndex(ms);
    }
    var existing := |ms|;
    if index' == map[] {
      var i := 0;
      while i < |ms|
        invariant i <= |ms| && existing == |ms| && forall j :: 0 <= j < i ==> ms[j].key != key
      {
        if ms[i].key == key {
          existing := i;
          break;
        }
        i := i + 1;
      }
    } else if key in index' {
      existing := index'[key];
      assert forall j :: 0 <= j < existing ==> ms[j].key != key;
    } else {
      index' := index'[key := |ms|];
    }
    IndexIs(ms, key, existing);
    SetKeepsDistinct(ms, key, value);
    if existing < |ms| {
      ms' := ms[existing := Member(key, value)];
    } else {
      ms' := ms + [Member(key, value)];
    }
  }

  // ----- decimal numbers ------------------------------------------------------------

  lemma {:induction false} AllDrop(s: string, i: nat)
    requires i < |s|
    ensures s[i..] != "" && s[i..][0] == s[i] && s[i..][1..] == s[i + 1..]
  {
  }

  /** The digit loop, then the exponent, then the scaling (without rounding). */
  method DecimalToDouble(token: string) returns (r: real)
    ensures r == DecimalValue(token)
  {
    var i: nat, negative := 0, false;
    if i < |token| && token[i] == '-' {
      negative, i := true, 1;
    }
    ghost var unsigned := token[i..];
    assert unsigned == if StartsWith(token, '-') then token[1..] else token;
    var d := Decimal(0, 0, 0, false);
    while i < |token| && (token[i] == '.' || IsDigit(token[i]))
      invariant i <= |token|
      invariant FoldDigits(d, token[i..]) == FoldDigits(Decimal(0, 0, 0, false), unsigned)
    {
      AllDrop(token, i);
      d, i := FoldDigit(d, token[i]), i + 1;
    }
    assert FoldDigits(d, token[i..]) == (d, token[i..]);
    var exponent := d.exponent;
    if i < |token| {
      var part := ScanExponent(token, i);
      exponent := exponent + part;
    } else {
      assert token[i..] == "";
    }
    var result := 0.0;
    if d.significand != 0 {
      result := Scale(d.significand, exponent);
    }
    r := if negative then -result else result;
  }

  method ScanExponent(token: string, start: nat) returns (e: int)
    requires start < |token|
    ensures e == ExponentPart(token[start..])
  {
    var i, negative := start + 1, false;
    AllDrop(token, start);
    ghost var t := token[i..];
    if i < |token| && (token[i] == '+' || token[i] == '-') {
      negative, i := token[i] == '-', i + 1;
    }
    assert token[i..] == SkipSign(t);
    var value: nat := 0;
    while i < |token| && IsDigit(token[i])
      invariant i <= |token|
      invariant FoldExponent(value, token[i..]) == FoldExponent(0, SkipSign(t))
    {
      AllDrop(token, i);
      if value < 100000 {
        value := value * 10 + (token[i] as nat - '0' as nat);
      }
      i := i + 1;
    }
    assert FoldExponent(value, token[i..]) == value;
    e := if negative then -(value as int) else value;
  }

  lemma {:induction false} ConsTwice(a: string, b: string, tail: Option<(string, string)>)
    ensures JsonText.Cons(a, JsonText.Cons(b, tail)) == JsonText.Cons(a + b, tail)
  {
    if tail.Some? {
      assert a + (b + tail.value.0) == (a + b) + tail.value.0;
    }
  }

  lemma {:induction false} PrefixAt(text: string, pos: nat, p: string)
    requires pos <= |text|
    ensures HasPrefix(text[pos..], p) <==> pos + |p| <= |text| && text[pos..pos + |p|] == p
  {
    if pos + |p| <= |text| {
      assert text[pos..][..|p|] == text[pos..pos + |p|];
    }
  }

  /** The key, colon and value that a member starts with. */
  function MemberAt(s: string, depth: nat, nodes: nat, maxNodes: nat): Parsed<Member>
    requires depth <= MAX_DEPTH
  {
    match JsonText.ParseString(SkipWs(s))
    case None => Bad
    case Some((key, afterKey)) =>
      var t := SkipWs(afterKey);
      if !StartsWith(t, ':') then Bad
      else
        match JsonText.ParseValue(t[1..], depth, nodes, maxNodes)
        case Bad => Bad
        case Good(v, rest, n) => Good(Member(key, v), rest, n)
  }

  lemma {:induction false} MembersStep(s: string, done: seq<Member>, depth: nat, nodes: nat, maxNodes: nat)
    requires depth <= MAX_DEPTH
    ensures ParseMembers(s, done, depth, nodes, maxNodes) ==
            (match MemberAt(s, depth, nodes, maxNodes)
             case Bad => Bad
             case Good(m, rest, n) =>
               var u := SkipWs(rest);
               if StartsWith(u, ',') then ParseMembers(u[1..], SetIn(done, m.key, m.value), depth, n, maxNodes)
               else if StartsWith(u, '}') then Good(SetIn(done, m.key, m.value), u[1..], n)
               else Bad)
  {
    hide JsonText.ParseString, JsonText.ParseValue, SetIn;
  }

  lemma {:induction false} ElementsStep(s: string, done: seq<Value>, depth: nat, nodes: nat, maxNodes: nat)
    requires depth <= MAX_DEPTH
    ensures ParseElements(s, done, depth, nodes, maxNodes) ==
            (match JsonText.ParseValue(s, depth, nodes, maxNodes)
             case Bad => Bad
             case Good(v, rest, n) =>
               var t := SkipWs(rest);
               if StartsWith(t, ',') then ParseElements(t[1..], done + [v], depth, n, maxNodes)
               else if StartsWith(t, ']') then Good(done + [v], t[1..], n)
               else Bad)
  {
    hide JsonText.ParseValue;
  }

  lemma NoMembers()
    ensures DistinctKeys([]) && IndexValid([], map[])
  {
  }

  class Parser {
    const text: string
    const maxNodes: nat
    var pos: nat
    var depth: nat
    var nodes: nat
    var ok: bool

    ghost predicate Valid()
      reads this
    {
      pos <= |text| && depth <= MAX_DEPTH
    }

    /** The text still to be read. */
    ghost function Rest(): string
      reads this
      requires Valid()
    {
      text[pos..]
    }

    constructor (text: string, maxNodes: nat)
      ensures this.text == text && this.maxNodes == maxNodes
      ensures pos == 0 && depth == 0 && nodes == 0 && ok && Valid()
    {
      this.text, this.maxNodes := text, maxNodes;
      pos, depth, nodes, ok := 0, 0, 0, true;
    }

    method SkipWhite()
      requires Valid()
      modifies this`pos
      ensures Valid() && old(pos) <= pos
      ensures Rest() == SkipWs(old(Rest()))
    {
      while pos < |text| && IsWs(text[pos])
        invariant old(pos) <= pos <= |text|
        invariant SkipWs(text[pos..]) == SkipWs(old(Rest()))
      {
        AllDrop(text, pos);
        pos := pos + 1;
      }
      if pos < |text| {
        AllDrop(text, pos);
      }
    }

    predicate At(c: char)
      reads this
    {
      pos < |text| && text[pos] == c
    }

    lemma AtIsStart(c: char)
      requires Valid()
      ensures At(c) <==> StartsWith(Rest(), c)
      ensures At(c) ==> text[pos + 1..] == Rest()[1..]
    {
      if pos < |text| {
        AllDrop(text, pos);
      }
    }

    method Consume(expected: char) returns (r: bool)
      requires Valid()
      modifies this`pos, this`ok
      ensures Valid() && old(pos) <= pos && (ok ==> old(ok))
      ensures r == StartsWith(old(Rest()), expected)
      ensures r ==> ok == old(ok) && pos == old(pos) + 1 && Rest() == old(Rest())[1..]
      ensures !r ==> !ok && pos == old(pos)
    {
      AtIsStart(expected);
      if At(expected) {
        pos := pos + 1;
        return true;
      }
      ok := false;
      return false;
    }

    method ConsumeLiteral(literal: string)
      requires Valid()
      modifies this`pos, this`ok
      ensures Valid() && old(pos) <= pos && (ok ==> old(ok))
      ensures old(ok) ==> ok == HasPrefix(old(Rest()), literal)
      ensures ok ==> Rest() == old(Rest())[|literal|..]
    {
      PrefixAt(text, pos, literal);
      if pos + |literal| <= |text| && text[pos..pos + |literal|] == literal {
        assert text[pos + |literal|..] == Rest()[|literal|..];
        pos := pos + |literal|;
      } else {
        ok := false;
      }
    }

    /** One hexadecimal digit; the loop of the source runs it four times. */
    method ParseHex4() returns (code: nat)
      requires Valid()
      modifies this`pos, this`ok
      ensures Valid() && old(pos) <= pos && (ok ==> old(ok))
      ensures old(ok) ==> (ok <==> Hex4(old(Rest())).Some?)
      ensures old(ok) && ok ==> Hex4(old(Rest())) == Some(code) && Rest() == old(Rest())[4..] && pos == old(pos) + 4
      ensures code < 0x10000
    {
      code := 0;
      ghost var s := Rest();
      var i := 0;
      while i < 4
        invariant i <= 4 && old(pos) <= pos <= |text| && pos == old(pos) + i
        invariant ok == old(ok) && code < Power16(i)
        invariant HexPrefix(s, i) == Some(code)
        modifies this`pos, this`ok
      {
        if pos >= |text| {
          ok := false;
          return 0;
        }
        var c := text[pos];
        assert c == s[i];
        pos := pos + 1;
        match HexValue(c) {
          case None =>
            ok := false;
            return 0;
          case Some(v) =>
            code, i := code * 16 + v, i + 1;
        }
      }
      HexPrefixFour(s);
      assert Power16(4) == 0x10000;
    }

    /**
     A \u escape whose digits start here: its code point. A high surrogate looks ahead for a
     low one; anything else is put back for the string loop to read again.
     */
    method ParseUnicode() returns (code: nat)
      requires Valid()
      modifies this`pos, this`ok
      ensures Valid() && old(pos) <= pos && (ok ==> old(ok)) && code < 0x110000
      ensures old(ok) ==> (ok <==> UnicodeEscape(old(Rest())).Some?)
      ensures old(ok) && ok ==> UnicodeEscape(old(Rest())) == Some((code, Rest())) && old(pos) < pos
    {
      ghost var s := Rest();
      code := ParseHex4();
      if !ok {
        return;
      }
      if HighSurrogate(code) && pos + 2 <= |text| && text[pos..pos + 2] == "\\u" {
        PrefixAt(text, pos, "\\u");
        var escapeStart := pos;
        pos := pos + 2;
        var low := ParseHex4();
        if !ok {
          return;
        }
        if LowSurrogate(low) {
          code := 0x10000 + (code - 0xd800) * 1024 + (low - 0xdc00);
        } else {
          pos := escapeStart;
        }
      } else {
        PrefixAt(text, pos, "\\u");
      }
      if HighSurrogate(code) || LowSurrogate(code) {
        code := 0xfffd;
      }
    }

    /** The escape after a backslash: the bytes it stands for. */
    method ParseEscape() returns (piece: string)
      requires Valid() && 0 < pos < |text| && text[pos - 1] == '\\'
      modifies this`pos, this`ok
      ensures Valid() && old(pos) < pos && (ok ==> old(ok))
      ensures old(ok) && !ok ==> ParseStringBody(text[old(pos) - 1..]).None?
      ensures ok ==> ParseStringBody(text[old(pos) - 1..]) == JsonText.Cons(piece, ParseStringBody(Rest()))
    {
      hide UnicodeEscape, Utf8, SimpleEscape;
      var esc := text[pos];
      AllDrop(text, pos - 1);
      AllDrop(text, pos);
      pos, piece := pos + 1, "";
      if esc == 'u' {
        var code := ParseUnicode();
        if ok {
          piece := Utf8(code);
        }
      } else {
        match SimpleEscape(esc) {
          case None => ok := false;
          case Some(plain) => piece := [plain];
        }
      }
    }

    method ParseString() returns (out: string)
      requires Valid()
      modifies this`pos, this`ok
      ensures Valid() && old(pos) <= pos && (ok ==> old(ok))
      ensures old(ok) ==> (ok <==> JsonText.ParseString(old(Rest())).Some?)
      ensures ok ==> JsonText.ParseString(old(Rest())) == Some((out, Rest()))
    {
      hide ParseStringBody, JsonText.Cons;
      out := "";
      var isOpen := Consume('\"');
      if !isOpen {
        return;
      }
      ghost var body := Rest();
      assert JsonText.ParseString(old(Rest())) == ParseStringBody(body);
      NothingBefore(ParseStringBody(body));
      BodyCases("");
      while pos < |text|
        invariant Valid() && old(pos) <= pos && ok == old(ok)
        invariant old(ok) ==> JsonText.Cons(out, ParseStringBody(text[pos..])) == ParseStringBody(body)
        decreases |text| - pos
      {
        var c := text[pos];
        AllDrop(text, pos);
        BodyCases(text[pos..]);
        pos := pos + 1;
        if c == '\"' {
          NothingAfter(out, text[pos..]);
          return;
        }
        if c != '\\' {
          ConsTwice(out, [c], ParseStringBody(text[pos..]));
          out := out + [c];
          continue;
        }
        ConsNone(out);
        if pos >= |text| {
          assert text[pos - 1..] == "\\";
          break;
        }
        var piece := ParseEscape();
        if !ok {
          return;
        }
        ConsTwice(out, piece, ParseStringBody(text[pos..]));
        out := out + piece;
      }
      ConsNone(out);
      ok := false;
    }

    /** Runs over digits. */
    method SkipDigitRun()
      requires Valid()
      modifies this`pos
      ensures Valid() && old(pos) <= pos && Rest() == SkipDigits(old(Rest()))
    {
      while pos < |text| && IsDigit(text[pos])
        invariant old(pos) <= pos <= |text|
        invariant SkipDigits(text[pos..]) == SkipDigits(old(Rest()))
      {
        AllDrop(text, pos);
        pos := pos + 1;
      }
      if pos < |text| {
        AllDrop(text, pos);
      }
    }

    predicate AtDigit()
      reads this
    {
      pos < |text| && IsDigit(text[pos])
    }

    lemma AtDigitIsStart()
      requires Valid()
      ensures AtDigit() <==> StartsWithDigit(Rest())
      ensures AtDigit() ==> text[pos + 1..] == Rest()[1..]
    {
      if pos < |text| {
        AllDrop(text, pos);
      }
    }

    method ScanInteger()
      requires Valid()
      modifies this`pos, this`ok
      ensures Valid() && old(pos) <= pos && (ok ==> old(ok))
      ensures old(ok) ==> (ok <==> SkipInteger(old(Rest())).Some?)
      ensures ok ==> SkipInteger(old(Rest())) == Some(Rest())
    {
      AtIsStart('0');
      AtDigitIsStart();
      if At('0') {
        pos := pos + 1;
        AtDigitIsStart();
        if AtDigit() {
          ok := false;
        }
      } else if AtDigit() {
        pos := pos + 1;
        SkipDigitRun();
      } else {
        ok := false;
      }
    }

    method ScanFraction()
      requires Valid()
      modifies this`pos, this`ok
      ensures Valid() && old(pos) <= pos && (ok ==> old(ok))
      ensures old(ok) ==> (ok <==> SkipFraction(old(Rest())).Some?)
      ensures ok ==> SkipFraction(old(Rest())) == Some(Rest())
    {
      AtIsStart('.');
      if At('.') {
        pos := pos + 1;
        AtDigitIsStart();
        if !AtDigit() {
          ok := false;
          return;
        }
        SkipDigitRun();
      }
    }

    method ScanExponent()
      requires Valid()
      modifies this`pos, this`ok
      ensures Valid() && old(pos) <= pos && (ok ==> old(ok))
      ensures old(ok) ==> (ok <==> SkipExponent(old(Rest())).Some?)
      ensures ok ==> SkipExponent(old(Rest())) == Some(Rest())
    {
      AtIsStart('e');
      AtIsStart('E');
      if At('e') || At('E') {
        pos := pos + 1;
        AtIsStart('+');
        AtIsStart('-');
        if At('+') || At('-') {
          pos := pos + 1;
        }
        AtDigitIsStart();
        if !AtDigit() {
          ok := false;
          return;
        }
        SkipDigitRun();
      }
    }

    method ParseNumber() returns (v: Value)
      requires Valid()
      modifies this`pos, this`ok
      ensures Valid() && old(pos) <= pos && (ok ==> old(ok))
      ensures old(ok) ==> (ok <==> SkipNumber(old(Rest())).Some?)
      ensures ok ==>
                var s := old(Rest());
                SkipNumber(s) == Some(Rest()) && v == Number(DecimalValue(s[..|s| - |Rest()|]))
    {
      hide SkipInteger, SkipFraction, SkipExponent, DecimalValue;
      ghost var s := Rest();
      var start := pos;
      v := Undefined;
      AtIsStart('-');
      if At('-') {
        pos := pos + 1;
      }
      ScanInteger();
      if !ok {
        return;
      }
      ScanFraction();
      if !ok {
        return;
      }
      ScanExponent();
      if !ok {
        return;
      }
      assert text[start..pos] == s[..|s| - |Rest()|];
      var number := DecimalToDouble(text[start..pos]);
      v := Number(number);
    }

    /** What a parse function says about the state before, read off the state after. */
    ghost predicate Agrees<T>(spec: Parsed<T>, v: T)
      reads this
      requires Valid()
    {
      if ok then spec == Good(v, Rest(), nodes) else spec.Bad?
    }

    method ParseValue() returns (v: Value)
      requires Valid()
      modifies this
      ensures Valid() && old(pos) <= pos && depth == old(depth) && (ok ==> old(ok))
      ensures old(ok) ==> Agrees(JsonText.ParseValue(old(Rest()), old(depth), old(nodes), maxNodes), v)
      decreases MAX_DEPTH - depth, |text| - pos, 0
    {
      hide JsonText.ParseObject, JsonText.ParseArray, JsonText.ParseString, SkipNumber, DecimalValue, HasPrefix;
      SkipWhite();
      v := Undefined;
      if pos >= |text| {
        ok := false;
        return;
      }
      AllDrop(text, pos);
      nodes := nodes + 1;
      if nodes > maxNodes {
        ok := false;
        return;
      }
      var c := text[pos];
      if c == '{' || c == '[' {
        if depth >= MAX_DEPTH {
          ok := false;
          return;
        }
        depth := depth + 1;
        if c == '{' {
          v := ParseObject();
        } else {
          v := ParseArray();
        }
        depth := depth - 1;
      } else if c == '\"' {
        var s := ParseString();
        v := String(s);
      } else if c == 't' {
        ConsumeLiteral("true");
        v := Bool(true);
      } else if c == 'f' {
        ConsumeLiteral("false");
        v := Bool(false);
      } else if c == 'n' {
        ConsumeLiteral("null");
        v := Null;
      } else {
        v := ParseNumber();
      }
    }

    /** The elements up to the closing bracket. */
    method ParseElementList() returns (es: seq<Value>)
      requires Valid() && ok
      modifies this
      ensures Valid() && old(pos) <= pos && depth == old(depth)
      ensures Agrees(ParseElements(old(Rest()), [], old(depth), old(nodes), maxNodes), es)
      decreases MAX_DEPTH - depth, |text| - pos, 1
    {
      hide JsonText.ParseValue, ParseElements, SkipWs;
      es := [];
      ghost var all := ParseElements(Rest(), [], depth, nodes, maxNodes);
      ghost var start := pos;
      while ok
        invariant Valid() && start <= pos && depth == old(depth)
        invariant if ok then ParseElements(Rest(), es, depth, nodes, maxNodes) == all else all.Bad?
        decreases if ok then |text| - pos + 1 else 0
      {
        ElementsStep(Rest(), es, depth, nodes, maxNodes);
        var e := ParseValue();
        es := es + [e];
        SkipWhite();
        AtIsStart(',');
        if At(',') {
          pos := pos + 1;
          continue;
        }
        var _ := Consume(']');
        break;
      }
    }

    method ParseArray() returns (v: Value)
      requires Valid() && At('[')
      modifies this
      ensures Valid() && old(pos) <= pos && depth == old(depth) && (ok ==> old(ok))
      ensures old(ok) ==> Agrees(JsonText.ParseArray(old(Rest())[1..], old(depth), old(nodes), maxNodes), v)
      decreases MAX_DEPTH - depth, |text| - pos, 2
    {
      hide ParseElements, SkipWs;
      AtIsStart('[');
      var _ := Consume('[');
      SkipWhite();
      AtIsStart(']');
      v := Array([]);
      if At(']') {
        pos := pos + 1;
      } else if ok {
        var es := ParseElementList();
        v := Array(es);
      }
    }

    /** One key, its colon and its value. */
    method ParseMember() returns (key: string, value: Value)
      requires Valid()
      modifies this
      ensures Valid() && old(pos) <= pos && depth == old(depth) && (ok ==> old(ok))
      ensures old(ok) ==> Agrees(MemberAt(old(Rest()), old(depth), old(nodes), maxNodes), Member(key, value))
      decreases MAX_DEPTH - depth, |text| - pos, 1
    {
      hide JsonText.ParseValue, JsonText.ParseString;
      SkipWhite();
      key := ParseString();
      SkipWhite();
      var _ := Consume(':');
      value := ParseValue();
    }

    /** The members up to the closing brace. */
    method ParseMemberList() returns (ms: seq<Member>)
      requires Valid() && ok
      modifies this
      ensures Valid() && old(pos) <= pos && depth == old(depth)
      ensures Agrees(ParseMembers(old(Rest()), [], old(depth), old(nodes), maxNodes), ms)
      decreases MAX_DEPTH - depth, |text| - pos, 2
    {
      hide ParseMembers, MemberAt, SetIn, DistinctKeys, IndexValid, SkipWs;
      NoMembers();
      var index: map<string, nat> := map[];
      ms := [];
      ghost var all := ParseMembers(Rest(), [], depth, nodes, maxNodes);
      ghost var start := pos;
      while ok
        invariant Valid() && start <= pos && depth == old(depth)
        invariant DistinctKeys(ms) && IndexValid(ms, index)
        invariant if ok then ParseMembers(Rest(), ms, depth, nodes, maxNodes) == all else all.Bad?
        decreases if ok then |text| - pos + 1 else 0
      {
        MembersStep(Rest(), ms, depth, nodes, maxNodes);
        var key, value := ParseMember();
        ms, index := AddMember(ms, index, key, value);
        SkipWhite();
        AtIsStart(',');
        if At(',') {
          pos := pos + 1;
          continue;
        }
        var _ := Consume('}');
        break;
      }
    }

    method ParseObject() returns (v: Value)
      requires Valid() && At('{')
      modifies this
      ensures Valid() && old(pos) <= pos && depth == old(depth) && (ok ==> old(ok))
      ensures old(ok) ==> Agrees(JsonText.ParseObject(old(Rest())[1..], old(depth), old(nodes), maxNodes), v)
      decreases MAX_DEPTH - depth, |text| - pos, 3
    {
      hide ParseMembers, SkipWs;
      AtIsStart('{');
      var _ := Consume('{');
      SkipWhite();
      AtIsStart('}');
      v := Object([]);
      if At('}') {
        pos := pos + 1;
      } else if ok {
        var ms := ParseMemberList();
        v := Object(ms);
      }
    }

    /** A whole document. */
    method Run() returns (accepted: bool, v: Value)
      requires Valid() && pos == 0 && depth == 0 && nodes == 0 && ok
      modifies this
      ensures accepted <==> JsonText.Parse(text, ParseLimits(|text|, maxNodes)).Some?
      ensures v == if accepted then JsonText.Parse(text, ParseLimits(|text|, maxNodes)).value else Undefined
    {
      hide JsonText.ParseValue;
      assert text[0..] == text;
      v := ParseValue();
      SkipWhite();
      accepted := ok && pos == |text|;
      if !accepted {
        v := Undefined;
      }
    }
  }

  method Parse(text: string, limits: ParseLimits) returns (ok: bool, v: Value)
    ensures ok <==> JsonText.Parse(text, limits).Some?
    ensures v == if ok then JsonText.Parse(text, limits).value else Undefined
  {
    hide JsonText.ParseValue;
    if |text| > limits.maxInputBytes {
      return false, Undefined;
    }
    var parser := new Parser(text, limits.maxNodes);
    ok, v := parser.Run();
  }

  lemma {:induction false} BodyCases(s: string)
    ensures s == "" || s == "\\" ==> ParseStringBody(s).None?
    ensures StartsWith(s, '\"') ==> ParseStringBody(s) == Some(("", s[1..]))
    ensures s != "" && s[0] != '\"' && s[0] != '\\' ==>
              ParseStringBody(s) == JsonText.Cons([s[0]], ParseStringBody(s[1..]))
  {
  }

  lemma {:induction false} ConsNone(head: string)
    ensures JsonText.Cons(head, None) == None
  {
  }

  lemma {:induction false} NothingBefore(tail: Option<(string, string)>)
    ensures JsonText.Cons("", tail) == tail
  {
    if tail.Some? {
      assert "" + tail.value.0 == tail.value.0;
    }
  }

  lemma {:induction false} NothingAfter(out: string, rest: string)
    ensures JsonText.Cons(out, Some(("", rest))) == Some((out, rest))
  {
    assert out + "" == out;
  }

  function Power16(i: nat): nat {
    if i == 0 then 1 else 16 * Power16(i - 1)
  }

  /** The value of the first i hexadecimal digits. */
  function HexPrefix(s: string, i: nat): Option<nat> {
    if i == 0 then Some(0)
    else if i > |s| then None
    else
      match (HexPrefix(s, i - 1), HexValue(s[i - 1]))
      case (Some(code), Some(v)) => Some(code * 16 + v)
      case _ => None
  }

  lemma HexPrefixFour(s: string)
    ensures Hex4(s) == HexPrefix(s, 4)
  {
    if |s| >= 4 {
      hide HexValue;
      assert HexPrefix(s, 0) == Some(0);
      assert HexValue(s[0]).None? ==> HexPrefix(s, 1).None?;
      assert HexValue(s[1]).None? ==> HexPrefix(s, 2).None?;
      assert HexValue(s[2]).None? ==> HexPrefix(s, 3).None?;
      assert HexPrefix(s, 1).None? ==> HexPrefix(s, 2).None?;
      assert HexPrefix(s, 2).None? ==> HexPrefix(s, 3).None?;
    }
  }

}
