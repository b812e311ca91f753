/**
 The JavaScript side of the configuration equivalence (src/updateFlowCore.ts:126-237) against
 the native one: equality by filtered key lists, URL lists with a set of visited strings, and
 defaults spread under the parsed object. Both sides agree on every value, so both agree on
 what is a change of configuration. (The hash is compared in Murmur and Utf16, the endpoint
 order in EndpointFallback.)
 */
module Parity {
  import opened FlowJson
  import opened NativeConfig
  import opened Wrappers
  import JsonRoundTrip
  import JsonText
  import Urls

  // ----- equality -------------------------------------------------------------------------

  /** The members that count towards DefinedCount, in order. */
  function Defined(ms: seq<Member>): (r: seq<Member>)
    ensures forall m :: m in r <==> m in ms && !m.value.Undefined?
    ensures |r| == DefinedCount(ms)
  {
    if ms == [] then [] else (if ms[0].value.Undefined? then [] else [ms[0]]) + Defined(ms[1..])
  }

  predicate HasOwn(ms: seq<Member>, key: string) {
    IndexOf(ms, key) < |ms|
  }

  predicate JsonDeepEqual(a: Value, b: Value)
    decreases a
  {
    if StrictEquals(a, b) then true
    else if a.Array? || b.Array? then
      a.Array? && b.Array? && |a.elements| == |b.elements| &&
      forall i :: 0 <= i < |a.elements| ==> JsonDeepEqual(a.elements[i], b.elements[i])
    else if !a.Object? || !b.Object? then false
    else
      |Defined(a.members)| == |Defined(b.members)| &&
      forall m :: m in a.members && !m.value.Undefined? ==>
        HasOwn(b.members, m.key) && JsonDeepEqual(m.value, GetIn(b.members, m.key))
  }

  /** Both equalities decide alike on all values. */
  lemma {:induction false} SameEquality(a: Value, b: Value)
    ensures JsonDeepEqual(a, b) <==> DeepEquals(a, b)
    decreases a
  {
    match (a, b) {
      case (Array(xs), Array(ys)) =>
        forall i | 0 <= i < |xs| && |xs| == |ys|
          ensures JsonDeepEqual(xs[i], ys[i]) <==> DeepEquals(xs[i], ys[i])
        {
          SameEquality(xs[i], ys[i]);
        }
      case (Object(xs), Object(ys)) => SameMembers(xs, ys);
      case _ =>
    }
  }

  lemma {:induction false} SameMembers(xs: seq<Member>, ys: seq<Member>)
    ensures JsonDeepEqual(Object(xs), Object(ys)) <==> DeepEquals(Object(xs), Object(ys))
    decreases Object(xs), 0
  {
    forall m | m in xs && !m.value.Undefined?
      ensures HasOwn(ys, m.key) && JsonDeepEqual(m.value, GetIn(ys, m.key)) <==> MemberMatches(m, ys)
    {
      SameEquality(m.value, GetIn(ys, m.key));
    }
    if JsonDeepEqual(Object(xs), Object(ys)) {
      forall i | 0 <= i < |xs| ensures MemberMatches(xs[i], ys) {
        assert xs[i] in xs;
      }
    }
  }

  // ----- URL lists ---------------------------------------------------------------------------

  /** Strings are looked up in a set, other entries compared with everything kept so far. */
  method CanonicalUrlListJs(value: Value) returns (r: Value)
    ensures r == CanonicalUrlList(value)
  {
    hide DeepEquals, Urls.StripTrailingSlashes;
    if !value.Array? {
      return value;
    }
    var es := value.elements;
    var result: seq<Value> := [];
    var visited: set<string> := {};
    var i := 0;
    assert es[0..] == es;
    while i < |es|
      invariant i <= |es| && KeepNew(es[i..], result) == KeepNew(es, [])
      invariant forall s :: s in visited <==> String(s) in result
    {
      var item := es[i];
      assert es[i..][1..] == es[i + 1..] && es[i..][0] == item;
      i := i + 1;
      if item.String? {
        var url := Urls.RemoveTrailingSlashes(item.s);
        PresentString(result, url);
        if url !in visited {
          visited := visited + {url};
          result := result + [String(url)];
        }
      } else {
        SamePresence(result, item);
        if !(exists j :: 0 <= j < |result| && JsonDeepEqual(result[j], item)) {
          result := result + [item];
        }
      }
    }
    r := Array(result);
  }

  lemma SamePresence(kept: seq<Value>, item: Value)
    ensures Present(kept, item) <==> exists j :: 0 <= j < |kept| && JsonDeepEqual(kept[j], item)
  {
    hide JsonDeepEqual, DeepEquals;
    forall j | 0 <= j < |kept| ensures JsonDeepEqual(kept[j], item) <==> DeepEquals(kept[j], item) {
      SameEquality(kept[j], item);
    }
  }

  // ----- the canonical configuration -----------------------------------------------------------

  const DEFAULTS: seq<Member> := [
    Member("disabled", Bool(false)), Member("queryUrls", Array([])), Member("rnu", String("")), Member("rn", String("")),
    Member("afterDownload", String("none"))]

  /** Sets every member of an object over those of another one. */
  function Spread(base: seq<Member>, ms: seq<Member>): seq<Member>
    decreases |ms|
  {
    if ms == [] then base else Spread(SetIn(base, ms[0].key, ms[0].value), ms[1..])
  }

  function CanonicalizeNativeConfigJs(ms: seq<Member>): seq<Member> {
    WithList(WithList(Spread(DEFAULTS, ms), "endpoints"), "queryUrls")
  }

  lemma {:induction false} SpreadGet(base: seq<Member>, ms: seq<Member>, key: string)
    requires DistinctKeys(ms)
    ensures GetIn(Spread(base, ms), key) == if HasOwn(ms, key) then GetIn(ms, key) else GetIn(base, key)
    decreases |ms|
  {
    hide GetIn, SetIn, IndexOf;
    if ms == [] {
      NoMembers(key);
    } else {
      var m, rest := ms[0], ms[1..];
      SplitMembers(ms, key);
      SpreadGet(SetIn(base, m.key, m.value), rest, key);
      SetGet(base, m.key, m.value, key);
    }
  }

  lemma NoMembers(key: string)
    ensures !HasOwn([], key)
  {
  }

  lemma SplitMembers(ms: seq<Member>, key: string)
    requires ms != [] && DistinctKeys(ms)
    ensures DistinctKeys(ms[1..])
    ensures HasOwn(ms, key) <==> key == ms[0].key || HasOwn(ms[1..], key)
    ensures GetIn(ms, key) == if key == ms[0].key then ms[0].value else GetIn(ms[1..], key)
    ensures key == ms[0].key ==> !HasOwn(ms[1..], key)
  {
    var rest := ms[1..];
    forall i, j | 0 <= i < j < |rest| ensures rest[i].key != rest[j].key {
      assert rest[i] == ms[i + 1] && rest[j] == ms[j + 1];
    }
    if key == ms[0].key {
      forall j | 0 <= j < |rest| ensures rest[j].key != key {
        assert rest[j] == ms[j + 1];
      }
      IndexIs(rest, key, |rest|);
    }
  }

  lemma DefaultsGet(key: string)
    ensures GetIn(DEFAULTS, key) == Default(key)
  {
    assert |"disabled"| == 8 && |"queryUrls"| == 9 && |"rnu"| == 3 && |"rn"| == 2 && |"afterDownload"| == 13;
    assert DEFAULTS[0].key == "disabled" && DEFAULTS[1].key == "queryUrls" && DEFAULTS[2].key == "rnu" &&
           DEFAULTS[3].key == "rn" && DEFAULTS[4].key == "afterDownload";
    if key == "disabled" {
      IndexIs(DEFAULTS, key, 0);
    } else if key == "queryUrls" {
      IndexIs(DEFAULTS, key, 1);
    } else if key == "rnu" {
      IndexIs(DEFAULTS, key, 2);
    } else if key == "rn" {
      IndexIs(DEFAULTS, key, 3);
    } else if key == "afterDownload" {
      IndexIs(DEFAULTS, key, 4);
    } else {
      IndexIs(DEFAULTS, key, 5);
    }
  }

  /** A parsed object holds no undefined value. */
  predicate NothingUndefined(ms: seq<Member>) {
    forall i :: 0 <= i < |ms| ==> !ms[i].value.Undefined?
  }

  /** Both canonical forms hold the same value under every key. */
  lemma SameCanonicalForm(ms: seq<Member>, key: string)
    requires DistinctKeys(ms) && NothingUndefined(ms)
    ensures GetIn(CanonicalizeNativeConfigJs(ms), key) == GetIn(CanonicalMembers(ms), key)
  {
    hide WithList, Spread, CanonicalMembers, CanonicalUrlList, KeepNew;
    CanonicalGet(ms, key);
    SpreadGet(DEFAULTS, ms, key);
    DefaultsGet(key);
    WithListGet(Spread(DEFAULTS, ms), "endpoints", key);
    WithListGet(WithList(Spread(DEFAULTS, ms), "endpoints"), "queryUrls", key);
    assert |"endpoints"| == 9 && "endpoints"[0] == 'e' && "queryUrls"[0] == 'q';
  }

  lemma {:induction false} SpreadWellFormed(base: seq<Member>, ms: seq<Member>)
    requires WellFormed(Object(base)) && WellFormed(Object(ms))
    ensures WellFormed(Object(Spread(base, ms)))
    decreases |ms|
  {
    hide SetIn;
    if ms != [] {
      var rest := ms[1..];
      assert WellFormed(Object(rest)) by {
        assert forall i :: 0 <= i < |rest| ==> rest[i] == ms[i + 1];
      }
      SetWellFormed(base, ms[0].key, ms[0].value);
      SpreadWellFormed(SetIn(base, ms[0].key, ms[0].value), rest);
    }
  }

  lemma DefaultsWellFormed()
    ensures WellFormed(Object(DEFAULTS))
  {
    assert |"disabled"| == 8 && |"queryUrls"| == 9 && |"rnu"| == 3 && |"rn"| == 2 && |"afterDownload"| == 13;
  }

  lemma JsFormWellFormed(ms: seq<Member>)
    requires WellFormed(Object(ms))
    ensures WellFormed(Object(CanonicalizeNativeConfigJs(ms)))
  {
    hide WellFormed, WithList, Spread;
    DefaultsWellFormed();
    SpreadWellFormed(DEFAULTS, ms);
    ListWellFormed(Spread(DEFAULTS, ms), "endpoints");
    ListWellFormed(WithList(Spread(DEFAULTS, ms), "endpoints"), "queryUrls");
  }

  /** nativeConfigsEquivalent, from what JSON.parse makes of the two texts: None for no object. */
  predicate NativeConfigsEquivalentJs(left: Option<seq<Member>>, right: Option<seq<Member>>) {
    && left.Some? && right.Some?
    && JsonDeepEqual(Object(CanonicalizeNativeConfigJs(left.value)), Object(CanonicalizeNativeConfigJs(right.value)))
  }

  /**
   The JavaScript and the native side give the same answer whether two configurations are
   equivalent, for texts that both sides parse to the same value.
   */
  lemma SameEquivalence(left: string, right: string, l: Option<seq<Member>>, r: Option<seq<Member>>)
    requires l == ParseObject(left) && r == ParseObject(right)
    ensures NativeConfigsEquivalentJs(l, r) <==> ConfigsEquivalent(left, right)
  {
    hide JsonDeepEqual, DeepEquals, SameValue, CanonicalizeNativeConfigJs, CanonicalMembers, ParseObject;
    if ParseObject(left).Some? && ParseObject(right).Some? {
      var xs, ys := ParseObject(left).value, ParseObject(right).value;
      var a, b := CanonicalizeNativeConfigJs(xs), CanonicalizeNativeConfigJs(ys);
      var c, d := CanonicalMembers(xs), CanonicalMembers(ys);
      ParsedMembers(left);
      ParsedMembers(right);
      SameBoth(xs, a, c);
      SameBoth(ys, b, d);
      JsFormWellFormed(xs);
      JsFormWellFormed(ys);
      SameEquality(Object(a), Object(b));
      DeepEqualsIsSameValue(Object(a), Object(b));
      EquivalentIsSame(left, right);
      if SameValue(Object(a), Object(b)) {
        SameValueTransitive(Object(c), Object(a), Object(b));
        SameValueTransitive(Object(c), Object(b), Object(d));
      }
      if SameValue(Object(c), Object(d)) {
        SameValueTransitive(Object(a), Object(c), Object(d));
        SameValueTransitive(Object(a), Object(d), Object(b));
      }
    }
  }

  lemma ParsedMembers(json: string)
    requires ParseObject(json).Some?
    ensures WellFormed(Object(ParseObject(json).value)) && NothingUndefined(ParseObject(json).value)
  {
    JsonRoundTrip.ParseIsSound(json, JsonText.DEFAULT_LIMITS);
  }

  lemma SameBoth(ms: seq<Member>, a: seq<Member>, c: seq<Member>)
    requires WellFormed(Object(ms)) && NothingUndefined(ms)
    requires a == CanonicalizeNativeConfigJs(ms) && c == CanonicalMembers(ms)
    ensures SameValue(Object(a), Object(c)) && SameValue(Object(c), Object(a))
  {
    hide SameValue, CanonicalizeNativeConfigJs, CanonicalMembers;
    JsFormWellFormed(ms);
    forall key: string ensures SameValue(GetIn(a, key), GetIn(c, key)) {
      SameCanonicalForm(ms, key);
      SameValueReflexive(GetIn(a, key));
    }
    SameByKeys(a, c);
    SameValueSymmetric(Object(a), Object(c));
  }

  // ----- texts the two sides parse differently -----------------------------------------------

  /** A configuration with one member, rn, whose value is written as body. */
  function Config(body: string): string {
    ['{'] + ("\"rn\":\"" + body + "\"}")
  }

  lemma OneMember(body: string, v: string)
    requires |body| < 10 && JsonText.ParseStringBody(body + "\"}") == Some((v, "}"))
    ensures ParseObject(Config(body)) == Some([Member("rn", String(v))])
  {
    hide JsonText.ParseValue, JsonText.ParseMembers, JsonText.ParseStringBody, ParseObject;
    MembersRead(body, v);
    ObjectRead("\"rn\":\"" + body + "\"}", [Member("rn", String(v))]);
    TextRead(Config(body), [Member("rn", String(v))]);
  }

  lemma TextRead(text: string, ms: seq<Member>)
    requires |text| < 100 && JsonText.ParseValue(text, 0, 0, JsonText.MAX_NODES) == JsonText.Good(Object(ms), "", 2)
    ensures ParseObject(text) == Some(ms)
  {
    hide JsonText.ParseValue;
  }

  lemma ObjectRead(members: string, ms: seq<Member>)
    requires JsonText.StartsWith(members, '\"')
    requires JsonText.ParseMembers(members, [], 1, 1, JsonText.MAX_NODES) == JsonText.Good(ms, "", 2)
    ensures JsonText.ParseValue(['{'] + members, 0, 0, JsonText.MAX_NODES) == JsonText.Good(Object(ms), "", 2)
  {
    hide JsonText.ParseString, JsonText.ParseMembers, JsonText.SkipNumber, JsonText.DecimalValue, JsonText.HasPrefix;
    assert (['{'] + members)[1..] == members;
  }

  lemma MembersRead(body: string, v: string)
    requires JsonText.ParseStringBody(body + "\"}") == Some((v, "}"))
    ensures JsonText.ParseMembers("\"rn\":\"" + body + "\"}", [], 1, 1, JsonText.MAX_NODES) ==
            JsonText.Good([Member("rn", String(v))], "", 2)
  {
    hide JsonText.ParseString, JsonText.ParseStringBody;
    var value := "\"" + body + "\"}";
    var s := "\"rn\":" + value;
    assert s == "\"rn\":\"" + body + "\"}";
    KeyRead(value);
    assert (":" + value)[1..] == value && value[1..] == body + "\"}";
    ValueRead(value, v);
    assert SetIn([], "rn", String(v)) == [Member("rn", String(v))];
    assert "}"[1..] == "";
  }

  lemma KeyRead(rest: string)
    ensures JsonText.ParseString("\"rn\":" + rest) == Some(("rn", ":" + rest))
  {
    hide JsonText.ParseStringBody;
    var q := "\":" + rest;
    assert q[1..] == ":" + rest;
    QuoteRead(q, ":" + rest);
    PlainRead('n', q, "", ":" + rest);
    assert ['n'] + "" == "n";
    PlainRead('r', ['n'] + q, "n", ":" + rest);
    assert "\"rn\":" + rest == ['\"'] + (['r'] + (['n'] + q));
    assert "rn" == ['r'] + "n";
  }

  lemma QuoteRead(s: string, rest: string)
    requires s != "" && s[0] == '\"' && s[1..] == rest
    ensures JsonText.ParseStringBody(s) == Some(("", rest))
  {
  }

  lemma PlainRead(c: char, s: string, v: string, rest: string)
    requires c != '\"' && c != '\\' && JsonText.ParseStringBody(s) == Some((v, rest))
    ensures JsonText.ParseStringBody([c] + s) == Some(([c] + v, rest))
  {
    assert ([c] + s)[1..] == s;
  }

  lemma ValueRead(s: string, v: string)
    requires s != "" && s[0] == '\"' && JsonText.ParseStringBody(s[1..]) == Some((v, "}"))
    ensures JsonText.ParseValue(s, 1, 1, JsonText.MAX_NODES) == JsonText.Good(String(v), "}", 2)
  {
  }

  lemma ClosingRead()
    ensures JsonText.ParseStringBody("\"}") == Some(("", "}"))
  {
    assert "\"}"[1..] == "}";
  }

  lemma LoneSurrogateRead(digit: char)
    requires '0' <= digit <= '9'
    ensures JsonText.ParseStringBody("\\ud80" + [digit] + "\"}") == Some((JsonText.Utf8(0xfffd), "}"))
  {
    hide JsonText.Utf8;
    var hex := "d80" + [digit] + "\"}";
    var s := "\\u" + hex;
    assert s == "\\ud80" + [digit] + "\"}";
    assert s[2..] == hex && hex[4..] == "\"}";
    SurrogateRead(hex);
    ClosingRead();
    assert JsonText.Utf8(0xfffd) + "" == JsonText.Utf8(0xfffd);
  }

  lemma SurrogateRead(hex: string)
    requires |hex| == 6 && hex[..3] == "d80" && '0' <= hex[3] <= '9' && hex[4..] == "\"}"
    ensures JsonText.UnicodeEscape(hex) == Some((0xfffd, "\"}"))
  {
    assert hex[0] == hex[..3][0] && hex[1] == hex[..3][1] && hex[2] == hex[..3][2];
    assert JsonText.Hex4(hex) == Some(0xd800 + (hex[3] as nat - '0' as nat));
    assert !JsonText.HasPrefix(hex[4..], "\\u") by {
      assert hex[4..][0] == '\"';
    }
  }

  /**
   Two different lone surrogates are two different strings to JSON.parse; the native parser
   reads both as U+FFFD, and so calls the configurations equivalent.
   */
  lemma LoneSurrogatesMerge()
    ensures Config("\\ud800") == "{\"rn\":\"\\ud800\"}" && Config("\\ud801") == "{\"rn\":\"\\ud801\"}"
    ensures ConfigsEquivalent(Config("\\ud800"), Config("\\ud801"))
  {
    hide ParseObject, CanonicalMembers, DeepEquals, JsonText.ParseStringBody;
    LoneSurrogateRead('0');
    LoneSurrogateRead('1');
    assert "\\ud800" == "\\ud80" + ['0'] && "\\ud801" == "\\ud80" + ['1'];
    OneMember("\\ud800", JsonText.Utf8(0xfffd));
    OneMember("\\ud801", JsonText.Utf8(0xfffd));
    ConfigsEquivalentLaws(Config("\\ud800"), "", "");
  }

  /** A raw line feed inside a string, which JSON.parse refuses, is read. */
  lemma ControlCharacterIsRead()
    ensures ParseObject(Config("\n")) == Some([Member("rn", String("\n"))])
  {
    ClosingRead();
    PlainRead('\n', "\"}", "", "}");
    assert ['\n'] + "" == "\n";
    OneMember("\n", "\n");
  }
}
