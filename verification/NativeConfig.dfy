/**
 The persisted check configuration (cpp/update_flow_core/native_config.cpp:17-99 and 322-418):
 parsing and trimming, the canonical form as a function on members, and the equivalence with
 the laws it satisfies.
 */
module NativeConfig {
  import opened FlowJson
  import opened Wrappers
  import JsonText
  import JsonRoundTrip
  import Urls

  // ----- trimming ------------------------------------------------------------------------

  /** How many bytes of s, which are 0 to 3, make up a white-space character at its head. */
  function WhitespaceAt(s: string): (n: nat)
    requires s != ""
    ensures n <= 3 && n <= |s|
  {
    var b0 := s[0] as int;
    if b0 == 0x20 || 0x09 <= b0 <= 0x0d then 1
    else if b0 == 0xc2 && |s| >= 2 && s[1] as int == 0xa0 then 2
    else if |s| < 3 then 0
    else
      var b1, b2 := s[1] as int, s[2] as int;
      if b0 == 0xe1 && b1 == 0x9a && b2 == 0x80 then 3
      else if b0 == 0xe2 && b1 == 0x80 && (b2 <= 0x8a || b2 == 0xa8 || b2 == 0xa9 || b2 == 0xaf) && b2 >= 0x80 then 3
      else if b0 == 0xe2 && b1 == 0x81 && b2 == 0x9f then 3
      else if b0 == 0xe3 && b1 == 0x80 && b2 == 0x80 then 3
      else if b0 == 0xef && b1 == 0xbb && b2 == 0xbf then 3
      else 0
  }

  function TrimFront(s: string): (r: string)
    ensures |r| <= |s| && s[|s| - |r|..] == r
    ensures r != "" ==> WhitespaceAt(r) == 0
    decreases |s|
  {
    if s == "" || WhitespaceAt(s) == 0 then s else TrimFront(s[WhitespaceAt(s)..])
  }

  /** The last k bytes of s are one white-space character. */
  predicate EndsWithWhitespace(s: string, k: nat) {
    1 <= k <= |s| && WhitespaceAt(s[|s| - k..]) == k
  }

  /** How long the white space at the very end of s is. */
  function WhitespaceBefore(s: string): (n: nat)
    ensures n <= |s| && n <= 3
    ensures n > 0 ==> EndsWithWhitespace(s, n)
  {
    if EndsWithWhitespace(s, 1) then 1
    else if EndsWithWhitespace(s, 2) then 2
    else if EndsWithWhitespace(s, 3) then 3
    else 0
  }

  function TrimBack(s: string): (r: string)
    ensures r <= s && WhitespaceBefore(r) == 0
    decreases |s|
  {
    if WhitespaceBefore(s) == 0 then s else TrimBack(s[..|s| - WhitespaceBefore(s)])
  }

  function TrimJsWhitespace(s: string): string {
    TrimBack(TrimFront(s))
  }

  method Trim(text: string) returns (r: string)
    ensures r == TrimJsWhitespace(text)
  {
    hide WhitespaceAt, TrimBack;
    var begin := 0;
    assert text[0..] == text;
    while begin < |text|
      invariant begin <= |text| && TrimFront(text[begin..]) == TrimFront(text)
    {
      var length := WhitespaceAt(text[begin..]);
      if length == 0 {
        break;
      }
      assert text[begin..][length..] == text[begin + length..];
      begin := begin + length;
    }
    r := TrimEnd(text[begin..]);
  }

  method TrimEnd(s: string) returns (r: string)
    ensures r == TrimBack(s)
  {
    hide WhitespaceBefore;
    var end := |s|;
    assert s[..end] == s;
    while end > 0
      invariant 0 <= end <= |s| && TrimBack(s[..end]) == TrimBack(s)
    {
      var length := EndingWhitespace(s[..end]);
      if length == 0 {
        break;
      }
      assert s[..end][..end - length] == s[..end - length];
      end := end - length;
    }
    r := s[..end];
  }

  /** Tries each length a white-space character at the end of s may have. */
  method EndingWhitespace(s: string) returns (length: nat)
    ensures length == WhitespaceBefore(s) && length <= |s|
  {
    hide WhitespaceAt;
    var candidate := 1;
    while candidate <= 3 && candidate <= |s|
      invariant 1 <= candidate <= 4
      invariant forall k: nat :: 1 <= k < candidate ==> !EndsWithWhitespace(s, k)
    {
      if WhitespaceAt(s[|s| - candidate..]) == candidate {
        return candidate;
      }
      candidate := candidate + 1;
    }
    return 0;
  }

  /** What is trimmed is a stretch of the text that neither starts nor ends with white space. */
  lemma Trimmed(s: string) returns (from: nat)
    ensures var r := TrimJsWhitespace(s);
            && from + |r| <= |s| && s[from..from + |r|] == r
            && WhitespaceBefore(r) == 0 && (r != "" ==> WhitespaceAt(r) == 0)
  {
    hide TrimFront, TrimBack, WhitespaceAt, WhitespaceBefore;
    var f := TrimFront(s);
    var r := TrimBack(f);
    from := |s| - |f|;
    assert s[from..from + |r|] == f[..|r|];
    if r != "" {
      ShorterHead(f, |r|);
      assert f[..|r|] == r;
    }
  }

  /** What does not start with white space does not start with it when cut. */
  lemma ShorterHead(s: string, n: nat)
    requires 0 < n <= |s| && WhitespaceAt(s) == 0
    ensures WhitespaceAt(s[..n]) == 0
  {
  }

  // ----- URL lists -----------------------------------------------------------------------------

  /** A string without its trailing slashes; anything else as it is. */
  function Stripped(v: Value): Value {
    if v.String? then String(Urls.StripTrailingSlashes(v.s)) else v
  }

  predicate Present(kept: seq<Value>, v: Value) {
    exists i :: 0 <= i < |kept| && DeepEquals(kept[i], v)
  }

  function KeepNew(es: seq<Value>, kept: seq<Value>): seq<Value>
    decreases |es|
  {
    if es == [] then kept
    else KeepNew(es[1..], if Present(kept, Stripped(es[0])) then kept else kept + [Stripped(es[0])])
  }

  function CanonicalUrlList(list: Value): Value {
    if list.Array? then Array(KeepNew(list.elements, [])) else list
  }

  /** Strings are looked up in a set, other entries compared one by one. */
  method Canonicalize(list: Value) returns (r: Value)
    ensures r == CanonicalUrlList(list)
  {
    if !list.Array? {
      return list;
    }
    var es := list.elements;
    var result: seq<Value> := [];
    var strings: set<string> := {};
    var others: seq<Value> := [];
    var i := 0;
    while i < |es|
      invariant i <= |es| && KeepNew(es[i..], result) == KeepNew(es, [])
      invariant forall s :: s in strings <==> String(s) in result
      invariant forall v :: v in others <==> v in result && !v.String?
    {
      var item := es[i];
      assert es[i..][1..] == es[i + 1..];
      i := i + 1;
      if item.String? {
        var url := Urls.RemoveTrailingSlashes(item.s);
        PresentString(result, url);
        if url !in strings {
          strings := strings + {url};
          result := result + [String(url)];
        }
      } else {
        var seen := exists j :: 0 <= j < |others| && DeepEquals(others[j], item);
        if !seen {
          others := others + [item];
          result := result + [item];
        }
      }
    }
    r := Array(result);
  }

  lemma PresentString(kept: seq<Value>, s: string)
    ensures Present(kept, String(s)) <==> String(s) in kept
  {
    if String(s) in kept {
      var i :| 0 <= i < |kept| && kept[i] == String(s);
      assert DeepEquals(kept[i], String(s));
    }
  }

  /** Every entry is stripped and equal to none before it. */
  predicate Canonical(es: seq<Value>) {
    forall i :: 0 <= i < |es| ==> Stripped(es[i]) == es[i] && !Present(es[..i], es[i])
  }

  lemma {:induction false} KeepNewIsCanonical(es: seq<Value>, kept: seq<Value>)
    requires Canonical(kept)
    ensures Canonical(KeepNew(es, kept))
    decreases |es|
  {
    hide DeepEquals, Urls.StripTrailingSlashes;
    if es != [] {
      var v := Stripped(es[0]);
      if !Present(kept, v) {
        var next := kept + [v];
        assert forall i :: 0 <= i < |next| ==> next[..i] == kept[..i];
        KeepNewIsCanonical(es[1..], next);
      } else {
        KeepNewIsCanonical(es[1..], kept);
      }
    }
  }

  lemma {:induction false} CanonicalIsKept(es: seq<Value>, i: nat)
    requires Canonical(es) && i <= |es|
    ensures KeepNew(es[i..], es[..i]) == es
    decreases |es| - i
  {
    hide DeepEquals, Stripped, Present;
    if i < |es| {
      assert es[i..][1..] == es[i + 1..] && es[..i] + [es[i]] == es[..i + 1] && es[i..][0] == es[i];
      CanonicalIsKept(es, i + 1);
    } else {
      assert es[..i] == es && es[i..] == [];
    }
  }

  lemma ListIdempotent(list: Value)
    ensures CanonicalUrlList(CanonicalUrlList(list)) == CanonicalUrlList(list)
  {
    if list.Array? {
      var es := KeepNew(list.elements, []);
      KeepNewIsCanonical(list.elements, []);
      CanonicalIsKept(es, 0);
      assert es[0..] == es && es[..0] == [];
    }
  }

  // ----- what the canonical list ignores ------------------------------------------------------------

  lemma {:induction false} KeepNewSplit(a: seq<Value>, b: seq<Value>, kept: seq<Value>)
    ensures KeepNew(a + b, kept) == KeepNew(b, KeepNew(a, kept))
    decreases |a|
  {
    hide Present, Stripped;
    if a == [] {
      assert a + b == b;
    } else {
      assert (a + b)[1..] == a[1..] + b && (a + b)[0] == a[0];
      KeepNewSplit(a[1..], b, if Present(kept, Stripped(a[0])) then kept else kept + [Stripped(a[0])]);
    }
  }

  lemma {:induction false} KeepNewGrows(es: seq<Value>, kept: seq<Value>, v: Value)
    ensures kept <= KeepNew(es, kept)
    ensures Present(kept, v) ==> Present(KeepNew(es, kept), v)
    decreases |es|
  {
    hide DeepEquals, Stripped;
    if es != [] {
      KeepNewGrows(es[1..], if Present(kept, Stripped(es[0])) then kept else kept + [Stripped(es[0])], v);
    }
    var r := KeepNew(es, kept);
    if Present(kept, v) {
      var i :| 0 <= i < |kept| && DeepEquals(kept[i], v);
      assert r[i] == kept[i];
    }
  }

  /** A trailing slash on an entry changes nothing. */
  lemma SlashIgnored(before: seq<Value>, s: string, after: seq<Value>)
    ensures CanonicalUrlList(Array(before + [String(s + "/")] + after)) == CanonicalUrlList(Array(before + [String(s)] + after))
  {
    var slashed, plain := String(s + "/"), String(s);
    assert (s + "/")[..|s + "/"| - 1] == s;
    assert Stripped(slashed) == Stripped(plain);
    KeepNewSplit(before + [slashed], after, []);
    KeepNewSplit(before, [slashed], []);
    KeepNewSplit(before + [plain], after, []);
    KeepNewSplit(before, [plain], []);
  }

  /** So does repeating an entry. */
  lemma RepeatIgnored(before: seq<Value>, v: Value, middle: seq<Value>, after: seq<Value>)
    requires WellFormed(v)
    ensures CanonicalUrlList(Array(before + [v] + middle + [v] + after)) ==
            CanonicalUrlList(Array(before + [v] + middle + after))
  {
    hide DeepEquals, Stripped;
    var head := before + [v] + middle;
    var k, c := KeepNew(before, []), Stripped(v);
    KeepNewSplit(head + [v], after, []);
    KeepNewSplit(head, [v], []);
    KeepNewSplit(head, after, []);
    KeepNewSplit(before + [v], middle, []);
    KeepNewSplit(before, [v], []);
    assert Present(KeepNew([v], k), c) by {
      if !Present(k, c) {
        StrippedWellFormed(v);
        DeepEqualsIsEquivalence(c, c, c);
        assert (k + [c])[|k|] == c;
      }
    }
    KeepNewGrows(middle, KeepNew([v], k), c);
  }

  lemma StrippedWellFormed(v: Value)
    requires WellFormed(v)
    ensures WellFormed(Stripped(v))
  {
  }

  // ----- the canonical configuration ------------------------------------------------------------------

  function WithDefault(ms: seq<Member>, key: string, v: Value): seq<Member> {
    if GetIn(ms, key).Undefined? then SetIn(ms, key, v) else ms
  }

  function WithList(ms: seq<Member>, key: string): seq<Member> {
    if GetIn(ms, key).Array? then SetIn(ms, key, CanonicalUrlList(GetIn(ms, key))) else ms
  }

  function Defaulted(ms: seq<Member>): seq<Member> {
    WithDefault(
      WithDefault(
        WithDefault(
          WithDefault(
            WithDefault(ms, "disabled", Bool(false)), "queryUrls", Array([])), "rnu", String("")), "rn", String("")),
      "afterDownload", String("none"))
  }

  function CanonicalMembers(ms: seq<Member>): seq<Member> {
    WithList(WithList(Defaulted(ms), "endpoints"), "queryUrls")
  }

  function ParseObject(json: string): Option<seq<Member>> {
    match JsonText.Parse(json, JsonText.DEFAULT_LIMITS)
    case Some(Object(ms)) => Some(ms)
    case _ => None
  }

  /** CanonicalMembers lifted to texts; None stands for an undefined result. */
  function CanonicalNativeConfig(json: string): Option<seq<Member>> {
    match ParseObject(json)
    case Some(ms) => Some(CanonicalMembers(ms))
    case None => None
  }

  predicate ConfigsEquivalent(a: string, b: string) {
    var left, right := CanonicalNativeConfig(a), CanonicalNativeConfig(b);
    left.Some? && right.Some? && DeepEquals(Object(left.value), Object(right.value))
  }

  /** The default a missing key stands for. */
  function Default(key: string): Value {
    if key == "disabled" then Bool(false)
    else if key == "queryUrls" then Array([])
    else if key == "rnu" || key == "rn" then String("")
    else if key == "afterDownload" then String("none")
    else Undefined
  }

  function CanonicalMember(ms: seq<Member>, key: string): Value {
    var v := if GetIn(ms, key).Undefined? then Default(key) else GetIn(ms, key);
    if key == "endpoints" || key == "queryUrls" then CanonicalUrlList(v) else v
  }

  lemma WithDefaultGet(ms: seq<Member>, key: string, v: Value, other: string)
    ensures GetIn(WithDefault(ms, key, v), other) == if other == key && GetIn(ms, key).Undefined? then v else GetIn(ms, other)
  {
    SetGet(ms, key, v, other);
  }

  lemma WithListGet(ms: seq<Member>, key: string, other: string)
    ensures GetIn(WithList(ms, key), other) == if other == key then CanonicalUrlList(GetIn(ms, key)) else GetIn(ms, other)
  {
    SetGet(ms, key, CanonicalUrlList(GetIn(ms, key)), other);
  }

  /** The canonical form, key by key. */
  lemma CanonicalGet(ms: seq<Member>, key: string)
    ensures GetIn(CanonicalMembers(ms), key) == CanonicalMember(ms, key)
  {
    hide GetIn, WithDefault, WithList, CanonicalUrlList;
    var m1 := WithDefault(ms, "disabled", Bool(false));
    var m2 := WithDefault(m1, "queryUrls", Array([]));
    var m3 := WithDefault(m2, "rnu", String(""));
    var m4 := WithDefault(m3, "rn", String(""));
    WithDefaultGet(ms, "disabled", Bool(false), key);
    WithDefaultGet(m1, "queryUrls", Array([]), key);
    WithDefaultGet(m2, "rnu", String(""), key);
    WithDefaultGet(m3, "rn", String(""), key);
    WithDefaultGet(m4, "afterDownload", String("none"), key);
    WithListGet(Defaulted(ms), "endpoints", key);
    WithListGet(WithList(Defaulted(ms), "endpoints"), "queryUrls", key);
  }

  /** Canonicalising twice changes nothing, down to the order of the members. */
  lemma CanonicalIdempotent(ms: seq<Member>)
    ensures CanonicalMembers(CanonicalMembers(ms)) == CanonicalMembers(ms)
  {
    hide GetIn, SetIn, CanonicalMembers, CanonicalUrlList, KeepNew;
    var c := CanonicalMembers(ms);
    forall key: string
      ensures Default(key) != Undefined ==> GetIn(c, key) != Undefined
      ensures key == "endpoints" || key == "queryUrls" ==> CanonicalUrlList(GetIn(c, key)) == GetIn(c, key)
    {
      CanonicalGet(ms, key);
      var v := if GetIn(ms, key).Undefined? then Default(key) else GetIn(ms, key);
      ListIdempotent(v);
      ListKind(v);
    }
    assert Default("rnu") != Undefined && Default("rn") != Undefined;
    assert Defaulted(c) == c;
    ListIsSet(c, "endpoints");
    ListIsSet(c, "queryUrls");
    CanonicalMembersIs(c);
  }

  lemma CanonicalMembersIs(ms: seq<Member>)
    ensures CanonicalMembers(ms) == WithList(WithList(Defaulted(ms), "endpoints"), "queryUrls")
  {
  }

  lemma ListIsSet(ms: seq<Member>, key: string)
    requires CanonicalUrlList(GetIn(ms, key)) == GetIn(ms, key)
    ensures WithList(ms, key) == ms
  {
  }

  lemma ListKind(v: Value)
    ensures CanonicalUrlList(v).Undefined? <==> v.Undefined?
  {
  }

  lemma SetWellFormed(ms: seq<Member>, key: string, v: Value)
    requires WellFormed(Object(ms)) && WellFormed(v)
    ensures WellFormed(Object(SetIn(ms, key, v)))
  {
    SetKeepsDistinct(ms, key, v);
  }

  lemma {:induction false} KeepNewWellFormed(es: seq<Value>, kept: seq<Value>)
    requires WellFormed(Array(es)) && WellFormed(Array(kept))
    ensures WellFormed(Array(KeepNew(es, kept)))
    decreases |es|
  {
    hide Present;
    if es != [] {
      StrippedWellFormed(es[0]);
      KeepNewWellFormed(es[1..], if Present(kept, Stripped(es[0])) then kept else kept + [Stripped(es[0])]);
    }
  }

  lemma DefaultWellFormed(ms: seq<Member>, key: string, v: Value)
    requires WellFormed(Object(ms)) && WellFormed(v)
    ensures WellFormed(Object(WithDefault(ms, key, v)))
  {
    SetWellFormed(ms, key, v);
  }

  lemma ListWellFormed(ms: seq<Member>, key: string)
    requires WellFormed(Object(ms))
    ensures WellFormed(Object(WithList(ms, key)))
  {
    var list := GetIn(ms, key);
    if list.Array? {
      KeepNewWellFormed(list.elements, []);
      SetWellFormed(ms, key, CanonicalUrlList(list));
    }
  }

  lemma CanonicalWellFormed(ms: seq<Member>)
    requires WellFormed(Object(ms))
    ensures WellFormed(Object(CanonicalMembers(ms)))
  {
    hide WellFormed, WithDefault, WithList;
    DefaultsWellFormed();
    var m1 := WithDefault(ms, "disabled", Bool(false));
    var m2 := WithDefault(m1, "queryUrls", Array([]));
    var m3 := WithDefault(m2, "rnu", String(""));
    var m4 := WithDefault(m3, "rn", String(""));
    DefaultWellFormed(ms, "disabled", Bool(false));
    DefaultWellFormed(m1, "queryUrls", Array([]));
    DefaultWellFormed(m2, "rnu", String(""));
    DefaultWellFormed(m3, "rn", String(""));
    DefaultWellFormed(m4, "afterDownload", String("none"));
    ListWellFormed(Defaulted(ms), "endpoints");
    ListWellFormed(WithList(Defaulted(ms), "endpoints"), "queryUrls");
  }

  lemma DefaultsWellFormed()
    ensures WellFormed(Bool(false)) && WellFormed(String("")) && WellFormed(String("none")) && WellFormed(Array([]))
  {
  }

  // ----- congruence ----------------------------------------------------------------------------------------

  ghost predicate SameList(xs: seq<Value>, ys: seq<Value>) {
    |xs| == |ys| && forall i :: 0 <= i < |xs| ==> SameValue(xs[i], ys[i])
  }

  lemma SameStripped(x: Value, y: Value)
    requires SameValue(x, y)
    ensures SameValue(Stripped(x), Stripped(y))
  {
  }

  lemma PresentCongruent(kept: seq<Value>, other: seq<Value>, v: Value, w: Value)
    requires SameList(kept, other) && SameValue(v, w)
    requires WellFormed(Array(kept)) && WellFormed(Array(other)) && WellFormed(v) && WellFormed(w)
    requires Present(kept, v)
    ensures Present(other, w)
  {
    var i :| 0 <= i < |kept| && DeepEquals(kept[i], v);
    DeepEqualsIsSameValue(kept[i], v);
    SameValueSymmetric(kept[i], other[i]);
    SameValueTransitive(other[i], kept[i], v);
    SameValueTransitive(other[i], v, w);
    DeepEqualsIsSameValue(other[i], w);
  }

  lemma SameListSymmetric(xs: seq<Value>, ys: seq<Value>)
    requires SameList(xs, ys)
    ensures SameList(ys, xs)
  {
    forall i | 0 <= i < |ys| ensures SameValue(ys[i], xs[i]) {
      SameValueSymmetric(xs[i], ys[i]);
    }
  }

  lemma {:induction false} KeepNewCongruent(xs: seq<Value>, ys: seq<Value>, kept: seq<Value>, other: seq<Value>)
    requires SameList(xs, ys) && SameList(kept, other)
    requires WellFormed(Array(xs)) && WellFormed(Array(ys)) && WellFormed(Array(kept)) && WellFormed(Array(other))
    ensures SameList(KeepNew(xs, kept), KeepNew(ys, other))
    decreases |xs|
  {
    hide Present, SameValue, Stripped;
    if xs != [] {
      var v, w := Stripped(xs[0]), Stripped(ys[0]);
      StrippedWellFormed(xs[0]);
      StrippedWellFormed(ys[0]);
      SameStripped(xs[0], ys[0]);
      if Present(kept, v) {
        PresentCongruent(kept, other, v, w);
        KeepNewCongruent(xs[1..], ys[1..], kept, other);
      } else {
        if Present(other, w) {
          SameListSymmetric(kept, other);
          SameValueSymmetric(v, w);
          PresentCongruent(other, kept, w, v);
        }
        KeepNewCongruent(xs[1..], ys[1..], kept + [v], other + [w]);
      }
    }
  }

  lemma SameByKeys(xs: seq<Member>, ys: seq<Member>)
    requires forall key: string :: SameValue(GetIn(xs, key), GetIn(ys, key))
    ensures SameValue(Object(xs), Object(ys))
  {
    forall key: string
      ensures var i, y := IndexOf(xs, key), GetIn(ys, key);
              if i < |xs| && !xs[i].value.Undefined? then !y.Undefined? && SameValue(xs[i].value, y) else y.Undefined?
    {
      assert SameValue(GetIn(xs, key), GetIn(ys, key));
    }
  }

  lemma SameCanonical(xs: seq<Member>, ys: seq<Member>, key: string)
    requires WellFormed(Object(xs)) && WellFormed(Object(ys)) && SameValue(GetIn(xs, key), GetIn(ys, key))
    ensures SameValue(CanonicalMember(xs, key), CanonicalMember(ys, key))
  {
    var x, y := GetIn(xs, key), GetIn(ys, key);
    if x.Undefined? {
      DefaultSame(key);
    } else if x.Array? {
      KeepNewCongruent(x.elements, y.elements, [], []);
    }
  }

  lemma DefaultSame(key: string)
    ensures SameValue(Default(key), Default(key))
    ensures SameValue(CanonicalUrlList(Default(key)), CanonicalUrlList(Default(key)))
  {
  }

  /** Two configurations are equivalent exactly when their canonical values agree under every key. */
  lemma EquivalentIff(a: string, b: string)
    requires ParseObject(a).Some? && ParseObject(b).Some?
    ensures ConfigsEquivalent(a, b) <==> forall key: string ::
              SameValue(CanonicalMember(ParseObject(a).value, key), CanonicalMember(ParseObject(b).value, key))
  {
    hide SameValue, CanonicalMembers, CanonicalMember, ConfigsEquivalent, ParseObject, GetIn;
    var xs, ys := ParseObject(a).value, ParseObject(b).value;
    EquivalentIsSame(a, b);
    forall key: string
      ensures GetIn(CanonicalMembers(xs), key) == CanonicalMember(xs, key)
      ensures GetIn(CanonicalMembers(ys), key) == CanonicalMember(ys, key)
    {
      CanonicalGet(xs, key);
      CanonicalGet(ys, key);
    }
    if ConfigsEquivalent(a, b) {
      forall key: string ensures SameValue(CanonicalMember(xs, key), CanonicalMember(ys, key)) {
        SameKey(CanonicalMembers(xs), CanonicalMembers(ys), key);
      }
    }
    if forall key: string :: SameValue(CanonicalMember(xs, key), CanonicalMember(ys, key)) {
      SameByKeys(CanonicalMembers(xs), CanonicalMembers(ys));
    }
  }

  lemma SameKey(xs: seq<Member>, ys: seq<Member>, key: string)
    requires SameValue(Object(xs), Object(ys))
    ensures SameValue(GetIn(xs, key), GetIn(ys, key))
  {
  }

  /** Reordering keys, at any depth, changes nothing. */
  lemma KeyOrderIgnored(a: string, b: string)
    requires ParseObject(a).Some? && ParseObject(b).Some?
    requires SameValue(Object(ParseObject(a).value), Object(ParseObject(b).value))
    ensures ConfigsEquivalent(a, b)
  {
    hide SameValue, ConfigsEquivalent, CanonicalMember, ParseObject;
    ParsedWellFormed(a);
    ParsedWellFormed(b);
    EquivalentIff(a, b);
    var xs, ys := ParseObject(a).value, ParseObject(b).value;
    forall key: string ensures SameValue(CanonicalMember(xs, key), CanonicalMember(ys, key)) {
      SameKey(xs, ys, key);
      SameCanonical(xs, ys, key);
    }
  }

  /** v is w with one more trailing slash on one of its strings. */
  ghost predicate OneMoreSlash(v: Value, w: Value) {
    && v.Array? && w.Array?
    && exists i :: 0 <= i < |w.elements| && w.elements[i].String? &&
                   v.elements == w.elements[i := String(w.elements[i].s + "/")]
  }

  /** v is w with one of its entries repeated further on. */
  ghost predicate OneMoreRepeat(v: Value, w: Value) {
    && v.Array? && w.Array?
    && exists i, j :: 0 <= i < j < |v.elements| && v.elements[i] == v.elements[j] &&
                      w.elements == v.elements[..j] + v.elements[j + 1..]
  }

  ghost predicate Variant(v: Value, w: Value) {
    OneMoreSlash(v, w) || OneMoreSlash(w, v) || OneMoreRepeat(v, w) || OneMoreRepeat(w, v)
  }

  lemma SlashKeepsList(v: Value, w: Value)
    requires OneMoreSlash(v, w)
    ensures CanonicalUrlList(v) == CanonicalUrlList(w)
  {
    hide CanonicalUrlList;
    var es := w.elements;
    var i :| 0 <= i < |es| && es[i].String? && v.elements == es[i := String(es[i].s + "/")];
    SlashIgnored(es[..i], es[i].s, es[i + 1..]);
    assert es == es[..i] + [String(es[i].s)] + es[i + 1..];
    assert v.elements == es[..i] + [String(es[i].s + "/")] + es[i + 1..];
  }

  lemma RepeatKeepsList(v: Value, w: Value)
    requires OneMoreRepeat(v, w) && WellFormed(v)
    ensures CanonicalUrlList(v) == CanonicalUrlList(w)
  {
    hide CanonicalUrlList;
    var es := v.elements;
    var i, j :| 0 <= i < j < |es| && es[i] == es[j] && w.elements == es[..j] + es[j + 1..];
    RepeatIgnored(es[..i], es[i], es[i + 1..j], es[j + 1..]);
    var head := es[..i] + [es[i]] + es[i + 1..j];
    assert head == es[..j];
    assert es == head + [es[i]] + es[j + 1..];
  }

  /**
   Trailing slashes and repeated URLs change nothing: configurations whose URL lists differ by
   one of either, and that agree on every other key, are equivalent.
   */
  lemma SlashesAndRepeatsIgnored(a: string, b: string)
    requires ParseObject(a).Some? && ParseObject(b).Some?
    requires forall key: string ::
               var v, w := GetIn(ParseObject(a).value, key), GetIn(ParseObject(b).value, key);
               SameValue(v, w) || ((key == "endpoints" || key == "queryUrls") && Variant(v, w))
    ensures ConfigsEquivalent(a, b)
  {
    hide SameValue, ConfigsEquivalent, CanonicalMember, ParseObject, GetIn, OneMoreSlash, OneMoreRepeat;
    var xs, ys := ParseObject(a).value, ParseObject(b).value;
    ParsedWellFormed(a);
    ParsedWellFormed(b);
    EquivalentIff(a, b);
    forall key: string ensures SameValue(CanonicalMember(xs, key), CanonicalMember(ys, key)) {
      if SameValue(GetIn(xs, key), GetIn(ys, key)) {
        SameCanonical(xs, ys, key);
      } else {
        VariantCanonical(xs, ys, key);
      }
    }
  }

  lemma VariantCanonical(xs: seq<Member>, ys: seq<Member>, key: string)
    requires WellFormed(Object(xs)) && WellFormed(Object(ys)) && (key == "endpoints" || key == "queryUrls")
    requires Variant(GetIn(xs, key), GetIn(ys, key))
    ensures SameValue(CanonicalMember(xs, key), CanonicalMember(ys, key))
  {
    hide OneMoreSlash, OneMoreRepeat, SameValue, CanonicalUrlList;
    var v, w := GetIn(xs, key), GetIn(ys, key);
    ArrayVariant(v, w);
    if OneMoreSlash(v, w) { SlashKeepsList(v, w); }
    if OneMoreSlash(w, v) { SlashKeepsList(w, v); }
    if OneMoreRepeat(v, w) { RepeatKeepsList(v, w); }
    if OneMoreRepeat(w, v) { RepeatKeepsList(w, v); }
    KeepNewWellFormed(v.elements, []);
    ListIs(v);
    SameValueReflexive(CanonicalUrlList(v));
  }

  lemma ArrayVariant(v: Value, w: Value)
    requires Variant(v, w)
    ensures v.Array? && w.Array?
  {
  }

  lemma ListIs(v: Value)
    requires v.Array?
    ensures CanonicalUrlList(v) == Array(KeepNew(v.elements, []))
  {
  }

  lemma ParsedWellFormed(json: string)
    requires ParseObject(json).Some?
    ensures WellFormed(Object(ParseObject(json).value))
  {
    JsonRoundTrip.ParseIsSound(json, JsonText.DEFAULT_LIMITS);
  }

  /**
   The equivalence is one: reflexive on JSON objects and on nothing else, symmetric and
   transitive on every text.
   */
  lemma ConfigsEquivalentLaws(a: string, b: string, c: string)
    ensures ConfigsEquivalent(a, a) <==> ParseObject(a).Some?
    ensures ConfigsEquivalent(a, b) ==> ConfigsEquivalent(b, a)
    ensures ConfigsEquivalent(a, b) && ConfigsEquivalent(b, c) ==> ConfigsEquivalent(a, c)
  {
    hide CanonicalMembers, DeepEquals, ParseObject;
    EquivalentIsSame(a, a);
    EquivalentIsSame(a, b);
    EquivalentIsSame(b, a);
    EquivalentIsSame(b, c);
    EquivalentIsSame(a, c);
    if ParseObject(a).Some? {
      var x := CanonicalMembers(ParseObject(a).value);
      ParsedWellFormed(a);
      CanonicalWellFormed(ParseObject(a).value);
      SameValueReflexive(Object(x));
      if ParseObject(b).Some? && ConfigsEquivalent(a, b) {
        var y := CanonicalMembers(ParseObject(b).value);
        SameValueSymmetric(Object(x), Object(y));
        if ConfigsEquivalent(b, c) {
          SameValueTransitive(Object(x), Object(y), Object(CanonicalMembers(ParseObject(c).value)));
        }
      }
    }
  }

  lemma EquivalentIsSame(a: string, b: string)
    ensures ConfigsEquivalent(a, b) <==>
            && ParseObject(a).Some? && ParseObject(b).Some?
            && SameValue(Object(CanonicalMembers(ParseObject(a).value)), Object(CanonicalMembers(ParseObject(b).value)))
  {
    hide CanonicalMembers, DeepEquals, SameValue, ParseObject;
    if ParseObject(a).Some? && ParseObject(b).Some? {
      ParsedWellFormed(a);
      ParsedWellFormed(b);
      CanonicalWellFormed(ParseObject(a).value);
      CanonicalWellFormed(ParseObject(b).value);
      DeepEqualsIsSameValue(Object(CanonicalMembers(ParseObject(a).value)), Object(CanonicalMembers(ParseObject(b).value)));
    }
  }

  // ----- the gate ------------------------------------------------------------------------------------------------

  datatype Gate =
    | Runnable(appKey: string, config: seq<Member>)
    | Rejected(status: string, reason: string)

  function ParseRunnableConfig(json: string): (g: Gate)
    ensures g.Runnable? ==> g.appKey != ""
  {
    if json == "" then Rejected("skipped", "not_configured")
    else
      match ParseObject(json)
      case None => Rejected("failed", "invalid_config")
      case Some(config) =>
        if Truthy(GetIn(config, "disabled")) then Rejected("skipped", "disabled")
        else
          var appKey := GetIn(config, "appKey");
          var trimmed := if appKey.String? then TrimJsWhitespace(appKey.s) else "";
          if trimmed == "" then Rejected("failed", "invalid_config") else Runnable(trimmed, config)
  }
}
