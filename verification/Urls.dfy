/**
 The URL scanners of the decision layer and of the configuration gate
 (cpp/update_flow_core/update_flow_core.cpp:144-165, native_config.cpp:62-67 and 122-179,
 native_round.cpp:25-63). Each scanner is a single pass; each is proved against the pattern
 it stands for, given as the existence of a split.
 */
module Urls {
  // ----- runs --------------------------------------------------------------------------

  /** How many characters at the head of s satisfy f. */
  function Run(s: string, f: char -> bool): (k: nat)
    ensures k <= |s|
    ensures forall i :: 0 <= i < k ==> f(s[i])
    ensures k < |s| ==> !f(s[k])
  {
    if s != "" && f(s[0]) then 1 + Run(s[1..], f) else 0
  }

  /** A run is the only stretch of such characters that is not followed by another one. */
  lemma {:induction false} RunIs(s: string, f: char -> bool, k: nat)
    requires k <= |s| && (forall i :: 0 <= i < k ==> f(s[i])) && (k < |s| ==> !f(s[k]))
    ensures Run(s, f) == k
  {
    if k > 0 {
      RunIs(s[1..], f, k - 1);
    }
  }

  predicate All(s: string, f: char -> bool) {
    forall i :: 0 <= i < |s| ==> f(s[i])
  }

  predicate StartsWith(s: string, p: string) {
    |p| <= |s| && forall i :: 0 <= i < |p| ==> s[i] == p[i]
  }

  /** s.compare(i, |p|, p) == 0. */
  predicate IsAt(s: string, i: nat, p: string)
    requires i <= |s|
  {
    StartsWith(s[i..], p)
  }

  // ----- trailing slashes -----------------------------------------------------------------

  function StripTrailingSlashes(s: string): (r: string)
    ensures r <= s && (r != "" ==> r[|r| - 1] != '/')
    ensures forall i :: |r| <= i < |s| ==> s[i] == '/'
  {
    if s != "" && s[|s| - 1] == '/' then StripTrailingSlashes(s[..|s| - 1]) else s
  }

  /** Nothing else is a prefix that stops exactly before the trailing slashes. */
  lemma StripIs(s: string, r: string)
    requires r <= s && (r != "" ==> r[|r| - 1] != '/')
    requires forall i :: |r| <= i < |s| ==> s[i] == '/'
    ensures StripTrailingSlashes(s) == r
  {
    var t := StripTrailingSlashes(s);
    assert t != "" ==> t[|t| - 1] == s[|t| - 1];
    assert r != "" ==> r[|r| - 1] == s[|r| - 1];
    assert |t| == |r|;
  }

  method RemoveTrailingSlashes(text: string) returns (r: string)
    ensures r == StripTrailingSlashes(text)
  {
    r := text;
    while r != "" && r[|r| - 1] == '/'
      invariant StripTrailingSlashes(r) == StripTrailingSlashes(text)
      decreases |r|
    {
      r := r[..|r| - 1];
    }
  }

  // ----- schemes ------------------------------------------------------------------------------

  predicate IsAlpha(c: char) {
    'a' <= c <= 'z' || 'A' <= c <= 'Z'
  }

  predicate IsDigit(c: char) {
    '0' <= c <= '9'
  }

  predicate IsSchemeChar(c: char) {
    IsAlpha(c) || IsDigit(c) || c == '+' || c == '.' || c == '-'
  }

  /** The pattern ^[a-z][a-z0-9+.-]*://, ignoring case. */
  ghost predicate MatchesScheme(s: string) {
    exists scheme, rest: string :: s == scheme + "://" + rest && scheme != "" && IsAlpha(scheme[0]) && All(scheme, IsSchemeChar)
  }

  predicate HasExplicitScheme(s: string) {
    s != "" && IsAlpha(s[0]) && StartsWith(s[Run(s, IsSchemeChar)..], "://")
  }

  method ScanScheme(s: string) returns (ok: bool)
    ensures ok <==> HasExplicitScheme(s)
  {
    var i := 0;
    if i >= |s| || !IsAlpha(s[i]) {
      return false;
    }
    i := i + 1;
    while i < |s| && IsSchemeChar(s[i])
      invariant 1 <= i <= |s| && forall j :: 0 <= j < i ==> IsSchemeChar(s[j])
    {
      i := i + 1;
    }
    RunIs(s, IsSchemeChar, i);
    ok := IsAt(s, i, "://");
  }

  lemma SchemeScanMatches(s: string)
    ensures HasExplicitScheme(s) <==> MatchesScheme(s)
  {
    if HasExplicitScheme(s) {
      var k := Run(s, IsSchemeChar);
      assert s == s[..k] + "://" + s[k + 3..];
      assert All(s[..k], IsSchemeChar);
    }
    if MatchesScheme(s) {
      var scheme, rest: string :| s == scheme + "://" + rest && scheme != "" && IsAlpha(scheme[0]) && All(scheme, IsSchemeChar);
      SchemeRun(s, scheme, rest);
    }
  }

  lemma SchemeRun(s: string, scheme: string, rest: string)
    requires s == scheme + "://" + rest && scheme != "" && IsAlpha(scheme[0]) && All(scheme, IsSchemeChar)
    ensures HasExplicitScheme(s)
  {
    assert forall i :: 0 <= i < |scheme| ==> s[i] == scheme[i];
    assert s[|scheme|..] == "://" + rest;
    assert s[|scheme|] == s[|scheme|..][0];
    RunIs(s, IsSchemeChar, |scheme|);
  }

  /** A URL keeps its scheme when something is appended. */
  lemma SchemeKept(s: string, tail: string)
    requires HasExplicitScheme(s)
    ensures HasExplicitScheme(s + tail)
  {
    SchemeScanMatches(s);
    var scheme, rest: string :| s == scheme + "://" + rest && scheme != "" && IsAlpha(scheme[0]) && All(scheme, IsSchemeChar);
    assert s + tail == scheme + "://" + (rest + tail);
    SchemeScanMatches(s + tail);
  }

  lemma HttpsIsScheme(s: string)
    ensures HasExplicitScheme("https://" + s)
  {
    var scheme := "https";
    assert "https://" + s == scheme + "://" + s;
    SchemeScanMatches("https://" + s);
  }

  // ----- prefixes -----------------------------------------------------------------------------

  function LowerAscii(c: char): char {
    if 'A' <= c <= 'Z' then (c as int - 'A' as int + 'a' as int) as char else c
  }

  /** Compares with a prefix that is already lower case. */
  predicate HasPrefixIgnoringCase(text: string, prefix: string) {
    |prefix| <= |text| && forall i :: 0 <= i < |prefix| ==> LowerAscii(text[i]) == prefix[i]
  }

  method ScanPrefix(text: string, prefix: string) returns (ok: bool)
    ensures ok <==> HasPrefixIgnoringCase(text, prefix)
  {
    var i := 0;
    while i < |prefix|
      invariant i <= |prefix| && i <= |text|
      invariant forall j :: 0 <= j < i ==> LowerAscii(text[j]) == prefix[j]
    {
      if i >= |text| {
        return false;
      }
      if LowerAscii(text[i]) != prefix[i] {
        return false;
      }
      i := i + 1;
    }
    return true;
  }

  predicate IsHttpsUrl(url: string) {
    HasPrefixIgnoringCase(url, "https://")
  }

  predicate IsCleartextUrl(url: string) {
    HasPrefixIgnoringCase(url, "http://")
  }

  // ----- the authority of a configured URL ---------------------------------------------------------

  predicate IsHexDigit(c: char) {
    IsDigit(c) || 'a' <= c <= 'f' || 'A' <= c <= 'F'
  }

  predicate IsAddressChar(c: char) {
    IsHexDigit(c) || c == ':'
  }

  predicate IsHostChar(c: char) {
    IsAlpha(c) || IsDigit(c) || c == '.' || c == '-'
  }

  predicate IsHost(h: string) {
    || (h != "" && All(h, IsHostChar))
    || (|h| >= 3 && h[0] == '[' && h[|h| - 1] == ']' && All(h[1..|h| - 1], IsAddressChar))
  }

  predicate IsPort(p: string) {
    p == "" || (|p| >= 2 && p[0] == ':' && All(p[1..], IsDigit))
  }

  predicate IsTail(t: string) {
    t == "" || t[0] == '/' || t[0] == '?' || t[0] == '#'
  }

  predicate Splits(url: string, scheme: string, host: string, port: string, tail: string) {
    && url == scheme + host + port + tail
    && (scheme == "http://" || scheme == "https://")
    && IsHost(host) && IsPort(port) && IsTail(tail)
  }

  /** The pattern ^https?://(\[[0-9a-fA-F:]+\]|[a-zA-Z0-9.-]+)(:[0-9]+)?([/?#]|$). */
  ghost predicate MatchesAuthority(url: string) {
    exists scheme, host, port, tail :: Splits(url, scheme, host, port, tail)
  }

  function SchemeLength(url: string): (k: nat)
    ensures k <= |url|
  {
    if StartsWith(url, "https://") then 8 else if StartsWith(url, "http://") then 7 else 0
  }

  /** How long the host at the head of s is; 0 when there is none. */
  function HostLength(s: string): (k: nat)
    ensures k <= |s|
  {
    if s != "" && s[0] == '[' then
      var k := Run(s[1..], IsAddressChar) + 1;
      if k == 1 || k >= |s| || s[k] != ']' then 0 else k + 1
    else Run(s, IsHostChar)
  }

  predicate PortAndTail(s: string) {
    if s != "" && s[0] == ':' then
      var k := Run(s[1..], IsDigit);
      k > 0 && IsTail(s[1 + k..])
    else IsTail(s)
  }

  predicate HasHttpAuthority(url: string) {
    var k := SchemeLength(url);
    var h := HostLength(url[k..]);
    k > 0 && h > 0 && PortAndTail(url[k..][h..])
  }

  method ScanAuthority(url: string) returns (ok: bool)
    ensures ok <==> HasHttpAuthority(url)
  {
    hide HostLength, PortAndTail;
    if !IsAt(url, 0, "http") {
      return false;
    }
    var i := 4;
    if i < |url| && url[i] == 's' {
      i := i + 1;
    }
    if !IsAt(url, i, "://") {
      return false;
    }
    i := i + 3;
    assert SchemeLength(url) == i;
    ghost var host := i;
    var found := false;
    found, i := ScanHost(url, i);
    if !found {
      return false;
    }
    assert url[host..][i - host..] == url[i..];
    ok := ScanPortAndTail(url, i);
  }

  method ScanHost(url: string, host: nat) returns (ok: bool, i: nat)
    requires host <= |url|
    ensures ok <==> HostLength(url[host..]) > 0
    ensures host <= i <= |url| && (ok ==> HostLength(url[host..]) == i - host)
  {
    i := host;
    ghost var s := url[host..];
    if i < |url| && url[i] == '[' {
      i := i + 1;
      while i < |url| && IsAddressChar(url[i])
        invariant host < i <= |url| && forall j :: host < j < i ==> IsAddressChar(url[j])
      {
        i := i + 1;
      }
      RunIs(s[1..], IsAddressChar, i - host - 1);
      if i == host + 1 || i >= |url| || url[i] != ']' {
        return false, i;
      }
      return true, i + 1;
    }
    while i < |url| && IsHostChar(url[i])
      invariant host <= i <= |url| && forall j :: host <= j < i ==> IsHostChar(url[j])
    {
      i := i + 1;
    }
    RunIs(s, IsHostChar, i - host);
    ok := i != host;
  }

  method ScanPortAndTail(url: string, end: nat) returns (ok: bool)
    requires end <= |url|
    ensures ok <==> PortAndTail(url[end..])
  {
    var i := end;
    ghost var t := url[end..];
    if i < |url| && url[i] == ':' {
      i := i + 1;
      while i < |url| && IsDigit(url[i])
        invariant end < i <= |url| && forall j :: end < j < i ==> IsDigit(url[j])
      {
        i := i + 1;
      }
      RunIs(t[1..], IsDigit, i - end - 1);
      if i == end + 1 {
        return false;
      }
      assert t[i - end..] == url[i..];
    }
    ok := i == |url| || url[i] == '/' || url[i] == '?' || url[i] == '#';
  }

  /** The one-pass scan accepts exactly what the pattern matches. */
  lemma AuthorityScanMatches(url: string)
    ensures HasHttpAuthority(url) <==> MatchesAuthority(url)
  {
    if HasHttpAuthority(url) {
      ScanSplits(url);
    }
    if MatchesAuthority(url) {
      var scheme, host, port, tail :| Splits(url, scheme, host, port, tail);
      SplitScans(url, scheme, host, port, tail);
    }
  }

  lemma SplitScans(url: string, scheme: string, host: string, port: string, tail: string)
    requires Splits(url, scheme, host, port, tail)
    ensures HasHttpAuthority(url)
  {
    hide HostLength, PortAndTail, IsPort, IsTail;
    var s := host + (port + tail);
    SplitHost(host, port, tail);
    SplitPort(port, tail);
    assert url == scheme + s;
    assert scheme[4] == url[4];
    assert SchemeLength(url) == |scheme|;
    assert url[|scheme|..] == s && s[|host|..] == port + tail;
    assert host != "";
  }

  lemma SchemePart(url: string)
    requires SchemeLength(url) > 0
    ensures url[..SchemeLength(url)] == "http://" || url[..SchemeLength(url)] == "https://"
  {
    var scheme := if SchemeLength(url) == 8 then "https://" else "http://";
    assert url[..SchemeLength(url)] == scheme;
  }

  lemma HostPart(s: string)
    requires HostLength(s) > 0
    ensures IsHost(s[..HostLength(s)])
  {
    var h := HostLength(s);
    if s[0] == '[' {
      assert s[..h][1..h - 1] == s[1..][..h - 2];
    }
  }

  lemma PortPart(t: string) returns (p: nat)
    requires PortAndTail(t)
    ensures p <= |t| && IsPort(t[..p]) && IsTail(t[p..])
  {
    if t != "" && t[0] == ':' {
      var k := Run(t[1..], IsDigit);
      p := 1 + k;
      assert t[..p][1..] == t[1..][..k];
    } else {
      p := 0;
      assert t[0..] == t;
    }
  }

  lemma Parts(url: string, k: nat, h: nat, p: nat)
    requires k + h + p <= |url|
    ensures url == url[..k] + url[k..][..h] + url[k..][h..][..p] + url[k..][h..][p..]
  {
    var s := url[k..];
    assert url == url[..k] + s;
    assert s == s[..h] + s[h..];
    assert s[h..] == s[h..][..p] + s[h..][p..];
  }

  lemma ScanSplits(url: string)
    requires HasHttpAuthority(url)
    ensures MatchesAuthority(url)
  {
    hide SchemeLength, HostLength, PortAndTail, IsHost, IsPort, IsTail;
    SchemePart(url);
    var k := SchemeLength(url);
    var s := url[k..];
    var h := HostLength(s);
    var t := s[h..];
    HostPart(s);
    var p := PortPart(t);
    Parts(url, k, h, p);
    assert Splits(url, url[..k], s[..h], t[..p], t[p..]);
  }

  lemma SplitHost(host: string, port: string, tail: string)
    requires IsHost(host) && IsPort(port) && IsTail(tail)
    ensures HostLength(host + (port + tail)) == |host|
  {
    var t := port + tail;
    assert t != "" ==> !IsHostChar(t[0]);
    if host[0] == '[' {
      var middle := host[1..|host| - 1];
      assert (host + t)[1..] == middle + "]" + t;
      RunIs((host + t)[1..], IsAddressChar, |middle|);
    } else {
      RunIs(host + t, IsHostChar, |host|);
    }
  }

  lemma SplitPort(port: string, tail: string)
    requires IsPort(port) && IsTail(tail)
    ensures PortAndTail(port + tail)
  {
    var s := port + tail;
    if port != "" {
      assert s[1..] == port[1..] + tail;
      RunIs(s[1..], IsDigit, |port| - 1);
      assert s[1 + (|port| - 1)..] == tail;
    } else {
      assert s == tail;
    }
  }
}
