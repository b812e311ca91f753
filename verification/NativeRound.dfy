/**
 The values a round is made of (cpp/update_flow_core/native_round.cpp): the request body, the
 query as a state that answers move on, and the plan cut down to what this device can use.
 */
module NativeRound {
  import opened Decision
  import opened FlowJson
  import opened Wrappers
  import NativeConfig
  import Urls

  const MAX_QUERY_REQUESTS: nat := 8
  const QUERY_PATH := "/checkUpdate/"
  const INFO_FORCE_BOOT := "forceBootRescue"
  const SUPPORTED_DIFF_VERSION := 2.0

  // ----- the request -----------------------------------------------------------------------

  datatype RequestInput = RequestInput(
    packageVersion: Value, currentVersion: Value, buildTime: Value, cInfo: Value,
    supportedDiffVersion: Value, bundleHash: Value, isDev: bool, extra: Value)

  function SetOrRemove(ms: seq<Member>, key: string, v: Value): seq<Member> {
    if Truthy(v) then SetIn(ms, key, v) else RemoveIn(ms, key)
  }

  /** The fixed keys are set over the extras, and so win over them. */
  function BuildRequestBody(input: RequestInput): Value {
    var extra := Members(input.extra);
    var b0 := Overlay([], extra);
    var b1 := SetIn(b0, "packageVersion", input.packageVersion);
    var b2 := SetIn(b1, "hash", input.currentVersion);
    var b3 := SetIn(b2, "buildTime", input.buildTime);
    var b4 := SetIn(b3, "cInfo", input.cInfo);
    var b5 := SetOrRemove(b4, "diffV", input.supportedDiffVersion);
    var b6 := SetOrRemove(b5, "bundleHash", input.bundleHash);
    var b7 := if input.isDev then RemoveIn(b6, "buildTime") else b6;
    Object(if extra != [] then SetIn(b7, "extra", Object(Overlay([], extra))) else b7)
  }

  function StringOr(v: Value, fallback: string): Value {
    if v.String? then v else String(fallback)
  }

  function IdentityOf(config: seq<Member>, env: Value): Identity {
    var configured := GetIn(config, "packageVersion");
    Identity(
      if configured.String? && configured.s != "" then configured else Get(env, "packageVersion"),
      Get(env, "currentVersion"), StringOr(Get(env, "uuid"), ""), Get(env, "rolledBackVersion"))
  }

  function RequestBody(config: seq<Member>, env: Value): Value {
    var id := IdentityOf(config, env);
    BuildRequestBody(
      RequestInput(
        id.packageVersion, Get(env, "currentVersion"), Get(env, "buildTime"),
        Object([Member("rnu", StringOr(GetIn(config, "rnu"), "")), Member("rn", StringOr(GetIn(config, "rn"), "")),
                Member("os", Get(env, "os")), Member("uuid", id.uuid)]),
        Number(SUPPORTED_DIFF_VERSION), Get(env, "bundleHash"), false, Undefined))
  }

  lemma RemoveGet(ms: seq<Member>, key: string, other: string)
    requires DistinctKeys(ms)
    ensures DistinctKeys(RemoveIn(ms, key))
    ensures GetIn(RemoveIn(ms, key), other) == if other == key then Undefined else GetIn(ms, other)
  {
    var i, j, r := IndexOf(ms, key), IndexOf(ms, other), RemoveIn(ms, key);
    if i < |ms| {
      forall a, b | 0 <= a < b < |r| ensures r[a].key != r[b].key {
        assert r[a] == ms[if a < i then a else a + 1] && r[b] == ms[if b < i then b else b + 1];
      }
      if other == key || j == |ms| {
        forall k | 0 <= k < |r| ensures r[k].key != other {
          assert r[k] == ms[if k < i then k else k + 1];
        }
        IndexIs(r, other, |r|);
      } else {
        IndexOfKey(r, if j < i then j else j - 1);
      }
    }
  }

  lemma SetOrRemoveGet(ms: seq<Member>, key: string, v: Value, other: string)
    requires DistinctKeys(ms)
    ensures DistinctKeys(SetOrRemove(ms, key, v))
    ensures GetIn(SetOrRemove(ms, key, v), other) ==
            if other != key then GetIn(ms, other) else if Truthy(v) then v else Undefined
  {
    SetGet(ms, key, v, other);
    SetKeepsDistinct(ms, key, v);
    RemoveGet(ms, key, other);
  }

  lemma {:induction false} OverlayDistinct(base: seq<Member>, ms: seq<Member>)
    requires DistinctKeys(base)
    ensures DistinctKeys(Overlay(base, ms))
    decreases |ms|
  {
    hide SetIn, DistinctKeys;
    if ms != [] {
      SetKeepsDistinct(base, ms[0].key, ms[0].value);
      OverlayDistinct(SetIn(base, ms[0].key, ms[0].value), ms[1..]);
    }
  }

  /** What the server reads under each key, whatever the caller's extras carry. */
  lemma RequestBodyLaws(input: RequestInput, key: string)
    requires WellFormed(input.extra)
    ensures Get(BuildRequestBody(input), key) ==
            if key == "packageVersion" then input.packageVersion
            else if key == "hash" then input.currentVersion
            else if key == "buildTime" then if input.isDev then Undefined else input.buildTime
            else if key == "cInfo" then input.cInfo
            else if key == "diffV" then if Truthy(input.supportedDiffVersion) then input.supportedDiffVersion else Undefined
            else if key == "bundleHash" then if Truthy(input.bundleHash) then input.bundleHash else Undefined
            else if key == "extra" && Members(input.extra) != [] then Object(Overlay([], Members(input.extra)))
            else GetIn(Members(input.extra), key)
  {
    hide GetIn, SetIn, SetOrRemove, RemoveIn, Overlay, Truthy, DistinctKeys;
    var extra := Members(input.extra);
    var b0 := Overlay([], extra);
    var b1 := SetIn(b0, "packageVersion", input.packageVersion);
    var b2 := SetIn(b1, "hash", input.currentVersion);
    var b3 := SetIn(b2, "buildTime", input.buildTime);
    var b4 := SetIn(b3, "cInfo", input.cInfo);
    var b5 := SetOrRemove(b4, "diffV", input.supportedDiffVersion);
    var b6 := SetOrRemove(b5, "bundleHash", input.bundleHash);
    var b7 := if input.isDev then RemoveIn(b6, "buildTime") else b6;
    ExtraGet(extra, key);
    OverlayDistinct([], extra);
    SetGet(b0, "packageVersion", input.packageVersion, key);
    SetKeepsDistinct(b0, "packageVersion", input.packageVersion);
    SetGet(b1, "hash", input.currentVersion, key);
    SetKeepsDistinct(b1, "hash", input.currentVersion);
    SetGet(b2, "buildTime", input.buildTime, key);
    SetKeepsDistinct(b2, "buildTime", input.buildTime);
    SetGet(b3, "cInfo", input.cInfo, key);
    SetKeepsDistinct(b3, "cInfo", input.cInfo);
    SetOrRemoveGet(b4, "diffV", input.supportedDiffVersion, key);
    SetOrRemoveGet(b5, "bundleHash", input.bundleHash, key);
    RemoveGet(b6, "buildTime", key);
    SetGet(b7, "extra", Object(b0), key);
  }

  lemma ExtraGet(extra: seq<Member>, key: string)
    requires DistinctKeys(extra)
    ensures DistinctKeys([]) && GetIn(Overlay([], extra), key) == GetIn(extra, key)
  {
    OverlayGet([], extra, key);
  }

  // ----- the query ---------------------------------------------------------------------------------

  /** A non-empty list with nothing but https URLs. */
  predicate IsHttpsOnly(endpoints: Value) {
    Elements(endpoints) != [] && forall e :: e in Elements(endpoints) ==> e.String? && Urls.IsHttpsUrl(e.s)
  }

  method ScanHttpsOnly(endpoints: Value) returns (ok: bool)
    ensures ok <==> IsHttpsOnly(endpoints)
  {
    var es := Elements(endpoints);
    if es == [] {
      return false;
    }
    var i := 0;
    while i < |es|
      invariant i <= |es| && forall j :: 0 <= j < i ==> es[j].String? && Urls.IsHttpsUrl(es[j].s)
    {
      var https := false;
      if es[i].String? {
        https := Urls.ScanPrefix(es[i].s, "https://");
      }
      if !https {
        assert es[i] in es;
        return false;
      }
      i := i + 1;
    }
    return true;
  }

  /** The lists the query walks; Over once it has ended. */
  datatype ListName = Endpoints | QueryUrls | Remote | Over

  datatype Request = Request(url: string, post: bool)

  datatype Query = Query(
    appKey: string, httpsOnly: bool, endpoints: seq<Value>, queryUrls: seq<Value>, remote: seq<Value>,
    list: ListName, next: nat, tried: seq<string>, spent: nat, pending: Option<Request>, found: bool)

  function Entries(q: Query): seq<Value> {
    match q.list
    case Endpoints => q.endpoints
    case QueryUrls => q.queryUrls
    case Remote => q.remote
    case Over => []
  }

  /** What an entry makes the query ask; "" when it is skipped. */
  function Target(q: Query, entry: Value): string {
    if !entry.String? then ""
    else if q.list.QueryUrls? then entry.s
    else
      var base := Urls.StripTrailingSlashes(entry.s);
      if base == "" || base in q.tried then ""
      else if q.list.Remote? && q.httpsOnly && !Urls.IsHttpsUrl(base) then ""
      else base
  }

  /** Searches from position i: a target and where to go on, or "" past the end. */
  function Scan(q: Query, i: nat): (r: (string, nat))
    ensures r.0 != "" ==> i < r.1 <= |Entries(q)| && Target(q, Entries(q)[r.1 - 1]) == r.0
    ensures forall j :: i <= j < r.1 - (if r.0 == "" then 0 else 1) && j < |Entries(q)| ==> Target(q, Entries(q)[j]) == ""
    ensures r.0 == "" ==> r.1 >= |Entries(q)|
    decreases |Entries(q)| - i
  {
    if i >= |Entries(q)| then ("", i)
    else
      var target := Target(q, Entries(q)[i]);
      if target != "" then (target, i + 1) else Scan(q, i + 1)
  }

  function ListRank(l: ListName): nat {
    match l case Endpoints => 2 case QueryUrls => 1 case Remote => 1 case Over => 0
  }

  function Issue(q: Query, target: string, next: nat): Query {
    if q.spent >= MAX_QUERY_REQUESTS then q.(list := Over, next := next)
    else if q.list.QueryUrls? then q.(next := next, spent := q.spent + 1, pending := Some(Request(target, false)))
    else
      q.(next := next, spent := q.spent + 1, tried := q.tried + [target],
         pending := Some(Request(target + QUERY_PATH + q.appKey, true)))
  }

  function Advance(q: Query): Query
    decreases ListRank(q.list)
  {
    if q.list.Over? then q
    else
      var (target, next) := Scan(q, q.next);
      if target == "" then Advance(q.(list := if q.list.Endpoints? then QueryUrls else Over, next := 0))
      else Issue(q, target, next)
  }

  /** Takes the answer to the request the state waits for, if any. */
  function Settle(q: Query, text: Option<string>): Query {
    if q.pending.None? then q
    else
      var s := q.(pending := None);
      if text.None? then s
      else if q.pending.value.post then (if IsValidResponse(text.value) then s.(found := true) else s)
      else
        match Parse(text.value)
        case Some(Array(es)) => s.(list := Remote, remote := es, next := 0)
        case _ => s
  }

  function NextQueryStep(q: Query, text: Option<string>): Query {
    var s := Settle(q, text);
    if s.found then s else Advance(s)
  }

  method QueryStep(q: Query, text: Option<string>) returns (state: Query)
    ensures state == NextQueryStep(q, text)
  {
    hide Target, IsValidResponse, Urls.StripTrailingSlashes;
    state := Settle(q, text);
    if state.found {
      return;
    }
    while true
      invariant !state.found && Advance(state) == NextQueryStep(q, text)
      decreases ListRank(state.list)
    {
      if state.list.Over? {
        return;
      }
      var target, next := FindTarget(state);
      if target == "" {
        state := state.(list := if state.list.Endpoints? then QueryUrls else Over, next := 0);
        continue;
      }
      state := state.(next := next);
      if state.spent >= MAX_QUERY_REQUESTS {
        state := state.(list := Over);
        return;
      }
      state := state.(spent := state.spent + 1);
      if state.list.QueryUrls? {
        state := state.(pending := Some(Request(target, false)));
      } else {
        state := state.(tried := state.tried + [target]);
        state := state.(pending := Some(Request(target + QUERY_PATH + state.appKey, true)));
      }
      return;
    }
  }

  /** The inner loop: the next entry of the current list that asks anything. */
  method FindTarget(q: Query) returns (target: string, next: nat)
    requires !q.list.Over?
    ensures (target, next) == Scan(q, q.next)
  {
    hide Urls.StripTrailingSlashes, Urls.HasPrefixIgnoringCase;
    var entries := Entries(q);
    next := q.next;
    target := "";
    while target == "" && next < |entries|
      invariant target == "" ==> Scan(q, next) == Scan(q, q.next)
      invariant target != "" ==> (target, next) == Scan(q, q.next)
      decreases |entries| - next, if target == "" then 1 else 0
    {
      var entry := entries[next];
      next := next + 1;
      if !entry.String? {
        continue;
      }
      if q.list.QueryUrls? {
        target := entry.s;
        continue;
      }
      var base := Urls.RemoveTrailingSlashes(entry.s);
      if base == "" || base in q.tried {
        continue;
      }
      if q.list.Remote? && q.httpsOnly && !Urls.IsHttpsUrl(base) {
        continue;
      }
      target := base;
    }
  }

  // ----- what a query keeps ------------------------------------------------------------------------------

  predicate Distinct(xs: seq<string>) {
    forall i, j :: 0 <= i < j < |xs| ==> xs[i] != xs[j]
  }

  /** An entry whose base, stripped, is b. */
  predicate ComesFrom(b: string, entries: seq<Value>) {
    exists i :: 0 <= i < |entries| && entries[i].String? && Urls.StripTrailingSlashes(entries[i].s) == b
  }

  /** A base may be asked: it is configured, or it is remote and no downgrade. */
  predicate Allowed(q: Query, b: string) {
    ComesFrom(b, q.endpoints) || (ComesFrom(b, q.remote) && (q.httpsOnly ==> Urls.IsHttpsUrl(b)))
  }

  /** The first n entries have nothing left to ask. */
  predicate Covered(q: Query, entries: seq<Value>, n: nat, remote: bool) {
    forall i :: 0 <= i < n && i < |entries| && entries[i].String? ==>
      var b := Urls.StripTrailingSlashes(entries[i].s);
      b == "" || b in q.tried || (remote && q.httpsOnly && !Urls.IsHttpsUrl(b))
  }

  predicate PendingFits(q: Query) {
    q.pending.Some? ==>
      if q.pending.value.post then
        !q.list.QueryUrls? && q.tried != [] && q.pending.value.url == q.tried[|q.tried| - 1] + QUERY_PATH + q.appKey
      else q.list.QueryUrls?
  }

  predicate Progress(q: Query) {
    && (q.list.Endpoints? ==> Covered(q, q.endpoints, q.next, false))
    && (q.list.QueryUrls? || q.list.Remote? || (q.list.Over? && q.spent < MAX_QUERY_REQUESTS) ==>
          Covered(q, q.endpoints, |q.endpoints|, false))
    && (q.list.Remote? ==> Covered(q, q.remote, q.next, true))
    && (q.list.Over? && q.spent < MAX_QUERY_REQUESTS ==> Covered(q, q.remote, |q.remote|, true))
  }

  predicate AllAllowed(q: Query) {
    forall b :: b in q.tried ==> Allowed(q, b)
  }

  predicate Inv(q: Query) {
    && |q.tried| <= q.spent <= MAX_QUERY_REQUESTS
    && Distinct(q.tried)
    && AllAllowed(q)
    && (q.list.Endpoints? || q.list.QueryUrls? ==> q.remote == [])
    && PendingFits(q)
    && Progress(q)
    && (q.found ==> q.pending.None?)
  }

  lemma SettleKeeps(q: Query, text: Option<string>)
    requires Inv(q)
    ensures Inv(Settle(q, text)) && Settle(q, text).pending.None?
  {
    hide Urls.StripTrailingSlashes, Urls.HasPrefixIgnoringCase;
    var s := Settle(q, text);
    if s.list != q.list {
      forall b | b in s.tried ensures Allowed(s, b) {
        assert Allowed(q, b);
      }
    }
  }

  lemma IssueKeeps(q: Query)
    requires Inv(q) && q.pending.None? && !q.found && !q.list.Over? && Scan(q, q.next).0 != ""
    ensures Inv(Issue(q, Scan(q, q.next).0, Scan(q, q.next).1))
  {
    hide Progress, AllAllowed, Scan, Target;
    var (target, next) := Scan(q, q.next);
    var r := Issue(q, target, next);
    ScanFinds(q);
    IssueAllowed(q, r, target, next);
    IssueProgress(q, r, target, next);
  }

  lemma ScanFinds(q: Query)
    requires !q.list.Over? && Scan(q, q.next).0 != ""
    ensures var (target, next) := Scan(q, q.next);
            && q.next < next <= |Entries(q)| && Target(q, Entries(q)[next - 1]) == target
            && forall j :: q.next <= j < next - 1 ==> Target(q, Entries(q)[j]) == ""
    ensures !q.list.QueryUrls? ==> Scan(q, q.next).0 !in q.tried
  {
    hide Urls.StripTrailingSlashes, Urls.HasPrefixIgnoringCase;
    var (target, next) := Scan(q, q.next);
    assert Target(q, Entries(q)[next - 1]) == target;
  }

  lemma IssueAllowed(q: Query, r: Query, target: string, next: nat)
    requires AllAllowed(q) && !q.list.Over? && target != "" && r == Issue(q, target, next)
    requires q.next < next <= |Entries(q)| && Target(q, Entries(q)[next - 1]) == target
    ensures AllAllowed(r)
  {
    hide Urls.StripTrailingSlashes, Urls.HasPrefixIgnoringCase;
    forall b | b in r.tried ensures Allowed(r, b) {
      if b in q.tried {
        assert Allowed(q, b);
      } else {
        var e := Entries(q)[next - 1];
        assert b == target == Urls.StripTrailingSlashes(e.s);
      }
    }
  }

  lemma CoveredMore(q: Query, r: Query, entries: seq<Value>, n: nat, remote: bool)
    requires Covered(q, entries, n, remote) && r.httpsOnly == q.httpsOnly && q.tried <= r.tried
    ensures Covered(r, entries, n, remote)
  {
    hide Urls.StripTrailingSlashes, Urls.HasPrefixIgnoringCase;
    assert forall b :: b in q.tried ==> b in r.tried by {
      assert forall i :: 0 <= i < |q.tried| ==> q.tried[i] == r.tried[i];
    }
  }

  lemma CoveredNext(q: Query, r: Query, target: string, next: nat)
    requires Covered(q, Entries(q), q.next, q.list.Remote?) && (q.list.Endpoints? || q.list.Remote?)
    requires r.httpsOnly == q.httpsOnly && r.tried == q.tried + [target]
    requires q.next < next <= |Entries(q)| && Target(q, Entries(q)[next - 1]) == target && target != ""
    requires forall j :: q.next <= j < next - 1 ==> Target(q, Entries(q)[j]) == ""
    ensures Covered(r, Entries(q), next, q.list.Remote?)
  {
    hide Urls.StripTrailingSlashes, Urls.HasPrefixIgnoringCase;
    CoveredMore(q, r, Entries(q), q.next, q.list.Remote?);
    assert r.tried[|q.tried|] == target;
  }

  lemma IssueProgress(q: Query, r: Query, target: string, next: nat)
    requires Progress(q) && !q.list.Over? && target != "" && r == Issue(q, target, next)
    requires q.next < next <= |Entries(q)| && Target(q, Entries(q)[next - 1]) == target
    requires forall j :: q.next <= j < next - 1 ==> Target(q, Entries(q)[j]) == ""
    ensures Progress(r)
  {
    hide Covered, Target;
    if r.list == q.list {
      if !q.list.QueryUrls? {
        CoveredNext(q, r, target, next);
      }
      if !q.list.Endpoints? {
        CoveredMore(q, r, q.endpoints, |q.endpoints|, false);
      }
    }
  }

  lemma SkipKeeps(q: Query)
    requires Inv(q) && q.pending.None? && !q.found && !q.list.Over? && Scan(q, q.next).0 == ""
    ensures Inv(q.(list := if q.list.Endpoints? then QueryUrls else Over, next := 0))
  {
    hide Urls.StripTrailingSlashes, Urls.HasPrefixIgnoringCase;
    var r := q.(list := if q.list.Endpoints? then QueryUrls else Over, next := 0);
    forall b | b in r.tried ensures Allowed(r, b) {
      assert Allowed(q, b);
    }
    forall i | q.next <= i < |Entries(q)| ensures Target(q, Entries(q)[i]) == "" {
      assert i < Scan(q, q.next).1;
    }
  }

  lemma {:induction false} AdvanceKeeps(q: Query)
    requires Inv(q) && q.pending.None? && !q.found
    ensures Inv(Advance(q)) && Sends(q, Advance(q))
    decreases ListRank(q.list)
  {
    hide Inv, Scan, Target;
    if !q.list.Over? {
      if Scan(q, q.next).0 == "" {
        SkipKeeps(q);
        AdvanceKeeps(q.(list := if q.list.Endpoints? then QueryUrls else Over, next := 0));
      } else {
        IssueKeeps(q);
        InvSpent(q);
      }
    }
  }

  lemma InvSpent(q: Query)
    requires Inv(q)
    ensures q.spent <= MAX_QUERY_REQUESTS
  {
  }

  /** A step sends one request and pays for it, asking a new base when it posts; or it ends the query. */
  predicate Sends(q: Query, r: Query) {
    && r.endpoints == q.endpoints && r.httpsOnly == q.httpsOnly && r.appKey == q.appKey && r.remote == q.remote
    && r.found == q.found
    && if r.pending.Some? then
         && r.spent == q.spent + 1
         && r.tried == if r.pending.value.post then q.tried + [LastBase(r)] else q.tried
       else r.list.Over? && r.spent == q.spent && r.tried == q.tried
  }

  function LastBase(q: Query): string {
    if q.tried == [] then "" else q.tried[|q.tried| - 1]
  }

  // ----- whole queries ---------------------------------------------------------------------------------------

  function Steps(q: Query, texts: seq<Option<string>>): Query
    decreases |texts|
  {
    if texts == [] then q else Steps(NextQueryStep(q, texts[0]), texts[1..])
  }

  /** The requests the steps issue, in order. */
  function Sent(q: Query, texts: seq<Option<string>>): seq<Request>
    decreases |texts|
  {
    if texts == [] then []
    else
      var s := NextQueryStep(q, texts[0]);
      (if s.pending.Some? then [s.pending.value] else []) + Sent(s, texts[1..])
  }

  /** The bases the steps ask, in order. */
  function Asked(q: Query, texts: seq<Option<string>>): seq<string>
    decreases |texts|
  {
    if texts == [] then []
    else
      var s := NextQueryStep(q, texts[0]);
      (if s.pending.Some? && s.pending.value.post then [LastBase(s)] else []) + Asked(s, texts[1..])
  }

  lemma StepKeeps(q: Query, text: Option<string>)
    requires Inv(q)
    ensures var s := NextQueryStep(q, text);
            && Inv(s)
            && s.endpoints == q.endpoints && s.httpsOnly == q.httpsOnly && s.appKey == q.appKey
            && (s.pending.Some? ==> s.spent == q.spent + 1)
            && (s.pending.None? ==> s.spent == q.spent && (s.found || s.list.Over?))
            && s.tried == q.tried + (if s.pending.Some? && s.pending.value.post then [LastBase(s)] else [])
            && (s.found && !q.found ==> text.Some? && IsValidResponse(text.value) && q.pending.Some? && q.pending.value.post)
  {
    hide Inv, Advance, IsValidResponse;
    var s := Settle(q, text);
    SettleKeeps(q, text);
    if !s.found {
      AdvanceKeeps(s);
    }
  }

  lemma {:induction false} StepsKeep(q: Query, texts: seq<Option<string>>)
    requires Inv(q)
    ensures var r := Steps(q, texts);
            && Inv(r) && r.endpoints == q.endpoints && r.httpsOnly == q.httpsOnly && r.appKey == q.appKey
            && r.spent == q.spent + |Sent(q, texts)|
            && r.tried == q.tried + Asked(q, texts)
    decreases |texts|
  {
    hide Inv, NextQueryStep;
    if texts != [] {
      var s := NextQueryStep(q, texts[0]);
      StepKeeps(q, texts[0]);
      StepsKeep(s, texts[1..]);
    }
  }

  // ----- the first state ----------------------------------------------------------------------------------------

  datatype Round = Round(body: Value, query: Query)

  function StartQuery(appKey: string, config: seq<Member>, sample: real): Query {
    Query(appKey, IsHttpsOnly(GetIn(config, "endpoints")), OrderEndpointCandidates(GetIn(config, "endpoints"), sample),
          Elements(GetIn(config, "queryUrls")), [], Endpoints, 0, [], 0, None, false)
  }

  function PrepareRound(configJson: string, env: Value, sample: real): Option<Round> {
    match NativeConfig.ParseRunnableConfig(configJson)
    case Runnable(appKey, config) =>
      if env.Object? then Some(Round(RequestBody(config, env), StartQuery(appKey, config, sample))) else None
    case Rejected(_, _) => None
  }

  lemma StartIsFine(appKey: string, config: seq<Member>, sample: real)
    ensures Inv(StartQuery(appKey, config, sample))
  {
    hide IsHttpsOnly, OrderEndpointCandidates;
  }

  /**
   Over a whole query, whatever the endpoints answer: at most eight requests, no base asked
   twice, every base configured or taken from the fetched list, and with an https-only
   configuration every base comes from an https entry.
   */
  lemma QuerySafety(appKey: string, config: seq<Member>, sample: real, texts: seq<Option<string>>)
    ensures var q := StartQuery(appKey, config, sample);
            && |Sent(q, texts)| <= MAX_QUERY_REQUESTS
            && Distinct(Asked(q, texts))
            && forall b :: b in Asked(q, texts) ==> Provenance(q, Steps(q, texts), b)
  {
    hide Inv;
    var q := StartQuery(appKey, config, sample);
    StartIsFine(appKey, config, sample);
    StepsKeep(q, texts);
    var r := Steps(q, texts);
    assert q.tried + Asked(q, texts) == Asked(q, texts);
    InvSafety(r);
    forall b | b in Asked(q, texts) ensures Provenance(q, r, b) {
      if ComesFrom(b, q.endpoints) {
        ConfiguredBase(GetIn(config, "endpoints"), sample, b);
      }
    }
  }

  lemma InvSafety(r: Query)
    requires Inv(r)
    ensures r.spent <= MAX_QUERY_REQUESTS && Distinct(r.tried) && forall b :: b in r.tried ==> Allowed(r, b)
  {
  }

  /** Where an asked base comes from; under an https-only configuration, from an https URL. */
  ghost predicate Provenance(q: Query, r: Query, b: string) {
    || (ComesFrom(b, q.endpoints) && (q.httpsOnly ==> StrippedHttps(b)))
    || (ComesFrom(b, r.remote) && (q.httpsOnly ==> Urls.IsHttpsUrl(b)))
  }

  /** b is an https URL without its trailing slashes. */
  ghost predicate StrippedHttps(b: string) {
    exists s: string :: Urls.IsHttpsUrl(s) && Urls.StripTrailingSlashes(s) == b
  }

  lemma ConfiguredBase(endpoints: Value, sample: real, b: string)
    requires ComesFrom(b, OrderEndpointCandidates(endpoints, sample))
    ensures IsHttpsOnly(endpoints) ==> StrippedHttps(b)
  {
    hide OrderEndpointCandidates, Urls.HasPrefixIgnoringCase, Urls.StripTrailingSlashes;
    var es := OrderEndpointCandidates(endpoints, sample);
    var i :| 0 <= i < |es| && es[i].String? && Urls.StripTrailingSlashes(es[i].s) == b;
    OrderCovers(endpoints, sample, es[i]);
  }

  /** Such a base is itself an https URL, unless the URL had nothing but slashes after the scheme. */
  lemma StrippedHttpsIs(b: string)
    ensures StrippedHttps(b) <==> b == Urls.StripTrailingSlashes(b) && (Urls.IsHttpsUrl(b) || IsBareScheme(b))
  {
    hide Urls.StripTrailingSlashes;
    if StrippedHttps(b) {
      var s: string :| Urls.IsHttpsUrl(s) && Urls.StripTrailingSlashes(s) == b;
      assert Urls.LowerAscii(s[5]) == ':';
      assert |b| >= 6;
    }
    if b == Urls.StripTrailingSlashes(b) {
      if Urls.IsHttpsUrl(b) {
        assert StrippedHttps(b);
      } else if IsBareScheme(b) {
        var s := b + "//";
        Urls.StripIs(s, b);
        assert Urls.IsHttpsUrl(s);
      }
    }
  }

  predicate IsBareScheme(b: string) {
    |b| == 6 && Urls.HasPrefixIgnoringCase(b, "https:")
  }

  /** Something other than slashes follows the scheme of an https URL. */
  predicate HasHost(s: string) {
    exists i :: 8 <= i < |s| && s[i] != '/'
  }

  /** Without its trailing slashes, an https URL stays one exactly when it names a host. */
  lemma StaysHttpsIff(s: string)
    requires Urls.IsHttpsUrl(s)
    ensures Urls.IsHttpsUrl(Urls.StripTrailingSlashes(s)) <==> HasHost(s)
  {
    hide Urls.StripTrailingSlashes;
    var r := Urls.StripTrailingSlashes(s);
    assert forall i :: 0 <= i < 8 ==> Urls.LowerAscii(s[i]) == "https://"[i];
    if |r| >= 8 {
      assert forall i :: 0 <= i < 8 ==> r[i] == s[i];
      assert Urls.LowerAscii(s[7]) == '/' && r[|r| - 1] != '/';
      assert r[|r| - 1] == s[|r| - 1];
    }
  }

  predicate AllHaveHosts(endpoints: Value) {
    forall e :: e in Elements(endpoints) && e.String? ==> HasHost(e.s)
  }

  /**
   Under an https-only configuration, a query whose endpoints all name a host asks nothing but
   https URLs, whatever list it fetches; and a query that asked everyone within its budget
   asked something else exactly when some endpoint names none.
   */
  lemma QueryStaysHttps(appKey: string, config: seq<Member>, sample: real, texts: seq<Option<string>>)
    requires IsHttpsOnly(GetIn(config, "endpoints"))
    ensures var q := StartQuery(appKey, config, sample);
            var r := Steps(q, texts);
            && (AllHaveHosts(GetIn(config, "endpoints")) ==> AllHttps(Asked(q, texts)))
            && (r.list.Over? && r.spent < MAX_QUERY_REQUESTS ==>
                  (AllHttps(Asked(q, texts)) <==> AllHaveHosts(GetIn(config, "endpoints"))))
  {
    hide OrderEndpointCandidates, Urls.StripTrailingSlashes, Urls.HasPrefixIgnoringCase, Steps, Asked, Sent, HasHost, StrictEquals;
    var q, endpoints := StartQuery(appKey, config, sample), GetIn(config, "endpoints");
    var r, asked := Steps(q, texts), Asked(q, texts);
    QuerySafety(appKey, config, sample, texts);
    QueryEnds(appKey, config, sample, texts);
    if AllHaveHosts(endpoints) {
      forall b | b in asked ensures Urls.IsHttpsUrl(b) {
        assert Provenance(q, r, b);
        if ComesFrom(b, q.endpoints) {
          var i :| 0 <= i < |q.endpoints| && q.endpoints[i].String? && Urls.StripTrailingSlashes(q.endpoints[i].s) == b;
          OrderCovers(endpoints, sample, q.endpoints[i]);
          StaysHttpsIff(q.endpoints[i].s);
        }
      }
    }
    if r.list.Over? && r.spent < MAX_QUERY_REQUESTS && AllHttps(asked) {
      forall e | e in Elements(endpoints) && e.String? ensures HasHost(e.s) {
        var b := Urls.StripTrailingSlashes(e.s);
        StaysHttpsIff(e.s);
        StrippedNotEmpty(e.s);
        EndpointIsPlanned(endpoints, sample, e);
        var i :| 0 <= i < |q.endpoints| && q.endpoints[i] == e;
      }
    }
  }

  lemma StrippedNotEmpty(s: string)
    requires Urls.IsHttpsUrl(s)
    ensures Urls.StripTrailingSlashes(s) != ""
  {
    assert Urls.LowerAscii(s[0]) == 'h';
  }

  lemma EndpointIsPlanned(endpoints: Value, sample: real, e: Value)
    requires e in Elements(endpoints) && e.String? && e.s != ""
    ensures e in OrderEndpointCandidates(endpoints, sample)
  {
    hide OrderEndpointCandidates;
    OrderCovers(endpoints, sample, e);
  }

  predicate AllHttps(bases: seq<string>) {
    forall b :: b in bases ==> Urls.IsHttpsUrl(b)
  }

  /** An endpoint "https://" makes an https-only query post to the URL "https:/checkUpdate/...". */
  lemma BareSchemeIsAsked(appKey: string)
    ensures var q := StartQuery(appKey, [Member("endpoints", Array([String("https://")]))], 0.0);
            && q.httpsOnly
            && NextQueryStep(q, None).pending == Some(Request("https:/checkUpdate/" + appKey, true))
            && !Urls.IsHttpsUrl("https:/checkUpdate/" + appKey)
  {
    hide NextQueryStep, Dedupe, OrderEndpointCandidates, Urls.HasPrefixIgnoringCase;
    var entry := String("https://");
    var config := [Member("endpoints", Array([entry]))];
    assert IndexOf(config, "endpoints") == 0;
    var q := StartQuery(appKey, config, 0.0);
    EndpointIsPlanned(Array([entry]), 0.0, entry);
    var i :| 0 <= i < |q.endpoints| && q.endpoints[i] == entry;
    assert q.endpoints[0] == entry by {
      OrderCovers(Array([entry]), 0.0, q.endpoints[0]);
      assert q.endpoints[0] in q.endpoints;
    }
    FirstAsked(q, entry, "https:");
    assert "https:" + QUERY_PATH + appKey == "https:/checkUpdate/" + appKey;
    OneSlash(appKey);
  }

  lemma OneSlash(appKey: string)
    ensures Urls.IsHttpsUrl("https://") && !Urls.IsHttpsUrl("https:/checkUpdate/" + appKey)
  {
    assert ("https:/checkUpdate/" + appKey)[7] == 'c';
  }

  lemma FirstAsked(q: Query, entry: Value, base: string)
    requires q.list.Endpoints? && q.endpoints != [] && q.endpoints[0] == entry && q.next == 0 && q.spent == 0
    requires q.tried == [] && q.pending.None? && !q.found
    requires entry == String("https://") && base == "https:"
    ensures NextQueryStep(q, None).pending == Some(Request(base + QUERY_PATH + q.appKey, true))
  {
    hide Urls.StripTrailingSlashes, Urls.HasPrefixIgnoringCase;
    Urls.StripIs(entry.s, base);
    assert Target(q, entry) == base;
    assert Scan(q, 0) == (base, 1);
  }

  /**
   The query ends: after more answers than the budget allows, no request is pending. When it
   ended within budget and nothing was found, every configured base was asked, and every
   base of the fetched list that is no downgrade.
   */
  lemma QueryEnds(appKey: string, config: seq<Member>, sample: real, texts: seq<Option<string>>)
    ensures var q := StartQuery(appKey, config, sample);
            var r := Steps(q, texts);
            && (|texts| > MAX_QUERY_REQUESTS ==> r.pending.None? && (r.found || r.list.Over?))
            && (r.list.Over? && r.spent < MAX_QUERY_REQUESTS ==>
                  && (forall i :: 0 <= i < |q.endpoints| && q.endpoints[i].String? ==>
                        var b := Urls.StripTrailingSlashes(q.endpoints[i].s);
                        b == "" || b in Asked(q, texts))
                  && (forall i :: 0 <= i < |r.remote| && r.remote[i].String? ==>
                        var b := Urls.StripTrailingSlashes(r.remote[i].s);
                        b == "" || b in Asked(q, texts) || (q.httpsOnly && !Urls.IsHttpsUrl(b))))
  {
    hide Urls.StripTrailingSlashes, Urls.HasPrefixIgnoringCase;
    var q := StartQuery(appKey, config, sample);
    StartIsFine(appKey, config, sample);
    StepsKeep(q, texts);
    assert q.tried + Asked(q, texts) == Asked(q, texts);
    if |texts| > MAX_QUERY_REQUESTS {
      EnoughSteps(q, texts);
    }
  }

  lemma {:induction false} EnoughSteps(q: Query, texts: seq<Option<string>>)
    requires Inv(q) && q.spent + |texts| > MAX_QUERY_REQUESTS
    ensures var r := Steps(q, texts);
            texts != [] ==> r.pending.None? && (r.found || r.list.Over?)
    decreases |texts|
  {
    hide Inv, NextQueryStep;
    if texts != [] {
      var s := NextQueryStep(q, texts[0]);
      StepKeeps(q, texts[0]);
      InvSpent(s);
      if s.pending.None? {
        EndedStays(s, texts[1..]);
      } else if texts[1..] != [] {
        EnoughSteps(s, texts[1..]);
      }
    }
  }

  lemma {:induction false} EndedStays(q: Query, texts: seq<Option<string>>)
    requires q.pending.None? && (q.found || q.list.Over?)
    ensures Steps(q, texts) == q
    decreases |texts|
  {
    if texts != [] {
      EndedStays(q, texts[1..]);
    }
  }

  // ----- the answer ------------------------------------------------------------------------------------------------

  function KeepUrls(urls: seq<string>, httpsOnly: bool): seq<string> {
    if urls == [] then []
    else
      (if urls[0] != "" && !(httpsOnly && Urls.IsCleartextUrl(urls[0])) then [urls[0]] else []) + KeepUrls(urls[1..], httpsOnly)
  }

  /** What this device can use of one attempt, if anything. */
  function PlanHead(a: Attempt, hasOrigin: bool, httpsOnly: bool): seq<Attempt> {
    var urls := KeepUrls(a.urls, httpsOnly);
    if (a.strategy.Diff? && !hasOrigin) || urls == [] then [] else [Attempt(a.strategy, urls)]
  }

  function PlanAttempts(attempts: seq<Attempt>, hasOrigin: bool, httpsOnly: bool): seq<Attempt> {
    if attempts == [] then []
    else
      PlanHead(attempts[0], hasOrigin, httpsOnly) + PlanAttempts(attempts[1..], hasOrigin, httpsOnly)
  }

  method Plan(attempts: seq<Attempt>, hasOrigin: bool, httpsOnly: bool) returns (planned: seq<Attempt>)
    ensures planned == PlanAttempts(attempts, hasOrigin, httpsOnly)
  {
    hide KeepUrls, PlanAttempts;
    planned := [];
    var i := 0;
    PlanAt(planned, attempts, 0, hasOrigin, httpsOnly);
    while i < |attempts|
      invariant i <= |attempts| &&
                planned + PlanAttempts(attempts[i..], hasOrigin, httpsOnly) == PlanAttempts(attempts, hasOrigin, httpsOnly)
    {
      var attempt := attempts[i];
      PlanAt(planned, attempts, i, hasOrigin, httpsOnly);
      i := i + 1;
      if attempt.strategy.Diff? && !hasOrigin {
        assert planned + [] == planned;
        continue;
      }
      var urls := FilterUrls(attempt.urls, httpsOnly);
      if urls != [] {
        planned := planned + [Attempt(attempt.strategy, urls)];
      } else {
        assert planned + [] == planned;
      }
    }
    PlanAt(planned, attempts, i, hasOrigin, httpsOnly);
  }

  lemma PlanAt(planned: seq<Attempt>, attempts: seq<Attempt>, i: nat, hasOrigin: bool, httpsOnly: bool)
    requires i <= |attempts|
    ensures attempts[0..] == attempts && (i == |attempts| ==> PlanAttempts(attempts[i..], hasOrigin, httpsOnly) == [])
    ensures i < |attempts| ==>
              planned + PlanAttempts(attempts[i..], hasOrigin, httpsOnly) ==
              planned + PlanHead(attempts[i], hasOrigin, httpsOnly) + PlanAttempts(attempts[i + 1..], hasOrigin, httpsOnly)
  {
    hide PlanHead;
    if i < |attempts| {
      assert attempts[i..][1..] == attempts[i + 1..] && attempts[i..][0] == attempts[i];
    }
  }

  method FilterUrls(all: seq<string>, httpsOnly: bool) returns (urls: seq<string>)
    ensures urls == KeepUrls(all, httpsOnly)
  {
    hide KeepUrls, Urls.HasPrefixIgnoringCase;
    urls := [];
    var i := 0;
    KeepUrlsAt(urls, all, 0, httpsOnly);
    while i < |all|
      invariant i <= |all| && urls + KeepUrls(all[i..], httpsOnly) == KeepUrls(all, httpsOnly)
    {
      KeepUrlsAt(urls, all, i, httpsOnly);
      var cleartext := Urls.ScanPrefix(all[i], "http://");
      if all[i] != "" && !(httpsOnly && cleartext) {
        urls := urls + [all[i]];
      }
      i := i + 1;
    }
    KeepUrlsAt(urls, all, i, httpsOnly);
  }

  lemma KeepUrlsAt(urls: seq<string>, all: seq<string>, i: nat, httpsOnly: bool)
    requires i <= |all|
    ensures all[0..] == all && (i == |all| ==> KeepUrls(all[i..], httpsOnly) == [])
    ensures i < |all| ==>
              urls + KeepUrls(all[i..], httpsOnly) ==
              (if all[i] != "" && !(httpsOnly && Urls.IsCleartextUrl(all[i])) then urls + [all[i]] else urls) +
              KeepUrls(all[i + 1..], httpsOnly)
  {
    hide Urls.HasPrefixIgnoringCase;
    if i < |all| {
      assert all[i..][1..] == all[i + 1..] && all[i..][0] == all[i];
    }
  }

  lemma {:induction false} KeepUrlsLaws(urls: seq<string>, httpsOnly: bool)
    ensures forall u :: u in KeepUrls(urls, httpsOnly) <==>
                        u in urls && u != "" && !(httpsOnly && Urls.IsCleartextUrl(u))
  {
    hide Urls.HasPrefixIgnoringCase;
    if urls != [] {
      KeepUrlsLaws(urls[1..], httpsOnly);
    }
  }

  /** What FilterUrls leaves of an attempt: a base for a diff, and only URLs the device may fetch. */
  predicate Suits(a: Attempt, hasOrigin: bool, httpsOnly: bool) {
    && a.urls != [] && (a.strategy.Diff? ==> hasOrigin)
    && forall u :: u in a.urls ==> u != "" && (httpsOnly ==> !Urls.IsCleartextUrl(u))
  }

  /** The attempt is one of the decision's, over some of its URLs. */
  predicate Offered(a: Attempt, attempts: seq<Attempt>) {
    exists i :: 0 <= i < |attempts| && attempts[i].strategy == a.strategy && forall u :: u in a.urls ==> u in attempts[i].urls
  }

  predicate Tries(p: seq<Attempt>, s: Strategy, u: string) {
    exists i :: 0 <= i < |p| && p[i].strategy == s && u in p[i].urls
  }

  lemma {:induction false} PlanKeeps(attempts: seq<Attempt>, hasOrigin: bool, httpsOnly: bool)
    ensures forall a :: a in PlanAttempts(attempts, hasOrigin, httpsOnly) ==> Suits(a, hasOrigin, httpsOnly) && Offered(a, attempts)
  {
    hide KeepUrls, Suits, Offered;
    if attempts != [] {
      var rest := attempts[1..];
      PlanKeeps(rest, hasOrigin, httpsOnly);
      HeadKeeps(attempts, hasOrigin, httpsOnly);
      forall a | a in PlanAttempts(attempts, hasOrigin, httpsOnly)
        ensures Suits(a, hasOrigin, httpsOnly) && Offered(a, attempts)
      {
        if a !in PlanHead(attempts[0], hasOrigin, httpsOnly) {
          assert a in PlanAttempts(rest, hasOrigin, httpsOnly);
          OfferedLater(a, attempts);
        }
      }
    }
  }

  lemma HeadKeeps(attempts: seq<Attempt>, hasOrigin: bool, httpsOnly: bool)
    requires attempts != []
    ensures forall a :: a in PlanHead(attempts[0], hasOrigin, httpsOnly) ==> Suits(a, hasOrigin, httpsOnly) && Offered(a, attempts)
  {
    hide KeepUrls, Urls.HasPrefixIgnoringCase;
    KeepUrlsLaws(attempts[0].urls, httpsOnly);
  }

  lemma OfferedLater(a: Attempt, attempts: seq<Attempt>)
    requires attempts != [] && Offered(a, attempts[1..])
    ensures Offered(a, attempts)
  {
    var i :| 0 <= i < |attempts[1..]| && attempts[1..][i].strategy == a.strategy && forall u :: u in a.urls ==> u in attempts[1..][i].urls;
    assert attempts[i + 1] == attempts[1..][i];
  }

  lemma {:induction false} PlanOrdered(attempts: seq<Attempt>, hasOrigin: bool, httpsOnly: bool)
    requires WellPlanned(attempts)
    ensures WellPlanned(PlanAttempts(attempts, hasOrigin, httpsOnly))
  {
    hide KeepUrls;
    if attempts != [] {
      var a, rest := attempts[0], attempts[1..];
      assert forall i :: 0 <= i < |rest| ==> rest[i] == attempts[i + 1];
      PlanOrdered(rest, hasOrigin, httpsOnly);
      PlanKeeps(rest, hasOrigin, httpsOnly);
      var p := PlanAttempts(rest, hasOrigin, httpsOnly);
      forall i | 0 <= i < |p| ensures Rank(a.strategy) < Rank(p[i].strategy) {
        assert p[i] in p;
        assert Offered(p[i], rest);
      }
    }
  }

  /** Every URL of the decision this device may use is tried, by the strategy that carries it. */
  lemma {:induction false} PlanComplete(attempts: seq<Attempt>, hasOrigin: bool, httpsOnly: bool, i: nat, u: string)
    requires i < |attempts| && u in attempts[i].urls && u != ""
    requires !(httpsOnly && Urls.IsCleartextUrl(u)) && (attempts[i].strategy.Diff? ==> hasOrigin)
    ensures Tries(PlanAttempts(attempts, hasOrigin, httpsOnly), attempts[i].strategy, u)
  {
    hide KeepUrls, Urls.HasPrefixIgnoringCase;
    var head, tail := PlanHead(attempts[0], hasOrigin, httpsOnly), PlanAttempts(attempts[1..], hasOrigin, httpsOnly);
    var p := PlanAttempts(attempts, hasOrigin, httpsOnly);
    assert p == head + tail;
    if i == 0 {
      KeepUrlsLaws(attempts[0].urls, httpsOnly);
      assert p[0] == head[0];
    } else {
      PlanComplete(attempts[1..], hasOrigin, httpsOnly, i - 1, u);
      var k :| 0 <= k < |tail| && tail[k].strategy == attempts[i].strategy && u in tail[k].urls;
      assert p[|head| + k] == tail[k];
    }
  }

  /** The device-local plan keeps the order, and nothing this device may not use. */
  lemma PlanLaws(attempts: seq<Attempt>, hasOrigin: bool, httpsOnly: bool)
    requires WellPlanned(attempts)
    ensures var p := PlanAttempts(attempts, hasOrigin, httpsOnly);
            WellPlanned(p) && forall a :: a in p ==> Suits(a, hasOrigin, httpsOnly) && Offered(a, attempts)
  {
    hide WellPlanned, Suits, Offered, PlanAttempts;
    PlanOrdered(attempts, hasOrigin, httpsOnly);
    PlanKeeps(attempts, hasOrigin, httpsOnly);
  }

  /** The response JavaScript may reuse, scoped to the request and configuration it answers. */
  datatype Cache = Cache(ts: real, body: string, request: Value, config: string)

  datatype RoundDecision =
    | NoDownload(reason: string, cache: Cache)
    | Install(hash: Value, attempts: seq<Attempt>, activate: bool, hashInfo: seq<Member>, cache: Cache)

  function CopyString(ms: seq<Member>, info: Value, key: string): seq<Member> {
    if Get(info, key).String? then SetIn(ms, key, Get(info, key)) else ms
  }

  predicate ForceBoot(info: Value) {
    Truthy(Get(Get(info, "config"), "forceBoot"))
  }

  /** The members of info that are kept with a version, as strings, and its flag. */
  function VersionInfo(info: Value): seq<Member> {
    var texts := CopyString(CopyString(CopyString([], info, "name"), info, "description"), info, "metaInfo");
    if ForceBoot(info) then SetIn(texts, INFO_FORCE_BOOT, Bool(true)) else texts
  }

  function HandleRoundResponse(text: string, configJson: string, env: Value, body: Value, at: real): Option<RoundDecision> {
    match NativeConfig.ParseObject(configJson)
    case None => None
    case Some(config) =>
      if !env.Object? then None
      else
        var cache := Cache(at, text, body, configJson);
        var h := HandleResponse(text, IdentityOf(config, env), false, AsString(GetIn(config, "afterDownload")));
        match h.decision
        case Decline(reason) => Some(NoDownload(reason, cache))
        case Download(hash, attempts, _) =>
          var planned := PlanAttempts(attempts, Truthy(Get(env, "currentVersion")), IsHttpsOnly(GetIn(config, "endpoints")));
          Some(Install(hash, planned, h.activate, VersionInfo(h.info), cache))
  }

  /**
   Whatever the server answers, a decided install is a version the device neither runs nor
   rolled back from, planned as the device and its configuration allow; a server-forced boot
   always activates and is marked as such.
   */
  lemma RoundDecisionLaws(text: string, configJson: string, env: Value, body: Value, at: real)
    ensures var r := HandleRoundResponse(text, configJson, env, body, at);
            && (r.None? <==> NativeConfig.ParseObject(configJson).None? || !env.Object?)
            && (r.Some? && r.value.Install? ==>
                  var config, d := NativeConfig.ParseObject(configJson).value, r.value;
                  && Acceptable(d.hash, IdentityOf(config, env))
                  && WellPlanned(d.attempts)
                  && (forall a :: a in d.attempts ==>
                        Suits(a, Truthy(Get(env, "currentVersion")), IsHttpsOnly(GetIn(config, "endpoints"))))
                  && (Truthy(GetIn(d.hashInfo, INFO_FORCE_BOOT)) ==> d.activate))
            && (r.Some? ==> r.value.cache == Cache(at, text, body, configJson))
  {
    hide HandleResponse, ForceBoot, VersionInfo, IdentityOf, PlanAttempts, WellPlanned, Suits, IsHttpsOnly, Acceptable,
      NativeConfig.ParseObject, Absolute;
    match NativeConfig.ParseObject(configJson)
    case None =>
    case Some(config) =>
      if env.Object? {
        var id := IdentityOf(config, env);
        var h := HandleResponse(text, id, false, AsString(GetIn(config, "afterDownload")));
        NeverReinstalls(text, id, false, AsString(GetIn(config, "afterDownload")));
        VersionInfoFlag(h.info);
        ForcedActivates(text, id, AsString(GetIn(config, "afterDownload")));
        if h.decision.Download? {
          PlanLaws(h.decision.attempts, Truthy(Get(env, "currentVersion")), IsHttpsOnly(GetIn(config, "endpoints")));
        }
      }
  }

  lemma ForcedActivates(text: string, id: Identity, afterDownload: string)
    ensures var h := HandleResponse(text, id, false, afterDownload);
            h.decision.Download? && ForceBoot(h.info) ==> h.activate
  {
    hide ResolveResult, DecideDownload, Parse;
  }

  /** The version information carries the forced-boot flag exactly when the server asked for it. */
  lemma VersionInfoFlag(info: Value)
    ensures GetIn(VersionInfo(info), INFO_FORCE_BOOT) == if ForceBoot(info) then Bool(true) else Undefined
  {
    hide GetIn, SetIn;
    var t1 := CopyString([], info, "name");
    var t2 := CopyString(t1, info, "description");
    var t3 := CopyString(t2, info, "metaInfo");
    EmptyGet(INFO_FORCE_BOOT);
    assert |INFO_FORCE_BOOT| == 15 && |"name"| == 4 && |"description"| == 11 && |"metaInfo"| == 8;
    SetGet([], "name", Get(info, "name"), INFO_FORCE_BOOT);
    SetGet(t1, "description", Get(info, "description"), INFO_FORCE_BOOT);
    SetGet(t2, "metaInfo", Get(info, "metaInfo"), INFO_FORCE_BOOT);
    SetGet(t3, INFO_FORCE_BOOT, Bool(true), INFO_FORCE_BOOT);
    assert GetIn(t1, INFO_FORCE_BOOT) == Undefined;
    assert GetIn(t2, INFO_FORCE_BOOT) == Undefined;
    assert GetIn(t3, INFO_FORCE_BOOT) == Undefined;
  }
}
