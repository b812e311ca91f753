/**
 The update decision (cpp/update_flow_core/update_flow_core.cpp:133-411, mirroring
 src/updateFlowCore.ts:85-470): which endpoint to ask first, what a check response means for
 this device, and what to download. Decisions are records where the source builds JSON
 objects; requests and responses stay JSON values.
 */
module Decision {
  import opened FlowJson
  import opened Wrappers
  import JsonText
  import JsonRoundTrip
  import Murmur
  import Urls
  import Utf16

  const FIELD_AVAILABLE := "update"
  const STATUS_NONE := "noUpdate"
  const POLICY_NEXT_LAUNCH := "setNeedUpdate"
  const DELTA_FAILED := "PATCH_FAILED"

  function AsString(v: Value): string {
    if v.String? then v.s else ""
  }

  function Elements(v: Value): seq<Value> {
    if v.Array? then v.elements else []
  }

  function Members(v: Value): seq<Member> {
    if v.Object? then v.members else []
  }

  // ----- rollout ---------------------------------------------------------------------------

  function Bytes(s: string): seq<Murmur.byte> {
    seq(|s|, i requires 0 <= i < |s| => s[i] as int % 256)
  }

  predicate IsInRollout(rollout: real, uuid: string) {
    Utf16.IsInRollout(rollout, Bytes(uuid))
  }

  predicate IsMirrorRetryableCode(code: string) {
    code != DELTA_FAILED
  }

  // ----- URLs --------------------------------------------------------------------------------

  function JoinUrl(path: string, file: string): (url: string) {
    var normalized := Urls.StripTrailingSlashes(path);
    (if Urls.HasExplicitScheme(normalized) then normalized else "https://" + normalized) + "/" + file
  }

  /** The candidate URLs; None when there is no file name. */
  function JoinUrls(paths: Value, fileName: Value): (urls: Option<seq<string>>) {
    if !Truthy(fileName) then None
    else
      var ps := Elements(paths);
      Some(seq(|ps|, i requires 0 <= i < |ps| => JoinUrl(AsString(ps[i]), AsString(fileName))))
  }

  method CollectUrls(paths: Value, fileName: Value) returns (r: Option<seq<string>>)
    ensures r == JoinUrls(paths, fileName)
  {
    hide JoinUrl, Urls.StripTrailingSlashes, Urls.HasExplicitScheme;
    if !Truthy(fileName) {
      return None;
    }
    var ps, file := Elements(paths), AsString(fileName);
    var urls: seq<string> := [];
    var i := 0;
    while i < |ps|
      invariant i <= |ps| && |urls| == i
      invariant forall j :: 0 <= j < i ==> urls[j] == JoinUrl(AsString(ps[j]), file)
    {
      var url := Join(AsString(ps[i]), file);
      urls := urls + [url];
      i := i + 1;
    }
    assert urls == JoinUrls(paths, fileName).value;
    r := Some(urls);
  }

  method Join(path: string, file: string) returns (url: string)
    ensures url == JoinUrl(path, file)
  {
    var normalized := Urls.RemoveTrailingSlashes(path);
    var explicit := Urls.ScanScheme(normalized);
    var base := if explicit then normalized else "https://" + normalized;
    url := base + "/" + file;
  }

  /** Whatever the paths, every candidate is an absolute URL. */
  lemma JoinedUrlIsAbsolute(path: string, file: string)
    ensures Urls.HasExplicitScheme(JoinUrl(path, file))
  {
    var normalized := Urls.StripTrailingSlashes(path);
    if Urls.HasExplicitScheme(normalized) {
      Urls.SchemeKept(normalized, "/" + file);
      assert normalized + "/" + file == normalized + ("/" + file);
    } else {
      Urls.HttpsIsScheme(normalized + "/" + file);
      assert "https://" + normalized + "/" + file == "https://" + (normalized + "/" + file);
    }
  }

  // ----- the endpoint plan -----------------------------------------------------------------------

  predicate Seen(kept: seq<Value>, v: Value) {
    exists i :: 0 <= i < |kept| && StrictEquals(kept[i], v)
  }

  function Dedupe(es: seq<Value>, kept: seq<Value>): seq<Value> {
    if es == [] then kept
    else if !Truthy(es[0]) || Seen(kept, es[0]) then Dedupe(es[1..], kept)
    else Dedupe(es[1..], kept + [es[0]])
  }

  /** The sampled pick among n candidates. */
  function Pick(n: nat, sample: real): (i: nat)
    requires n > 0
    ensures i < n
  {
    var idx := (sample * n as real).Floor;
    if idx <= 0 then 0 else if idx >= n - 1 then n - 1 else idx
  }

  function OrderEndpointCandidates(endpoints: Value, sample: real): seq<Value> {
    var d := Dedupe(Elements(endpoints), []);
    if |d| < 2 then d
    else
      var first := Pick(|d|, sample);
      [d[first]] + d[..first] + d[first + 1..]
  }

  method OrderCandidates(endpoints: Value, sample: real) returns (ordered: seq<Value>)
    ensures ordered == OrderEndpointCandidates(endpoints, sample)
  {
    var es := Elements(endpoints);
    var deduped: seq<Value> := [];
    var i := 0;
    while i < |es|
      invariant i <= |es| && Dedupe(es[i..], deduped) == Dedupe(es, [])
    {
      var endpoint := es[i];
      assert es[i..][1..] == es[i + 1..];
      i := i + 1;
      if !Truthy(endpoint) {
        continue;
      }
      var seen := false;
      var k := 0;
      while k < |deduped|
        invariant k <= |deduped|
        invariant seen <==> exists j :: 0 <= j < k && StrictEquals(deduped[j], endpoint)
      {
        if StrictEquals(deduped[k], endpoint) {
          seen := true;
        }
        k := k + 1;
      }
      if !seen {
        deduped := deduped + [endpoint];
      }
    }
    var n := |deduped|;
    if n < 2 {
      return deduped;
    }
    var first := Pick(n, sample);
    ordered := [deduped[first]];
    i := 0;
    while i < n
      invariant i <= n
      invariant ordered == [deduped[first]] + (if i <= first then deduped[..i] else deduped[..first] + deduped[first + 1..i])
    {
      if i != first {
        ordered := ordered + [deduped[i]];
      }
      i := i + 1;
    }
  }

  predicate NoRepeats(vs: seq<Value>) {
    forall i, j :: 0 <= i < j < |vs| ==> !StrictEquals(vs[i], vs[j])
  }

  lemma {:induction false} DedupeLaws(es: seq<Value>, kept: seq<Value>)
    requires NoRepeats(kept)
    ensures NoRepeats(Dedupe(es, kept)) && kept <= Dedupe(es, kept)
    ensures forall v :: v in Dedupe(es, kept) ==> v in kept || (v in es && Truthy(v))
    ensures forall v :: v in es && Truthy(v) && (v.Bool? || v.Number? || v.String?) ==> Seen(Dedupe(es, kept), v)
  {
    if es != [] {
      var next := if !Truthy(es[0]) || Seen(kept, es[0]) then kept else kept + [es[0]];
      assert NoRepeats(next) by {
        forall i, j | 0 <= i < j < |next|
          ensures !StrictEquals(next[i], next[j])
        {
          assert j < |kept| || !Seen(kept, es[0]);
        }
      }
      DedupeLaws(es[1..], next);
      var r := Dedupe(es, kept);
      forall v | v in es && Truthy(v) && (v.Bool? || v.Number? || v.String?)
        ensures Seen(r, v)
      {
        if v == es[0] {
          var i :| 0 <= i < |next| && StrictEquals(next[i], v);
          assert r[i] == next[i];
        } else {
          assert v in es[1..];
        }
      }
    }
  }

  /**
   The plan holds every usable endpoint once, the sampled one first; the others keep their
   configured order.
   */
  lemma OrderLaws(endpoints: Value, sample: real)
    ensures var r, d := OrderEndpointCandidates(endpoints, sample), Dedupe(Elements(endpoints), []);
            && multiset(r) == multiset(d) && NoRepeats(d)
            && (|d| >= 2 ==> r[0] == d[Pick(|d|, sample)] && r[1..] == d[..Pick(|d|, sample)] + d[Pick(|d|, sample) + 1..])
  {
    hide Pick, Dedupe, StrictEquals, NoRepeats, Seen, Truthy;
    var d := Dedupe(Elements(endpoints), []);
    NoneKept(Elements(endpoints));
    if |d| >= 2 {
      MoveToFront(d, Pick(|d|, sample));
    }
  }

  lemma NoneKept(es: seq<Value>)
    ensures NoRepeats(Dedupe(es, []))
    ensures forall v :: v in Dedupe(es, []) ==> v in es && Truthy(v)
    ensures forall v :: v in es && Truthy(v) && (v.Bool? || v.Number? || v.String?) ==> Seen(Dedupe(es, []), v)
  {
    hide Dedupe, StrictEquals, Seen, Truthy;
    DedupeLaws(es, []);
  }

  /** Every planned endpoint is configured and usable, and every usable one is planned. */
  lemma OrderCovers(endpoints: Value, sample: real, v: Value)
    ensures var r := OrderEndpointCandidates(endpoints, sample);
            && (v in r ==> v in Elements(endpoints) && Truthy(v))
            && (v in Elements(endpoints) && Truthy(v) && (v.Bool? || v.Number? || v.String?) ==> Seen(r, v))
  {
    hide OrderEndpointCandidates, Pick, Dedupe, StrictEquals, Truthy, NoRepeats;
    var r, d := OrderEndpointCandidates(endpoints, sample), Dedupe(Elements(endpoints), []);
    NoneKept(Elements(endpoints));
    OrderLaws(endpoints, sample);
    if v in r {
      assert v in multiset(r);
      assert v in multiset(d);
    }
    if Seen(d, v) {
      var i :| 0 <= i < |d| && StrictEquals(d[i], v);
      assert d[i] in multiset(d);
      assert d[i] in multiset(r);
      var j :| 0 <= j < |r| && r[j] == d[i];
      assert StrictEquals(r[j], v);
    }
  }

  lemma MoveToFront(d: seq<Value>, first: nat)
    requires first < |d|
    ensures var r := [d[first]] + d[..first] + d[first + 1..];
            multiset(r) == multiset(d) && r[1..] == d[..first] + d[first + 1..] && forall v :: v in r ==> v in d
  {
    var r := [d[first]] + d[..first] + d[first + 1..];
    assert d == d[..first] + [d[first]] + d[first + 1..];
    forall v | v in r
      ensures v in d
    {
      assert v in multiset(d);
    }
  }

  // ----- what a response means for this device ---------------------------------------------------

  datatype Identity = Identity(packageVersion: Value, currentVersion: Value, uuid: Value, rolledBackVersion: Value)

  /** The schema gate: some field that carries a verdict has its type. */
  predicate IsValidResult(root: Value) {
    && root.Object?
    && (Get(root, "upToDate").Bool? || Get(root, FIELD_AVAILABLE).Bool? || Get(root, "expired").Bool? ||
        Get(root, "paused").String?)
  }

  function Parse(text: string): Option<Value> {
    JsonText.Parse(text, JsonText.DEFAULT_LIMITS)
  }

  predicate IsValidResponse(text: string) {
    var root := Parse(text);
    root.Some? && IsValidResult(root.value)
  }

  const UP_TO_DATE := Object([Member("upToDate", Bool(true))])

  /** The members other than expVersion, in order. */
  function WithoutExperiment(ms: seq<Member>): seq<Member> {
    if ms == [] then []
    else (if ms[0].key == "expVersion" then [] else [ms[0]]) + WithoutExperiment(ms[1..])
  }

  /** Every member of ms set in turn. */
  function Overlay(base: seq<Member>, ms: seq<Member>): seq<Member>
    decreases |ms|
  {
    if ms == [] then base else Overlay(SetIn(base, ms[0].key, ms[0].value), ms[1..])
  }

  predicate IsCurrent(hash: Value, current: Value) {
    hash.String? && hash.s != "" && StrictEquals(hash, current)
  }

  function Rollout(root: Value, id: Identity): Value {
    Get(Get(Get(Get(root, "expVersion"), "config"), "rollout"), AsString(id.packageVersion))
  }

  /** Whether this device takes part in the gray release the response carries. */
  predicate InExperiment(root: Value, id: Identity) {
    && Truthy(Get(root, FIELD_AVAILABLE)) && Truthy(Get(root, "expVersion"))
    && Rollout(root, id).Number? && IsInRollout(Rollout(root, id).n, AsString(id.uuid))
  }

  function ResolveResult(root: Value, id: Identity): Value {
    var rootResult := Object(WithoutExperiment(Members(root)));
    var exp := Get(root, "expVersion");
    if InExperiment(root, id) then
      if IsCurrent(Get(exp, "hash"), id.currentVersion) then UP_TO_DATE
      else
        var info := Overlay([Member(FIELD_AVAILABLE, Bool(true))], Members(exp));
        Object(if Truthy(Get(rootResult, "paths")) then SetIn(info, "paths", Get(rootResult, "paths")) else info)
    else if Truthy(Get(rootResult, FIELD_AVAILABLE)) && IsCurrent(Get(rootResult, "hash"), id.currentVersion) then
      UP_TO_DATE
    else rootResult
  }

  lemma EmptyGet(key: string)
    ensures GetIn([], key) == Undefined && IndexOf([], key) == 0
  {
  }

  lemma ConsGet(m: Member, rest: seq<Member>, key: string)
    ensures IndexOf([m] + rest, key) == if m.key == key then 0 else 1 + IndexOf(rest, key)
    ensures GetIn([m] + rest, key) == if m.key == key then m.value else GetIn(rest, key)
  {
    assert ([m] + rest)[1..] == rest;
  }

  lemma {:induction false} WithoutExperimentGet(ms: seq<Member>, key: string)
    requires DistinctKeys(ms)
    ensures GetIn(WithoutExperiment(ms), key) == if key == "expVersion" then Undefined else GetIn(ms, key)
    ensures IndexOf(WithoutExperiment(ms), key) < |WithoutExperiment(ms)| <==>
            key != "expVersion" && IndexOf(ms, key) < |ms|
  {
    hide GetIn, IndexOf;
    if ms == [] {
      EmptyGet(key);
    } else {
      var m, rest := ms[0], ms[1..];
      WithoutExperimentGet(rest, key);
      assert ms == [m] + rest;
      ConsGet(m, rest, key);
      if m.key == "expVersion" {
        assert WithoutExperiment(ms) == WithoutExperiment(rest);
      } else {
        ConsGet(m, WithoutExperiment(rest), key);
      }
    }
  }

  lemma {:induction false} OverlayGet(base: seq<Member>, ms: seq<Member>, key: string)
    requires DistinctKeys(ms)
    ensures GetIn(Overlay(base, ms), key) == if IndexOf(ms, key) < |ms| then GetIn(ms, key) else GetIn(base, key)
    decreases |ms|
  {
    hide GetIn, SetIn, IndexOf;
    if ms == [] {
      EmptyGet(key);
    } else {
      var m, rest := ms[0], ms[1..];
      OverlayGet(SetIn(base, m.key, m.value), rest, key);
      SetGet(base, m.key, m.value, key);
      assert ms == [m] + rest;
      ConsGet(m, rest, key);
    }
  }

  method CopyWithoutExperiment(ms: seq<Member>) returns (r: seq<Member>)
    requires DistinctKeys(ms)
    ensures r == WithoutExperiment(ms)
  {
    hide SetIn, WithoutExperiment, DistinctKeys;
    r := [];
    var i := 0;
    WithoutAt(r, ms, 0);
    while i < |ms|
      invariant i <= |ms| && r + WithoutExperiment(ms[i..]) == WithoutExperiment(ms)
      invariant GatheredFrom(r, ms, i)
    {
      WithoutAt(r, ms, i);
      SetAppends(r, ms, i);
      if ms[i].key != "expVersion" {
        r := SetIn(r, ms[i].key, ms[i].value);
      }
      i := i + 1;
    }
    WithoutAt(r, ms, i);
  }

  /** The members gathered so far come from the first i. */
  predicate GatheredFrom(done: seq<Member>, ms: seq<Member>, i: nat) {
    forall k :: 0 <= k < |done| ==> exists j :: 0 <= j < i && j < |ms| && ms[j] == done[k]
  }

  lemma WithoutAt(done: seq<Member>, ms: seq<Member>, i: nat)
    requires i <= |ms|
    ensures ms[0..] == ms && (i == |ms| ==> WithoutExperiment(ms[i..]) == [])
    ensures i < |ms| ==>
              done + WithoutExperiment(ms[i..]) ==
              (if ms[i].key == "expVersion" then done else done + [ms[i]]) + WithoutExperiment(ms[i + 1..])
  {
    if i < |ms| {
      assert ms[i..][1..] == ms[i + 1..] && ms[i..][0] == ms[i];
    }
  }

  method SetAll(base: seq<Member>, ms: seq<Member>) returns (r: seq<Member>)
    ensures r == Overlay(base, ms)
  {
    hide SetIn;
    r := base;
    var k := 0;
    assert ms[0..] == ms;
    while k < |ms|
      invariant k <= |ms| && Overlay(r, ms[k..]) == Overlay(base, ms)
    {
      assert ms[k..][1..] == ms[k + 1..];
      r := SetIn(r, ms[k].key, ms[k].value);
      k := k + 1;
    }
  }

  method Resolve(root: Value, id: Identity) returns (r: Value)
    requires WellFormed(root)
    ensures r == ResolveResult(root, id)
  {
    hide SetIn, GetIn, Overlay, WithoutExperiment, IsInRollout;
    var rootResult := CopyWithoutExperiment(Members(root));
    var exp := Get(root, "expVersion");
    if InExperiment(root, id) {
      if IsCurrent(Get(exp, "hash"), id.currentVersion) {
        return UP_TO_DATE;
      }
      var info := SetAll([Member(FIELD_AVAILABLE, Bool(true))], Members(exp));
      if Truthy(GetIn(rootResult, "paths")) {
        info := SetIn(info, "paths", GetIn(rootResult, "paths"));
      }
      return Object(info);
    }
    if Truthy(GetIn(rootResult, FIELD_AVAILABLE)) && IsCurrent(GetIn(rootResult, "hash"), id.currentVersion) {
      return UP_TO_DATE;
    }
    r := Object(rootResult);
  }

  /** A key not seen before is appended. */
  lemma SetAppends(done: seq<Member>, ms: seq<Member>, i: nat)
    requires DistinctKeys(ms) && i < |ms| && GatheredFrom(done, ms, i)
    ensures SetIn(done, ms[i].key, ms[i].value) == done + [ms[i]]
    ensures GatheredFrom(done, ms, i + 1) && GatheredFrom(done + [ms[i]], ms, i + 1)
  {
    IndexIs(done, ms[i].key, |done|);
  }

  predicate Has(v: Value, key: string) {
    v.Object? && IndexOf(v.members, key) < |v.members|
  }

  /**
   What the device sees of a response, field by field: inside the gray release its version's
   own fields, with the response's paths on top and the update flag defaulted; outside it the
   response without the gray-release version; and the up-to-date verdict exactly when the
   version so chosen is the one running.
   */
  predicate SeenUnder(root: Value, id: Identity, key: string) {
    var exp, r := Get(root, "expVersion"), ResolveResult(root, id);
    if InExperiment(root, id) then
      if IsCurrent(Get(exp, "hash"), id.currentVersion) then r == UP_TO_DATE
      else Get(r, key) == if key == "paths" && Truthy(Get(root, "paths")) then Get(root, "paths")
                          else if Has(exp, key) then Get(exp, key)
                          else if key == FIELD_AVAILABLE then Bool(true) else Undefined
    else if Truthy(Get(root, FIELD_AVAILABLE)) && IsCurrent(Get(root, "hash"), id.currentVersion) then r == UP_TO_DATE
    else Get(r, key) == if key == "expVersion" then Undefined else Get(root, key)
  }

  /** Every response that parses to an object is seen that way. */
  lemma ResolveMeans(text: string, id: Identity, key: string)
    requires Parse(text).Some? && Parse(text).value.Object?
    ensures SeenUnder(Parse(text).value, id, key)
  {
    hide SeenUnder;
    JsonRoundTrip.ParseIsSound(text, JsonText.DEFAULT_LIMITS);
    ObjectMeans(Parse(text).value, id, key);
  }

  lemma ObjectMeans(root: Value, id: Identity, key: string)
    requires root.Object? && WellFormed(root)
    ensures SeenUnder(root, id, key)
  {
    hide GetIn, IndexOf, SetIn, WithoutExperiment, Overlay, IsInRollout;
    var exp := Get(root, "expVersion");
    var ms := root.members;
    WithoutExperimentGet(ms, key);
    WithoutExperimentGet(ms, "paths");
    WithoutExperimentGet(ms, "hash");
    WithoutExperimentGet(ms, FIELD_AVAILABLE);
    if InExperiment(root, id) {
      EmptyGet(AsString(id.packageVersion));
      MemberIsWellFormed(root, "expVersion");
      var base := [Member(FIELD_AVAILABLE, Bool(true))];
      OverlayGet(base, exp.members, key);
      EmptyGet(key);
      ConsGet(base[0], [], key);
      assert base == [base[0]] + [];
      SetGet(Overlay(base, exp.members), "paths", Get(root, "paths"), key);
    }
  }

  lemma MemberIsWellFormed(v: Value, key: string)
    requires WellFormed(v)
    ensures WellFormed(Get(v, key))
  {
  }

  // ----- what to download -------------------------------------------------------------------------------

  datatype Strategy = Diff | PDiff | Full

  datatype Attempt = Attempt(strategy: Strategy, urls: seq<string>)

  datatype Decision =
    | Decline(reason: string)
    | Download(hash: Value, attempts: seq<Attempt>, devNoop: bool)

  function Planned(strategy: Strategy, urls: Option<seq<string>>): seq<Attempt> {
    if urls.Some? && urls.value != [] then [Attempt(strategy, urls.value)] else []
  }

  /** info.paths ?? [] */
  function Paths(info: Value): Value {
    var paths := Get(info, "paths");
    if paths.Undefined? || paths.Null? then Array([]) else paths
  }

  function Artifact(info: Value, key: string): Option<seq<string>> {
    JoinUrls(Paths(info), Get(info, key))
  }

  /** The stages by rank; a development build is left with the full one. */
  function Attempts(info: Value, isDev: bool): seq<Attempt> {
    (if isDev then [] else Planned(Diff, Artifact(info, "diff")) + Planned(PDiff, Artifact(info, "pdiff"))) +
    Planned(Full, Artifact(info, "full"))
  }

  function DecideDownload(info: Value, id: Identity, isDev: bool): Decision {
    var hash := Get(info, "hash");
    if !Truthy(Get(info, FIELD_AVAILABLE)) || !Truthy(hash) then Decline(STATUS_NONE)
    else if StrictEquals(hash, id.currentVersion) then Decline("alreadyCurrent")
    else if Truthy(id.rolledBackVersion) && StrictEquals(hash, id.rolledBackVersion) then Decline("rolledBack")
    else
      var attempts := Attempts(info, isDev);
      var devNoop := isDev && Planned(Full, Artifact(info, "full")) == [];
      if attempts == [] && !devNoop then Decline("noArtifact") else Download(hash, attempts, devNoop)
  }

  function Rank(s: Strategy): nat {
    match s case Diff => 0 case PDiff => 1 case Full => 2
  }

  /** Each strategy at most once, the full download last, no attempt without a URL. */
  predicate WellPlanned(attempts: seq<Attempt>) {
    && (forall i :: 0 <= i < |attempts| ==> attempts[i].urls != [])
    && forall i, j :: 0 <= i < j < |attempts| ==> Rank(attempts[i].strategy) < Rank(attempts[j].strategy)
  }

  predicate Absolute(attempts: seq<Attempt>) {
    forall i, k :: 0 <= i < |attempts| && 0 <= k < |attempts[i].urls| ==> Urls.HasExplicitScheme(attempts[i].urls[k])
  }

  lemma ArtifactIsAbsolute(info: Value, key: string, strategy: Strategy)
    ensures Absolute(Planned(strategy, Artifact(info, key)))
  {
    var urls := Artifact(info, key);
    if urls.Some? {
      forall k | 0 <= k < |urls.value|
        ensures Urls.HasExplicitScheme(urls.value[k])
      {
        JoinedUrlIsAbsolute(AsString(Elements(Paths(info))[k]), AsString(Get(info, key)));
      }
    }
  }

  /** The version a response offers is downloaded exactly when nothing speaks against it. */
  predicate Acceptable(hash: Value, id: Identity) {
    Truthy(hash) && !StrictEquals(hash, id.currentVersion) &&
    !(Truthy(id.rolledBackVersion) && StrictEquals(hash, id.rolledBackVersion))
  }

  predicate Offers(info: Value, key: string) {
    Truthy(Get(info, key)) && Elements(Paths(info)) != []
  }

  function Key(s: Strategy): string {
    match s case Diff => "diff" case PDiff => "pdiff" case Full => "full"
  }

  predicate Planning(attempts: seq<Attempt>, s: Strategy) {
    exists i :: 0 <= i < |attempts| && attempts[i].strategy == s
  }

  lemma PlanningEither(a: seq<Attempt>, b: seq<Attempt>, s: Strategy)
    ensures Planning(a + b, s) <==> Planning(a, s) || Planning(b, s)
  {
    if Planning(a, s) {
      var i :| 0 <= i < |a| && a[i].strategy == s;
      assert (a + b)[i].strategy == s;
    }
    if Planning(b, s) {
      var i :| 0 <= i < |b| && b[i].strategy == s;
      assert (a + b)[|a| + i].strategy == s;
    }
  }

  lemma ArtifactOffered(info: Value, key: string)
    ensures Artifact(info, key).Some? && Artifact(info, key).value != [] <==> Offers(info, key)
  {
  }

  lemma AttemptsLaws(info: Value, isDev: bool)
    ensures WellPlanned(Attempts(info, isDev)) && Absolute(Attempts(info, isDev))
    ensures forall s :: Planning(Attempts(info, isDev), s) <==> Offers(info, Key(s)) && (isDev ==> s == Full)
  {
    hide Artifact, Offers, Urls.HasExplicitScheme, WellPlanned, Planning;
    var a, b, c := Planned(Diff, Artifact(info, "diff")), Planned(PDiff, Artifact(info, "pdiff")), Planned(Full, Artifact(info, "full"));
    ArtifactIsAbsolute(info, "diff", Diff);
    ArtifactIsAbsolute(info, "pdiff", PDiff);
    ArtifactIsAbsolute(info, "full", Full);
    ThreeStages(a, b, c);
    ThreeStages([], [], c);
    assert [] + [] + c == [] + c;
    ArtifactOffered(info, "diff");
    ArtifactOffered(info, "pdiff");
    ArtifactOffered(info, "full");
    forall s: Strategy
      ensures Planning(Attempts(info, isDev), s) <==> Offers(info, Key(s)) && (isDev ==> s == Full)
    {
      PlanningEither(a, b, s);
      PlanningEither(a + b, c, s);
      PlanningEither([], c, s);
      PlanningOne(a, s);
      PlanningOne(b, s);
      PlanningOne(c, s);
      PlanningOne([], s);
    }
  }

  predicate IsStage(b: seq<Attempt>, s: Strategy) {
    Absolute(b) && (b == [] || (|b| == 1 && b[0].strategy == s && b[0].urls != []))
  }

  lemma ThreeStages(a: seq<Attempt>, b: seq<Attempt>, c: seq<Attempt>)
    requires IsStage(a, Diff) && IsStage(b, PDiff) && IsStage(c, Full)
    ensures WellPlanned(a + b + c) && Absolute(a + b + c)
  {
    hide Urls.HasExplicitScheme;
  }

  lemma PlanningOne(a: seq<Attempt>, s: Strategy)
    ensures |a| == 1 ==> (Planning(a, s) <==> a[0].strategy == s)
    ensures a == [] ==> !Planning(a, s)
  {
  }

  lemma NothingPlanned(attempts: seq<Attempt>)
    ensures attempts == [] <==> !Planning(attempts, Diff) && !Planning(attempts, PDiff) && !Planning(attempts, Full)
  {
    if attempts != [] {
      assert Planning(attempts, attempts[0].strategy);
    }
  }

  /**
   A download is decided exactly when the version is offered, acceptable and has an artifact
   (a development build needs none); it tries exactly the artifacts on offer, in the order of
   their cost, each with at least one absolute URL.
   */
  lemma DecisionLaws(info: Value, id: Identity, isDev: bool)
    ensures DecideDownload(info, id, isDev).Download? <==>
            Truthy(Get(info, FIELD_AVAILABLE)) && Acceptable(Get(info, "hash"), id) &&
            (isDev || Offers(info, "diff") || Offers(info, "pdiff") || Offers(info, "full"))
    ensures var d := DecideDownload(info, id, isDev);
            d.Download? ==>
              && d.hash == Get(info, "hash")
              && WellPlanned(d.attempts) && Absolute(d.attempts)
              && (d.devNoop <==> isDev && d.attempts == [])
              && forall s :: Planning(d.attempts, s) <==> Offers(info, Key(s)) && (isDev ==> s == Full)
  {
    hide Artifact, Truthy, StrictEquals, Get, Offers, WellPlanned, Absolute, Planning;
    AttemptsLaws(info, isDev);
    NothingPlanned(Attempts(info, isDev));
    assert Key(Diff) == "diff" && Key(PDiff) == "pdiff" && Key(Full) == "full";
    assert Planning(Attempts(info, isDev), Diff) <==> Offers(info, Key(Diff)) && (isDev ==> Diff == Full);
  }

  predicate ShouldActivateAfterDownload(info: Value, afterDownload: string) {
    afterDownload == POLICY_NEXT_LAUNCH || Truthy(Get(Get(info, "config"), "forceBoot"))
  }

  /** What a response comes to: the verdict, its activation, and the resolved value behind both. */
  datatype Handled = Handled(decision: Decision, activate: bool, info: Value)

  function HandleResponse(text: string, id: Identity, isDev: bool, afterDownload: string): Handled {
    var root := Parse(text);
    if root.None? || !IsValidResult(root.value) then Handled(Decline("invalidResponse"), false, Undefined)
    else
      var resolved := ResolveResult(root.value, id);
      var decision := DecideDownload(resolved, id, isDev);
      Handled(decision, decision.Download? && ShouldActivateAfterDownload(resolved, afterDownload), resolved)
  }

  /** No response makes a device download what it runs, or what it rolled back from. */
  lemma NeverReinstalls(text: string, id: Identity, isDev: bool, afterDownload: string)
    ensures var h := HandleResponse(text, id, isDev, afterDownload);
            && (h.decision.Download? ==> Acceptable(h.decision.hash, id) && WellPlanned(h.decision.attempts) &&
                                         Absolute(h.decision.attempts))
            && (h.decision == Decline("invalidResponse") <==> !IsValidResponse(text))
            && (h.activate ==> h.decision.Download?)
  {
    var root := Parse(text);
    if root.Some? && IsValidResult(root.value) {
      DecisionLaws(ResolveResult(root.value, id), id, isDev);
    }
  }
}
