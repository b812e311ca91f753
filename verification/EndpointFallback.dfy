/**
 The budgeted endpoint fallback of the JavaScript check (src/endpoint.ts:145-213) and the
 endpoint order it starts from (src/updateFlowCore.ts:108-124 and 246-277). What requests and
 remote lists answer is arbitrary.
 */
module EndpointFallback {
  import Decision
  import EndpointRace
  import FlowJson

  // ----- the endpoint order --------------------------------------------------------------

  /** Empty entries and repetitions dropped; `done` holds what came before. */
  function DedupeEndpoints(endpoints: seq<string>, done: seq<string>): (r: seq<string>)
    ensures done <= r
    decreases |endpoints|
  {
    if endpoints == [] then done
    else if endpoints[0] == "" || endpoints[0] in done then DedupeEndpoints(endpoints[1..], done)
    else DedupeEndpoints(endpoints[1..], done + [endpoints[0]])
  }

  method Dedupe(endpoints: seq<string>) returns (result: seq<string>)
    ensures result == DedupeEndpoints(endpoints, [])
  {
    result := [];
    var visited: set<string> := {};
    var i := 0;
    assert endpoints[0..] == endpoints;
    while i < |endpoints|
      invariant i <= |endpoints| && DedupeEndpoints(endpoints[i..], result) == DedupeEndpoints(endpoints, [])
      invariant forall e :: e in visited <==> e in result
    {
      var endpoint := endpoints[i];
      assert endpoints[i..][1..] == endpoints[i + 1..] && endpoints[i..][0] == endpoint;
      i := i + 1;
      if endpoint == "" || endpoint in visited {
        continue;
      }
      visited := visited + {endpoint};
      result := result + [endpoint];
    }
  }

  function OrderEndpointCandidates(endpoints: seq<string>, sample: real): seq<string> {
    var d := DedupeEndpoints(endpoints, []);
    if |d| < 2 then d
    else
      var first := Decision.Pick(|d|, sample);
      [d[first]] + d[..first] + d[first + 1..]
  }

  function Strings(xs: seq<string>): (vs: seq<FlowJson.Value>)
    ensures |vs| == |xs| && forall i :: 0 <= i < |xs| ==> vs[i] == FlowJson.String(xs[i])
  {
    seq(|xs|, i requires 0 <= i < |xs| => FlowJson.String(xs[i]))
  }

  lemma {:induction false} SameDedupe(endpoints: seq<string>, done: seq<string>)
    ensures Decision.Dedupe(Strings(endpoints), Strings(done)) == Strings(DedupeEndpoints(endpoints, done))
    decreases |endpoints|
  {
    if endpoints != [] {
      var e, rest := endpoints[0], endpoints[1..];
      assert Strings(endpoints)[1..] == Strings(rest);
      SameDedupe(rest, done);
      SameDedupe(rest, done + [e]);
      assert Strings(done + [e]) == Strings(done) + [FlowJson.String(e)];
    }
  }

  /** The JavaScript and the native side ask the endpoints in the same order. */
  lemma SameOrder(endpoints: seq<string>, sample: real)
    ensures Decision.OrderEndpointCandidates(FlowJson.Array(Strings(endpoints)), sample) ==
            Strings(OrderEndpointCandidates(endpoints, sample))
  {
    hide Decision.Pick, Decision.Dedupe, DedupeEndpoints;
    SameDedupe(endpoints, []);
    assert Strings([]) == [];
    var d := DedupeEndpoints(endpoints, []);
    if |d| >= 2 {
      var first := Decision.Pick(|d|, sample);
      assert Strings([d[first]] + d[..first] + d[first + 1..]) ==
             [Strings(d)[first]] + Strings(d)[..first] + Strings(d)[first + 1..];
    }
  }

  // ----- the fallback ---------------------------------------------------------------------------

  predicate Distinct(xs: seq<string>) {
    forall i, j :: 0 <= i < j < |xs| ==> xs[i] != xs[j]
  }

  lemma {:induction false} DedupeIsDistinct(endpoints: seq<string>, done: seq<string>)
    requires Distinct(done)
    ensures Distinct(DedupeEndpoints(endpoints, done))
    ensures forall e :: e in DedupeEndpoints(endpoints, done) <==> (e in endpoints && e != "") || e in done
    decreases |endpoints|
  {
    if endpoints != [] {
      DedupeIsDistinct(endpoints[1..], done);
      if endpoints[0] !in done {
        DedupeIsDistinct(endpoints[1..], done + [endpoints[0]]);
      }
    }
  }

  lemma OrderIsDistinct(endpoints: seq<string>, sample: real)
    ensures Distinct(OrderEndpointCandidates(endpoints, sample))
    ensures "" !in OrderEndpointCandidates(endpoints, sample)
  {
    hide Decision.Pick, DedupeEndpoints;
    DedupeIsDistinct(endpoints, []);
  }

  /** The entries not excluded, in order. */
  function Remaining(xs: seq<string>, excluded: set<string>): (r: seq<string>)
    ensures |r| <= |xs|
    ensures forall e :: e in r <==> e in xs && e !in excluded
  {
    if xs == [] then []
    else (if xs[0] in excluded then [] else [xs[0]]) + Remaining(xs[1..], excluded)
  }

  lemma {:induction false} RemainingIsDistinct(xs: seq<string>, excluded: set<string>)
    requires Distinct(xs)
    ensures Distinct(Remaining(xs, excluded))
  {
    if xs != [] {
      RemainingIsDistinct(xs[1..], excluded);
    }
  }

  datatype Result = Answered(endpoint: string) | NoEndpoints | AllFailed

  function Elems(xs: seq<string>): (r: set<string>)
    ensures forall e :: e in r <==> e in xs
  {
    set e | e in xs
  }

  lemma {:induction false} DistinctSize(xs: seq<string>)
    requires Distinct(xs)
    ensures |Elems(xs)| == |xs|
  {
    if xs == [] {
      assert Elems(xs) == {};
    } else {
      var k := |xs| - 1;
      DistinctSize(xs[..k]);
      assert xs == xs[..k] + [xs[k]];
      assert Elems(xs) == Elems(xs[..k]) + {xs[k]};
    }
  }

  /**
   Asks the first candidate alone, then races what is left of the configured and remote
   endpoints until one answers, none is left or the budget is spent. `asked` is every request
   issued, in order.
   */
  method ExecuteEndpointFallback(configured: seq<string>, sample: real, maxRequests: int)
    returns (result: Result, asked: seq<string>)
    ensures Distinct(asked) && (|asked| <= maxRequests || asked == [])
    ensures result.NoEndpoints? <==> asked == []
    ensures asked == [] <==> OrderEndpointCandidates(configured, sample) == [] || maxRequests < 1
    ensures asked != [] ==> asked[0] == OrderEndpointCandidates(configured, sample)[0]
    ensures result.Answered? ==> result.endpoint in asked
    ensures result.AllFailed? && |asked| < maxRequests ==>
              forall e :: e in OrderEndpointCandidates(configured, sample) ==> e in asked
  {
    hide OrderEndpointCandidates, DedupeEndpoints, Remaining;
    var candidates := OrderEndpointCandidates(configured, sample);
    ghost var ordered := candidates;
    OrderIsDistinct(configured, sample);
    if |candidates| == 0 || maxRequests < 1 {
      return NoEndpoints, [];
    }
    var first := candidates[0];
    asked := [first];
    var ok: bool := *;
    if ok {
      return Answered(first), asked;
    }
    var excluded := {first};
    while |excluded| < maxRequests
      invariant asked != [] && asked[0] == ordered[0] && Distinct(asked)
      invariant excluded == Elems(asked) && |asked| == |excluded| <= maxRequests
      invariant |excluded| < maxRequests ==> forall e :: e in ordered ==> e in candidates || e in excluded
      decreases maxRequests - |excluded|
    {
      var remote: seq<string> := *;
      candidates := NextCandidates(candidates, remote, excluded, maxRequests - |excluded|);
      if |candidates| == 0 {
        return AllFailed, asked;
      }
      var outcome := EndpointRace.SelectFastestSuccessfulEndpoint(candidates);
      AskedMore(asked, excluded, candidates, outcome.asked);
      asked := asked + outcome.asked;
      if outcome.winner.Some? {
        return Answered(outcome.winner.value), asked;
      }
      excluded := excluded + Elems(outcome.failed);
      DistinctSize(asked);
      assert excluded == Elems(asked);
    }
    result := AllFailed;
  }

  /** What is left to ask, within the budget. */
  method NextCandidates(candidates: seq<string>, remote: seq<string>, excluded: set<string>, budget: nat)
    returns (next: seq<string>)
    ensures Distinct(next) && |next| <= budget && forall e :: e in next ==> e !in excluded
    ensures |next| < budget ==> forall e :: e in candidates && e != "" && e !in excluded ==> e in next
  {
    hide DedupeEndpoints, Remaining;
    var all := Dedupe(candidates + remote);
    DedupeIsDistinct(candidates + remote, []);
    var rest := Remaining(all, excluded);
    RemainingIsDistinct(all, excluded);
    next := if |rest| <= budget then rest else rest[..budget];
    assert forall i :: 0 <= i < |next| ==> next[i] == rest[i] && rest[i] in rest;
  }

  lemma AskedMore(asked: seq<string>, excluded: set<string>, candidates: seq<string>, more: seq<string>)
    requires Distinct(asked) && excluded == Elems(asked) && Distinct(candidates) && more <= candidates
    requires forall e :: e in candidates ==> e !in excluded
    ensures Distinct(asked + more)
  {
    assert forall i :: 0 <= i < |more| ==> more[i] == candidates[i] && more[i] in candidates;
    assert forall i :: 0 <= i < |asked| ==> asked[i] in excluded;
  }
}
