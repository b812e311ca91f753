/**
 The hedged race over endpoint candidates (src/endpoint.ts:47-143). Callbacks, the hedge
 timer and the settlement of requests are the steps of a state machine; every interleaving of
 them is a run. Requests are named by the index of their endpoint.
 */
module EndpointRace {
  import opened Wrappers

  /** The variables the callbacks share, and what is still in flight. */
  datatype Race = Race(
    nextIndex: nat, pending: int, settled: bool, timer: bool, winner: Option<nat>,
    failures: seq<nat>, inFlight: set<nat>, aborted: set<nat>)

  datatype Event = Tick | Succeeded(i: nat) | Failed(i: nat)

  /** A timer fires only while armed, a request settles once. */
  predicate Enabled(r: Race, e: Event) {
    match e
    case Tick => r.timer
    case Succeeded(i) => i in r.inFlight
    case Failed(i) => i in r.inFlight
  }

  // ----- the callbacks as functions --------------------------------------------------------

  /** Starts the next candidate, and arms the timer when another one follows. */
  function Launched(r: Race, n: nat): Race {
    var s := r.(timer := false);
    if s.settled || s.nextIndex >= n then s
    else
      s.(nextIndex := s.nextIndex + 1, pending := s.pending + 1, inFlight := s.inFlight + {s.nextIndex},
         timer := s.nextIndex + 1 < n)
  }

  function Indices(n: nat): (r: set<nat>)
    ensures forall i: nat :: i in r <==> i < n
    ensures |r| == n
  {
    if n == 0 then {} else Indices(n - 1) + {n - 1}
  }

  /** Settles the race once and aborts every request but the winner's. */
  function Finished(r: Race, winner: Option<nat>): Race {
    if r.settled then r
    else
      r.(settled := true, timer := false, winner := winner,
         aborted := Indices(r.nextIndex) - (if winner.Some? then {winner.value} else {}))
  }

  function AfterSuccess(r: Race, i: nat): Race {
    Finished(r.(inFlight := r.inFlight - {i}), Some(i))
  }

  function AfterFailure(r: Race, i: nat, n: nat): Race {
    var s := r.(inFlight := r.inFlight - {i}, pending := r.pending - 1);
    if s.settled then s
    else
      var t := s.(failures := s.failures + [i]);
      if t.nextIndex < n then Launched(t, n)
      else if t.pending == 0 then Finished(t, None)
      else t
  }

  function Step(r: Race, e: Event, n: nat): Race {
    match e
    case Tick => Launched(r, n)
    case Succeeded(i) => AfterSuccess(r, i)
    case Failed(i) => AfterFailure(r, i, n)
  }

  const BLANK := Race(0, 0, false, false, None, [], {}, {})

  /** With no endpoint the race is over before it begins. */
  function Start(n: nat): Race {
    if n == 0 then BLANK.(settled := true) else Launched(BLANK, n)
  }

  // ----- what every state keeps --------------------------------------------------------------

  predicate DistinctIndices(xs: seq<nat>) {
    forall i, j :: 0 <= i < j < |xs| ==> xs[i] != xs[j]
  }

  /** What a race that nobody has won yet says about its first requests. */
  predicate Open(r: Race) {
    && r.winner.None? && r.pending == |r.inFlight| && |r.failures| + |r.inFlight| == r.nextIndex
    && forall i: nat :: i < r.nextIndex ==> i in r.inFlight || i in r.failures
  }

  /** Requests in flight and failures are started candidates, each in one place only. */
  predicate Placed(r: Race) {
    && DistinctIndices(r.failures)
    && (forall i :: i in r.inFlight ==> i < r.nextIndex)
    && (forall i :: i in r.failures ==> i < r.nextIndex && i !in r.inFlight)
  }

  predicate AllFailed(r: Race, n: nat) {
    |r.failures| == n && forall i: nat :: i < n ==> i in r.failures
  }

  predicate Inv(r: Race, n: nat) {
    && r.nextIndex <= n && Placed(r)
    && (!r.settled ==> Open(r) && r.inFlight != {} && (r.timer <==> r.nextIndex < n))
    && (r.settled ==>
          && !r.timer && r.inFlight <= r.aborted
          && match r.winner
             case None => r.nextIndex == n && AllFailed(r, n)
             case Some(w) => w < r.nextIndex && w !in r.failures && w !in r.inFlight && w !in r.aborted)
  }

  lemma LaunchKeeps(r: Race, n: nat)
    requires r.nextIndex < n && !r.settled && Placed(r) && Open(r)
    ensures Inv(Launched(r, n), n)
  {
    var t := Launched(r, n);
    assert r.nextIndex !in r.inFlight;
    assert r.nextIndex in t.inFlight;
  }

  lemma FailureKeeps(r: Race, i: nat, n: nat)
    requires Inv(r, n) && i in r.inFlight
    ensures Inv(AfterFailure(r, i, n), n)
  {
    var s := r.(inFlight := r.inFlight - {i}, pending := r.pending - 1);
    if !r.settled {
      var t := s.(failures := s.failures + [i]);
      if t.nextIndex < n {
        LaunchKeeps(t, n);
      } else {
        assert |t.inFlight| == 0 <==> t.inFlight == {};
      }
    }
  }

  lemma StepKeeps(r: Race, e: Event, n: nat)
    requires Inv(r, n) && Enabled(r, e)
    ensures Inv(Step(r, e, n), n)
  {
    match e
    case Tick => LaunchKeeps(r, n);
    case Succeeded(i) =>
    case Failed(i) => FailureKeeps(r, i, n);
  }

  // ----- whole races -----------------------------------------------------------------------------

  /** Every event of the run is one that can happen when it does. */
  predicate CanHappen(r: Race, es: seq<Event>, n: nat)
    decreases |es|
  {
    es == [] || (Enabled(r, es[0]) && CanHappen(Step(r, es[0], n), es[1..], n))
  }

  function Run(r: Race, es: seq<Event>, n: nat): Race
    decreases |es|
  {
    if es == [] then r else Run(Step(r, es[0], n), es[1..], n)
  }

  lemma {:induction false} RunKeeps(r: Race, es: seq<Event>, n: nat)
    requires Inv(r, n) && CanHappen(r, es, n)
    ensures Inv(Run(r, es, n), n)
    decreases |es|
  {
    if es != [] {
      StepKeeps(r, es[0], n);
      RunKeeps(Step(r, es[0], n), es[1..], n);
    }
  }

  /**
   Under every interleaving: while unsettled a request is pending, and the timer is armed as
   long as a candidate has not been started; a race reports failure only after every
   candidate was started and failed, each once; a winner was started and did not fail, and
   every request still in flight has been aborted.
   */
  lemma RaceLaws(n: nat, es: seq<Event>)
    requires CanHappen(Start(n), es, n)
    ensures var r := Run(Start(n), es, n);
            && (!r.settled ==> r.inFlight != {} && r.pending > 0 && (r.timer <==> r.nextIndex < n))
            && (r.settled && r.winner.None? ==> AllFailed(r, n))
            && (r.settled && r.winner.Some? ==> r.winner.value < r.nextIndex && r.winner.value !in r.failures &&
                                                r.winner.value !in r.aborted && r.inFlight <= r.aborted)
            && Placed(r)
  {
    RunKeeps(Start(n), es, n);
  }

  lemma OneStep(r: Race, e: Event, n: nat)
    requires Inv(r, n) && Enabled(r, e)
    ensures var t := Step(r, e, n);
            && r.nextIndex <= t.nextIndex <= r.nextIndex + 1
            && (r.settled ==> t.settled && t.winner == r.winner && t.failures == r.failures && t.nextIndex == r.nextIndex)
            && (e.Failed? && !r.settled && r.nextIndex < n ==> t.nextIndex == r.nextIndex + 1)
            && (e.Tick? ==> t.nextIndex == r.nextIndex + 1)
            && (e.Succeeded? && !r.settled ==> t.settled && t.winner == Some(e.i))
            && Left(t, n) < Left(r, n)
  {
    match e
    case Tick =>
      assert r.nextIndex !in r.inFlight;
    case Succeeded(i) =>
    case Failed(i) =>
      assert r.nextIndex !in r.inFlight;
  }

  /** Requests that can still be started or settle. */
  function Left(r: Race, n: nat): nat {
    2 * (if r.nextIndex < n then n - r.nextIndex else 0) + |r.inFlight|
  }

  /** The race settles once: what it resolved with never changes afterwards. */
  lemma {:induction false} SettlesOnce(r: Race, es: seq<Event>, n: nat)
    requires Inv(r, n) && CanHappen(r, es, n)
    ensures var t := Run(r, es, n);
            && (r.settled ==> t.settled && t.winner == r.winner && t.failures == r.failures && t.nextIndex == r.nextIndex)
            && r.nextIndex <= t.nextIndex
            && |es| + Left(t, n) <= Left(r, n)
    decreases |es|
  {
    if es != [] {
      StepKeeps(r, es[0], n);
      OneStep(r, es[0], n);
      SettlesOnce(Step(r, es[0], n), es[1..], n);
    }
  }

  /** A race over n endpoints is over, callbacks included, after at most 2n events. */
  lemma RaceIsShort(n: nat, es: seq<Event>)
    requires CanHappen(Start(n), es, n)
    ensures |es| <= 2 * n
  {
    SettlesOnce(Start(n), es, n);
  }

  // ----- the closures, with the variables they share as fields ------------------------------------------

  class Racing {
    const endpoints: seq<string>
    var nextIndex: nat
    var pending: int
    var settled: bool
    var timer: bool
    var winner: Option<nat>
    var failures: seq<nat>
    var inFlight: set<nat>
    var aborted: set<nat>

    function State(): Race
      reads this
    {
      Race(nextIndex, pending, settled, timer, winner, failures, inFlight, aborted)
    }

    constructor (endpoints: seq<string>)
      ensures this.endpoints == endpoints && State() == Start(|endpoints|)
    {
      this.endpoints := endpoints;
      nextIndex, pending, settled, timer, winner, failures, inFlight, aborted := 0, 0, false, false, None, [], {}, {};
      new;
      if |endpoints| == 0 {
        settled := true;
        return;
      }
      LaunchNext();
    }

    method Finish(success: Option<nat>)
      modifies this
      ensures State() == Finished(old(State()), success)
    {
      if settled {
        return;
      }
      settled := true;
      timer := false;
      winner := success;
      var launched := Indices(nextIndex);
      aborted := launched - (if success.Some? then {success.value} else {});
    }

    method LaunchNext()
      modifies this
      ensures State() == Launched(old(State()), |endpoints|)
    {
      timer := false;
      if settled || nextIndex >= |endpoints| {
        return;
      }
      inFlight := inFlight + {nextIndex};
      nextIndex := nextIndex + 1;
      pending := pending + 1;
      if !settled && nextIndex < |endpoints| {
        timer := true;
      }
    }

    method OnSuccess(i: nat)
      modifies this
      ensures State() == AfterSuccess(old(State()), i)
    {
      inFlight := inFlight - {i};
      Finish(Some(i));
    }

    method OnFailure(i: nat)
      modifies this
      ensures State() == AfterFailure(old(State()), i, |endpoints|)
    {
      inFlight := inFlight - {i};
      pending := pending - 1;
      if settled {
        return;
      }
      failures := failures + [i];
      if nextIndex < |endpoints| {
        LaunchNext();
      } else if pending == 0 {
        Finish(None);
      }
    }
  }

  // ----- an outcome of the race ---------------------------------------------------------------------------

  /** What the promise resolves with: the winner, or nobody; and the failures before that. */
  datatype Outcome = Outcome(winner: Option<string>, failed: seq<string>, asked: seq<string>)

  /** A winner was asked and did not fail; without one, every endpoint was asked and failed. */
  ghost predicate Possible(endpoints: seq<string>, o: Outcome) {
    && o.asked <= endpoints
    && if o.winner.Some? then o.winner.value in o.asked
       else o.asked == endpoints && |o.failed| == |endpoints| && forall e :: e in o.failed <==> e in endpoints
  }

  /** Runs the race under an arbitrary schedule of its callbacks until it settles. */
  method SelectFastestSuccessfulEndpoint(endpoints: seq<string>) returns (o: Outcome)
    ensures Possible(endpoints, o)
  {
    var n := |endpoints|;
    var race := new Racing(endpoints);
    while !race.settled
      invariant fresh(race) && race.endpoints == endpoints && Inv(race.State(), n)
      decreases Left(race.State(), n)
    {
      var i :| i in race.inFlight;
      var tick: bool, ok: bool := *, *;
      if race.timer && tick {
        StepKeeps(race.State(), Tick, n);
        OneStep(race.State(), Tick, n);
        race.LaunchNext();
      } else if ok {
        StepKeeps(race.State(), Succeeded(i), n);
        OneStep(race.State(), Succeeded(i), n);
        race.OnSuccess(i);
      } else {
        StepKeeps(race.State(), Failed(i), n);
        OneStep(race.State(), Failed(i), n);
        race.OnFailure(i);
      }
    }
    o := Outcome(if race.winner.Some? then Some(endpoints[race.winner.value]) else None,
                 Named(endpoints, race.failures), endpoints[..race.nextIndex]);
    if race.winner.Some? {
      assert o.asked[race.winner.value] == endpoints[race.winner.value];
    } else {
      EveryoneFailed(endpoints, race.failures);
    }
  }

  function Named(endpoints: seq<string>, indices: seq<nat>): (names: seq<string>)
    requires forall i :: i in indices ==> i < |endpoints|
    ensures |names| == |indices|
  {
    seq(|indices|, k requires 0 <= k < |indices| => assert indices[k] in indices; endpoints[indices[k]])
  }

  lemma EveryoneFailed(endpoints: seq<string>, failures: seq<nat>)
    requires forall i :: i in failures ==> i < |endpoints|
    requires forall i: nat :: i < |endpoints| ==> i in failures
    ensures forall e :: e in Named(endpoints, failures) <==> e in endpoints
  {
    var names := Named(endpoints, failures);
    forall e | e in endpoints ensures e in names {
      var i: nat :| i < |endpoints| && endpoints[i] == e;
      assert i in failures;
      var k :| 0 <= k < |failures| && failures[k] == i;
      assert names[k] == e;
    }
    forall e | e in names ensures e in endpoints {
      var k :| 0 <= k < |names| && names[k] == e;
      assert failures[k] in failures;
    }
  }
}
