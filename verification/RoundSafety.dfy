/**
 Safety and termination over whole rounds: one start, whatever came before it, then any
 sequence of other events (cpp/update_flow_core/round_engine.cpp:74-97, 170-196, 248-388).
 */
module RoundSafety {
  import opened Decision
  import opened NativeRound
  import opened RoundEngine
  import opened RoundRuns
  import opened Wrappers
  import NativeConfig

  /** All commands of a round, the start's own first. */
  function Commands(previous: Option<State>, start: Event, es: seq<Event>): seq<Command> {
    StepRound(previous, start).commands + Emitted(StepRound(previous, start).state, es)
  }

  /** The result of a start does not depend on the previous state, and is Fine. */
  lemma StartGood(previous: Option<State>, e: Event)
    requires e.what.Start?
    ensures var o := StepRound(previous, e);
            && o == StepRound(None, e) && Fine(o.state)
            && (if o.state.phase.AwaitEnv? then o.commands == [MarkIncomplete, CollectEnv]
                else o.state.phase.Done? && |o.commands| == 1 && o.commands[0].Finish?)
            && o.state.deadline == e.what.deadline && o.state.config == e.what.config
            && o.state.resetGeneration == e.what.resetGeneration && o.state.configGeneration == e.what.configGeneration
  {
    hide NativeConfig.ParseRunnableConfig;
  }

  lemma {:induction false} RunFine(s: State, es: seq<Event>)
    requires Fine(s) && NoStart(es)
    ensures Fine(Run(s, es)) && SameRound(s, Run(s, es))
    decreases |es|
  {
    hide StepRound, Fine;
    if es != [] {
      StepGood(s, es[0]);
      RunFine(Next(s, es[0]), es[1..]);
    }
  }

  // ----- one finish ------------------------------------------------------------------------------

  lemma {:induction false} FinishesOnce(s: State, es: seq<Event>)
    requires Fine(s) && NoStart(es)
    ensures var cs := Emitted(s, es);
            && (forall i :: 0 <= i < |cs| - 1 ==> !cs[i].Finish?)
            && (if s.phase.Done? then cs == [] && Run(s, es).phase.Done?
                else Run(s, es).phase.Done? <==> cs != [] && cs[|cs| - 1].Finish?)
    decreases |es|
  {
    hide StepRound, Fine;
    if es != [] {
      StepGood(s, es[0]);
      FinishesOnce(Next(s, es[0]), es[1..]);
    }
  }

  /**
   Over every round there is at most one finish, it is the last command, and it has been
   emitted exactly when the round is over.
   */
  lemma OneFinish(previous: Option<State>, start: Event, es: seq<Event>)
    requires start.what.Start? && NoStart(es)
    ensures var cs := Commands(previous, start, es);
            && cs != [] && (forall i :: 0 <= i < |cs| - 1 ==> !cs[i].Finish?)
            && (Run(StepRound(previous, start).state, es).phase.Done? <==> cs[|cs| - 1].Finish?)
  {
    hide StepRound, Fine;
    StartGood(previous, start);
    FinishesOnce(StepRound(previous, start).state, es);
  }

  // ----- budgets -----------------------------------------------------------------------------------

  function Count(cs: seq<Command>, f: Command -> bool): nat {
    if cs == [] then 0 else (if f(cs[0]) then 1 else 0) + Count(cs[1..], f)
  }

  predicate IsHttp(c: Command) {
    c.Http?
  }

  predicate IsCommit(c: Command) {
    c.Commit?
  }

  function HttpLeft(s: State): nat
    requires Fine(s)
  {
    if s.phase.AwaitEnv? then MAX_QUERY_REQUESTS else if s.phase.AwaitHttp? then MAX_QUERY_REQUESTS - s.query.value.spent else 0
  }

  lemma {:induction false} BudgetsLeft(s: State, es: seq<Event>)
    requires Fine(s) && NoStart(es)
    ensures Count(Emitted(s, es), IsHttp) <= HttpLeft(s)
    ensures Count(Emitted(s, es), IsCommit) <= if PhaseRank(s.phase) >= 2 then 1 else 0
    decreases |es|
  {
    hide StepRound, Inv, Installable;
    if es != [] {
      var o := StepRound(Some(s), es[0]);
      StepGood(s, es[0]);
      BudgetsLeft(o.state, es[1..]);
      if !s.phase.Done? {
        assert o.commands == [o.commands[0]];
      } else {
        assert o.commands + Emitted(o.state, es[1..]) == Emitted(o.state, es[1..]);
      }
    }
  }

  /** At most eight requests and one commit in a round. */
  lemma Budgets(previous: Option<State>, start: Event, es: seq<Event>)
    requires start.what.Start? && NoStart(es)
    ensures Count(Commands(previous, start, es), IsHttp) <= MAX_QUERY_REQUESTS
    ensures Count(Commands(previous, start, es), IsCommit) <= 1
  {
    hide StepRound, Fine;
    var o := StepRound(previous, start);
    var rest := Emitted(o.state, es);
    StartGood(previous, start);
    BudgetsLeft(o.state, es);
    if o.state.phase.AwaitEnv? {
      assert o.commands + rest == [MarkIncomplete] + ([CollectEnv] + rest);
    } else {
      assert o.commands == [o.commands[0]];
    }
  }

  // ----- no endpoint asked twice ------------------------------------------------------------------------

  /** The bases posted to, in order. */
  function Posted(s: State, es: seq<Event>): seq<string>
    decreases |es|
  {
    if es == [] then []
    else
      var t := Next(s, es[0]);
      (if t.phase.AwaitHttp? && t.query.Some? then LastBases(t.query.value) else []) + Posted(t, es[1..])
  }

  function TriedOf(s: State): seq<string> {
    if s.phase.AwaitHttp? && s.query.Some? then s.query.value.tried else []
  }

  function LastBases(q: Query): seq<string> {
    if q.pending.Some? && q.pending.value.post then [LastBase(q)] else []
  }

  /** The step went on with the query: it asks what the query says, within the budget. */
  predicate WentOn(s: State, q: Query, o: Out, now: real) {
    && o.state.query.Some? && o.state.query.value.pending.Some? && o.state.query.value.appKey == q.appKey
    && o.state.query.value.tried == q.tried + LastBases(o.state.query.value)
    && o.commands == [HttpFor(s, o.state.query.value.pending.value, now)]
    && Within(s, now, QUERY_IDLE_TIMEOUT_MS) > 0.0
  }

  function HttpFor(s: State, r: Request, now: real): Command {
    Http(r.url, r.post, if r.post then Some(s.body) else None,
         Within(s, now, QUERY_IDLE_TIMEOUT_MS), Within(s, now, QUERY_CALL_TIMEOUT_MS))
  }

  predicate Asks(cs: seq<Command>, r: Request) {
    |cs| == 1 && cs[0].Http? && cs[0].url == r.url && cs[0].post == r.post
  }

  lemma AskTried(s: State, text: Option<string>, now: real)
    requires s.query.Some? && Inv(s.query.value)
    ensures Ask(s, text, now).state.phase.AwaitHttp? ==> WentOn(s, s.query.value, Ask(s, text, now), now)
  {
    hide NextQueryStep, Inv, Respond;
    StepKeeps(s.query.value, text);
    if NextQueryStep(s.query.value, text).found {
      RespondGood(s.(query := None), TextOf(text));
    }
  }

  lemma StepTried(s: State, e: Event)
    requires Fine(s) && !e.what.Start? && Next(s, e).phase.AwaitHttp?
    ensures var t := Next(s, e);
            && t.query.Some? && t.query.value.tried == TriedOf(s) + LastBases(t.query.value)
            && (s.phase.AwaitHttp? ==> s.query.Some? && t.query.value.appKey == s.query.value.appKey)
            && t.query.value.pending.Some? && Asks(StepRound(Some(s), e).commands, t.query.value.pending.value)
  {
    hide Ask, Inv, PrepareRound, OnInstalled, OnDownload, Installable;
    StickFine(s, e);
    var u := Stick(s, e);
    if Expects(u.phase, e.what) {
      match e.what
      case EnvReply(env) =>
        PreparedIsFine(u.config, env, u.sample);
        var r := PrepareRound(u.config, env, u.sample);
        if r.Some? {
          AskTried(u.(env := env, body := r.value.body, query := Some(r.value.query)), None, e.now);
        }
      case HttpReply(text, at) => AskTried(u.(at := at.Floor as real), text, e.now);
      case InstalledReply(installed) => OnInstalledGood(u, installed, e.now);
      case DownloadReply(ok, code, timedOut) => OnDownloadGood(u, ok, code, timedOut, e.now);
      case CommittedReply(_, _, _, _) =>
    }
  }

  lemma {:induction false} PostedDistinct(s: State, es: seq<Event>)
    requires Fine(s) && NoStart(es)
    ensures NativeRound.Distinct(TriedOf(s) + Posted(s, es))
    ensures !s.phase.AwaitEnv? && !s.phase.AwaitHttp? ==> Posted(s, es) == []
    decreases |es|
  {
    hide StepRound, Installable;
    assert TriedOf(s) + [] == TriedOf(s);
    if es != [] {
      var t := Next(s, es[0]);
      StepGood(s, es[0]);
      PostedDistinct(t, es[1..]);
      if t.phase.AwaitHttp? {
        StepTried(s, es[0]);
        var p := LastBases(t.query.value);
        assert TriedOf(s) + (p + Posted(t, es[1..])) == TriedOf(t) + Posted(t, es[1..]);
      } else {
        assert TriedOf(s) + ([] + Posted(t, es[1..])) == TriedOf(s) + Posted(t, es[1..]);
      }
    }
  }

  /** The URLs of the POST requests among the commands, in order. */
  function PostUrls(cs: seq<Command>): seq<string> {
    if cs == [] then []
    else (if cs[0].Http? && cs[0].post then [cs[0].url] else []) + PostUrls(cs[1..])
  }

  function Suffixed(bases: seq<string>, suffix: string): (urls: seq<string>)
    ensures |urls| == |bases| && forall i :: 0 <= i < |bases| ==> urls[i] == bases[i] + suffix
  {
    if bases == [] then [] else [bases[0] + suffix] + Suffixed(bases[1..], suffix)
  }

  function SuffixOf(s: State): string {
    if s.phase.AwaitHttp? && s.query.Some? then QUERY_PATH + s.query.value.appKey else ""
  }

  lemma PendingUrl(q: Query)
    requires Inv(q) && q.pending.Some? && q.pending.value.post
    ensures q.pending.value.url == LastBase(q) + (QUERY_PATH + q.appKey)
  {
  }

  /** The URLs posted to are the bases posted to, all with the same path behind them. */
  lemma {:induction false} UrlsOfBases(s: State, es: seq<Event>) returns (suffix: string)
    requires Fine(s) && NoStart(es)
    ensures PostUrls(Emitted(s, es)) == Suffixed(Posted(s, es), suffix)
    ensures s.phase.AwaitHttp? ==> suffix == SuffixOf(s)
    decreases |es|
  {
    hide StepRound, Installable, Inv;
    suffix := SuffixOf(s);
    if es != [] {
      var o, t := StepRound(Some(s), es[0]), Next(s, es[0]);
      StepGood(s, es[0]);
      PostedDistinct(t, es[1..]);
      var later := UrlsOfBases(t, es[1..]);
      var rest := Emitted(t, es[1..]);
      if t.phase.AwaitHttp? {
        StepTried(s, es[0]);
        suffix := later;
        HttpUrl(t.query.value, o.commands, rest, Posted(t, es[1..]), suffix);
      } else {
        assert Posted(s, es) == [];
        if o.commands == [] {
          assert o.commands + rest == rest;
        } else {
          assert o.commands == [o.commands[0]];
          FirstUrl(o.commands[0], rest);
        }
      }
    }
  }

  lemma HttpUrl(q: Query, cs: seq<Command>, rest: seq<Command>, bases: seq<string>, suffix: string)
    requires Inv(q) && q.pending.Some? && Asks(cs, q.pending.value) && suffix == QUERY_PATH + q.appKey
    requires PostUrls(rest) == Suffixed(bases, suffix)
    ensures PostUrls(cs + rest) == Suffixed(LastBases(q) + bases, suffix)
  {
    hide Inv, PostUrls, Suffixed;
    assert cs == [cs[0]];
    FirstUrl(cs[0], rest);
    if q.pending.value.post {
      PendingUrl(q);
    }
    FirstBase(LastBases(q), bases, suffix);
  }

  lemma FirstUrl(c: Command, rest: seq<Command>)
    ensures PostUrls([c] + rest) == (if c.Http? && c.post then [c.url] else []) + PostUrls(rest)
  {
    assert ([c] + rest)[1..] == rest;
  }

  lemma FirstBase(p: seq<string>, rest: seq<string>, suffix: string)
    requires |p| <= 1
    ensures Suffixed(p + rest, suffix) == (if p == [] then [] else [p[0] + suffix]) + Suffixed(rest, suffix)
  {
    if p == [] {
      assert p + rest == rest;
    } else {
      assert (p + rest)[1..] == rest;
    }
  }

  /** No endpoint is asked twice in a round: the URLs of its POST requests all differ. */
  lemma NoEndpointTwice(previous: Option<State>, start: Event, es: seq<Event>)
    requires start.what.Start? && NoStart(es)
    ensures NativeRound.Distinct(PostUrls(Commands(previous, start, es)))
  {
    hide StepRound, Fine;
    var s := StepRound(previous, start).state;
    StartGood(previous, start);
    PostedDistinct(s, es);
    assert TriedOf(s) + Posted(s, es) == Posted(s, es);
    var suffix := UrlsOfBases(s, es);
    DistinctUrls(Posted(s, es), suffix);
    StartPostsNothing(StepRound(previous, start).commands, Emitted(s, es));
  }

  lemma DistinctUrls(bases: seq<string>, suffix: string)
    requires NativeRound.Distinct(bases)
    ensures NativeRound.Distinct(Suffixed(bases, suffix))
  {
    forall i, j | 0 <= i < j < |bases| ensures bases[i] + suffix != bases[j] + suffix {
      if bases[i] + suffix == bases[j] + suffix {
        AppendedSame(bases[i], bases[j], suffix);
      }
    }
  }

  lemma AppendedSame(a: string, b: string, suffix: string)
    requires a + suffix == b + suffix
    ensures a == b
  {
    assert (a + suffix)[..|a|] == a && (b + suffix)[..|b|] == b;
  }

  lemma StartPostsNothing(cs: seq<Command>, rest: seq<Command>)
    requires cs == [MarkIncomplete, CollectEnv] || (|cs| == 1 && cs[0].Finish?)
    ensures PostUrls(cs + rest) == PostUrls(rest)
  {
    if |cs| == 2 {
      assert cs + rest == [MarkIncomplete] + ([CollectEnv] + rest);
      assert ([CollectEnv] + rest)[1..] == rest;
    } else {
      assert (cs + rest)[1..] == rest;
    }
  }

  // ----- downloads --------------------------------------------------------------------------------------------

  /** A download with the cursor it was started at. */
  datatype Taken = Taken(at: Cursor, command: Command)

  function Downloads(s: State, es: seq<Event>): seq<Taken>
    decreases |es|
  {
    if es == [] then []
    else
      var o := StepRound(Some(s), es[0]);
      (if o.commands != [] && o.commands[0].Fetch? then [Taken(CursorOf(o.state), o.commands[0])] else []) +
      Downloads(o.state, es[1..])
  }

  predicate Before(a: Cursor, b: Cursor) {
    a.attempt < b.attempt || (a.attempt == b.attempt && a.url < b.url)
  }

  /** The download is the plan's at its cursor. */
  predicate TakenFrom(t: Taken, d: Version) {
    && t.at.attempt < |d.attempts| && t.at.url < |d.attempts[t.at.attempt].urls|
    && t.command.Fetch? && t.command.strategy == d.attempts[t.at.attempt].strategy
    && t.command.url == d.attempts[t.at.attempt].urls[t.at.url] && t.command.hash == d.hash
  }

  predicate Rising(ts: seq<Taken>) {
    forall i, j :: 0 <= i < j < |ts| ==> Before(ts[i].at, ts[j].at)
  }

  lemma NextAttemptTaken(s: State, now: real)
    ensures var o := NextAttempt(s, now);
            o.commands[0].Fetch? ==> o.state.cursor.Some? && o.state.decision == s.decision &&
                                     TakenFrom(Taken(CursorOf(o.state), o.commands[0]), DecisionOf(o.state))
  {
    hide Seek;
  }

  lemma StepTaken(s: State, e: Event)
    requires Fine(s) && !e.what.Start?
    ensures var o := StepRound(Some(s), e);
            && (PhaseRank(s.phase) <= 3 ==> o.state.decision == s.decision)
            && (o.commands != [] && o.commands[0].Fetch? ==>
                  && o.state.phase.AwaitDownload? && PhaseRank(s.phase) <= 3
                  && TakenFrom(Taken(CursorOf(o.state), o.commands[0]), DecisionOf(o.state))
                  && (s.phase.AwaitDownload? ==> Before(CursorOf(s), CursorOf(o.state))))
  {
    hide Ask, Inv, PrepareRound, NextAttempt, Installable, Respond;
    StepGood(s, e);
    StickFine(s, e);
    var u := Stick(s, e);
    var o := StepRound(Some(s), e);
    if Expects(u.phase, e.what) {
      match e.what
      case EnvReply(env) =>
      case HttpReply(text, at) =>
      case InstalledReply(installed) =>
        OnInstalledGood(u, installed, e.now);
        NextAttemptTaken(u.(cursor := Some(Cursor(0, 0, DeadlineIn(u, e.now, DOWNLOAD_PHASE_MS), 0.0))), e.now);
      case DownloadReply(ok, code, timedOut) =>
        OnDownloadGood(u, ok, code, timedOut, e.now);
        NextAttemptTaken(u.(cursor := Some(MovedOn(u, code, timedOut))), e.now);
      case CommittedReply(_, _, _, _) =>
    }
  }

  lemma {:induction false} DownloadsRise(s: State, es: seq<Event>)
    requires Fine(s) && NoStart(es)
    ensures var ts := Downloads(s, es);
            && Rising(ts)
            && (forall i :: 0 <= i < |ts| ==> TakenFrom(ts[i], DecisionOf(Run(s, es))))
            && (s.phase.AwaitDownload? ==> forall i :: 0 <= i < |ts| ==> Before(CursorOf(s), ts[i].at))
            && (PhaseRank(s.phase) < 2 ==> ts == [])
            && (PhaseRank(s.phase) <= 3 ==> Run(s, es).decision == s.decision)
    decreases |es|
  {
    hide StepRound, Fine, TakenFrom;
    if es != [] {
      var o := StepRound(Some(s), es[0]);
      StepGood(s, es[0]);
      StepTaken(s, es[0]);
      DownloadsRise(o.state, es[1..]);
    }
  }

  /**
   Downloads follow the plan strictly forward: no mirror of a strategy is tried twice, and a
   strategy once left is never taken up again.
   */
  lemma NoMirrorTwice(previous: Option<State>, start: Event, es: seq<Event>)
    requires start.what.Start? && NoStart(es)
    ensures var s := StepRound(previous, start).state;
            var ts := Downloads(s, es);
            && (forall i :: 0 <= i < |ts| ==> TakenFrom(ts[i], DecisionOf(Run(s, es))))
            && forall i, j :: 0 <= i < j < |ts| ==>
                 Rank(ts[i].command.strategy) < Rank(ts[j].command.strategy) ||
                 (ts[i].command.strategy == ts[j].command.strategy && ts[i].at.url < ts[j].at.url)
  {
    hide StepRound, Fine;
    var s := StepRound(previous, start).state;
    var ts := Downloads(s, es);
    StartGood(previous, start);
    DownloadsRise(s, es);
    if ts != [] {
      assert TakenFrom(ts[0], DecisionOf(Run(s, es)));
      PlannedWhenTaken(s, es);
      forall i, j | 0 <= i < j < |ts|
        ensures Rank(ts[i].command.strategy) < Rank(ts[j].command.strategy) ||
                (ts[i].command.strategy == ts[j].command.strategy && ts[i].at.url < ts[j].at.url)
      {
        assert Before(ts[i].at, ts[j].at);
      }
    }
  }

  lemma {:induction false} PlannedWhenTaken(s: State, es: seq<Event>)
    requires Fine(s) && NoStart(es) && Downloads(s, es) != []
    ensures WellPlanned(DecisionOf(Run(s, es)).attempts)
    decreases |es|
  {
    hide StepRound, Installable;
    var o := StepRound(Some(s), es[0]);
    StepGood(s, es[0]);
    StepTaken(s, es[0]);
    if o.state.phase.AwaitDownload? {
      DownloadsRise(o.state, es[1..]);
      InstallablePlan(o.state.config, o.state.env, o.state.decision.value);
    } else {
      PlannedWhenTaken(o.state, es[1..]);
    }
  }

  // ----- termination ---------------------------------------------------------------------------------------------

  /** The state after the events from k up to n of an endless stream. */
  ghost function RunStream(s: State, e: nat -> Event, k: nat, n: nat): State
    requires k <= n
    decreases n - k
  {
    if k == n then s else RunStream(Next(s, e(k)), e, k + 1, n)
  }

  /** Whatever the events, a round ends after finitely many. */
  lemma {:induction false} RoundEnds(s: State, e: nat -> Event, k: nat) returns (n: nat)
    requires Fine(s) && forall i: nat :: !e(i).what.Start?
    ensures n >= k && RunStream(s, e, k, n).phase.Done?
    decreases PhaseRank(s.phase), Outer(s), Inner(s)
  {
    hide StepRound;
    if s.phase.Done? {
      n := k;
    } else {
      StepGood(s, e(k));
      n := RoundEnds(Next(s, e(k)), e, k + 1);
    }
  }
}
