/**
 What the commands of a round say (cpp/update_flow_core/round_engine.h:44-71): what may be
 fetched and committed, what is activated, and what a reported download rests on.
 */
module RoundResults {
  import opened Decision
  import opened FlowJson
  import opened NativeRound
  import opened RoundEngine
  import opened RoundRuns
  import opened Wrappers
  import NativeConfig
  import RoundSafety
  import Urls

  // ----- safe commands --------------------------------------------------------------------------

  predicate Safe(config: seq<Member>, env: Value, c: Command) {
    match c
    case Fetch(strategy, url, hash, originHash, _) =>
      && IsSafePathComponent(hash) && Acceptable(String(hash), IdentityOf(config, env))
      && (originHash.Some? <==> strategy.Diff?)
      && (originHash.Some? ==> originHash.value == Get(env, "currentVersion") && Truthy(originHash.value))
      && url != "" && (IsHttpsOnly(GetIn(config, "endpoints")) ==> !Urls.IsCleartextUrl(url))
    case Commit(hash, hashInfo, activate, _, _, _) =>
      if hashInfo.None? then hash == "" && !activate
      else IsSafePathComponent(hash) && Acceptable(String(hash), IdentityOf(config, env))
    case CheckInstalled(hash) => IsSafePathComponent(hash) && Acceptable(String(hash), IdentityOf(config, env))
    case Http(_, _, _, timeoutMs, callTimeoutMs) =>
      0.0 < timeoutMs <= QUERY_IDLE_TIMEOUT_MS && 0.0 < callTimeoutMs <= QUERY_CALL_TIMEOUT_MS
    case _ => true
  }

  /** The configuration the round runs with. */
  function ConfigOf(s: State): seq<Member> {
    var c := NativeConfig.ParseObject(s.config);
    if c.Some? then c.value else []
  }

  predicate AllSafe(s: State, cs: seq<Command>) {
    forall i :: 0 <= i < |cs| ==> Safe(ConfigOf(s), s.env, cs[i])
  }

  lemma CommitVersionSafe(s: State)
    requires Ready(s)
    ensures AllSafe(s, CommitVersion(s).commands)
  {
    hide IdentityOf, Acceptable, Suits, IsHttpsOnly, IsSafePathComponent, WellPlanned, NativeConfig.ParseObject, SetIn;
  }

  lemma RespondSafe(s: State, text: string)
    ensures AllSafe(s, Respond(s, text).commands)
  {
    hide HandleRoundResponse, IdentityOf, Acceptable, Suits, IsHttpsOnly, IsSafePathComponent, WellPlanned, NativeConfig.ParseObject;
    RoundDecisionLaws(text, s.config, s.env, s.body, s.at);
  }

  lemma NextAttemptSafe(s: State, now: real)
    requires Ready(s)
    ensures AllSafe(s, NextAttempt(s, now).commands)
  {
    hide Seek, IdentityOf, Acceptable, IsHttpsOnly, IsSafePathComponent, WellPlanned, NativeConfig.ParseObject, Urls.HasPrefixIgnoringCase;
    var c := CursorOf(s);
    var r := Seek(s, now, c, c.attempt, c.url);
    if r.Some? {
      var a := s.decision.value.attempts[r.value.attempt];
      assert a in s.decision.value.attempts;
      assert a.urls[r.value.url] in a.urls;
    }
  }

  lemma AskSafe(s: State, text: Option<string>, now: real)
    requires s.query.Some? && Inv(s.query.value)
    ensures AllSafe(s, Ask(s, text, now).commands)
  {
    hide NextQueryStep, Inv, Respond, IdentityOf, Acceptable, IsSafePathComponent, NativeConfig.ParseObject;
    RespondSafe(s.(query := None), TextOf(text));
  }

  lemma OnEnvSafe(s: State, env: Value, now: real)
    ensures AllSafe(OnEnv(s, env, now).state, OnEnv(s, env, now).commands)
  {
    hide Ask, PrepareRound, Inv, Safe, NativeConfig.ParseObject;
    PreparedIsFine(s.config, env, s.sample);
    var r := PrepareRound(s.config, env, s.sample);
    if r.Some? {
      var t := s.(env := env, body := r.value.body, query := Some(r.value.query));
      AskSafe(t, None, now);
      AskGood(t, None, now);
    } else {
      FinishSafe(s, "failed", "invalid_request");
    }
  }

  lemma FinishSafe(s: State, status: string, reason: string)
    ensures AllSafe(s, End(s, status, reason).commands)
  {
    hide NativeConfig.ParseObject;
  }

  lemma OnCommittedSafe(s: State, committed: bool, reason: string, activated: Option<bool>, error: bool)
    ensures AllSafe(s, OnCommitted(s, committed, reason, activated, error).commands)
  {
    hide NativeConfig.ParseObject;
  }

  /** Every command of every step is safe for the configuration and launch of the round. */
  lemma StepSafe(s: State, e: Event)
    requires Fine(s) && !e.what.Start?
    ensures AllSafe(Next(s, e), StepRound(Some(s), e).commands)
  {
    hide OnEnv, Ask, NextAttempt, CommitVersion, OnCommitted, Installable, Inv, Safe, NativeConfig.ParseObject;
    StickFine(s, e);
    StepGood(s, e);
    var u := Stick(s, e);
    if Expects(u.phase, e.what) {
      match e.what
      case EnvReply(env) => OnEnvSafe(u, env, e.now);
      case HttpReply(text, at) => AskSafe(u.(at := at.Floor as real), text, e.now);
      case InstalledReply(installed) =>
        if installed {
          CommitVersionSafe(u);
        } else {
          NextAttemptSafe(u.(cursor := Some(Cursor(0, 0, DeadlineIn(u, e.now, DOWNLOAD_PHASE_MS), 0.0))), e.now);
        }
      case DownloadReply(ok, code, timedOut) =>
        if ok {
          CommitVersionSafe(u.(cursor := None));
        } else {
          NextAttemptSafe(u.(cursor := Some(MovedOn(u, code, timedOut))), e.now);
        }
      case CommittedReply(committed, reason, activated, error) => OnCommittedSafe(u, committed, reason, activated, error);
    } else {
      FinishSafe(u, "failed", "internal_error");
    }
  }

  /**
   Over a whole round, whatever the server and the network answer: no version is checked,
   fetched or committed that the device runs or rolled back from or whose hash could leave
   its directory; a diff always has the running version as its origin; nothing is fetched in
   clear under an https-only configuration.
   */
  lemma {:induction false} RunSafe(s: State, es: seq<Event>)
    requires Fine(s) && NoStart(es)
    ensures AllSafe(Run(s, es), Emitted(s, es))
    decreases |es|
  {
    hide StepRound, Fine, Safe, NativeConfig.ParseObject;
    if es != [] {
      var t := Next(s, es[0]);
      StepGood(s, es[0]);
      StepSafe(s, es[0]);
      RunSafe(t, es[1..]);
      RoundSafety.RunFine(t, es[1..]);
      EnvKept(t, es[1..]);
    }
  }

  lemma {:induction false} EnvKept(s: State, es: seq<Event>)
    requires Fine(s) && NoStart(es) && PhaseRank(s.phase) <= 4
    ensures Run(s, es).env == s.env
    decreases |es|
  {
    hide StepRound, Fine;
    if es != [] {
      StepGood(s, es[0]);
      EnvKept(Next(s, es[0]), es[1..]);
    }
  }

  // ----- activation ----------------------------------------------------------------------------------

  /** What a commit of a version carries, given the flags of the state that emitted it. */
  predicate Committing(s: State, c: Command) {
    c.Commit? ==>
      && c.resetGeneration == s.resetGeneration && c.configGeneration == s.configGeneration
      && (c.hashInfo.Some? ==>
            && (s.crashHold ==> c.activate && GetIn(c.hashInfo.value, INFO_CRASH_HOLD) == Bool(true))
            && (s.forceActivate ==> c.activate))
  }

  /** One command, which carries the flags, and flags no handler touches. */
  predicate Flagged(s: State, o: Out) {
    && |o.commands| == 1 && Committing(o.state, o.commands[0])
    && o.state.crashHold == s.crashHold && o.state.forceActivate == s.forceActivate
  }

  /** The pending outcome is the one of the commit just emitted. */
  predicate Outstanding(s: State, last: Command) {
    s.phase.AwaitCommit? ==>
      && s.result.Some? && last.Commit?
      && if s.result.value.hash.None? then last.hashInfo.None? && s.result.value.status != "downloaded"
         else last.hashInfo.Some? && last.hash == s.result.value.hash.value && last.activate == s.result.value.activated
  }

  /**
   A handler emits one command: the commit of the outcome it leaves pending, carrying the
   flags, or a failure at most; and it touches no flag.
   */
  predicate Shaped(s: State, o: Out) {
    && Flagged(s, o) && Outstanding(o.state, o.commands[0])
    && (o.commands[0].Finish? ==> o.commands[0].status == "failed")
  }

  lemma CommitVersionShaped(s: State)
    ensures Shaped(s, CommitVersion(s))
  {
    hide GetIn, SetIn;
    SetGet(DecisionOf(s).hashInfo, INFO_CRASH_HOLD, Bool(true), INFO_CRASH_HOLD);
  }

  lemma RespondShaped(s: State, text: string)
    ensures Shaped(s, Respond(s, text))
  {
    hide HandleRoundResponse, IsSafePathComponent;
  }

  lemma NextAttemptShaped(s: State, now: real)
    ensures Shaped(s, NextAttempt(s, now))
  {
    hide Seek;
  }

  lemma AskShaped(s: State, text: Option<string>, now: real)
    ensures Shaped(s, Ask(s, text, now))
  {
    hide NextQueryStep, Respond;
    RespondShaped(s.(query := None), TextOf(text));
  }

  lemma EndShaped(s: State, reason: string)
    ensures Shaped(s, End(s, "failed", reason))
  {
  }

  lemma HandleShaped(s: State, now: real, e: Happening)
    requires Expects(s.phase, e) && !e.CommittedReply?
    ensures Shaped(s, Handle(s, now, e))
  {
    hide Ask, NextAttempt, CommitVersion, PrepareRound, Outstanding, Committing;
    match e
    case EnvReply(env) =>
      EndShaped(s, "invalid_request");
      var r := PrepareRound(s.config, env, s.sample);
      if r.Some? {
        AskShaped(s.(env := env, body := r.value.body, query := Some(r.value.query)), None, now);
      }
    case HttpReply(text, at) => AskShaped(s.(at := at.Floor as real), text, now);
    case InstalledReply(installed) =>
      CommitVersionShaped(s);
      NextAttemptShaped(s.(cursor := Some(Cursor(0, 0, DeadlineIn(s, now, DOWNLOAD_PHASE_MS), 0.0))), now);
    case DownloadReply(ok, code, timedOut) =>
      CommitVersionShaped(s.(cursor := None));
      NextAttemptShaped(s.(cursor := Some(MovedOn(s, code, timedOut))), now);
  }

  lemma StepFlags(s: State, e: Event)
    requires !e.what.Start?
    ensures var o := StepRound(Some(s), e);
            && o.state.crashHold == (s.crashHold || e.crashHold) && o.state.forceActivate == (s.forceActivate || e.forceActivate)
            && forall i :: 0 <= i < |o.commands| ==> Committing(o.state, o.commands[i])
  {
    hide Handle, Outstanding;
    var u := Stick(s, e);
    if Expects(u.phase, e.what) {
      if e.what.CommittedReply? {
        CommittedFlags(u, e.now, e.what);
      } else {
        HandleShaped(u, e.now, e.what);
      }
    }
  }

  lemma CommittedFlags(s: State, now: real, e: Happening)
    requires Expects(s.phase, e) && e.CommittedReply?
    ensures Flagged(s, Handle(s, now, e))
  {
  }

  /** The flags of some event among the first n. */
  predicate Held(es: seq<Event>, n: nat) {
    exists i :: 0 <= i < n && i < |es| && es[i].crashHold
  }

  predicate Forced(es: seq<Event>, n: nat) {
    exists i :: 0 <= i < n && i < |es| && es[i].forceActivate
  }

  /**
   Once an event said that a crash is held or that the launch waits, every version committed
   from then on is activated, and under a crash hold marked as its rescue; every commit names
   the generations sampled at the start.
   */
  lemma {:induction false} FlagsStick(s: State, es: seq<Event>)
    requires Fine(s) && NoStart(es)
    ensures forall i :: 0 <= i < |Emitted(s, es)| && Emitted(s, es)[i].Commit? ==>
              var c := Emitted(s, es)[i];
              && c.resetGeneration == s.resetGeneration && c.configGeneration == s.configGeneration
              && (c.hashInfo.Some? && s.crashHold ==> c.activate && GetIn(c.hashInfo.value, INFO_CRASH_HOLD) == Bool(true))
              && (c.hashInfo.Some? && s.forceActivate ==> c.activate)
    decreases |es|
  {
    hide StepRound, Fine, GetIn;
    if es != [] {
      StepGood(s, es[0]);
      StepFlags(s, es[0]);
      FlagsStick(Next(s, es[0]), es[1..]);
    }
  }

  /** The flags of a run are those of its events, so the law above applies from each of them on. */
  lemma {:induction false} FlagsGathered(s: State, es: seq<Event>)
    requires Fine(s) && NoStart(es)
    ensures Run(s, es).crashHold <==> s.crashHold || Held(es, |es|)
    ensures Run(s, es).forceActivate <==> s.forceActivate || Forced(es, |es|)
    decreases |es|
  {
    hide StepRound, Fine;
    if es != [] {
      StepGood(s, es[0]);
      StepFlags(s, es[0]);
      FlagsGathered(Next(s, es[0]), es[1..]);
      if Held(es[1..], |es| - 1) {
        var i :| 0 <= i < |es| - 1 && es[1..][i].crashHold;
        assert es[i + 1].crashHold;
      }
      if Forced(es[1..], |es| - 1) {
        var i :| 0 <= i < |es| - 1 && es[1..][i].forceActivate;
        assert es[i + 1].forceActivate;
      }
      if Held(es, |es|) && !es[0].crashHold {
        var i :| 0 <= i < |es| && es[i].crashHold;
        assert es[1..][i - 1].crashHold;
      }
      if Forced(es, |es|) && !es[0].forceActivate {
        var i :| 0 <= i < |es| && es[i].forceActivate;
        assert es[1..][i - 1].forceActivate;
      }
    }
  }

  // ----- what a reported download rests on ---------------------------------------------------------------

  /** A step reports a download only when the commit it waited for landed. */
  predicate Reports(s: State, e: Event, last: Command, c: Command) {
    c.Finish? && c.status == "downloaded" ==>
      && s.phase.AwaitCommit? && e.what.CommittedReply? && e.what.committed && !e.what.error
      && last.Commit? && last.hashInfo.Some? && c.version == Some(last.hash)
      && c.activated == if e.what.activated.Some? then e.what.activated else Some(last.activate)
  }

  lemma StepOutstanding(s: State, last: Command, e: Event)
    requires Fine(s) && Outstanding(s, last) && !e.what.Start?
    ensures var o := StepRound(Some(s), e);
            forall i :: 0 <= i < |o.commands| ==> Outstanding(o.state, o.commands[i]) && Reports(s, e, last, o.commands[i])
  {
    hide Handle, Fine;
    var u := Stick(s, e);
    EndShaped(u, "internal_error");
    if Expects(u.phase, e.what) {
      if e.what.CommittedReply? {
        CommittedReports(s, last, e);
      } else {
        HandleShaped(u, e.now, e.what);
      }
    }
  }

  lemma CommittedReports(s: State, last: Command, e: Event)
    requires s.phase.AwaitCommit? && e.what.CommittedReply? && Outstanding(s, last)
    ensures var o := Handle(Stick(s, e), e.now, e.what);
            |o.commands| == 1 && Outstanding(o.state, o.commands[0]) && Reports(s, e, last, o.commands[0])
  {
  }

  /** The command before the i-th. */
  function Previous(last: Command, cs: seq<Command>, i: nat): Command
    requires i <= |cs|
  {
    if i == 0 then last else cs[i - 1]
  }

  /**
   A round reports a version as downloaded only straight after a commit of that very
   version, which the adapter said had landed.
   */
  lemma {:induction false} DownloadedIsCommitted(s: State, last: Command, es: seq<Event>)
    requires Fine(s) && NoStart(es) && Outstanding(s, last)
    ensures forall i :: 0 <= i < |Emitted(s, es)| ==>
              var c, p := Emitted(s, es)[i], Previous(last, Emitted(s, es), i);
              c.Finish? && c.status == "downloaded" ==> p.Commit? && p.hashInfo.Some? && c.version == Some(p.hash)
    decreases |es|
  {
    hide StepRound, Fine;
    if es != [] {
      var o := StepRound(Some(s), es[0]);
      StepGood(s, es[0]);
      StepOutstanding(s, last, es[0]);
      if s.phase.Done? {
        assert o.commands + Emitted(o.state, es[1..]) == Emitted(o.state, es[1..]);
        DoneStays(o.state, es[1..]);
      } else {
        var c := o.commands[0];
        DownloadedIsCommitted(o.state, c, es[1..]);
        var rest := Emitted(o.state, es[1..]);
        assert Emitted(s, es) == [c] + rest;
        forall i | 0 <= i < |Emitted(s, es)|
          ensures Previous(last, Emitted(s, es), i) == if i == 0 then last else Previous(c, rest, i - 1)
        {
        }
      }
    }
  }

  lemma DoneStays(s: State, es: seq<Event>)
    requires Fine(s) && NoStart(es) && s.phase.Done?
    ensures Emitted(s, es) == []
  {
    RoundSafety.FinishesOnce(s, es);
  }
}
