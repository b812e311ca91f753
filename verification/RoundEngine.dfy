/**
 One native cold-start round as a step protocol (cpp/update_flow_core/round_engine.cpp): the
 state, the events that come in, the commands that go out, and the step that connects them.
 State, events and commands are records where the source passes JSON objects; times are
 milliseconds as exact reals.
 */
module RoundEngine {
  import opened Decision
  import opened FlowJson
  import opened NativeRound
  import opened Wrappers
  import NativeConfig

  const DOWNLOAD_PHASE_MS := 600000.0
  const QUERY_IDLE_TIMEOUT_MS := 10000.0
  const QUERY_CALL_TIMEOUT_MS := 15000.0
  const INFO_CRASH_HOLD := "crashRescue"

  /** Each phase but the first and last is named after the event that ends it. */
  datatype Phase = NotStarted | AwaitEnv | AwaitHttp | AwaitInstalled | AwaitDownload | AwaitCommit | Done

  /** The version being installed. */
  datatype Version = Version(hash: string, attempts: seq<Attempt>, activate: bool, hashInfo: seq<Member>)

  /** The attempt and mirror in progress, and the deadlines of the two download phases (0 until opened). */
  datatype Cursor = Cursor(attempt: nat, url: nat, incremental: real, full: real)

  datatype Outcome = Outcome(status: string, reason: string, hash: Option<string>, activated: bool)

  datatype State = State(
    phase: Phase, crashHold: bool, forceActivate: bool,
    config: string, resetGeneration: real, configGeneration: real, sample: real, deadline: real,
    env: Value, body: Value, query: Option<Query>, at: real, cache: Option<Cache>,
    decision: Option<Version>, cursor: Option<Cursor>, result: Option<Outcome>)

  const BLANK := State(NotStarted, false, false, "", 0.0, 0.0, 0.0, 0.0, Undefined, Undefined, None, 0.0, None, None, None, None)

  datatype Happening =
    | Start(config: string, resetGeneration: real, configGeneration: real, sample: real, deadline: real)
    | EnvReply(env: Value)
    | HttpReply(text: Option<string>, at: real)
    | InstalledReply(installed: bool)
    | DownloadReply(ok: bool, code: string, timedOut: bool)
    | CommittedReply(committed: bool, reason: string, activated: Option<bool>, error: bool)
    | Unknown

  datatype Event = Event(now: real, crashHold: bool, forceActivate: bool, what: Happening)

  datatype Command =
    | MarkIncomplete
    | CollectEnv
    | Http(url: string, post: bool, body: Option<Value>, timeoutMs: real, callTimeoutMs: real)
    | CheckInstalled(hash: string)
    | Fetch(strategy: Strategy, url: string, hash: string, originHash: Option<Value>, deadline: real)
    | Commit(hash: string, hashInfo: Option<seq<Member>>, activate: bool, cache: Option<Cache>,
             resetGeneration: real, configGeneration: real)
    | Finish(status: string, reason: string, version: Option<string>, activated: Option<bool>)

  /** The next state and the commands of one step. */
  datatype Out = Out(state: State, commands: seq<Command>)

  // ----- budgets -----------------------------------------------------------------------------

  function Min(a: real, b: real): real {
    if b < a then b else a
  }

  /** limit, cut at the deadline of the round when there is one. */
  function Within(s: State, now: real, limit: real): real {
    if s.deadline > 0.0 then Min(limit, s.deadline - now) else limit
  }

  /** The moment span after now, or the deadline of the round when that is earlier. */
  function DeadlineIn(s: State, now: real, span: real): real {
    if s.deadline > 0.0 then Min(now + span, s.deadline) else now + span
  }

  // ----- the handlers ---------------------------------------------------------------------------

  predicate IsSafePathComponent(name: string) {
    && name != "" && name != "." && name != ".."
    && forall i :: 0 <= i < |name| ==> name[i] != '/' && name[i] != '\\' && name[i] != '\0'
  }

  function FinishWith(s: State, status: string, reason: string, hash: Option<string>, activated: Option<bool>): Out {
    Out(s.(phase := Done), [Finish(status, reason, hash, activated)])
  }

  function End(s: State, status: string, reason: string): Out {
    FinishWith(s, status, reason, None, None)
  }

  function DecisionOf(s: State): Version {
    if s.decision.Some? then s.decision.value else Version("", [], false, [])
  }

  function CursorOf(s: State): Cursor {
    if s.cursor.Some? then s.cursor.value else Cursor(0, 0, 0.0, 0.0)
  }

  function OutcomeOf(s: State): Outcome {
    if s.result.Some? then s.result.value else Outcome("", "", None, false)
  }

  function CommitWith(s: State, hash: string, hashInfo: Option<seq<Member>>, activate: bool, result: Outcome): Out {
    Out(s.(result := Some(result), phase := AwaitCommit),
        [Commit(hash, hashInfo, activate, s.cache, s.resetGeneration, s.configGeneration)])
  }

  /** A CommitWith that names no version; status and reason are reported once it landed. */
  function CommitCache(s: State, status: string, reason: string): Out {
    CommitWith(s, "", None, false, Outcome(status, reason, None, false))
  }

  /** A CommitWith for the version of the decision; the sticky flags force and mark it. */
  function CommitVersion(s: State): Out {
    var d := DecisionOf(s);
    var hashInfo := if s.crashHold then SetIn(d.hashInfo, INFO_CRASH_HOLD, Bool(true)) else d.hashInfo;
    var activate := d.activate || s.crashHold || s.forceActivate;
    CommitWith(s, d.hash, Some(hashInfo), activate, Outcome("downloaded", "", Some(d.hash), activate))
  }

  function OnStart(s: State, e: Happening): Out
    requires e.Start?
  {
    var t := s.(config := e.config, resetGeneration := e.resetGeneration, configGeneration := e.configGeneration,
                sample := e.sample, deadline := e.deadline);
    match NativeConfig.ParseRunnableConfig(e.config)
    case Rejected(status, reason) => End(t, status, reason)
    case Runnable(_, _) => Out(t.(phase := AwaitEnv), [MarkIncomplete, CollectEnv])
  }

  function Respond(s: State, text: string): Out {
    var t := s.(at := 0.0);
    match HandleRoundResponse(text, s.config, s.env, s.body, s.at)
    case None => End(t, "failed", "invalid_response")
    case Some(NoDownload(reason, cache)) => CommitCache(t.(cache := Some(cache)), STATUS_NONE, reason)
    case Some(Install(hash, attempts, activate, hashInfo, cache)) =>
      if !hash.String? || !IsSafePathComponent(hash.s) then End(t.(cache := Some(cache)), "failed", "invalid_response")
      else
        Out(t.(cache := Some(cache), decision := Some(Version(hash.s, attempts, activate, hashInfo)), phase := AwaitInstalled),
            [CheckInstalled(hash.s)])
  }

  function TextOf(text: Option<string>): string {
    if text.Some? then text.value else ""
  }

  /** One query step and what follows from it: an Http command, Respond, or the end. */
  function Ask(s: State, text: Option<string>, now: real): Out {
    if s.query.None? then End(s, "failed", "check_failed")
    else
      var q := NextQueryStep(s.query.value, text);
      var timeout := Within(s, now, QUERY_IDLE_TIMEOUT_MS);
      if q.found then Respond(s.(query := None), TextOf(text))
      else if q.pending.None? || timeout <= 0.0 then End(s, "failed", "check_failed")
      else
        var r := q.pending.value;
        Out(s.(query := Some(q), phase := AwaitHttp),
            [Http(r.url, r.post, if r.post then Some(s.body) else None, timeout, Within(s, now, QUERY_CALL_TIMEOUT_MS))])
  }

  function OnEnv(s: State, env: Value, now: real): Out {
    match PrepareRound(s.config, env, s.sample)
    case None => End(s, "failed", "invalid_request")
    case Some(Round(body, query)) => Ask(s.(env := env, body := body, query := Some(query)), None, now)
  }

  function OnHttp(s: State, text: Option<string>, at: real, now: real): Out {
    Ask(s.(at := at.Floor as real), text, now)
  }

  /** The next attempt to start, from a position on, with the cursor it leaves; None when none is left. */
  function Seek(s: State, now: real, c: Cursor, attempt: nat, url: nat): (r: Option<Cursor>)
    ensures r.Some? ==> r.value.attempt < |DecisionOf(s).attempts| &&
                        r.value.url < |DecisionOf(s).attempts[r.value.attempt].urls|
    decreases |DecisionOf(s).attempts| - attempt
  {
    var attempts := DecisionOf(s).attempts;
    if attempt >= |attempts| then None
    else
      var planned := attempts[attempt];
      var full := planned.strategy.Full?;
      var c1 := if full && c.full == 0.0 then c.(full := DeadlineIn(s, now, DOWNLOAD_PHASE_MS)) else c;
      if url >= |planned.urls| then Seek(s, now, c1, attempt + 1, 0)
      else if PhaseDeadline(c1, planned.strategy) - now <= 0.0 then (if full then None else Seek(s, now, c1, attempt + 1, 0))
      else Some(c1.(attempt := attempt, url := url))
  }

  function PhaseDeadline(c: Cursor, strategy: Strategy): real {
    if strategy.Full? then c.full else c.incremental
  }

  /** The download at the cursor. */
  function FetchAt(s: State, c: Cursor): Command
    requires c.attempt < |DecisionOf(s).attempts| && c.url < |DecisionOf(s).attempts[c.attempt].urls|
  {
    var a := DecisionOf(s).attempts[c.attempt];
    Fetch(a.strategy, a.urls[c.url], DecisionOf(s).hash,
          if a.strategy.Diff? then Some(Get(s.env, "currentVersion")) else None, PhaseDeadline(c, a.strategy))
  }

  function NextAttempt(s: State, now: real): Out {
    var c := CursorOf(s);
    match Seek(s, now, c, c.attempt, c.url)
    case Some(next) => Out(s.(cursor := Some(next), phase := AwaitDownload), [FetchAt(s, next)])
    case None => CommitCache(s.(cursor := None), "failed", "download_failed")
  }

  function OnInstalled(s: State, installed: bool, now: real): Out {
    if installed then CommitVersion(s)
    else NextAttempt(s.(cursor := Some(Cursor(0, 0, DeadlineIn(s, now, DOWNLOAD_PHASE_MS), 0.0))), now)
  }

  /** Where a failed download moves the cursor. */
  function MovedOn(s: State, code: string, timedOut: bool): Cursor {
    var c, attempts := CursorOf(s), DecisionOf(s).attempts;
    var incremental := c.attempt < |attempts| && !attempts[c.attempt].strategy.Full?;
    if timedOut && !incremental then c.(attempt := |attempts|)
    else if timedOut || !IsMirrorRetryableCode(code) then c.(attempt := c.attempt + 1, url := 0)
    else c.(url := c.url + 1)
  }

  function OnDownload(s: State, ok: bool, code: string, timedOut: bool, now: real): Out {
    if ok then CommitVersion(s.(cursor := None))
    else NextAttempt(s.(cursor := Some(MovedOn(s, code, timedOut))), now)
  }

  function OnCommitted(s: State, committed: bool, reason: string, activated: Option<bool>, error: bool): Out {
    var result := OutcomeOf(s);
    if error then End(s, "failed", "commit_failed")
    else if !committed then End(s, "cancelled", if reason == "config_changed" then "config_changed" else "reset")
    else if result.hash.Some? then
      FinishWith(s, result.status, result.reason, result.hash,
                 if activated.Some? then activated else Some(result.activated))
    else End(s, result.status, result.reason)
  }

  // ----- the step ----------------------------------------------------------------------------------

  /** Both flags are disjunctions over the events so far. */
  function Stick(s: State, e: Event): State {
    s.(crashHold := s.crashHold || e.crashHold, forceActivate := s.forceActivate || e.forceActivate)
  }

  predicate Expects(phase: Phase, e: Happening) {
    match e
    case Start(_, _, _, _, _) => false
    case EnvReply(_) => phase.AwaitEnv?
    case HttpReply(_, _) => phase.AwaitHttp?
    case InstalledReply(_) => phase.AwaitInstalled?
    case DownloadReply(_, _, _) => phase.AwaitDownload?
    case CommittedReply(_, _, _, _) => phase.AwaitCommit?
    case Unknown => false
  }

  function Handle(s: State, now: real, e: Happening): Out
    requires Expects(s.phase, e)
  {
    match e
    case EnvReply(env) => OnEnv(s, env, now)
    case HttpReply(text, at) => OnHttp(s, text, at, now)
    case InstalledReply(installed) => OnInstalled(s, installed, now)
    case DownloadReply(ok, code, timedOut) => OnDownload(s, ok, code, timedOut, now)
    case CommittedReply(committed, reason, activated, error) => OnCommitted(s, committed, reason, activated, error)
  }

  function StepRound(previous: Option<State>, e: Event): Out {
    var s := Stick(if e.what.Start? || previous.None? then BLANK else previous.value, e);
    if e.what.Start? then OnStart(s, e.what)
    else if s.phase.Done? then Out(s, [])
    else if !Expects(s.phase, e.what) then End(s, "failed", "internal_error")
    else Handle(s, e.now, e.what)
  }
}
