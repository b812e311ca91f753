/**
 The class that carries a step of the round (cpp/update_flow_core/round_engine.cpp:58-427):
 handlers that update the state and the commands in place, each proved to do what the step
 function says.
 */
module RoundStep {
  import opened Decision
  import opened FlowJson
  import opened NativeRound
  import opened RoundEngine
  import opened Wrappers
  import NativeConfig

  // ----- the step in progress -------------------------------------------------------------------------

  /** The fields of one call (round_engine.cpp:58-389); Did says how a handler changes them. */
  class Step {
    var state: State
    var commands: seq<Command>
    const event: Event

    constructor (previous: Option<State>, e: Event)
      ensures event == e && commands == []
      ensures state == Stick(if e.what.Start? || previous.None? then BLANK else previous.value, e)
    {
      var s := if e.what.Start? || previous.None? then BLANK else previous.value;
      if e.crashHold {
        s := s.(crashHold := true);
      }
      if e.forceActivate {
        s := s.(forceActivate := true);
      }
      state, commands, event := s, [], e;
    }

    /** What a handler adds to a step. */
    twostate predicate Did(out: Out)
      reads this
    {
      state == out.state && commands == old(commands) + out.commands
    }

    method Run()
      modifies this
      ensures event.what.Start? ==> Did(OnStart(old(state), event.what))
      ensures !event.what.Start? && old(state).phase.Done? ==> Did(Out(old(state), []))
      ensures !event.what.Start? && !old(state).phase.Done? && !Expects(old(state).phase, event.what) ==>
                Did(RoundEngine.End(old(state), "failed", "internal_error"))
      ensures Expects(old(state).phase, event.what) ==> Did(RoundEngine.Handle(old(state), event.now, event.what))
    {
      if event.what.Start? {
        Begin(event.what);
      } else if state.phase.Done? {
        return;
      } else if !Expects(state.phase, event.what) {
        Finish("failed", "internal_error", None, None);
      } else {
        match event.what {
          case EnvReply(env) => OnEnv(env);
          case HttpReply(text, at) => OnHttp(text, at);
          case InstalledReply(installed) => OnInstalled(installed);
          case DownloadReply(ok, code, timedOut) => OnDownload(ok, code, timedOut);
          case CommittedReply(committed, reason, activated, error) => OnCommitted(committed, reason, activated, error);
        }
      }
    }

    method Emit(command: Command)
      modifies this`commands
      ensures commands == old(commands) + [command]
    {
      commands := commands + [command];
    }

    method Await(phase: Phase)
      modifies this`state
      ensures state == old(state).(phase := phase)
    {
      state := state.(phase := phase);
    }

    method Finish(status: string, reason: string, hash: Option<string>, activated: Option<bool>)
      modifies this
      ensures Did(FinishWith(old(state), status, reason, hash, activated))
    {
      Emit(Command.Finish(status, reason, hash, activated));
      Await(Done);
    }

    method Begin(start: Happening)
      requires start.Start?
      modifies this
      ensures Did(OnStart(old(state), start))
    {
      state := state.(config := start.config);
      state := state.(resetGeneration := start.resetGeneration, configGeneration := start.configGeneration,
      sample := start.sample, deadline := start.deadline);
      var gate := NativeConfig.ParseRunnableConfig(state.config);
      if gate.Rejected? {
        Finish(gate.status, gate.reason, None, None);
        return;
      }
      Emit(MarkIncomplete);
      Emit(CollectEnv);
      Await(AwaitEnv);
    }

    method OnEnv(env: Value)
      modifies this
      ensures Did(RoundEngine.OnEnv(old(state), env, event.now))
    {
      var round := PrepareRound(state.config, env, state.sample);
      if round.None? {
        Finish("failed", "invalid_request", None, None);
        return;
      }
      state := state.(env := env);
      state := state.(body := round.value.body);
      state := state.(query := Some(round.value.query));
      Query(None);
    }

    method Query(text: Option<string>)
      modifies this
      ensures Did(Ask(old(state), text, event.now))
    {
      hide NextQueryStep, HandleRoundResponse, RoundEngine.Respond;
      if state.query.None? {
        Finish("failed", "check_failed", None, None);
        return;
      }
      var query := QueryStep(state.query.value, text);
      if query.found {
        state := state.(query := None);
        Respond(TextOf(text));
        return;
      }
      var timeout := Within(state, event.now, QUERY_IDLE_TIMEOUT_MS);
      if query.pending.None? || timeout <= 0.0 {
        Finish("failed", "check_failed", None, None);
        return;
      }
      var r := query.pending.value;
      Emit(Http(r.url, r.post, if r.post then Some(state.body) else None, timeout,
        Within(state, event.now, QUERY_CALL_TIMEOUT_MS)));
      state := state.(query := Some(query));
      Await(AwaitHttp);
    }

    method OnHttp(text: Option<string>, at: real)
      modifies this
      ensures Did(RoundEngine.OnHttp(old(state), text, at, event.now))
    {
      state := state.(at := at.Floor as real);
      Query(text);
    }

    method Respond(text: string)
      modifies this
      ensures Did(RoundEngine.Respond(old(state), text))
    {
      var decision := HandleRoundResponse(text, state.config, state.env, state.body, state.at);
      state := state.(at := 0.0);
      if decision.None? {
        Finish("failed", "invalid_response", None, None);
        return;
      }
      state := state.(cache := Some(decision.value.cache));
      if decision.value.NoDownload? {
        CommitCache(STATUS_NONE, decision.value.reason);
        return;
      }
      var d := decision.value;
      if !d.hash.String? || !IsSafePathComponent(d.hash.s) {
        Finish("failed", "invalid_response", None, None);
        return;
      }
      state := state.(decision := Some(Version(d.hash.s, d.attempts, d.activate, d.hashInfo)));
      Emit(CheckInstalled(d.hash.s));
      Await(AwaitInstalled);
    }

    method OnInstalled(installed: bool)
      modifies this
      ensures Did(RoundEngine.OnInstalled(old(state), installed, event.now))
    {
      if installed {
        CommitVersion();
        return;
      }
      state := state.(cursor := Some(Cursor(0, 0, DeadlineIn(state, event.now, DOWNLOAD_PHASE_MS), 0.0)));
      NextAttempt();
    }

    /** Two nested loops over a cursor, proved to stop where Seek does. */
    method NextAttempt()
      modifies this
      ensures Did(RoundEngine.NextAttempt(old(state), event.now))
    {
      var cursor := CursorOf(state);
      var attempts := DecisionOf(state).attempts;
      var attempt: nat, url: nat := cursor.attempt, cursor.url;
      while attempt < |attempts|
        invariant state == old(state) && commands == old(commands)
        invariant Seek(state, event.now, cursor, attempt, url) ==
                  Seek(state, event.now, CursorOf(state), CursorOf(state).attempt, CursorOf(state).url)
        decreases |attempts| - attempt
      {
        var planned := attempts[attempt];
        var full := planned.strategy.Full?;
        if full && cursor.full == 0.0 {
          cursor := cursor.(full := DeadlineIn(state, event.now, DOWNLOAD_PHASE_MS));
        }
        var deadline := if full then cursor.full else cursor.incremental;
        if url >= |planned.urls| {
          attempt, url := attempt + 1, 0;
          continue;
        }
        if deadline - event.now <= 0.0 {
          if full {
            break;
          }
          attempt, url := attempt + 1, 0;
          continue;
        }
        Emit(Fetch(planned.strategy, planned.urls[url], DecisionOf(state).hash,
          if planned.strategy.Diff? then Some(Get(state.env, "currentVersion")) else None, deadline));
        cursor := cursor.(attempt := attempt);
        cursor := cursor.(url := url);
        state := state.(cursor := Some(cursor));
        Await(AwaitDownload);
        return;
      }
      state := state.(cursor := None);
      CommitCache("failed", "download_failed");
    }

    method OnDownload(ok: bool, code: string, timedOut: bool)
      modifies this
      ensures Did(RoundEngine.OnDownload(old(state), ok, code, timedOut, event.now))
    {
      if ok {
        state := state.(cursor := None);
        CommitVersion();
        return;
      }
      var cursor := CursorOf(state);
      var attempts := DecisionOf(state).attempts;
      var incremental := cursor.attempt < |attempts| && !attempts[cursor.attempt].strategy.Full?;
      var nextStrategy := timedOut || !IsMirrorRetryableCode(code);
      if timedOut && !incremental {
        cursor := cursor.(attempt := |attempts|);
      } else if nextStrategy {
        cursor := cursor.(attempt := cursor.attempt + 1);
        cursor := cursor.(url := 0);
      } else {
        cursor := cursor.(url := cursor.url + 1);
      }
      state := state.(cursor := Some(cursor));
      NextAttempt();
    }

    method CommitCache(status: string, reason: string)
      modifies this
      ensures Did(RoundEngine.CommitCache(old(state), status, reason))
    {
      Commit("", None, false, Outcome(status, reason, None, false));
    }

    method CommitVersion()
      modifies this
      ensures Did(RoundEngine.CommitVersion(old(state)))
    {
      var decision := DecisionOf(state);
      var hashInfo := decision.hashInfo;
      if state.crashHold {
        hashInfo := SetIn(hashInfo, INFO_CRASH_HOLD, Bool(true));
      }
      var activate := decision.activate || state.crashHold || state.forceActivate;
      Commit(decision.hash, Some(hashInfo), activate, Outcome("downloaded", "", Some(decision.hash), activate));
    }

    method Commit(hash: string, hashInfo: Option<seq<Member>>, activate: bool, result: Outcome)
      modifies this
      ensures Did(CommitWith(old(state), hash, hashInfo, activate, result))
    {
      Emit(Command.Commit(hash, hashInfo, activate, state.cache, state.resetGeneration, state.configGeneration));
      state := state.(result := Some(result));
      Await(AwaitCommit);
    }

    method OnCommitted(committed: bool, reason: string, activated: Option<bool>, error: bool)
      modifies this
      ensures Did(RoundEngine.OnCommitted(old(state), committed, reason, activated, error))
    {
      var result := OutcomeOf(state);
      if error {
        Finish("failed", "commit_failed", None, None);
      } else if !committed {
        Finish("cancelled", if reason == "config_changed" then "config_changed" else "reset", None, None);
      } else if result.hash.Some? {
        Finish(result.status, result.reason, result.hash,
               if activated.Some? then activated else Some(result.activated));
      } else {
        Finish(result.status, result.reason, None, None);
      }
    }
  }

  /** One step, run. */
  method RunStep(previous: Option<State>, e: Event) returns (out: Out)
    ensures out == StepRound(previous, e)
  {
    var step := new Step(previous, e);
    step.Run();
    out := Out(step.state, step.commands);
  }
}
