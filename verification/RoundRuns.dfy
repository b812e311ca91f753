/**
 What every run of a round keeps (cpp/update_flow_core/round_engine.h:39-77): one start,
 then any sequence of other events, expected or not.
 */
module RoundRuns {
  import opened Decision
  import opened FlowJson
  import opened NativeRound
  import opened RoundEngine
  import opened Wrappers
  import NativeConfig

  // ----- runs ---------------------------------------------------------------------------------

  predicate NoStart(es: seq<Event>) {
    forall i :: 0 <= i < |es| ==> !es[i].what.Start?
  }

  function Next(s: State, e: Event): State {
    StepRound(Some(s), e).state
  }

  /** The state after the events. */
  function Run(s: State, es: seq<Event>): State
    decreases |es|
  {
    if es == [] then s else Run(Next(s, es[0]), es[1..])
  }

  /** The commands the events cause, in order. */
  function Emitted(s: State, es: seq<Event>): seq<Command>
    decreases |es|
  {
    if es == [] then [] else StepRound(Some(s), es[0]).commands + Emitted(Next(s, es[0]), es[1..])
  }

  // ----- what every state of a round keeps ---------------------------------------------------------

  /** The version about to be installed: neither running nor rolled back from, planned for this device. */
  predicate Installable(config: string, env: Value, d: Version) {
    && NativeConfig.ParseObject(config).Some?
    && IsSafePathComponent(d.hash) && WellPlanned(d.attempts)
    && Acceptable(String(d.hash), IdentityOf(NativeConfig.ParseObject(config).value, env))
    && forall a :: a in d.attempts ==>
         Suits(a, Truthy(Get(env, "currentVersion")), IsHttpsOnly(GetIn(NativeConfig.ParseObject(config).value, "endpoints")))
  }

  predicate Ready(s: State) {
    s.decision.Some? && s.cache.Some? && Installable(s.config, s.env, s.decision.value)
  }

  predicate Asking(s: State) {
    s.query.Some? && Inv(s.query.value) && s.query.value.pending.Some? && s.query.value.spent >= 1
  }

  predicate Fits(attempts: seq<Attempt>, c: Cursor) {
    && c.attempt < |attempts| && c.url < |attempts[c.attempt].urls|
    && (!attempts[c.attempt].strategy.Full? ==> c.full == 0.0)
  }

  predicate Fetching(s: State) {
    Ready(s) && s.cursor.Some? && Fits(s.decision.value.attempts, s.cursor.value)
  }

  predicate Fine(s: State) {
    match s.phase
    case AwaitHttp => Asking(s)
    case AwaitInstalled => Ready(s)
    case AwaitDownload => Fetching(s)
    case AwaitCommit => s.result.Some?
    case _ => true
  }

  /** The one command a step emits is the one its phase waits on. */
  predicate Matches(phase: Phase, c: Command) {
    match phase
    case AwaitHttp => c.Http?
    case AwaitInstalled => c.CheckInstalled?
    case AwaitDownload => c.Fetch?
    case AwaitCommit => c.Commit?
    case Done => c.Finish?
    case _ => false
  }

  // ----- progress ----------------------------------------------------------------------------------------

  function PhaseRank(p: Phase): nat {
    match p
    case NotStarted => 6
    case AwaitEnv => 5
    case AwaitHttp => 4
    case AwaitInstalled => 3
    case AwaitDownload => 2
    case AwaitCommit => 1
    case Done => 0
  }

  /** The query budget left, or the strategies left. */
  function Outer(s: State): nat
    requires Fine(s)
  {
    match s.phase
    case AwaitHttp => MAX_QUERY_REQUESTS - s.query.value.spent
    case AwaitDownload => |s.decision.value.attempts| - s.cursor.value.attempt
    case _ => 0
  }

  /** The mirrors left of the current strategy. */
  function Inner(s: State): nat
    requires Fine(s)
  {
    if s.phase.AwaitDownload? then |s.decision.value.attempts[s.cursor.value.attempt].urls| - s.cursor.value.url else 0
  }

  /** The lexicographic measure over phase, query budget and cursor goes down. */
  predicate Below(t: State, s: State)
    requires Fine(t) && Fine(s)
  {
    || PhaseRank(t.phase) < PhaseRank(s.phase)
    || (PhaseRank(t.phase) == PhaseRank(s.phase) &&
        (Outer(t) < Outer(s) || (Outer(t) == Outer(s) && Inner(t) < Inner(s))))
  }

  // ----- one step --------------------------------------------------------------------------------------------

  /** The command a step emitted fits the state it left, and the state is one of a round. */
  predicate Good(o: Out) {
    Fine(o.state) && |o.commands| == 1 && Matches(o.state.phase, o.commands[0])
  }

  /** What a round never changes once it started. */
  predicate SameRound(s: State, t: State) {
    && t.config == s.config && t.deadline == s.deadline && t.sample == s.sample
    && t.resetGeneration == s.resetGeneration && t.configGeneration == s.configGeneration
  }

  lemma RespondGood(s: State, text: string)
    ensures var o := Respond(s, text);
            && Good(o) && PhaseRank(o.state.phase) <= 3 && !o.state.phase.AwaitDownload?
            && SameRound(s, o.state) && o.state.env == s.env
  {
    hide HandleRoundResponse, IdentityOf, Acceptable, Suits, IsHttpsOnly, IsSafePathComponent, WellPlanned, NativeConfig.ParseObject;
    RoundDecisionLaws(text, s.config, s.env, s.body, s.at);
  }

  lemma AskGood(s: State, text: Option<string>, now: real)
    requires s.query.Some? && Inv(s.query.value)
    ensures var o := Ask(s, text, now);
            && Good(o) && PhaseRank(o.state.phase) <= 4 && !o.state.phase.AwaitDownload?
            && SameRound(s, o.state) && o.state.env == s.env
            && (o.state.phase.AwaitHttp? ==> o.state.query.value.spent == s.query.value.spent + 1)
  {
    hide NextQueryStep, Inv, Respond;
    StepKeeps(s.query.value, text);
    var q := NextQueryStep(s.query.value, text);
    if q.found {
      RespondGood(s.(query := None), TextOf(text));
    }
    InvSpent(q);
  }

  /** Where the search for an attempt ends up: not before where it began, within its phase's window. */
  lemma {:induction false} SeekLaws(s: State, now: real, c: Cursor, attempt: nat, url: nat)
    requires WellPlanned(DecisionOf(s).attempts)
    ensures var attempts, r := DecisionOf(s).attempts, Seek(s, now, c, attempt, url);
            r.Some? ==>
              && r.value.attempt < |attempts|
              && (r.value.attempt > attempt || (r.value.attempt == attempt && r.value.url == url))
              && r.value.incremental == c.incremental
              && PhaseDeadline(r.value, attempts[r.value.attempt].strategy) > now
              && (if !attempts[r.value.attempt].strategy.Full? || c.full != 0.0 then r.value.full == c.full
                  else r.value.full == DeadlineIn(s, now, DOWNLOAD_PHASE_MS))
    decreases |DecisionOf(s).attempts| - attempt
  {
    var attempts := DecisionOf(s).attempts;
    if attempt < |attempts| {
      var full := attempts[attempt].strategy.Full?;
      var c1 := if full && c.full == 0.0 then c.(full := DeadlineIn(s, now, DOWNLOAD_PHASE_MS)) else c;
      SeekLaws(s, now, c1, attempt + 1, 0);
      if full {
        FullIsLast(attempts, attempt);
      }
    }
  }

  lemma FullIsLast(attempts: seq<Attempt>, i: nat)
    requires WellPlanned(attempts) && i < |attempts| && attempts[i].strategy.Full?
    ensures i == |attempts| - 1
  {
    assert Rank(attempts[|attempts| - 1].strategy) <= 2;
  }

  lemma NextAttemptGood(s: State, now: real)
    requires Ready(s) && s.cursor.Some?
    requires var c := s.cursor.value;
             c.attempt < |s.decision.value.attempts| && !s.decision.value.attempts[c.attempt].strategy.Full? ==> c.full == 0.0
    ensures var o, c := NextAttempt(s, now), s.cursor.value;
            && Good(o) && SameRound(s, o.state) && o.state.env == s.env && o.state.decision == s.decision
            && (o.state.phase.AwaitDownload? || o.state.phase.AwaitCommit?)
            && (o.state.phase.AwaitDownload? ==>
                  var d := o.state.cursor.value;
                  d.attempt > c.attempt || (d.attempt == c.attempt && d.url == c.url))
  {
    hide Seek, Installable;
    assert WellPlanned(DecisionOf(s).attempts) by {
      InstallablePlan(s.config, s.env, s.decision.value);
    }
    var c, attempts := s.cursor.value, s.decision.value.attempts;
    SeekLaws(s, now, c, c.attempt, c.url);
    var r := Seek(s, now, c, c.attempt, c.url);
    if r.Some? {
      if !attempts[r.value.attempt].strategy.Full? && attempts[c.attempt].strategy.Full? {
        FullIsLast(attempts, c.attempt);
      }
    }
  }

  lemma InstallablePlan(config: string, env: Value, d: Version)
    requires Installable(config, env, d)
    ensures WellPlanned(d.attempts)
  {
  }

  /** Stickiness changes nothing else. */
  lemma StickFine(s: State, e: Event)
    ensures Fine(s) ==> Fine(Stick(s, e)) && Outer(Stick(s, e)) == Outer(s) && Inner(Stick(s, e)) == Inner(s)
    ensures SameRound(s, Stick(s, e)) && Stick(s, e).phase == s.phase && Stick(s, e).env == s.env
  {
    hide Installable, Inv;
  }

  lemma OnEnvGood(s: State, env: Value, now: real)
    requires s.phase.AwaitEnv?
    ensures var o := OnEnv(s, env, now);
            Good(o) && PhaseRank(o.state.phase) <= 4 && SameRound(s, o.state) && !o.state.phase.AwaitDownload?
  {
    hide Ask, RequestBody, StartQuery, NativeConfig.ParseRunnableConfig;
    var r := PrepareRound(s.config, env, s.sample);
    if r.Some? {
      PreparedIsFine(s.config, env, s.sample);
      AskGood(s.(env := env, body := r.value.body, query := Some(r.value.query)), None, now);
    }
  }

  lemma PreparedIsFine(config: string, env: Value, sample: real)
    ensures var r := PrepareRound(config, env, sample);
            r.Some? ==> Inv(r.value.query) && r.value.query.spent == 0 && r.value.query.tried == []
  {
    hide RequestBody, StartQuery, Inv;
    var gate := NativeConfig.ParseRunnableConfig(config);
    if gate.Runnable? {
      StartIsFine(gate.appKey, gate.config, sample);
      StartBlank(gate.appKey, gate.config, sample);
    }
  }

  lemma StartBlank(appKey: string, config: seq<Member>, sample: real)
    ensures StartQuery(appKey, config, sample).spent == 0 && StartQuery(appKey, config, sample).tried == []
  {
  }

  lemma OnInstalledGood(s: State, installed: bool, now: real)
    requires Fine(s) && s.phase.AwaitInstalled?
    ensures var o := OnInstalled(s, installed, now);
            && Good(o) && PhaseRank(o.state.phase) <= 2 && SameRound(s, o.state) && o.state.env == s.env
            && o.state.decision == s.decision
  {
    hide NextAttempt, Installable, WellPlanned;
    if !installed {
      NextAttemptGood(s.(cursor := Some(Cursor(0, 0, DeadlineIn(s, now, DOWNLOAD_PHASE_MS), 0.0))), now);
    }
  }

  lemma OnDownloadGood(s: State, ok: bool, code: string, timedOut: bool, now: real)
    requires Fine(s) && s.phase.AwaitDownload?
    ensures var o := OnDownload(s, ok, code, timedOut, now);
            Good(o) && Below(o.state, s) && SameRound(s, o.state) && o.state.env == s.env && o.state.decision == s.decision
  {
    hide NextAttempt, Installable;
    if !ok {
      InstallablePlan(s.config, s.env, s.decision.value);
      var c, m, attempts := s.cursor.value, MovedOn(s, code, timedOut), s.decision.value.attempts;
      if c.attempt + 1 < |attempts| && attempts[c.attempt].strategy.Full? {
        FullIsLast(attempts, c.attempt);
      }
      var t := s.(cursor := Some(m));
      NextAttemptGood(t, now);
    }
  }

  /**
   Every event but a start, expected or not, takes a round that is not over one step closer
   to its end and makes it emit the one command its new phase waits on; a finished round
   stays as it is and emits nothing.
   */
  lemma StepGood(s: State, e: Event)
    requires Fine(s) && !e.what.Start?
    ensures var o := StepRound(Some(s), e);
            && Fine(o.state) && SameRound(s, o.state)
            && if s.phase.Done? then o.commands == [] && o.state.phase.Done?
               else Good(o) && Below(o.state, s)
    ensures var t := StepRound(Some(s), e).state;
            && (t.phase.AwaitDownload? ==> s.phase.AwaitInstalled? || s.phase.AwaitDownload?)
            && (t.phase.AwaitHttp? ==> s.phase.AwaitEnv? || s.phase.AwaitHttp?)
            && (PhaseRank(s.phase) <= 3 ==> t.decision == s.decision)
            && (PhaseRank(s.phase) <= 4 ==> t.env == s.env)
  {
    hide OnEnv, OnHttp, OnInstalled, OnDownload, Installable, Inv;
    var t := Stick(s, e);
    StickFine(s, e);
    if !s.phase.Done? && Expects(t.phase, e.what) {
      match e.what
      case EnvReply(env) => OnEnvGood(t, env, e.now);
      case HttpReply(text, at) => OnHttpGood(t, text, at, e.now);
      case InstalledReply(installed) => OnInstalledGood(t, installed, e.now);
      case DownloadReply(ok, code, timedOut) => OnDownloadGood(t, ok, code, timedOut, e.now);
      case CommittedReply(_, _, _, _) =>
    }
  }

  lemma OnHttpGood(s: State, text: Option<string>, at: real, now: real)
    requires Fine(s) && s.phase.AwaitHttp?
    ensures var o := OnHttp(s, text, at, now);
            && Good(o) && Below(o.state, s) && SameRound(s, o.state) && o.state.env == s.env
            && !o.state.phase.AwaitDownload?
  {
    hide Ask, Installable, Inv;
    AskGood(s.(at := at.Floor as real), text, now);
    if OnHttp(s, text, at, now).state.phase.AwaitHttp? {
      InvSpent(OnHttp(s, text, at, now).state.query.value);
    }
  }
}
