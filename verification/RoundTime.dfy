/**
 Time in a round (cpp/update_flow_core/round_engine.h:27-37, round_engine.cpp:121-134 and
 236-325): how long the waits on the network add up to when every reply arrives within the
 bound its command carried, what a round deadline caps, and why failing incremental
 downloads never cost the device its full download.
 */
module RoundTime {
  import opened Decision
  import opened NativeRound
  import opened RoundEngine
  import opened RoundRuns
  import opened Wrappers
  import RoundSafety

  /** Until when the command just emitted may take. */
  function ReplyBy(o: Out, now: real): Option<real> {
    if |o.commands| != 1 then None
    else
      match o.commands[0]
      case Http(_, _, _, _, callTimeoutMs) => Some(now + callTimeoutMs)
      case Fetch(_, _, _, _, deadline) => Some(deadline)
      case _ => None
  }

  /** Time does not run backwards, and every reply arrives within its command's bound. */
  predicate Timely(s: State, last: real, bound: Option<real>, es: seq<Event>)
    decreases |es|
  {
    es != [] ==>
      && last <= es[0].now && (bound.Some? ==> es[0].now <= bound.value)
      && var o := StepRound(Some(s), es[0]);
         Timely(o.state, es[0].now, ReplyBy(o, es[0].now), es[1..])
  }

  predicate Waiting(s: State) {
    s.phase.AwaitHttp? || s.phase.AwaitDownload?
  }

  /** How long the round waits on requests and downloads, in all. */
  function Waited(s: State, last: real, es: seq<Event>): real
    decreases |es|
  {
    if es == [] then 0.0
    else (if Waiting(s) then es[0].now - last else 0.0) + Waited(Next(s, es[0]), es[0].now, es[1..])
  }

  const DOWNLOADS_MS := 2.0 * DOWNLOAD_PHASE_MS

  function StrategyOf(s: State): Strategy
    requires Fetching(s)
  {
    s.decision.value.attempts[s.cursor.value.attempt].strategy
  }

  /** How much longer the round may wait on the network. */
  function Potential(s: State, now: real): real
    requires Fine(s)
  {
    match s.phase
    case AwaitEnv => 8.0 * QUERY_CALL_TIMEOUT_MS + DOWNLOADS_MS
    case AwaitHttp => (9 - s.query.value.spent) as real * QUERY_CALL_TIMEOUT_MS + DOWNLOADS_MS
    case AwaitInstalled => DOWNLOADS_MS
    case AwaitDownload =>
      if StrategyOf(s).Full? then s.cursor.value.full - now
      else s.cursor.value.incremental - now + DOWNLOAD_PHASE_MS
    case _ => 0.0
  }

  predicate CappedBy(s: State, t: real) {
    s.deadline > 0.0 ==> t <= s.deadline
  }

  /** The bound of the pending command, within its window and within the round's deadline. */
  predicate Bounded(s: State, now: real, bound: Option<real>)
    requires Fine(s)
  {
    && (s.phase.AwaitHttp? ==> bound.Some? && bound.value <= now + QUERY_CALL_TIMEOUT_MS)
    && (s.phase.AwaitDownload? ==>
          && bound == Some(PhaseDeadline(s.cursor.value, StrategyOf(s))) && bound.value > now
          && CappedBy(s, s.cursor.value.incremental) && CappedBy(s, s.cursor.value.full))
    && (Waiting(s) ==> CappedBy(s, bound.value))
  }

  /** The outcome of waiting from `last` to `now` in s and going on as o says. */
  predicate Spends(s: State, last: real, o: Out, now: real)
    requires Fine(s)
  {
    && Fine(o.state)
    && Bounded(o.state, now, ReplyBy(o, now))
    && Potential(o.state, now) + (if Waiting(s) then now - last else 0.0) <= Potential(s, last)
  }

  lemma AskSpends(s: State, text: Option<string>, now: real)
    requires s.query.Some? && Inv(s.query.value)
    ensures var o := Ask(s, text, now);
            && Fine(o.state) && Bounded(o.state, now, ReplyBy(o, now))
            && Potential(o.state, now) <= (8 - s.query.value.spent) as real * QUERY_CALL_TIMEOUT_MS + DOWNLOADS_MS
  {
    hide Ask, Inv, Ready;
    AskGood(s, text, now);
    InvSpent(s.query.value);
    var o := Ask(s, text, now);
    if o.state.phase.AwaitHttp? {
      RoundSafety.AskTried(s, text, now);
    }
  }

  lemma NextAttemptSpends(s: State, now: real)
    requires Ready(s) && s.cursor.Some? && now >= 0.0
    requires var c, attempts := s.cursor.value, s.decision.value.attempts;
             && (c.attempt < |attempts| && !attempts[c.attempt].strategy.Full? ==> c.full == 0.0)
             && CappedBy(s, c.incremental) && CappedBy(s, c.full)
    ensures var o, c := NextAttempt(s, now), s.cursor.value;
            && Fine(o.state) && Bounded(o.state, now, ReplyBy(o, now))
            && (o.state.phase.AwaitDownload? ==>
                  && o.state.cursor.value.incremental == c.incremental
                  && (if !StrategyOf(o.state).Full? || c.full != 0.0 then o.state.cursor.value.full == c.full
                      else o.state.cursor.value.full <= now + DOWNLOAD_PHASE_MS))
            && (o.state.phase.AwaitDownload? || o.state.phase.AwaitCommit?)
  {
    hide Seek, Installable;
    var c := s.cursor.value;
    NextAttemptGood(s, now);
    InstallablePlan(s.config, s.env, s.decision.value);
    SeekLaws(s, now, c, c.attempt, c.url);
  }

  lemma OnInstalledSpends(s: State, last: real, installed: bool, now: real)
    requires Fine(s) && s.phase.AwaitInstalled? && 0.0 <= last <= now
    ensures Spends(s, last, OnInstalled(s, installed, now), now)
  {
    hide NextAttempt, Installable;
    if !installed {
      NextAttemptSpends(s.(cursor := Some(Cursor(0, 0, DeadlineIn(s, now, DOWNLOAD_PHASE_MS), 0.0))), now);
    }
  }

  lemma OnDownloadSpends(s: State, last: real, ok: bool, code: string, timedOut: bool, now: real)
    requires Fine(s) && s.phase.AwaitDownload? && 0.0 <= last <= now
    requires Bounded(s, last, Some(PhaseDeadline(s.cursor.value, StrategyOf(s)))) && now <= PhaseDeadline(s.cursor.value, StrategyOf(s))
    ensures Spends(s, last, OnDownload(s, ok, code, timedOut, now), now)
  {
    hide NextAttempt, Installable;
    if !ok {
      var c, m, attempts := s.cursor.value, MovedOn(s, code, timedOut), s.decision.value.attempts;
      InstallablePlan(s.config, s.env, s.decision.value);
      if c.attempt + 1 < |attempts| && attempts[c.attempt].strategy.Full? {
        FullIsLast(attempts, c.attempt);
      }
      NextAttemptSpends(s.(cursor := Some(m)), now);
      NextAttemptGood(s.(cursor := Some(m)), now);
      var o := NextAttempt(s.(cursor := Some(m)), now);
      if o.state.phase.AwaitDownload? && attempts[c.attempt].strategy.Full? {
        FullIsLast(attempts, c.attempt);
      }
    }
  }

  lemma StepSpends(s: State, last: real, bound: Option<real>, e: Event)
    requires Fine(s) && !e.what.Start? && Bounded(s, last, bound)
    requires 0.0 <= last <= e.now && (bound.Some? ==> e.now <= bound.value)
    ensures Spends(s, last, StepRound(Some(s), e), e.now)
  {
    hide Ask, PrepareRound, OnInstalled, OnDownload, Inv, Ready;
    StepGood(s, e);
    StickFine(s, e);
    var u := Stick(s, e);
    if Expects(u.phase, e.what) {
      match e.what
      case EnvReply(env) =>
        PreparedIsFine(u.config, env, u.sample);
        var r := PrepareRound(u.config, env, u.sample);
        if r.Some? {
          AskSpends(u.(env := env, body := r.value.body, query := Some(r.value.query)), None, e.now);
        }
      case HttpReply(text, at) => AskSpends(u.(at := at.Floor as real), text, e.now);
      case InstalledReply(installed) => OnInstalledSpends(u, last, installed, e.now);
      case DownloadReply(ok, code, timedOut) => OnDownloadSpends(u, last, ok, code, timedOut, e.now);
      case CommittedReply(_, _, _, _) =>
    } else {
      EndSpends(s, last, bound, e.now);
    }
  }

  /** Giving up spends no more than was left. */
  lemma EndSpends(s: State, last: real, bound: Option<real>, now: real)
    requires Fine(s) && Bounded(s, last, bound) && 0.0 <= last <= now && (bound.Some? ==> now <= bound.value)
    ensures (if Waiting(s) then now - last else 0.0) <= Potential(s, last)
  {
    hide Ready;
    if s.phase.AwaitHttp? {
      InvSpent(s.query.value);
    }
  }

  lemma NothingOwed(s: State, last: real, bound: Option<real>)
    requires Fine(s) && Bounded(s, last, bound)
    ensures Potential(s, last) >= 0.0
  {
    hide Ready;
    if s.phase.AwaitHttp? {
      InvSpent(s.query.value);
    }
  }

  lemma {:induction false} WaitsAreBounded(s: State, last: real, bound: Option<real>, es: seq<Event>)
    requires Fine(s) && NoStart(es) && Bounded(s, last, bound) && 0.0 <= last && Timely(s, last, bound, es)
    ensures Waited(s, last, es) <= Potential(s, last)
    decreases |es|
  {
    hide StepRound, Fine;
    if es == [] {
      NothingOwed(s, last, bound);
    } else {
      StepSpends(s, last, bound, es[0]);
      var o := StepRound(Some(s), es[0]);
      WaitsAreBounded(o.state, es[0].now, ReplyBy(o, es[0].now), es[1..]);
    }
  }

  /**
   If every reply arrives within the bound its command carried, a round waits on the network
   for at most eight requests of fifteen seconds and two download windows of ten minutes:
   22 minutes, within the half hour a host waits.
   */
  lemma RoundTimeBound(previous: Option<State>, start: Event, es: seq<Event>)
    requires start.what.Start? && NoStart(es) && 0.0 <= start.now
    requires Timely(StepRound(previous, start).state, start.now, None, es)
    ensures Waited(StepRound(previous, start).state, start.now, es) <=
            8.0 * QUERY_CALL_TIMEOUT_MS + 2.0 * DOWNLOAD_PHASE_MS <= 1320000.0
  {
    hide StepRound, Fine;
    RoundSafety.StartGood(previous, start);
    WaitsAreBounded(StepRound(previous, start).state, start.now, None, es);
  }

  /** The times the replies to requests and downloads come in. */
  predicate RepliesBy(s: State, es: seq<Event>, t: real)
    decreases |es|
  {
    es != [] ==> (Waiting(s) ==> es[0].now <= t) && RepliesBy(Next(s, es[0]), es[1..], t)
  }

  lemma {:induction false} DeadlineHolds(s: State, last: real, bound: Option<real>, es: seq<Event>)
    requires Fine(s) && NoStart(es) && Bounded(s, last, bound) && 0.0 <= last && Timely(s, last, bound, es)
    requires s.deadline > 0.0
    ensures RepliesBy(s, es, s.deadline)
    decreases |es|
  {
    hide StepRound, Fine;
    if es != [] {
      StepSpends(s, last, bound, es[0]);
      StepGood(s, es[0]);
      var o := StepRound(Some(s), es[0]);
      DeadlineHolds(o.state, es[0].now, ReplyBy(o, es[0].now), es[1..]);
    }
  }

  /** A round deadline caps every request and every download of the round. */
  lemma RoundDeadline(previous: Option<State>, start: Event, es: seq<Event>)
    requires start.what.Start? && NoStart(es) && 0.0 <= start.now && start.what.deadline > 0.0
    requires Timely(StepRound(previous, start).state, start.now, None, es)
    ensures RepliesBy(StepRound(previous, start).state, es, start.what.deadline)
  {
    hide StepRound, Fine;
    RoundSafety.StartGood(previous, start);
    DeadlineHolds(StepRound(previous, start).state, start.now, None, es);
  }

  // ----- the full download is never starved ---------------------------------------------------------

  lemma {:induction false} SeekFindsFull(s: State, now: real, c: Cursor, attempt: nat, url: nat)
    requires WellPlanned(DecisionOf(s).attempts) && s.deadline <= 0.0 && c.full == 0.0
    requires var attempts := DecisionOf(s).attempts;
             && attempt < |attempts| && attempts[|attempts| - 1].strategy.Full?
             && (attempts[attempt].strategy.Full? ==> url < |attempts[attempt].urls|)
    ensures Seek(s, now, c, attempt, url).Some?
    decreases |DecisionOf(s).attempts| - attempt
  {
    var attempts := DecisionOf(s).attempts;
    if attempts[attempt].strategy.Full? {
      FullIsLast(attempts, attempt);
    } else {
      SeekFindsFull(s, now, c, attempt + 1, 0);
    }
  }

  /** A full download is planned and has not been started. */
  predicate FullAhead(s: State) {
    && Fine(s) && (s.phase.AwaitInstalled? || s.phase.AwaitDownload?) && s.deadline <= 0.0
    && s.decision.value.attempts != [] && s.decision.value.attempts[|s.decision.value.attempts| - 1].strategy.Full?
    && (s.phase.AwaitDownload? ==> !StrategyOf(s).Full?)
  }

  predicate GivesUp(c: Command) {
    c.Commit? && c.hashInfo.None?
  }

  /** A step that does not give up; a download it starts is the full one, or leaves that ahead. */
  predicate MovesOn(o: Out) {
    && Fine(o.state) && !o.state.phase.AwaitInstalled?
    && (forall i :: 0 <= i < |o.commands| ==> !GivesUp(o.commands[i]))
    && (o.state.phase.AwaitDownload? ==> Started(o) && (StrategyOf(o.state).Full? || FullAhead(o.state)))
  }

  predicate Started(o: Out) {
    && Fine(o.state) && o.state.phase.AwaitDownload?
    && |o.commands| == 1 && o.commands[0].Fetch? && o.commands[0].strategy == StrategyOf(o.state)
  }

  /** Without a deadline, a failure while a full download is ahead always starts another download. */
  lemma FailureMovesOn(s: State, e: Event)
    requires FullAhead(s) && !e.what.Start?
    ensures MovesOn(StepRound(Some(s), e))
  {
    hide OnInstalled, OnDownload, Installable, Inv;
    StepGood(s, e);
    StickFine(s, e);
    var u := Stick(s, e);
    if Expects(u.phase, e.what) {
      match e.what
      case InstalledReply(installed) => InstalledMovesOn(u, installed, e.now);
      case DownloadReply(ok, code, timedOut) => DownloadMovesOn(u, ok, code, timedOut, e.now);
    }
  }

  lemma InstalledMovesOn(s: State, installed: bool, now: real)
    requires FullAhead(s) && s.phase.AwaitInstalled?
    ensures MovesOn(OnInstalled(s, installed, now))
  {
    hide NextAttempt, Installable;
    InstallablePlan(s.config, s.env, s.decision.value);
    if !installed {
      StartsAnother(s.(cursor := Some(Cursor(0, 0, DeadlineIn(s, now, DOWNLOAD_PHASE_MS), 0.0))), now);
    }
  }

  lemma DownloadMovesOn(s: State, ok: bool, code: string, timedOut: bool, now: real)
    requires FullAhead(s) && s.phase.AwaitDownload?
    ensures MovesOn(OnDownload(s, ok, code, timedOut, now))
  {
    hide NextAttempt, Installable;
    InstallablePlan(s.config, s.env, s.decision.value);
    if !ok {
      StartsAnother(s.(cursor := Some(MovedOn(s, code, timedOut))), now);
    }
  }

  lemma StartsAnother(s: State, now: real)
    requires Ready(s) && s.cursor.Some? && s.deadline <= 0.0
    requires var c, attempts := s.cursor.value, s.decision.value.attempts;
             && c.attempt < |attempts| && c.full == 0.0 && attempts[|attempts| - 1].strategy.Full?
             && (attempts[c.attempt].strategy.Full? ==> c.url < |attempts[c.attempt].urls|)
    ensures var o := NextAttempt(s, now);
            Started(o) && o.state.decision == s.decision && o.state.deadline == s.deadline
  {
    hide Seek, Installable;
    var c := s.cursor.value;
    NextAttemptGood(s, now);
    InstallablePlan(s.config, s.env, s.decision.value);
    SeekFindsFull(s, now, c, c.attempt, c.url);
  }

  predicate FullStarted(cs: seq<Command>, i: nat) {
    exists j :: 0 <= j < i && j < |cs| && cs[j].Fetch? && cs[j].strategy.Full?
  }

  /** Without a deadline, a round that plans a full download gives up only after starting it. */
  lemma {:induction false} FullIsTried(s: State, es: seq<Event>)
    requires FullAhead(s) && NoStart(es)
    ensures forall i :: 0 <= i < |Emitted(s, es)| && GivesUp(Emitted(s, es)[i]) ==> FullStarted(Emitted(s, es), i)
    decreases |es|
  {
    hide StepRound, Installable, Inv, GivesUp;
    if es != [] {
      var o := StepRound(Some(s), es[0]);
      var rest := Emitted(o.state, es[1..]);
      FailureMovesOn(s, es[0]);
      StepGood(s, es[0]);
      assert Emitted(s, es) == o.commands + rest;
      if o.state.phase.AwaitDownload? {
        if StrategyOf(o.state).Full? {
          assert Emitted(s, es)[0] == o.commands[0];
        } else {
          FullIsTried(o.state, es[1..]);
          forall i | 0 <= i < |Emitted(s, es)| && GivesUp(Emitted(s, es)[i])
            ensures FullStarted(Emitted(s, es), i)
          {
            assert i > 0 && Emitted(s, es)[i] == rest[i - 1];
            var j :| 0 <= j < i - 1 && j < |rest| && rest[j].Fetch? && rest[j].strategy.Full?;
            assert Emitted(s, es)[j + 1] == rest[j];
          }
        }
      } else {
        NothingMore(o.state, es[1..]);
      }
    }
  }

  /** Once committed or over, a round commits nothing more. */
  lemma {:induction false} NothingMore(s: State, es: seq<Event>)
    requires Fine(s) && NoStart(es) && PhaseRank(s.phase) <= 1
    ensures forall i :: 0 <= i < |Emitted(s, es)| ==> !GivesUp(Emitted(s, es)[i])
    decreases |es|
  {
    hide StepRound, Fine;
    if es != [] {
      StepGood(s, es[0]);
      NothingMore(Next(s, es[0]), es[1..]);
    }
  }
}
