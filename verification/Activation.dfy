/**
 Switches to another version and resets, as they interleave
 (src/clientActivation.ts:46-96, 168-229 and 279-323): one flag, a generation that owns it and
 a watchdog timer. The beforeReload hook, the native calls, the timers and resets settle in
 any order; a cleared timer may still fire once, if its callback was already queued.
 */
module Activation {
  import opened Wrappers

  /** Where a switch in progress waits: for the hook, or for the native reload. */
  datatype Waiting = Hook | Reload

  datatype Switch = Switch(generation: nat, at: Waiting)

  /**
   The shared flag, the generation, the armed watchdog; and what is outstanding: the switches
   by number, and every timer set but not fired, with its generation.
   */
  datatype State = State(
    applying: bool, generation: nat, watchdog: Option<nat>,
    switches: map<nat, Switch>, timers: map<nat, nat>, next: nat)

  datatype HookResult = Proceed | Declined | Threw

  datatype Event =
    | SwitchVersion
    | HookSettled(id: nat, hook: HookResult)
    | ReloadSettled(id: nat, ok: bool)
    | TimerFired(timer: nat)
    | ResetDone

  predicate Enabled(s: State, e: Event) {
    match e
    case SwitchVersion => true
    case HookSettled(id, _) => id in s.switches && s.switches[id].at.Hook?
    case ReloadSettled(id, _) => id in s.switches && s.switches[id].at.Reload?
    case TimerFired(timer) => timer in s.timers
    case ResetDone => true
  }

  // ----- the operations on the flag -------------------------------------------------------

  function Begun(s: State): State {
    s.(watchdog := None, applying := true, generation := s.generation + 1)
  }

  predicate Owns(s: State, generation: nat) {
    generation == s.generation && s.applying
  }

  function Finished(s: State, generation: nat): State {
    if !Owns(s, generation) then s else s.(watchdog := None, applying := false)
  }

  function Invalidated(s: State): State {
    s.(generation := s.generation + 1, watchdog := None, applying := false)
  }

  /** Sets a new timer in place of the armed one. */
  function Armed(s: State, generation: nat): State {
    if !Owns(s, generation) then s
    else s.(watchdog := Some(s.next), timers := s.timers[s.next := generation], next := s.next + 1)
  }

  // ----- the continuations -------------------------------------------------------------------

  function Settled(s: State, id: nat): State {
    s.(switches := s.switches - {id})
  }

  function Step(s: State, e: Event): State
    requires Enabled(s, e)
  {
    match e
    case SwitchVersion =>
      if s.applying then s
      else
        var t := Begun(s);
        t.(switches := t.switches[t.next := Switch(t.generation, Hook)], next := t.next + 1)
    case HookSettled(id, hook) =>
      var g := s.switches[id].generation;
      if !hook.Proceed? then Finished(Settled(s, id), g)
      else if !Owns(s, g) then Settled(s, id)
      else s.(switches := s.switches[id := Switch(g, Reload)])
    case ReloadSettled(id, ok) =>
      var g := s.switches[id].generation;
      if ok then Armed(Settled(s, id), g) else Finished(Settled(s, id), g)
    case TimerFired(timer) =>
      var t := s.(timers := s.timers - {timer});
      if s.watchdog != Some(timer) || !Owns(s, s.timers[timer]) then t else t.(watchdog := None, applying := false)
    case ResetDone => Invalidated(s)
  }

  const START := State(false, 0, None, map[], map[], 0)

  // ----- what every state keeps ------------------------------------------------------------------

  /** A switch still waiting on the hook or on the native call, that owns the flag. */
  predicate HasOwner(s: State) {
    exists id :: id in s.switches && s.switches[id].generation == s.generation
  }

  /** An armed timer that will release the flag. */
  predicate HasWatchdog(s: State) {
    s.watchdog.Some? && s.watchdog.value in s.timers && s.timers[s.watchdog.value] == s.generation
  }

  predicate Inv(s: State) {
    && (forall id :: id in s.switches ==> s.switches[id].generation <= s.generation && id < s.next)
    && (forall t :: t in s.timers ==> s.timers[t] <= s.generation && t < s.next)
    && (s.applying ==> HasOwner(s) || HasWatchdog(s))
    && (forall id :: id in s.switches && s.switches[id].generation == s.generation ==> s.applying && s.watchdog.None?)
    && (s.watchdog.Some? ==> s.applying && HasWatchdog(s))
    && OneEach(s)
  }

  /** Every generation has at most one switch. */
  predicate OneEach(s: State) {
    forall i, j :: i in s.switches && j in s.switches && s.switches[i].generation == s.switches[j].generation ==> i == j
  }

  lemma SettledKeeps(s: State, id: nat)
    requires Inv(s) && id in s.switches
    ensures var t := Settled(s, id);
            && (forall i :: i in t.switches ==> i in s.switches && i != id && t.switches[i] == s.switches[i])
            && (s.switches[id].generation == s.generation ==> s.applying && !HasOwner(t))
            && (s.switches[id].generation != s.generation ==> (HasOwner(s) <==> HasOwner(t)))
  {
    var t := Settled(s, id);
    if s.switches[id].generation != s.generation && HasOwner(s) {
      var i :| i in s.switches && s.switches[i].generation == s.generation;
      assert i in t.switches;
    }
  }

  lemma StepKeeps(s: State, e: Event)
    requires Inv(s) && Enabled(s, e)
    ensures Inv(Step(s, e))
  {
    match e
    case SwitchVersion => SwitchKeeps(s);
    case HookSettled(id, hook) => HookKeeps(s, id, hook);
    case ReloadSettled(id, ok) => ReloadKeeps(s, id, ok);
    case TimerFired(timer) => TimerKeeps(s, timer);
    case ResetDone =>
  }

  lemma SwitchKeeps(s: State)
    requires Inv(s)
    ensures Inv(Step(s, SwitchVersion))
  {
    if !s.applying {
      var t := Step(s, SwitchVersion);
      assert s.next in t.switches && t.switches[s.next].generation == t.generation;
    }
  }

  lemma HookKeeps(s: State, id: nat, hook: HookResult)
    requires Inv(s) && Enabled(s, HookSettled(id, hook))
    ensures Inv(Step(s, HookSettled(id, hook)))
  {
    SettledKeeps(s, id);
    var t := Step(s, HookSettled(id, hook));
    if hook.Proceed? && Owns(s, s.switches[id].generation) {
      assert id in t.switches && t.switches[id].generation == t.generation;
    }
  }

  lemma ReloadKeeps(s: State, id: nat, ok: bool)
    requires Inv(s) && Enabled(s, ReloadSettled(id, ok))
    ensures Inv(Step(s, ReloadSettled(id, ok)))
  {
    SettledKeeps(s, id);
  }

  lemma TimerKeeps(s: State, timer: nat)
    requires Inv(s) && Enabled(s, TimerFired(timer))
    ensures Inv(Step(s, TimerFired(timer)))
  {
    var t := Step(s, TimerFired(timer));
    if HasOwner(s) {
      var id :| id in s.switches && s.switches[id].generation == s.generation;
      assert id in t.switches;
    }
  }

  predicate CanHappen(s: State, es: seq<Event>)
    decreases |es|
  {
    es == [] || (Enabled(s, es[0]) && CanHappen(Step(s, es[0]), es[1..]))
  }

  function Run(s: State, es: seq<Event>): State
    requires CanHappen(s, es)
    decreases |es|
  {
    if es == [] then s else Run(Step(s, es[0]), es[1..])
  }

  lemma {:induction false} RunKeeps(s: State, es: seq<Event>)
    requires Inv(s) && CanHappen(s, es)
    ensures Inv(Run(s, es))
    decreases |es|
  {
    hide Inv, Step, Enabled;
    if es != [] {
      StepKeeps(s, es[0]);
      RunKeeps(Step(s, es[0]), es[1..]);
    }
  }

  /**
   Over every interleaving: whenever the flag is set, some hook, native call or armed
   watchdog of the current generation can still release it, and never two of them at once.
   */
  lemma NeverStuck(es: seq<Event>)
    requires CanHappen(START, es)
    ensures var s := Run(START, es);
            && (s.applying ==> HasOwner(s) || HasWatchdog(s))
            && !(HasOwner(s) && s.watchdog.Some?) && OneEach(s)
  {
    hide CanHappen, Run, Step;
    RunKeeps(START, es);
  }

  /** The generation an event speaks for, if it speaks for one. */
  function Speaker(s: State, e: Event): Option<nat>
    requires Enabled(s, e)
  {
    match e
    case HookSettled(id, _) => Some(s.switches[id].generation)
    case ReloadSettled(id, _) => Some(s.switches[id].generation)
    case TimerFired(timer) => Some(s.timers[timer])
    case _ => None
  }

  predicate Reloading(s: State, id: nat) {
    id in s.switches && s.switches[id].at.Reload?
  }

  /**
   One event: a superseded one changes neither the flag nor its owner nor the watchdog and
   starts no reload; the generation moves with a switch that found the flag clear or a reset;
   and only the owner or a reset clears the flag.
   */
  lemma SupersededStep(s: State, e: Event)
    requires Inv(s) && Enabled(s, e)
    ensures var t := Step(s, e);
            && (Speaker(s, e).Some? && Speaker(s, e).value != s.generation ==>
                  && t.applying == s.applying && t.generation == s.generation && t.watchdog == s.watchdog
                  && forall id :: Reloading(t, id) ==> Reloading(s, id))
            && (t.generation != s.generation ==> e.ResetDone? || (e.SwitchVersion? && !s.applying))
            && (s.applying && !t.applying ==> e.ResetDone? || Speaker(s, e) == Some(s.generation))
  {
  }

  /** Neither a reset nor anything that speaks for the generation of s. */
  predicate Superseded(s: State, es: seq<Event>)
    requires CanHappen(s, es)
    decreases |es|
  {
    es == [] ||
    (!es[0].ResetDone? && Speaker(s, es[0]) != Some(s.generation) && Superseded(Step(s, es[0]), es[1..]))
  }

  lemma {:induction false} SupersededRun(s: State, es: seq<Event>)
    requires Inv(s) && s.applying && CanHappen(s, es) && Superseded(s, es)
    ensures var t := Run(s, es);
            && t.applying && t.generation == s.generation && t.watchdog == s.watchdog
            && forall id :: Reloading(t, id) ==> Reloading(s, id)
    decreases |es|
  {
    hide Inv;
    if es != [] {
      StepKeeps(s, es[0]);
      SupersededStep(s, es[0]);
      SupersededRun(Step(s, es[0]), es[1..]);
    }
  }

  /**
   Whatever was going on before: once a switch holds the flag, no hook, reload or timer of an
   older one, in any number and order, clears the flag, takes it over, touches the watchdog or
   starts a reload.
   */
  lemma SupersededIsHarmless(es: seq<Event>, later: seq<Event>)
    requires CanHappen(START, es) && Run(START, es).applying
    requires CanHappen(Run(START, es), later) && Superseded(Run(START, es), later)
    ensures var s, t := Run(START, es), Run(Run(START, es), later);
            && t.applying && t.generation == s.generation && t.watchdog == s.watchdog
            && forall id :: Reloading(t, id) ==> Reloading(s, id)
  {
    hide CanHappen, Run, Superseded, Step;
    RunKeeps(START, es);
    SupersededRun(Run(START, es), later);
  }

  function Hooks(s: State): (r: set<nat>)
    ensures r <= s.switches.Keys
  {
    set id | id in s.switches && s.switches[id].at.Hook?
  }

  /** What is still to settle: a switch its hook and its reload, a timer its callback. */
  function Weight(s: State): nat {
    2 * |s.switches| + |Hooks(s)| + |s.timers|
  }

  lemma Removed<T>(m: map<nat, T>, k: nat)
    requires k in m
    ensures |m - {k}| == |m| - 1
  {
    assert m.Keys == (m - {k}).Keys + {k};
    assert |m.Keys| == |m| && |(m - {k}).Keys| == |m - {k}|;
  }

  /** What a settled hook leaves: the switch is gone, or waits on the native call. */
  lemma HookLeaves(s: State, id: nat, hook: HookResult)
    requires Enabled(s, HookSettled(id, hook))
    ensures id in s.switches && s.switches[id].at.Hook?
    ensures var t := Step(s, HookSettled(id, hook));
            && t.timers == s.timers
            && (t.switches == s.switches - {id} || t.switches == s.switches[id := Switch(s.switches[id].generation, Reload)])
  {
  }

  lemma HookWeighs(s: State, id: nat, hook: HookResult)
    requires Enabled(s, HookSettled(id, hook))
    ensures Weight(Step(s, HookSettled(id, hook))) < Weight(s)
  {
    hide Hooks, Step, Enabled;
    HookLeaves(s, id, hook);
    var t := Step(s, HookSettled(id, hook));
    if id in t.switches {
      Updated(s.switches, id, Switch(s.switches[id].generation, Reload));
    } else {
      Removed(s.switches, id);
    }
    OneHookLess(s, t, id);
  }

  lemma Updated<T>(m: map<nat, T>, k: nat, v: T)
    requires k in m
    ensures |m[k := v]| == |m|
  {
    assert m[k := v].Keys == m.Keys;
    assert |m.Keys| == |m| && |m[k := v].Keys| == |m[k := v]|;
  }

  lemma OneHookLess(s: State, t: State, id: nat)
    requires id in s.switches && s.switches[id].at.Hook? && (id in t.switches ==> !t.switches[id].at.Hook?)
    requires t.switches - {id} == s.switches - {id}
    ensures |Hooks(t)| == |Hooks(s)| - 1
  {
    assert forall i :: i != id && i in t.switches ==> i in t.switches - {id};
    assert forall i :: i != id && i in s.switches ==> i in s.switches - {id};
    assert forall i :: i in s.switches - {id} ==> (t.switches - {id})[i] == (s.switches - {id})[i];
    assert Hooks(t) == Hooks(s) - {id};
  }

  lemma ReloadWeighs(s: State, id: nat, ok: bool)
    requires Inv(s) && Enabled(s, ReloadSettled(id, ok))
    ensures Weight(Step(s, ReloadSettled(id, ok))) < Weight(s)
  {
    var t := Step(s, ReloadSettled(id, ok));
    Removed(s.switches, id);
    assert Hooks(t) == Hooks(s);
  }

  lemma TimerWeighs(s: State, timer: nat)
    requires Enabled(s, TimerFired(timer))
    ensures Weight(Step(s, TimerFired(timer))) < Weight(s)
  {
    Removed(s.timers, timer);
    assert Hooks(Step(s, TimerFired(timer))) == Hooks(s);
  }

  lemma NothingLeft(s: State)
    requires Inv(s) && Weight(s) == 0
    ensures !s.applying
  {
    assert |s.switches.Keys| == |s.switches| && |s.timers.Keys| == |s.timers|;
  }

  /**
   Every settlement and every timer brings the switches in progress closer to their end, and
   once nothing is outstanding the flag is clear: it cannot swallow later switches for ever.
   */
  lemma FlagIsReleased(s: State, e: Event)
    requires Inv(s) && Enabled(s, e)
    ensures !e.SwitchVersion? && !e.ResetDone? ==> Weight(Step(s, e)) < Weight(s)
    ensures e.ResetDone? ==> Weight(Step(s, e)) == Weight(s)
    ensures Weight(s) == 0 ==> !s.applying
  {
    hide Inv, Weight;
    if Weight(s) == 0 {
      NothingLeft(s);
    }
    match e
    case HookSettled(id, hook) => HookWeighs(s, id, hook);
    case ReloadSettled(id, ok) => ReloadWeighs(s, id, ok);
    case TimerFired(timer) => TimerWeighs(s, timer);
    case _ => ResetWeighs(s);
  }

  lemma ResetWeighs(s: State)
    ensures Weight(Invalidated(s)) == Weight(s)
  {
    assert Hooks(Invalidated(s)) == Hooks(s);
  }

  // ----- the object ------------------------------------------------------------------------------------------

  class Shared {
    var applyingUpdate: bool
    var applyingUpdateGeneration: nat
    var reloadWatchdogTimer: Option<nat>
    /** Outstanding switches and timers, as the host keeps them. */
    var switches: map<nat, Switch>
    var timers: map<nat, nat>
    var next: nat

    function Value(): State
      reads this
    {
      State(applyingUpdate, applyingUpdateGeneration, reloadWatchdogTimer, switches, timers, next)
    }

    constructor ()
      ensures Value() == START
    {
      applyingUpdate, applyingUpdateGeneration, reloadWatchdogTimer := false, 0, None;
      switches, timers, next := map[], map[], 0;
    }

    method ClearReloadWatchdog()
      modifies this
      ensures Value() == old(Value()).(watchdog := None)
    {
      if reloadWatchdogTimer.Some? {
        reloadWatchdogTimer := None;
      }
    }

    method BeginApplyingUpdate() returns (generation: nat)
      modifies this
      ensures Value() == Begun(old(Value())) && generation == applyingUpdateGeneration
    {
      ClearReloadWatchdog();
      applyingUpdate := true;
      applyingUpdateGeneration := applyingUpdateGeneration + 1;
      generation := applyingUpdateGeneration;
    }

    predicate OwnsApplyingUpdate(generation: nat)
      reads this
      ensures OwnsApplyingUpdate(generation) <==> Owns(Value(), generation)
    {
      generation == applyingUpdateGeneration && applyingUpdate
    }

    method FinishApplyingUpdate(generation: nat) returns (released: bool)
      modifies this
      ensures Value() == Finished(old(Value()), generation) && (released <==> Owns(old(Value()), generation))
    {
      if !OwnsApplyingUpdate(generation) {
        return false;
      }
      ClearReloadWatchdog();
      applyingUpdate := false;
      return true;
    }

    method InvalidateApplyingUpdate()
      modifies this
      ensures Value() == Invalidated(old(Value()))
    {
      applyingUpdateGeneration := applyingUpdateGeneration + 1;
      ClearReloadWatchdog();
      applyingUpdate := false;
    }

    method ArmReloadWatchdog(generation: nat)
      modifies this
      ensures Value() == Armed(old(Value()), generation)
    {
      if !OwnsApplyingUpdate(generation) {
        return;
      }
      ClearReloadWatchdog();
      var timer := next;
      timers, next := timers[timer := generation], next + 1;
      reloadWatchdogTimer := Some(timer);
    }

    /** The timer's callback. */
    method OnTimer(timer: nat) returns (timedOut: bool)
      requires timer in timers
      modifies this
      ensures Value() == Step(old(Value()), TimerFired(timer))
      ensures timedOut <==> old(applyingUpdate) && !applyingUpdate
    {
      var generation := timers[timer];
      timers := timers - {timer};
      if reloadWatchdogTimer != Some(timer) || !OwnsApplyingUpdate(generation) {
        return false;
      }
      reloadWatchdogTimer := None;
      applyingUpdate := false;
      return true;
    }

    /** switchVersion up to its first wait; false, and nothing changed, while the flag is set. */
    method SwitchVersion() returns (started: bool)
      modifies this
      ensures Value() == Step(old(Value()), Event.SwitchVersion) && (started <==> !old(applyingUpdate))
    {
      if applyingUpdate {
        return false;
      }
      var generation := BeginApplyingUpdate();
      switches, next := switches[next := Switch(generation, Hook)], next + 1;
      return true;
    }

    /** From the hook to the native call. */
    method OnHook(id: nat, hook: HookResult) returns (reloads: bool)
      requires Enabled(Value(), HookSettled(id, hook))
      modifies this
      ensures Value() == Step(old(Value()), HookSettled(id, hook))
      ensures reloads <==> hook.Proceed? && Owns(old(Value()), old(switches)[id].generation)
    {
      var generation := switches[id].generation;
      if !hook.Proceed? {
        switches := switches - {id};
        var released := FinishApplyingUpdate(generation);
        return false;
      }
      if !OwnsApplyingUpdate(generation) {
        switches := switches - {id};
        return false;
      }
      switches := switches[id := Switch(generation, Reload)];
      return true;
    }

    /** After the native call. */
    method OnReload(id: nat, ok: bool)
      requires Enabled(Value(), ReloadSettled(id, ok))
      modifies this
      ensures Value() == Step(old(Value()), ReloadSettled(id, ok))
    {
      var generation := switches[id].generation;
      switches := switches - {id};
      if !ok {
        var released := FinishApplyingUpdate(generation);
        return;
      }
      ArmReloadWatchdog(generation);
    }

    /** resetToPackagedBundle, once the native reset succeeded. */
    method OnReset()
      modifies this
      ensures Value() == Step(old(Value()), ResetDone)
    {
      InvalidateApplyingUpdate();
    }
  }
}
