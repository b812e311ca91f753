/**
 Keeping native storage in step with the client's configuration
 (src/clientNativeConfig.ts:80-112 and 140-170): bridge writes are serialized and coalesced,
 and the options may hand the stored configuration to the host and take it back. A write
 landing in native storage, its promise settling and the callbacks after that are separate
 steps; requests and switches of the source come in between any two of them.
 */
module NativeConfigSync {
  import opened Wrappers

  /** A bridge call whose callbacks are not all run: whether it landed, and how it settled. */
  datatype Call = Call(config: string, landed: bool, settled: Option<bool>)

  /** Who put the present value into native storage. */
  datatype Origin =
    | Untouched
    | ByCall(id: nat) // a bridge call that has not settled
    | Confirmed // a bridge call that resolved
    | Stray(config: string) // a bridge call that was rejected, or the host

  /**
   Whether the native side has the method; the option and the object's three fields; the bridge, with every call that may still land
   or settle; native storage. The last three only record: the configuration asked for last
   while JavaScript owns it, the last settled write with its outcome, and the origin of what
   is stored.
   */
  datatype State = State(
    supported: bool, native: bool, pending: Option<string>, synced: Option<string>, inFlight: bool,
    calls: map<nat, Call>, next: nat, late: multiset<string>, stored: string,
    wanted: Option<string>, last: Option<(string, bool)>, origin: Origin)

  datatype Event =
    | SetOptions(native: bool, config: Option<string>) // None: they make no usable configuration
    | Land(id: nat)
    | Settle(id: nat, ok: bool)
    | AfterSettle(id: nat)
    | LateLand(value: string) // a write that was rejected before it landed
    | HostWrite(value: string)

  predicate Unsettled(s: State, id: nat) {
    id in s.calls && s.calls[id].settled.None?
  }

  /** A call lands at most once and settles once, and only a landed one resolves. */
  predicate Enabled(s: State, e: Event) {
    match e
    case SetOptions(_, _) => true
    case Land(id) => Unsettled(s, id) && !s.calls[id].landed
    case Settle(id, ok) => Unsettled(s, id) && (ok ==> s.calls[id].landed)
    case AfterSettle(id) => id in s.calls && s.calls[id].settled.Some?
    case LateLand(config) => config in s.late
    case HostWrite(_) => s.native
  }

  function Flushed(s: State): State {
    if s.native then s.(pending := None, synced := None)
    else if !s.supported || s.inFlight then s
    else
      var t := s.(pending := None);
      if s.pending.None? || s.pending.value == "" || s.pending == s.synced then t
      else t.(inFlight := true, calls := s.calls[s.next := Call(s.pending.value, false, None)], next := s.next + 1)
  }

  /** Every change of the options ends in a sync. */
  function Synced(s: State, config: Option<string>): State {
    if s.native then s.(pending := None, synced := None, wanted := None)
    else if !s.supported || config.None? || config.value == "" then s
    else Flushed(s.(pending := config, wanted := config))
  }

  function Step(s: State, e: Event): State
    requires Enabled(s, e)
  {
    match e
    case SetOptions(native, config) => Synced(s.(native := native), config)
    case Land(id) =>
      var c := s.calls[id];
      s.(calls := s.calls[id := c.(landed := true)], stored := c.config, origin := ByCall(id))
    case Settle(id, ok) =>
      var c := s.calls[id];
      s.(calls := s.calls[id := c.(settled := Some(ok))], last := Some((c.config, ok)),
         synced := if ok && !s.native then Some(c.config) else s.synced,
         late := if c.landed then s.late else s.late + multiset{c.config},
         origin := if s.origin != ByCall(id) then s.origin else if ok then Confirmed else Stray(c.config))
    case AfterSettle(id) => Flushed(s.(inFlight := false, calls := s.calls - {id}))
    case LateLand(config) => s.(late := s.late - multiset{config}, stored := config, origin := Stray(config))
    case HostWrite(config) => s.(stored := config, origin := Stray(config))
  }

  function Start(supported: bool, native: bool, stored: string): State {
    State(supported, native, None, None, false, map[], 0, multiset{}, stored, None, None, Untouched)
  }

  // ----- what every state keeps ------------------------------------------------------------------

  predicate Inv(s: State) {
    && OneCall(s)
    && (!s.supported ==> s.wanted.None? && s.pending.None? && !s.inFlight)
    && (s.native ==> s.pending.None? && s.synced.None? && s.wanted.None?)
    && (s.pending.Some? ==> s.inFlight && s.pending.value != "" && s.pending == s.wanted)
    && (s.synced.Some? ==> s.synced.value != "") && (s.wanted.Some? ==> s.wanted.value != "")
    && Heading(s) && Holding(s)
  }

  /** The flag is set exactly while a call is outstanding, and then there is one. */
  predicate OneCall(s: State) {
    && (forall id :: id in s.calls ==> id < s.next && s.inFlight && s.calls[id].config != "")
    && (s.inFlight ==> exists id :: id in s.calls)
    && (forall i, j :: i in s.calls && j in s.calls ==> i == j)
  }

  /** Where the last request is: waiting, being written, or done with. */
  predicate Heading(s: State) {
    s.wanted.Some? ==>
      if s.pending.Some? then s.pending == s.wanted
      else if s.inFlight then forall id :: id in s.calls ==> s.calls[id].config == s.wanted.value
      else s.synced == s.wanted || s.last == Some((s.wanted.value, false))
  }

  /** What storage holds, by its origin; and what settling left behind. */
  predicate Holding(s: State) {
    && (match s.origin
        case Untouched => s.synced.None?
        case ByCall(id) => Unsettled(s, id) && s.calls[id].landed && s.stored == s.calls[id].config
        case Confirmed => s.synced.Some? ==> s.stored == s.synced.value
        case Stray(config) => s.stored == config)
    && (forall id :: id in s.calls && s.calls[id].landed && s.calls[id].settled.None? ==> s.origin == ByCall(id) || s.origin.Stray?)
    && (forall id :: id in s.calls && s.calls[id].settled.Some? ==> s.last == Some((s.calls[id].config, s.calls[id].settled.value)))
    && (forall id :: id in s.calls && s.calls[id].settled.None? ==> s.synced != Some(s.calls[id].config))
    && (forall id :: id in s.calls && s.calls[id].settled == Some(true) && s.wanted.Some? && s.pending.None? ==> s.synced == s.wanted)
  }

  /** An idle object that no call is left of; what Flushed needs and what it gives. */
  lemma FlushKeeps(s: State)
    requires s.calls == map[] && !s.inFlight && Holding(s)
    requires !s.supported ==> s.wanted.None? && s.pending.None?
    requires s.native ==> s.pending.None? && s.synced.None? && s.wanted.None?
    requires s.pending.Some? ==> s.pending.value != "" && s.pending == s.wanted
    requires (s.synced.Some? ==> s.synced.value != "") && (s.wanted.Some? ==> s.wanted.value != "")
    requires s.wanted.Some? && s.pending.None? ==> s.synced == s.wanted || s.last == Some((s.wanted.value, false))
    ensures Inv(Flushed(s))
  {
    var t := Flushed(s);
    if t.inFlight {
      assert s.next in t.calls;
    }
  }

  lemma SettleKeeps(s: State, id: nat, ok: bool)
    requires Inv(s) && Enabled(s, Settle(id, ok))
    ensures Inv(Step(s, Settle(id, ok)))
  {
    var t := Step(s, Settle(id, ok));
    assert t.calls.Keys == s.calls.Keys && id in t.calls;
    assert forall i :: i in t.calls ==> i == id;
  }

  lemma LandKeeps(s: State, id: nat)
    requires Inv(s) && Enabled(s, Land(id))
    ensures Inv(Step(s, Land(id)))
  {
    var t := Step(s, Land(id));
    assert t.calls.Keys == s.calls.Keys && id in t.calls;
  }

  lemma OptionsKeep(s: State, native: bool, config: Option<string>)
    requires Inv(s)
    ensures Inv(Step(s, SetOptions(native, config)))
  {
    if s.supported && !native && config.Some? && config.value != "" && !s.inFlight {
      assert s.calls == map[];
      FlushKeeps(s.(native := native, pending := config, wanted := config));
    }
  }

  lemma AfterKeeps(s: State, id: nat)
    requires Inv(s) && Enabled(s, AfterSettle(id))
    ensures Inv(Step(s, AfterSettle(id)))
  {
    var t := s.(inFlight := false, calls := s.calls - {id});
    assert t.calls == map[];
    var c := s.calls[id];
    if c.settled.value {
      assert c.settled == Some(true);
    }
    FlushKeeps(t);
  }

  lemma StepKeeps(s: State, e: Event)
    requires Inv(s) && Enabled(s, e)
    ensures Inv(Step(s, e))
  {
    match e
    case SetOptions(native, config) => OptionsKeep(s, native, config);
    case Land(id) => LandKeeps(s, id);
    case Settle(id, ok) => SettleKeeps(s, id, ok);
    case AfterSettle(id) => AfterKeeps(s, id);
    case LateLand(_) =>
    case HostWrite(_) =>
  }

  predicate CanHappen(s: State, es: seq<Event>)
    decreases |es|
  {
    es == [] || (Enabled(s, es[0]) && CanHappen(Step(s, es[0]), es[1..]))
  }

  function Run(s: State, es: seq<Event>): State
    requires CanHappen(s, es)
    decreases |es|
  {
    if es == [] then s else Run(Step(s, es[0]), es[1..])
  }

  lemma {:induction false} RunKeeps(s: State, es: seq<Event>)
    requires Inv(s) && CanHappen(s, es)
    ensures Inv(Run(s, es))
    decreases |es|
  {
    hide Inv, Step, Enabled;
    if es != [] {
      StepKeeps(s, es[0]);
      RunKeeps(Step(s, es[0]), es[1..]);
    }
  }

  // ----- the protocol ----------------------------------------------------------------------------

  /**
   Over every run, whatever the options, the bridge and the host do: at most one bridge call is
   outstanding; a step that starts one starts it when no other is left, and with the
   configuration asked for last.
   */
  lemma WritesNeverOverlap(supported: bool, native: bool, stored: string, es: seq<Event>, e: Event)
    requires CanHappen(Start(supported, native, stored), es) && Enabled(Run(Start(supported, native, stored), es), e)
    ensures var s := Run(Start(supported, native, stored), es);
            var t := Step(s, e);
            && |t.calls| <= 1 && |s.calls| <= 1
            && forall id :: id in t.calls && id !in s.calls ==>
                 t.calls == map[id := Call(t.calls[id].config, false, None)] && t.wanted == Some(t.calls[id].config)
  {
    hide Run, CanHappen;
    RunKeeps(Start(supported, native, stored), es);
    var s := Run(Start(supported, native, stored), es);
    StepKeeps(s, e);
    var t := Step(s, e);
    AtMostOne(s);
    AtMostOne(t);
    forall id | id in t.calls && id !in s.calls
      ensures t.calls == map[id := Call(t.calls[id].config, false, None)] && t.wanted == Some(t.calls[id].config)
    {
      assert id == s.next;
      assert t.calls == map[id := t.calls[id]];
    }
  }

  lemma AtMostOne(s: State)
    requires Inv(s)
    ensures |s.calls| <= 1
  {
    if id :| id in s.calls {
      assert s.calls.Keys == {id};
      assert |s.calls.Keys| == |s.calls|;
    }
  }

  predicate Quiet(s: State) {
    !s.inFlight
  }

  /** No rejected write ever lands, and the host writes nothing. */
  predicate Honest(s: State, es: seq<Event>)
    requires CanHappen(s, es)
    decreases |es|
  {
    es == [] ||
    (&& !es[0].LateLand? && !es[0].HostWrite? && (es[0].Settle? && !es[0].ok ==> !s.calls[es[0].id].landed)
     && Honest(Step(s, es[0]), es[1..]))
  }

  lemma {:induction false} HonestHasNoStray(s: State, es: seq<Event>)
    requires Inv(s) && CanHappen(s, es) && Honest(s, es) && !s.origin.Stray?
    ensures !Run(s, es).origin.Stray?
    decreases |es|
  {
    hide OneCall, Heading;
    if es != [] {
      StepKeeps(s, es[0]);
      HonestHasNoStray(Step(s, es[0]), es[1..]);
    }
  }

  /**
   In general, storage holds what the object believes it holds exactly when the last write to
   reach storage was no stray one, which is a rejected write or one of the host, or carried
   the same configuration.
   */
  lemma QuietMeansSyncedIff(supported: bool, native: bool, stored: string, es: seq<Event>)
    requires CanHappen(Start(supported, native, stored), es)
    ensures var s := Run(Start(supported, native, stored), es);
            Quiet(s) && s.synced.Some? ==>
              (s.stored == s.synced.value <==> !s.origin.Stray? || s.origin == Stray(s.synced.value))
  {
    RunKeeps(Start(supported, native, stored), es);
  }

  /**
   When rejected writes leave storage alone and the host does too: once nothing is in flight
   after a successful last write, native storage holds the configuration asked for last,
   reverts and changes of the source included.
   */
  lemma QuietMeansSynced(supported: bool, native: bool, stored: string, es: seq<Event>)
    requires CanHappen(Start(supported, native, stored), es) && Honest(Start(supported, native, stored), es)
    ensures var s := Run(Start(supported, native, stored), es);
            && (Quiet(s) && s.last.Some? && s.last.value.1 && s.wanted.Some? ==> s.stored == s.wanted.value)
            && (Quiet(s) && s.synced.Some? ==> s.stored == s.synced.value)
  {
    RunKeeps(Start(supported, native, stored), es);
    QuietMeansSyncedIff(supported, native, stored, es);
    HonestHasNoStray(Start(supported, native, stored), es);
  }

  // ----- asking for a configuration ----------------------------------------------------------------------

  predicate NoOptions(es: seq<Event>) {
    forall i :: 0 <= i < |es| ==> !es[i].SetOptions?
  }

  /** A call of c that landed and has not settled, while storage holds something else by now. */
  predicate Overtaken(s: State, c: string) {
    s.stored != c && exists id :: id in s.calls && s.calls[id].settled.None? && s.calls[id].landed && s.calls[id].config == c
  }

  /**
   Asking for c now gets c into storage: it is there; or c is not what the object remembers
   having written, and no call of c has been overtaken; or it is remembered, but an earlier call
   is about to be remembered in its place.
   */
  predicate WillStore(s: State, c: string) {
    || s.stored == c
    || if s.synced == Some(c) then exists id :: id in s.calls && s.calls[id].settled.None? else !Overtaken(s, c)
  }

  /** The bridge has not decided yet whether c will go on being what the object remembers. */
  predicate Open(s: State, c: string) {
    s.synced == Some(c) && exists id :: id in s.calls && s.calls[id].settled.None? && !s.calls[id].landed
  }

  /**
   After c was asked for, the prospects of c do not change: `will` says whether storage will
   hold c once the object remembers having written it.
   */
  predicate Heads(s: State, c: string, will: bool) {
    && !s.native && s.wanted == Some(c) && (s.pending.Some? ==> s.pending.value == c)
    && (s.calls == map[] ==> (s.synced == Some(c) ==> (will <==> s.stored == c)))
    && forall id :: id in s.calls ==> CallHeads(s, s.calls[id], c, will)
  }

  predicate CallHeads(s: State, call: Call, c: string, will: bool) {
    if s.pending.None? then
      && call.config == c && will && (call.landed ==> s.stored == c)
      && (call.settled == Some(true) <==> s.synced == Some(c)) && (call.settled == Some(true) ==> call.landed)
    else if call.settled.Some? then will <==> (s.synced == Some(c) ==> s.stored == c)
    else if !call.landed then will && s.synced != Some(c)
    else if call.config == c then will <==> s.stored == c
    else will
  }

  lemma AskingHeads(s: State, c: string)
    requires Inv(s) && s.supported && c != "" && !Open(s, c)
    ensures Heads(Step(s, SetOptions(false, Some(c))), c, WillStore(s, c))
  {
  }

  lemma StepHeads(s: State, e: Event, c: string, will: bool)
    requires Inv(s) && Enabled(s, e) && Heads(s, c, will)
    requires !e.SetOptions? && !e.LateLand? && !e.HostWrite? && (e.Settle? && !e.ok ==> !s.calls[e.id].landed)
    ensures Heads(Step(s, e), c, will)
  {
  }

  lemma {:induction false} RunHeads(s: State, es: seq<Event>, c: string, will: bool)
    requires Inv(s) && CanHappen(s, es) && Honest(s, es) && NoOptions(es) && Heads(s, c, will)
    ensures Heads(Run(s, es), c, will) && Inv(Run(s, es))
    decreases |es|
  {
    hide Inv, Heads;
    if es != [] {
      StepKeeps(s, es[0]);
      StepHeads(s, es[0], c, will);
      RunHeads(Step(s, es[0]), es[1..], c, will);
    }
  }

  /**
   Exactly when asking for c, on a switch back to JavaScript or not, gets c into storage, decided
   before the call: once nothing is in flight and the object remembers having written c, storage
   holds c if and only if WillStore held. Left open is only a remembered c while an earlier call
   may still go either way. And after a successful last write the object does remember c.
   */
  lemma SwitchBackIff(s: State, c: string, es: seq<Event>)
    requires Inv(s) && s.supported && c != "" && !Open(s, c)
    requires var t := Step(s, SetOptions(false, Some(c))); CanHappen(t, es) && Honest(t, es) && NoOptions(es)
    ensures var u := Run(Step(s, SetOptions(false, Some(c))), es);
            && (Quiet(u) && u.synced == Some(c) ==> (u.stored == c <==> WillStore(s, c)))
            && (Quiet(u) && u.last.Some? && u.last.value.1 ==> u.synced == Some(c))
  {
    var t := Step(s, SetOptions(false, Some(c)));
    OptionsKeep(s, false, Some(c));
    AskingHeads(s, c);
    RunHeads(t, es, c, WillStore(s, c));
  }

  /** One event, then the rest of a run. */
  lemma Onwards(s: State, es: seq<Event>, t: State)
    requires es != [] && Enabled(s, es[0]) && t == Step(s, es[0]) && CanHappen(t, es[1..])
    ensures CanHappen(s, es) && Run(s, es) == Run(t, es[1..])
  {
  }

  /** A write that lands but is rejected makes the next revert a no-op: storage keeps it. */
  lemma StrayWriteDefeatsRevert()
    ensures var es := [SetOptions(false, Some("A")), Land(0), Settle(0, true), AfterSettle(0),
                       SetOptions(false, Some("B")), Land(1), Settle(1, false), AfterSettle(1),
                       SetOptions(false, Some("A"))];
            && CanHappen(Start(true, false, ""), es)
            && var s := Run(Start(true, false, ""), es); Quiet(s) && s.wanted == Some("A") && s.stored == "B"
  {
    hide Run, CanHappen;
    var again: seq<Event> := [SetOptions(false, Some("B")), Land(1), Settle(1, false), AfterSettle(1),
                              SetOptions(false, Some("A"))];
    var es := [SetOptions(false, Some("A")), Land(0), Settle(0, true), AfterSettle(0)] + again;
    var s1 := Step(Start(true, false, ""), es[0]);
    var s2 := Step(s1, Land(0));
    var s3 := Step(s2, Settle(0, true));
    var s4 := Step(s3, AfterSettle(0));
    assert s4 == State(true, false, None, Some("A"), false, map[], 1, multiset{}, "A", Some("A"), Some(("A", true)), Confirmed);
    RevertIsSkipped(s4, again);
    assert es[4..] == again;
    assert es == [SetOptions(false, Some("A")), Land(0), Settle(0, true), AfterSettle(0),
                  SetOptions(false, Some("B")), Land(1), Settle(1, false), AfterSettle(1),
                  SetOptions(false, Some("A"))];
    Onwards(s3, es[3..], s4);
    Onwards(s2, es[2..], s3);
    Onwards(s1, es[1..], s2);
    Onwards(Start(true, false, ""), es, s1);
  }

  lemma RevertIsSkipped(s: State, es: seq<Event>)
    requires s == State(true, false, None, Some("A"), false, map[], 1, multiset{}, "A", Some("A"), Some(("A", true)), Confirmed)
    requires es == [SetOptions(false, Some("B")), Land(1), Settle(1, false), AfterSettle(1), SetOptions(false, Some("A"))]
    ensures CanHappen(s, es)
    ensures var t := Run(s, es); Quiet(t) && t.wanted == Some("A") && t.stored == "B"
  {
    var s1 := Step(s, es[0]);
    var s2 := Step(s1, Land(1));
    var s3 := Step(s2, Settle(1, false));
    var s4 := Step(s3, AfterSettle(1));
    assert s4.calls == map[];
    var s5 := Step(s4, es[4]);
    hide Run, CanHappen;
    Finished(s5, es[5..]);
    Onwards(s4, es[4..], s5);
    Onwards(s3, es[3..], s4);
    Onwards(s2, es[2..], s3);
    Onwards(s1, es[1..], s2);
    Onwards(s, es, s1);
  }

  lemma Finished(s: State, es: seq<Event>)
    requires es == []
    ensures CanHappen(s, es) && Run(s, es) == s
  {
  }

  /**
   A host that writes between the landing of a call and its resolution keeps its value: when
   the options go back to JavaScript with the same configuration in that time, nothing is
   written again.
   */
  lemma HostWriteSurvivesSwitchBack()
    ensures var es := [SetOptions(false, Some("A")), Land(0), SetOptions(true, None), HostWrite("H"),
                       SetOptions(false, Some("A")), Settle(0, true), AfterSettle(0)];
            && CanHappen(Start(true, false, ""), es)
            && var s := Run(Start(true, false, ""), es); Quiet(s) && s.wanted == Some("A") && s.stored == "H"
  {
    hide Run, CanHappen;
    var back: seq<Event> := [SetOptions(false, Some("A")), Settle(0, true), AfterSettle(0)];
    var es := [SetOptions(false, Some("A")), Land(0), SetOptions(true, None), HostWrite("H")] + back;
    var s1 := Step(Start(true, false, ""), es[0]);
    var s2 := Step(s1, Land(0));
    var s3 := Step(s2, es[2]);
    var s4 := Step(s3, HostWrite("H"));
    assert s4 == State(true, true, None, None, true, map[0 := Call("A", true, None)], 1, multiset{}, "H", None, None, Stray("H"));
    BackIsSkipped(s4, back);
    assert es[4..] == back;
    assert es == [SetOptions(false, Some("A")), Land(0), SetOptions(true, None), HostWrite("H"),
                  SetOptions(false, Some("A")), Settle(0, true), AfterSettle(0)];
    Onwards(s3, es[3..], s4);
    Onwards(s2, es[2..], s3);
    Onwards(s1, es[1..], s2);
    Onwards(Start(true, false, ""), es, s1);
  }

  lemma BackIsSkipped(s: State, es: seq<Event>)
    requires s == State(true, true, None, None, true, map[0 := Call("A", true, None)], 1, multiset{}, "H", None, None, Stray("H"))
    requires es == [SetOptions(false, Some("A")), Settle(0, true), AfterSettle(0)]
    ensures CanHappen(s, es)
    ensures var t := Run(s, es); Quiet(t) && t.wanted == Some("A") && t.stored == "H"
  {
    hide Run, CanHappen;
    var s1 := Step(s, es[0]);
    var s2 := Step(s1, Settle(0, true));
    var s3 := Step(s2, AfterSettle(0));
    Finished(s3, es[3..]);
    Onwards(s2, es[2..], s3);
    Onwards(s1, es[1..], s2);
    Onwards(s, es, s1);
  }

  // ----- the object ---------------------------------------------------------------------------------------

  class Sync {
    var pendingNativeConfigJson: Option<string>
    var syncedNativeConfigJson: Option<string>
    var nativeConfigSyncInFlight: bool
    /** Whether the native side has the method, the option nativeConfigSource, the calls the bridge holds, and native storage. */
    const supported: bool
    var native: bool
    var calls: map<nat, Call>
    var next: nat
    var late: multiset<string>
    var stored: string
    ghost var wanted: Option<string>
    ghost var last: Option<(string, bool)>
    ghost var origin: Origin

    ghost function Value(): State
      reads this
    {
      State(supported, native, pendingNativeConfigJson, syncedNativeConfigJson, nativeConfigSyncInFlight, calls, next, late,
            stored, wanted, last, origin)
    }

    constructor (supported: bool, native: bool, stored: string)
      ensures Value() == Start(supported, native, stored)
    {
      pendingNativeConfigJson, syncedNativeConfigJson, nativeConfigSyncInFlight := None, None, false;
      this.supported, this.native, calls, next, late, this.stored := supported, native, map[], 0, multiset{}, stored;
      wanted, last, origin := None, None, Untouched;
    }

    method FlushNativeConfig()
      modifies this
      ensures Value() == Flushed(old(Value()))
    {
      if native {
        pendingNativeConfigJson, syncedNativeConfigJson := None, None;
        return;
      }
      if !supported || nativeConfigSyncInFlight {
        return;
      }
      var configJson := pendingNativeConfigJson;
      pendingNativeConfigJson := None;
      if configJson.None? || configJson.value == "" || configJson == syncedNativeConfigJson {
        return;
      }
      nativeConfigSyncInFlight := true;
      calls, next := calls[next := Call(configJson.value, false, None)], next + 1;
    }

    /** What a change of the options ends in; configJson is what the new ones make. */
    method SyncNativeConfig(source: bool, configJson: Option<string>)
      modifies this
      ensures Value() == Step(old(Value()), SetOptions(source, configJson))
    {
      native := source;
      if native {
        pendingNativeConfigJson, syncedNativeConfigJson := None, None;
        wanted := None;
        return;
      }
      if !supported || configJson.None? || configJson.value == "" {
        return;
      }
      wanted := configJson;
      pendingNativeConfigJson := configJson;
      FlushNativeConfig();
    }

    /** The then and catch callbacks. */
    method OnSettled(id: nat, ok: bool)
      requires Enabled(Value(), Settle(id, ok))
      modifies this
      ensures Value() == Step(old(Value()), Settle(id, ok))
    {
      var c := calls[id];
      calls := calls[id := c.(settled := Some(ok))];
      last := Some((c.config, ok));
      if origin == ByCall(id) {
        origin := if ok then Confirmed else Stray(c.config);
      }
      if ok {
        if !native {
          syncedNativeConfigJson := Some(c.config);
        }
      } else if !c.landed {
        late := late + multiset{c.config};
      }
    }

    /** The finally callback. */
    method OnFinally(id: nat)
      requires Enabled(Value(), AfterSettle(id))
      modifies this
      ensures Value() == Step(old(Value()), AfterSettle(id))
    {
      nativeConfigSyncInFlight := false;
      calls := calls - {id};
      FlushNativeConfig();
    }
  }
}
