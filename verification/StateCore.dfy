/**
 The crash-rollback state machine (cpp/patch_core/state_core.cpp:6-116): which version the
 next launch loads, and how a version that never reported success is rolled back.
 */
module StateCore {
  import Decision
  import FlowJson

  datatype State = State(
    packageVersion: string, buildTime: string, currentVersion: string, lastVersion: string,
    firstTime: bool, firstTimeOk: bool, rolledBackVersion: string)

  const FRESH := State("", "", "", "", false, true, "")

  datatype Launch = Launch(state: State, loadVersion: string, didRollback: bool, consumedFirstTime: bool)

  function SyncBinaryVersion(s: State, packageVersion: string, buildTime: string): State {
    if s.packageVersion == packageVersion && s.buildTime == buildTime then s
    else State(packageVersion, buildTime, "", "", false, true, "")
  }

  function SwitchVersion(s: State, hash: string): State {
    s.(lastVersion := if s.currentVersion != "" && s.currentVersion != hash then s.currentVersion else s.lastVersion,
       currentVersion := hash, firstTime := true, firstTimeOk := false, rolledBackVersion := "")
  }

  function MarkSuccess(s: State): State {
    s.(firstTime := false, firstTimeOk := true,
       lastVersion := if s.lastVersion != "" && s.lastVersion != s.currentVersion then "" else s.lastVersion)
  }

  /** The version MarkSuccess tells the host to delete, "" for none. */
  function StaleVersion(s: State): string {
    if s.lastVersion != "" && s.lastVersion != s.currentVersion then s.lastVersion else ""
  }

  function ClearFirstTime(s: State): State {
    s.(firstTime := false)
  }

  function ClearRollbackMark(s: State): State {
    s.(rolledBackVersion := "")
  }

  function Rollback(s: State): State {
    s.(currentVersion := s.lastVersion, lastVersion := "", firstTime := false, firstTimeOk := true,
       rolledBackVersion := s.currentVersion)
  }

  function ForgetPurgedVersions(s: State): State {
    s.(currentVersion := "", lastVersion := "", firstTime := false, firstTimeOk := true)
  }

  predicate ShouldRollbackForBrokenFirstLoad(s: State) {
    !s.firstTime && !s.firstTimeOk
  }

  function ResolveLaunchState(s: State, ignoreRollback: bool, consumeFirstTime: bool): Launch {
    if s.currentVersion == "" then Launch(s, "", false, false)
    else if !ignoreRollback && ShouldRollbackForBrokenFirstLoad(s) then
      Launch(Rollback(s), Rollback(s).currentVersion, true, false)
    else if !ignoreRollback && consumeFirstTime && s.firstTime then
      Launch(s.(firstTime := false), s.currentVersion, false, true)
    else Launch(s, s.currentVersion, false, false)
  }

  // ----- runs ------------------------------------------------------------------------------------

  datatype Operation =
    | Sync(packageVersion: string, buildTime: string)
    | Switch(hash: string)
    | Mark
    | ClearFirst
    | ClearRollback
    | RollBack
    | Forget
    | Resolve(ignoreRollback: bool, consumeFirstTime: bool)

  function Apply(s: State, o: Operation): State {
    match o
    case Sync(p, b) => SyncBinaryVersion(s, p, b)
    case Switch(hash) => SwitchVersion(s, hash)
    case Mark => MarkSuccess(s)
    case ClearFirst => ClearFirstTime(s)
    case ClearRollback => ClearRollbackMark(s)
    case RollBack => Rollback(s)
    case Forget => ForgetPurgedVersions(s)
    case Resolve(i, c) => ResolveLaunchState(s, i, c).state
  }

  function Run(s: State, os: seq<Operation>): State
    decreases |os|
  {
    if os == [] then s else Run(Apply(s, os[0]), os[1..])
  }

  /** Versions have names: the hosts reject a switch to a blank one. */
  predicate Named(os: seq<Operation>) {
    forall i :: 0 <= i < |os| && os[i].Switch? ==> os[i].hash != ""
  }

  /**
   A first launch is pending only for an unconfirmed version, and the version kept for
   rollback differs from the current one, which exists.
   */
  predicate Sound(s: State) {
    && (s.firstTime ==> !s.firstTimeOk)
    && (s.lastVersion != "" ==> s.currentVersion != "" && s.currentVersion != s.lastVersion)
  }

  /** Every operation keeps this, but for a switch to a blank version over another one. */
  lemma ApplyKeepsSound(s: State, o: Operation)
    requires Sound(s)
    ensures Sound(Apply(s, o)) <==> !(o.Switch? && o.hash == "" && s.currentVersion != "")
  {
  }

  lemma {:induction false} RunIsSound(s: State, os: seq<Operation>)
    requires Sound(s) && Named(os)
    ensures Sound(Run(s, os))
    decreases |os|
  {
    if os != [] {
      ApplyKeepsSound(s, os[0]);
      RunIsSound(Apply(s, os[0]), os[1..]);
    }
  }

  // ----- an unconfirmed version gets one launch ------------------------------------------------------

  predicate NoSwitchOrMark(os: seq<Operation>) {
    forall i :: 0 <= i < |os| ==> !os[i].Switch? && !os[i].Mark?
  }

  /** A launch that honours rollbacks will not load v: v is broken if it is current, and no target. */
  predicate Spent(s: State, v: string) {
    s.lastVersion != v && (s.currentVersion == v ==> ShouldRollbackForBrokenFirstLoad(s))
  }

  lemma {:induction false} StaysSpent(s: State, v: string, os: seq<Operation>)
    requires NoSwitchOrMark(os) && v != "" && Spent(s, v)
    ensures Spent(Run(s, os), v)
    decreases |os|
  {
    if os != [] {
      StaysSpent(Apply(s, os[0]), v, os[1..]);
    }
  }

  /**
   A version that a launch loaded, and whose first load is used up without its success having
   been reported, is loaded by no later launch that honours rollbacks: whatever else happens in
   between, short of another switch or a report of success, and however many launches that is.
   */
  lemma LoadedOnce(s: State, ignoreRollback: bool, consume: bool, between: seq<Operation>, consumeLater: bool)
    requires Sound(s) && NoSwitchOrMark(between)
    ensures var first := ResolveLaunchState(s, ignoreRollback, consume);
            var later := ResolveLaunchState(Run(first.state, between), false, consumeLater);
            first.loadVersion != "" && ShouldRollbackForBrokenFirstLoad(first.state) ==>
              later.loadVersion != first.loadVersion
    ensures var first := ResolveLaunchState(s, false, true);
            var later := ResolveLaunchState(Run(first.state, between), false, consumeLater);
            first.loadVersion != "" && !first.state.firstTimeOk ==> later.loadVersion != first.loadVersion
  {
    var first := ResolveLaunchState(s, ignoreRollback, consume);
    if first.loadVersion != "" && ShouldRollbackForBrokenFirstLoad(first.state) {
      StaysSpent(first.state, first.loadVersion, between);
    }
    var consuming := ResolveLaunchState(s, false, true);
    if consuming.loadVersion != "" && !consuming.state.firstTimeOk {
      StaysSpent(consuming.state, consuming.loadVersion, between);
    }
  }

  /** Operations that leave the versions alone, or forget all of them. */
  predicate Passive(os: seq<Operation>) {
    forall i :: 0 <= i < |os| ==> os[i].ClearFirst? || os[i].ClearRollback? || os[i].Sync?
  }

  lemma {:induction false} PassiveKeeps(s: State, os: seq<Operation>)
    requires Passive(os) && s.currentVersion != "" && !s.firstTime && !s.firstTimeOk
    ensures var t := Run(s, os);
            || (t.currentVersion == s.currentVersion && t.lastVersion == s.lastVersion && !t.firstTime && !t.firstTimeOk)
            || (t.currentVersion == "" && t.lastVersion == "")
    decreases |os|
  {
    if os != [] {
      var t := Apply(s, os[0]);
      if t.currentVersion == "" {
        EmptyStaysEmpty(t, os[1..]);
      } else {
        PassiveKeeps(t, os[1..]);
      }
    }
  }

  lemma {:induction false} EmptyStaysEmpty(s: State, os: seq<Operation>)
    requires Passive(os) && s.currentVersion == "" && s.lastVersion == ""
    ensures Run(s, os).currentVersion == "" && Run(s, os).lastVersion == ""
    decreases |os|
  {
    if os != [] {
      EmptyStaysEmpty(Apply(s, os[0]), os[1..]);
    }
  }

  /**
   When nothing else moves the versions, the later launch rolls back to lastVersion with the
   broken version marked, or finds no version at all.
   */
  lemma FallsBack(s: State, between: seq<Operation>, consumeLater: bool)
    requires Passive(between)
    ensures var first := ResolveLaunchState(s, false, true);
            var later := ResolveLaunchState(Run(first.state, between), false, consumeLater);
            first.loadVersion != "" && !first.state.firstTimeOk ==>
              && (later.didRollback ==> later.loadVersion == s.lastVersion && later.state.rolledBackVersion == first.loadVersion)
              && (!later.didRollback ==> later.loadVersion == "")
  {
    var first := ResolveLaunchState(s, false, true);
    if first.loadVersion != "" && !first.state.firstTimeOk {
      PassiveKeeps(first.state, between);
    }
  }

  // ----- rollback targets ----------------------------------------------------------------------------------

  /** The versions that reported success so far. */
  function Confirmed(s: State, os: seq<Operation>, before: set<string>): set<string>
    decreases |os|
  {
    if os == [] then before
    else Confirmed(Apply(s, os[0]), os[1..], before + if os[0].Mark? then {s.currentVersion} else {})
  }

  /** Switches start only from a state that is confirmed, or from the packaged bundle. */
  predicate SwitchesFromConfirmed(s: State, os: seq<Operation>)
    decreases |os|
  {
    os == [] || ((os[0].Switch? ==> s.firstTimeOk || s.currentVersion == "") && SwitchesFromConfirmed(Apply(s, os[0]), os[1..]))
  }

  predicate Trusted(s: State, confirmed: set<string>) {
    && (s.lastVersion == "" || s.lastVersion in confirmed)
    && (s.firstTimeOk ==> s.currentVersion == "" || s.currentVersion in confirmed)
  }

  lemma {:induction false} TargetsTrusted(s: State, os: seq<Operation>, confirmed: set<string>)
    requires Trusted(s, confirmed) && SwitchesFromConfirmed(s, os)
    ensures Trusted(Run(s, os), Confirmed(s, os, confirmed))
    decreases |os|
  {
    if os != [] {
      TargetsTrusted(Apply(s, os[0]), os[1..], confirmed + if os[0].Mark? then {s.currentVersion} else {});
    }
  }

  /** A rollback now would land on a version that reported success, or on the packaged bundle. */
  predicate TargetOk(s: State, confirmed: set<string>) {
    Rollback(s).currentVersion == "" || Rollback(s).currentVersion in confirmed
  }

  /** The version a switch replaces is confirmed, is the same one, or is the packaged bundle. */
  predicate SwitchOk(s: State, hash: string, confirmed: set<string>) {
    s.currentVersion == "" || s.currentVersion == hash || s.currentVersion in confirmed
  }

  lemma {:induction false} RunSnoc(s: State, os: seq<Operation>, k: nat, confirmed: set<string>)
    requires k < |os|
    ensures var t, c := Run(s, os[..k]), Confirmed(s, os[..k], confirmed);
            && Run(s, os[..k + 1]) == Apply(t, os[k])
            && Confirmed(s, os[..k + 1], confirmed) == c + if os[k].Mark? then {t.currentVersion} else {}
    decreases k
  {
    if k == 0 {
      assert os[..1][1..] == [] && os[..0] == [];
    } else {
      assert os[..k][1..] == os[1..][..k - 1] && os[..k + 1][1..] == os[1..][..k];
      RunSnoc(Apply(s, os[0]), os[1..], k - 1, confirmed + if os[0].Mark? then {s.currentVersion} else {});
    }
  }

  /** Only a switch can spoil the target, and it does exactly when it replaces an unconfirmed version. */
  lemma StepTarget(s: State, o: Operation, confirmed: set<string>)
    requires TargetOk(s, confirmed)
    ensures TargetOk(Apply(s, o), confirmed + if o.Mark? then {s.currentVersion} else {}) <==>
            (o.Switch? ==> SwitchOk(s, o.hash, confirmed))
  {
  }

  /**
   Exactly when, at every moment of a run, a rollback would land on a version that reported
   success or on the packaged bundle: every switch of the run replaces a version that was
   confirmed by then, or the same version, or the packaged bundle.
   */
  lemma RollbackTargetsIff(s: State, os: seq<Operation>, confirmed: set<string>)
    requires TargetOk(s, confirmed)
    ensures (forall k :: 0 <= k <= |os| ==> TargetOk(Run(s, os[..k]), Confirmed(s, os[..k], confirmed))) <==>
            (forall k :: 0 <= k < |os| && os[k].Switch? ==>
               SwitchOk(Run(s, os[..k]), os[k].hash, Confirmed(s, os[..k], confirmed)))
  {
    hide TargetOk, SwitchOk, Run, Confirmed, Apply;
    if forall k :: 0 <= k <= |os| ==> TargetOk(Run(s, os[..k]), Confirmed(s, os[..k], confirmed)) {
      forall k | 0 <= k < |os| && os[k].Switch?
        ensures SwitchOk(Run(s, os[..k]), os[k].hash, Confirmed(s, os[..k], confirmed))
      {
        RunSnoc(s, os, k, confirmed);
        StepTarget(Run(s, os[..k]), os[k], Confirmed(s, os[..k], confirmed));
      }
    }
    if forall k :: 0 <= k < |os| && os[k].Switch? ==>
         SwitchOk(Run(s, os[..k]), os[k].hash, Confirmed(s, os[..k], confirmed))
    {
      forall k | 0 <= k <= |os| ensures TargetOk(Run(s, os[..k]), Confirmed(s, os[..k], confirmed)) {
        TargetsFollow(s, os, confirmed, k);
      }
    }
  }

  lemma {:induction false} TargetsFollow(s: State, os: seq<Operation>, confirmed: set<string>, k: nat)
    requires TargetOk(s, confirmed) && k <= |os|
    requires forall i :: 0 <= i < |os| && os[i].Switch? ==>
               SwitchOk(Run(s, os[..i]), os[i].hash, Confirmed(s, os[..i], confirmed))
    ensures TargetOk(Run(s, os[..k]), Confirmed(s, os[..k], confirmed))
  {
    hide TargetOk, SwitchOk, Apply;
    if k == 0 {
      assert os[..0] == [];
    } else {
      TargetsFollow(s, os, confirmed, k - 1);
      RunSnoc(s, os, k - 1, confirmed);
      StepTarget(Run(s, os[..k - 1]), os[k - 1], Confirmed(s, os[..k - 1], confirmed));
    }
  }

  /**
   If switches start only from a confirmed state, every rollback, whenever it happens, lands
   on a version that reported success or on the packaged bundle.
   */
  lemma RollbackTargets(os: seq<Operation>)
    requires SwitchesFromConfirmed(FRESH, os)
    ensures var target := Rollback(Run(FRESH, os)).currentVersion;
            target == "" || target in Confirmed(FRESH, os, {})
  {
    TargetsTrusted(FRESH, os, {});
  }

  /** Switching twice without a launch in between keeps an unconfirmed version as the target. */
  lemma TwoSwitchesDefeatRollback()
    ensures var os := [Switch("A"), Switch("B")];
            && Named(os) && Rollback(Run(FRESH, os)).currentVersion == "A" && Confirmed(FRESH, os, {}) == {}
  {
    var os: seq<Operation> := [Switch("A"), Switch("B")];
    var a := Apply(FRESH, Switch("A"));
    assert os[1..] == [Switch("B")] && os[1..][1..] == [];
    assert Run(FRESH, os) == Run(a, os[1..]);
    assert Run(a, os[1..]) == Run(Apply(a, Switch("B")), []);
    assert Confirmed(FRESH, os, {}) == Confirmed(a, os[1..], {}) == Confirmed(Apply(a, Switch("B")), [], {});
  }

  // ----- versions that are gone --------------------------------------------------------------------------------

  /** The operations that leave the rollback mark of a settled state alone. */
  predicate KeepsMark(os: seq<Operation>) {
    forall i :: 0 <= i < |os| ==> os[i].Mark? || os[i].ClearFirst? || os[i].Forget? || os[i].Resolve?
  }

  lemma {:induction false} MarkStays(s: State, os: seq<Operation>)
    requires s.firstTimeOk && KeepsMark(os)
    ensures Run(s, os).rolledBackVersion == s.rolledBackVersion
    decreases |os|
  {
    if os != [] {
      MarkStays(Apply(s, os[0]), os[1..]);
    }
  }

  /**
   After a rollback, and until its mark is cleared or overwritten, no response makes the device
   download the version it rolled back from.
   */
  lemma RolledBackIsNotOffered(s: State, after: seq<Operation>, text: string, id: Decision.Identity, isDev: bool, afterDownload: string)
    requires s.currentVersion != "" && KeepsMark(after)
    requires id.rolledBackVersion == FlowJson.String(Run(Rollback(s), after).rolledBackVersion)
    ensures var d := Decision.HandleResponse(text, id, isDev, afterDownload).decision;
            d.Download? ==> !FlowJson.StrictEquals(d.hash, FlowJson.String(s.currentVersion))
  {
    hide Decision.HandleResponse, Run;
    MarkStays(Rollback(s), after);
    Decision.NeverReinstalls(text, id, isDev, afterDownload);
  }

  predicate NeverSwitchedTo(os: seq<Operation>, v: string) {
    forall i :: 0 <= i < |os| ==> os[i] != Switch(v)
  }

  lemma {:induction false} StaysGone(s: State, v: string, os: seq<Operation>)
    requires v != "" && s.currentVersion != v && s.lastVersion != v && NeverSwitchedTo(os, v)
    ensures Run(s, os).currentVersion != v && Run(s, os).lastVersion != v
    decreases |os|
  {
    if os != [] {
      StaysGone(Apply(s, os[0]), v, os[1..]);
    }
  }

  /**
   A version that a report of success told the host to delete is never again loaded or kept as
   a rollback target, whatever happens, unless it is switched to anew.
   */
  lemma StaleIsUnused(s: State, after: seq<Operation>, ignoreRollback: bool, consume: bool)
    requires Sound(s) && StaleVersion(s) != "" && NeverSwitchedTo(after, StaleVersion(s))
    ensures var t := Run(MarkSuccess(s), after);
            && ResolveLaunchState(t, ignoreRollback, consume).loadVersion != StaleVersion(s)
            && Rollback(t).currentVersion != StaleVersion(s)
  {
    StaysGone(MarkSuccess(s), StaleVersion(s), after);
  }
}
