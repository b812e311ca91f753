/**
 The resumable migration of stored items (cpp/patch_core/stored_items.cpp:27-223): what a
 legacy store contributes to the state store, and which of its keys are deleted afterwards.
 Stores are sequences of pairs with distinct keys, in store order.
 */
module StoredItems {
  import opened Wrappers

  datatype Entry = Entry(key: string, value: string)

  /** A carried item; a marker is stored as "1" whatever the legacy value. */
  datatype Carried = Carried(to: string, from: string, marker: bool)

  datatype Layout = Layout(carried: seq<Carried>, dropped: seq<string>, droppedPrefixes: seq<string>)

  const SCHEMA_VERSION: nat := 1
  const SCHEMA_VERSION_KEY := "schemaVersion"

  const PLAIN := Layout(
    [Carried("uuid", "uuid", false), Carried("nativeConfig", "nativeConfig", false),
     Carried("nativeCheckIncomplete", "nativeCheckIncomplete", true),
     Carried("bundleHashCache", "bundleHashCache", false),
     Carried("packageVersion", "packageVersion", false), Carried("buildTime", "buildTime", false)],
    ["currentVersion", "lastVersion", "firstTime", "firstTimeOk", "rolledBackVersion", "firstLoadMarked",
     "nativeCheckResp", "rolledBack", "shouldRollback", "blockUntil", "blockReason"],
    ["hash_"])

  const PREFIXED := Layout(
    [Carried("uuid", "REACTNATIVECN_PUSHY_UUID", false),
     Carried("nativeConfig", "REACTNATIVECN_PUSHY_NATIVE_CONFIG_KEY", false),
     Carried("nativeCheckIncomplete", "REACTNATIVECN_PUSHY_NATIVE_CHECK_INCOMPLETE_KEY", true),
     Carried("bundleHashCache", "REACTNATIVECN_PUSHY_BUNDLEHASH_KEY", false),
     Carried("packageVersion", "REACTNATIVECN_PUSHY_PACKAGEVERSION", false),
     Carried("buildTime", "REACTNATIVECN_PUSHY_BUILDTIME", false)],
    ["REACTNATIVECN_PUSHY_INFO_KEY", "REACTNATIVECN_PUSHY_FIRSTLOADMARKED_KEY",
     "REACTNATIVECN_PUSHY_ROLLEDBACKMARKED_KEY", "REACTNATIVECN_PUSHY_ISPACKAGEUPDATEDMARKED_KEY",
     "REACTNATIVECN_PUSHY_NATIVE_CHECK_RESP_KEY", "REACTNATIVECN_PUSHY_BLOCKUPDATE",
     "REACTNATIVECN_PUSHY_BUNDLEHASH_IDENTITY", "REACTNATIVECN_PUSHY_BUNDLEHASH_VALUE"],
    ["REACTNATIVECN_PUSHY_HASH_"])

  /** Android and Harmony share a layout. */
  function FindLayout(id: int): Option<Layout> {
    if id == 1 || id == 3 then Some(PLAIN) else if id == 2 then Some(PREFIXED) else None
  }

  predicate HasPrefix(s: string, p: string) {
    |p| <= |s| && s[..|p|] == p
  }

  predicate Owns(layout: Layout, key: string) {
    || (exists i :: 0 <= i < |layout.carried| && layout.carried[i].from == key)
    || key in layout.dropped
    || (exists i :: 0 <= i < |layout.droppedPrefixes| && HasPrefix(key, layout.droppedPrefixes[i]))
  }

  /** The value of a key, "" when absent. */
  function Lookup(es: seq<Entry>, key: string): string {
    if es == [] then "" else if es[0].key == key then es[0].value else Lookup(es[1..], key)
  }

  // ----- the schema version -----------------------------------------------------------------

  function Decimal(s: string, version: nat): nat
    requires forall i :: 0 <= i < |s| ==> '0' <= s[i] <= '9'
    decreases |s|
  {
    if s == "" then version else Decimal(s[1..], version * 10 + (s[0] as nat - '0' as nat))
  }

  predicate IsPlainDecimal(s: string) {
    1 <= |s| <= 9 && s[0] != '0' && forall i :: 0 <= i < |s| ==> '0' <= s[i] <= '9'
  }

  /** 0 for anything but a plain positive decimal of at most nine digits. */
  function ParseSchemaVersion(value: string): nat {
    if IsPlainDecimal(value) then Decimal(value, 0) else 0
  }

  method ScanSchemaVersion(value: string) returns (version: nat)
    ensures version == ParseSchemaVersion(value)
  {
    if value == "" || |value| > 9 || value[0] == '0' {
      return 0;
    }
    version := 0;
    var i := 0;
    assert value[0..] == value;
    while i < |value|
      invariant i <= |value| && forall k :: 0 <= k < i ==> '0' <= value[k] <= '9'
      invariant (forall k :: 0 <= k < |value| ==> '0' <= value[k] <= '9') ==> Decimal(value[i..], version) == Decimal(value, 0)
    {
      if value[i] < '0' || value[i] > '9' {
        return 0;
      }
      assert value[i..][1..] == value[i + 1..] && value[i..][0] == value[i];
      version := version * 10 + (value[i] as nat - '0' as nat);
      i := i + 1;
    }
    assert value[i..] == "";
  }

  lemma {:induction false} DecimalGrows(s: string, version: nat)
    requires forall i :: 0 <= i < |s| ==> '0' <= s[i] <= '9'
    ensures Decimal(s, version) >= version
    decreases |s|
  {
    if s != "" {
      DecimalGrows(s[1..], version * 10 + (s[0] as nat - '0' as nat));
    }
  }

  /** The stored version reads as 0 exactly when it is not a plain positive decimal. */
  lemma SchemaVersionIsPositive(value: string)
    ensures ParseSchemaVersion(value) > 0 <==> IsPlainDecimal(value)
  {
    if IsPlainDecimal(value) {
      DecimalGrows(value[1..], value[0] as nat - '0' as nat);
    }
  }

  // ----- the plan ---------------------------------------------------------------------------------

  /** What MigrateStoredItems decides, when it knows the layout. */
  datatype Plan = Plan(schemaVersion: nat, migrated: bool, puts: seq<Entry>, removes: seq<string>)

  function Keys(es: seq<Entry>): set<string> {
    set i | 0 <= i < |es| :: es[i].key
  }

  predicate Owned(layout: Layout, legacy: seq<Entry>, key: string) {
    key in Keys(legacy) && Owns(layout, key)
  }

  /** The order of std::sort on strings: byte by byte, a prefix first. */
  predicate Before(a: string, b: string) {
    b != "" && (a == "" || a[0] < b[0] || (a[0] == b[0] && Before(a[1..], b[1..])))
  }

  predicate Ascending(ks: seq<string>) {
    forall i, j :: 0 <= i < j < |ks| ==> Before(ks[i], ks[j])
  }

  /** A key put at its place; one that is there already changes nothing. */
  function Insert(ks: seq<string>, k: string): seq<string> {
    if ks == [] then [k]
    else if k == ks[0] then ks
    else if Before(k, ks[0]) then [k] + ks
    else [ks[0]] + Insert(ks[1..], k)
  }

  /** The legacy keys the layout owns, sorted, each once. */
  function OwnedKeys(layout: Layout, legacy: seq<Entry>): seq<string> {
    if legacy == [] then []
    else
      var rest := OwnedKeys(layout, legacy[1..]);
      if Owns(layout, legacy[0].key) then Insert(rest, legacy[0].key) else rest
  }

  // ----- sorted keys ------------------------------------------------------------------------------

  lemma {:induction false} BeforeIsStrict(a: string, b: string)
    ensures !(Before(a, b) && Before(b, a)) && (a == b ==> !Before(a, b))
    ensures a == b || Before(a, b) || Before(b, a)
  {
    if a != "" && b != "" && a[0] == b[0] {
      BeforeIsStrict(a[1..], b[1..]);
      assert a == [a[0]] + a[1..] && b == [b[0]] + b[1..];
    }
  }

  lemma {:induction false} BeforeIsTransitive(a: string, b: string, c: string)
    requires Before(a, b) && Before(b, c)
    ensures Before(a, c)
  {
    if a != "" && a[0] == b[0] == c[0] {
      BeforeIsTransitive(a[1..], b[1..], c[1..]);
    }
  }

  lemma {:induction false} InsertKeeps(ks: seq<string>, k: string)
    requires Ascending(ks)
    ensures Ascending(Insert(ks, k)) && forall x :: x in Insert(ks, k) <==> x == k || x in ks
  {
    hide Before;
    if ks != [] {
      var rest := ks[1..];
      assert Ascending(rest);
      BeforeIsStrict(k, ks[0]);
      if Before(k, ks[0]) {
        forall j | 0 <= j < |ks| ensures Before(k, ks[j]) {
          if j > 0 {
            BeforeIsTransitive(k, ks[0], ks[j]);
          }
        }
      } else if k != ks[0] {
        InsertKeeps(rest, k);
        forall x | x in Insert(rest, k) ensures Before(ks[0], x) {
          if x != k {
            var j :| 0 <= j < |rest| && rest[j] == x;
            assert ks[j + 1] == x;
          }
        }
      }
    }
  }

  /** Sorted sequences with the same elements are the same. */
  lemma {:induction false} AscendingIsUnique(a: seq<string>, b: seq<string>)
    requires Ascending(a) && Ascending(b) && forall x :: x in a <==> x in b
    ensures a == b
    decreases |a|
  {
    hide Before;
    if a == [] {
      SomeOf(b);
    } else {
      assert a[0] in b && b != [] && b[0] in a;
      if a[0] != b[0] {
        BeforeIsStrict(a[0], b[0]);
        assert false;
      }
      forall x ensures x in a[1..] <==> x in b[1..] {
        RestOf(a, x);
        RestOf(b, x);
      }
      AscendingIsUnique(a[1..], b[1..]);
    }
  }

  lemma SomeOf(ks: seq<string>)
    ensures ks != [] ==> exists x :: x in ks
  {
    if ks != [] {
      assert ks[0] in ks;
    }
  }

  lemma RestOf(ks: seq<string>, x: string)
    requires Ascending(ks) && ks != []
    ensures x in ks[1..] <==> x in ks && x != ks[0]
  {
    hide Before;
    BeforeIsStrict(ks[0], ks[0]);
    if x in ks[1..] {
      var j :| 0 <= j < |ks[1..]| && ks[1..][j] == x;
      assert Before(ks[0], ks[j + 1]);
    }
  }

  lemma {:induction false} OwnedKeysLaws(layout: Layout, legacy: seq<Entry>)
    ensures var ks := OwnedKeys(layout, legacy); Ascending(ks) && forall k :: k in ks <==> Owned(layout, legacy, k)
  {
    hide Owns, Before, Insert, Ascending;
    if legacy == [] {
      NothingAscends();
    } else {
      OwnedKeysLaws(layout, legacy[1..]);
      KeysOf(legacy);
      if Owns(layout, legacy[0].key) {
        InsertKeeps(OwnedKeys(layout, legacy[1..]), legacy[0].key);
      }
    }
  }

  lemma NothingAscends()
    ensures Ascending([])
  {
  }

  function PutValue(item: Carried, value: string): string {
    if item.marker then "1" else value
  }

  /** What the carried items contribute; the store wins over the legacy store. */
  function CarriedPuts(items: seq<Carried>, legacy: seq<Entry>, current: seq<Entry>): seq<Entry> {
    if items == [] then []
    else
      var value := Lookup(legacy, items[0].from);
      (if value == "" || Lookup(current, items[0].to) != "" then [] else [Entry(items[0].to, PutValue(items[0], value))]) +
      CarriedPuts(items[1..], legacy, current)
  }

  const SCHEMA_ENTRY := Entry(SCHEMA_VERSION_KEY, "1")

  function MigrateStoredItems(layoutId: int, legacy: seq<Entry>, current: seq<Entry>): Option<Plan> {
    match FindLayout(layoutId)
    case None => None
    case Some(layout) =>
      var stored := ParseSchemaVersion(Lookup(current, SCHEMA_VERSION_KEY));
      if stored > SCHEMA_VERSION then Some(Plan(stored, false, [], []))
      else if stored == SCHEMA_VERSION then Some(Plan(SCHEMA_VERSION, false, [], OwnedKeys(layout, legacy)))
      else
        Some(Plan(SCHEMA_VERSION, true, CarriedPuts(layout.carried, legacy, current) + [SCHEMA_ENTRY],
                  OwnedKeys(layout, legacy)))
  }

  method Migrate(layoutId: int, legacy: seq<Entry>, current: seq<Entry>) returns (plan: Option<Plan>)
    ensures plan == MigrateStoredItems(layoutId, legacy, current)
  {
    hide CarriedPuts, Owns, ParseSchemaVersion;
    var found := FindLayout(layoutId);
    if found.None? {
      return None;
    }
    var layout := found.value;
    var stored := ScanSchemaVersion(Lookup(current, SCHEMA_VERSION_KEY));
    if stored > SCHEMA_VERSION {
      return Some(Plan(stored, false, [], []));
    }
    var removes := GatherRemoves(layout, legacy);
    if stored == SCHEMA_VERSION {
      return Some(Plan(SCHEMA_VERSION, false, [], removes));
    }
    var puts := GatherPuts(layout.carried, legacy, current);
    plan := Some(Plan(SCHEMA_VERSION, true, puts + [SCHEMA_ENTRY], removes));
  }

  method GatherRemoves(layout: Layout, legacy: seq<Entry>) returns (removes: seq<string>)
    ensures removes == OwnedKeys(layout, legacy)
  {
    hide Owns, Ascending, Insert;
    removes := [];
    NothingAscends();
    var i := 0;
    while i < |legacy|
      invariant i <= |legacy| && Ascending(removes)
      invariant forall k :: k in removes <==> Owns(layout, k) && exists j :: 0 <= j < i && legacy[j].key == k
    {
      if Owns(layout, legacy[i].key) {
        InsertKeeps(removes, legacy[i].key);
        removes := Insert(removes, legacy[i].key);
      }
      i := i + 1;
    }
    OwnedKeysLaws(layout, legacy);
    AscendingIsUnique(removes, OwnedKeys(layout, legacy));
  }

  method GatherPuts(items: seq<Carried>, legacy: seq<Entry>, current: seq<Entry>) returns (puts: seq<Entry>)
    ensures puts == CarriedPuts(items, legacy, current)
  {
    puts := [];
    var i := 0;
    assert items[0..] == items;
    while i < |items|
      invariant i <= |items| && puts + CarriedPuts(items[i..], legacy, current) == CarriedPuts(items, legacy, current)
    {
      var item := items[i];
      assert items[i..][1..] == items[i + 1..] && items[i..][0] == item;
      i := i + 1;
      var value := Lookup(legacy, item.from);
      if value == "" || Lookup(current, item.to) != "" {
        assert puts + [] == puts;
        continue;
      }
      puts := puts + [Entry(item.to, PutValue(item, value))];
    }
  }

  // ----- applying a plan -----------------------------------------------------------------------------

  function Put(es: seq<Entry>, e: Entry): seq<Entry> {
    if es == [] then [e] else if es[0].key == e.key then [e] + es[1..] else [es[0]] + Put(es[1..], e)
  }

  function PutAll(es: seq<Entry>, puts: seq<Entry>): seq<Entry>
    decreases |puts|
  {
    if puts == [] then es else PutAll(Put(es, puts[0]), puts[1..])
  }

  function RemoveAll(es: seq<Entry>, keys: set<string>): seq<Entry> {
    if es == [] then [] else (if es[0].key in keys then [] else [es[0]]) + RemoveAll(es[1..], keys)
  }

  lemma {:induction false} PutLookup(es: seq<Entry>, e: Entry, key: string)
    ensures Lookup(Put(es, e), key) == if key == e.key then e.value else Lookup(es, key)
  {
    if es != [] {
      PutLookup(es[1..], e, key);
      if es[0].key == e.key {
        assert ([e] + es[1..])[1..] == es[1..];
      } else {
        assert ([es[0]] + Put(es[1..], e))[1..] == Put(es[1..], e);
      }
    }
  }

  /** The targets of a layout differ from each other and from the schema key. */
  predicate DistinctTargets(items: seq<Carried>) {
    && (forall i, j :: 0 <= i < j < |items| ==> items[i].to != items[j].to)
    && forall i :: 0 <= i < |items| ==> items[i].to != SCHEMA_VERSION_KEY
  }

  // ----- what a plan says -------------------------------------------------------------------------------

  /** Every put but the last carries an item: a legacy value under a key the store has nothing for. */
  predicate CarriedOver(items: seq<Carried>, legacy: seq<Entry>, current: seq<Entry>, e: Entry) {
    exists i :: 0 <= i < |items| && items[i].to == e.key && Lookup(legacy, items[i].from) != "" &&
                e.value == PutValue(items[i], Lookup(legacy, items[i].from)) && Lookup(current, e.key) == ""
  }

  lemma {:induction false} PutsAreCarried(items: seq<Carried>, legacy: seq<Entry>, current: seq<Entry>)
    ensures forall e :: e in CarriedPuts(items, legacy, current) ==> CarriedOver(items, legacy, current, e) && e.value != ""
  {
    hide Lookup;
    if items != [] {
      var rest := items[1..];
      PutsAreCarried(rest, legacy, current);
      forall e | e in CarriedPuts(items, legacy, current)
        ensures CarriedOver(items, legacy, current, e) && e.value != ""
      {
        if e in CarriedPuts(rest, legacy, current) {
          var i :| 0 <= i < |rest| && rest[i].to == e.key && Lookup(legacy, rest[i].from) != "" &&
                   e.value == PutValue(rest[i], Lookup(legacy, rest[i].from)) && Lookup(current, e.key) == "";
          assert items[i + 1] == rest[i];
        } else {
          assert items[0].to == e.key;
        }
      }
    }
  }

  /** And every item with a legacy value and none in the store is carried. */
  lemma {:induction false} ItemsAreCarried(items: seq<Carried>, legacy: seq<Entry>, current: seq<Entry>, i: nat)
    requires i < |items| && Lookup(legacy, items[i].from) != "" && Lookup(current, items[i].to) == ""
    ensures Entry(items[i].to, PutValue(items[i], Lookup(legacy, items[i].from))) in CarriedPuts(items, legacy, current)
  {
    hide Lookup;
    if i > 0 {
      ItemsAreCarried(items[1..], legacy, current, i - 1);
    }
  }

  /**
   The schema version is the last put and is put once; every other put carries an item whose
   target reads as empty in the store; and only keys the layout owns are removed.
   */
  lemma PlanLaws(id: int, legacy: seq<Entry>, current: seq<Entry>)
    requires FindLayout(id).Some?
    ensures var layout, plan := FindLayout(id).value, MigrateStoredItems(id, legacy, current).value;
            && (plan.puts != [] ==> plan.puts[|plan.puts| - 1] == SCHEMA_ENTRY)
            && (forall i :: 0 <= i < |plan.puts| - 1 ==>
                  CarriedOver(layout.carried, legacy, current, plan.puts[i]) && plan.puts[i].key != SCHEMA_VERSION_KEY)
            && (plan.puts != [] <==> !IsPlainDecimal(Lookup(current, SCHEMA_VERSION_KEY)))
            && Ascending(plan.removes)
            && (if plan.schemaVersion > SCHEMA_VERSION then plan.puts == [] && plan.removes == []
                else forall k :: k in plan.removes <==> Owned(layout, legacy, k))
  {
    hide Before, Owns, CarriedPuts, CarriedOver, Lookup;
    var layout := FindLayout(id).value;
    OwnedKeysLaws(layout, legacy);
    NothingAscends();
    SchemaVersionIsPositive(Lookup(current, SCHEMA_VERSION_KEY));
    PutsAreCarried(layout.carried, legacy, current);
    var puts := CarriedPuts(layout.carried, legacy, current);
    forall i | 0 <= i < |puts|
      ensures puts[i].key != SCHEMA_VERSION_KEY
    {
      assert puts[i] in puts;
      TargetIsNotSchema(layout.carried, legacy, current, puts[i]);
    }
  }

  lemma TargetIsNotSchema(items: seq<Carried>, legacy: seq<Entry>, current: seq<Entry>, e: Entry)
    requires DistinctTargets(items) && CarriedOver(items, legacy, current, e)
    ensures e.key != SCHEMA_VERSION_KEY
  {
  }

  /** Some put goes to a key the store already holds. */
  predicate Overwrites(plan: Plan, current: seq<Entry>) {
    exists e :: e in plan.puts && e.key in Keys(current)
  }

  /** The store holds an item under its target, but with an empty value, and the legacy store has one. */
  predicate HeldEmpty(item: Carried, legacy: seq<Entry>, current: seq<Entry>) {
    item.to in Keys(current) && Lookup(current, item.to) == "" && Lookup(legacy, item.from) != ""
  }

  /**
   Exactly when a plan overwrites a key the store holds: the schema version in the store is no
   plain number, and it is held all the same, or some item to carry is held with an empty value.
   */
  lemma OverwritesIff(id: int, legacy: seq<Entry>, current: seq<Entry>)
    requires FindLayout(id).Some?
    ensures var layout, plan := FindLayout(id).value, MigrateStoredItems(id, legacy, current).value;
            Overwrites(plan, current) <==>
            && !IsPlainDecimal(Lookup(current, SCHEMA_VERSION_KEY))
            && (|| SCHEMA_VERSION_KEY in Keys(current)
                || exists i :: 0 <= i < |layout.carried| && HeldEmpty(layout.carried[i], legacy, current))
  {
    hide CarriedPuts, Owns, Lookup;
    var layout, plan := FindLayout(id).value, MigrateStoredItems(id, legacy, current).value;
    var items, puts := layout.carried, CarriedPuts(layout.carried, legacy, current);
    SchemaVersionIsPositive(Lookup(current, SCHEMA_VERSION_KEY));
    PutsAreCarried(items, legacy, current);
    if plan.puts != [] {
      assert plan.puts == puts + [SCHEMA_ENTRY];
      forall e | e in puts && e.key in Keys(current)
        ensures exists i :: 0 <= i < |items| && HeldEmpty(items[i], legacy, current)
      {
        assert CarriedOver(items, legacy, current, e);
      }
      assert SCHEMA_ENTRY in plan.puts;
      forall i | 0 <= i < |items| && HeldEmpty(items[i], legacy, current)
        ensures Overwrites(plan, current)
      {
        ItemsAreCarried(items, legacy, current, i);
        assert Entry(items[i].to, PutValue(items[i], Lookup(legacy, items[i].from))) in plan.puts;
      }
    }
  }

  /** A schema version the store cannot read as one is overwritten. */
  lemma UnreadableSchemaIsOverwritten()
    ensures var current := [Entry(SCHEMA_VERSION_KEY, "x")];
            && Lookup(current, SCHEMA_VERSION_KEY) == "x"
            && MigrateStoredItems(1, [], current).value.puts == [SCHEMA_ENTRY]
            && Overwrites(MigrateStoredItems(1, [], current).value, current)
  {
    var current := [Entry(SCHEMA_VERSION_KEY, "x")];
    assert !IsPlainDecimal("x");
    NothingToCarry(PLAIN.carried, current);
    assert current[0].key in Keys(current) && SCHEMA_ENTRY in [SCHEMA_ENTRY];
  }

  /** An empty identifier in a store without a schema version is overwritten by the legacy one. */
  lemma EmptyValueIsOverwritten()
    ensures var legacy, current := [Entry("uuid", "x")], [Entry("uuid", "")];
            var puts := MigrateStoredItems(1, legacy, current).value.puts;
            Entry("uuid", "x") in puts && "uuid" in Keys(current)
  {
    hide CarriedPuts;
    var legacy, current := [Entry("uuid", "x")], [Entry("uuid", "")];
    var i :| 0 <= i < |PLAIN.carried| && PLAIN.carried[i] == Carried("uuid", "uuid", false);
    assert current[0].key in Keys(current) && !IsPlainDecimal("");
    assert Lookup(current, SCHEMA_VERSION_KEY) == "";
    ItemsAreCarried(PLAIN.carried, legacy, current, i);
  }

  lemma {:induction false} NothingToCarry(items: seq<Carried>, current: seq<Entry>)
    ensures CarriedPuts(items, [], current) == []
  {
    if items != [] {
      NothingToCarry(items[1..], current);
    }
  }

  // ----- resuming ---------------------------------------------------------------------------------------------

  lemma {:induction false} OtherPut(items: seq<Carried>, legacy: seq<Entry>, current: seq<Entry>, e: Entry)
    requires forall i :: 0 <= i < |items| ==> items[i].to != e.key
    ensures CarriedPuts(items, legacy, Put(current, e)) == CarriedPuts(items, legacy, current)
  {
    hide Lookup, Put;
    if items != [] {
      PutLookup(current, e, items[0].to);
      OtherPut(items[1..], legacy, current, e);
    }
  }

  /** After the first put, the rest of the puts is what is left to carry. */
  lemma {:induction false} FirstPut(items: seq<Carried>, legacy: seq<Entry>, current: seq<Entry>)
    requires DistinctTargets(items) && CarriedPuts(items, legacy, current) != []
    ensures var puts := CarriedPuts(items, legacy, current);
            CarriedPuts(items, legacy, Put(current, puts[0])) == puts[1..]
  {
    hide Lookup, Put;
    var puts, rest := CarriedPuts(items, legacy, current), items[1..];
    var e := puts[0];
    assert DistinctTargets(rest) by {
      assert forall i :: 0 <= i < |rest| ==> rest[i] == items[i + 1];
    }
    PutLookup(current, e, items[0].to);
    if Lookup(legacy, items[0].from) == "" || Lookup(current, items[0].to) != "" {
      FirstPut(rest, legacy, current);
      PutsAreCarried(rest, legacy, current);
      assert e in CarriedPuts(rest, legacy, current);
    } else {
      OtherPut(rest, legacy, current, e);
      assert puts[1..] == CarriedPuts(rest, legacy, current);
    }
  }

  lemma {:induction false} SomePuts(items: seq<Carried>, legacy: seq<Entry>, current: seq<Entry>, k: nat)
    requires DistinctTargets(items) && k <= |CarriedPuts(items, legacy, current)|
    ensures var puts := CarriedPuts(items, legacy, current);
            && CarriedPuts(items, legacy, PutAll(current, puts[..k])) == puts[k..]
            && Lookup(PutAll(current, puts[..k]), SCHEMA_VERSION_KEY) == Lookup(current, SCHEMA_VERSION_KEY)
    decreases k
  {
    hide Lookup, Put;
    var puts := CarriedPuts(items, legacy, current);
    if k == 0 {
      assert puts[..0] == [] && puts[0..] == puts;
    } else {
      FirstPut(items, legacy, current);
      PutsAreCarried(items, legacy, current);
      assert puts[0] in puts;
      TargetIsNotSchema(items, legacy, current, puts[0]);
      PutLookup(current, puts[0], SCHEMA_VERSION_KEY);
      SomePuts(items, legacy, Put(current, puts[0]), k - 1);
      assert puts[..k][1..] == puts[1..][..k - 1] && puts[1..][k - 1..] == puts[k..];
    }
  }

  lemma {:induction false} PutAllSplit(es: seq<Entry>, a: seq<Entry>, b: seq<Entry>)
    ensures PutAll(es, a + b) == PutAll(PutAll(es, a), b)
    decreases |a|
  {
    hide Put;
    if a == [] {
      assert a + b == b;
    } else {
      assert (a + b)[1..] == a[1..] + b && (a + b)[0] == a[0];
      PutAllSplit(Put(es, a[0]), a[1..], b);
    }
  }

  /**
   A migration interrupted after any number of its puts plans exactly the puts that are left,
   and the same removes.
   */
  lemma ResumesAfterPuts(id: int, legacy: seq<Entry>, current: seq<Entry>, k: nat)
    requires FindLayout(id).Some?
    requires k <= |MigrateStoredItems(id, legacy, current).value.puts|
    ensures var plan := MigrateStoredItems(id, legacy, current).value;
            var again := MigrateStoredItems(id, legacy, PutAll(current, plan.puts[..k])).value;
            again.puts == plan.puts[k..] && again.removes == plan.removes && again.schemaVersion == plan.schemaVersion
  {
    hide Owns, CarriedPuts, Lookup, Put, ParseSchemaVersion;
    var layout, plan := FindLayout(id).value, MigrateStoredItems(id, legacy, current).value;
    if plan.puts != [] {
      var puts := CarriedPuts(layout.carried, legacy, current);
      assert plan.puts == puts + [SCHEMA_ENTRY];
      if k <= |puts| {
        SomePuts(layout.carried, legacy, current, k);
        assert plan.puts[..k] == puts[..k] && plan.puts[k..] == puts[k..] + [SCHEMA_ENTRY];
      } else {
        assert plan.puts[..k] == puts + [SCHEMA_ENTRY] && plan.puts[k..] == [];
        PutAllSplit(current, puts, [SCHEMA_ENTRY]);
        SchemaWritten(PutAll(current, puts));
      }
    }
  }

  lemma SchemaWritten(es: seq<Entry>)
    ensures ParseSchemaVersion(Lookup(PutAll(es, [SCHEMA_ENTRY]), SCHEMA_VERSION_KEY)) == SCHEMA_VERSION
  {
    hide Put, Lookup;
    assert [SCHEMA_ENTRY][1..] == [];
    PutLookup(es, SCHEMA_ENTRY, SCHEMA_VERSION_KEY);
    assert Decimal("1", 0) == Decimal("1"[1..], 1) == 1;
  }

  lemma {:induction false} RemovedKeys(es: seq<Entry>, keys: set<string>)
    ensures Keys(RemoveAll(es, keys)) == Keys(es) - keys
  {
    if es != [] {
      RemovedKeys(es[1..], keys);
      var rest := RemoveAll(es[1..], keys);
      KeysOf(es);
      if es[0].key in keys {
        assert RemoveAll(es, keys) == rest;
      } else {
        KeysOf([es[0]] + rest);
        assert ([es[0]] + rest)[1..] == rest;
      }
    }
  }

  lemma KeysOf(es: seq<Entry>)
    requires es != []
    ensures Keys(es) == {es[0].key} + Keys(es[1..])
  {
    forall k | k in Keys(es) ensures k in {es[0].key} + Keys(es[1..]) {
      var i :| 0 <= i < |es| && es[i].key == k;
      assert i > 0 ==> es[1..][i - 1].key == k;
    }
    forall k | k in {es[0].key} + Keys(es[1..]) ensures k in Keys(es) {
      if k == es[0].key {
        assert es[0].key == k;
      } else {
        var i :| 0 <= i < |es[1..]| && es[1..][i].key == k;
        assert es[i + 1].key == k;
      }
    }
  }

  /** The keys left when some are gone, in their order. */
  function Without(ks: seq<string>, gone: set<string>): seq<string> {
    if ks == [] then [] else (if ks[0] in gone then [] else [ks[0]]) + Without(ks[1..], gone)
  }

  lemma {:induction false} WithoutKeeps(ks: seq<string>, gone: set<string>)
    requires Ascending(ks)
    ensures Ascending(Without(ks, gone)) && forall x :: x in Without(ks, gone) <==> x in ks && x !in gone
  {
    hide Before;
    if ks != [] {
      WithoutKeeps(ks[1..], gone);
      forall x | x in Without(ks[1..], gone) ensures Before(ks[0], x) {
        var j :| 0 <= j < |ks[1..]| && ks[1..][j] == x;
        assert ks[j + 1] == x;
      }
    }
  }

  /**
   A migration interrupted after all its puts and any of its removes has only the other
   removes left to do, in their order.
   */
  lemma ResumesAfterRemoves(id: int, legacy: seq<Entry>, current: seq<Entry>, removed: set<string>)
    requires FindLayout(id).Some?
    requires forall k :: k in removed ==> k in MigrateStoredItems(id, legacy, current).value.removes
    ensures var plan := MigrateStoredItems(id, legacy, current).value;
            var again := MigrateStoredItems(id, RemoveAll(legacy, removed), PutAll(current, plan.puts)).value;
            && again.puts == [] && again.removes == Without(plan.removes, removed)
            && again.schemaVersion == plan.schemaVersion
  {
    hide Owns, CarriedPuts, Lookup, Put, ParseSchemaVersion, OwnedKeys, Ascending;
    var layout, plan := FindLayout(id).value, MigrateStoredItems(id, legacy, current).value;
    OwnedLeft(layout, legacy, removed);
    if plan.puts != [] {
      var puts := CarriedPuts(layout.carried, legacy, current);
      PutAllSplit(current, puts, [SCHEMA_ENTRY]);
      SchemaWritten(PutAll(current, puts));
    }
  }

  lemma OwnedLeft(layout: Layout, legacy: seq<Entry>, removed: set<string>)
    ensures OwnedKeys(layout, RemoveAll(legacy, removed)) == Without(OwnedKeys(layout, legacy), removed)
  {
    hide Owns, OwnedKeys, Ascending, Keys, RemoveAll;
    RemovedKeys(legacy, removed);
    OwnedKeysLaws(layout, legacy);
    OwnedKeysLaws(layout, RemoveAll(legacy, removed));
    WithoutKeeps(OwnedKeys(layout, legacy), removed);
    AscendingIsUnique(OwnedKeys(layout, RemoveAll(legacy, removed)), Without(OwnedKeys(layout, legacy), removed));
  }

  /** What the layout does not own survives the removes, value and all. */
  lemma {:induction false} ForeignKeysSurvive(legacy: seq<Entry>, removed: set<string>, key: string)
    requires key !in removed
    ensures Lookup(RemoveAll(legacy, removed), key) == Lookup(legacy, key)
  {
    if legacy != [] {
      ForeignKeysSurvive(legacy[1..], removed, key);
      var rest := RemoveAll(legacy[1..], removed);
      if legacy[0].key in removed {
        assert RemoveAll(legacy, removed) == rest;
      } else {
        assert ([legacy[0]] + rest)[1..] == rest;
      }
    }
  }
}
