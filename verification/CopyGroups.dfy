/**
 Resource copies of a package patch (cpp/patch_core/patch_manifest.cpp:20-106,
 archive_patch_core.cpp:93-126, patch_core.cpp:662-684): the manifest's copies with their
 checksums, and the grouping by source that lets a host read and check every source once.
 Grouping is proved to give the outcome of checking and copying one by one, which rests on
 the manifest's conflict check. File trees are maps from paths to contents.
 */
module CopyGroups {
  import opened FlowJson
  import opened Wrappers
  import Crc32
  import JsonRoundTrip
  import JsonText

  datatype Copy = Copy(from: string, to: string, crc: Option<bv32>)

  datatype Group = Group(from: string, toPaths: seq<string>, crc: Option<bv32>)

  // ----- the manifest ------------------------------------------------------------------------

  predicate IsAbsent(v: Value) {
    v.Undefined? || v.Null?
  }

  /** An integer below 2 to the 32. */
  function ReadCrc32(v: Value): Option<bv32> {
    if v.Number? && v.n == v.n.Floor as real && 0 <= v.n.Floor < 0x1_0000_0000 then Some(v.n.Floor as bv32) else None
  }

  function SourceOf(to: string, from: Value, prefix: string): string {
    var named := if from.String? then from.s else "";
    var cut := if prefix != "" && |prefix| <= |named| && named[..|prefix|] == prefix then named[|prefix|..] else named;
    if cut == "" then to else cut
  }

  /** One copy of the manifest; None when its source or its checksum is malformed. */
  function ParseCopy(m: Member, crcs: Value, prefix: string): Option<Copy> {
    var declared := Get(crcs, m.key);
    if !m.value.String? && !IsAbsent(m.value) then None
    else if IsAbsent(declared) then Some(Copy(SourceOf(m.key, m.value, prefix), m.key, None))
    else
      match ReadCrc32(declared)
      case None => None
      case Some(crc) => Some(Copy(SourceOf(m.key, m.value, prefix), m.key, Some(crc)))
  }

  /** The copies contradict nothing declared before for the same source. */
  predicate Agrees(done: seq<Copy>, c: Copy) {
    c.crc.Some? ==> forall i :: 0 <= i < |done| && done[i].from == c.from && done[i].crc.Some? ==> done[i].crc == c.crc
  }

  function ParseMembers(ms: seq<Member>, crcs: Value, prefix: string, done: seq<Copy>): Option<seq<Copy>>
    decreases |ms|
  {
    if ms == [] then Some(done)
    else
      match ParseCopy(ms[0], crcs, prefix)
      case None => None
      case Some(c) => if Agrees(done, c) then ParseMembers(ms[1..], crcs, prefix, done + [c]) else None
  }

  function ParseCopies(copies: Value, crcs: Value, prefix: string): Option<seq<Copy>> {
    if IsAbsent(copies) then Some([])
    else if !copies.Object? || (!IsAbsent(crcs) && !crcs.Object?) then None
    else ParseMembers(copies.members, crcs, prefix, [])
  }

  /** The checksum some copy declared for each source. */
  ghost predicate Tracks(crcBySource: map<string, bv32>, done: seq<Copy>) {
    && (forall i :: 0 <= i < |done| && done[i].crc.Some? ==> done[i].from in crcBySource && crcBySource[done[i].from] == done[i].crc.value)
    && (forall from :: from in crcBySource ==> exists i :: 0 <= i < |done| && done[i].from == from && done[i].crc == Some(crcBySource[from]))
  }

  method ReadCopies(copies: Value, crcs: Value, prefix: string) returns (r: Option<seq<Copy>>)
    ensures r == ParseCopies(copies, crcs, prefix)
  {
    hide ParseCopy, ParseMembers, Tracks, Agrees;
    if IsAbsent(copies) {
      return Some([]);
    }
    if !copies.Object? || (!IsAbsent(crcs) && !crcs.Object?) {
      return None;
    }
    var ms := copies.members;
    var crcBySource: map<string, bv32> := map[];
    var done: seq<Copy> := [];
    var i := 0;
    MembersAt(ms, crcs, prefix, done, 0);
    NothingTracked(crcBySource);
    while i < |ms|
      invariant i <= |ms| && ParseMembers(ms[i..], crcs, prefix, done) == ParseMembers(ms, crcs, prefix, [])
      invariant Tracks(crcBySource, done)
    {
      MembersAt(ms, crcs, prefix, done, i);
      var parsed := ParseCopy(ms[i], crcs, prefix);
      if parsed.None? {
        return None;
      }
      var copy := parsed.value;
      TracksNext(crcBySource, done, copy);
      if copy.crc.Some? {
        if copy.from in crcBySource && crcBySource[copy.from] != copy.crc.value {
          return None;
        }
        crcBySource := crcBySource[copy.from := copy.crc.value];
      }
      done := done + [copy];
      i := i + 1;
    }
    MembersAt(ms, crcs, prefix, done, i);
    r := Some(done);
  }

  lemma MembersAt(ms: seq<Member>, crcs: Value, prefix: string, done: seq<Copy>, i: nat)
    requires i <= |ms|
    ensures ms[0..] == ms && (i == |ms| ==> ParseMembers(ms[i..], crcs, prefix, done) == Some(done))
    ensures i < |ms| ==>
              ParseMembers(ms[i..], crcs, prefix, done) ==
              match ParseCopy(ms[i], crcs, prefix)
              case None => None
              case Some(c) => if Agrees(done, c) then ParseMembers(ms[i + 1..], crcs, prefix, done + [c]) else None
  {
    hide ParseCopy, Agrees;
    if i < |ms| {
      assert ms[i..][1..] == ms[i + 1..] && ms[i..][0] == ms[i];
    }
  }

  lemma NothingTracked(m: map<string, bv32>)
    requires m == map[]
    ensures Tracks(m, [])
  {
  }

  lemma TracksNext(m: map<string, bv32>, done: seq<Copy>, c: Copy)
    requires Tracks(m, done)
    ensures Agrees(done, c) <==> c.crc.None? || c.from !in m || m[c.from] == c.crc.value
    ensures Agrees(done, c) ==> Tracks(if c.crc.Some? then m[c.from := c.crc.value] else m, done + [c])
  {
    if Agrees(done, c) {
      var next, n := if c.crc.Some? then m[c.from := c.crc.value] else m, done + [c];
      forall from | from in next
        ensures exists i :: 0 <= i < |n| && n[i].from == from && n[i].crc == Some(next[from])
      {
        if c.crc.Some? && from == c.from {
          assert n[|done|] == c;
        } else {
          var i :| 0 <= i < |done| && done[i].from == from && done[i].crc == Some(m[from]);
          assert n[i] == done[i];
        }
      }
    }
  }

  /** No source is given two checksums. */
  predicate Consistent(copies: seq<Copy>) {
    forall i, j :: 0 <= i < |copies| && 0 <= j < |copies| ==> Compatible(copies[i], copies[j])
  }

  predicate Compatible(a: Copy, b: Copy) {
    a.from == b.from && a.crc.Some? && b.crc.Some? ==> a.crc == b.crc
  }

  predicate DistinctTargets(copies: seq<Copy>) {
    forall i, j :: 0 <= i < j < |copies| ==> copies[i].to != copies[j].to
  }

  lemma {:induction false} ParsedMembersAreSound(ms: seq<Member>, crcs: Value, prefix: string, done: seq<Copy>)
    requires DistinctKeys(ms) && Consistent(done) && DistinctTargets(done)
    requires forall i, j :: 0 <= i < |done| && 0 <= j < |ms| ==> done[i].to != ms[j].key
    ensures var r := ParseMembers(ms, crcs, prefix, done); r.Some? ==> Consistent(r.value) && DistinctTargets(r.value)
    decreases |ms|
  {
    if ms != [] && ParseCopy(ms[0], crcs, prefix).Some? {
      var c, rest := ParseCopy(ms[0], crcs, prefix).value, ms[1..];
      if Agrees(done, c) {
        assert forall j :: 0 <= j < |rest| ==> rest[j] == ms[j + 1] && ms[j + 1].key != ms[0].key;
        assert DistinctKeys(rest);
        ParsedMembersAreSound(rest, crcs, prefix, done + [c]);
      }
    }
  }

  /** What the manifest parser accepts names every target once and no source with two checksums. */
  lemma ParsedIsConsistent(copies: Value, crcs: Value, prefix: string)
    requires WellFormed(copies)
    ensures var r := ParseCopies(copies, crcs, prefix); r.Some? ==> Consistent(r.value) && DistinctTargets(r.value)
  {
    if copies.Object? {
      ParsedMembersAreSound(copies.members, crcs, prefix, []);
    }
  }

  // ----- grouping ------------------------------------------------------------------------------------

  function GroupOf(gs: seq<Group>, from: string): (i: nat)
    ensures i <= |gs| && (i < |gs| ==> gs[i].from == from)
    ensures forall j :: 0 <= j < i ==> gs[j].from != from
  {
    if gs == [] then 0 else if gs[0].from == from then 0 else 1 + GroupOf(gs[1..], from)
  }

  function Later(a: Option<bv32>, b: Option<bv32>): Option<bv32> {
    if b.Some? then b else a
  }

  /** A copy joins the group of its source, or opens one. */
  function AddCopy(gs: seq<Group>, c: Copy): seq<Group> {
    var i := GroupOf(gs, c.from);
    if i < |gs| then gs[i := Group(c.from, gs[i].toPaths + [c.to], Later(gs[i].crc, c.crc))]
    else gs + [Group(c.from, [c.to], c.crc)]
  }

  /** The copies added one after the other: a new source opens a group behind the others. */
  function Groups(copies: seq<Copy>): seq<Group> {
    if copies == [] then [] else AddCopy(Groups(copies[..|copies| - 1]), copies[|copies| - 1])
  }

  predicate DistinctSources(gs: seq<Group>) {
    forall i, j :: 0 <= i < j < |gs| ==> gs[i].from != gs[j].from
  }

  lemma GroupIs(gs: seq<Group>, from: string, i: nat)
    requires DistinctSources(gs) && i < |gs| && gs[i].from == from
    ensures GroupOf(gs, from) == i
  {
    var k := GroupOf(gs, from);
    assert k <= i;
  }

  lemma AddKeepsDistinct(gs: seq<Group>, c: Copy)
    requires DistinctSources(gs)
    ensures DistinctSources(AddCopy(gs, c))
  {
  }

  /** Where each source's group is. */
  ghost predicate Indexes(groupBySource: map<string, nat>, gs: seq<Group>) {
    && DistinctSources(gs)
    && (forall from :: from in groupBySource ==> groupBySource[from] < |gs| && gs[groupBySource[from]].from == from)
    && (forall k :: 0 <= k < |gs| ==> gs[k].from in groupBySource)
  }

  method BuildCopyGroups(copies: seq<Copy>) returns (groups: seq<Group>)
    ensures groups == Groups(copies)
  {
    hide AddCopy, Indexes;
    groups := [];
    var groupBySource: map<string, nat> := map[];
    var i := 0;
    NothingIndexed(groupBySource);
    while i < |copies|
      invariant i <= |copies| && groups == Groups(copies[..i]) && Indexes(groupBySource, groups)
    {
      assert copies[..i + 1][..i] == copies[..i];
      groups, groupBySource := Join(groups, groupBySource, copies[i]);
      i := i + 1;
    }
    assert copies[..i] == copies;
  }

  lemma NothingIndexed(m: map<string, nat>)
    requires m == map[]
    ensures Indexes(m, [])
  {
  }

  /** The loop body: finds or opens the group of the copy's source, then adds the copy to it. */
  method Join(gs: seq<Group>, groupBySource: map<string, nat>, copy: Copy) returns (groups: seq<Group>, index: map<string, nat>)
    requires Indexes(groupBySource, gs)
    ensures groups == AddCopy(gs, copy) && Indexes(index, groups)
  {
    groups, index := gs, groupBySource;
    ghost var i := GroupOf(gs, copy.from);
    if copy.from !in index {
      assert i == |gs|;
      index := index[copy.from := |groups|];
      groups := groups + [Group(copy.from, [], None)];
    } else {
      GroupIs(gs, copy.from, index[copy.from]);
    }
    var k := index[copy.from];
    var group := groups[k];
    group := group.(toPaths := group.toPaths + [copy.to]);
    if copy.crc.Some? {
      group := group.(crc := copy.crc);
    }
    groups := groups[k := group];
    assert k == i && group.from == copy.from;
    if i == |gs| {
      assert group.toPaths == [copy.to] && group.crc == copy.crc;
    } else {
      assert group.toPaths == gs[i].toPaths + [copy.to] && group.crc == Later(gs[i].crc, copy.crc);
    }
    assert groups == AddCopy(gs, copy);
    AddKeepsDistinct(gs, copy);
  }

  // ----- copying ----------------------------------------------------------------------------------------

  type Tree = map<string, seq<bv8>>

  /** The source exists and has the declared checksum, if one is declared. */
  predicate Good(source: Tree, from: string, crc: Option<bv32>) {
    from in source && (crc.Some? ==> Crc32.Checksum(source[from]) == crc.value)
  }

  /** One by one: check, then copy; the first failure ends it. */
  function CopyOneByOne(copies: seq<Copy>, source: Tree, target: Tree): Option<Tree>
    decreases |copies|
  {
    if copies == [] then Some(target)
    else if !Good(source, copies[0].from, copies[0].crc) then None
    else CopyOneByOne(copies[1..], source, target[copies[0].to := source[copies[0].from]])
  }

  function WriteAll(paths: seq<string>, bytes: seq<bv8>, target: Tree): Tree
    decreases |paths|
  {
    if paths == [] then target else WriteAll(paths[1..], bytes, target[paths[0] := bytes])
  }

  /** Group by group: every source is read and checked once. */
  function CopyGrouped(gs: seq<Group>, source: Tree, target: Tree): Option<Tree>
    decreases |gs|
  {
    if gs == [] then Some(target)
    else if !Good(source, gs[0].from, gs[0].crc) then None
    else CopyGrouped(gs[1..], source, WriteAll(gs[0].toPaths, source[gs[0].from], target))
  }

  // ----- what both do -------------------------------------------------------------------------------------

  predicate AllGood(copies: seq<Copy>, source: Tree) {
    forall i :: 0 <= i < |copies| ==> Good(source, copies[i].from, copies[i].crc)
  }

  /** A copy of this source to this target. */
  predicate InCopies(copies: seq<Copy>, from: string, to: string) {
    exists i :: 0 <= i < |copies| && copies[i].from == from && copies[i].to == to
  }

  /** The tree holds each target's source, and is the old one elsewhere. */
  ghost predicate Copied(copies: seq<Copy>, source: Tree, target: Tree, r: Tree) {
    && (forall from, to :: InCopies(copies, from, to) ==> from in source && to in r && r[to] == source[from])
    && forall p :: (forall from :: !InCopies(copies, from, p)) ==> (p in r <==> p in target) && (p in r ==> r[p] == target[p])
  }

  /** That determines the tree. */
  lemma CopiedIsUnique(copies: seq<Copy>, source: Tree, target: Tree, a: Tree, b: Tree)
    requires Copied(copies, source, target, a) && Copied(copies, source, target, b)
    ensures a == b
  {
    forall p | p in a || p in b
      ensures p in a && p in b && a[p] == b[p]
    {
      if from :| InCopies(copies, from, p) {
      } else {
        assert forall from :: !InCopies(copies, from, p);
      }
    }
  }

  lemma {:induction false} OneByOneCopies(copies: seq<Copy>, source: Tree, target: Tree)
    requires DistinctTargets(copies)
    ensures var r := CopyOneByOne(copies, source, target);
            (r.Some? <==> AllGood(copies, source)) && (r.Some? ==> Copied(copies, source, target, r.value))
    decreases |copies|
  {
    hide Good;
    if copies != [] {
      var c, rest := copies[0], copies[1..];
      assert forall i :: 0 <= i < |rest| ==> rest[i] == copies[i + 1];
      if Good(source, c.from, c.crc) {
        GoodExists(source, c.from, c.crc);
        OneByOneCopies(rest, source, target[c.to := source[c.from]]);
        var r := CopyOneByOne(copies, source, target);
        if r.Some? {
          CopiedFirst(copies, source, target, r.value);
        }
      }
    }
  }

  lemma GoodExists(source: Tree, from: string, crc: Option<bv32>)
    requires Good(source, from, crc)
    ensures from in source
  {
  }

  lemma CopiedFirst(copies: seq<Copy>, source: Tree, target: Tree, r: Tree)
    requires copies != [] && DistinctTargets(copies) && copies[0].from in source
    requires Copied(copies[1..], source, target[copies[0].to := source[copies[0].from]], r)
    ensures Copied(copies, source, target, r)
  {
    var c, rest := copies[0], copies[1..];
    forall from, to
      ensures InCopies(copies, from, to) <==> (from == c.from && to == c.to) || InCopies(rest, from, to)
    {
      InRest(copies, from, to);
    }
    forall from ensures !InCopies(rest, from, c.to) {
      assert forall i :: 0 <= i < |rest| ==> rest[i] == copies[i + 1] && copies[i + 1].to != copies[0].to;
    }
    forall p | forall from :: !InCopies(copies, from, p)
      ensures (p in r <==> p in target) && (p in r ==> r[p] == target[p])
    {
      assert !InCopies(copies, c.from, p);
      assert forall from :: !InCopies(rest, from, p);
    }
  }

  lemma InRest(copies: seq<Copy>, from: string, to: string)
    requires copies != []
    ensures InCopies(copies, from, to) <==> (from == copies[0].from && to == copies[0].to) || InCopies(copies[1..], from, to)
  {
    var rest := copies[1..];
    if InCopies(copies, from, to) {
      var i :| 0 <= i < |copies| && copies[i].from == from && copies[i].to == to;
      assert i > 0 ==> rest[i - 1] == copies[i];
    }
    if InCopies(rest, from, to) {
      var i :| 0 <= i < |rest| && rest[i].from == from && rest[i].to == to;
      assert copies[i + 1] == rest[i];
    }
  }

  // ----- groups and copies say the same ---------------------------------------------------------------------

  /** A copy of the group's source to one of its paths. */
  predicate InGroups(gs: seq<Group>, from: string, to: string) {
    exists k :: 0 <= k < |gs| && gs[k].from == from && to in gs[k].toPaths
  }

  /** The checksum of a group is one that a copy of its source declares, if any does. */
  ghost predicate Checks(gs: seq<Group>, copies: seq<Copy>) {
    && (forall k :: 0 <= k < |gs| && gs[k].crc.Some? ==> Declared(copies, gs[k].from, gs[k].crc))
    && (forall i, k :: 0 <= i < |copies| && 0 <= k < |gs| && copies[i].from == gs[k].from && copies[i].crc.Some? ==> gs[k].crc.Some?)
  }

  predicate Declared(copies: seq<Copy>, from: string, crc: Option<bv32>) {
    exists i :: 0 <= i < |copies| && copies[i].from == from && copies[i].crc == crc
  }

  predicate NoneEmpty(gs: seq<Group>) {
    forall k :: 0 <= k < |gs| ==> gs[k].toPaths != []
  }

  lemma AddHolds(gs: seq<Group>, c: Copy, from: string, to: string)
    requires DistinctSources(gs)
    ensures InGroups(AddCopy(gs, c), from, to) <==> InGroups(gs, from, to) || (from == c.from && to == c.to)
  {
    var i, r := GroupOf(gs, c.from), AddCopy(gs, c);
    assert r[i].from == c.from && c.to in r[i].toPaths;
    if InGroups(gs, from, to) {
      var k :| 0 <= k < |gs| && gs[k].from == from && to in gs[k].toPaths;
      assert r[k].from == from && to in r[k].toPaths;
    }
  }

  lemma AppendedCopy(copies: seq<Copy>, from: string, to: string)
    requires copies != []
    ensures var n := |copies| - 1;
            InCopies(copies, from, to) <==> InCopies(copies[..n], from, to) || (from == copies[n].from && to == copies[n].to)
  {
    var n := |copies| - 1;
    if InCopies(copies[..n], from, to) {
      var i :| 0 <= i < n && copies[..n][i].from == from && copies[..n][i].to == to;
      assert copies[i] == copies[..n][i];
    }
    if InCopies(copies, from, to) {
      var i :| 0 <= i < |copies| && copies[i].from == from && copies[i].to == to;
      assert i < n ==> copies[..n][i] == copies[i];
    }
  }

  lemma {:induction false} GroupsHold(copies: seq<Copy>)
    ensures DistinctSources(Groups(copies)) && NoneEmpty(Groups(copies))
    ensures forall from, to :: InGroups(Groups(copies), from, to) <==> InCopies(copies, from, to)
  {
    hide AddCopy, InGroups, InCopies, DistinctSources;
    if copies == [] {
      NothingHeld();
    } else {
      var n := |copies| - 1;
      var gs := Groups(copies[..n]);
      GroupsHold(copies[..n]);
      AddKeepsDistinct(gs, copies[n]);
      AddNoneEmpty(gs, copies[n]);
      forall from, to ensures InGroups(Groups(copies), from, to) <==> InCopies(copies, from, to) {
        AddHolds(gs, copies[n], from, to);
        AppendedCopy(copies, from, to);
      }
    }
  }

  lemma NothingHeld()
    ensures DistinctSources([]) && forall from, to :: !InGroups([], from, to) && !InCopies([], from, to)
  {
  }

  lemma AddNoneEmpty(gs: seq<Group>, c: Copy)
    requires NoneEmpty(gs)
    ensures NoneEmpty(AddCopy(gs, c))
  {
  }

  lemma {:induction false} GroupsCheck(copies: seq<Copy>)
    ensures Checks(Groups(copies), copies)
  {
    if copies != [] {
      var n := |copies| - 1;
      GroupsCheck(copies[..n]);
      GroupsHold(copies[..n]);
      AddChecks(Groups(copies[..n]), copies);
    }
  }

  lemma AddChecks(gs: seq<Group>, copies: seq<Copy>)
    requires copies != [] && DistinctSources(gs) && Checks(gs, copies[..|copies| - 1])
    requires forall from, to :: InCopies(copies[..|copies| - 1], from, to) ==> InGroups(gs, from, to)
    ensures Checks(AddCopy(gs, copies[|copies| - 1]), copies)
  {
    var n := |copies| - 1;
    var c := copies[n];
    var i, r := GroupOf(gs, c.from), AddCopy(gs, c);
    forall k | 0 <= k < |r| && r[k].crc.Some?
      ensures Declared(copies, r[k].from, r[k].crc)
    {
      if k == i && c.crc.Some? {
        assert copies[n].crc == r[k].crc;
      } else if k < |gs| {
        var j :| 0 <= j < n && copies[..n][j].from == gs[k].from && copies[..n][j].crc == gs[k].crc;
        assert copies[j] == copies[..n][j];
      }
    }
    forall j, k | 0 <= j < |copies| && 0 <= k < |r| && copies[j].from == r[k].from && copies[j].crc.Some?
      ensures r[k].crc.Some?
    {
      if j < n {
        assert copies[..n][j] == copies[j];
        EarlierGroup(gs, copies[..n], j);
      } else {
        AddKeepsDistinct(gs, c);
        GroupIs(r, c.from, k);
        GroupIs(r, c.from, i);
      }
    }
  }

  lemma EarlierGroup(gs: seq<Group>, copies: seq<Copy>, j: nat)
    requires j < |copies| && forall from, to :: InCopies(copies, from, to) ==> InGroups(gs, from, to)
    ensures GroupOf(gs, copies[j].from) < |gs|
  {
    assert InCopies(copies, copies[j].from, copies[j].to);
    var k :| 0 <= k < |gs| && gs[k].from == copies[j].from && copies[j].to in gs[k].toPaths;
  }

  // ----- the refinement -----------------------------------------------------------------------------------------

  predicate GroupsGood(gs: seq<Group>, source: Tree) {
    forall k :: 0 <= k < |gs| ==> Good(source, gs[k].from, gs[k].crc)
  }

  /** No two groups write one path. */
  ghost predicate OneWriter(gs: seq<Group>) {
    forall a, b, p :: InGroups(gs, a, p) && InGroups(gs, b, p) ==> a == b
  }

  ghost predicate Written(gs: seq<Group>, source: Tree, target: Tree, r: Tree) {
    && (forall from, to :: InGroups(gs, from, to) ==> from in source && to in r && r[to] == source[from])
    && forall p :: (forall from :: !InGroups(gs, from, p)) ==> (p in r <==> p in target) && (p in r ==> r[p] == target[p])
  }

  lemma {:induction false} WriteAllWrites(paths: seq<string>, bytes: seq<bv8>, target: Tree, p: string)
    ensures var r := WriteAll(paths, bytes, target);
            && (p in r <==> p in paths || p in target)
            && (p in r ==> r[p] == if p in paths then bytes else target[p])
    decreases |paths|
  {
    if paths != [] {
      WriteAllWrites(paths[1..], bytes, target[paths[0] := bytes], p);
    }
  }

  lemma InRestGroups(gs: seq<Group>, from: string, to: string)
    requires gs != []
    ensures InGroups(gs, from, to) <==> (from == gs[0].from && to in gs[0].toPaths) || InGroups(gs[1..], from, to)
  {
    var rest := gs[1..];
    if InGroups(gs, from, to) {
      var k :| 0 <= k < |gs| && gs[k].from == from && to in gs[k].toPaths;
      assert k > 0 ==> rest[k - 1] == gs[k];
    }
    if InGroups(rest, from, to) {
      var k :| 0 <= k < |rest| && rest[k].from == from && to in rest[k].toPaths;
      assert gs[k + 1] == rest[k];
    }
  }

  lemma {:induction false} GroupedWrites(gs: seq<Group>, source: Tree, target: Tree)
    requires DistinctSources(gs) && OneWriter(gs)
    ensures var r := CopyGrouped(gs, source, target);
            (r.Some? <==> GroupsGood(gs, source)) && (r.Some? ==> Written(gs, source, target, r.value))
    decreases |gs|
  {
    hide Good, InGroups, WriteAll;
    if gs == [] {
      NothingHeld();
    } else {
      var g, rest := gs[0], gs[1..];
      assert forall k :: 0 <= k < |rest| ==> rest[k] == gs[k + 1];
      forall from, to ensures InGroups(gs, from, to) <==> (from == g.from && to in g.toPaths) || InGroups(rest, from, to) {
        InRestGroups(gs, from, to);
      }
      FirstSource(gs);
      if Good(source, g.from, g.crc) {
        GoodExists(source, g.from, g.crc);
        var middle := WriteAll(g.toPaths, source[g.from], target);
        GroupedWrites(rest, source, middle);
        var r := CopyGrouped(gs, source, target);
        if r.Some? {
          forall p ensures (p in middle <==> p in g.toPaths || p in target) &&
                           (p in middle ==> middle[p] == if p in g.toPaths then source[g.from] else target[p]) {
            WriteAllWrites(g.toPaths, source[g.from], target, p);
          }
          WrittenFirst(gs, source, target, middle, r.value);
        }
      }
    }
  }

  lemma FirstSource(gs: seq<Group>)
    requires gs != [] && DistinctSources(gs)
    ensures forall p :: !InGroups(gs[1..], gs[0].from, p)
  {
    assert forall k :: 0 <= k < |gs[1..]| ==> gs[1..][k] == gs[k + 1] && gs[k + 1].from != gs[0].from;
  }

  lemma WrittenFirst(gs: seq<Group>, source: Tree, target: Tree, middle: Tree, r: Tree)
    requires gs != [] && OneWriter(gs) && gs[0].from in source && Written(gs[1..], source, middle, r)
    requires forall from, to :: InGroups(gs, from, to) <==> (from == gs[0].from && to in gs[0].toPaths) || InGroups(gs[1..], from, to)
    requires forall p :: !InGroups(gs[1..], gs[0].from, p)
    requires forall p :: (p in middle <==> p in gs[0].toPaths || p in target) &&
                         (p in middle ==> middle[p] == if p in gs[0].toPaths then source[gs[0].from] else target[p])
    ensures Written(gs, source, target, r)
  {
    hide InGroups;
    var g, rest := gs[0], gs[1..];
    forall from, to | InGroups(gs, from, to)
      ensures from in source && to in r && r[to] == source[from]
    {
      if !InGroups(rest, from, to) {
        forall other ensures !InGroups(rest, other, to) {
          assert InGroups(rest, other, to) ==> InGroups(gs, other, to);
        }
      }
    }
    forall p | forall from :: !InGroups(gs, from, p)
      ensures (p in r <==> p in target) && (p in r ==> r[p] == target[p])
    {
      assert !InGroups(gs, g.from, p);
      forall from ensures !InGroups(rest, from, p) {
        assert !InGroups(gs, from, p);
      }
    }
  }

  lemma TargetsHaveOneWriter(copies: seq<Copy>)
    requires DistinctTargets(copies)
    ensures OneWriter(Groups(copies))
  {
    hide InGroups, InCopies, Groups;
    GroupsHold(copies);
    forall a, b, p | InGroups(Groups(copies), a, p) && InGroups(Groups(copies), b, p)
      ensures a == b
    {
      OneSource(copies, a, b, p);
    }
  }

  lemma OneSource(copies: seq<Copy>, a: string, b: string, p: string)
    requires DistinctTargets(copies) && InCopies(copies, a, p) && InCopies(copies, b, p)
    ensures a == b
  {
    var i :| 0 <= i < |copies| && copies[i].from == a && copies[i].to == p;
    var j :| 0 <= j < |copies| && copies[j].from == b && copies[j].to == p;
    assert i == j;
  }

  /** Checking every copy implies checking every group. */
  lemma GoodCopiesGoodGroups(copies: seq<Copy>, source: Tree)
    requires AllGood(copies, source)
    ensures GroupsGood(Groups(copies), source)
  {
    hide Groups;
    var gs := Groups(copies);
    GroupsHold(copies);
    GroupsCheck(copies);
    forall k | 0 <= k < |gs| ensures Good(source, gs[k].from, gs[k].crc) {
      var to := gs[k].toPaths[0];
      assert InGroups(gs, gs[k].from, to);
      assert InCopies(copies, gs[k].from, to);
      if gs[k].crc.Some? {
        assert Declared(copies, gs[k].from, gs[k].crc);
      }
    }
  }

  /** The converse rests on no source having two checksums. */
  lemma GoodGroupsGoodCopies(copies: seq<Copy>, source: Tree)
    requires Consistent(copies) && GroupsGood(Groups(copies), source)
    ensures AllGood(copies, source)
  {
    hide Groups;
    var gs := Groups(copies);
    GroupsHold(copies);
    GroupsCheck(copies);
    forall i | 0 <= i < |copies| ensures Good(source, copies[i].from, copies[i].crc) {
      EarlierGroup(gs, copies, i);
      var k := GroupOf(gs, copies[i].from);
      if copies[i].crc.Some? {
        assert gs[k].crc.Some? && Declared(copies, gs[k].from, gs[k].crc);
        var j :| 0 <= j < |copies| && copies[j].from == gs[k].from && copies[j].crc == gs[k].crc;
        assert Compatible(copies[i], copies[j]);
      }
    }
  }

  /**
   Reading and checking every source once gives exactly what checking and copying one by one
   gives, success and tree alike, for every manifest the parser accepts.
   */
  lemma GroupingRefines(copies: seq<Copy>, source: Tree, target: Tree)
    requires Consistent(copies) && DistinctTargets(copies)
    ensures CopyGrouped(Groups(copies), source, target) == CopyOneByOne(copies, source, target)
  {
    hide Groups, CopyGrouped, CopyOneByOne, AllGood, GroupsGood, InGroups, InCopies, Consistent, DistinctTargets;
    GroupsHold(copies);
    TargetsHaveOneWriter(copies);
    GroupedWrites(Groups(copies), source, target);
    OneByOneCopies(copies, source, target);
    if AllGood(copies, source) {
      GoodCopiesGoodGroups(copies, source);
      var a, b := CopyGrouped(Groups(copies), source, target).value, CopyOneByOne(copies, source, target).value;
      CopiedIsUnique(copies, source, target, a, b);
    } else if GroupsGood(Groups(copies), source) {
      GoodGroupsGoodCopies(copies, source);
    }
  }

  /** So it does for whatever manifest text the parser accepts, on every tree. */
  lemma ManifestCopies(text: string, limits: JsonText.ParseLimits, prefix: string, source: Tree, target: Tree)
    ensures var root := JsonText.Parse(text, limits);
            root.Some? ==>
              var r := ParseCopies(Get(root.value, "copies"), Get(root.value, "copiesCrc"), prefix);
              r.Some? ==> CopyGrouped(Groups(r.value), source, target) == CopyOneByOne(r.value, source, target)
  {
    hide JsonText.Parse, ParseCopies, Groups, CopyGrouped, CopyOneByOne, Consistent, DistinctTargets;
    var root := JsonText.Parse(text, limits);
    if root.Some? {
      JsonRoundTrip.ParseIsSound(text, limits);
      var r := ParseCopies(Get(root.value, "copies"), Get(root.value, "copiesCrc"), prefix);
      ParsedIsConsistent(Get(root.value, "copies"), Get(root.value, "copiesCrc"), prefix);
      if r.Some? {
        GroupingRefines(r.value, source, target);
      }
    }
  }

  /** Without the conflict check, a group is checked against its last checksum only. */
  lemma ConflictSlipsThrough()
    ensures var good := Crc32.Checksum([]);
            var copies := [Copy("a", "p", Some(!good)), Copy("a", "q", Some(good))];
            var source: Tree := map["a" := []];
            && !Consistent(copies) && DistinctTargets(copies)
            && CopyOneByOne(copies, source, map[]).None? && CopyGrouped(Groups(copies), source, map[]).Some?
  {
    hide Crc32.Checksum, Groups, CopyGrouped, CopyOneByOne;
    var good := Crc32.Checksum([]);
    var c, d := Copy("a", "p", Some(!good)), Copy("a", "q", Some(good));
    assert !Compatible([c, d][0], [c, d][1]);
    assert "p"[0] != "q"[0];
    TwoCopies(c, d);
    var source: Tree := map["a" := []];
    OneByOneCopies([c, d], source, map[]);
    assert !Good(source, [c, d][0].from, [c, d][0].crc);
    OneGroup(Group("a", ["p", "q"], Some(good)), source);
  }

  lemma TwoCopies(c: Copy, d: Copy)
    requires c.from == d.from && d.crc.Some?
    ensures Groups([c, d]) == [Group(c.from, [c.to, d.to], d.crc)]
  {
    assert [c, d][..1] == [c] && [c][..0] == [];
    assert Groups([c]) == AddCopy([], c) == [Group(c.from, [c.to], c.crc)];
    assert [c.to] + [d.to] == [c.to, d.to];
  }

  lemma OneGroup(g: Group, source: Tree)
    requires Good(source, g.from, g.crc)
    ensures CopyGrouped([g], source, map[]).Some?
  {
    hide Good, WriteAll;
    GoodExists(source, g.from, g.crc);
    assert [g][1..] == [];
    var middle := WriteAll(g.toPaths, source[g.from], map[]);
    assert CopyGrouped([], source, middle) == Some(middle);
  }

}
