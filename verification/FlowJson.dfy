/**
 The JSON document model of the decision layer (cpp/update_flow_core/flow_json.cpp:14-122):
 JavaScript truthiness, ordered members with first-position/last-value updates, === on
 primitives, and the structural equality used to compare persisted configurations.

 Text is a sequence of bytes in the source; here a char stands for one byte. Numbers are
 exact reals where the source holds doubles.
 */
module FlowJson {
  datatype Member = Member(key: string, value: Value)

  datatype Value =
    | Undefined
    | Null
    | Bool(b: bool)
    | Number(n: real)
    | String(s: string)
    | Array(elements: seq<Value>)
    | Object(members: seq<Member>)

  predicate Truthy(v: Value) {
    match v
    case Undefined => false
    case Null => false
    case Bool(b) => b
    case Number(n) => n != 0.0
    case String(s) => s != ""
    case Array(_) => true
    case Object(_) => true
  }

  // ----- members ---------------------------------------------------------------

  /** The position of a key, |ms| when it is absent. */
  function IndexOf(ms: seq<Member>, key: string): (i: nat)
    ensures i <= |ms|
    ensures i < |ms| ==> ms[i].key == key
    ensures forall j :: 0 <= j < i ==> ms[j].key != key
  {
    if ms == [] then 0
    else if ms[0].key == key then 0
    else 1 + IndexOf(ms[1..], key)
  }

  function GetIn(ms: seq<Member>, key: string): Value {
    var i := IndexOf(ms, key);
    if i < |ms| then ms[i].value else Undefined
  }

  /** Total lookup: every value has a member under every key, if only Undefined. */
  function Get(v: Value, key: string): Value {
    if v.Object? then GetIn(v.members, key) else Undefined
  }

  /** The members with key bound to v: at the index the key has, or else behind all others. */
  function SetIn(ms: seq<Member>, key: string, v: Value): (r: seq<Member>)
    ensures |ms| <= |r| <= |ms| + 1
  {
    var i := IndexOf(ms, key);
    if i < |ms| then ms[i := Member(key, v)] else ms + [Member(key, v)]
  }

  function RemoveIn(ms: seq<Member>, key: string): (r: seq<Member>) {
    var i := IndexOf(ms, key);
    if i < |ms| then ms[..i] + ms[i + 1..] else ms
  }

  predicate DistinctKeys(ms: seq<Member>) {
    forall i, j :: 0 <= i < j < |ms| ==> ms[i].key != ms[j].key
  }

  /** The invariant of the document model: keys are distinct at every level. */
  predicate WellFormed(v: Value) {
    match v
    case Array(es) => forall i :: 0 <= i < |es| ==> WellFormed(es[i])
    case Object(ms) => DistinctKeys(ms) && forall i :: 0 <= i < |ms| ==> WellFormed(ms[i].value)
    case _ => true
  }

  lemma IndexIs(ms: seq<Member>, key: string, i: nat)
    requires i <= |ms| && (i < |ms| ==> ms[i].key == key)
    requires forall j :: 0 <= j < i ==> ms[j].key != key
    ensures IndexOf(ms, key) == i
  {
  }

  lemma IndexOfKey(ms: seq<Member>, i: nat)
    requires DistinctKeys(ms) && i < |ms|
    ensures IndexOf(ms, ms[i].key) == i
  {
    IndexIs(ms, ms[i].key, i);
  }

  lemma SetKeepsDistinct(ms: seq<Member>, key: string, v: Value)
    requires DistinctKeys(ms)
    ensures DistinctKeys(SetIn(ms, key, v))
  {
  }

  /** Set is a map update that keeps every other member, and the position of a key it had. */
  lemma SetGet(ms: seq<Member>, key: string, v: Value, other: string)
    ensures GetIn(SetIn(ms, key, v), key) == v
    ensures other != key ==> GetIn(SetIn(ms, key, v), other) == GetIn(ms, other)
    ensures IndexOf(ms, other) < |ms| ==> IndexOf(SetIn(ms, key, v), other) == IndexOf(ms, other)
  {
    var r, j := SetIn(ms, key, v), IndexOf(ms, other);
    IndexIs(r, key, IndexOf(ms, key));
    if other != key {
      IndexIs(r, other, if j < |ms| then j else |r|);
    }
  }

  // ----- equality ----------------------------------------------------------------

  predicate StrictEquals(a: Value, b: Value) {
    match (a, b)
    case (Undefined, Undefined) => true
    case (Null, Null) => true
    case (Bool(x), Bool(y)) => x == y
    case (Number(x), Number(y)) => x == y
    case (String(x), String(y)) => x == y
    case _ => false
  }

  /** How many members are not undefined. */
  function DefinedCount(ms: seq<Member>): nat {
    if ms == [] then 0 else (if ms[0].value.Undefined? then 0 else 1) + DefinedCount(ms[1..])
  }

  /** Structural equality as the source computes it: one-directional member scan, then a count. */
  predicate DeepEquals(a: Value, b: Value)
    decreases a, 1
  {
    match (a, b)
    case (Array(xs), Array(ys)) => |xs| == |ys| && forall i :: 0 <= i < |xs| ==> DeepEquals(xs[i], ys[i])
    case (Object(xs), Object(ys)) =>
      (forall i :: 0 <= i < |xs| ==> MemberMatches(xs[i], ys)) && DefinedCount(xs) == DefinedCount(ys)
    case _ => StrictEquals(a, b)
  }

  predicate MemberMatches(m: Member, ys: seq<Member>)
    decreases m, 0
  {
    m.value.Undefined? ||
    (var other := GetIn(ys, m.key); !other.Undefined? && DeepEquals(m.value, other))
  }

  /**
   The reference meaning: arrays elementwise, objects as maps from keys to values (an
   undefined member counts as absent), everything else by value.
   */
  ghost predicate SameValue(a: Value, b: Value) {
    match (a, b)
    case (Array(xs), Array(ys)) => |xs| == |ys| && forall i :: 0 <= i < |xs| ==> SameValue(xs[i], ys[i])
    case (Object(xs), Object(ys)) =>
      forall key: string :: var i, y := IndexOf(xs, key), GetIn(ys, key);
        if i < |xs| && !xs[i].value.Undefined? then !y.Undefined? && SameValue(xs[i].value, y) else y.Undefined?
    case _ => a == b
  }

  ghost function DefinedKeys(ms: seq<Member>): set<string> {
    set i | 0 <= i < |ms| && !ms[i].value.Undefined? :: ms[i].key
  }

  lemma {:induction false} DefinedCountIsSize(ms: seq<Member>)
    requires DistinctKeys(ms)
    ensures |DefinedKeys(ms)| == DefinedCount(ms)
  {
    if ms != [] {
      var m, rest := ms[0], ms[1..];
      assert DistinctKeys(rest) by {
        forall i, j | 0 <= i < j < |rest|
          ensures rest[i].key != rest[j].key
        {
          assert ms[i + 1].key != ms[j + 1].key;
        }
      }
      DefinedCountIsSize(rest);
      assert m.key !in DefinedKeys(rest);
      if m.value.Undefined? {
        assert DefinedKeys(ms) == DefinedKeys(rest) by {
          forall key | key in DefinedKeys(ms) ensures key in DefinedKeys(rest) {
            var i :| 0 <= i < |ms| && !ms[i].value.Undefined? && ms[i].key == key;
            assert rest[i - 1].key == key;
          }
          forall key | key in DefinedKeys(rest) ensures key in DefinedKeys(ms) {
            var i :| 0 <= i < |rest| && !rest[i].value.Undefined? && rest[i].key == key;
            assert ms[i + 1].key == key;
          }
        }
      } else {
        assert DefinedKeys(ms) == {m.key} + DefinedKeys(rest) by {
          forall key | key in DefinedKeys(ms) ensures key in {m.key} + DefinedKeys(rest) {
            var i :| 0 <= i < |ms| && !ms[i].value.Undefined? && ms[i].key == key;
            assert i > 0 ==> rest[i - 1].key == key;
          }
          forall key | key in {m.key} + DefinedKeys(rest) ensures key in DefinedKeys(ms) {
            if key == m.key {
              assert ms[0].key == key;
            } else {
              var i :| 0 <= i < |rest| && !rest[i].value.Undefined? && rest[i].key == key;
              assert ms[i + 1].key == key;
            }
          }
        }
      }
    }
  }

  lemma DefinedKeyHas(ms: seq<Member>, key: string)
    requires DistinctKeys(ms)
    ensures key in DefinedKeys(ms) <==> !GetIn(ms, key).Undefined?
  {
    if key in DefinedKeys(ms) {
      var i :| 0 <= i < |ms| && !ms[i].value.Undefined? && ms[i].key == key;
      IndexOfKey(ms, i);
    }
    var j := IndexOf(ms, key);
    if j < |ms| && !ms[j].value.Undefined? {
      assert ms[j].key == key;
    }
  }

  lemma SubsetSameSize<T>(x: set<T>, y: set<T>)
    requires x <= y && |x| == |y|
    ensures x == y
  {
    var d := y - x;
    assert y == x + d && |y| == |x| + |d|;
  }

  /** The one-directional scan with its count decides map equality, for distinct keys. */
  lemma {:induction false} DeepEqualsIsSameValue(a: Value, b: Value)
    requires WellFormed(a) && WellFormed(b)
    ensures DeepEquals(a, b) <==> SameValue(a, b)
    decreases a
  {
    match (a, b) {
      case (Array(xs), Array(ys)) =>
        if |xs| == |ys| {
          forall i | 0 <= i < |xs|
            ensures DeepEquals(xs[i], ys[i]) <==> SameValue(xs[i], ys[i])
          {
            DeepEqualsIsSameValue(xs[i], ys[i]);
          }
        }
      case (Object(xs), Object(ys)) =>
        forall i | 0 <= i < |xs| && !GetIn(ys, xs[i].key).Undefined?
          ensures DeepEquals(xs[i].value, GetIn(ys, xs[i].key)) <==> SameValue(xs[i].value, GetIn(ys, xs[i].key))
        {
          assert ys[IndexOf(ys, xs[i].key)].value == GetIn(ys, xs[i].key);
          DeepEqualsIsSameValue(xs[i].value, GetIn(ys, xs[i].key));
        }
        DefinedCountIsSize(xs);
        DefinedCountIsSize(ys);
        if DeepEquals(a, b) {
          ScanMeansSame(xs, ys);
        }
        if SameValue(a, b) {
          SameMeansScan(xs, ys);
        }
      case _ =>
    }
  }

  lemma ScanMeansSame(xs: seq<Member>, ys: seq<Member>)
    requires WellFormed(Object(xs)) && WellFormed(Object(ys)) && DeepEquals(Object(xs), Object(ys))
    requires |DefinedKeys(xs)| == DefinedCount(xs) && |DefinedKeys(ys)| == DefinedCount(ys)
    requires forall i :: 0 <= i < |xs| && !GetIn(ys, xs[i].key).Undefined? ==>
               (DeepEquals(xs[i].value, GetIn(ys, xs[i].key)) <==> SameValue(xs[i].value, GetIn(ys, xs[i].key)))
    ensures SameValue(Object(xs), Object(ys))
  {
    forall key | key in DefinedKeys(xs)
      ensures key in DefinedKeys(ys)
    {
      var i :| 0 <= i < |xs| && !xs[i].value.Undefined? && xs[i].key == key;
      assert MemberMatches(xs[i], ys);
      DefinedKeyHas(ys, key);
    }
    SubsetSameSize(DefinedKeys(xs), DefinedKeys(ys));
    forall key: string
      ensures var i, y := IndexOf(xs, key), GetIn(ys, key);
              if i < |xs| && !xs[i].value.Undefined? then !y.Undefined? && SameValue(xs[i].value, y) else y.Undefined?
    {
      DefinedKeyHas(xs, key);
      DefinedKeyHas(ys, key);
      var i := IndexOf(xs, key);
      if i < |xs| {
        assert MemberMatches(xs[i], ys);
      }
    }
  }

  lemma SameMeansScan(xs: seq<Member>, ys: seq<Member>)
    requires WellFormed(Object(xs)) && WellFormed(Object(ys)) && SameValue(Object(xs), Object(ys))
    requires |DefinedKeys(xs)| == DefinedCount(xs) && |DefinedKeys(ys)| == DefinedCount(ys)
    requires forall i :: 0 <= i < |xs| && !GetIn(ys, xs[i].key).Undefined? ==>
               (DeepEquals(xs[i].value, GetIn(ys, xs[i].key)) <==> SameValue(xs[i].value, GetIn(ys, xs[i].key)))
    ensures DeepEquals(Object(xs), Object(ys))
  {
    forall i | 0 <= i < |xs|
      ensures MemberMatches(xs[i], ys)
    {
      IndexOfKey(xs, i);
      assert IndexOf(xs, xs[i].key) == i;
    }
    forall key: string
      ensures key in DefinedKeys(xs) <==> key in DefinedKeys(ys)
    {
      DefinedKeyHas(xs, key);
      DefinedKeyHas(ys, key);
      assert IndexOf(xs, key) <= |xs|;
    }
    assert DefinedKeys(xs) == DefinedKeys(ys);
  }

  lemma {:induction false} SameValueReflexive(a: Value)
    requires WellFormed(a)
    ensures SameValue(a, a)
    decreases a
  {
    match a {
      case Array(es) =>
        forall i | 0 <= i < |es| ensures SameValue(es[i], es[i]) {
          SameValueReflexive(es[i]);
        }
      case Object(ms) =>
        forall i | 0 <= i < |ms| ensures SameValue(ms[i].value, ms[i].value) {
          SameValueReflexive(ms[i].value);
        }
      case _ =>
    }
  }

  lemma {:induction false} SameValueSymmetric(a: Value, b: Value)
    requires SameValue(a, b)
    ensures SameValue(b, a)
    decreases a
  {
    match (a, b) {
      case (Array(xs), Array(ys)) =>
        forall i | 0 <= i < |ys| ensures SameValue(ys[i], xs[i]) {
          SameValueSymmetric(xs[i], ys[i]);
        }
      case (Object(xs), Object(ys)) =>
        forall key: string
          ensures var i, x := IndexOf(ys, key), GetIn(xs, key);
                  if i < |ys| && !ys[i].value.Undefined? then !x.Undefined? && SameValue(ys[i].value, x) else x.Undefined?
        {
          var j := IndexOf(xs, key);
          if j < |xs| && !xs[j].value.Undefined? {
            SameValueSymmetric(xs[j].value, GetIn(ys, key));
          }
        }
      case _ =>
    }
  }

  lemma {:induction false} SameValueTransitive(a: Value, b: Value, c: Value)
    requires SameValue(a, b) && SameValue(b, c)
    ensures SameValue(a, c)
    decreases a
  {
    match (a, b) {
      case (Array(xs), Array(ys)) =>
        forall i | 0 <= i < |xs| ensures SameValue(xs[i], c.elements[i]) {
          SameValueTransitive(xs[i], ys[i], c.elements[i]);
        }
      case (Object(xs), Object(ys)) =>
        forall key: string
          ensures var i, z := IndexOf(xs, key), GetIn(c.members, key);
                  if i < |xs| && !xs[i].value.Undefined? then !z.Undefined? && SameValue(xs[i].value, z) else z.Undefined?
        {
          var i, j := IndexOf(xs, key), IndexOf(ys, key);
          if i < |xs| && !xs[i].value.Undefined? {
            assert j < |ys| && GetIn(ys, key) == ys[j].value;
            SameValueTransitive(xs[i].value, ys[j].value, GetIn(c.members, key));
          }
        }
      case _ =>
    }
  }

  /** On values with distinct keys the equality the SDK relies on is an equivalence. */
  lemma DeepEqualsIsEquivalence(a: Value, b: Value, c: Value)
    requires WellFormed(a) && WellFormed(b) && WellFormed(c)
    ensures DeepEquals(a, a)
    ensures DeepEquals(a, b) ==> DeepEquals(b, a)
    ensures DeepEquals(a, b) && DeepEquals(b, c) ==> DeepEquals(a, c)
  {
    DeepEqualsIsSameValue(a, a);
    DeepEqualsIsSameValue(a, b);
    DeepEqualsIsSameValue(b, a);
    DeepEqualsIsSameValue(b, c);
    DeepEqualsIsSameValue(a, c);
    SameValueReflexive(a);
    if SameValue(a, b) {
      SameValueSymmetric(a, b);
      if SameValue(b, c) {
        SameValueTransitive(a, b, c);
      }
    }
  }
}
