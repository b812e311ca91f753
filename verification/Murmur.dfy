/**
 The rollout hash in its two implementations: 32-bit C++ over the low bytes of the UTF-16
 units it decodes from UTF-8 (cpp/update_flow_core/update_flow_core.cpp:19-135), and
 JavaScript over UTF-16 units with 16-bit-half multiplications in double arithmetic
 (src/updateFlowCore.ts:10-89). Both are proved against one definition, so both sides put
 every uuid into the same rollout bucket.
 */
module Murmur {
  import opened Bits32

  const C1: u32 := 0xcc9e2d51
  const C2: u32 := 0x1b873593

  type byte = x: int | 0 <= x < 256
  /** A UTF-16 code unit. */
  type Unit = x: int | 0 <= x < 65536

  // ----- the hash, on bytes -------------------------------------------------------

  function Scramble(k: u32): u32 {
    Mul(RotateLeft(Mul(k, C1), 15), C2)
  }

  function Absorb(h: u32, k: u32): u32 {
    Wrap(Mul(RotateLeft(Xor(h, Scramble(k)), 13), 5) + 0xe6546b64)
  }

  /** Four bytes, least significant first. */
  function Block(b: seq<byte>, i: nat): u32
    requires i + 4 <= |b|
  {
    Or(Or(Or(b[i], Shl(b[i + 1], 8)), Shl(b[i + 2], 16)), Shl(b[i + 3], 24))
  }

  /** The state after the blocks before index i. */
  function Body(b: seq<byte>, seed: u32, i: nat): u32
    requires i <= |b| && i % 4 == 0
  {
    if i == 0 then seed else Absorb(Body(b, seed, i - 4), Block(b, i - 4))
  }

  /** The last one to three bytes, from index i on. */
  function TailWord(b: seq<byte>, i: nat): u32
    requires i <= |b| <= i + 3
  {
    var k3 := if |b| == i + 3 then Xor(0, Shl(b[i + 2], 16)) else 0;
    var k2 := if |b| >= i + 2 then Xor(k3, Shl(b[i + 1], 8)) else 0;
    if |b| >= i + 1 then Xor(k2, b[i]) else 0
  }

  function Finish(h: u32): u32 {
    var h1 := Mul(Xor(h, Shr(h, 16)), 0x85ebca6b);
    var h2 := Mul(Xor(h1, Shr(h1, 13)), 0xc2b2ae35);
    Xor(h2, Shr(h2, 16))
  }

  function Murmur3(b: seq<byte>, seed: u32): u32 {
    var i := |b| / 4 * 4;
    var h := Body(b, seed, i);
    var h1 := if |b| > i then Xor(h, Scramble(TailWord(b, i))) else h;
    Finish(Xor(h1, Wrap(|b|)))
  }

  // ----- the C++ loop ----------------------------------------------------------------

  method Murmur3Native(data: seq<byte>, seed: u32) returns (h1: u32)
    ensures h1 == Murmur3(data, seed)
  {
    hide Or, Xor, Shl, Shr, Mul, RotateLeft;
    var nblocks := |data| / 4;
    h1 := seed;
    var i := 0;
    while i < nblocks
      invariant i <= nblocks && h1 == Body(data, seed, i * 4)
    {
      var k1 := Or(Or(Or(data[i * 4], Shl(data[i * 4 + 1], 8)), Shl(data[i * 4 + 2], 16)), Shl(data[i * 4 + 3], 24));
      k1 := Mul(k1, C1);
      k1 := RotateLeft(k1, 15);
      k1 := Mul(k1, C2);
      h1 := Xor(h1, k1);
      h1 := RotateLeft(h1, 13);
      h1 := Wrap(Mul(h1, 5) + 0xe6546b64);
      i := i + 1;
    }
    var tail, k1: u32 := nblocks * 4, 0;
    // Each case of the switch falls through to the next.
    if |data| % 4 == 3 {
      k1 := Xor(k1, Shl(data[tail + 2], 16));
    }
    if |data| % 4 >= 2 {
      k1 := Xor(k1, Shl(data[tail + 1], 8));
    }
    if |data| % 4 >= 1 {
      k1 := Xor(k1, data[tail]);
      k1 := Mul(k1, C1);
      k1 := RotateLeft(k1, 15);
      k1 := Mul(k1, C2);
      h1 := Xor(h1, k1);
    }
    h1 := Xor(h1, Wrap(|data|));
    h1 := Xor(h1, Shr(h1, 16));
    h1 := Mul(h1, 0x85ebca6b);
    h1 := Xor(h1, Shr(h1, 13));
    h1 := Mul(h1, 0xc2b2ae35);
    h1 := Xor(h1, Shr(h1, 16));
  }

  // ----- the JavaScript arithmetic ------------------------------------------------------

  predicate Int32(x: int) {
    -0x8000_0000 <= x < 0x1_0000_0000
  }

  lemma NonNegative(x: nat, y: nat)
    ensures 0 <= x * y
  {
  }

  lemma ProductBound(a: int, c: u32)
    requires 0 <= a < 65536
    ensures 0 <= a * c < 0x1_0000_0000_0000
  {
    NonNegative(a, c);
    NonNegative(65535 - a, c);
    assert (65535 - a) * c == 65535 * c - a * c;
  }

  lemma Halves(high: int, low: int, c: int)
    ensures (high * 65536 + low) * c == 65536 * (high * c) + low * c
  {
  }

  /** The linear part: l and h are the products of the low and the high half. */
  lemma HalvesSum(l: int, h: int, shifted: int)
    requires 0 <= h && Wrap(shifted) == Wrap((h % 65536) * 65536)
    ensures Wrap(l + shifted) == Wrap(65536 * h + l)
  {
    var q := h / 65536;
    assert 65536 * h == (h % 65536) * 65536 + TWO32 * q;
  }

  lemma WrapOf(x: int)
    ensures ToUint32(x) == Wrap(x)
  {
  }

  /** k & 0xffff. */
  function LowHalf(k: int): (r: int)
    ensures 0 <= r < 65536 && r == ToUint32(k) % 65536
  {
    JsMasks(k);
    WrapMod(k, 65536);
    JsAnd(k, 0xffff)
  }

  /** k >>> 16. */
  function HighHalf(k: int): (r: int)
    ensures 0 <= r < 65536 && r == ToUint32(k) / 65536
  {
    ShrValues(ToUint32(k));
    JsUshr(k, 16)
  }

  function HalfProduct(half: int, c: u32): (r: int)
    requires 0 <= half < 65536
    ensures 0 <= r < 0x1_0000_0000_0000 && r == half * c
  {
    ProductBound(half, c);
    JsMul(half, c)
  }

  /** half << 16. */
  function ShiftHalf(half: int): (r: int)
    requires 0 <= half < 65536
    ensures -0x8000_0000 <= r < 0x8000_0000 && Wrap(r) == Wrap(half * 65536)
  {
    Pow2Values();
    SmallNumber(half);
    JsShl(half, 16)
  }

  /** x & 0xffffffff. */
  function Truncated(x: int): (r: int)
    ensures Int32(r) && ToUint32(r) == Wrap(x)
  {
    JsMasks(x);
    JsAnd(x, 0xffff_ffff)
  }

  lemma ProductParts(k: int, c: u32)
    ensures var low, high := HalfProduct(LowHalf(k), c), HalfProduct(HighHalf(k), c);
            Wrap(low + ShiftHalf(LowHalf(high))) == Mul(ToUint32(k), c)
  {
    hide LowHalf, HighHalf, HalfProduct, ShiftHalf;
    var u := ToUint32(k);
    var l, h := HalfProduct(LowHalf(k), c), HalfProduct(HighHalf(k), c);
    WrapMod(h, 65536);
    HalvesSum(l, h, ShiftHalf(LowHalf(h)));
    Halves(u / 65536, u % 65536, c);
  }

  /** A 32-bit product out of two halves, every intermediate exactly representable. */
  method JsProduct(k: int, c: u32) returns (r: int)
    ensures Int32(r) && ToUint32(r) == Mul(ToUint32(k), c)
  {
    hide LowHalf, HighHalf, HalfProduct, ShiftHalf, Truncated, Mul, ToUint32, Wrap;
    ProductParts(k, c);
    var low := HalfProduct(LowHalf(k), c);
    var high := LowHalf(HalfProduct(HighHalf(k), c));
    r := Truncated(JsAdd(low, ShiftHalf(high)));
  }

  method JsRotate(k: int, r: nat) returns (x: int)
    requires r <= 32
    ensures Int32(x) && ToUint32(x) == RotateLeft(ToUint32(k), r)
  {
    JsShlBits(k, r);
    JsOrBits(JsShl(k, r), JsUshr(k, 32 - r));
    SmallNumber(JsUshr(k, 32 - r));
    x := JsOr(JsShl(k, r), JsUshr(k, 32 - r));
  }

  lemma BlockConstantSum(u: u32, shifted: int)
    requires Wrap(shifted) == Wrap(((u / 65536 + 0xe654) % 65536) * 65536)
    ensures Wrap(u % 65536 + 0x6b64 + shifted) == Wrap(u + 0xe6546b64)
  {
    HalvesSum(u % 65536 + 0x6b64, u / 65536 + 0xe654, shifted);
  }

  /** Adding the block constant in two halves. */
  method JsAddBlockConstant(h: int) returns (x: int)
    ensures Exact(x) && ToUint32(x) == Wrap(ToUint32(h) + 0xe6546b64)
  {
    hide LowHalf, HighHalf, ShiftHalf, ToUint32, Wrap;
    BlockConstantParts(h);
    var low := JsAdd(LowHalf(h), 0x6b64);
    var high := LowHalf(JsAdd(HighHalf(h), 0xe654));
    x := JsAdd(low, ShiftHalf(high));
    WrapOf(x);
  }

  lemma BlockConstantParts(h: int)
    ensures Wrap(LowHalf(h) + 0x6b64 + ShiftHalf(LowHalf(HighHalf(h) + 0xe654))) == Wrap(ToUint32(h) + 0xe6546b64)
  {
    hide LowHalf, HighHalf, ShiftHalf;
    WrapMod(HighHalf(h) + 0xe654, 65536);
    BlockConstantSum(ToUint32(h), ShiftHalf(LowHalf(HighHalf(h) + 0xe654)));
  }

  method JsScramble(k: int) returns (x: int)
    ensures Int32(x) && ToUint32(x) == Scramble(ToUint32(k))
  {
    hide ToUint32, Mul, RotateLeft;
    x := JsProduct(k, C1);
    x := JsRotate(x, 15);
    x := JsProduct(x, C2);
  }

  function LowByte(u: Unit): byte {
    u % 256
  }

  /** A string of units as the hash sees it: unit by unit modulo 256. */
  function LowBytes(key: seq<Unit>): (b: seq<byte>)
    ensures |b| == |key|
    ensures forall i :: 0 <= i < |key| ==> b[i] == LowByte(key[i])
  {
    if key == [] then [] else [LowByte(key[0])] + LowBytes(key[1..])
  }

  lemma JsBlock(b0: byte, b1: byte, b2: byte, b3: byte)
    ensures ToUint32(JsOr(JsOr(JsOr(b0, JsShl(b1, 8)), JsShl(b2, 16)), JsShl(b3, 24))) ==
            Or(Or(Or(b0, Shl(b1, 8)), Shl(b2, 16)), Shl(b3, 24))
  {
    hide JsOr, JsShl, Or, Shl;
    JsOrBits(b0, JsShl(b1, 8));
    JsOrBits(JsOr(b0, JsShl(b1, 8)), JsShl(b2, 16));
    JsOrBits(JsOr(JsOr(b0, JsShl(b1, 8)), JsShl(b2, 16)), JsShl(b3, 24));
    JsShlBits(b1, 8);
    JsShlBits(b2, 16);
    JsShlBits(b3, 24);
  }

  /** charCodeAt(i) & 0xff. */
  function CharByte(key: seq<Unit>, i: nat): (b: int)
    requires i < |key|
    ensures b == LowBytes(key)[i]
  {
    JsMasks(key[i]);
    JsAnd(key[i], 0xff)
  }

  /** The loop over whole blocks. */
  method JsBody(key: seq<Unit>, seed: u32, bytes: nat) returns (h1: int)
    requires bytes <= |key| && bytes % 4 == 0
    ensures ToUint32(h1) == Body(LowBytes(key), seed, bytes)
  {
    hide Or, Shl, JsOr, JsShl, ToUint32, Wrap, CharByte, LowBytes, Absorb;
    ghost var b := LowBytes(key);
    h1 := seed;
    var i := 0;
    SmallNumber(seed);
    while i < bytes
      invariant i <= bytes && i % 4 == 0 && ToUint32(h1) == Body(b, seed, i)
    {
      var k1 := JsOr(JsOr(JsOr(CharByte(key, i), JsShl(CharByte(key, i + 1), 8)), JsShl(CharByte(key, i + 2), 16)),
                     JsShl(CharByte(key, i + 3), 24));
      JsBlock(b[i], b[i + 1], b[i + 2], b[i + 3]);
      h1 := JsBlockStep(h1, k1);
      i := i + 4;
    }
  }

  method MurmurHash3Js(key: seq<Unit>, seed: u32) returns (h: u32)
    requires |key| < TWO53
    ensures h == Murmur3(LowBytes(key), seed)
  {
    hide Xor, JsXor, JsAnd, ToUint32, Wrap, LowBytes, Body, TailWord, Scramble, Finish;
    JsMasks(|key|);
    WrapOf(|key|);
    var remainder := JsAnd(|key|, 3);
    var bytes := |key| - remainder;
    assert bytes == |key| / 4 * 4;
    var h1 := JsBody(key, seed, bytes);
    if remainder > 0 {
      var k1 := JsTailWord(key, bytes);
      var scrambled := JsScramble(k1);
      JsXorBits(h1, scrambled);
      h1 := JsXor(h1, scrambled);
    }
    JsXorBits(h1, |key|);
    h1 := JsXor(h1, |key|);
    h := JsFinish(h1);
  }

  method JsBlockStep(h: int, k: int) returns (h1: int)
    ensures ToUint32(h1) == Absorb(ToUint32(h), ToUint32(k))
  {
    hide Or, Xor, Mul, RotateLeft, JsXor, ToUint32, Wrap, Scramble;
    var k1 := JsScramble(k);
    JsXorBits(h, k1);
    h1 := JsXor(h, k1);
    h1 := JsRotate(h1, 13);
    h1 := JsProduct(h1, 5);
    h1 := JsAddBlockConstant(h1);
  }

  /** The switch over the remainder; each case falls through to the next. */
  method JsTailWord(key: seq<Unit>, i: nat) returns (k1: int)
    requires i < |key| <= i + 3
    ensures ToUint32(k1) == TailWord(LowBytes(key), i)
  {
    hide Xor, Shl, JsXor, JsShl, JsAnd, CharByte;
    k1 := 0;
    assert ToUint32(0) == 0;
    if |key| == i + 3 {
      JsXorBits(k1, JsShl(CharByte(key, i + 2), 16));
      JsShlBits(CharByte(key, i + 2), 16);
      SmallNumber(CharByte(key, i + 2));
      k1 := JsXor(k1, JsShl(CharByte(key, i + 2), 16));
    }
    if |key| >= i + 2 {
      JsXorBits(k1, JsShl(CharByte(key, i + 1), 8));
      JsShlBits(CharByte(key, i + 1), 8);
      SmallNumber(CharByte(key, i + 1));
      k1 := JsXor(k1, JsShl(CharByte(key, i + 1), 8));
    }
    JsXorBits(k1, CharByte(key, i));
    SmallNumber(CharByte(key, i));
    k1 := JsXor(k1, CharByte(key, i));
  }

  method JsFinish(h: int) returns (r: u32)
    ensures r == Finish(ToUint32(h))
  {
    hide Xor, Shr, Mul, JsXor;
    JsXorShift(h, 16);
    var h1 := JsXor(h, JsUshr(h, 16));
    h1 := JsProduct(h1, 0x85ebca6b);
    JsXorShift(h1, 13);
    h1 := JsXor(h1, JsUshr(h1, 13));
    h1 := JsProduct(h1, 0xc2b2ae35);
    JsXorShift(h1, 16);
    h1 := JsXor(h1, JsUshr(h1, 16));
    assert Pow2(0) == 1;
    r := JsUshr(h1, 0);
    ShiftByNothing(ToUint32(h1));
  }

  lemma JsXorShift(h: int, r: nat)
    ensures ToUint32(JsXor(h, JsUshr(h, r))) == Xor(ToUint32(h), Shr(ToUint32(h), r))
  {
    JsXorBits(h, JsUshr(h, r));
    SmallNumber(JsUshr(h, r));
  }

  lemma ShiftByNothing(u: u32)
    ensures Shr(u, 0) == u
  {
  }
}
