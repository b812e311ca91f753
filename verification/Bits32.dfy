/**
 Unsigned 32-bit arithmetic on integers: powers of two, bitwise operations as recursion over
 binary digits, and JavaScript's 32-bit operators on top of them (sections 7.1.6 and 7.1.7
 of ECMA-262).
 */
module Bits32 {
  const TWO32: int := 0x1_0000_0000
  const TWO53: int := 0x20_0000_0000_0000

  type u32 = x: int | 0 <= x < 0x1_0000_0000

  function Pow2(n: nat): (p: nat)
    ensures p > 0
  {
    if n == 0 then 1 else 2 * Pow2(n - 1)
  }

  // ----- bitwise operations on n binary digits -----------------------------------

  function XorBits(a: nat, b: nat, n: nat): (r: nat)
    ensures r < Pow2(n)
  {
    if n == 0 then 0 else (a % 2 + b % 2) % 2 + 2 * XorBits(a / 2, b / 2, n - 1)
  }

  function OrBits(a: nat, b: nat, n: nat): (r: nat)
    ensures r < Pow2(n)
  {
    if n == 0 then 0 else (if a % 2 == 1 || b % 2 == 1 then 1 else 0) + 2 * OrBits(a / 2, b / 2, n - 1)
  }

  function AndBits(a: nat, b: nat, n: nat): (r: nat)
    ensures r < Pow2(n)
  {
    if n == 0 then 0 else (if a % 2 == 1 && b % 2 == 1 then 1 else 0) + 2 * AndBits(a / 2, b / 2, n - 1)
  }

  lemma Pow2Values()
    ensures Pow2(2) == 4 && Pow2(8) == 256 && Pow2(16) == 65536 && Pow2(32) == TWO32
  {
    assert Pow2(4) == 16;
    assert Pow2(8) == 256;
    assert Pow2(12) == 4096;
    assert Pow2(16) == 65536;
    assert Pow2(20) == 1048576;
    assert Pow2(24) == 16777216;
    assert Pow2(28) == 268435456;
    assert Pow2(32) == 4294967296;
  }

  function Xor(a: u32, b: u32): u32 {
    Pow2Values();
    XorBits(a, b, 32)
  }

  function Or(a: u32, b: u32): u32 {
    Pow2Values();
    OrBits(a, b, 32)
  }

  function And(a: u32, b: u32): u32 {
    Pow2Values();
    AndBits(a, b, 32)
  }

  /** The k low binary digits. */
  function LowBits(a: nat, k: nat): (r: nat)
    ensures r < Pow2(k)
  {
    if k == 0 then 0 else a % 2 + 2 * LowBits(a / 2, k - 1)
  }

  /** The number without its k low binary digits. */
  function HighBits(a: nat, k: nat): (r: nat)
    ensures r <= a
  {
    if k == 0 then a else HighBits(a / 2, k - 1)
  }

  lemma {:induction false} SplitBits(a: nat, k: nat)
    ensures a == Pow2(k) * HighBits(a, k) + LowBits(a, k)
  {
    if k > 0 {
      SplitBits(a / 2, k - 1);
      Regroup(a, Pow2(k - 1), HighBits(a / 2, k - 1), LowBits(a / 2, k - 1));
    }
  }

  lemma Regroup(a: nat, p: nat, h: nat, l: nat)
    requires a / 2 == p * h + l
    ensures a == (2 * p) * h + (a % 2 + 2 * l)
  {
    assert (2 * p) * h == 2 * (p * h);
  }

  lemma {:induction false} AndNone(a: nat, n: nat)
    ensures AndBits(a, 0, n) == 0
  {
    if n > 0 {
      AndNone(a / 2, n - 1);
    }
  }

  lemma OddHalf(p: nat)
    requires p > 0
    ensures (2 * p - 1) % 2 == 1 && (2 * p - 1) / 2 == p - 1
  {
  }

  /** Masking with k ones keeps the k low digits. */
  lemma {:induction false} AndLow(a: nat, k: nat, n: nat)
    requires k <= n
    ensures AndBits(a, Pow2(k) - 1, n) == LowBits(a, k)
  {
    if k == 0 {
      AndNone(a, n);
    } else {
      OddHalf(Pow2(k - 1));
      AndLow(a / 2, k - 1, n - 1);
    }
  }

  // ----- C++ unsigned arithmetic ---------------------------------------------------

  function Wrap(x: int): u32 {
    x % TWO32
  }

  function Mul(a: u32, b: u32): u32 {
    Wrap(a * b)
  }

  function Shl(a: u32, r: nat): u32 {
    Wrap(a * Pow2(r))
  }

  function Shr(a: u32, r: nat): u32 {
    HighBits(a, r)
  }

  lemma DivMod(a: nat, p: nat, h: nat, l: nat)
    requires p == 4 || p == 256 || p == 65536
    requires a == p * h + l && l < p
    ensures a / p == h && a % p == l
  {
    if p == 4 {
    } else if p == 256 {
    } else {
    }
  }

  lemma SplitValue(a: nat, k: nat, p: nat)
    requires p == Pow2(k) && (p == 4 || p == 256 || p == 65536)
    ensures HighBits(a, k) == a / p && LowBits(a, k) == a % p
  {
    SplitBits(a, k);
    DivMod(a, p, HighBits(a, k), LowBits(a, k));
  }

  lemma LowAll(a: u32)
    ensures LowBits(a, 32) == a
  {
    hide LowBits, HighBits;
    Pow2Values();
    SplitBits(a, 32);
    var h := HighBits(a, 32);
    assert Pow2(32) * h == TWO32 * h;
  }

  lemma ShrValues(a: u32)
    ensures Shr(a, 16) == a / 65536
    ensures LowBits(a, 2) == a % 4 && LowBits(a, 8) == a % 256 && LowBits(a, 16) == a % 65536 && LowBits(a, 32) == a
  {
    hide LowBits, HighBits, Pow2;
    Pow2Values();
    SplitValue(a, 2, 4);
    SplitValue(a, 8, 256);
    SplitValue(a, 16, 65536);
    LowAll(a);
  }

  function RotateLeft(a: u32, r: nat): u32
    requires r <= 32
  {
    Or(Shl(a, r), Shr(a, 32 - r))
  }

  // ----- JavaScript numbers -----------------------------------------------------------
  // A JavaScript number is a double; every arithmetic result below is shown to be an
  // integer of magnitude at most 2 to the 53, where doubles are exact.

  predicate Exact(x: int) {
    -TWO53 <= x <= TWO53
  }

  function JsMul(a: int, b: int): int
    requires Exact(a * b)
  {
    a * b
  }

  function JsAdd(a: int, b: int): int
    requires Exact(a + b)
  {
    a + b
  }

  function ToUint32(x: int): u32 {
    Wrap(x)
  }

  function ToInt32(x: int): (r: int)
    ensures -0x8000_0000 <= r < 0x8000_0000
    ensures ToUint32(r) == ToUint32(x)
  {
    var u := Wrap(x);
    if u >= 0x8000_0000 then
      WrapMinus(u);
      u - TWO32
    else u
  }

  lemma WrapMinus(u: u32)
    ensures Wrap(u - TWO32) == u && Wrap(u) == u
  {
  }

  function JsXor(a: int, b: int): int {
    ToInt32(Xor(ToUint32(a), ToUint32(b)))
  }

  function JsOr(a: int, b: int): int {
    ToInt32(Or(ToUint32(a), ToUint32(b)))
  }

  function JsAnd(a: int, b: int): int {
    ToInt32(And(ToUint32(a), ToUint32(b)))
  }

  function JsShl(a: int, r: nat): int {
    ToInt32(ToUint32(a) * Pow2(r))
  }

  function JsUshr(a: int, r: nat): int {
    Shr(ToUint32(a), r)
  }

  lemma JsXorBits(a: int, b: int)
    ensures ToUint32(JsXor(a, b)) == Xor(ToUint32(a), ToUint32(b))
  {
    WrapMinus(Xor(ToUint32(a), ToUint32(b)));
  }

  lemma JsOrBits(a: int, b: int)
    ensures ToUint32(JsOr(a, b)) == Or(ToUint32(a), ToUint32(b))
  {
    WrapMinus(Or(ToUint32(a), ToUint32(b)));
  }

  lemma JsShlBits(a: int, r: nat)
    ensures ToUint32(JsShl(a, r)) == Shl(ToUint32(a), r)
  {
  }

  lemma AndMask(u: u32, k: nat, mask: u32)
    requires k <= 32 && mask == Pow2(k) - 1
    ensures And(u, mask) == LowBits(u, k)
  {
    AndLow(u, k, 32);
  }

  lemma SmallMask(x: int, k: nat, mask: u32, p: nat)
    requires k <= 16 && p == Pow2(k) && mask == p - 1 && (p == 4 || p == 256 || p == 65536)
    ensures JsAnd(x, mask) == x % p
  {
    hide And, LowBits, Pow2;
    var u := ToUint32(x);
    AndMask(u, k, mask);
    SplitValue(u, k, p);
    WrapMod(x, p);
    SmallNumber(mask);
    SmallNumber(x % p);
  }

  lemma WrapMod(x: int, p: nat)
    requires p == 4 || p == 256 || p == 65536
    ensures Wrap(x) % p == x % p
  {
    if p == 4 {
    } else if p == 256 {
    } else {
    }
  }

  lemma SmallNumber(x: int)
    ensures 0 <= x < TWO32 ==> ToUint32(x) == x
    ensures 0 <= x < 0x8000_0000 ==> ToInt32(x) == x
  {
  }

  lemma FullMask(x: int)
    ensures JsAnd(x, 0xffff_ffff) == ToInt32(x)
  {
    hide And, LowBits, Pow2;
    Pow2Values();
    AndMask(ToUint32(x), 32, 0xffff_ffff);
    LowAll(ToUint32(x));
    SmallNumber(0xffff_ffff);
    WrapMinus(ToUint32(x));
  }

  /** The masks the hash uses: 3, 0xff and 0xffff keep low digits, 0xffffffff converts. */
  lemma JsMasks(x: int)
    ensures JsAnd(x, 3) == x % 4
    ensures JsAnd(x, 0xff) == x % 256
    ensures JsAnd(x, 0xffff) == x % 65536
    ensures JsAnd(x, 0xffff_ffff) == ToInt32(x)
  {
    hide JsAnd, ToInt32, Pow2;
    Pow2Values();
    SmallMask(x, 2, 3, 4);
    SmallMask(x, 8, 0xff, 256);
    SmallMask(x, 16, 0xffff, 65536);
    FullMask(x);
  }
}
