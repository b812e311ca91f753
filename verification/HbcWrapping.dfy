/**
 32-bit unsigned arithmetic under the mask of a bit field is arithmetic modulo 2 to the width
 of the field (cpp/patch_core/hbc_transform.cpp:122-138): proved on the binary digits, from
 the lowest one up.
 */
module HbcWrapping {
  import opened HbcFields

  /** The sum or difference of two field values as the source computes it, in 32 bits. */
  function Wrapped(val: nat, prev: nat, inverse: bool): (e: nat)
    ensures e < 0x1_0000_0000
  {
    (if inverse then val + prev else val - prev) % 0x1_0000_0000
  }

  /** Some low bits and no others. */
  predicate IsMask(f: bv32) {
    f != 0 && f & (f + 1) == 0
  }

  lemma FieldMaskIsMask(bits: bv32)
    requires 1 <= bits <= 32
    ensures IsMask(FieldMask(bits))
  {
  }

  lemma BitsIsWord(v: nat)
    requires v < 0x1_0000_0000
    ensures Bits(v) == Word(v)
  {
  }

  lemma BitsHalf(v: nat)
    ensures Bits(v) == Joined(Bits(v / 2), v % 2 == 1)
  {
    hide Joined;
    if v == 0 {
      JoinedNothing();
    }
  }

  lemma JoinedNothing()
    ensures Joined(0, false) == 0
  {
  }

  lemma BitsOfSome(v: nat)
    requires 0 < v < 0x1_0000_0000
    ensures Bits(v) != 0
  {
    BitsIsWord(v);
  }

  function And(x: bv32, y: bv32): bv32 {
    x & y
  }

  function Ones(k: nat): bv32 {
    if k == 0 then 0 else Joined(Ones(k - 1), true)
  }

  lemma {:induction false} BitsBelow(v: nat, k: nat)
    requires k <= 32 && v < Power(k) && v < 0x1_0000_0000
    ensures Bits(v) & !Ones(k) == 0
  {
    hide Bits, Joined;
    if k == 0 {
      BitsOfNone();
      assert (0 as bv32) & !0 == 0;
    } else {
      BitsHalf(v);
      BitsBelow(v / 2, k - 1);
      HalfOutside(Bits(v / 2), v % 2 == 1, Ones(k - 1));
    }
  }

  lemma HalfOutside(h: bv32, odd: bool, f: bv32)
    requires h & !f == 0
    ensures Joined(h, odd) & !Joined(f, true) == 0
  {
  }

  lemma OnesOf31()
    ensures Ones(31) == 0x7fff_ffff
  {
    assert Ones(8) == 0xff;
    assert Ones(16) == 0xffff;
    assert Ones(24) == 0xff_ffff;
  }

  lemma TopBitClear(v: nat)
    requires v < 0x8000_0000
    ensures Bits(v) & 0x8000_0000 == 0
  {
    hide Bits, Ones;
    PowerOf32();
    OnesOf31();
    BitsBelow(v, 31);
    assert !(0x7fff_ffff as bv32) == 0x8000_0000;
  }

  lemma HalfMask(h: bv32, odd: bool)
    requires IsMask(Joined(h, odd)) && h & 0x8000_0000 == 0
    ensures odd && (h != 0 ==> IsMask(h))
  {
  }

  lemma BitsOfNone()
    ensures Bits(0) == 0
  {
  }

  lemma HalfUnder(h: bv32, odd: bool, f: bv32)
    ensures And(Joined(h, odd), Joined(f, true)) == Joined(And(h, f), odd)
  {
  }

  lemma NoneUnder(h: bv32)
    ensures And(h, 0) == 0
  {
  }

  lemma RemainderIs(x: int, m: nat, q: int, r: nat)
    requires m > 0 && r < m && x == m * q + r
    ensures x % m == r
  {
    var p, s := x / m, x % m;
    assert m * q - m * p == s - r;
    if q > p {
      AtLeast(m, q - p);
    }
    if q < p {
      AtLeast(m, p - q);
    }
  }

  lemma AtLeast(m: nat, n: nat)
    requires n > 0
    ensures m * n >= m
  {
  }

  lemma HalvedMod(v: nat, m: nat)
    requires m > 0
    ensures v % (2 * m) / 2 == v / 2 % m && v % (2 * m) % 2 == v % 2
  {
    var q, r := v / (2 * m), v % (2 * m);
    assert v == 2 * (m * q) + r;
    assert v / 2 == m * q + r / 2;
    RemainderIs(v / 2, m, q, r / 2);
  }

  lemma MaskHalves(m: nat)
    requires m < 0x1_0000_0000 && IsMask(Bits(m))
    ensures m % 2 == 1 && Bits(m) == Joined(Bits(m / 2), true) && (m / 2 > 0 ==> IsMask(Bits(m / 2)))
  {
    hide Bits, IsMask, Joined;
    BitsHalf(m);
    TopBitClear(m / 2);
    HalfMask(Bits(m / 2), m % 2 == 1);
    if m / 2 > 0 {
      BitsOfSome(m / 2);
    }
  }

  lemma MaskedHalf(v: nat, m: nat)
    requires v < 0x1_0000_0000 && m < 0x1_0000_0000 && IsMask(Bits(m))
    ensures And(Bits(v), Bits(m)) == Joined(And(Bits(v / 2), Bits(m / 2)), v % 2 == 1)
  {
    hide Bits, IsMask, Joined, And;
    BitsHalf(v);
    MaskHalves(m);
    HalfUnder(Bits(v / 2), v % 2 == 1, Bits(m / 2));
  }

  /** Masking a word takes the remainder by the number after the mask. */
  lemma {:induction false} MaskIsRemainder(v: nat, m: nat)
    requires v < 0x1_0000_0000 && m < 0x1_0000_0000 && IsMask(Bits(m))
    ensures And(Bits(v), Bits(m)) == Bits(v % (m + 1))
    decreases m
  {
    hide Bits, IsMask, Joined, And;
    MaskHalves(m);
    MaskedHalf(v, m);
    HalvedMod(v, m / 2 + 1);
    BitsHalf(v % (m + 1));
    if m / 2 == 0 {
      BitsOfNone();
      NoneUnder(Bits(v / 2));
    } else {
      MaskIsRemainder(v / 2, m / 2);
    }
  }

  function Power(k: nat): (p: nat)
    ensures p > 0
  {
    if k == 0 then 1 else 2 * Power(k - 1)
  }

  lemma {:induction false} PowerSplit(a: nat, b: nat)
    ensures Power(a + b) == Power(a) * Power(b)
  {
    if a > 0 {
      PowerSplit(a - 1, b);
      assert Power(a) * Power(b) == 2 * (Power(a - 1) * Power(b));
    }
  }

  lemma PowerOf32()
    ensures Power(32) == 0x1_0000_0000
  {
    assert Power(8) == 0x100;
    assert Power(16) == 0x1_0000;
    assert Power(24) == 0x100_0000;
  }

  lemma {:induction false} MaskIsPower(m: nat) returns (k: nat)
    requires m < 0x1_0000_0000 && IsMask(Bits(m))
    ensures m + 1 == Power(k)
    decreases m
  {
    hide Bits, IsMask;
    MaskHalves(m);
    if m / 2 == 0 {
      k := 1;
    } else {
      var j := MaskIsPower(m / 2);
      k := j + 1;
    }
  }

  /** A modulus divides 2 to the 32. */
  lemma PowerDivides(k: nat) returns (c: nat)
    requires Power(k) <= 0x1_0000_0000
    ensures c > 0 && Power(k) * c == 0x1_0000_0000
  {
    PowerOf32();
    if k > 32 {
      PowerSplit(k - 33, 33);
      assert false;
    }
    PowerSplit(k, 32 - k);
    c := Power(32 - k);
  }

  lemma RemainderTwice(x: int, m: nat, c: nat)
    requires m > 0 && c > 0
    ensures m * c > 0 && x % (m * c) % m == x % m
  {
    assert m * c >= m;
    var q, r := x / (m * c), x % (m * c);
    assert x == (m * c) * q + r;
    assert (m * c) * q == m * (c * q);
    assert r == m * (r / m) + r % m;
    assert x == m * (c * q + r / m) + r % m;
    RemainderIs(x, m, c * q + r / m, r % m);
  }

  /** Under the field's mask, wrapping at 32 bits is wrapping at the width of the field. */
  lemma WrappedIsEncoded(val: nat, prev: nat, bits: bv32, inverse: bool)
    requires 1 <= bits <= 32
    ensures And(Word(Wrapped(val, prev, inverse)), FieldMask(bits)) == Word(Encoded(val, prev, Modulus(bits), inverse))
  {
    hide Bits, FieldMask, IsMask, Power, Modulus, Word, And;
    var x, m, w := if inverse then val + prev else val - prev, Modulus(bits) - 1, Wrapped(val, prev, inverse);
    FieldMaskIsMask(bits);
    MaskIsBits(bits);
    MaskIsRemainder(w, m);
    var k := MaskIsPower(m);
    var c := PowerDivides(k);
    RemainderTwice(x, m + 1, c);
    BitsIsWord(w);
    BitsIsWord(w % (m + 1));
  }

  lemma NumberIsBits(f: bv32)
    ensures f == Bits(f as nat)
  {
    hide Word, Bits;
    SameNumber(f, Word(f as nat));
    BitsIsWord(f as nat);
  }

  lemma MaskIsBits(bits: bv32)
    requires 1 <= bits <= 32
    ensures FieldMask(bits) == Bits(Modulus(bits) - 1)
  {
    hide FieldMask, Bits;
    NumberIsBits(FieldMask(bits));
  }
}
