/**
 Bit fields of little-endian 32-bit words in a byte buffer, and the laws of reading and
 writing them (cpp/patch_core/hbc_transform.cpp:19-30 and 117-142).
 */
module HbcFields {
  // ----- little-endian words and bit fields ---------------------------------

  function WordOf(b0: bv8, b1: bv8, b2: bv8, b3: bv8): bv32 {
    (b0 as bv32) | ((b1 as bv32) << 8) | ((b2 as bv32) << 16) | ((b3 as bv32) << 24)
  }

  function ReadU32(b: seq<bv8>, p: nat): bv32
    requires p + 4 <= |b|
  {
    WordOf(b[p], b[p + 1], b[p + 2], b[p + 3])
  }

  function ByteOf(w: bv32, i: nat): bv8
    requires i < 4
  {
    if i == 0 then (w & 0xff) as bv8
    else if i == 1 then ((w >> 8) & 0xff) as bv8
    else if i == 2 then ((w >> 16) & 0xff) as bv8
    else ((w >> 24) & 0xff) as bv8
  }

  function WriteU32(b: seq<bv8>, p: nat, w: bv32): (r: seq<bv8>)
    requires p + 4 <= |b|
    ensures |r| == |b|
  {
    b[p := ByteOf(w, 0)][p + 1 := ByteOf(w, 1)][p + 2 := ByteOf(w, 2)][p + 3 := ByteOf(w, 3)]
  }

  predicate BitsOk(bit: bv32, bits: bv32) {
    1 <= bits <= 32 && bit <= 31 && bit + bits <= 32
  }

  function FieldMask(bits: bv32): bv32
    requires 1 <= bits <= 32
  {
    if bits == 32 then 0xffff_ffff else (1 << bits) - 1
  }

  function Mask(bit: bv32, bits: bv32): bv32
    requires BitsOk(bit, bits)
  {
    FieldMask(bits) << bit
  }

  function Place(v: bv32, bit: bv32): bv32
    requires bit <= 31
  {
    v << bit
  }

  function Extract(w: bv32, bit: bv32, bits: bv32): bv32
    requires BitsOk(bit, bits)
  {
    (w >> bit) & FieldMask(bits)
  }

  /** The word w with the bits of mask m replaced by e. */
  function Replace(w: bv32, m: bv32, e: bv32): bv32 {
    (w & !m) | e
  }

  /** One more than the largest value of a field. */
  function Modulus(bits: bv32): (m: nat)
    requires 1 <= bits <= 32
    ensures 0 < m <= 0x1_0000_0000
  {
    (FieldMask(bits) as nat) + 1
  }

  /** A word doubled, with a low bit. */
  function Joined(h: bv32, odd: bool): bv32 {
    if odd then (h << 1) | 1 else h << 1
  }

  lemma Doubled(h: bv32)
    requires h as nat < 0x8000_0000
    ensures (h << 1) as nat == 2 * (h as nat)
    ensures ((h << 1) | 1) as nat == 2 * (h as nat) + 1
  {
  }

  function Value(w: bv32): nat {
    w as nat
  }

  lemma JoinedValue(h: bv32, odd: bool)
    requires Value(h) < 0x8000_0000
    ensures Value(Joined(h, odd)) == 2 * Value(h) + if odd then 1 else 0
  {
    Doubled(h);
    if odd {
      assert Joined(h, odd) == (h << 1) | 1;
    } else {
      assert Joined(h, odd) == h << 1;
    }
  }

  /** A word from the binary digits of a number. */
  function Bits(v: nat): bv32 {
    if v == 0 then 0 else Joined(Bits(v / 2), v % 2 == 1)
  }

  lemma {:induction false} BitsValue(v: nat)
    requires v < 0x1_0000_0000
    ensures Value(Bits(v)) == v
  {
    hide Joined, Value;
    if v == 0 {
      NoValue();
    } else {
      BitsValue(v / 2);
      JoinedValue(Bits(v / 2), v % 2 == 1);
    }
  }

  lemma NoValue()
    ensures Value(0) == 0
  {
  }

  /** The number v as a 32-bit word. */
  function Word(v: nat): (w: bv32)
    requires v < 0x1_0000_0000
    ensures w as nat == v
  {
    BitsValue(v);
    Bits(v)
  }

  function Load(b: seq<bv8>, p: nat, bit: bv32, bits: bv32): nat
    requires p + 4 <= |b| && BitsOk(bit, bits)
  {
    Extract(ReadU32(b, p), bit, bits) as nat
  }

  /** The word at p with the bits of mask m replaced by e. */
  function StoreMasked(b: seq<bv8>, p: nat, m: bv32, e: bv32): (r: seq<bv8>)
    requires p + 4 <= |b|
    ensures |r| == |b|
  {
    WriteU32(b, p, Replace(ReadU32(b, p), m, e))
  }

  function Store(b: seq<bv8>, p: nat, bit: bv32, bits: bv32, v: nat): (r: seq<bv8>)
    requires p + 4 <= |b| && BitsOk(bit, bits) && v < Modulus(bits)
    ensures |r| == |b|
  {
    StoreMasked(b, p, Mask(bit, bits), Place(Word(v), bit))
  }

  /** Wrapping difference or sum: 32-bit arithmetic under the field's mask is arithmetic modulo 2 to its width. */
  function Encoded(val: nat, prev: nat, m: nat, inverse: bool): (e: nat)
    requires 0 < m
    ensures e < m
  {
    (if inverse then val + prev else val - prev) % m
  }

  // ----- laws of a single field access ---------------------------------------

  predicate InField(v: bv32, bits: bv32)
    requires 1 <= bits <= 32
  {
    v & FieldMask(bits) == v
  }

  /** e only has bits of the mask m. */
  predicate Inside(e: bv32, m: bv32) {
    e & !m == 0
  }

  function Merge(was: bv8, m: bv8, e: bv8): bv8 {
    (was & !m) | e
  }

  lemma BytesOfWord(b0: bv8, b1: bv8, b2: bv8, b3: bv8)
    ensures var w := WordOf(b0, b1, b2, b3);
            ByteOf(w, 0) == b0 && ByteOf(w, 1) == b1 && ByteOf(w, 2) == b2 && ByteOf(w, 3) == b3
  {
  }

  lemma MergedWord(w: bv32, m: bv32, e: bv32)
    ensures ByteOf((w & !m) | e, 0) == Merge(ByteOf(w, 0), ByteOf(m, 0), ByteOf(e, 0))
    ensures ByteOf((w & !m) | e, 1) == Merge(ByteOf(w, 1), ByteOf(m, 1), ByteOf(e, 1))
    ensures ByteOf((w & !m) | e, 2) == Merge(ByteOf(w, 2), ByteOf(m, 2), ByteOf(e, 2))
    ensures ByteOf((w & !m) | e, 3) == Merge(ByteOf(w, 3), ByteOf(m, 3), ByteOf(e, 3))
  {
  }

  lemma MergedBytes(w: bv32, m: bv32, e: bv32)
    ensures ByteOf(Replace(w, m, e), 0) == Merge(ByteOf(w, 0), ByteOf(m, 0), ByteOf(e, 0))
    ensures ByteOf(Replace(w, m, e), 1) == Merge(ByteOf(w, 1), ByteOf(m, 1), ByteOf(e, 1))
    ensures ByteOf(Replace(w, m, e), 2) == Merge(ByteOf(w, 2), ByteOf(m, 2), ByteOf(e, 2))
    ensures ByteOf(Replace(w, m, e), 3) == Merge(ByteOf(w, 3), ByteOf(m, 3), ByteOf(e, 3))
  {
    hide ByteOf, Merge;
    MergedWord(w, m, e);
  }

  lemma WrittenBytes(b: seq<bv8>, p: nat, w: bv32)
    requires p + 4 <= |b|
    ensures WriteU32(b, p, w) ==
            b[..p] + [ByteOf(w, 0), ByteOf(w, 1), ByteOf(w, 2), ByteOf(w, 3)] + b[p + 4..]
  {
  }

  lemma StoredBytes(b: seq<bv8>, p: nat, m: bv32, e: bv32)
    requires p + 4 <= |b|
    ensures StoreMasked(b, p, m, e) ==
            b[..p] + [Merge(b[p], ByteOf(m, 0), ByteOf(e, 0)), Merge(b[p + 1], ByteOf(m, 1), ByteOf(e, 1)),
                      Merge(b[p + 2], ByteOf(m, 2), ByteOf(e, 2)), Merge(b[p + 3], ByteOf(m, 3), ByteOf(e, 3))] + b[p + 4..]
  {
    var w := ReadU32(b, p);
    WrittenBytes(b, p, Replace(w, m, e));
    MergedBytes(w, m, e);
    BytesOfWord(b[p], b[p + 1], b[p + 2], b[p + 3]);
  }

  /** The part of a masked word at p that falls on byte t of the buffer. */
  function ByteAt(p: nat, m: bv32, t: nat): bv8 {
    if p <= t < p + 4 then ByteOf(m, t - p) else 0
  }

  /** No bit of the buffer belongs to both masked words. */
  ghost predicate WordsApart(p: nat, m: bv32, q: nat, n: bv32) {
    forall t: nat :: ByteAt(p, m, t) & ByteAt(q, n, t) == 0
  }

  lemma StoredByte(b: seq<bv8>, p: nat, m: bv32, e: bv32, t: nat)
    requires p + 4 <= |b| && t < |b|
    ensures StoreMasked(b, p, m, e)[t] == Merge(b[t], ByteAt(p, m, t), ByteAt(p, e, t))
  {
    hide ByteOf, StoreMasked;
    StoredBytes(b, p, m, e);
    if p <= t < p + 4 {
      assert t == p || t == p + 1 || t == p + 2 || t == p + 3;
    }
  }

  lemma InsideWord(m: bv32, e: bv32)
    requires Inside(e, m)
    ensures ByteOf(e, 0) & !ByteOf(m, 0) == 0 && ByteOf(e, 1) & !ByteOf(m, 1) == 0
    ensures ByteOf(e, 2) & !ByteOf(m, 2) == 0 && ByteOf(e, 3) & !ByteOf(m, 3) == 0
  {
  }

  lemma InsideBytes(p: nat, m: bv32, e: bv32, t: nat)
    requires Inside(e, m)
    ensures ByteAt(p, e, t) & !ByteAt(p, m, t) == 0
  {
    hide ByteOf;
    if p <= t < p + 4 {
      InsideWord(m, e);
      assert t == p || t == p + 1 || t == p + 2 || t == p + 3;
    }
  }

  lemma MergesCommute(x: bv8, m: bv8, e: bv8, n: bv8, f: bv8)
    requires m & n == 0 && e & !m == 0 && f & !n == 0
    ensures Merge(Merge(x, m, e), n, f) == Merge(Merge(x, n, f), m, e)
    ensures Merge(x, n, f) & m == x & m
  {
  }

  lemma StoresCommute(b: seq<bv8>, p: nat, m: bv32, e: bv32, q: nat, n: bv32, f: bv32)
    requires p + 4 <= |b| && q + 4 <= |b| && WordsApart(p, m, q, n)
    requires Inside(e, m) && Inside(f, n)
    ensures StoreMasked(StoreMasked(b, p, m, e), q, n, f) == StoreMasked(StoreMasked(b, q, n, f), p, m, e)
  {
    hide ByteAt, StoreMasked, Merge;
    var l, r := StoreMasked(StoreMasked(b, p, m, e), q, n, f), StoreMasked(StoreMasked(b, q, n, f), p, m, e);
    forall t: nat | t < |b|
      ensures l[t] == r[t]
    {
      StoredByte(b, p, m, e, t);
      StoredByte(b, q, n, f, t);
      StoredByte(StoreMasked(b, p, m, e), q, n, f, t);
      StoredByte(StoreMasked(b, q, n, f), p, m, e, t);
      InsideBytes(p, m, e, t);
      InsideBytes(q, n, f, t);
      MergesCommute(b[t], ByteAt(p, m, t), ByteAt(p, e, t), ByteAt(q, n, t), ByteAt(q, f, t));
    }
    assert l == r;
  }

  lemma MergedTwice(x: bv8, m: bv8, e: bv8, f: bv8)
    requires e & !m == 0
    ensures Merge(Merge(x, m, e), m, f) == Merge(x, m, f)
  {
  }

  lemma StoreTwice(b: seq<bv8>, p: nat, m: bv32, e: bv32, f: bv32)
    requires p + 4 <= |b| && Inside(e, m)
    ensures StoreMasked(StoreMasked(b, p, m, e), p, m, f) == StoreMasked(b, p, m, f)
  {
    hide ByteAt, StoreMasked, Merge, Inside;
    var l, r := StoreMasked(StoreMasked(b, p, m, e), p, m, f), StoreMasked(b, p, m, f);
    forall t: nat | t < |b|
      ensures l[t] == r[t]
    {
      StoredByte(b, p, m, e, t);
      StoredByte(b, p, m, f, t);
      StoredByte(StoreMasked(b, p, m, e), p, m, f, t);
      InsideBytes(p, m, e, t);
      MergedTwice(b[t], ByteAt(p, m, t), ByteAt(p, e, t), ByteAt(p, f, t));
    }
    assert l == r;
  }

  lemma WordOfBytes(w: bv32)
    ensures WordOf(ByteOf(w, 0), ByteOf(w, 1), ByteOf(w, 2), ByteOf(w, 3)) == w
  {
  }

  lemma ReadBack(b: seq<bv8>, p: nat, w: bv32)
    requires p + 4 <= |b|
    ensures ReadU32(WriteU32(b, p, w), p) == w
  {
    WordOfBytes(w);
  }

  lemma WriteSame(b: seq<bv8>, p: nat)
    requires p + 4 <= |b|
    ensures WriteU32(b, p, ReadU32(b, p)) == b
  {
    BytesOfWord(b[p], b[p + 1], b[p + 2], b[p + 3]);
  }

  lemma ByteFrame(b: seq<bv8>, p: nat, m: bv32, q: nat, n: bv32, f: bv32, t: nat)
    requires t < |b| && q + 4 <= |b| && WordsApart(p, m, q, n) && Inside(f, n)
    ensures StoreMasked(b, q, n, f)[t] & ByteAt(p, m, t) == b[t] & ByteAt(p, m, t)
  {
    hide ByteAt, StoreMasked, Merge;
    StoredByte(b, q, n, f, t);
    InsideBytes(q, n, f, t);
    MergesCommute(b[t], ByteAt(p, m, t), 0, ByteAt(q, n, t), ByteAt(q, f, t));
  }

  lemma ReadFrame(b: seq<bv8>, r: seq<bv8>, p: nat, m: bv32, q: nat, n: bv32, f: bv32)
    requires p + 4 <= |b| && q + 4 <= |b| && WordsApart(p, m, q, n) && Inside(f, n)
    requires r == StoreMasked(b, q, n, f)
    ensures ReadU32(r, p) & m == ReadU32(b, p) & m
  {
    forall t: nat | t < |b|
      ensures r[t] & ByteAt(p, m, t) == b[t] & ByteAt(p, m, t)
    {
      ByteFrame(b, p, m, q, n, f, t);
    }
  }

  lemma ValueInMask(bit: bv32, bits: bv32, v: bv32)
    requires BitsOk(bit, bits) && InField(v, bits)
    ensures Inside(Place(v, bit), Mask(bit, bits))
  {
  }

  lemma ExtractPlaced(w: bv32, bit: bv32, bits: bv32, v: bv32)
    requires BitsOk(bit, bits) && InField(v, bits)
    ensures Extract(Replace(w, Mask(bit, bits), Place(v, bit)), bit, bits) == v
  {
  }

  lemma PlaceExtracted(w: bv32, bit: bv32, bits: bv32)
    requires BitsOk(bit, bits)
    ensures Replace(w, Mask(bit, bits), Place(Extract(w, bit, bits), bit)) == w
  {
  }

  lemma FieldUnderMask(w: bv32, bit: bv32, bits: bv32)
    requires BitsOk(bit, bits)
    ensures (w >> bit) & FieldMask(bits) == ((w & Mask(bit, bits)) >> bit) & FieldMask(bits)
  {
    hide FieldMask, Mask;
    ShiftedAnd(w, Mask(bit, bits), bit);
    MaskBack(bit, bits);
  }

  lemma {:induction false} ShiftedAnd(w: bv32, m: bv32, bit: bv32)
    requires bit <= 31
    ensures (w & m) >> bit == (w >> bit) & (m >> bit)
  {
    if bit > 0 {
      ShiftedAnd(w, m, bit - 1);
      OneMore(w & m, bit);
      OneMore(w, bit);
      OneMore(m, bit);
    }
  }

  lemma OneMore(x: bv32, bit: bv32)
    requires 1 <= bit <= 31
    ensures x >> bit == (x >> (bit - 1)) >> 1
  {
  }

  lemma MaskBack(bit: bv32, bits: bv32)
    requires BitsOk(bit, bits)
    ensures Mask(bit, bits) >> bit == FieldMask(bits)
  {
  }

  lemma ExtractUnderMask(w: bv32, bit: bv32, bits: bv32)
    requires BitsOk(bit, bits)
    ensures Extract(w, bit, bits) == Extract(w & Mask(bit, bits), bit, bits)
  {
    hide Mask, FieldMask;
    FieldUnderMask(w, bit, bits);
  }

  lemma SameUnderMask(w: bv32, v: bv32, bit: bv32, bits: bv32)
    requires BitsOk(bit, bits) && w & Mask(bit, bits) == v & Mask(bit, bits)
    ensures Extract(w, bit, bits) == Extract(v, bit, bits)
  {
    hide Mask, Extract;
    ExtractUnderMask(w, bit, bits);
    ExtractUnderMask(v, bit, bits);
  }

  lemma ExtractInField(w: bv32, bit: bv32, bits: bv32)
    requires BitsOk(bit, bits)
    ensures InField(Extract(w, bit, bits), bits)
    ensures Extract(w, bit, bits) as nat < Modulus(bits)
  {
  }

  lemma SmallWord(v: bv32, bits: bv32)
    requires 1 <= bits <= 32 && v as nat < Modulus(bits)
    ensures InField(v, bits)
  {
  }

  lemma NumberOf(x: bv32)
    ensures (x as nat) as bv32 == x
  {
  }

  lemma SameNumber(x: bv32, y: bv32)
    requires x as nat == y as nat
    ensures x == y
  {
    NumberOf(x);
    NumberOf(y);
  }

  /** A value below the modulus, as a word, stays inside its field. */
  lemma PlacedInside(v: nat, bit: bv32, bits: bv32)
    requires BitsOk(bit, bits) && v < Modulus(bits)
    ensures Word(v) as nat == v && InField(Word(v), bits)
    ensures Inside(Place(Word(v), bit), Mask(bit, bits))
  {
    hide InField, Place, Mask, Inside, Modulus, Word;
    SmallWord(Word(v), bits);
    ValueInMask(bit, bits, Word(v));
  }

  lemma ModOnce(x: int, m: int)
    requires 0 < m
    ensures 0 <= x < m ==> x % m == x
    ensures -m <= x < 0 ==> x % m == x + m
    ensures m <= x < 2 * m ==> x % m == x - m
  {
    var q := x / m;
    assert x == m * q + x % m;
    if 0 <= x < m {
      assert q == 0;
    } else if -m <= x < 0 {
      assert q == -1;
    } else if m <= x < 2 * m {
      assert q == 1;
    }
  }

  lemma Decoded(val: nat, prev: nat, m: nat, inverse: bool)
    requires val < m && prev < m
    ensures Encoded(Encoded(val, prev, m, inverse), prev, m, !inverse) == val
  {
    ModOnce(val + prev, m);
    ModOnce(val - prev, m);
    var e := Encoded(val, prev, m, inverse);
    ModOnce(e + prev, m);
    ModOnce(e - prev, m);
  }

  // ----- laws of one field access ---------------------------------------------

  lemma LoadBelow(b: seq<bv8>, p: nat, bit: bv32, bits: bv32)
    requires p + 4 <= |b| && BitsOk(bit, bits)
    ensures Load(b, p, bit, bits) < Modulus(bits)
  {
    hide Extract, ReadU32, Modulus, InField;
    ExtractInField(ReadU32(b, p), bit, bits);
  }

  lemma LoadStored(b: seq<bv8>, p: nat, bit: bv32, bits: bv32, v: nat)
    requires p + 4 <= |b| && BitsOk(bit, bits) && v < Modulus(bits)
    ensures Load(Store(b, p, bit, bits, v), p, bit, bits) == v
  {
    hide Extract, Replace, Mask, Place, ReadU32, WriteU32, InField, Modulus, Inside, Word;
    PlacedInside(v, bit, bits);
    ReadBack(b, p, Replace(ReadU32(b, p), Mask(bit, bits), Place(Word(v), bit)));
    ExtractPlaced(ReadU32(b, p), bit, bits, Word(v));
  }

  lemma StoreLoaded(b: seq<bv8>, p: nat, bit: bv32, bits: bv32)
    requires p + 4 <= |b| && BitsOk(bit, bits)
    ensures Load(b, p, bit, bits) < Modulus(bits)
    ensures Store(b, p, bit, bits, Load(b, p, bit, bits)) == b
  {
    hide Extract, Replace, Mask, Place, ReadU32, WriteU32, Modulus, InField, Word;
    var field := Extract(ReadU32(b, p), bit, bits);
    ExtractInField(ReadU32(b, p), bit, bits);
    SameNumber(Word(field as nat), field);
    PlaceExtracted(ReadU32(b, p), bit, bits);
    WriteSame(b, p);
  }

  lemma LoadFrame(b: seq<bv8>, p: nat, bit: bv32, bits: bv32, q: nat, n: bv32, f: bv32)
    requires BitsOk(bit, bits) && p + 4 <= |b| && q + 4 <= |b|
    requires WordsApart(p, Mask(bit, bits), q, n) && Inside(f, n)
    ensures Load(StoreMasked(b, q, n, f), p, bit, bits) == Load(b, p, bit, bits)
  {
    hide Extract, Mask, ReadU32, StoreMasked, Inside, WordsApart;
    var r := StoreMasked(b, q, n, f);
    ReadFrame(b, r, p, Mask(bit, bits), q, n, f);
    SameUnderMask(ReadU32(r, p), ReadU32(b, p), bit, bits);
  }
}
