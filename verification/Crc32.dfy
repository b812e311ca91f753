/**
 The streaming CRC-32 (cpp/patch_core/digest.cpp:178-229): a 256-entry table, one lookup per
 byte. The table form is proved equal to the division by the reflected polynomial carried out
 one message bit at a time (section 3.2.9 of IEEE 802.3), for every message and every split
 of it into chunks.
 */
module Crc32 {
  const POLYNOMIAL: bv32 := 0xEDB88320
  const INITIAL: bv32 := 0xFFFFFFFF

  // ----- the division, bit by bit ----------------------------------------------------------

  /** One step of the shift register. */
  function Shift(v: bv32): bv32 {
    if v & 1 == 1 then (v >> 1) ^ POLYNOMIAL else v >> 1
  }

  function Xor(a: bv32, b: bv32): bv32 {
    a ^ b
  }

  function BitWord(b: bool): bv32 {
    if b then 1 else 0
  }

  /** Divides on with the next message bits. */
  function Divide(register: bv32, bits: seq<bool>): bv32
    decreases |bits|
  {
    if bits == [] then register else Divide(Shift(Xor(register, BitWord(bits[0]))), bits[1..])
  }

  /** The bits of a byte in transmission order, lowest first. */
  function ByteBits(b: bv8): (r: seq<bool>)
    ensures |r| == 8
  {
    [b & 1 != 0, b & 2 != 0, b & 4 != 0, b & 8 != 0, b & 16 != 0, b & 32 != 0, b & 64 != 0, b & 128 != 0]
  }

  function MessageBits(data: seq<bv8>): seq<bool> {
    if data == [] then [] else ByteBits(data[0]) + MessageBits(data[1..])
  }

  /** The checksum of a message. */
  function Checksum(data: seq<bv8>): bv32 {
    Xor(Divide(INITIAL, MessageBits(data)), 0xFFFFFFFF)
  }

  // ----- linearity -------------------------------------------------------------------------------

  function Shifts(v: bv32, n: nat): bv32
    decreases n
  {
    if n == 0 then v else Shifts(Shift(v), n - 1)
  }

  lemma XorSplits(a: bv32, b: bv32)
    ensures (a ^ b) >> 1 == (a >> 1) ^ (b >> 1)
    ensures (a ^ b) & 1 == (a & 1) ^ (b & 1)
  {
  }

  lemma LowBit(a: bv32)
    ensures a & 1 == 0 || a & 1 == 1
  {
  }

  lemma XorMoves(x: bv32, y: bv32, p: bv32)
    ensures (x ^ p) ^ (y ^ p) == x ^ y
    ensures (x ^ p) ^ y == (x ^ y) ^ p
    ensures x ^ (y ^ p) == (x ^ y) ^ p
  {
  }

  lemma ShiftOfXor(a: bv32, b: bv32)
    ensures Shift(a ^ b) == Shift(a) ^ Shift(b)
  {
    XorSplits(a, b);
    LowBit(a);
    LowBit(b);
    XorMoves(a >> 1, b >> 1, POLYNOMIAL);
  }

  /** The step of the register is linear over xor. */
  lemma ShiftIsLinear(a: bv32, b: bv32)
    ensures Shift(Xor(a, b)) == Xor(Shift(a), Shift(b))
  {
    hide Shift;
    ShiftOfXor(a, b);
  }

  lemma {:induction false} ShiftsAreLinear(a: bv32, b: bv32, n: nat)
    ensures Shifts(Xor(a, b), n) == Xor(Shifts(a, n), Shifts(b, n))
    decreases n
  {
    hide Shift, Xor;
    if n > 0 {
      ShiftIsLinear(a, b);
      ShiftsAreLinear(Shift(a), Shift(b), n - 1);
    }
  }

  lemma {:induction false} ShiftsCompose(v: bv32, m: nat, n: nat)
    ensures Shifts(v, m + n) == Shifts(Shifts(v, m), n)
    decreases m
  {
    hide Shift;
    if m > 0 {
      ShiftsCompose(Shift(v), m - 1, n);
    }
  }

  lemma ShiftTwice(v: bv32)
    ensures Shifts(v, 2) == Shift(Shift(v))
  {
    hide Shift;
    assert Shifts(v, 2) == Shifts(Shift(v), 1) == Shifts(Shift(Shift(v)), 0);
  }

  /** A word without low bits is only shifted. */
  lemma OnlyShifted2(h: bv32)
    requires h & 3 == 0
    ensures Shifts(h, 2) == h >> 2
  {
    hide Shifts;
    ShiftTwice(h);
    assert h & 1 == 0 && (h >> 1) & 1 == 0 && (h >> 1) >> 1 == h >> 2;
  }

  lemma OnlyShifted4(h: bv32)
    requires h & 15 == 0
    ensures Shifts(h, 4) == h >> 4
  {
    hide Shifts, Shift;
    assert h & 3 == 0 && (h >> 2) & 3 == 0;
    OnlyShifted2(h);
    OnlyShifted2(h >> 2);
    ShiftsCompose(h, 2, 2);
    assert (h >> 2) >> 2 == h >> 4;
  }

  lemma OnlyShifted8(h: bv32)
    requires h & 255 == 0
    ensures Shifts(h, 8) == h >> 8
  {
    hide Shifts, Shift;
    assert h & 15 == 0 && (h >> 4) & 15 == 0;
    OnlyShifted4(h);
    OnlyShifted4(h >> 4);
    ShiftsCompose(h, 4, 4);
    assert (h >> 4) >> 4 == h >> 8;
  }

  // ----- the table ----------------------------------------------------------------------------------

  function Low(v: bv32): bv32 {
    v & 0xFF
  }

  function High(v: bv32): bv32 {
    v >> 8
  }

  function HighPart(v: bv32): bv32 {
    v & 0xFFFFFF00
  }

  lemma Parts(v: bv32)
    ensures Xor(Low(v), HighPart(v)) == v && HighPart(v) & 255 == 0 && HighPart(v) >> 8 == High(v)
  {
  }

  /** One table lookup replaces eight steps: the high bytes are only shifted. */
  lemma EightSteps(v: bv32)
    ensures Shifts(v, 8) == Xor(Shifts(Low(v), 8), High(v))
  {
    hide Shifts, Shift, Xor, Low, High, HighPart;
    Parts(v);
    OnlyShifted8(HighPart(v));
    ShiftsAreLinear(Low(v), HighPart(v), 8);
  }

  /** What the table holds at a byte. */
  function Entry(index: bv32): bv32 {
    Shifts(index, 8)
  }

  function ByteWord(b: bv8): bv32 {
    b as bv32
  }

  /** The register after one more byte, as the source computes it. */
  function ByTable(register: bv32, b: bv8): bv32 {
    Xor(Entry(Low(Xor(register, ByteWord(b)))), High(register))
  }

  lemma TableStep(register: bv32, b: bv8)
    ensures ByTable(register, b) == Shifts(Xor(register, ByteWord(b)), 8)
  {
    hide Shifts;
    EightSteps(Xor(register, ByteWord(b)));
    HighIgnores(register, b);
  }

  lemma HighIgnores(register: bv32, b: bv8)
    ensures High(Xor(register, ByteWord(b))) == High(register)
  {
  }

  // ----- the bits of a byte ---------------------------------------------------------------------------

  /** The value of at most eight bits, lowest first. */
  function Value(bits: seq<bool>): bv32
    requires |bits| <= 8
    decreases |bits|
  {
    if bits == [] then 0 else Xor(BitWord(bits[0]), Double(Value(bits[1..])))
  }

  function Double(v: bv32): bv32 {
    v << 1
  }

  lemma ShiftOfDouble(v: bv32)
    requires v < 0x8000_0000
    ensures Shift(Double(v)) == v
  {
    hide Shift;
    Doubled(v);
    EvenShift(Double(v));
  }

  lemma Doubled(v: bv32)
    requires v < 0x8000_0000
    ensures Double(v) & 1 == 0 && Double(v) >> 1 == v
  {
  }

  lemma EvenShift(h: bv32)
    requires h & 1 == 0
    ensures Shift(h) == h >> 1
  {
  }

  predicate Below(v: bv32, n: nat)
    requires n <= 8
  {
    match n
    case 0 => v == 0
    case 1 => v < 2
    case 2 => v < 4
    case 3 => v < 8
    case 4 => v < 16
    case 5 => v < 32
    case 6 => v < 64
    case 7 => v < 128
    case 8 => v < 256
  }

  lemma DoubleBelow(b: bool, v: bv32, n: nat)
    requires n < 8 && Below(v, n)
    ensures Below(Xor(BitWord(b), Double(v)), n + 1)
  {
  }

  lemma {:induction false} ValueBelow(bits: seq<bool>)
    requires |bits| <= 8
    ensures Below(Value(bits), |bits|)
    decreases |bits|
  {
    hide Xor, Double, BitWord, Below;
    if bits == [] {
      NothingBelow();
    } else {
      ValueBelow(bits[1..]);
      DoubleBelow(bits[0], Value(bits[1..]), |bits| - 1);
    }
  }

  lemma NothingBelow()
    ensures Below(0, 0)
  {
  }

  lemma BelowIsSmall(v: bv32, n: nat)
    requires n <= 8 && Below(v, n)
    ensures v < 0x8000_0000
  {
  }

  lemma XorAssociative(a: bv32, b: bv32, c: bv32)
    ensures Xor(a, Xor(b, c)) == Xor(Xor(a, b), c)
  {
  }

  /** Dividing by bits one at a time is adding them all at once and shifting as often. */
  lemma {:induction false} BitsAtOnce(register: bv32, bits: seq<bool>)
    requires |bits| <= 8
    ensures Divide(register, bits) == Shifts(Xor(register, Value(bits)), |bits|)
    decreases |bits|
  {
    hide Shift, Xor, Double, BitWord, Below;
    if bits == [] {
      XorZero(register);
    } else {
      var rest := bits[1..];
      var r, v := Xor(register, BitWord(bits[0])), Value(rest);
      BitsAtOnce(Shift(r), rest);
      ValueBelow(rest);
      BelowIsSmall(v, |rest|);
      ShiftOfDouble(v);
      ShiftIsLinear(r, Double(v));
      XorAssociative(register, BitWord(bits[0]), Double(v));
    }
  }

  lemma XorZero(v: bv32)
    ensures Xor(v, 0) == v
  {
  }

  lemma BitWords(b: bv8)
    ensures Value(ByteBits(b)) == ByteWord(b)
  {
    hide Xor, Double, BitWord, ByteWord;
    var r := ByteBits(b);
    var v7 := Xor(BitWord(r[7]), Double(0));
    var v6 := Xor(BitWord(r[6]), Double(v7));
    var v5 := Xor(BitWord(r[5]), Double(v6));
    var v4 := Xor(BitWord(r[4]), Double(v5));
    var v3 := Xor(BitWord(r[3]), Double(v4));
    var v2 := Xor(BitWord(r[2]), Double(v3));
    var v1 := Xor(BitWord(r[1]), Double(v2));
    assert Value(r[8..]) == 0;
    assert r[7..][1..] == r[8..] && Value(r[7..]) == v7;
    assert r[6..][1..] == r[7..] && Value(r[6..]) == v6;
    assert r[5..][1..] == r[6..] && Value(r[5..]) == v5;
    assert r[4..][1..] == r[5..] && Value(r[4..]) == v4;
    assert r[3..][1..] == r[4..] && Value(r[3..]) == v3;
    assert r[2..][1..] == r[3..] && Value(r[2..]) == v2;
    assert r[1..][1..] == r[2..] && Value(r[1..]) == v1;
    Horner(b);
  }

  lemma Horner(b: bv8)
    ensures var w := ByteWord(b);
            Xor(BitWord(b & 1 != 0), Double(Xor(BitWord(b & 2 != 0), Double(Xor(BitWord(b & 4 != 0), Double(Xor(BitWord(b & 8 != 0),
              Double(Xor(BitWord(b & 16 != 0), Double(Xor(BitWord(b & 32 != 0), Double(Xor(BitWord(b & 64 != 0),
              Double(Xor(BitWord(b & 128 != 0), Double(0)))))))))))))))) == w
  {
  }

  // ----- whole messages -----------------------------------------------------------------------------------

  /** The register after a message, byte by byte through the table. */
  function Absorb(register: bv32, data: seq<bv8>): bv32
    decreases |data|
  {
    if data == [] then register else Absorb(ByTable(register, data[0]), data[1..])
  }

  lemma {:induction false} DivideSplits(register: bv32, a: seq<bool>, b: seq<bool>)
    ensures Divide(register, a + b) == Divide(Divide(register, a), b)
    decreases |a|
  {
    hide Shift, Xor, BitWord;
    if a == [] {
      assert a + b == b;
    } else {
      assert (a + b)[1..] == a[1..] + b && (a + b)[0] == a[0];
      DivideSplits(Shift(Xor(register, BitWord(a[0]))), a[1..], b);
    }
  }

  lemma {:induction false} AbsorbSplits(register: bv32, a: seq<bv8>, b: seq<bv8>)
    ensures Absorb(register, a + b) == Absorb(Absorb(register, a), b)
    decreases |a|
  {
    hide ByTable;
    if a == [] {
      assert a + b == b;
    } else {
      assert (a + b)[1..] == a[1..] + b && (a + b)[0] == a[0];
      AbsorbSplits(ByTable(register, a[0]), a[1..], b);
    }
  }

  /** The table-driven register is the one of the bit-by-bit division, for every message. */
  lemma {:induction false} TableDivides(register: bv32, data: seq<bv8>)
    ensures Absorb(register, data) == Divide(register, MessageBits(data))
    decreases |data|
  {
    hide ByTable, ByteBits, Shifts, Xor, Value, Divide;
    if data == [] {
      DivideNothing(register);
    } else {
      var bits := ByteBits(data[0]);
      TableStep(register, data[0]);
      BitWords(data[0]);
      BitsAtOnce(register, bits);
      DivideSplits(register, bits, MessageBits(data[1..]));
      TableDivides(ByTable(register, data[0]), data[1..]);
    }
  }

  lemma DivideNothing(register: bv32)
    ensures Divide(register, []) == register
  {
  }

  // ----- what it detects -----------------------------------------------------------------------------------

  lemma ShiftInjective(a: bv32, b: bv32)
    requires Shift(a) == Shift(b)
    ensures a == b
  {
    assert (a >> 1) & 0x8000_0000 == 0 && (b >> 1) & 0x8000_0000 == 0;
  }

  lemma {:induction false} ShiftsInjective(a: bv32, b: bv32, n: nat)
    requires Shifts(a, n) == Shifts(b, n)
    ensures a == b
    decreases n
  {
    hide Shift;
    if n > 0 {
      ShiftsInjective(Shift(a), Shift(b), n - 1);
      ShiftInjective(a, b);
    }
  }

  lemma ByTableInjective(r: bv32, s: bv32, b: bv8, c: bv8)
    requires ByTable(r, b) == ByTable(s, c)
    ensures b == c ==> r == s
    ensures r == s ==> b == c
  {
    hide Shifts, ByTable, Xor, ByteWord;
    TableStep(r, b);
    TableStep(s, c);
    ShiftsInjective(Xor(r, ByteWord(b)), Xor(s, ByteWord(c)), 8);
    if b == c {
      XorInjective(r, s, ByteWord(b));
    }
    if r == s {
      XorCommutes(r, ByteWord(b));
      XorCommutes(r, ByteWord(c));
      XorInjective(ByteWord(b), ByteWord(c), r);
      ByteWordInjective(b, c);
    }
  }

  lemma XorCommutes(a: bv32, b: bv32)
    ensures Xor(a, b) == Xor(b, a)
  {
  }

  lemma ByteWordInjective(b: bv8, c: bv8)
    requires ByteWord(b) == ByteWord(c)
    ensures b == c
  {
  }

  lemma {:induction false} AbsorbInjective(r: bv32, s: bv32, data: seq<bv8>)
    requires Absorb(r, data) == Absorb(s, data)
    ensures r == s
    decreases |data|
  {
    hide ByTable;
    if data != [] {
      AbsorbInjective(ByTable(r, data[0]), ByTable(s, data[0]), data[1..]);
      ByTableInjective(r, s, data[0], data[0]);
    }
  }

  /** A message and the same message with one byte damaged never have the same checksum. */
  lemma DamagedByteDetected(before: seq<bv8>, b: bv8, c: bv8, after: seq<bv8>)
    requires b != c
    ensures Checksum(before + [b] + after) != Checksum(before + [c] + after)
  {
    hide ByTable, Divide, MessageBits, Xor;
    var m, n := before + [b] + after, before + [c] + after;
    TableDivides(INITIAL, m);
    TableDivides(INITIAL, n);
    AbsorbSplits(INITIAL, before + [b], after);
    AbsorbSplits(INITIAL, before, [b]);
    AbsorbSplits(INITIAL, before + [c], after);
    AbsorbSplits(INITIAL, before, [c]);
    var r := Absorb(INITIAL, before);
    AbsorbOne(r, b);
    AbsorbOne(r, c);
    if Checksum(m) == Checksum(n) {
      XorInjective(Absorb(INITIAL, m), Absorb(INITIAL, n), 0xFFFFFFFF);
      AbsorbInjective(ByTable(r, b), ByTable(r, c), after);
      ByTableInjective(r, r, b, c);
      assert false;
    }
  }

  lemma AbsorbOne(r: bv32, b: bv8)
    ensures Absorb(r, [b]) == ByTable(r, b)
  {
    hide ByTable;
    assert [b][1..] == [];
  }

  lemma XorInjective(a: bv32, b: bv32, p: bv32)
    requires Xor(a, p) == Xor(b, p)
    ensures a == b
  {
    XorMoves(a, b, p);
  }

  // ----- the table and the class ------------------------------------------------------------------------------

  function WordOf(i: nat): bv32
    requires i < 256
  {
    i as bv32
  }

  ghost predicate Filled(table: seq<bv32>, n: nat) {
    |table| == 256 && forall b: bv8 :: b as nat < n ==> table[b as nat] == Entry(ByteWord(b))
  }

  lemma FillsNext(table: seq<bv32>, i: nat)
    requires i < 256 && Filled(table, i) && table[i] == Entry(WordOf(i))
    ensures Filled(table, i + 1)
  {
    hide Entry, ByteWord, WordOf;
    forall b: bv8 | b as nat < i + 1
      ensures table[b as nat] == Entry(ByteWord(b))
    {
      if b as nat == i {
        IndexWord(b);
      }
    }
  }

  lemma WideValue(b: bv8)
    ensures ByteWord(b) as nat == b as nat
  {
  }

  lemma WordBack(w: bv32)
    requires w as nat < 256
    ensures WordOf(w as nat) == w
  {
  }

  lemma IndexWord(b: bv8)
    ensures WordOf(b as nat) == ByteWord(b)
  {
    hide ByteWord, WordOf;
    WideValue(b);
    WordBack(ByteWord(b));
  }

  lemma FilledKeeps(table: seq<bv32>, i: nat, v: bv32)
    requires i < 256 && Filled(table, i)
    ensures Filled(table[i := v], i)
  {
  }

  lemma OneMoreShift(v: bv32, n: nat)
    ensures Shifts(v, 0) == v && Shifts(v, n + 1) == Shifts(Shift(v), n)
  {
    hide Shift;
  }

  /** Fills the table, eight register steps an entry. */
  method BuildTable() returns (table: array<bv32>)
    ensures fresh(table) && Filled(table[..], 256)
  {
    hide Shifts, WordOf, ByteWord, Filled;
    table := new bv32[256];
    var i := 0;
    NoneFilled(table[..]);
    while i < 256
      invariant 0 <= i <= 256 && Filled(table[..], i)
    {
      var value := TableValue(i);
      ghost var old_table := table[..];
      table[i] := value;
      assert table[..] == old_table[i := value];
      FilledKeeps(old_table, i, value);
      FillsNext(table[..], i);
      i := i + 1;
    }
  }

  lemma NoneFilled(table: seq<bv32>)
    requires |table| == 256
    ensures Filled(table, 0)
  {
  }

  method TableValue(i: nat) returns (value: bv32)
    requires i < 256
    ensures value == Entry(WordOf(i))
  {
    hide Shifts, WordOf;
    value := WordOf(i);
    var bit := 0;
    while bit < 8
      invariant 0 <= bit <= 8 && Shifts(value, 8 - bit) == Entry(WordOf(i))
    {
      OneMoreShift(value, 7 - bit);
      value := if value & 1 == 1 then (value >> 1) ^ POLYNOMIAL else value >> 1;
      bit := bit + 1;
    }
    OneMoreShift(value, 0);
  }

  class Crc32 {
    const table: array<bv32>
    var state: bv32
    /** All bytes fed so far. */
    ghost var message: seq<bv8>

    ghost predicate Valid()
      reads this, table
    {
      Filled(table[..], 256) && state == Absorb(INITIAL, message)
    }

    constructor ()
      ensures Valid() && fresh(table) && message == []
    {
      hide ByTable, Filled, Entry;
      var t := BuildTable();
      table, state, message := t, INITIAL, [];
    }

    method Update(data: seq<bv8>)
      requires Valid()
      modifies this
      ensures Valid() && message == old(message) + data
    {
      hide ByTable, Filled, Absorb;
      var s := state;
      ghost var entries := table[..];
      var i := 0;
      AbsorbAt(state, data, 0);
      while i < |data|
        invariant 0 <= i <= |data| && Absorb(s, data[i..]) == Absorb(old(state), data)
        invariant state == old(state) && message == old(message) && table[..] == entries
      {
        AbsorbAt(s, data, i);
        s := Lookup(s, data[i]);
        i := i + 1;
      }
      AbsorbAt(s, data, i);
      AbsorbSplits(INITIAL, message, data);
      state := s;
      message := message + data;
    }

    /** The loop body. */
    method Lookup(register: bv32, b: bv8) returns (next: bv32)
      requires Valid()
      ensures next == ByTable(register, b)
    {
      hide ByTable, Filled, Absorb;
      LookUp(table[..], register, b);
      FilledLength(table[..]);
      next := table[LowByte(register ^ (b as bv32)) as nat] ^ (register >> 8);
    }

    /** The checksum of everything fed, however it was cut into updates. */
    method Value() returns (checksum: bv32)
      requires Valid()
      ensures checksum == Checksum(message)
    {
      hide ByTable, Filled, MessageBits;
      TableDivides(INITIAL, message);
      checksum := state ^ 0xFFFFFFFF;
    }
  }

  /** The table index, in the low byte of a word. */
  function LowByte(v: bv32): bv8 {
    (v & 0xFF) as bv8
  }

  lemma FilledLength(table: seq<bv32>)
    requires Filled(table, 256)
    ensures |table| == 256
  {
  }

  lemma LowByteWord(v: bv32)
    ensures ByteWord(LowByte(v)) == Low(v)
  {
  }

  lemma LookUp(table: seq<bv32>, register: bv32, b: bv8)
    requires Filled(table, 256)
    ensures var low := LowByte(register ^ (b as bv32));
            low as nat < |table| && table[low as nat] ^ (register >> 8) == ByTable(register, b)
  {
    hide Shifts, LowByte, Entry, Low;
    var v := register ^ (b as bv32);
    LowByteWord(v);
    ByteBelow(LowByte(v));
    assert v == Xor(register, ByteWord(b));
  }

  lemma ByteBelow(b: bv8)
    ensures b as nat < 256
  {
  }

  lemma AbsorbAt(register: bv32, data: seq<bv8>, i: nat)
    requires i <= |data|
    ensures data[0..] == data && (i == |data| ==> Absorb(register, data[i..]) == register)
    ensures i < |data| ==> Absorb(register, data[i..]) == Absorb(ByTable(register, data[i]), data[i + 1..])
  {
    hide ByTable;
    if i < |data| {
      assert data[i..][1..] == data[i + 1..] && data[i..][0] == data[i];
    }
  }

  function Concat(chunks: seq<seq<bv8>>): seq<bv8> {
    if chunks == [] then [] else chunks[0] + Concat(chunks[1..])
  }

  /** A file read in chunks of any sizes has the checksum of its bytes. */
  method Crc32OfChunks(chunks: seq<seq<bv8>>) returns (checksum: bv32)
    ensures checksum == Checksum(Concat(chunks))
  {
    hide Checksum, Filled, Absorb;
    var crc := new Crc32();
    var i := 0;
    assert chunks[0..] == chunks;
    while i < |chunks|
      invariant 0 <= i <= |chunks| && crc.Valid() && fresh(crc)
      invariant crc.message + Concat(chunks[i..]) == Concat(chunks)
    {
      assert chunks[i..][1..] == chunks[i + 1..];
      crc.Update(chunks[i]);
      i := i + 1;
    }
    assert chunks[i..] == [] && crc.message + [] == crc.message;
    checksum := crc.Value();
  }
}
