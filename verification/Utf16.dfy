/**
 From UTF-8 text to the bytes the rollout hash reads, one for each UTF-16 unit
 (cpp/update_flow_core/update_flow_core.cpp:19-77). The decoder is proved to undo every
 encoding a JavaScript string reaches the native side in: UTF-8, and the modified UTF-8 of
 JNI, where U+0000 takes two bytes and each surrogate is encoded on its own.
 Masks and shifts of disjoint fields are written as remainders and products.
 */
module Utf16 {
  import opened Bits32
  import opened Murmur

  // ----- the decoder -----------------------------------------------------------------

  datatype Step = Step(codePoint: nat, width: nat)

  predicate IsContinuation(b: byte) {
    0x80 <= b < 0xc0
  }

  function TwoBytes(b0: int, b1: int): (c: nat)
    requires 0 <= b0 && 0 <= b1
    ensures c < 0x800
  {
    b0 % 32 * 64 + b1 % 64
  }

  function ThreeBytes(b0: int, b1: int, b2: int): (c: nat)
    requires 0 <= b0 && 0 <= b1 && 0 <= b2
    ensures c < 0x10000
  {
    b0 % 16 * 4096 + b1 % 64 * 64 + b2 % 64
  }

  function FourBytes(b0: int, b1: int, b2: int, b3: int): (c: nat)
    requires 0 <= b0 && 0 <= b1 && 0 <= b2 && 0 <= b3
    ensures c < 0x200000
  {
    b0 % 8 * 262144 + b1 % 64 * 4096 + b2 % 64 * 64 + b3 % 64
  }

  /** One code point off the front; a malformed byte is U+FFFD. */
  function DecodeOne(s: seq<byte>): (d: Step)
    requires s != []
    ensures 1 <= d.width <= |s|
  {
    var first := s[0];
    if first < 0x80 then Step(first, 1)
    else if 0xc2 <= first <= 0xdf && |s| > 1 then
      if IsContinuation(s[1]) then Step(TwoBytes(first, s[1]), 2) else Step(0xfffd, 1)
    else if first == 0xc0 && |s| > 1 && s[1] == 0x80 then Step(0, 2)
    else if 0xe0 <= first <= 0xef && |s| > 2 then
      if IsContinuation(s[1]) && IsContinuation(s[2]) && !(first == 0xe0 && s[1] < 0xa0) then
        Step(ThreeBytes(first, s[1], s[2]), 3)
      else Step(0xfffd, 1)
    else if 0xf0 <= first <= 0xf4 && |s| > 3 then
      if IsContinuation(s[1]) && IsContinuation(s[2]) && IsContinuation(s[3]) &&
         !(first == 0xf0 && s[1] < 0x90) && !(first == 0xf4 && s[1] > 0x8f)
      then
        Step(FourBytes(first, s[1], s[2], s[3]), 4)
      else Step(0xfffd, 1)
    else Step(0xfffd, 1)
  }

  /** The low bytes of the one or two units of a code point. */
  function LowBytesOf(codePoint: nat): seq<byte> {
    if codePoint <= 0xffff then [codePoint % 256]
    else
      var c := codePoint - 0x10000;
      [(0xd800 + c / 1024) % 256, (0xdc00 + c % 1024) % 256]
  }

  function Utf16LowBytes(s: seq<byte>): seq<byte> {
    if s == [] then []
    else
      var d := DecodeOne(s);
      LowBytesOf(d.codePoint) + Utf16LowBytes(s[d.width..])
  }

  method DecodeUtf16LowBytes(utf8: seq<byte>) returns (units: seq<byte>)
    ensures units == Utf16LowBytes(utf8)
  {
    hide TwoBytes, ThreeBytes, FourBytes, DecodeOne, LowBytesOf;
    units := [];
    var i := 0;
    while i < |utf8|
      invariant i <= |utf8| && units + Utf16LowBytes(utf8[i..]) == Utf16LowBytes(utf8)
    {
      var codePoint, width := DecodeAt(utf8, i);
      assert utf8[i..][width..] == utf8[i + width..];
      i := i + width;
      units := AppendUnits(units, codePoint);
    }
    assert utf8[i..] == [];
  }

  /** The head of the loop body. */
  method DecodeAt(utf8: seq<byte>, i: nat) returns (codePoint: nat, width: nat)
    requires i < |utf8|
    ensures DecodeOne(utf8[i..]) == Step(codePoint, width)
  {
    hide TwoBytes, ThreeBytes, FourBytes;
    var first := utf8[i];
    codePoint, width := 0xfffd, 1;
    if first < 0x80 {
      codePoint := first;
    } else if 0xc2 <= first <= 0xdf && i + 1 < |utf8| {
      var b1 := utf8[i + 1];
      if IsContinuation(b1) {
        codePoint, width := TwoBytes(first, b1), 2;
      }
    } else if first == 0xc0 && i + 1 < |utf8| && utf8[i + 1] == 0x80 {
      codePoint, width := 0, 2;
    } else if 0xe0 <= first <= 0xef && i + 2 < |utf8| {
      var b1, b2 := utf8[i + 1], utf8[i + 2];
      if IsContinuation(b1) && IsContinuation(b2) && !(first == 0xe0 && b1 < 0xa0) {
        codePoint, width := ThreeBytes(first, b1, b2), 3;
      }
    } else if 0xf0 <= first <= 0xf4 && i + 3 < |utf8| {
      var b1, b2, b3 := utf8[i + 1], utf8[i + 2], utf8[i + 3];
      if IsContinuation(b1) && IsContinuation(b2) && IsContinuation(b3) &&
         !(first == 0xf0 && b1 < 0x90) && !(first == 0xf4 && b1 > 0x8f)
      {
        codePoint, width := FourBytes(first, b1, b2, b3), 4;
      }
    }
  }

  /** Its tail: one unit, or the two surrogates. */
  method AppendUnits(units: seq<byte>, codePoint: nat) returns (r: seq<byte>)
    ensures r == units + LowBytesOf(codePoint)
  {
    if codePoint <= 0xffff {
      r := units + [codePoint % 256];
    } else {
      var c := codePoint - 0x10000;
      r := units + [(0xd800 + c / 1024) % 256];
      r := r + [(0xdc00 + c % 1024) % 256];
    }
  }

  // ----- the encodings of a JavaScript string -------------------------------------------

  predicate IsHigh(u: Unit) {
    0xd800 <= u < 0xdc00
  }

  predicate IsLow(u: Unit) {
    0xdc00 <= u < 0xe000
  }

  /** One to three bytes for a unit on its own. */
  function UnitBytes(u: Unit): (b: seq<byte>)
    ensures 1 <= |b| <= 3
  {
    if u < 0x80 then [u]
    else if u < 0x800 then [0xc0 + u / 64, 0x80 + u % 64]
    else [0xe0 + u / 4096, 0x80 + u / 64 % 64, 0x80 + u % 64]
  }

  /** Four bytes for a surrogate pair. */
  function PairBytes(high: Unit, low: Unit): (b: seq<byte>)
    requires IsHigh(high) && IsLow(low)
    ensures |b| == 4
  {
    var c: int := 0x10000 + (high - 0xd800) * 1024 + (low - 0xdc00);
    [0xf0 + c / 262144, 0x80 + c / 4096 % 64, 0x80 + c / 64 % 64, 0x80 + c % 64]
  }

  /** UTF-8: surrogate pairs in four bytes, a lone surrogate on its own. */
  function Utf8(key: seq<Unit>): seq<byte> {
    if key == [] then []
    else if |key| >= 2 && IsHigh(key[0]) && IsLow(key[1]) then PairBytes(key[0], key[1]) + Utf8(key[2..])
    else UnitBytes(key[0]) + Utf8(key[1..])
  }

  /** The modified UTF-8 of JNI: no zero byte, and every unit on its own. */
  function ModifiedUtf8(key: seq<Unit>): seq<byte> {
    if key == [] then []
    else (if key[0] == 0 then [0xc0, 0x80] else UnitBytes(key[0])) + ModifiedUtf8(key[1..])
  }

  lemma TwoBytesBack(u: nat)
    requires u < 0x800
    ensures TwoBytes(0xc0 + u / 64, 0x80 + u % 64) == u
  {
  }

  lemma ThreeBytesBack(u: nat)
    requires u < 0x10000
    ensures ThreeBytes(0xe0 + u / 4096, 0x80 + u / 64 % 64, 0x80 + u % 64) == u
  {
    var q := u / 64;
    assert u / 4096 == q / 64;
  }

  lemma FourBytesBack(c: nat)
    requires c < 0x200000
    ensures FourBytes(0xf0 + c / 262144, 0x80 + c / 4096 % 64, 0x80 + c / 64 % 64, 0x80 + c % 64) == c
  {
    var q := c / 64;
    var r := q / 64;
    assert c / 4096 == r && c / 262144 == r / 64;
  }

  lemma DecodeUnit(u: Unit, rest: seq<byte>)
    ensures DecodeOne(UnitBytes(u) + rest) == Step(u, |UnitBytes(u)|)
  {
    hide TwoBytes, ThreeBytes, FourBytes;
    if u < 0x80 {
    } else if u < 0x800 {
      TwoBytesBack(u);
    } else {
      ThreeBytesBack(u);
    }
  }

  lemma DecodePair(high: Unit, low: Unit, rest: seq<byte>)
    requires IsHigh(high) && IsLow(low)
    ensures DecodeOne(PairBytes(high, low) + rest) == Step(0x10000 + (high - 0xd800) * 1024 + (low - 0xdc00), 4)
  {
    hide TwoBytes, ThreeBytes, FourBytes;
    FourBytesBack(0x10000 + (high - 0xd800) * 1024 + (low - 0xdc00));
  }

  lemma PairLowBytes(high: Unit, low: Unit)
    requires IsHigh(high) && IsLow(low)
    ensures LowBytesOf(0x10000 + (high - 0xd800) * 1024 + (low - 0xdc00)) == [LowByte(high), LowByte(low)]
  {
    var c := (high - 0xd800) * 1024 + (low - 0xdc00);
    assert c / 1024 == high - 0xd800 && c % 1024 == low - 0xdc00;
  }

  /** The bytes decoded from UTF-8 are the bytes JavaScript reads off its own units. */
  lemma {:induction false} Utf8KeepsLowBytes(key: seq<Unit>)
    ensures Utf16LowBytes(Utf8(key)) == LowBytes(key)
  {
    hide DecodeOne, UnitBytes, PairBytes, LowBytesOf, LowByte;
    if key == [] {
    } else if |key| >= 2 && IsHigh(key[0]) && IsLow(key[1]) {
      var rest := Utf8(key[2..]);
      DecodePair(key[0], key[1], rest);
      PairLowBytes(key[0], key[1]);
      Utf8KeepsLowBytes(key[2..]);
      assert (PairBytes(key[0], key[1]) + rest)[4..] == rest;
      assert key[1..][1..] == key[2..];
    } else {
      UnitStep(key, Utf8(key[1..]));
      Utf8KeepsLowBytes(key[1..]);
    }
  }

  lemma UnitStep(key: seq<Unit>, rest: seq<byte>)
    requires key != []
    ensures Utf16LowBytes(UnitBytes(key[0]) + rest) == [LowByte(key[0])] + Utf16LowBytes(rest)
  {
    DecodeUnit(key[0], rest);
    assert (UnitBytes(key[0]) + rest)[|UnitBytes(key[0])|..] == rest;
  }

  /** So are those decoded from the modified UTF-8 of JNI. */
  lemma {:induction false} ModifiedUtf8KeepsLowBytes(key: seq<Unit>)
    ensures Utf16LowBytes(ModifiedUtf8(key)) == LowBytes(key)
  {
    hide UnitBytes;
    if key != [] {
      var rest := ModifiedUtf8(key[1..]);
      ModifiedUtf8KeepsLowBytes(key[1..]);
      if key[0] == 0 {
        assert ([0xc0, 0x80] + rest)[2..] == rest;
      } else {
        UnitStep(key, rest);
      }
    }
  }

  // ----- one bucket -----------------------------------------------------------------------

  /** cpp/update_flow_core/update_flow_core.cpp:79-131: decode, then hash. */
  method NativeHash(key: seq<byte>, seed: u32) returns (h: u32)
    ensures h == Murmur3(Utf16LowBytes(key), seed)
  {
    var units := DecodeUtf16LowBytes(key);
    h := Murmur3Native(units, seed);
  }

  /** Whether the native side puts a uuid into a rollout of the given percentage. */
  function IsInRollout(rollout: real, uuid: seq<byte>): bool {
    (Murmur3(Utf16LowBytes(uuid), 0) % 100) as real < rollout
  }

  function IsInRolloutJs(rollout: real, uuid: seq<Unit>): bool {
    (Murmur3(LowBytes(uuid), 0) % 100) as real < rollout
  }

  /** Both sides put every uuid into the same rollout bucket. */
  lemma SameBucket(rollout: real, uuid: seq<Unit>)
    ensures IsInRollout(rollout, Utf8(uuid)) <==> IsInRolloutJs(rollout, uuid)
    ensures IsInRollout(rollout, ModifiedUtf8(uuid)) <==> IsInRolloutJs(rollout, uuid)
  {
    Utf8KeepsLowBytes(uuid);
    ModifiedUtf8KeepsLowBytes(uuid);
  }
}
