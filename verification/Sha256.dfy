/**
 The streaming SHA-256 (cpp/patch_core/digest.cpp:9-176): a 64-byte buffer in front of the
 block function. It is proved against the digest of the whole padded message (sections 5.1.1,
 5.3.3 and 6.2 of FIPS 180-4), for every message and every split of it into chunks.
 */
module Sha256 {
  // ----- the functions and constants of the standard ------------------------------------------

  function RotateRight(value: bv32, bits: bv32): bv32
    requires 0 < bits < 32
  {
    (value >> bits) | (value << (32 - bits))
  }

  function Ch(x: bv32, y: bv32, z: bv32): bv32 {
    (x & y) ^ (!x & z)
  }

  function Maj(x: bv32, y: bv32, z: bv32): bv32 {
    (x & y) ^ (x & z) ^ (y & z)
  }

  function BigSigma0(x: bv32): bv32 {
    RotateRight(x, 2) ^ RotateRight(x, 13) ^ RotateRight(x, 22)
  }

  function BigSigma1(x: bv32): bv32 {
    RotateRight(x, 6) ^ RotateRight(x, 11) ^ RotateRight(x, 25)
  }

  function SmallSigma0(x: bv32): bv32 {
    RotateRight(x, 7) ^ RotateRight(x, 18) ^ (x >> 3)
  }

  function SmallSigma1(x: bv32): bv32 {
    RotateRight(x, 17) ^ RotateRight(x, 19) ^ (x >> 10)
  }

  function Add(x: bv32, y: bv32): bv32 {
    x + y
  }

  const K: seq<bv32> := [
    0x428a2f98, 0x71374491, 0xb5c0fbcf, 0xe9b5dba5, 0x3956c25b, 0x59f111f1, 0x923f82a4, 0xab1c5ed5,
    0xd807aa98, 0x12835b01, 0x243185be, 0x550c7dc3, 0x72be5d74, 0x80deb1fe, 0x9bdc06a7, 0xc19bf174,
    0xe49b69c1, 0xefbe4786, 0x0fc19dc6, 0x240ca1cc, 0x2de92c6f, 0x4a7484aa, 0x5cb0a9dc, 0x76f988da,
    0x983e5152, 0xa831c66d, 0xb00327c8, 0xbf597fc7, 0xc6e00bf3, 0xd5a79147, 0x06ca6351, 0x14292967,
    0x27b70a85, 0x2e1b2138, 0x4d2c6dfc, 0x53380d13, 0x650a7354, 0x766a0abb, 0x81c2c92e, 0x92722c85,
    0xa2bfe8a1, 0xa81a664b, 0xc24b8b70, 0xc76c51a3, 0xd192e819, 0xd6990624, 0xf40e3585, 0x106aa070,
    0x19a4c116, 0x1e376c08, 0x2748774c, 0x34b0bcb5, 0x391c0cb3, 0x4ed8aa4a, 0x5b9cca4f, 0x682e6ff3,
    0x748f82ee, 0x78a5636f, 0x84c87814, 0x8cc70208, 0x90befffa, 0xa4506ceb, 0xbef9a3f7, 0xc67178f2]

  function RoundConstant(t: nat): bv32
    requires t < 64
  {
    K[t]
  }

  /** A hash value, or the working variables a to h. */
  datatype Words = Words(a: bv32, b: bv32, c: bv32, d: bv32, e: bv32, f: bv32, g: bv32, h: bv32)

  const INITIAL := Words(0x6a09e667, 0xbb67ae85, 0x3c6ef372, 0xa54ff53a, 0x510e527f, 0x9b05688c, 0x1f83d9ab, 0x5be0cd19)

  // ----- the block function ---------------------------------------------------------------------

  const BLOCK: nat := 64

  function BigEndian(b0: bv8, b1: bv8, b2: bv8, b3: bv8): bv32 {
    ((b0 as bv32) << 24) | ((b1 as bv32) << 16) | ((b2 as bv32) << 8) | (b3 as bv32)
  }

  /** The message schedule. */
  function W(block: seq<bv8>, t: nat): bv32
    requires |block| == BLOCK
  {
    if t < 16 then BigEndian(block[4 * t], block[4 * t + 1], block[4 * t + 2], block[4 * t + 3])
    else Add(Add(Add(W(block, t - 16), SmallSigma0(W(block, t - 15))), W(block, t - 7)), SmallSigma1(W(block, t - 2)))
  }

  /** One round. */
  function Round(v: Words, k: bv32, w: bv32): Words {
    var t1 := Add(Add(Add(Add(v.h, BigSigma1(v.e)), Ch(v.e, v.f, v.g)), k), w);
    var t2 := Add(BigSigma0(v.a), Maj(v.a, v.b, v.c));
    Words(Add(t1, t2), v.a, v.b, v.c, Add(v.d, t1), v.e, v.f, v.g)
  }

  function Rounds(v: Words, block: seq<bv8>, t: nat): Words
    requires |block| == BLOCK && t <= 64
  {
    if t == 0 then v else Round(Rounds(v, block, t - 1), RoundConstant(t - 1), W(block, t - 1))
  }

  function Sum(x: Words, y: Words): Words {
    Words(Add(x.a, y.a), Add(x.b, y.b), Add(x.c, y.c), Add(x.d, y.d), Add(x.e, y.e), Add(x.f, y.f), Add(x.g, y.g), Add(x.h, y.h))
  }

  function Compress(hash: Words, block: seq<bv8>): Words
    requires |block| == BLOCK
  {
    Sum(hash, Rounds(hash, block, 64))
  }

  /** Folds the block function over whole blocks. */
  function Blocks(hash: Words, data: seq<bv8>): Words
    requires |data| % BLOCK == 0
    decreases |data|
  {
    if data == [] then hash else Blocks(Compress(hash, data[..BLOCK]), data[BLOCK..])
  }

  // ----- padding -----------------------------------------------------------------------------------

  const TWO64: nat := 0x1_0000_0000_0000_0000

  /** uint64_t arithmetic. */
  function Wrap64(n: nat): nat {
    n % TWO64
  }

  /** How many zero bytes follow the 0x80: the least number that leaves room for the length. */
  function ZeroCount(length: nat): (k: nat)
    ensures k < BLOCK && (length + 1 + k) % BLOCK == 56
  {
    (119 - length % 64) % 64
  }

  function Zeros(n: nat): (z: seq<bv8>)
    ensures |z| == n
  {
    seq(n, i => 0)
  }

  function ByteAt(value: nat, i: nat): bv8
    requires i < 8
  {
    (value / Power256(7 - i) % 256) as bv8
  }

  function Power256(n: nat): (p: nat)
    ensures p > 0
  {
    if n == 0 then 1 else 256 * Power256(n - 1)
  }

  /** Eight bytes, the high one first, that hold eight times length modulo 2 to the 64. */
  function LengthField(length: nat): (f: seq<bv8>)
    ensures |f| == 8
  {
    seq(8, i requires 0 <= i < 8 => ByteAt(Wrap64(length * 8), i))
  }

  lemma PaddedLength(length: nat, zeros: nat)
    requires (length + 1 + zeros) % BLOCK == 56
    ensures (length + 1 + zeros + 8) % BLOCK == 0
  {
  }

  function Padded(message: seq<bv8>): (p: seq<bv8>)
    ensures |p| % BLOCK == 0
  {
    PaddedLength(|message|, ZeroCount(|message|));
    message + [0x80] + Zeros(ZeroCount(|message|)) + LengthField(|message|)
  }

  /** The hash of a message. */
  function Hash(message: seq<bv8>): Words {
    Blocks(INITIAL, Padded(message))
  }

  // ----- folding laws --------------------------------------------------------------------------------

  lemma {:induction false} BlocksSplit(hash: Words, a: seq<bv8>, b: seq<bv8>)
    requires |a| % BLOCK == 0 && |b| % BLOCK == 0
    ensures (|a| + |b|) % BLOCK == 0 && Blocks(hash, a + b) == Blocks(Blocks(hash, a), b)
    decreases |a|
  {
    hide Compress;
    if a == [] {
      assert a + b == b;
    } else {
      assert (a + b)[..BLOCK] == a[..BLOCK] && (a + b)[BLOCK..] == a[BLOCK..] + b;
      BlocksSplit(Compress(hash, a[..BLOCK]), a[BLOCK..], b);
    }
  }

  lemma OneBlock(hash: Words, block: seq<bv8>)
    requires |block| == BLOCK
    ensures Blocks(hash, block) == Compress(hash, block)
  {
    hide Compress;
    assert block[..BLOCK] == block && block[BLOCK..] == [];
  }

  /** One more block at the end. */
  lemma BlocksMore(hash: Words, a: seq<bv8>, block: seq<bv8>)
    requires |a| % BLOCK == 0 && |block| == BLOCK
    ensures |a + block| % BLOCK == 0 && Blocks(hash, a + block) == Compress(Blocks(hash, a), block)
  {
    hide Compress, Blocks;
    BlocksSplit(hash, a, block);
    OneBlock(Blocks(hash, a), block);
  }

  // ----- the output -------------------------------------------------------------------------------------

  function HexChar(n: bv32): char {
    if n == 0 then '0' else if n == 1 then '1' else if n == 2 then '2' else if n == 3 then '3'
    else if n == 4 then '4' else if n == 5 then '5' else if n == 6 then '6' else if n == 7 then '7'
    else if n == 8 then '8' else if n == 9 then '9' else if n == 10 then 'a' else if n == 11 then 'b'
    else if n == 12 then 'c' else if n == 13 then 'd' else if n == 14 then 'e' else 'f'
  }

  function ByteOfWord(w: bv32, k: nat): bv32
    requires k < 4
  {
    (if k == 0 then w >> 24 else if k == 1 then w >> 16 else if k == 2 then w >> 8 else w) & 0xff
  }

  function HighDigit(byte: bv32): bv32 {
    byte >> 4
  }

  function LowDigit(byte: bv32): bv32 {
    byte & 0xf
  }

  /** The two digits of byte k of a word, most significant first. */
  function HexByte(w: bv32, k: nat): string
    requires k < 4
  {
    [HexChar(HighDigit(ByteOfWord(w, k))), HexChar(LowDigit(ByteOfWord(w, k)))]
  }

  function HexWord(w: bv32): string {
    HexByte(w, 0) + HexByte(w, 1) + HexByte(w, 2) + HexByte(w, 3)
  }

  function Hex(ws: seq<bv32>): string {
    if ws == [] then "" else HexWord(ws[0]) + Hex(ws[1..])
  }

  function Listed(v: Words): seq<bv32> {
    [v.a, v.b, v.c, v.d, v.e, v.f, v.g, v.h]
  }

  /** The lowercase hexadecimal digest of a message. */
  function HexDigestOf(message: seq<bv8>): string {
    Hex(Listed(Hash(message)))
  }

  lemma HexCharInjective(m: bv32, n: bv32)
    requires m < 16 && n < 16 && HexChar(m) == HexChar(n)
    ensures m == n
  {
  }

  lemma HexByteInjective(w: bv32, v: bv32, k: nat)
    requires k < 4 && HexByte(w, k) == HexByte(v, k)
    ensures ByteOfWord(w, k) == ByteOfWord(v, k)
  {
    hide HexChar, ByteOfWord, HighDigit, LowDigit;
    var x, y := ByteOfWord(w, k), ByteOfWord(v, k);
    assert HexByte(w, k)[0] == HexChar(HighDigit(x)) && HexByte(w, k)[1] == HexChar(LowDigit(x));
    assert HexByte(v, k)[0] == HexChar(HighDigit(y)) && HexByte(v, k)[1] == HexChar(LowDigit(y));
    ByteParts(w, k);
    ByteParts(v, k);
    HexCharInjective(HighDigit(x), HighDigit(y));
    HexCharInjective(LowDigit(x), LowDigit(y));
    TwoHalves(x, y);
  }

  lemma ByteParts(w: bv32, k: nat)
    requires k < 4
    ensures HighDigit(ByteOfWord(w, k)) < 16 && LowDigit(ByteOfWord(w, k)) < 16
  {
  }

  lemma TwoHalves(x: bv32, y: bv32)
    requires HighDigit(x) == HighDigit(y) && LowDigit(x) == LowDigit(y)
    ensures x == y
  {
  }

  lemma FourBytes(w: bv32, v: bv32)
    requires (w >> 24) & 0xff == (v >> 24) & 0xff && (w >> 16) & 0xff == (v >> 16) & 0xff
    requires (w >> 8) & 0xff == (v >> 8) & 0xff && w & 0xff == v & 0xff
    ensures w == v
  {
  }

  lemma HexWordInjective(w: bv32, v: bv32)
    requires HexWord(w) == HexWord(v)
    ensures w == v
  {
    hide HexChar, ByteOfWord;
    forall k: nat | k < 4
      ensures ByteOfWord(w, k) == ByteOfWord(v, k)
    {
      assert HexByte(w, k) == HexWord(w)[2 * k..2 * k + 2];
      assert HexByte(v, k) == HexWord(v)[2 * k..2 * k + 2];
      HexByteInjective(w, v, k);
    }
    BytesMakeWord(w, v);
  }

  lemma BytesMakeWord(w: bv32, v: bv32)
    requires ByteOfWord(w, 0) == ByteOfWord(v, 0) && ByteOfWord(w, 1) == ByteOfWord(v, 1) && ByteOfWord(w, 2) == ByteOfWord(v, 2) && ByteOfWord(w, 3) == ByteOfWord(v, 3)
    ensures w == v
  {
    FourBytes(w, v);
  }

  /** The printed digest has eight digits a word and determines the words. */
  lemma {:induction false} HexInjective(x: seq<bv32>, y: seq<bv32>)
    requires |x| == |y|
    ensures |Hex(x)| == 8 * |x|
    ensures Hex(x) == Hex(y) ==> x == y
  {
    hide HexWord;
    HexLength(x);
    HexLength(y);
    if x != [] {
      HexInjective(x[1..], y[1..]);
      HexWordLength(x[0]);
      HexWordLength(y[0]);
      if Hex(x) == Hex(y) {
        assert HexWord(x[0]) == Hex(x)[..8] && HexWord(y[0]) == Hex(y)[..8];
        assert Hex(x[1..]) == Hex(x)[8..] && Hex(y[1..]) == Hex(y)[8..];
        HexWordInjective(x[0], y[0]);
        assert x == [x[0]] + x[1..] && y == [y[0]] + y[1..];
      }
    }
  }

  lemma {:induction false} HexLength(x: seq<bv32>)
    ensures |Hex(x)| == 8 * |x|
  {
    hide HexWord;
    if x != [] {
      HexWordLength(x[0]);
      HexLength(x[1..]);
    }
  }

  lemma HexWordLength(w: bv32)
    ensures |HexWord(w)| == 8
  {
  }

  // ----- the class -----------------------------------------------------------------------------------------

  function WordsOf(s: seq<bv32>): Words
    requires |s| == 8
  {
    Words(s[0], s[1], s[2], s[3], s[4], s[5], s[6], s[7])
  }

  class Sha256 {
    const state: array<bv32>
    const buffer: array<bv8>
    var bufferLength: nat
    /** Bytes fed, modulo 2 to the 64. */
    var totalLength: nat
    /** All bytes fed, padding included. */
    ghost var message: seq<bv8>

    ghost predicate Valid()
      reads this, state, buffer
    {
      Buffered() && totalLength == Wrap64(|message|)
    }

    /** The bytes after the last whole block wait in the buffer. */
    ghost predicate Buffered()
      reads this, state, buffer
    {
      && buffer.Length == BLOCK
      && bufferLength < BLOCK && bufferLength == |message| % BLOCK
      && buffer[..bufferLength] == message[|message| - bufferLength..]
      && Digested(|message| - bufferLength)
    }

    /** The first n bytes have gone through the block function. */
    ghost predicate Digested(n: nat)
      reads this, state
    {
      n <= |message| && n % BLOCK == 0 && state.Length == 8 &&
      WordsOf(state[..]) == Blocks(INITIAL, message[..n])
    }

    constructor ()
      ensures Valid() && message == [] && fresh(state) && fresh(buffer)
    {
      state := new bv32[8];
      buffer := new bv8[BLOCK];
      bufferLength, totalLength, message := 0, 0, [];
      new;
      state[0] := 0x6a09e667;
      state[1] := 0xbb67ae85;
      state[2] := 0x3c6ef372;
      state[3] := 0xa54ff53a;
      state[4] := 0x510e527f;
      state[5] := 0x9b05688c;
      state[6] := 0x1f83d9ab;
      state[7] := 0x5be0cd19;
    }

    method ProcessBlock(block: seq<bv8>)
      requires state.Length == 8 && |block| == BLOCK
      modifies state
      ensures WordsOf(state[..]) == Compress(old(WordsOf(state[..])), block)
    {
      hide Add, Ch, Maj, BigSigma0, BigSigma1, RoundConstant, W;
      var w := Schedule(block);
      var a, b, c, d := state[0], state[1], state[2], state[3];
      var e, f, g, h := state[4], state[5], state[6], state[7];
      ghost var first := WordsOf(state[..]);
      var i := 0;
      while i < 64
        invariant 0 <= i <= 64 && Words(a, b, c, d, e, f, g, h) == Rounds(first, block, i)
        invariant state[..] == old(state[..])
      {
        var s1 := BigSigma1(e);
        var ch := Ch(e, f, g);
        var temp1 := Add(Add(Add(Add(h, s1), ch), RoundConstant(i)), w[i]);
        var s0 := BigSigma0(a);
        var maj := Maj(a, b, c);
        var temp2 := Add(s0, maj);
        h := g;
        g := f;
        f := e;
        e := Add(d, temp1);
        d := c;
        c := b;
        b := a;
        a := Add(temp1, temp2);
        i := i + 1;
      }
      state[0] := Add(state[0], a);
      state[1] := Add(state[1], b);
      state[2] := Add(state[2], c);
      state[3] := Add(state[3], d);
      state[4] := Add(state[4], e);
      state[5] := Add(state[5], f);
      state[6] := Add(state[6], g);
      state[7] := Add(state[7], h);
    }

    /** Copies bytes to a position of the buffer. */
    method Store(at: nat, bytes: seq<bv8>)
      requires at + |bytes| <= buffer.Length
      modifies buffer
      ensures buffer[..at + |bytes|] == old(buffer[..at]) + bytes
    {
      var i := 0;
      while i < |bytes|
        invariant 0 <= i <= |bytes| && buffer[..at] == old(buffer[..at]) && buffer[at..at + i] == bytes[..i]
      {
        buffer[at + i] := bytes[i];
        assert buffer[at..at + i + 1] == buffer[at..at + i] + [bytes[i]];
        i := i + 1;
      }
      assert buffer[..at + i] == buffer[..at] + buffer[at..at + i];
    }

    /** Fills the buffer up; a full one goes through the block function. */
    method TopUp(data: seq<bv8>) returns (done: bool, position: nat)
      requires Buffered() && bufferLength > 0
      modifies this`bufferLength, this`message, state, buffer
      ensures position <= |data| && message == old(message) + data[..position]
      ensures if done then Buffered() && position == |data|
              else buffer.Length == BLOCK && bufferLength == 0 && Digested(|message|)
    {
      hide Compress, Blocks, WordsOf;
      ghost var start, n := message, |message| - bufferLength;
      var fill := BLOCK - bufferLength;
      var take := if |data| < fill then |data| else fill;
      Store(bufferLength, data[..take]);
      bufferLength := bufferLength + take;
      message := start + data[..take];
      Extended(start, n, data[..take]);
      if bufferLength < BLOCK {
        assert data[..take] == data;
        return true, take;
      }
      assert buffer[..] == buffer[..BLOCK];
      ProcessBlock(buffer[..]);
      LastBlock(message, n);
      bufferLength := 0;
      return false, take;
    }

    /** Whole blocks bypass the buffer. */
    method WholeBlocks(ghost start: seq<bv8>, data: seq<bv8>, from: nat) returns (position: nat)
      requires from <= |data| && message == start + data[..from] && buffer.Length == BLOCK
      requires bufferLength == 0 && Digested(|message|)
      modifies this`message, state
      ensures from <= position <= |data| && |data| - position < BLOCK
      ensures message == start + data[..position] && Digested(|message|)
    {
      hide Compress, Blocks, WordsOf;
      position := from;
      while |data| - position >= BLOCK
        invariant from <= position <= |data| && message == start + data[..position] && Digested(|message|)
      {
        ghost var block := data[position..position + BLOCK];
        ProcessBlock(data[position..position + BLOCK]);
        assert data[..position + BLOCK] == data[..position] + block;
        assert message[..|message|] == message;
        BlocksMore(INITIAL, message, block);
        message := message + block;
        position := position + BLOCK;
        assert message[..|message|] == message;
      }
    }

    method Update(data: seq<bv8>)
      requires Valid()
      modifies this, state, buffer
      ensures Valid() && message == old(message) + data
    {
      hide Compress, Blocks, WordsOf, Wrap64;
      ghost var start := message;
      totalLength := Wrap64(totalLength + |data|);
      LengthAdds(|start|, |data|);
      var position := 0;
      if bufferLength > 0 {
        var done;
        done, position := TopUp(data);
        if done {
          assert data[..position] == data;
          return;
        }
      } else {
        assert start + data[..0] == start;
      }
      position := WholeBlocks(start, data, position);
      assert start + data == message + data[position..];
      KeepRest(data[position..]);
    }

    /** What is left of the data waits in the buffer. */
    method KeepRest(rest: seq<bv8>)
      requires |rest| < BLOCK && buffer.Length == BLOCK && bufferLength == 0 && Digested(|message|)
      modifies this`bufferLength, this`message, buffer
      ensures Buffered() && message == old(message) + rest
    {
      hide Compress, Blocks, WordsOf;
      if |rest| > 0 {
        Store(0, rest);
        bufferLength := |rest|;
      }
      ghost var n := |message|;
      message := message + rest;
      assert message[..n] == old(message) == old(message)[..n] && message[n..] == rest;
    }

    /** The 0x80 and the zeros, one byte at a time up to the length field. */
    method Pad()
      requires Valid()
      modifies this, state, buffer
      ensures Valid() && bufferLength == 56
      ensures message == old(message) + [0x80] + Zeros(ZeroCount(|old(message)|))
    {
      hide Buffered, ZeroCount, Zeros, Wrap64;
      ghost var m := message;
      Update([0x80]);
      ghost var z := 0;
      NoZeros(m + [0x80]);
      while bufferLength != 56
        invariant Valid() && z <= ZeroCount(|m|) && message == m + [0x80] + Zeros(z)
        decreases ZeroCount(|m|) - z
      {
        WaitingLength();
        ZeroCountLeast(|m|, z);
        Update([0]);
        ZerosMore(m + [0x80], z);
        z := z + 1;
      }
      WaitingLength();
      ZeroCountLeast(|m|, z);
    }

    lemma WaitingLength()
      requires Valid()
      ensures bufferLength == |message| % BLOCK
    {
    }

    lemma AllDigested()
      requires Valid() && |message| % BLOCK == 0
      ensures state.Length == 8 && WordsOf(state[..]) == Blocks(INITIAL, message)
    {
      assert message[..|message|] == message;
    }

    /** Pads what was fed and prints the digest. */
    method HexDigest() returns (out: string)
      requires Valid()
      modifies this, state, buffer
      ensures out == HexDigestOf(old(message))
    {
      hide Buffered, Compress, Blocks, WordsOf, Hex, Listed, LengthField, ZeroCount, Zeros, Wrap64;
      ghost var m := message;
      var bitLength := Wrap64(totalLength * 8);
      BitLength(|m|);
      Pad();
      var lengthBytes := BigEndianBytes(bitLength);
      LengthBytes(|m|, lengthBytes);
      Update(lengthBytes);
      assert message == Padded(m);
      AllDigested();
      out := PrintState();
    }

    method PrintState() returns (out: string)
      requires state.Length == 8
      ensures out == Hex(Listed(WordsOf(state[..])))
    {
      hide HexWord;
      out := "";
      var ws := state[..];
      assert ws == Listed(WordsOf(ws)) && ws[0..] == ws;
      var i := 0;
      while i < 8
        invariant 0 <= i <= 8 && out + Hex(ws[i..]) == Hex(ws)
      {
        assert ws[i..][1..] == ws[i + 1..] && ws[i..][0] == ws[i];
        var word := PrintWord(ws[i]);
        out := out + word;
        i := i + 1;
      }
      assert ws[i..] == [] && out + "" == out;
    }
  }

  /** The inner loop, over the shifts 24, 16, 8 and 0. */
  method PrintWord(w: bv32) returns (out: string)
    ensures out == HexWord(w)
  {
    hide HexByte;
    out := "";
    var k := 0;
    while k < 4
      invariant 0 <= k <= 4
      invariant k == 0 ==> out == ""
      invariant k == 1 ==> out == HexByte(w, 0)
      invariant k == 2 ==> out == HexByte(w, 0) + HexByte(w, 1)
      invariant k == 3 ==> out == HexByte(w, 0) + HexByte(w, 1) + HexByte(w, 2)
      invariant k == 4 ==> out == HexWord(w)
    {
      out := out + HexByte(w, k);
      k := k + 1;
    }
  }

  /** The eight bytes of a 64-bit number, most significant first. */
  method BigEndianBytes(value: nat) returns (bytes: seq<bv8>)
    ensures |bytes| == 8 && forall i :: 0 <= i < 8 ==> bytes[i] == ByteAt(value, i)
  {
    hide ByteAt;
    bytes := [];
    var i := 0;
    while i < 8
      invariant 0 <= i <= 8 && |bytes| == i && forall j :: 0 <= j < i ==> bytes[j] == ByteAt(value, j)
    {
      bytes := bytes + [ByteAt(value, i)];
      i := i + 1;
    }
  }

  lemma LengthBytes(length: nat, bytes: seq<bv8>)
    requires |bytes| == 8 && forall i :: 0 <= i < 8 ==> bytes[i] == ByteAt(Wrap64(length * 8), i)
    ensures bytes == LengthField(length)
  {
    hide ByteAt;
  }

  lemma NoZeros(m: seq<bv8>)
    ensures m == m + Zeros(0)
  {
  }

  lemma ZerosMore(m: seq<bv8>, z: nat)
    ensures m + Zeros(z) + [0] == m + Zeros(z + 1)
  {
    assert Zeros(z) + [0] == Zeros(z + 1);
  }

  lemma BitLength(length: nat)
    ensures Wrap64(Wrap64(length) * 8) == Wrap64(length * 8)
  {
    var q, r := length / TWO64, length % TWO64;
    assert length * 8 == r * 8 + TWO64 * (8 * q);
    AddMultiple(r * 8, 8 * q);
  }

  lemma AddMultiple(a: nat, q: nat)
    ensures (a + TWO64 * q) % TWO64 == a % TWO64
  {
  }

  /** The padding loop stops at the first length that leaves room for the length field. */
  lemma ZeroCountLeast(length: nat, z: nat)
    requires z <= ZeroCount(length)
    ensures (length + 1 + z) % BLOCK == 56 <==> z == ZeroCount(length)
  {
  }

  lemma Extended(s: seq<bv8>, n: nat, more: seq<bv8>)
    requires n <= |s|
    ensures (s + more)[..n] == s[..n] && (s + more)[n..] == s[n..] + more
  {
  }

  lemma LastBlock(s: seq<bv8>, n: nat)
    requires n + BLOCK == |s| && n % BLOCK == 0
    ensures s[..|s|] == s && |s| % BLOCK == 0
    ensures Blocks(INITIAL, s) == Compress(Blocks(INITIAL, s[..n]), s[n..])
  {
    hide Compress, Blocks;
    BlocksMore(INITIAL, s[..n], s[n..]);
    assert s[..n] + s[n..] == s;
  }

  lemma LengthAdds(a: nat, b: nat)
    ensures Wrap64(Wrap64(a) + b) == Wrap64(a + b)
  {
  }

  /** The 64 schedule words of a block. */
  method Schedule(block: seq<bv8>) returns (w: array<bv32>)
    requires |block| == BLOCK
    ensures fresh(w) && w.Length == 64 && forall t :: 0 <= t < 64 ==> w[t] == W(block, t)
  {
    hide Add, SmallSigma0, SmallSigma1, BigEndian;
    w := new bv32[64];
    var i := 0;
    while i < 16
      invariant 0 <= i <= 16 && forall t :: 0 <= t < i ==> w[t] == W(block, t)
    {
      w[i] := BigEndian(block[i * 4], block[i * 4 + 1], block[i * 4 + 2], block[i * 4 + 3]);
      i := i + 1;
    }
    while i < 64
      invariant 16 <= i <= 64 && forall t :: 0 <= t < i ==> w[t] == W(block, t)
    {
      var s0 := SmallSigma0(w[i - 15]);
      var s1 := SmallSigma1(w[i - 2]);
      w[i] := Add(Add(Add(w[i - 16], s0), w[i - 7]), s1);
      i := i + 1;
    }
  }

  function Concat(chunks: seq<seq<bv8>>): seq<bv8> {
    if chunks == [] then [] else chunks[0] + Concat(chunks[1..])
  }

  lemma NoChunks()
    ensures Concat([]) == []
  {
  }

  lemma ConcatStep(done: seq<bv8>, chunks: seq<seq<bv8>>, i: nat)
    requires i < |chunks|
    ensures done + Concat(chunks[i..]) == (done + chunks[i]) + Concat(chunks[i + 1..])
  {
    assert chunks[i..][1..] == chunks[i + 1..];
  }

  /** A file read in chunks of any sizes has the digest of its bytes. */
  method HexDigestOfChunks(chunks: seq<seq<bv8>>) returns (out: string)
    ensures out == HexDigestOf(Concat(chunks))
  {
    hide HexDigestOf, Compress, Blocks, WordsOf, Wrap64, Concat;
    var hasher := new Sha256();
    var i := 0;
    assert chunks[0..] == chunks;
    while i < |chunks|
      invariant 0 <= i <= |chunks| && hasher.Valid() && fresh(hasher) && fresh(hasher.state) && fresh(hasher.buffer)
      invariant hasher.message + Concat(chunks[i..]) == Concat(chunks)
    {
      ConcatStep(hasher.message, chunks, i);
      hasher.Update(chunks[i]);
      i := i + 1;
    }
    assert chunks[i..] == [] && hasher.message + [] == hasher.message;
    NoChunks();
    out := hasher.HexDigest();
  }
}
