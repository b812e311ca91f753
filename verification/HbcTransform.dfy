/**
 The reversible in-place transform of Hermes bytecode (cpp/patch_core/hbc_transform.cpp).

 A layout, which comes with the patch and is not trusted, describes tables of fixed-size
 entries and bit fields inside each entry. The forward transform replaces a field by its
 difference to the same field of the previous entry, modulo the field's width; the inverse
 takes running sums. Both directions walk the fields in the SAME order, so whether one
 undoes the other depends on the fields of a section not interfering with each other.
 */
module HbcTransform {
  import opened HbcFields
  import HbcWrapping
  import opened Wrappers

  const HEADER_SIZE: nat := 128
  const COUNTS_OFFSET: nat := 32
  const MAX_ENTRY_COUNT: nat := 0x0fff_ffff
  const MAX_ENTRY_SIZE: nat := 4096
  const MAX_SECTIONS: nat := 64
  const MAX_COUNT_FIELDS: nat := 24
  const MAGIC: seq<bv8> := [0xc6, 0x1f, 0xbc, 0x03, 0xc1, 0x03, 0x19, 0x1f]

  /** Bits [bit, bit + bits) of the little-endian word `byte` bytes into an entry. */
  datatype DeltaField = DeltaField(byte: nat, bit: bv32, bits: bv32)

  datatype SectionDesc = SectionDesc(countIndex: nat, entrySize: nat, deltaFields: seq<DeltaField>)

  datatype LayoutDesc = LayoutDesc(headerCountFields: nat, sections: seq<SectionDesc>)

  /** A section found in a buffer: `count` entries from `start` on. */
  datatype ResolvedSection = ResolvedSection(start: nat, count: nat, desc: SectionDesc)

  // The sum bit + bits is a 32-bit sum, as in the source: the separate bound on `bit` is
  // what keeps a wrapped sum from passing.
  predicate FieldOk(field: DeltaField, entrySize: nat) {
    !(field.bits < 1 || field.bits > 32 || field.bit > 31 ||
      field.bit + field.bits > 32 || field.byte + 4 > entrySize)
  }

  // ----- one field of one section: a column of words -----------------------

  /** The words at first, first + stride, ... (count of them) and a bit field in each. */
  datatype Column = Column(first: nat, stride: nat, count: nat, bit: bv32, bits: bv32)

  function Pos(c: Column, k: nat): nat {
    c.first + k * c.stride
  }

  ghost predicate Fits(c: Column, n: nat) {
    && BitsOk(c.bit, c.bits)
    && (forall k: nat {:trigger Pos(c, k)} :: k < c.count ==> Pos(c, k) + 4 <= n)
  }

  /** Rewrites the column's words from index k on; `prev` is the plain value before them. */
  ghost function Pass(b: seq<bv8>, c: Column, k: nat, prev: nat, inverse: bool): (r: seq<bv8>)
    requires Fits(c, |b|) && k <= c.count
    ensures |r| == |b|
    decreases c.count - k
  {
    if k == c.count then b
    else
      var p := Pos(c, k);
      var val := Load(b, p, c.bit, c.bits);
      var enc := Encoded(val, prev, Modulus(c.bits), inverse);
      Pass(Store(b, p, c.bit, c.bits, enc), c, k + 1, if inverse then enc else val, inverse)
  }

  ghost predicate AllFit(cs: seq<Column>, n: nat) {
    forall c :: c in cs ==> Fits(c, n)
  }

  /** All columns, first to last, in either direction. */
  ghost function Rewrite(b: seq<bv8>, cs: seq<Column>, inverse: bool): (r: seq<bv8>)
    requires AllFit(cs, |b|)
    ensures |r| == |b|
    decreases |cs|
  {
    if cs == [] then b
    else Rewrite(Pass(b, cs[0], 0, 0, inverse), cs[1..], inverse)
  }

  // ----- laws of one pass -----------------------------------------------------

  function ColumnMask(c: Column): bv32
    requires BitsOk(c.bit, c.bits)
  {
    Mask(c.bit, c.bits)
  }

  /** No word of c from index k on shares a bit with the masked word at q. */
  ghost predicate ApartFrom(c: Column, k: nat, q: nat, n: bv32)
    requires BitsOk(c.bit, c.bits)
  {
    forall i: nat {:trigger Pos(c, i)} :: k <= i < c.count ==> WordsApart(Pos(c, i), ColumnMask(c), q, n)
  }

  ghost predicate SelfApart(c: Column)
    requires BitsOk(c.bit, c.bits)
  {
    forall k: nat {:trigger Pos(c, k)} :: k < c.count ==> ApartFrom(c, k + 1, Pos(c, k), ColumnMask(c))
  }

  ghost predicate Apart(c: Column, d: Column)
    requires BitsOk(c.bit, c.bits) && BitsOk(d.bit, d.bits)
  {
    forall l: nat {:trigger Pos(d, l)} :: l < d.count ==> ApartFrom(c, 0, Pos(d, l), ColumnMask(d))
  }

  lemma {:induction false} StoreThroughPass(
    b: seq<bv8>, c: Column, k: nat, prev: nat, inverse: bool, q: nat, n: bv32, f: bv32)
    requires Fits(c, |b|) && k <= c.count && q + 4 <= |b| && Inside(f, n)
    requires ApartFrom(c, k, q, n)
    ensures Pass(StoreMasked(b, q, n, f), c, k, prev, inverse) == StoreMasked(Pass(b, c, k, prev, inverse), q, n, f)
    decreases c.count - k
  {
    hide Load, StoreMasked, Encoded, Mask, WordsApart, Inside, Place, InField, Modulus, Word;
    if k < c.count {
      var p, val := Pos(c, k), Load(b, Pos(c, k), c.bit, c.bits);
      var enc := Encoded(val, prev, Modulus(c.bits), inverse);
      LoadFrame(b, p, c.bit, c.bits, q, n, f);
      PlacedInside(enc, c.bit, c.bits);
      StoresCommute(b, p, ColumnMask(c), Place(Word(enc), c.bit), q, n, f);
      StoreThroughPass(Store(b, p, c.bit, c.bits, enc), c, k + 1, if inverse then enc else val, inverse, q, n, f);
    }
  }

  lemma WordsApartFlip(p: nat, m: bv32, q: nat, n: bv32)
    requires WordsApart(p, m, q, n)
    ensures WordsApart(q, n, p, m)
  {
    hide ByteAt;
    forall t: nat
      ensures ByteAt(q, n, t) & ByteAt(p, m, t) == 0
    {
      assert ByteAt(p, m, t) & ByteAt(q, n, t) == 0;
    }
  }

  lemma {:induction false} LoadThroughPass(
    b: seq<bv8>, c: Column, k: nat, prev: nat, inverse: bool, q: nat, bit: bv32, bits: bv32)
    requires Fits(c, |b|) && k <= c.count && q + 4 <= |b| && BitsOk(bit, bits)
    requires ApartFrom(c, k, q, Mask(bit, bits))
    ensures Load(Pass(b, c, k, prev, inverse), q, bit, bits) == Load(b, q, bit, bits)
    decreases c.count - k
  {
    hide Load, StoreMasked, Encoded, Mask, WordsApart, Inside, Place, InField, Modulus, Word;
    if k < c.count {
      var p, val := Pos(c, k), Load(b, Pos(c, k), c.bit, c.bits);
      var enc := Encoded(val, prev, Modulus(c.bits), inverse);
      PlacedInside(enc, c.bit, c.bits);
      WordsApartFlip(p, ColumnMask(c), q, Mask(bit, bits));
      LoadFrame(b, q, bit, bits, p, ColumnMask(c), Place(Word(enc), c.bit));
      LoadThroughPass(Store(b, p, c.bit, c.bits, enc), c, k + 1, if inverse then enc else val, inverse, q, bit, bits);
    }
  }

  /** A pass in one direction is undone by the pass in the other. */
  lemma {:induction false} PassUndone(b: seq<bv8>, c: Column, k: nat, prev: nat, inverse: bool)
    requires Fits(c, |b|) && k <= c.count && SelfApart(c) && prev < Modulus(c.bits)
    ensures Pass(Pass(b, c, k, prev, inverse), c, k, prev, !inverse) == b
    decreases c.count - k
  {
    hide Load, StoreMasked, Encoded, Mask, WordsApart, Inside, Place, InField, Modulus, Word;
    if k < c.count {
      var p := Pos(c, k);
      var val := Load(b, p, c.bit, c.bits);
      var enc := Encoded(val, prev, Modulus(c.bits), inverse);
      var plain := if inverse then enc else val;
      var b1 := Store(b, p, c.bit, c.bits, enc);
      var r := Pass(b1, c, k + 1, plain, inverse);

      LoadBelow(b, p, c.bit, c.bits);
      PlacedInside(enc, c.bit, c.bits);
      LoadStored(b, p, c.bit, c.bits, enc);
      LoadThroughPass(b1, c, k + 1, plain, inverse, p, c.bit, c.bits);
      Decoded(val, prev, Modulus(c.bits), inverse);
      // The second pass first stores val back, which moves past the rest of the first pass.
      PlacedInside(val, c.bit, c.bits);
      StoreThroughPass(b1, c, k + 1, plain, inverse, p, ColumnMask(c), Place(Word(val), c.bit));
      StoreTwice(b, p, ColumnMask(c), Place(Word(enc), c.bit), Place(Word(val), c.bit));
      StoreLoaded(b, p, c.bit, c.bits);
      assert Store(r, p, c.bit, c.bits, val) == Pass(b, c, k + 1, plain, inverse);
      PassUndone(b, c, k + 1, plain, inverse);
    }
  }

  lemma {:induction false} PassesCommute(
    b: seq<bv8>, c: Column, inv: bool, d: Column, l: nat, prev: nat, dinv: bool)
    requires Fits(c, |b|) && Fits(d, |b|) && Apart(c, d) && l <= d.count
    ensures Pass(Pass(b, d, l, prev, dinv), c, 0, 0, inv) == Pass(Pass(b, c, 0, 0, inv), d, l, prev, dinv)
    decreases d.count - l
  {
    hide Load, StoreMasked, Encoded, Mask, WordsApart, Inside, Place, InField, Modulus, Word;
    if l < d.count {
      var q, val := Pos(d, l), Load(b, Pos(d, l), d.bit, d.bits);
      var enc := Encoded(val, prev, Modulus(d.bits), dinv);
      LoadThroughPass(b, c, 0, 0, inv, q, d.bit, d.bits);
      PlacedInside(enc, d.bit, d.bits);
      StoreThroughPass(b, c, 0, 0, inv, q, ColumnMask(d), Place(Word(enc), d.bit));
      PassesCommute(Store(b, q, d.bit, d.bits, enc), c, inv, d, l + 1, if dinv then enc else val, dinv);
    }
  }

  // ----- laws of all passes ---------------------------------------------------

  ghost predicate ApartFromAll(c: Column, cs: seq<Column>, n: nat)
    requires Fits(c, n) && AllFit(cs, n)
  {
    forall d :: d in cs ==> Apart(c, d)
  }

  ghost predicate AllSelfApart(cs: seq<Column>, n: nat)
    requires AllFit(cs, n)
  {
    forall c :: c in cs ==> SelfApart(c)
  }

  /** No two different columns share a bit, and no two words of one column do. */
  ghost predicate PairwiseApart(cs: seq<Column>, n: nat)
    requires AllFit(cs, n)
    decreases |cs|
  {
    if cs == [] then true
    else
      assert cs[0] in cs;
      SelfApart(cs[0]) && ApartFromAll(cs[0], cs[1..], n) && PairwiseApart(cs[1..], n)
  }

  lemma {:induction false} PassPastRewrite(b: seq<bv8>, c: Column, inv: bool, cs: seq<Column>, csInv: bool)
    requires Fits(c, |b|) && AllFit(cs, |b|) && ApartFromAll(c, cs, |b|)
    ensures Pass(Rewrite(b, cs, csInv), c, 0, 0, inv) == Rewrite(Pass(b, c, 0, 0, inv), cs, csInv)
    decreases |cs|
  {
    hide Apart;
    if cs != [] {
      PassesCommute(b, c, inv, cs[0], 0, 0, csInv);
      PassPastRewrite(Pass(b, cs[0], 0, 0, csInv), c, inv, cs[1..], csInv);
    }
  }

  /** Same field order in both directions: right as long as nothing overlaps. */
  lemma {:induction false} RewriteUndone(b: seq<bv8>, cs: seq<Column>, inv: bool)
    requires AllFit(cs, |b|) && PairwiseApart(cs, |b|)
    ensures Rewrite(Rewrite(b, cs, inv), cs, !inv) == b
    decreases |cs|
  {
    hide Apart, SelfApart;
    if cs != [] {
      var c, rest := cs[0], cs[1..];
      var b1 := Pass(b, c, 0, 0, inv);
      PassPastRewrite(b1, c, !inv, rest, inv);
      PassUndone(b, c, 0, 0, inv);
      RewriteUndone(b, rest, inv);
    }
  }

  function Reversed(cs: seq<Column>): (r: seq<Column>)
    ensures |r| == |cs|
    ensures forall c :: c in r <==> c in cs
  {
    if cs == [] then [] else Reversed(cs[1..]) + [cs[0]]
  }

  lemma {:induction false} RewriteAppend(b: seq<bv8>, cs: seq<Column>, ds: seq<Column>, inv: bool)
    requires AllFit(cs, |b|) && AllFit(ds, |b|)
    ensures Rewrite(b, cs + ds, inv) == Rewrite(Rewrite(b, cs, inv), ds, inv)
    decreases |cs|
  {
    if cs == [] {
      assert cs + ds == ds;
    } else {
      assert (cs + ds)[1..] == cs[1..] + ds;
      RewriteAppend(Pass(b, cs[0], 0, 0, inv), cs[1..], ds, inv);
    }
  }

  /** Undoing the passes last first needs no disjointness at all. */
  lemma {:induction false} RewriteUndoneBackwards(b: seq<bv8>, cs: seq<Column>, inv: bool)
    requires AllFit(cs, |b|) && AllSelfApart(cs, |b|)
    ensures Rewrite(Rewrite(b, cs, inv), Reversed(cs), !inv) == b
    decreases |cs|
  {
    hide SelfApart;
    if cs != [] {
      var c, rest := cs[0], cs[1..];
      var b1 := Pass(b, c, 0, 0, inv);
      RewriteUndoneBackwards(b1, rest, inv);
      RewriteAppend(Rewrite(b1, rest, inv), Reversed(rest), [c], !inv);
      assert Rewrite(b1, [c], !inv) == Pass(b1, c, 0, 0, !inv);
      PassUndone(b, c, 0, 0, inv);
    }
  }

  lemma {:induction false} ReversedTwice(cs: seq<Column>)
    ensures Reversed(Reversed(cs)) == cs
  {
    if cs != [] {
      ReversedTwice(cs[1..]);
      ReversedSnoc(Reversed(cs[1..]), cs[0]);
    }
  }

  lemma {:induction false} ReversedSnoc(cs: seq<Column>, c: Column)
    ensures Reversed(cs + [c]) == [c] + Reversed(cs)
  {
    if cs != [] {
      assert (cs + [c])[1..] == cs[1..] + [c];
      ReversedSnoc(cs[1..], c);
    }
  }

  /**
   When exactly the round trip restores a buffer, whatever overlaps: if and only if
   applying the fields last to first would have encoded it the same.
   */
  lemma RewriteUndoneIff(b: seq<bv8>, cs: seq<Column>, inv: bool)
    requires AllFit(cs, |b|) && AllSelfApart(cs, |b|)
    ensures Rewrite(Rewrite(b, cs, inv), cs, !inv) == b <==>
            Rewrite(b, cs, inv) == Rewrite(b, Reversed(cs), inv)
  {
    var rs := Reversed(cs);
    ReversedTwice(cs);
    RewriteUndoneBackwards(b, rs, inv);
    RewriteUndoneBackwards(Rewrite(b, cs, inv), cs, !inv);
  }

  // ----- the layout -----------------------------------------------------------

  function Align4(x: nat): nat {
    (x + 3) / 4 * 4
  }

  function HeaderCount(b: seq<bv8>, i: nat): nat
    requires |b| >= HEADER_SIZE && i < MAX_COUNT_FIELDS
  {
    ReadU32(b, COUNTS_OFFSET + 4 * i) as nat
  }

  /** The first n counts of the header. */
  function Counts(b: seq<bv8>, n: nat): (counts: seq<nat>)
    requires |b| >= HEADER_SIZE && n <= MAX_COUNT_FIELDS
    ensures |counts| == n
    ensures forall i :: 0 <= i < n ==> counts[i] == HeaderCount(b, i)
  {
    if n == 0 then [] else Counts(b, n - 1) + [HeaderCount(b, n - 1)]
  }

  predicate FieldsOk(s: SectionDesc) {
    forall f :: f in s.deltaFields ==> FieldOk(f, s.entrySize)
  }

  /** What the descriptor table and the magic number alone decide. */
  predicate ShapeOk(b: seq<bv8>, layout: LayoutDesc) {
    && |b| >= HEADER_SIZE
    && b[..8] == MAGIC
    && 2 <= layout.headerCountFields <= MAX_COUNT_FIELDS
    && 0 < |layout.sections| <= MAX_SECTIONS
  }

  predicate SectionOk(s: SectionDesc, counts: seq<nat>) {
    && s.countIndex < |counts|
    && 0 < s.entrySize <= MAX_ENTRY_SIZE
    && counts[s.countIndex] <= MAX_ENTRY_COUNT
    && FieldsOk(s)
  }

  /** Where the sections lie when their predecessors end at `off`; None when one is refused. */
  function ResolveFrom(sections: seq<SectionDesc>, counts: seq<nat>, off: nat): Option<seq<ResolvedSection>>
    requires |counts| > 0
    decreases |sections|
  {
    if sections == [] then Some([])
    else
      var s := sections[0];
      if !SectionOk(s, counts) then None
      else
        var r := ResolvedSection(Align4(off), counts[s.countIndex], s);
        if End(r) > counts[|counts| - 1] then None
        else
          match ResolveFrom(sections[1..], counts, End(r))
          case None => None
          case Some(rest) => Some([r] + rest)
  }

  /** The whole validation: slot 0 holds the file's length, the last slot where the sections end. */
  function Resolve(b: seq<bv8>, layout: LayoutDesc): Option<seq<ResolvedSection>> {
    if !ShapeOk(b, layout) then None
    else
      var counts := Counts(b, layout.headerCountFields);
      var debugInfoOffset := counts[|counts| - 1];
      if counts[0] != |b| || debugInfoOffset < HEADER_SIZE || debugInfoOffset > |b| then None
      else ResolveFrom(layout.sections, counts, HEADER_SIZE)
  }

  function End(r: ResolvedSection): nat {
    r.start + r.count * r.desc.entrySize
  }

  /** Sections lie one after the other inside [from, to), with checked fields. */
  ghost predicate Laid(rs: seq<ResolvedSection>, from: nat, to: nat)
    decreases |rs|
  {
    if rs == [] then true
    else
      && from <= rs[0].start && End(rs[0]) <= to
      && rs[0].desc.entrySize > 0 && FieldsOk(rs[0].desc)
      && Laid(rs[1..], End(rs[0]), to)
  }

  lemma {:induction false} ResolvedIsLaid(sections: seq<SectionDesc>, counts: seq<nat>, off: nat)
    requires |counts| > 0 && ResolveFrom(sections, counts, off).Some?
    ensures Laid(ResolveFrom(sections, counts, off).value, off, counts[|counts| - 1])
    decreases |sections|
  {
    hide FieldsOk;
    if sections != [] {
      var s := sections[0];
      var r := ResolvedSection(Align4(off), counts[s.countIndex], s);
      ResolvedIsLaid(sections[1..], counts, End(r));
      var rest := ResolveFrom(sections[1..], counts, End(r)).value;
      assert ([r] + rest)[1..] == rest;
    }
  }

  function ColumnOf(r: ResolvedSection, f: DeltaField): Column {
    Column(r.start + f.byte, r.desc.entrySize, r.count, f.bit, f.bits)
  }

  /** The columns of the fields k, k + 1, ... of one section. */
  function SectionColumns(r: ResolvedSection, k: nat): (cs: seq<Column>)
    requires k <= |r.desc.deltaFields|
    decreases |r.desc.deltaFields| - k
  {
    if k == |r.desc.deltaFields| then []
    else [ColumnOf(r, r.desc.deltaFields[k])] + SectionColumns(r, k + 1)
  }

  /** Every column of every section, in the order both directions visit them. */
  function Columns(rs: seq<ResolvedSection>): seq<Column> {
    if rs == [] then [] else SectionColumns(rs[0], 0) + Columns(rs[1..])
  }

  /** A column whose words lie inside entries of a section in [from, to). */
  ghost predicate ColumnIn(c: Column, from: nat, to: nat) {
    && BitsOk(c.bit, c.bits)
    && c.stride >= 4
    && from <= c.first
    && (forall k: nat {:trigger Pos(c, k)} :: k < c.count ==> from <= Pos(c, k) && Pos(c, k) + 4 <= to)
  }

  lemma EntryInside(start: nat, count: nat, e: nat, k: nat)
    requires k < count
    ensures start + k * e + e <= start + count * e
  {
    assert (k + 1) * e <= count * e;
  }

  lemma ColumnInSection(r: ResolvedSection, f: DeltaField)
    requires FieldOk(f, r.desc.entrySize)
    ensures ColumnIn(ColumnOf(r, f), r.start, End(r))
  {
    var c := ColumnOf(r, f);
    forall k: nat | k < c.count
      ensures r.start <= Pos(c, k) && Pos(c, k) + 4 <= End(r)
    {
      EntryInside(r.start, r.count, r.desc.entrySize, k);
    }
  }

  lemma {:induction false} SectionColumnsIn(r: ResolvedSection, k: nat)
    requires FieldsOk(r.desc) && k <= |r.desc.deltaFields|
    ensures AllIn(SectionColumns(r, k), r.start, End(r))
    decreases |r.desc.deltaFields| - k
  {
    if k < |r.desc.deltaFields| {
      ColumnInSection(r, r.desc.deltaFields[k]);
      SectionColumnsIn(r, k + 1);
    }
  }

  lemma {:induction false} ColumnsIn(rs: seq<ResolvedSection>, from: nat, to: nat)
    requires Laid(rs, from, to)
    ensures AllIn(Columns(rs), from, to)
    decreases |rs|
  {
    hide ColumnIn;
    if rs != [] {
      SectionColumnsIn(rs[0], 0);
      ColumnsIn(rs[1..], End(rs[0]), to);
      forall c | c in Columns(rs)
        ensures ColumnIn(c, from, to)
      {
        if c in SectionColumns(rs[0], 0) {
          ColumnInWider(c, rs[0].start, End(rs[0]), from, to);
        } else {
          ColumnInWider(c, End(rs[0]), to, from, to);
        }
      }
    }
  }

  lemma ColumnInWider(c: Column, from: nat, to: nat, from2: nat, to2: nat)
    requires ColumnIn(c, from, to) && from2 <= from && to <= to2
    ensures ColumnIn(c, from2, to2)
  {
  }

  // ----- bit-disjoint layouts -------------------------------------------------

  /** No bit of an entry belongs to both fields. */
  ghost predicate FieldsApart(f: DeltaField, g: DeltaField) {
    && BitsOk(f.bit, f.bits) && BitsOk(g.bit, g.bits)
    && WordsApart(f.byte, Mask(f.bit, f.bits), g.byte, Mask(g.bit, g.bits))
  }

  ghost predicate SectionBitDisjoint(s: SectionDesc) {
    forall i, j :: 0 <= i < j < |s.deltaFields| ==> FieldsApart(s.deltaFields[i], s.deltaFields[j])
  }

  ghost predicate BitDisjoint(layout: LayoutDesc) {
    forall s :: s in layout.sections ==> SectionBitDisjoint(s)
  }

  lemma FarWordsApart(p: nat, m: bv32, q: nat, n: bv32)
    requires p + 4 <= q || q + 4 <= p
    ensures WordsApart(p, m, q, n)
  {
    hide ByteOf;
    forall t: nat
      ensures ByteAt(p, m, t) & ByteAt(q, n, t) == 0
    {
      assert ByteAt(p, m, t) == 0 || ByteAt(q, n, t) == 0;
    }
  }

  lemma ShiftedWordsApart(s: nat, p: nat, m: bv32, q: nat, n: bv32)
    requires WordsApart(p, m, q, n)
    ensures WordsApart(s + p, m, s + q, n)
  {
    hide ByteOf;
    var sp, sq := s + p, s + q;
    forall t: nat
      ensures ByteAt(sp, m, t) & ByteAt(sq, n, t) == 0
    {
      if t >= s {
        assert ByteAt(p, m, t - s) & ByteAt(q, n, t - s) == 0;
      }
    }
  }

  lemma OtherEntryApart(start: nat, e: nat, k: nat, l: nat, f: nat, g: nat)
    requires k != l && f + 4 <= e && g + 4 <= e
    ensures start + f + k * e + 4 <= start + g + l * e || start + g + l * e + 4 <= start + f + k * e
  {
    if k < l {
      assert (k + 1) * e <= l * e;
    } else {
      assert (l + 1) * e <= k * e;
    }
  }

  /** Two columns of one section: different entries never meet, the same entry only if the fields do. */
  lemma SectionColumnsApart(r: ResolvedSection, f: DeltaField, g: DeltaField)
    requires FieldOk(f, r.desc.entrySize) && FieldOk(g, r.desc.entrySize) && FieldsApart(f, g)
    ensures Apart(ColumnOf(r, f), ColumnOf(r, g))
  {
    hide Mask, WordsApart, FieldOk;
    var c, d, e := ColumnOf(r, f), ColumnOf(r, g), r.desc.entrySize;
    assert f.byte + 4 <= e && g.byte + 4 <= e by { FieldOkFits(f, e); FieldOkFits(g, e); }
    forall k: nat, l: nat | k < c.count && l < d.count
      ensures WordsApart(Pos(c, k), ColumnMask(c), Pos(d, l), ColumnMask(d))
    {
      if k == l {
        ShiftedWordsApart(r.start + k * e, f.byte, ColumnMask(c), g.byte, ColumnMask(d));
      } else {
        OtherEntryApart(r.start, e, k, l, f.byte, g.byte);
        FarWordsApart(Pos(c, k), ColumnMask(c), Pos(d, l), ColumnMask(d));
      }
    }
    forall l: nat | l < d.count
      ensures ApartFrom(c, 0, Pos(d, l), ColumnMask(d))
    {
    }
  }

  lemma FieldOkFits(f: DeltaField, e: nat)
    requires FieldOk(f, e)
    ensures f.byte + 4 <= e && BitsOk(f.bit, f.bits)
  {
  }

  lemma ColumnSelfApart(c: Column, from: nat, to: nat)
    requires ColumnIn(c, from, to)
    ensures SelfApart(c)
  {
    hide Mask, WordsApart;
    forall k: nat, i: nat | k < c.count && k + 1 <= i < c.count
      ensures WordsApart(Pos(c, i), ColumnMask(c), Pos(c, k), ColumnMask(c))
    {
      OtherEntryApart(c.first, c.stride, k, i, 0, 0);
      FarWordsApart(Pos(c, i), ColumnMask(c), Pos(c, k), ColumnMask(c));
    }
    forall k: nat | k < c.count
      ensures ApartFrom(c, k + 1, Pos(c, k), ColumnMask(c))
    {
    }
  }

  lemma FarColumnsApart(c: Column, d: Column, from: nat, mid: nat, to: nat)
    requires ColumnIn(c, from, mid) && ColumnIn(d, mid, to)
    ensures Apart(c, d)
  {
    hide Mask, WordsApart;
    forall k: nat, l: nat | k < c.count && l < d.count
      ensures WordsApart(Pos(c, k), ColumnMask(c), Pos(d, l), ColumnMask(d))
    {
      FarWordsApart(Pos(c, k), ColumnMask(c), Pos(d, l), ColumnMask(d));
    }
    forall l: nat | l < d.count
      ensures ApartFrom(c, 0, Pos(d, l), ColumnMask(d))
    {
    }
  }

  /** All columns of cs lie in [from, to). */
  ghost predicate AllIn(cs: seq<Column>, from: nat, to: nat) {
    forall c :: c in cs ==> ColumnIn(c, from, to)
  }

  lemma AllInFit(cs: seq<Column>, from: nat, to: nat, n: nat)
    requires AllIn(cs, from, to) && to <= n
    ensures AllFit(cs, n) && AllSelfApart(cs, n)
  {
    hide SelfApart;
    forall c | c in cs
      ensures Fits(c, n) && SelfApart(c)
    {
      ColumnSelfApart(c, from, to);
    }
  }

  lemma {:induction false} PairwiseApartAppend(cs: seq<Column>, ds: seq<Column>, from: nat, mid: nat, to: nat, n: nat)
    requires AllIn(cs, from, mid) && AllIn(ds, mid, to) && AllFit(cs, n) && AllFit(ds, n)
    requires PairwiseApart(cs, n) && PairwiseApart(ds, n)
    ensures PairwiseApart(cs + ds, n)
    decreases |cs|
  {
    hide Apart, SelfApart, ColumnIn;
    if cs == [] {
      assert cs + ds == ds;
    } else {
      assert (cs + ds)[0] == cs[0] && (cs + ds)[1..] == cs[1..] + ds;
      PairwiseApartAppend(cs[1..], ds, from, mid, to, n);
      assert Fits(cs[0], n) && AllFit(cs[1..], n);
      forall d | d in cs[1..] || d in ds
        ensures Apart(cs[0], d)
      {
        if d in ds {
          FarColumnsApart(cs[0], d, from, mid, to);
        }
      }
    }
  }

  lemma {:induction false} SectionPairwiseApart(r: ResolvedSection, k: nat, n: nat)
    requires FieldsOk(r.desc) && SectionBitDisjoint(r.desc) && k <= |r.desc.deltaFields|
    requires AllFit(SectionColumns(r, k), n) && AllSelfApart(SectionColumns(r, k), n)
    ensures PairwiseApart(SectionColumns(r, k), n)
    decreases |r.desc.deltaFields| - k
  {
    hide Apart, SelfApart, FieldsApart;
    var fields := r.desc.deltaFields;
    if k < |fields| {
      var c, rest := ColumnOf(r, fields[k]), SectionColumns(r, k + 1);
      assert SectionColumns(r, k)[1..] == rest;
      SectionPairwiseApart(r, k + 1, n);
      assert c in SectionColumns(r, k) && AllFit(rest, n);
      forall d | d in rest
        ensures Apart(c, d)
      {
        var j := ColumnIndex(r, k + 1, d);
        SectionColumnsApart(r, fields[k], fields[j]);
      }
    }
  }

  lemma {:induction false} ColumnIndex(r: ResolvedSection, k: nat, d: Column) returns (j: nat)
    requires k <= |r.desc.deltaFields| && d in SectionColumns(r, k)
    ensures k <= j < |r.desc.deltaFields| && d == ColumnOf(r, r.desc.deltaFields[j])
    decreases |r.desc.deltaFields| - k
  {
    if d == ColumnOf(r, r.desc.deltaFields[k]) {
      j := k;
    } else {
      j := ColumnIndex(r, k + 1, d);
    }
  }

  lemma {:induction false} LaidPairwiseApart(rs: seq<ResolvedSection>, from: nat, to: nat, n: nat)
    requires Laid(rs, from, to) && to <= n && (forall r :: r in rs ==> SectionBitDisjoint(r.desc))
    ensures AllFit(Columns(rs), n) && PairwiseApart(Columns(rs), n)
    decreases |rs|
  {
    hide SectionBitDisjoint, ColumnIn, FieldsOk, SelfApart, Apart;
    ColumnsIn(rs, from, to);
    AllInFit(Columns(rs), from, to, n);
    if rs != [] {
      var cs := SectionColumns(rs[0], 0);
      SectionColumnsIn(rs[0], 0);
      AllInFit(cs, rs[0].start, End(rs[0]), n);
      SectionPairwiseApart(rs[0], 0, n);
      LaidPairwiseApart(rs[1..], End(rs[0]), to, n);
      ColumnsIn(rs[1..], End(rs[0]), to);
      PairwiseApartAppend(cs, Columns(rs[1..]), rs[0].start, End(rs[0]), to, n);
    }
  }

  // ----- sections that come back -----------------------------------------------

  /** The fields read the same from last to first; one field, or the same field twice, does. */
  predicate Mirrored(s: SectionDesc) {
    forall i :: 0 <= i < |s.deltaFields| ==> s.deltaFields[i] == s.deltaFields[|s.deltaFields| - 1 - i]
  }

  ghost predicate Reversible(layout: LayoutDesc) {
    forall s :: s in layout.sections ==> SectionBitDisjoint(s) || Mirrored(s)
  }

  lemma {:induction false} SectionColumnAt(r: ResolvedSection, k: nat, i: nat)
    requires k + i < |r.desc.deltaFields|
    ensures |SectionColumns(r, k)| == |r.desc.deltaFields| - k
    ensures SectionColumns(r, k)[i] == ColumnOf(r, r.desc.deltaFields[k + i])
    decreases |r.desc.deltaFields| - k
  {
    if k + 1 < |r.desc.deltaFields| {
      SectionColumnAt(r, k + 1, if i == 0 then 0 else i - 1);
    }
  }

  lemma {:induction false} ReversedAt(cs: seq<Column>, i: nat)
    requires i < |cs|
    ensures Reversed(cs)[i] == cs[|cs| - 1 - i]
  {
    if i < |cs| - 1 {
      ReversedAt(cs[1..], i);
    }
  }

  lemma MirroredColumns(r: ResolvedSection)
    requires Mirrored(r.desc)
    ensures Reversed(SectionColumns(r, 0)) == SectionColumns(r, 0)
  {
    var cs := SectionColumns(r, 0);
    var n := |r.desc.deltaFields|;
    forall i | 0 <= i < |cs| ensures Reversed(cs)[i] == cs[i] {
      if n > 0 {
        SectionColumnAt(r, 0, 0);
        SectionColumnAt(r, 0, i);
        SectionColumnAt(r, 0, n - 1 - i);
        ReversedAt(cs, i);
      }
    }
  }

  lemma SectionUndone(b: seq<bv8>, r: ResolvedSection, inv: bool)
    requires FieldsOk(r.desc) && (SectionBitDisjoint(r.desc) || Mirrored(r.desc))
    requires AllFit(SectionColumns(r, 0), |b|) && AllSelfApart(SectionColumns(r, 0), |b|)
    ensures Rewrite(Rewrite(b, SectionColumns(r, 0), inv), SectionColumns(r, 0), !inv) == b
  {
    hide SelfApart, Fits, SectionBitDisjoint, Mirrored, PairwiseApart;
    if SectionBitDisjoint(r.desc) {
      SectionPairwiseApart(r, 0, |b|);
      RewriteUndone(b, SectionColumns(r, 0), inv);
    } else {
      MirroredColumns(r);
      RewriteUndoneBackwards(b, SectionColumns(r, 0), inv);
    }
  }

  /** Rewriting one stretch of a buffer does not interfere with rewriting another one. */
  lemma {:induction false} RewritesCommute(b: seq<bv8>, cs: seq<Column>, inv: bool, ds: seq<Column>, dsInv: bool, from: nat, mid: nat, to: nat)
    requires AllIn(cs, from, mid) && AllIn(ds, mid, to) && AllFit(cs, |b|) && AllFit(ds, |b|)
    ensures Rewrite(Rewrite(b, ds, dsInv), cs, inv) == Rewrite(Rewrite(b, cs, inv), ds, dsInv)
    decreases |cs|
  {
    hide Apart;
    if cs != [] {
      assert cs[0] in cs;
      forall d | d in ds ensures Apart(cs[0], d) {
        FarColumnsApart(cs[0], d, from, mid, to);
      }
      PassPastRewrite(b, cs[0], inv, ds, dsInv);
      RewritesCommute(Pass(b, cs[0], 0, 0, inv), cs[1..], inv, ds, dsInv, from, mid, to);
    }
  }

  lemma {:induction false} SectionsUndone(b: seq<bv8>, rs: seq<ResolvedSection>, from: nat, to: nat, inv: bool)
    requires Laid(rs, from, to) && to <= |b|
    requires forall r :: r in rs ==> SectionBitDisjoint(r.desc) || Mirrored(r.desc)
    ensures AllFit(Columns(rs), |b|)
    ensures Rewrite(Rewrite(b, Columns(rs), inv), Columns(rs), !inv) == b
    decreases |rs|
  {
    hide SectionBitDisjoint, Mirrored, ColumnIn, FieldsOk, SelfApart, Fits;
    ColumnsIn(rs, from, to);
    AllInFit(Columns(rs), from, to, |b|);
    if rs != [] {
      var cs, ds := SectionColumns(rs[0], 0), Columns(rs[1..]);
      SectionColumnsIn(rs[0], 0);
      AllInFit(cs, rs[0].start, End(rs[0]), |b|);
      ColumnsIn(rs[1..], End(rs[0]), to);
      AllInFit(ds, End(rs[0]), to, |b|);
      var b1 := Rewrite(b, cs, inv);
      RewriteAppend(b, cs, ds, inv);
      RewriteAppend(Rewrite(b1, ds, inv), cs, ds, !inv);
      RewritesCommute(b1, cs, !inv, ds, inv, rs[0].start, End(rs[0]), to);
      SectionUndone(b, rs[0], inv);
      SectionsUndone(b, rs[1..], End(rs[0]), to, inv);
    }
  }

  // ----- the whole transform --------------------------------------------------

  /** The transformed buffer, or None when the buffer or the layout is refused. */
  ghost function Transformed(b: seq<bv8>, layout: LayoutDesc, inverse: bool): Option<seq<bv8>> {
    match Resolve(b, layout)
    case None => None
    case Some(rs) =>
      ResolvedFits(b, layout);
      Some(Rewrite(b, Columns(rs), inverse))
  }

  ghost function SectionsEnd(b: seq<bv8>, layout: LayoutDesc): nat
    requires ShapeOk(b, layout)
  {
    HeaderCount(b, layout.headerCountFields - 1)
  }

  lemma ResolvedFits(b: seq<bv8>, layout: LayoutDesc)
    requires Resolve(b, layout).Some?
    ensures ShapeOk(b, layout)
    ensures var rs := Resolve(b, layout).value;
            && Laid(rs, HEADER_SIZE, SectionsEnd(b, layout)) && SectionsEnd(b, layout) <= |b|
            && AllIn(Columns(rs), HEADER_SIZE, SectionsEnd(b, layout))
            && AllFit(Columns(rs), |b|) && AllSelfApart(Columns(rs), |b|)
  {
    hide HeaderCount, ColumnIn, SelfApart;
    var counts := Counts(b, layout.headerCountFields);
    var rs, end := Resolve(b, layout).value, SectionsEnd(b, layout);
    ResolvedIsLaid(layout.sections, counts, HEADER_SIZE);
    ColumnsIn(rs, HEADER_SIZE, end);
    AllInFit(Columns(rs), HEADER_SIZE, end, |b|);
  }

  lemma {:induction false} PassOutside(b: seq<bv8>, c: Column, k: nat, prev: nat, inverse: bool, t: nat)
    requires Fits(c, |b|) && k <= c.count && t < |b|
    requires forall i: nat {:trigger Pos(c, i)} :: k <= i < c.count ==> t < Pos(c, i) || Pos(c, i) + 4 <= t
    ensures Pass(b, c, k, prev, inverse)[t] == b[t]
    decreases c.count - k
  {
    hide Load, Encoded, Mask, Place, Modulus, Word, ByteOf, Replace, ReadU32;
    if k < c.count {
      var p, val := Pos(c, k), Load(b, Pos(c, k), c.bit, c.bits);
      var enc := Encoded(val, prev, Modulus(c.bits), inverse);
      PassOutside(Store(b, p, c.bit, c.bits, enc), c, k + 1, if inverse then enc else val, inverse, t);
    }
  }

  /** Bytes before and after the sections are never written. */
  lemma {:induction false} RewriteOutside(b: seq<bv8>, cs: seq<Column>, from: nat, to: nat, inverse: bool, t: nat)
    requires AllFit(cs, |b|) && AllIn(cs, from, to) && t < |b| && (t < from || to <= t)
    ensures Rewrite(b, cs, inverse)[t] == b[t]
    decreases |cs|
  {
    if cs != [] {
      assert cs[0] in cs;
      PassOutside(b, cs[0], 0, 0, inverse, t);
      RewriteOutside(Pass(b, cs[0], 0, 0, inverse), cs[1..], from, to, inverse, t);
    }
  }

  lemma {:induction false} SameHeaderCounts(b: seq<bv8>, c: seq<bv8>, n: nat)
    requires |b| == |c| >= HEADER_SIZE && n <= MAX_COUNT_FIELDS && b[..HEADER_SIZE] == c[..HEADER_SIZE]
    ensures Counts(b, n) == Counts(c, n)
  {
    hide WordOf;
    if n > 0 {
      SameHeaderCounts(b, c, n - 1);
      var p := COUNTS_OFFSET + 4 * (n - 1);
      assert b[p] == b[..HEADER_SIZE][p] == c[p];
      assert b[p + 1] == b[..HEADER_SIZE][p + 1] == c[p + 1];
      assert b[p + 2] == b[..HEADER_SIZE][p + 2] == c[p + 2];
      assert b[p + 3] == b[..HEADER_SIZE][p + 3] == c[p + 3];
    }
  }

  /** Validation only reads the header, so buffers with one header resolve alike. */
  lemma SameHeaderResolves(b: seq<bv8>, c: seq<bv8>, layout: LayoutDesc)
    requires |b| == |c| && (|b| >= HEADER_SIZE ==> b[..HEADER_SIZE] == c[..HEADER_SIZE])
    ensures Resolve(b, layout) == Resolve(c, layout)
  {
    if |b| >= HEADER_SIZE {
      assert b[..8] == b[..HEADER_SIZE][..8] == c[..8];
      if ShapeOk(b, layout) {
        SameHeaderCounts(b, c, layout.headerCountFields);
      }
    }
  }

  /** The header and everything after the sections survive, so the result validates to the same sections. */
  lemma TransformedKeepsFrame(b: seq<bv8>, layout: LayoutDesc, inverse: bool)
    requires Transformed(b, layout, inverse).Some?
    ensures var c := Transformed(b, layout, inverse).value;
            && |c| == |b| && c[..HEADER_SIZE] == b[..HEADER_SIZE]
            && c[SectionsEnd(b, layout)..] == b[SectionsEnd(b, layout)..]
            && Resolve(c, layout) == Resolve(b, layout)
  {
    hide HeaderCount, ColumnIn, SelfApart, Fits;
    ResolvedFits(b, layout);
    var cs, end := Columns(Resolve(b, layout).value), SectionsEnd(b, layout);
    var c := Rewrite(b, cs, inverse);
    forall t: nat | t < |b| && (t < HEADER_SIZE || end <= t)
      ensures c[t] == b[t]
    {
      RewriteOutside(b, cs, HEADER_SIZE, end, inverse, t);
    }
    SameHeaderResolves(b, c, layout);
  }

  lemma {:induction false} ResolvedDescs(sections: seq<SectionDesc>, counts: seq<nat>, off: nat)
    requires |counts| > 0 && ResolveFrom(sections, counts, off).Some?
    ensures forall r :: r in ResolveFrom(sections, counts, off).value ==> r.desc in sections
    decreases |sections|
  {
    if sections != [] {
      var s := sections[0];
      var r := ResolvedSection(Align4(off), counts[s.countIndex], s);
      ResolvedDescs(sections[1..], counts, End(r));
    }
  }

  /**
   Main result: for a bit-disjoint layout, each direction undoes the other, byte for byte,
   on every buffer the transform accepts.
   */
  lemma RoundTrip(b: seq<bv8>, layout: LayoutDesc, inverse: bool)
    requires BitDisjoint(layout) && Transformed(b, layout, inverse).Some?
    ensures Transformed(Transformed(b, layout, inverse).value, layout, !inverse) == Some(b)
  {
    hide SectionBitDisjoint;
    ReversibleRoundTrip(b, layout, inverse);
  }

  /** It is enough that each section is bit-disjoint or lists its fields symmetrically. */
  lemma ReversibleRoundTrip(b: seq<bv8>, layout: LayoutDesc, inverse: bool)
    requires Reversible(layout) && Transformed(b, layout, inverse).Some?
    ensures Transformed(Transformed(b, layout, inverse).value, layout, !inverse) == Some(b)
  {
    hide SectionBitDisjoint, Mirrored, HeaderCount, ColumnIn, SelfApart, Fits;
    ResolvedFits(b, layout);
    TransformedKeepsFrame(b, layout, inverse);
    var rs := Resolve(b, layout).value;
    ResolvedDescs(layout.sections, Counts(b, layout.headerCountFields), HEADER_SIZE);
    SectionsUndone(b, rs, HEADER_SIZE, SectionsEnd(b, layout), inverse);
  }

  /**
   The exact condition, for every layout: one buffer survives the round trip if and only if
   visiting the fields in the opposite order would have transformed it the same.
   */
  lemma RoundTripIff(b: seq<bv8>, layout: LayoutDesc, inverse: bool)
    requires Transformed(b, layout, inverse).Some?
    ensures AllFit(Columns(Resolve(b, layout).value), |b|)
    ensures Transformed(Transformed(b, layout, inverse).value, layout, !inverse) == Some(b) <==>
            Transformed(b, layout, inverse).value == Rewrite(b, Reversed(Columns(Resolve(b, layout).value)), inverse)
  {
    hide HeaderCount, ColumnIn, SelfApart, Fits, ShapeOk;
    ResolvedFits(b, layout);
    TransformedKeepsFrame(b, layout, inverse);
    RewriteUndoneIff(b, Columns(Resolve(b, layout).value), inverse);
  }

  // ----- what the forward transform means --------------------------------------

  /** Entry k's field minus the previous entry's, modulo the field's width. */
  function Delta(b: seq<bv8>, c: Column, k: nat): nat
    requires BitsOk(c.bit, c.bits) && Pos(c, k) + 4 <= |b|
    requires k > 0 ==> Pos(c, k - 1) + 4 <= |b|
  {
    var before := if k == 0 then 0 else Load(b, Pos(c, k - 1), c.bit, c.bits);
    (Load(b, Pos(c, k), c.bit, c.bits) - before) % Modulus(c.bits)
  }

  lemma {:induction false} PassDelta(b: seq<bv8>, c: Column, k: nat, prev: nat, i: nat)
    requires Fits(c, |b|) && SelfApart(c) && k <= i < c.count
    ensures var before := if i == k then prev else Load(b, Pos(c, i - 1), c.bit, c.bits);
            Load(Pass(b, c, k, prev, false), Pos(c, i), c.bit, c.bits) ==
            (Load(b, Pos(c, i), c.bit, c.bits) - before) % Modulus(c.bits)
    decreases i - k
  {
    hide Load, StoreMasked, Mask, WordsApart, Inside, Place, InField, Modulus, Word, Encoded;
    var p := Pos(c, k);
    var val := Load(b, p, c.bit, c.bits);
    var enc := Encoded(val, prev, Modulus(c.bits), false);
    var b1 := Store(b, p, c.bit, c.bits, enc);
    PlacedInside(enc, c.bit, c.bits);
    assert ApartFrom(c, k + 1, p, ColumnMask(c));
    if i == k {
      LoadStored(b, p, c.bit, c.bits, enc);
      LoadThroughPass(b1, c, k + 1, val, false, p, c.bit, c.bits);
      EncodedDifference(val, prev, Modulus(c.bits));
    } else {
      PassDelta(b1, c, k + 1, val, i);
      LoadFrame(b, Pos(c, i), c.bit, c.bits, p, ColumnMask(c), Place(Word(enc), c.bit));
      if i > k + 1 {
        LoadFrame(b, Pos(c, i - 1), c.bit, c.bits, p, ColumnMask(c), Place(Word(enc), c.bit));
      }
    }
  }

  lemma EncodedDifference(val: nat, prev: nat, m: nat)
    requires 0 < m
    ensures Encoded(val, prev, m, false) == (val - prev) % m
  {
  }

  /** The words of c read the same before and after the passes over columns apart from it. */
  lemma {:induction false} LoadThroughRewrite(b: seq<bv8>, cs: seq<Column>, inverse: bool, c: Column, k: nat)
    requires AllFit(cs, |b|) && Fits(c, |b|) && k < c.count
    requires forall d :: d in cs ==> Apart(d, c)
    ensures Load(Rewrite(b, cs, inverse), Pos(c, k), c.bit, c.bits) == Load(b, Pos(c, k), c.bit, c.bits)
    decreases |cs|
  {
    hide Load, Pass, Mask;
    if cs != [] {
      var d := cs[0];
      assert d in cs;
      LoadThroughPass(b, d, 0, 0, inverse, Pos(c, k), c.bit, c.bits);
      LoadThroughRewrite(Pass(b, d, 0, 0, inverse), cs[1..], inverse, c, k);
    }
  }

  lemma ApartFlip(c: Column, d: Column)
    requires BitsOk(c.bit, c.bits) && BitsOk(d.bit, d.bits) && Apart(c, d)
    ensures Apart(d, c)
  {
    hide WordsApart, Mask;
    forall k: nat, l: nat | k < c.count && l < d.count
      ensures WordsApart(Pos(d, l), ColumnMask(d), Pos(c, k), ColumnMask(c))
    {
      assert ApartFrom(c, 0, Pos(d, l), ColumnMask(d));
      WordsApartFlip(Pos(c, k), ColumnMask(c), Pos(d, l), ColumnMask(d));
    }
    forall k: nat | k < c.count
      ensures ApartFrom(d, 0, Pos(c, k), ColumnMask(c))
    {
    }
  }

  lemma {:induction false} RewriteDelta(b: seq<bv8>, cs: seq<Column>, c: Column, k: nat)
    requires AllFit(cs, |b|) && PairwiseApart(cs, |b|) && c in cs && k < c.count
    ensures Load(Rewrite(b, cs, false), Pos(c, k), c.bit, c.bits) == Delta(b, c, k)
    decreases |cs|
  {
    hide Load, Mask, Apart, SelfApart, Modulus, Delta;
    var d, rest := cs[0], cs[1..];
    var b1 := Pass(b, d, 0, 0, false);
    assert d in cs && AllFit(rest, |b|);
    if c == d {
      forall e | e in rest
        ensures Apart(e, c)
      {
        ApartFlip(c, e);
      }
      FirstDelta(b, c, k);
      LoadThroughRewrite(b1, rest, false, c, k);
    } else {
      RewriteDelta(b1, rest, c, k);
      OtherDelta(b, d, c, k);
    }
  }

  lemma FirstDelta(b: seq<bv8>, c: Column, k: nat)
    requires Fits(c, |b|) && SelfApart(c) && k < c.count
    ensures Load(Pass(b, c, 0, 0, false), Pos(c, k), c.bit, c.bits) == Delta(b, c, k)
  {
    hide Load, Pass;
    PassDelta(b, c, 0, 0, k);
  }

  lemma OtherDelta(b: seq<bv8>, d: Column, c: Column, k: nat)
    requires Fits(d, |b|) && Fits(c, |b|) && Apart(d, c) && k < c.count
    ensures Delta(Pass(b, d, 0, 0, false), c, k) == Delta(b, c, k)
  {
    hide Load, Mask, Pass;
    LoadThroughPass(b, d, 0, 0, false, Pos(c, k), c.bit, c.bits);
    if k > 0 {
      LoadThroughPass(b, d, 0, 0, false, Pos(c, k - 1), c.bit, c.bits);
    }
  }

  /** In a bit-disjoint layout the forward transform leaves, in every field of every entry, its delta. */
  lemma ForwardIsDelta(b: seq<bv8>, layout: LayoutDesc, c: Column, k: nat)
    requires BitDisjoint(layout) && Transformed(b, layout, false).Some?
    requires c in Columns(Resolve(b, layout).value) && k < c.count
    ensures Fits(c, |b|)
    ensures Load(Transformed(b, layout, false).value, Pos(c, k), c.bit, c.bits) == Delta(b, c, k)
  {
    hide SectionBitDisjoint, HeaderCount, ColumnIn, SelfApart, PairwiseApart, Load, Mask, Delta;
    ResolvedFits(b, layout);
    ResolvedDescs(layout.sections, Counts(b, layout.headerCountFields), HEADER_SIZE);
    LaidPairwiseApart(Resolve(b, layout).value, HEADER_SIZE, SectionsEnd(b, layout), |b|);
    RewriteDelta(b, Columns(Resolve(b, layout).value), c, k);
  }

  // ----- the in-place algorithm -----------------------------------------------

  /** Rewrites one word in place; the rest of the array stays. */
  method RewriteWord(data: array<bv8>, p: nat, bit: bv32, bits: bv32, prev: nat, inverse: bool) returns (plain: nat)
    requires p + 4 <= data.Length && BitsOk(bit, bits) && prev < Modulus(bits)
    modifies data
    ensures var val := Load(old(data[..]), p, bit, bits);
            var enc := Encoded(val, prev, Modulus(bits), inverse);
            && data[..] == Store(old(data[..]), p, bit, bits, enc)
            && plain == (if inverse then enc else val) && plain < Modulus(bits)
  {
    hide Extract, Replace, Mask, Place, WordOf, ByteOf, Modulus, Word, InField, FieldMask;
    ghost var before := data[..];
    var word := WordOf(data[p], data[p + 1], data[p + 2], data[p + 3]);
    assert word == ReadU32(before, p);
    LoadBelow(before, p, bit, bits);
    var val := Extract(word, bit, bits) as nat;
    var enc := Word(HbcWrapping.Wrapped(val, prev, inverse)) & FieldMask(bits);
    HbcWrapping.WrappedIsEncoded(val, prev, bits, inverse);
    plain := if inverse then enc as nat else val;
    var replaced := Replace(word, Mask(bit, bits), Place(enc, bit));
    data[p], data[p + 1], data[p + 2], data[p + 3] :=
      ByteOf(replaced, 0), ByteOf(replaced, 1), ByteOf(replaced, 2), ByteOf(replaced, 3);
    assert data[..] == WriteU32(before, p, replaced);
  }

  /** The loop bound of the source (p < end) against the number of entries. */
  lemma WordBeforeEnd(r: ResolvedSection, f: DeltaField, k: nat)
    requires FieldOk(f, r.desc.entrySize)
    ensures Pos(ColumnOf(r, f), k) < End(r) <==> k < r.count
  {
    var e := r.desc.entrySize;
    FieldOkFits(f, e);
    if k < r.count {
      EntryInside(r.start, r.count, e, k);
    } else {
      assert k * e >= r.count * e;
    }
  }

  method RewriteColumn(data: array<bv8>, r: ResolvedSection, f: DeltaField, inverse: bool)
    requires FieldOk(f, r.desc.entrySize) && End(r) <= data.Length
    modifies data
    ensures Fits(ColumnOf(r, f), data.Length)
    ensures data[..] == Pass(old(data[..]), ColumnOf(r, f), 0, 0, inverse)
  {
    hide Load, Encoded, Mask, Place, Modulus, Word, Store, FieldOk;
    ghost var c := ColumnOf(r, f);
    ColumnInSection(r, f);
    FieldOkFits(f, r.desc.entrySize);
    assert Fits(c, data.Length);
    hide ColumnIn;
    var prev: nat, p: nat := 0, r.start + f.byte;
    var end := r.start + r.count * r.desc.entrySize;
    ghost var k: nat := 0;
    WordBeforeEnd(r, f, 0);
    while p < end
      invariant k <= c.count && p == Pos(c, k) && prev < Modulus(c.bits)
      invariant p < end <==> k < c.count
      invariant Pass(data[..], c, k, prev, inverse) == Pass(old(data[..]), c, 0, 0, inverse)
      decreases c.count - k
    {
      prev := RewriteWord(data, p, f.bit, f.bits, prev, inverse);
      p, k := p + r.desc.entrySize, k + 1;
      WordBeforeEnd(r, f, k);
    }
  }

  method ReadCounts(data: array<bv8>, n: nat) returns (counts: seq<nat>)
    requires data.Length >= HEADER_SIZE && n <= MAX_COUNT_FIELDS
    ensures counts == Counts(data[..], n)
  {
    hide WordOf;
    var i := 0;
    counts := [];
    while i < n
      invariant i <= n && counts == Counts(data[..], i)
    {
      var p := COUNTS_OFFSET + i * 4;
      counts, i := counts + [WordOf(data[p], data[p + 1], data[p + 2], data[p + 3]) as nat], i + 1;
    }
  }

  ghost function Prepended(done: seq<ResolvedSection>, rest: Option<seq<ResolvedSection>>): Option<seq<ResolvedSection>> {
    match rest
    case None => None
    case Some(rs) => Some(done + rs)
  }

  lemma PrependedNothing(rest: Option<seq<ResolvedSection>>)
    ensures Prepended([], rest) == rest
  {
    if rest.Some? {
      assert [] + rest.value == rest.value;
    }
  }

  lemma PrependedMore(done: seq<ResolvedSection>, r: ResolvedSection, rest: Option<seq<ResolvedSection>>)
    ensures Prepended(done + [r], rest) == Prepended(done, Prepended([r], rest))
  {
    if rest.Some? {
      assert (done + [r]) + rest.value == done + ([r] + rest.value);
    }
  }

  method ResolveSections(sections: seq<SectionDesc>, counts: seq<nat>)
    returns (ok: bool, resolved: seq<ResolvedSection>)
    requires |counts| > 0
    ensures ok == ResolveFrom(sections, counts, HEADER_SIZE).Some?
    ensures ok ==> resolved == ResolveFrom(sections, counts, HEADER_SIZE).value
  {
    hide FieldsOk;
    ok, resolved := false, [];
    var i, off: nat := 0, HEADER_SIZE;
    ghost var all := ResolveFrom(sections, counts, HEADER_SIZE);
    assert sections[0..] == sections;
    PrependedNothing(all);
    while i < |sections|
      invariant i <= |sections|
      invariant all == Prepended(resolved, ResolveFrom(sections[i..], counts, off))
    {
      var s := sections[i];
      if !SectionOk(s, counts) {
        return;
      }
      off := Align4(off);
      var sectionSize := counts[s.countIndex] * s.entrySize;
      if off + sectionSize > counts[|counts| - 1] {
        return;
      }
      var r := ResolvedSection(off, counts[s.countIndex], s);
      PrependedMore(resolved, r, ResolveFrom(sections[i + 1..], counts, End(r)));
      resolved := resolved + [r];
      off, i := off + sectionSize, i + 1;
    }
    ok := true;
  }

  /** The checks that precede any write. */
  method Validate(data: array<bv8>, layout: LayoutDesc) returns (ok: bool, resolved: seq<ResolvedSection>)
    ensures ok == Resolve(data[..], layout).Some?
    ensures ok ==> resolved == Resolve(data[..], layout).value
  {
    hide HeaderCount, SectionOk;
    ok, resolved := false, [];
    if data.Length < HEADER_SIZE || data[..8] != MAGIC {
      return;
    }
    if layout.headerCountFields < 2 || layout.headerCountFields > MAX_COUNT_FIELDS {
      return;
    }
    if |layout.sections| == 0 || |layout.sections| > MAX_SECTIONS {
      return;
    }
    assert data[..8] == data[..][..8];
    var counts := ReadCounts(data, layout.headerCountFields);
    var debugInfoOffset := counts[layout.headerCountFields - 1];
    if counts[0] != data.Length || debugInfoOffset < HEADER_SIZE || debugInfoOffset > data.Length {
      return;
    }
    ok, resolved := ResolveSections(layout.sections, counts);
  }

  lemma {:induction false} LaidAt(rs: seq<ResolvedSection>, from: nat, to: nat, i: nat)
    requires Laid(rs, from, to) && i < |rs|
    ensures End(rs[i]) <= to && FieldsOk(rs[i].desc)
    decreases |rs|
  {
    if i > 0 {
      LaidAt(rs[1..], End(rs[0]), to, i - 1);
    }
  }

  /** All fields of one section, before the columns still to come. */
  method RewriteSection(data: array<bv8>, r: ResolvedSection, ghost later: seq<Column>, inverse: bool)
    requires FieldsOk(r.desc) && End(r) <= data.Length
    requires AllFit(SectionColumns(r, 0) + later, data.Length)
    modifies data
    ensures AllFit(later, data.Length)
    ensures Rewrite(data[..], later, inverse) == Rewrite(old(data[..]), SectionColumns(r, 0) + later, inverse)
  {
    hide FieldOk, Pass, Fits;
    var f := 0;
    while f < |r.desc.deltaFields|
      invariant f <= |r.desc.deltaFields| && AllFit(SectionColumns(r, f) + later, data.Length)
      invariant Rewrite(data[..], SectionColumns(r, f) + later, inverse) ==
                Rewrite(old(data[..]), SectionColumns(r, 0) + later, inverse)
    {
      ghost var cs := SectionColumns(r, f) + later;
      assert cs[0] == ColumnOf(r, r.desc.deltaFields[f]) && cs[1..] == SectionColumns(r, f + 1) + later;
      RewriteColumn(data, r, r.desc.deltaFields[f], inverse);
      f := f + 1;
    }
    assert SectionColumns(r, f) + later == later;
  }

  /** Validates everything, then rewrites section by section and field by field. */
  method TransformHbcInPlace(data: array<bv8>, layout: LayoutDesc, inverse: bool) returns (ok: bool)
    modifies data
    ensures ok <==> Transformed(old(data[..]), layout, inverse).Some?
    ensures !ok ==> data[..] == old(data[..])
    ensures ok ==> Some(data[..]) == Transformed(old(data[..]), layout, inverse)
  {
    hide ColumnIn, SelfApart, FieldsOk, HeaderCount, Fits, Resolve;
    ghost var b := data[..];
    var resolved;
    ok, resolved := Validate(data, layout);
    if !ok {
      return;
    }
    ResolvedFits(b, layout);
    ghost var total := Rewrite(b, Columns(resolved), inverse);
    assert resolved[0..] == resolved;
    var i := 0;
    while i < |resolved|
      invariant i <= |resolved| && AllFit(Columns(resolved[i..]), data.Length)
      invariant Rewrite(data[..], Columns(resolved[i..]), inverse) == total
    {
      LaidAt(resolved, HEADER_SIZE, SectionsEnd(b, layout), i);
      RewriteSection(data, resolved[i], Columns(resolved[i + 1..]), inverse);
      i := i + 1;
    }
  }

  // ----- why bit-disjointness is needed ----------------------------------------

  /** Two fields of one entry, [0, 8) and [4, 12): they share bits 4 to 7. */
  const OVERLAPPING := LayoutDesc(3, [SectionDesc(1, 4, [DeltaField(0, 0, 8), DeltaField(0, 4, 8)])])

  function Zeros(n: nat): (z: seq<bv8>)
    ensures |z| == n && forall i :: 0 <= i < n ==> z[i] == 0
  {
    seq(n, _ => 0)
  }

  function Prefix(): (b: seq<bv8>)
    ensures |b| == 128
  {
    MAGIC + Zeros(24) + [136, 0, 0, 0, 2, 0, 0, 0, 136, 0, 0, 0] + Zeros(84)
  }

  /** A 136-byte file whose one section, at 128, has the two entries w0 and w1. */
  function TwoEntries(w0: bv32, w1: bv32): (b: seq<bv8>)
    ensures |b| == 136
  {
    Prefix() + [ByteOf(w0, 0), ByteOf(w0, 1), ByteOf(w0, 2), ByteOf(w0, 3),
                ByteOf(w1, 0), ByteOf(w1, 1), ByteOf(w1, 2), ByteOf(w1, 3)]
  }

  lemma PrefixCounts()
    ensures Prefix()[..8] == MAGIC
    ensures Counts(Prefix(), 3) == [136, 2, 136]
  {
    var b := Prefix();
    assert b[32] == 136 && b[33] == 0 && b[34] == 0 && b[35] == 0;
    assert b[36] == 2 && b[37] == 0 && b[38] == 0 && b[39] == 0;
    assert b[40] == 136 && b[41] == 0 && b[42] == 0 && b[43] == 0;
    assert WordOf(136, 0, 0, 0) == 136 && WordOf(2, 0, 0, 0) == 2;
    assert HeaderCount(b, 0) == 136 && HeaderCount(b, 1) == 2 && HeaderCount(b, 2) == 136;
    assert Counts(b, 3) == [136, 2, 136];
    assert b[..8] == MAGIC;
  }

  lemma TwoEntriesResolve(w0: bv32, w1: bv32)
    ensures Resolve(TwoEntries(w0, w1), OVERLAPPING) == Some([ResolvedSection(128, 2, OVERLAPPING.sections[0])])
  {
    hide ByteOf, HeaderCount, Prefix;
    var b, counts := TwoEntries(w0, w1), [136, 2, 136];
    var p := Prefix();
    PrefixCounts();
    assert b[..128] == p;
    assert b[..8] == p[..8];
    SameCounts(p, b, 3);
    var s := OVERLAPPING.sections[0];
    var r := ResolvedSection(128, 2, s);
    assert SectionOk(s, counts) && Align4(128) == 128 && End(r) == 136;
    assert OVERLAPPING.sections[1..] == [];
    assert ResolveFrom([], counts, 136) == Some([]);
    assert ResolveFrom(OVERLAPPING.sections, counts, 128) == Some([r] + []);
    assert [r] + [] == [r];
    assert ShapeOk(b, OVERLAPPING) && Counts(b, OVERLAPPING.headerCountFields) == counts;
  }

  lemma {:induction false} SameCounts(b: seq<bv8>, c: seq<bv8>, n: nat)
    requires |b| == HEADER_SIZE <= |c| && n <= MAX_COUNT_FIELDS && c[..HEADER_SIZE] == b
    ensures Counts(b, n) == Counts(c, n)
  {
    hide WordOf;
    if n > 0 {
      SameCounts(b, c, n - 1);
      var p := COUNTS_OFFSET + 4 * (n - 1);
      assert b[p] == c[p] && b[p + 1] == c[p + 1] && b[p + 2] == c[p + 2] && b[p + 3] == c[p + 3];
    }
  }

  lemma TwoEntriesWords(w0: bv32, w1: bv32, w: bv32)
    ensures ReadU32(TwoEntries(w0, w1), 128) == w0
    ensures ReadU32(TwoEntries(w0, w1), 132) == w1
    ensures WriteU32(TwoEntries(w0, w1), 132, w) == TwoEntries(w0, w)
  {
    hide ByteOf, WordOf, Prefix;
    WordOfBytes(w0);
    WordOfBytes(w1);
  }

  lemma FirstEntryKept(b: seq<bv8>, c: Column, inverse: bool)
    requires Fits(c, |b|) && c.count == 2
    ensures Pass(b, c, 0, 0, inverse) == Pass(b, c, 1, Load(b, Pos(c, 0), c.bit, c.bits), inverse)
  {
    hide Mask, Place, Extract, Word, ReadU32, StoreMasked, Modulus, Load;
    var v := Load(b, Pos(c, 0), c.bit, c.bits);
    StoreLoaded(b, Pos(c, 0), c.bit, c.bits);
    ModOnce(v, Modulus(c.bits));
    assert Encoded(v, 0, Modulus(c.bits), inverse) == v;
  }

  /** One pass over two entries: the first keeps its value, the second becomes w. */
  lemma TwoEntryPass(w0: bv32, w1: bv32, bit: bv32, inverse: bool, v0: nat, v1: nat, e: bv32, w: bv32)
    requires bit <= 4 && Extract(w0, bit, 8) as nat == v0 && Extract(w1, bit, 8) as nat == v1
    requires v0 < 256 && e as nat == Encoded(v1, v0, 256, inverse)
    requires Replace(w1, Mask(bit, 8), Place(e, bit)) == w
    ensures var c := Column(128, 4, 2, bit, 8);
            Fits(c, 136) && Pass(TwoEntries(w0, w1), c, 0, 0, inverse) == TwoEntries(w0, w)
  {
    var c := Column(128, 4, 2, bit, 8);
    assert BitsOk(bit, 8);
    assert Pos(c, 0) == 128 && Pos(c, 1) == 132;
    hide ByteOf, WordOf, TwoEntries, Mask, Place, Replace, Extract, Word, ReadU32, WriteU32, FieldMask, Pass, Encoded, BitsOk, Modulus;
    var b := TwoEntries(w0, w1);
    TwoEntriesWords(w0, w1, w);
    FirstEntryKept(b, c, inverse);
    SameNumber(Word(Encoded(v1, v0, 256, inverse)), e);
  }

  lemma OverlapSteps()
    ensures Extract(0x18, 0, 8) == 0x18 && Extract(0x18, 4, 8) == 1
    ensures Extract(0, 0, 8) == 0 && Replace(0, Mask(0, 8), Place(0xe8, 0)) == 0xe8
    ensures Extract(0xe8, 4, 8) == 0xe && Replace(0xe8, Mask(4, 8), Place(0xd, 4)) == 0xd8
    ensures Extract(0xd8, 0, 8) == 0xd8 && Replace(0xd8, Mask(0, 8), Place(0xf0, 0)) == 0xf0
    ensures Extract(0xf0, 4, 8) == 0xf && Replace(0xf0, Mask(4, 8), Place(0x10, 4)) == 0x100
  {
  }

  /**
   Witness: the layout passes every check, yet its fields overlap, and the round trip of
   the entries 0x018 and 0x000 ends in 0x018 and 0x100.
   */
  lemma OverlapBreaksRoundTrip()
    ensures var b := TwoEntries(0x18, 0);
            && Transformed(b, OVERLAPPING, false) == Some(TwoEntries(0x18, 0xd8))
            && Transformed(TwoEntries(0x18, 0xd8), OVERLAPPING, true) == Some(TwoEntries(0x18, 0x100))
            && TwoEntries(0x18, 0x100) != b
  {
    hide ByteOf, TwoEntries, Mask, Place, Replace, Extract, Word, ReadU32, Pass;
    OverlapSteps();
    TwoEntriesResolve(0x18, 0);
    TwoEntriesResolve(0x18, 0xd8);
    var r := ResolvedSection(128, 2, OVERLAPPING.sections[0]);
    var c, d := Column(128, 4, 2, 0, 8), Column(128, 4, 2, 4, 8);
    OverlapColumns(r);
    TwoEntryPass(0x18, 0, 0, false, 0x18, 0, 0xe8, 0xe8);
    TwoEntryPass(0x18, 0xe8, 4, false, 1, 0xe, 0xd, 0xd8);
    TwoEntryPass(0x18, 0xd8, 0, true, 0x18, 0xd8, 0xf0, 0xf0);
    TwoEntryPass(0x18, 0xf0, 4, true, 1, 0xf, 0x10, 0x100);
    TwoPasses(TwoEntries(0x18, 0), c, d, false);
    TwoPasses(TwoEntries(0x18, 0xd8), c, d, true);
    TwoEntriesWords(0x18, 0, 0);
    TwoEntriesWords(0x18, 0x100, 0);
  }

  lemma OverlapColumns(r: ResolvedSection)
    requires r == ResolvedSection(128, 2, OVERLAPPING.sections[0])
    ensures Columns([r]) == [Column(128, 4, 2, 0, 8), Column(128, 4, 2, 4, 8)]
  {
    assert SectionColumns(r, 2) == [];
    assert SectionColumns(r, 1) == [Column(128, 4, 2, 4, 8)];
    assert SectionColumns(r, 0) == [Column(128, 4, 2, 0, 8)] + [Column(128, 4, 2, 4, 8)];
    assert Columns([r]) == SectionColumns(r, 0) + [];
  }

  lemma TwoPasses(b: seq<bv8>, c: Column, d: Column, inverse: bool)
    requires Fits(c, |b|) && Fits(d, |b|)
    ensures Rewrite(b, [c, d], inverse) == Pass(Pass(b, c, 0, 0, inverse), d, 0, 0, inverse)
  {
    var b1 := Pass(b, c, 0, 0, inverse);
    assert [c, d][1..] == [d] && [d][1..] == [];
    assert Rewrite(b1, [d], inverse) == Rewrite(Pass(b1, d, 0, 0, inverse), [], inverse);
  }
}