// Pixel formats and the packing of true-colour pixels (section 7.4 of RFC 6143).
module Pixel {
  import opened Bytes
  import opened Bits
  import opened Images

  datatype PixelFormat = PixelFormat(
    bitsPerPixel: Byte, depth: Byte, bigEndian: Byte, trueColor: Byte,
    redMax: Word16, greenMax: Word16, blueMax: Word16,
    redShift: Byte, greenShift: Byte, blueShift: Byte)
  {
    function BytesPerPixel(): nat {
      bitsPerPixel / 8
    }

    // The 16 bytes of the wire form, padding last.
    function Write(): (b: seq<Byte>)
      ensures |b| == 16
    {
      [bitsPerPixel, depth, bigEndian, trueColor] + U16(redMax) + U16(greenMax) + U16(blueMax)
      + [redShift, greenShift, blueShift, 0, 0, 0]
    }
  }

  function DefaultFormat(): PixelFormat {
    PixelFormat(32, 24, 0, 1, 255, 255, 255, 16, 8, 0)
  }

  function ReadFormat(b: seq<Byte>): PixelFormat
    requires |b| >= 16
  {
    PixelFormat(b[0], b[1], b[2], b[3], ReadU16(b[4..6]), ReadU16(b[6..8]), ReadU16(b[8..10]), b[10], b[11], b[12])
  }

  lemma FormatRoundTrip(pf: PixelFormat)
    ensures ReadFormat(pf.Write()) == pf
  {
    var b := pf.Write();
    assert b[4..6] == U16(pf.redMax);
    assert b[6..8] == U16(pf.greenMax);
    assert b[8..10] == U16(pf.blueMax);
  }

  // A colour channel scaled to the format's maximum: the largest r with r/max not above c/255.
  function Scale(c: Byte, max: Word16): (r: nat)
    ensures r <= max
    ensures 255 * r <= c * (max as int) < 255 * (r + 1)
  {
    ScaleBound(c, max);
    FloorBy255(c * (max as int));
    c * (max as int) / 255
  }

  lemma FloorBy255(p: int)
    ensures 255 * (p / 255) <= p < 255 * (p / 255 + 1)
  {
  }

  lemma ScaleBound(c: Byte, max: Word16)
    ensures 0 <= c * (max as int) / 255 <= max
  {
    ProductBound(c, max);
    Div255(c * (max as int), max);
  }

  lemma ProductBound(c: int, max: int)
    requires 0 <= c <= 255 && 0 <= max
    ensures 0 <= c * max <= 255 * max
  {
  }

  lemma Div255(p: int, m: int)
    requires 0 <= p <= 255 * m
    ensures 0 <= p / 255 <= m
  {
  }

  // The 32-bit pixel value before it is cut into bytes.
  function Packed(pf: PixelFormat, p: RGBA): nat {
    Or(Or(Shl32(Scale(p.r, pf.redMax), pf.redShift),
          Shl32(Scale(p.g, pf.greenMax), pf.greenShift)),
       Shl32(Scale(p.b, pf.blueMax), pf.blueShift))
  }

  function ByteOf(val: nat, shift: nat): Byte {
    Shr(val, shift) % 0x100
  }

  // Byte i of bpp in the format's byte order.
  function PixelByte(pf: PixelFormat, val: nat, bpp: nat, i: nat): Byte
    requires i < bpp
  {
    if pf.bigEndian != 0 then ByteOf(val, 8 * (bpp - 1 - i)) else ByteOf(val, 8 * i)
  }

  function EncodePixel(pf: PixelFormat, p: RGBA): (b: seq<Byte>)
    ensures |b| == pf.BytesPerPixel()
  {
    var bpp := pf.BytesPerPixel();
    seq(bpp, i requires 0 <= i < bpp => PixelByte(pf, Packed(pf, p), bpp, i))
  }

  // ---- Reading a pixel back ----

  // The number whose little-endian bytes are b.
  function LittleEndian(b: seq<Byte>): nat {
    if b == [] then 0 else (b[0] as int) + 0x100 * LittleEndian(b[1..])
  }

  function BigEndian(b: seq<Byte>): nat {
    if b == [] then 0 else 0x100 * BigEndian(b[..|b| - 1]) + b[|b| - 1]
  }

  function PixelValue(pf: PixelFormat, b: seq<Byte>): nat {
    if pf.bigEndian != 0 then BigEndian(b) else LittleEndian(b)
  }

  function Field(val: nat, shift: nat, max: nat): nat {
    And(Shr(val, shift), max)
  }

  datatype Colour = Colour(r: nat, g: nat, b: nat)

  function DecodePixel(pf: PixelFormat, b: seq<Byte>): Colour {
    var v := PixelValue(pf, b);
    Colour(Field(v, pf.redShift, pf.redMax), Field(v, pf.greenShift, pf.greenMax), Field(v, pf.blueShift, pf.blueMax))
  }

  function Quantised(pf: PixelFormat, p: RGBA): (q: Colour)
    ensures q.r == p.r * (pf.redMax as int) / 255
    ensures q.g == p.g * (pf.greenMax as int) / 255
    ensures q.b == p.b * (pf.blueMax as int) / 255
  {
    Colour(Scale(p.r, pf.redMax), Scale(p.g, pf.greenMax), Scale(p.b, pf.blueMax))
  }

  // ---- Legal formats ----

  // The number of bits of a maximum.
  function Width(max: nat): nat {
    if max == 0 then 0 else 1 + Width(max / 2)
  }

  predicate FieldsApart(s: nat, max: nat, s': nat, max': nat) {
    s + Width(max) <= s' || s' + Width(max') <= s
  }

  predicate FieldLegal(bits: nat, shift: nat, max: nat) {
    max == Pow2(Width(max)) - 1 && shift + Width(max) <= bits
  }

  predicate Legal(pf: PixelFormat) {
    && (pf.bitsPerPixel == 8 || pf.bitsPerPixel == 16 || pf.bitsPerPixel == 32)
    && pf.trueColor != 0
    && FieldLegal(pf.bitsPerPixel, pf.redShift, pf.redMax)
    && FieldLegal(pf.bitsPerPixel, pf.greenShift, pf.greenMax)
    && FieldLegal(pf.bitsPerPixel, pf.blueShift, pf.blueMax)
    && FieldsApart(pf.redShift, pf.redMax, pf.greenShift, pf.greenMax)
    && FieldsApart(pf.redShift, pf.redMax, pf.blueShift, pf.blueMax)
    && FieldsApart(pf.greenShift, pf.greenMax, pf.blueShift, pf.blueMax)
  }

  lemma DefaultLegal()
    ensures Legal(DefaultFormat())
  {
    assert Width(31) == 5;
    assert Width(255) == 8;
    Pow2Is32();
  }

  // ---- Every legal format loses nothing but the scaling ----

  // Cutting a value into bpp bytes and reading them back keeps its low 8*bpp bits.
  lemma {:induction false} LittleEndianBytes(val: nat, b: seq<Byte>, lo: nat)
    requires forall i :: 0 <= i < |b| ==> b[i] == ByteOf(val, 8 * (lo + i))
    ensures LittleEndian(b) == Shr(val, 8 * lo) % Pow2(8 * |b|)
  {
    if b != [] {
      var rest := b[1..];
      forall i | 0 <= i < |rest| ensures rest[i] == ByteOf(val, 8 * (lo + 1 + i)) {
        assert rest[i] == b[i + 1];
      }
      LittleEndianBytes(val, rest, lo + 1);
      ShrMore(val, 8 * lo, 8);
      LowByteFirst(Shr(val, 8 * lo), |rest|);
    }
  }

  // The lowest byte of a value and the n bytes above it.
  lemma LowByteFirst(v: nat, n: nat)
    ensures v % 0x100 + 0x100 * (Shr(v, 8) % Pow2(8 * n)) == v % Pow2(8 * (n + 1))
  {
    ShrByte(v);
    Pow2Add(8, 8 * n);
    assert Pow2(8) == 0x100;
    SplitRemainder(v, Pow2(8 * n));
  }

  lemma ShrByte(v: nat)
    ensures Shr(v, 8) == v / 0x100
  {
    assert Shr(v, 4) == v / 0x10;
    ShrMore(v, 4, 4);
    assert Shr(v / 0x10, 4) == v / 0x10 / 0x10;
  }

  lemma {:induction false} Pow2Add(a: nat, b: nat)
    ensures Pow2(a + b) == Pow2(a) * Pow2(b)
  {
    if a > 0 { Pow2Add(a - 1, b); }
  }

  lemma {:induction false} ShrMore(n: nat, a: nat, b: nat)
    ensures Shr(n, a + b) == Shr(Shr(n, a), b)
  {
    forall i: nat ensures Bit(Shr(n, a + b), i) <==> Bit(Shr(Shr(n, a), b), i) {
      BitShr(n, a + b, i);
      BitShr(Shr(n, a), b, i);
      BitShr(n, a, b + i);
    }
    SameBits(Shr(n, a + b), Shr(Shr(n, a), b));
  }

  lemma SplitRemainder(v: nat, m: nat)
    requires m >= 1
    ensures v % 0x100 + 0x100 * (v / 0x100 % m) == v % (0x100 * m)
  {
    var u, lo := v / 0x100, v % 0x100;
    var q, hi := u / m, u % m;
    assert u == m * q + hi;
    assert 0x100 * m * q == 0x100 * (m * q);
    Quotient(v, 0x100 * m, q, 0x100 * hi + lo);
  }

  lemma {:induction false} BigIsReversed(b: seq<Byte>, c: seq<Byte>)
    requires |b| == |c| && forall i :: 0 <= i < |b| ==> b[i] == c[|b| - 1 - i]
    ensures BigEndian(b) == LittleEndian(c)
  {
    if b != [] {
      BigIsReversed(b[..|b| - 1], c[1..]);
    }
  }

  // The low bytes of a value, lowest first.
  function LowBytes(val: nat, n: nat): seq<Byte> {
    seq(n, i requires 0 <= i < n => ByteOf(val, 8 * i))
  }

  lemma LowBytesRead(val: nat, n: nat)
    ensures LittleEndian(LowBytes(val, n)) == val % Pow2(8 * n)
  {
    LittleEndianBytes(val, LowBytes(val, n), 0);
    assert Shr(val, 0) == val;
  }

  lemma EncodedBytes(pf: PixelFormat, p: RGBA)
    ensures PixelValue(pf, EncodePixel(pf, p)) == LittleEndian(LowBytes(Packed(pf, p), pf.BytesPerPixel()))
  {
    var le, b := LowBytes(Packed(pf, p), pf.BytesPerPixel()), EncodePixel(pf, p);
    if pf.bigEndian != 0 {
      BigIsReversed(b, le);
    } else {
      assert b == le;
    }
  }

  lemma ReadsBack(pf: PixelFormat, p: RGBA)
    ensures PixelValue(pf, EncodePixel(pf, p)) == Packed(pf, p) % Pow2(8 * pf.BytesPerPixel())
  {
    EncodedBytes(pf, p);
    LowBytesRead(Packed(pf, p), pf.BytesPerPixel());
  }

  // A bit of the packed value comes from the one field that holds its position.
  lemma PackedBits(pf: PixelFormat, p: RGBA, i: nat)
    ensures Bit(Packed(pf, p), i) <==>
      || (pf.redShift <= i < 32 && Bit(Scale(p.r, pf.redMax), i - pf.redShift))
      || (pf.greenShift <= i < 32 && Bit(Scale(p.g, pf.greenMax), i - pf.greenShift))
      || (pf.blueShift <= i < 32 && Bit(Scale(p.b, pf.blueMax), i - pf.blueShift))
  {
    var r := Shl32(Scale(p.r, pf.redMax), pf.redShift);
    var g := Shl32(Scale(p.g, pf.greenMax), pf.greenShift);
    var b := Shl32(Scale(p.b, pf.blueMax), pf.blueShift);
    BitOr(Or(r, g), b, i);
    BitOr(r, g, i);
    BitShl32(Scale(p.r, pf.redMax), pf.redShift, i);
    BitShl32(Scale(p.g, pf.greenMax), pf.greenShift, i);
    BitShl32(Scale(p.b, pf.blueMax), pf.blueShift, i);
  }

  // val holds the bits of three values shifted to their places.
  ghost predicate Mixed(val: nat, s: nat, c: nat, s1: nat, c1: nat, s2: nat, c2: nat) {
    forall i: nat :: Bit(val, i) <==> MixedBit(i, s, c, s1, c1, s2, c2)
  }

  predicate MixedBit(i: nat, s: nat, c: nat, s1: nat, c1: nat, s2: nat, c2: nat) {
    (s <= i < 32 && Bit(c, i - s)) || (s1 <= i < 32 && Bit(c1, i - s1)) || (s2 <= i < 32 && Bit(c2, i - s2))
  }

  lemma FieldBit(val: nat, bits: nat, s: nat, k: nat, i: nat)
    ensures Bit(Shr(val % Pow2(bits), s) % Pow2(k), i) <==> i < k && s + i < bits && Bit(val, s + i)
  {
    BitMod(Shr(val % Pow2(bits), s), k, i);
    BitShr(val % Pow2(bits), s, i);
    BitMod(val, bits, s + i);
  }

  // A value of k1 bits at s1 has no bit between s and s + k when the two stretches do not overlap.
  lemma Silent(s: nat, k: nat, s1: nat, k1: nat, c1: nat, i: nat)
    requires c1 < Pow2(k1) && (s1 + k1 <= s || s + k <= s1) && i < k
    ensures s1 <= s + i ==> !Bit(c1, s + i - s1)
  {
    if s1 <= s + i { BitsBelow(c1, k1, s + i - s1); }
  }

  // Between s and s + k only c contributes.
  lemma RecoveredBit(s: nat, k: nat, c: nat, s1: nat, k1: nat, c1: nat, s2: nat, k2: nat, c2: nat, i: nat)
    requires s + k <= 32 && i < k
    requires c1 < Pow2(k1) && (s1 + k1 <= s || s + k <= s1)
    requires c2 < Pow2(k2) && (s2 + k2 <= s || s + k <= s2)
    ensures MixedBit(s + i, s, c, s1, c1, s2, c2) <==> Bit(c, i)
  {
    Silent(s, k, s1, k1, c1, i);
    Silent(s, k, s2, k2, c2, i);
  }

  lemma FieldOfMix(val: nat, bits: nat, s: nat, k: nat, c: nat, s1: nat, k1: nat, c1: nat, s2: nat, k2: nat, c2: nat)
    requires s + k <= bits <= 32 && c < Pow2(k)
    requires c1 < Pow2(k1) && (s1 + k1 <= s || s + k <= s1)
    requires c2 < Pow2(k2) && (s2 + k2 <= s || s + k <= s2)
    requires Mixed(val, s, c, s1, c1, s2, c2)
    ensures Shr(val % Pow2(bits), s) % Pow2(k) == c
  {
    var f := Shr(val % Pow2(bits), s) % Pow2(k);
    forall i: nat ensures Bit(f, i) <==> Bit(c, i) {
      FieldBit(val, bits, s, k, i);
      if i < k {
        assert Bit(val, s + i) <==> MixedBit(s + i, s, c, s1, c1, s2, c2);
        RecoveredBit(s, k, c, s1, k1, c1, s2, k2, c2, i);
      } else {
        BitsBelow(c, k, i);
      }
    }
    SameBits(f, c);
  }

  // The field (s, max) of a mix is c when it overlaps neither of the other two.
  lemma FieldRecovered(val: nat, bits: nat, s: nat, max: nat, c: nat,
                       s1: nat, max1: nat, c1: nat, s2: nat, max2: nat, c2: nat)
    requires FieldLegal(bits, s, max) && c <= max && bits <= 32
    requires max1 == Pow2(Width(max1)) - 1 && c1 <= max1 && FieldsApart(s1, max1, s, max)
    requires max2 == Pow2(Width(max2)) - 1 && c2 <= max2 && FieldsApart(s2, max2, s, max)
    requires Mixed(val, s, c, s1, c1, s2, c2)
    ensures Field(val % Pow2(bits), s, max) == c
  {
    FieldOfMix(val, bits, s, Width(max), c, s1, Width(max1), c1, s2, Width(max2), c2);
    MaskIsRemainder(Shr(val % Pow2(bits), s), Width(max));
  }

  lemma MixedSwaps(val: nat, s: nat, c: nat, s1: nat, c1: nat, s2: nat, c2: nat)
    requires Mixed(val, s, c, s1, c1, s2, c2)
    ensures Mixed(val, s1, c1, s, c, s2, c2) && Mixed(val, s2, c2, s, c, s1, c1)
  {
    forall i: nat
      ensures Bit(val, i) <==> MixedBit(i, s1, c1, s, c, s2, c2)
      ensures Bit(val, i) <==> MixedBit(i, s2, c2, s, c, s1, c1)
    {
      assert Bit(val, i) <==> MixedBit(i, s, c, s1, c1, s2, c2);
    }
  }

  lemma PackedMixed(pf: PixelFormat, p: RGBA)
    ensures var q := Quantised(pf, p);
      Mixed(Packed(pf, p), pf.redShift, q.r, pf.greenShift, q.g, pf.blueShift, q.b)
  {
    var q := Quantised(pf, p);
    forall i: nat
      ensures Bit(Packed(pf, p), i) <==> MixedBit(i, pf.redShift, q.r, pf.greenShift, q.g, pf.blueShift, q.b)
    {
      PackedBits(pf, p, i);
    }
  }

  lemma PackedFields(pf: PixelFormat, p: RGBA)
    requires Legal(pf)
    ensures var v, q := Packed(pf, p) % Pow2(pf.bitsPerPixel), Quantised(pf, p);
      && Field(v, pf.redShift, pf.redMax) == q.r
      && Field(v, pf.greenShift, pf.greenMax) == q.g
      && Field(v, pf.blueShift, pf.blueMax) == q.b
  {
    var val, q, bits := Packed(pf, p), Quantised(pf, p), pf.bitsPerPixel;
    var rs, rm, gs, gm, bs, bm := pf.redShift, pf.redMax, pf.greenShift, pf.greenMax, pf.blueShift, pf.blueMax;
    PackedMixed(pf, p);
    MixedSwaps(val, rs, q.r, gs, q.g, bs, q.b);
    FieldRecovered(val, bits, rs, rm, q.r, gs, gm, q.g, bs, bm, q.b);
    FieldRecovered(val, bits, gs, gm, q.g, rs, rm, q.r, bs, bm, q.b);
    FieldRecovered(val, bits, bs, bm, q.b, rs, rm, q.r, gs, gm, q.g);
  }

  // Reading the bytes of a pixel back, in either byte order and for every legal format, gives
  // each channel scaled to its maximum.
  lemma PixelRoundTrip(pf: PixelFormat, p: RGBA)
    requires Legal(pf)
    ensures var c := DecodePixel(pf, EncodePixel(pf, p));
      && c == Quantised(pf, p)
      && c.r == p.r * (pf.redMax as int) / 255
      && c.g == p.g * (pf.greenMax as int) / 255
      && c.b == p.b * (pf.blueMax as int) / 255
  {
    LegalBits(pf);
    ReadsBack(pf, p);
    PackedFields(pf, p);
    DecodesTo(pf, EncodePixel(pf, p), Packed(pf, p) % Pow2(pf.bitsPerPixel), Quantised(pf, p));
  }

  // For every format, legal or not, the bits of the value written are those of the scaled channels,
  // shifted to their places within 32 bits and cut to the bytes there are.
  lemma PixelBits(pf: PixelFormat, p: RGBA, i: nat)
    ensures Bit(PixelValue(pf, EncodePixel(pf, p)), i) <==>
      && i < 8 * pf.BytesPerPixel()
      && (|| (pf.redShift <= i < 32 && Bit(p.r * (pf.redMax as int) / 255, i - pf.redShift))
          || (pf.greenShift <= i < 32 && Bit(p.g * (pf.greenMax as int) / 255, i - pf.greenShift))
          || (pf.blueShift <= i < 32 && Bit(p.b * (pf.blueMax as int) / 255, i - pf.blueShift)))
  {
    var q := Quantised(pf, p);
    ReadsBack(pf, p);
    BitMod(Packed(pf, p), 8 * pf.BytesPerPixel(), i);
    PackedBits(pf, p, i);
    assert q == Colour(Scale(p.r, pf.redMax), Scale(p.g, pf.greenMax), Scale(p.b, pf.blueMax));
  }

  lemma LegalBits(pf: PixelFormat)
    requires Legal(pf)
    ensures 8 * pf.BytesPerPixel() == pf.bitsPerPixel && 1 <= pf.BytesPerPixel() <= 4
  {
    WholeBytes(pf.bitsPerPixel);
  }

  lemma WholeBytes(bits: Byte)
    requires bits == 8 || bits == 16 || bits == 32
    ensures 8 * (bits / 8) == bits && 1 <= bits / 8 <= 4
  {
  }

  lemma DecodesTo(pf: PixelFormat, b: seq<Byte>, v: nat, q: Colour)
    requires PixelValue(pf, b) == v
    requires Field(v, pf.redShift, pf.redMax) == q.r
    requires Field(v, pf.greenShift, pf.greenMax) == q.g
    requires Field(v, pf.blueShift, pf.blueMax) == q.b
    ensures DecodePixel(pf, b) == q
  {
  }

  lemma ByteIs(val: nat, s: nat, c: Byte)
    requires forall i: nat :: i < 8 ==> (Bit(val, s + i) <==> Bit(c, i))
    ensures ByteOf(val, s) == c
  {
    Pow2Is32();
    forall i: nat ensures Bit(ByteOf(val, s), i) <==> Bit(c, i) {
      BitMod(Shr(val, s), 8, i);
      BitShr(val, s, i);
      if i >= 8 { BitsBelow(c, 8, i); }
    }
    SameBits(ByteOf(val, s), c);
  }

  lemma DefaultScale(p: RGBA)
    ensures Quantised(DefaultFormat(), p) == Colour(p.r, p.g, p.b)
  {
  }

  // A bit of the packed value in the default format.
  lemma DefaultMixed(p: RGBA, i: nat)
    ensures Bit(Packed(DefaultFormat(), p), i) <==> MixedBit(i, 16, p.r, 8, p.g, 0, p.b)
  {
    PackedBits(DefaultFormat(), p, i);
    DefaultScale(p);
  }

  // Eight bits from a place on, when a byte is shifted to s.
  lemma ByteBits(c: Byte, s: nat, at: nat, i: nat)
    requires i < 8 && (s == at || s + 8 <= at || at + 8 <= s)
    ensures s <= at + i && Bit(c, at + i - s) <==> s == at && Bit(c, i)
  {
    assert Pow2(8) == 256;
    if s + 8 <= at { BitsBelow(c, 8, at + i - s); }
  }

  lemma DefaultBit(p: RGBA, at: nat, i: nat)
    requires i < 8 && (at == 0 || at == 8 || at == 16 || at == 24)
    ensures Bit(Packed(DefaultFormat(), p), at + i)
        <==> Bit(if at == 0 then p.b else if at == 8 then p.g else if at == 16 then p.r else 0, i)
  {
    DefaultMixed(p, at + i);
    ByteBits(p.b, 0, at, i);
    ByteBits(p.g, 8, at, i);
    ByteBits(p.r, 16, at, i);
    BitZero(i);
  }

  // In the default format the four bytes are blue, green, red and zero.
  lemma DefaultPixel(p: RGBA)
    ensures EncodePixel(DefaultFormat(), p) == [p.b, p.g, p.r, 0]
  {
    var val := Packed(DefaultFormat(), p);
    forall i: nat | i < 8
      ensures Bit(val, 0 + i) == Bit(p.b, i) && Bit(val, 8 + i) == Bit(p.g, i)
      ensures Bit(val, 16 + i) == Bit(p.r, i) && Bit(val, 24 + i) == Bit(0, i)
    {
      DefaultBit(p, 0, i);
      DefaultBit(p, 8, i);
      DefaultBit(p, 16, i);
      DefaultBit(p, 24, i);
    }
    ByteIs(val, 0, p.b);
    ByteIs(val, 8, p.g);
    ByteIs(val, 16, p.r);
    ByteIs(val, 24, 0);
  }
}
