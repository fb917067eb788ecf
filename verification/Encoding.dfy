// Raw encoding of framebuffer rectangles and the FramebufferUpdate message.
module Encoding {
  import opened Bytes
  import opened Bits
  import opened Images
  import opened Pixel

  // n pixels of one row, starting at (x, y).
  function RowBytes(pf: PixelFormat, img: Frame, x: nat, y: nat, n: nat): seq<Byte>
    requires n > 0 ==> x + n <= img.width && y < img.height
    decreases n
  {
    if n == 0 then [] else EncodePixel(pf, img.At(x, y)) + RowBytes(pf, img, x + 1, y, n - 1)
  }

  // n rows of w pixels, starting at (x, y).
  function RectBytes(pf: PixelFormat, img: Frame, x: nat, y: nat, w: nat, n: nat): seq<Byte>
    requires x + w <= img.width && (n > 0 ==> y + n <= img.height)
    decreases n
  {
    if n == 0 then [] else RowBytes(pf, img, x, y, w) + RectBytes(pf, img, x, y + 1, w, n - 1)
  }

  lemma {:induction false} RowLength(pf: PixelFormat, img: Frame, x: nat, y: nat, n: nat)
    requires n > 0 ==> x + n <= img.width && y < img.height
    ensures |RowBytes(pf, img, x, y, n)| == n * pf.BytesPerPixel()
    decreases n
  {
    if n > 0 {
      RowLength(pf, img, x + 1, y, n - 1);
      OneMore(n - 1, pf.BytesPerPixel());
    }
  }

  lemma {:induction false} RectLength(pf: PixelFormat, img: Frame, x: nat, y: nat, w: nat, n: nat, len: nat)
    requires x + w <= img.width && (n > 0 ==> y + n <= img.height) && len == w * pf.BytesPerPixel()
    ensures |RectBytes(pf, img, x, y, w, n)| == n * len
    decreases n
  {
    if n > 0 {
      RowLength(pf, img, x, y, w);
      RectLength(pf, img, x, y + 1, w, n - 1, len);
      OneMore(n - 1, len);
    }
  }

  lemma PayloadLength(pf: PixelFormat, img: Frame, r: Rect)
    requires r.Within(img.width, img.height)
    ensures |RectBytes(pf, img, r.x0, r.y0, r.Dx(), r.Dy())| == r.Dy() * (r.Dx() * pf.BytesPerPixel())
  {
    var len := Times(r.Dx(), pf.BytesPerPixel());
    RectLength(pf, img, r.x0, r.y0, r.Dx(), r.Dy(), len);
  }

  lemma Times(a: nat, b: nat) returns (p: nat)
    ensures p == a * b
  {
    p := a * b;
  }

  // item sits at position k of items of one length.
  predicate ItemAt<T(==)>(s: seq<T>, k: nat, len: nat, item: seq<T>) {
    0 <= k * len && k * len + len <= |s| && s[k * len..k * len + len] == item
  }

  lemma Later<T>(head: seq<T>, tail: seq<T>, k: nat, len: nat, item: seq<T>)
    requires |head| == len
    requires if k == 0 then item == head else ItemAt(tail, k - 1, len, item)
    ensures ItemAt(head + tail, k, len, item)
  {
    if k == 0 {
      SliceHead(head, tail, 0, len);
    } else {
      OneMore(k - 1, len);
      SliceTail(head, tail, (k - 1) * len, len);
    }
  }

  lemma {:induction false} RowPosition(pf: PixelFormat, img: Frame, x: nat, y: nat, n: nat, i: nat, bpp: nat)
    requires i < n && x + n <= img.width && y < img.height && bpp == pf.BytesPerPixel()
    ensures ItemAt(RowBytes(pf, img, x, y, n), i, bpp, EncodePixel(pf, img.At(x + i, y)))
    decreases n
  {
    if i > 0 { RowPosition(pf, img, x + 1, y, n - 1, i - 1, bpp); }
    Later(EncodePixel(pf, img.At(x, y)), RowBytes(pf, img, x + 1, y, n - 1), i, bpp, EncodePixel(pf, img.At(x + i, y)));
  }

  lemma {:induction false} RowOfRect(pf: PixelFormat, img: Frame, x: nat, y: nat, w: nat, n: nat, j: nat, len: nat)
    requires j < n && x + w <= img.width && y + n <= img.height && len == w * pf.BytesPerPixel()
    ensures ItemAt(RectBytes(pf, img, x, y, w, n), j, len, RowBytes(pf, img, x, y + j, w))
    decreases n
  {
    RowLength(pf, img, x, y, w);
    if j > 0 { RowOfRect(pf, img, x, y + 1, w, n - 1, j - 1, len); }
    Later(RowBytes(pf, img, x, y, w), RectBytes(pf, img, x, y + 1, w, n - 1), j, len, RowBytes(pf, img, x, y + j, w));
  }

  lemma ItemOfItem<T>(s: seq<T>, j: nat, len: nat, row: seq<T>, i: nat, bpp: nat, item: seq<T>)
    requires ItemAt(s, j, len, row) && ItemAt(row, i, bpp, item)
    ensures 0 <= j * len + i * bpp && j * len + i * bpp + bpp <= |s|
    ensures s[j * len + i * bpp..j * len + i * bpp + bpp] == item
  {
    SliceOfSlice(s, j * len, len, i * bpp, bpp);
  }

  // Row-major order: the pixel at column i and row j of the rectangle sits at byte
  // j * rowLength + i * bytesPerPixel of its encoding.
  lemma RectPosition(pf: PixelFormat, img: Frame, x: nat, y: nat, w: nat, n: nat, i: nat, j: nat)
    requires i < w && j < n && x + w <= img.width && y + n <= img.height
    ensures var bpp := pf.BytesPerPixel(); var at := j * (w * bpp) + i * bpp;
      && 0 <= at && at + bpp <= |RectBytes(pf, img, x, y, w, n)|
      && RectBytes(pf, img, x, y, w, n)[at..at + bpp] == EncodePixel(pf, img.At(x + i, y + j))
  {
    var bpp := pf.BytesPerPixel();
    var len := Times(w, bpp);
    RowOfRect(pf, img, x, y, w, n, j, len);
    RowPosition(pf, img, x, y + j, w, i, bpp);
    ItemOfItem(RectBytes(pf, img, x, y, w, n), j, len, RowBytes(pf, img, x, y + j, w),
               i, bpp, EncodePixel(pf, img.At(x + i, y + j)));
  }

  // The wrapping 32-bit product of a byte and a 16-bit maximum never wraps.
  function Mul32(c: Byte, max: Word16): (r: nat)
    ensures r == c * (max as int)
  {
    ProductFits(c, max);
    c * (max as int) % 0x1_0000_0000
  }

  lemma ProductFits(c: Byte, max: Word16)
    ensures 0 <= c * (max as int) < 0x1_0000_0000
    ensures c * (max as int) % 0x1_0000_0000 == c * (max as int)
  {
    var p := c * (max as int);
    ProductBound(c, max);
    SmallRemainder(p, 0x1_0000_0000);
  }

  lemma SmallRemainder(p: nat, m: nat)
    requires p < m
    ensures p % m == p
  {
  }

  // The 32-bit value of one pixel.
  method PackPixel(pf: PixelFormat, r: Byte, g: Byte, bl: Byte, ghost a: Byte) returns (val: nat)
    ensures val == Packed(pf, RGBA(r, g, bl, a))
  {
    var cr := Mul32(r, pf.redMax) / 255;
    var cg := Mul32(g, pf.greenMax) / 255;
    var cb := Mul32(bl, pf.blueMax) / 255;
    val := Or(Or(Shl32(cr, pf.redShift), Shl32(cg, pf.greenShift)), Shl32(cb, pf.blueShift));
  }

  // The bytes of one packed value in the format's byte order, filled into a four-byte array.
  method PixelBytes(pf: PixelFormat, val: nat) returns (b: seq<Byte>)
    requires pf.BytesPerPixel() <= 4
    ensures |b| == pf.BytesPerPixel()
    ensures forall i :: 0 <= i < |b| ==> b[i] == PixelByte(pf, val, |b|, i)
  {
    var bpp := pf.BytesPerPixel();
    var pix := new Byte[4];
    if pf.bigEndian != 0 {
      for i := 0 to bpp
        invariant forall k :: 0 <= k < i ==> pix[k] == PixelByte(pf, val, bpp, k)
      {
        pix[i] := Shr(val, 8 * (bpp - 1 - i)) % 0x100;
      }
    } else {
      for i := 0 to bpp
        invariant forall k :: 0 <= k < i ==> pix[k] == PixelByte(pf, val, bpp, k)
      {
        pix[i] := Shr(val, 8 * i) % 0x100;
      }
    }
    b := pix[..bpp];
  }

  // The inner loop: one row of rw pixels starting at (rx, fy).
  method EncodeRow(pf: PixelFormat, dst0: seq<Byte>, img: Frame, rx: nat, fy: nat, rw: nat)
      returns (dst: seq<Byte>)
    requires pf.BytesPerPixel() <= 4 || rw == 0
    requires rx + rw <= img.width && fy < img.height
    ensures dst == dst0 + RowBytes(pf, img, rx, fy, rw)
  {
    dst := dst0;
    var row := img.PixOffset(img.minX + rx, img.minY + fy);
    var fx := rx;
    while fx < rx + rw
      invariant rx <= fx <= rx + rw
      invariant fx < rx + rw ==> row == img.PixOffset(img.minX + fx, img.minY + fy)
      invariant dst + RowBytes(pf, img, fx, fy, rx + rw - fx) == dst0 + RowBytes(pf, img, rx, fy, rw)
    {
      img.OffsetInside(fx, fy);
      ghost var p := img.At(fx, fy);
      var val := PackPixel(pf, img.pix[row], img.pix[row + 1], img.pix[row + 2], p.a);
      row := row + 4;
      var pix := PixelBytes(pf, val);
      assert pix == EncodePixel(pf, p);
      Assoc(dst, pix, RowBytes(pf, img, fx + 1, fy, rx + rw - (fx + 1)));
      dst := dst + pix;
      fx := fx + 1;
    }
  }

  method EncodeRectInto(pf: PixelFormat, dst0: seq<Byte>, img: Frame, rx: nat, ry: nat, rw: nat, rh: nat)
      returns (dst: seq<Byte>)
    requires pf.BytesPerPixel() <= 4 || rw == 0 || rh == 0
    requires rx + rw <= img.width && ry + rh <= img.height
    ensures dst == dst0 + RectBytes(pf, img, rx, ry, rw, rh)
  {
    dst := dst0;
    var fy := ry;
    while fy < ry + rh
      invariant ry <= fy <= ry + rh
      invariant dst + RectBytes(pf, img, rx, fy, rw, ry + rh - fy) == dst0 + RectBytes(pf, img, rx, ry, rw, rh)
    {
      var above := dst;
      dst := EncodeRow(pf, above, img, rx, fy, rw);
      Assoc(above, RowBytes(pf, img, rx, fy, rw), RectBytes(pf, img, rx, fy + 1, rw, ry + rh - (fy + 1)));
      fy := fy + 1;
    }
  }

  // ---- The FramebufferUpdate message (section 7.6.1 of RFC 6143) ----

  function RectHeader(r: Rect): (b: seq<Byte>)
    ensures |b| == 12
  {
    U16(r.x0) + U16(r.y0) + U16(r.Dx()) + U16(r.Dy()) + U32(0)
  }

  lemma HeaderValues(r: Rect, w: Word16, h: Word16)
    requires r.Within(w, h)
    ensures var b := RectHeader(r);
      && ReadU16(b[..2]) == r.x0 && ReadU16(b[2..4]) == r.y0
      && ReadU16(b[4..6]) == r.Dx() && ReadU16(b[6..8]) == r.Dy() && ReadU32(b[8..12]) == 0
  {
    var b := RectHeader(r);
    assert b[..2] == U16(r.x0) && b[2..4] == U16(r.y0) && b[4..6] == U16(r.Dx()) && b[6..8] == U16(r.Dy());
    assert b[8..12] == U32(0);
  }

  function EncodeRect(pf: PixelFormat, img: Frame, r: Rect): seq<Byte>
    requires r.Within(img.width, img.height)
  {
    RectHeader(r) + RectBytes(pf, img, r.x0, r.y0, r.Dx(), r.Dy())
  }

  predicate AllWithin(rects: seq<Rect>, w: int, h: int) {
    forall k :: 0 <= k < |rects| ==> rects[k].Within(w, h)
  }

  function RectsBytes(pf: PixelFormat, img: Frame, rects: seq<Rect>): seq<Byte>
    requires AllWithin(rects, img.width, img.height)
  {
    if rects == [] then []
    else
      assert rects[0].Within(img.width, img.height);
      EncodeRect(pf, img, rects[0]) + RectsBytes(pf, img, rects[1..])
  }

  function UpdateBytes(pf: PixelFormat, img: Frame, rects: seq<Rect>): seq<Byte>
    requires AllWithin(rects, img.width, img.height)
  {
    [0, 0] + U16(|rects|) + RectsBytes(pf, img, rects)
  }
}
