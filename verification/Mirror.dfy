// What this repository's client shows after any run, and the meaning of its framebuffer writes.
module Mirror {
  import opened Bytes
  import opened Images
  import opened DiffFacts
  import opened DiffSize
  import opened Pixel
  import opened Encoding
  import opened Client
  import B = Blocks
  import S = Server
  import V = Viewer

  function Opaque(p: RGBA): RGBA {
    RGBA(p.r, p.g, p.b, 255)
  }

  // ---- Writing one row ----

  // The pixel (X, Y) is one of the pixels [x, x+w) of row y, or its bytes lie outside theirs.
  lemma RowOffsets(w0: nat, x: nat, y: nat, w: nat, X: nat, Y: nat)
    requires x + w <= w0 && X < w0
    ensures var off, o := y * (4 * w0) + 4 * x, Y * (4 * w0) + 4 * X;
      if Y == y && x <= X < x + w then o == off + 4 * (X - x) else o + 4 <= off || off + 4 * w <= o
  {
    if Y < y {
      RowsBelow(Y, y, 4 * w0);
    } else if Y > y {
      RowsBelow(y, Y, 4 * w0);
    }
  }

  lemma RowsBelow(a: nat, b: nat, s: nat)
    requires a < b
    ensures a * s + s <= b * s
  {
    OneMore(a, s);
    assert (a + 1) * s <= b * s;
  }

  lemma BytesOf(w0: nat, h0: nat, pix: seq<Byte>, X: nat, Y: nat, o: nat)
    requires |pix| == h0 * (4 * w0) && X < w0 && Y < h0 && o == Y * (4 * w0) + 4 * X
    ensures o + 4 <= |pix|
    ensures Screen(w0, h0, pix).At(X, Y) == RGBA(pix[o], pix[o + 1], pix[o + 2], pix[o + 3])
  {
    Screen(w0, h0, pix).OffsetInside(X, Y);
  }

  lemma OverwriteRow(w0: nat, h0: nat, pix: seq<Byte>, x: nat, y: nat, w: nat, data: seq<Byte>, X: nat, Y: nat,
                     off: nat)
    requires |pix| == h0 * (4 * w0) && x + w <= w0 && |data| == 4 * w && X < w0 && Y < h0
    requires off == RowStart(4 * w0, x, y)
    ensures Screen(w0, h0, Overwrite(pix, off, data)).At(X, Y)
         == if Y == y && x <= X < x + w then Quad(data, X - x) else Screen(w0, h0, pix).At(X, Y)
  {
    var o := PixelOffset(w0, X, Y);
    RowStartIs(4 * w0, x, y);
    RowOffsets(w0, x, y, w, X, Y);
    BytesOf(w0, h0, pix, X, Y, o);
    BytesOf(w0, h0, Overwrite(pix, off, data), X, Y, o);
    OverwriteQuad(pix, off, data, o, if Y == y && x <= X < x + w then X - x else -1);
  }

  lemma PixelOffset(w0: nat, X: nat, Y: nat) returns (o: nat)
    ensures o == Y * (4 * w0) + 4 * X == RowStart(4 * w0, X, Y)
  {
    RowStartIs(4 * w0, X, Y);
    o := Y * (4 * w0) + 4 * X;
  }

  // The four bytes at o are item k of the written ones, or untouched when k < 0.
  lemma OverwriteQuad(pix: seq<Byte>, off: nat, data: seq<Byte>, o: nat, k: int)
    requires o + 4 <= |pix|
    requires if k < 0 then o + 4 <= off || off + |data| <= o else o == off + 4 * k && 4 * k + 4 <= |data|
    ensures var p := Overwrite(pix, off, data);
      RGBA(p[o], p[o + 1], p[o + 2], p[o + 3])
      == if k < 0 then RGBA(pix[o], pix[o + 1], pix[o + 2], pix[o + 3]) else Quad(data, k)
  {
  }

  // ---- Raw rectangles ----

  // A row of the default format, turned around, is the row of the frame made opaque.
  lemma RowSwizzled(img: Frame, x: nat, y: nat, w: nat, k: nat)
    requires x + w <= img.width && y < img.height && k < w
    ensures |RowBytes(DefaultFormat(), img, x, y, w)| == 4 * w
    ensures Quad(Swizzle(RowBytes(DefaultFormat(), img, x, y, w), w), k) == Opaque(img.At(x + k, y))
  {
    var row := RowBytes(DefaultFormat(), img, x, y, w);
    var p := img.At(x + k, y);
    RowLength(DefaultFormat(), img, x, y, w);
    RowPosition(DefaultFormat(), img, x, y, w, k, 4);
    DefaultPixel(p);
    SwizzledItem(row, w, k, p);
  }

  lemma SwizzledItem(row: seq<Byte>, w: nat, k: nat, p: RGBA)
    requires |row| == 4 * w && k < w && ItemAt(row, k, 4, [p.b, p.g, p.r, 0])
    ensures Quad(Swizzle(row, w), k) == Opaque(p)
  {
    var item := row[k * 4..k * 4 + 4];
    assert item[0] == row[4 * k] && item[1] == row[4 * k + 1] && item[2] == row[4 * k + 2];
    SwizzleAt(row, w, k);
    QuadOfSlice(Swizzle(row, w), k);
  }

  lemma QuadOfSlice(s: seq<Byte>, k: nat)
    requires 4 * k + 4 <= |s|
    ensures var q := s[4 * k..4 * k + 4]; Quad(s, k) == RGBA(q[0], q[1], q[2], q[3])
  {
  }

  lemma RowPaintsAt(w0: nat, h0: nat, img: Frame, x: nat, y: nat, w: nat, pix: seq<Byte>, off: nat, X: nat, Y: nat)
    requires |pix| == h0 * (4 * w0) && img.width == w0 && img.height == h0 && x + w <= w0 && y < h0
    requires off == RowStart(4 * w0, x, y) && X < w0 && Y < h0
    requires |RowBytes(DefaultFormat(), img, x, y, w)| == 4 * w
    ensures Screen(w0, h0, Overwrite(pix, off, Swizzle(RowBytes(DefaultFormat(), img, x, y, w), w))).At(X, Y)
         == if x <= X < x + w && Y == y then Opaque(img.At(X, Y)) else Screen(w0, h0, pix).At(X, Y)
  {
    OverwriteRow(w0, h0, pix, x, y, w, Swizzle(RowBytes(DefaultFormat(), img, x, y, w), w), X, Y, off);
    if x <= X < x + w && Y == y { RowSwizzled(img, x, y, w, X - x); }
  }

  lemma OneRow(row: seq<Byte>, later: seq<Byte>, pix: seq<Byte>, u: nat, off: nat, stride: nat, w: nat, n: nat)
    requires |row| == 4 * w && n > 0
    ensures RawRows(View(row + later, pix, u), off, stride, w, n)
         == RawRows(View(later, Overwrite(pix, off, Swizzle(row, w)), u), off + stride, stride, w, n - 1)
  {
    Prefix(row, later);
  }

  // Decoding n encoded rows reads exactly their bytes.
  lemma {:induction false} RawRowsConsume(img: Frame, x: nat, y: nat, w: nat, n: nat,
                                          pix: seq<Byte>, u: nat, rest: seq<Byte>, off: nat, stride: nat)
    requires x + w <= img.width && y + n <= img.height
    ensures var r := RawRows(View(RectBytes(DefaultFormat(), img, x, y, w, n) + rest, pix, u), off, stride, w, n);
      r.err == None && r.v.inp == rest && r.v.updates == u
    decreases n
  {
    if n == 0 {
      assert RectBytes(DefaultFormat(), img, x, y, w, n) + rest == rest;
    } else {
      FirstRow(img, x, y, w, n, pix, u, rest, off, stride);
      var row := RowBytes(DefaultFormat(), img, x, y, w);
      RawRowsConsume(img, x, y + 1, w, n - 1, Overwrite(pix, off, Swizzle(row, w)), u, rest, off + stride, stride);
    }
  }

  lemma FirstRow(img: Frame, x: nat, y: nat, w: nat, n: nat, pix: seq<Byte>, u: nat, rest: seq<Byte>, off: nat,
                 stride: nat)
    requires n > 0 && x + w <= img.width && y + n <= img.height
    ensures var row := RowBytes(DefaultFormat(), img, x, y, w);
      && |row| == 4 * w
      && RawRows(View(RectBytes(DefaultFormat(), img, x, y, w, n) + rest, pix, u), off, stride, w, n)
         == RawRows(View(RectBytes(DefaultFormat(), img, x, y + 1, w, n - 1) + rest,
                         Overwrite(pix, off, Swizzle(row, w)), u),
                    off + stride, stride, w, n - 1)
  {
    var row := RowBytes(DefaultFormat(), img, x, y, w);
    var later := RectBytes(DefaultFormat(), img, x, y + 1, w, n - 1);
    assert RectBytes(DefaultFormat(), img, x, y, w, n) + rest == row + (later + rest) by { Assoc(row, later, rest); }
    assert |row| == 4 * w by { RowLength(DefaultFormat(), img, x, y, w); }
    OneRow(row, later + rest, pix, u, off, stride, w, n);
  }

  // From pix to pix' the pixel (X, Y) takes the frame's if it lies in the n rows of w pixels from (x, y),
  // and stays otherwise.
  ghost predicate Painted(w0: nat, h0: nat, img: Frame, x: nat, y: nat, w: nat, n: nat,
                          pix: seq<Byte>, pix': seq<Byte>, X: nat, Y: nat)
    requires |pix| == |pix'| == h0 * (4 * w0) && img.width == w0 && img.height == h0 && X < w0 && Y < h0
  {
    Screen(w0, h0, pix').At(X, Y)
    == if x <= X < x + w && y <= Y < y + n then Opaque(img.At(X, Y)) else Screen(w0, h0, pix).At(X, Y)
  }

  lemma PaintedOn(w0: nat, h0: nat, img: Frame, x: nat, y: nat, w: nat, n: nat,
                  pix: seq<Byte>, pix1: seq<Byte>, pix2: seq<Byte>, X: nat, Y: nat)
    requires |pix| == |pix1| == |pix2| == h0 * (4 * w0)
    requires img.width == w0 && img.height == h0 && X < w0 && Y < h0
    requires Painted(w0, h0, img, x, y, w, 1, pix, pix1, X, Y)
    requires Painted(w0, h0, img, x, y + 1, w, n, pix1, pix2, X, Y)
    ensures Painted(w0, h0, img, x, y, w, n + 1, pix, pix2, X, Y)
  {
  }

  // The first row decoded: what it leaves to the others, and what it paints.
  lemma FirstRowPainted(w0: nat, h0: nat, img: Frame, x: nat, y: nat, w: nat, n: nat,
                        pix: seq<Byte>, u: nat, rest: seq<Byte>, off: nat, X: nat, Y: nat) returns (pix': seq<Byte>)
    requires |pix| == h0 * (4 * w0) && img.width == w0 && img.height == h0 && X < w0 && Y < h0
    requires n > 0 && x + w <= w0 && y + n <= h0 && off == RowStart(4 * w0, x, y)
    ensures |pix'| == |pix| && Painted(w0, h0, img, x, y, w, 1, pix, pix', X, Y)
    ensures RawRows(View(RectBytes(DefaultFormat(), img, x, y, w, n) + rest, pix, u), off, 4 * w0, w, n)
         == RawRows(View(RectBytes(DefaultFormat(), img, x, y + 1, w, n - 1) + rest, pix', u),
                    off + 4 * w0, 4 * w0, w, n - 1)
  {
    FirstRow(img, x, y, w, n, pix, u, rest, off, 4 * w0);
    RowPaintsAt(w0, h0, img, x, y, w, pix, off, X, Y);
    pix' := Overwrite(pix, off, Swizzle(RowBytes(DefaultFormat(), img, x, y, w), w));
  }

  lemma NoRowPainted(w0: nat, h0: nat, img: Frame, x: nat, y: nat, w: nat, v: View, off: nat, X: nat, Y: nat)
    requires |v.pix| == h0 * (4 * w0) && img.width == w0 && img.height == h0 && X < w0 && Y < h0
    ensures Painted(w0, h0, img, x, y, w, 0, v.pix, RawRows(v, off, 4 * w0, w, 0).v.pix, X, Y)
  {
  }

  // ... and shows the frame's pixels there and changes no other pixel.
  lemma {:induction false} RawRowsPaint(w0: nat, h0: nat, img: Frame, x: nat, y: nat, w: nat, n: nat,
                                        pix: seq<Byte>, u: nat, rest: seq<Byte>, off: nat, X: nat, Y: nat)
    requires |pix| == h0 * (4 * w0) && img.width == w0 && img.height == h0 && X < w0 && Y < h0
    requires x + w <= w0 && y + n <= h0 && off == RowStart(4 * w0, x, y)
    ensures var r := RawRows(View(RectBytes(DefaultFormat(), img, x, y, w, n) + rest, pix, u), off, 4 * w0, w, n);
      Painted(w0, h0, img, x, y, w, n, pix, r.v.pix, X, Y)
    decreases n
  {
    hide Painted, RawRows, RectBytes;
    var v := View(RectBytes(DefaultFormat(), img, x, y, w, n) + rest, pix, u);
    if n == 0 {
      NoRowPainted(w0, h0, img, x, y, w, v, off, X, Y);
    } else {
      var pix' := FirstRowPainted(w0, h0, img, x, y, w, n, pix, u, rest, off, X, Y);
      RawRowsPaint(w0, h0, img, x, y + 1, w, n - 1, pix', u, rest, off + 4 * w0, X, Y);
      PaintedOn(w0, h0, img, x, y, w, n - 1, pix, pix', RawRows(v, off, 4 * w0, w, n).v.pix, X, Y);
    }
  }

  // ---- Whole updates ----

  lemma OneRectangle(w0: Word16, h0: Word16, img: Frame, r: Rect, pix: seq<Byte>, u: nat, rest: seq<Byte>)
      returns (pix': seq<Byte>)
    requires |pix| == h0 * (4 * w0) && img.width == w0 && img.height == h0 && r.Within(w0, h0)
    ensures |pix'| == |pix|
    ensures Rectangle(w0, View(EncodeRect(DefaultFormat(), img, r) + rest, pix, u))
         == Outcome(View(rest, pix', u), None)
    ensures forall X, Y :: 0 <= X < w0 && 0 <= Y < h0 ==>
      Screen(w0, h0, pix').At(X, Y)
      == if r.Contains(X, Y) then Opaque(img.At(X, Y)) else Screen(w0, h0, pix).At(X, Y)
  {
    var data := RectBytes(DefaultFormat(), img, r.x0, r.y0, r.Dx(), r.Dy());
    Assoc(RectHeader(r), data, rest);
    var off := PixelOffset(w0, r.x0, r.y0);
    ReadsHeader(w0, h0, r, View(data + rest, pix, u), off);
    RawRowsConsume(img, r.x0, r.y0, r.Dx(), r.Dy(), pix, u, rest, off, 4 * w0);
    pix' := RawRows(View(data + rest, pix, u), off, 4 * w0, r.Dx(), r.Dy()).v.pix;
    forall X: nat, Y: nat | X < w0 && Y < h0
      ensures Screen(w0, h0, pix').At(X, Y)
           == if r.Contains(X, Y) then Opaque(img.At(X, Y)) else Screen(w0, h0, pix).At(X, Y)
    {
      RawRowsPaint(w0, h0, img, r.x0, r.y0, r.Dx(), r.Dy(), pix, u, rest, off, X, Y);
    }
  }

  // A raw rectangle header is read back field by field.
  lemma ReadsHeader(w0: Word16, h0: Word16, r: Rect, v: View, off: nat)
    requires r.Within(w0, h0) && off == RowStart(4 * w0, r.x0, r.y0)
    ensures Rectangle(w0, v.(inp := RectHeader(r) + v.inp)) == RawRows(v, off, 4 * w0, r.Dx(), r.Dy())
  {
    Prefix(RectHeader(r), v.inp);
    HeaderValues(r, w0, h0);
    assert Signed32(0) == 0;
  }

  lemma {:induction false} AllRectangles(w0: Word16, h0: Word16, img: Frame, rects: seq<Rect>, pix: seq<Byte>, u: nat,
                                         rest: seq<Byte>)
      returns (pix': seq<Byte>)
    requires |pix| == h0 * (4 * w0) && img.width == w0 && img.height == h0 && AllWithin(rects, w0, h0)
    ensures |pix'| == |pix|
    ensures Rectangles(w0, View(RectsBytes(DefaultFormat(), img, rects) + rest, pix, u), |rects|)
         == Outcome(View(rest, pix', u), None)
    ensures forall X, Y :: 0 <= X < w0 && 0 <= Y < h0 ==>
      Screen(w0, h0, pix').At(X, Y)
      == if Covered(rects, X, Y) then Opaque(img.At(X, Y)) else Screen(w0, h0, pix).At(X, Y)
  {
    if rects == [] {
      assert RectsBytes(DefaultFormat(), img, rects) + rest == rest;
      pix' := pix;
    } else {
      var r, tail := rects[0], rects[1..];
      assert r.Within(w0, h0);
      var head, later := EncodeRect(DefaultFormat(), img, r), RectsBytes(DefaultFormat(), img, tail);
      Assoc(head, later, rest);
      var pix1 := OneRectangle(w0, h0, img, r, pix, u, later + rest);
      pix' := AllRectangles(w0, h0, img, tail, pix1, u, rest);
      forall X, Y ensures Covered(rects, X, Y) <==> r.Contains(X, Y) || Covered(tail, X, Y) {
        CoveredHead(rects, X, Y);
      }
    }
  }

  // The framebuffer shows exactly the frame, opaque.
  ghost predicate Mirrors(w0: nat, h0: nat, pix: seq<Byte>, shot: Frame)
    requires |pix| == h0 * (4 * w0) && shot.width == w0 && shot.height == h0
  {
    forall X, Y :: 0 <= X < w0 && 0 <= Y < h0 ==> Screen(w0, h0, pix).At(X, Y) == Opaque(shot.At(X, Y))
  }

  ghost predicate MirrorsLast(w0: nat, h0: nat, pix: seq<Byte>, last: Option<Frame>)
    requires |pix| == h0 * (4 * w0)
  {
    last.Some? ==> last.value.width == w0 && last.value.height == h0 && Mirrors(w0, h0, pix, last.value)
  }

  // One answered request: the client consumes exactly the update and then shows the new frame.
  lemma OneMessage(w0: Word16, h0: Word16, prev: Option<Frame>, inc: bool, shot: Frame, pix: seq<Byte>, u: nat,
                   rest: seq<Byte>)
      returns (pix': seq<Byte>)
    requires |pix| == h0 * (4 * w0) && shot.width == w0 && shot.height == h0 && MaxRects(w0, h0) <= 0xFFFF
    requires MirrorsLast(w0, h0, pix, prev)
    ensures |pix'| == |pix| && Mirrors(w0, h0, pix', shot)
    ensures var b := S.UpdateFor(DefaultFormat(), prev, shot, inc) + rest;
      |b| > 0 && b[0] == 0 && Message(w0, 0, View(b[1..], pix, u)) == Outcome(View(rest, pix', u + 1), None)
  {
    var rects := S.ChosenRects(prev, shot, inc);
    S.ChosenWithin(prev, shot, inc);
    V.ChosenCount(prev, shot, inc);
    var body := RectsBytes(DefaultFormat(), shot, rects);
    Assoc([0, 0] + U16(|rects|), body, rest);
    V.UpdateHeader(|rects|, body + rest);
    var b := S.UpdateFor(DefaultFormat(), prev, shot, inc) + rest;
    assert b[1..][1..3] == b[2..4] && b[1..][3..] == b[4..];
    pix' := AllRectangles(w0, h0, shot, rects, pix, u, rest);
    forall X, Y | 0 <= X < w0 && 0 <= Y < h0 ensures Screen(w0, h0, pix').At(X, Y) == Opaque(shot.At(X, Y)) {
      V.ChosenCover(prev, shot, inc, X, Y);
      if !Covered(rects, X, Y) { V.Untouched(prev.value, shot, X, Y); }
    }
  }

  ghost predicate RequestsOnly(w0: nat, h0: nat, events: seq<V.Event>) {
    forall k :: 0 <= k < |events| ==>
      events[k].Request? && events[k].shot.width == w0 && events[k].shot.height == h0
  }

  // Over every run of full or incremental requests the client decodes the host's whole output
  // without error, up to its last byte, with one completed update for each request, and its
  // framebuffer ends as the last capture.
  lemma {:induction false} ClientReplication(w0: Word16, h0: Word16, prev: Option<Frame>, events: seq<V.Event>,
                                             pix: seq<Byte>, u: nat)
    requires |pix| == h0 * (4 * w0) && RequestsOnly(w0, h0, events) && MaxRects(w0, h0) <= 0xFFFF
    requires MirrorsLast(w0, h0, pix, prev)
    ensures var o := Decode(w0, View(V.HostBytes(DefaultFormat(), prev, events), pix, u));
      && o.err == None && o.v.inp == [] && o.v.updates == u + |events| && |o.v.pix| == |pix|
      && MirrorsLast(w0, h0, o.v.pix, V.LastShot(prev, events))
    decreases |events|
  {
    if events != [] {
      var inc, shot := events[0].incremental, events[0].shot;
      var later := V.HostBytes(DefaultFormat(), Some(shot), events[1..]);
      var pix' := OneMessage(w0, h0, prev, inc, shot, pix, u, later);
      RequestsTail(w0, h0, events);
      ClientReplication(w0, h0, Some(shot), events[1..], pix', u + 1);
    }
  }

  lemma RequestsTail(w0: nat, h0: nat, events: seq<V.Event>)
    requires RequestsOnly(w0, h0, events) && events != []
    ensures RequestsOnly(w0, h0, events[1..])
  {
    assert forall k :: 0 <= k < |events[1..]| ==> events[1..][k] == events[k + 1];
  }

  // ---- Incremental updates refine sending everything ----

  lemma SameScreen(w0: nat, h0: nat, a: seq<Byte>, b: seq<Byte>)
    requires |a| == |b| == h0 * (4 * w0)
    requires forall X, Y :: 0 <= X < w0 && 0 <= Y < h0 ==> Screen(w0, h0, a).At(X, Y) == Screen(w0, h0, b).At(X, Y)
    ensures a == b
  {
    forall k | 0 <= k < |a| ensures a[k] == b[k] {
      var X, Y, c := ByteOwner(w0, h0, k);
      assert Screen(w0, h0, a).At(X, Y) == Screen(w0, h0, b).At(X, Y);
      Screen(w0, h0, a).OffsetInside(X, Y);
    }
  }

  // The pixel and channel that byte k of a framebuffer belongs to.
  lemma ByteOwner(w0: nat, h0: nat, k: nat) returns (X: nat, Y: nat, c: nat)
    requires k < h0 * (4 * w0)
    ensures X < w0 && Y < h0 && c < 4 && k == Y * (4 * w0) + 4 * X + c
  {
    Positive(h0, 4 * w0);
    var q, b := Divide(k, 4 * w0, h0);
    Y, X, c := q, b / 4, b % 4;
  }

  lemma Positive(a: nat, b: nat)
    requires 0 < a * b
    ensures 0 < a && 0 < b
  {
  }

  lemma Divide(k: nat, s: nat, h: nat) returns (q: nat, r: nat)
    requires 0 < s && k < h * s
    ensures q < h && r < s && k == q * s + r
  {
    if k < s {
      q, r := 0, k;
      Positive(h, s);
    } else {
      assert (h - 1) * s == h * s - s;
      q, r := Divide(k - s, s, h - 1);
      OneMore(q, s);
      q := q + 1;
    }
  }

  lemma {:induction false} SameLastShot(prev: Option<Frame>, prev': Option<Frame>, events: seq<V.Event>,
                                        events': seq<V.Event>)
    requires |events| == |events'| && (events == [] ==> prev == prev')
    requires forall k :: 0 <= k < |events| ==>
      events[k].Request? && events'[k].Request? && events[k].shot == events'[k].shot
    ensures V.LastShot(prev, events) == V.LastShot(prev', events')
    ensures events != [] ==> V.LastShot(prev, events).Some?
    decreases |events|
  {
    if events != [] {
      assert events[0].shot == events'[0].shot;
      SameLastShot(Some(events[0].shot), Some(events'[0].shot), events[1..], events'[1..]);
      if |events| == 1 { assert V.LastShot(prev, events) == Some(events[0].shot); }
    }
  }

  // Two runs over the same captures leave identical framebuffers, whichever requests were
  // incremental: in particular any run equals the run that always sends the whole screen.
  lemma IncrementalRefinesFull(w0: Word16, h0: Word16, events: seq<V.Event>, events': seq<V.Event>, pix: seq<Byte>,
                               pix': seq<Byte>)
    requires |pix| == |pix'| == h0 * (4 * w0) && MaxRects(w0, h0) <= 0xFFFF
    requires RequestsOnly(w0, h0, events) && RequestsOnly(w0, h0, events') && |events| == |events'| > 0
    requires forall k :: 0 <= k < |events| ==> events[k].shot == events'[k].shot
    ensures Decode(w0, View(V.HostBytes(DefaultFormat(), None, events), pix, 0)).v
         == Decode(w0, View(V.HostBytes(DefaultFormat(), None, events'), pix', 0)).v
  {
    ClientReplication(w0, h0, None, events, pix, 0);
    ClientReplication(w0, h0, None, events', pix', 0);
    SameLastShot(None, None, events, events');
    SameScreen(w0, h0, Decode(w0, View(V.HostBytes(DefaultFormat(), None, events), pix, 0)).v.pix,
                       Decode(w0, View(V.HostBytes(DefaultFormat(), None, events'), pix', 0)).v.pix);
  }

  // ---- CopyRect ----

  lemma SliceQuad(w0: nat, h0: nat, pix: seq<Byte>, sx: nat, sy: nat, w: nat, k: nat, off: nat)
    requires |pix| == h0 * (4 * w0) && sx + w <= w0 && sy < h0 && k < w && off == RowStart(4 * w0, sx, sy)
    requires off + 4 * w <= |pix|
    ensures Quad(pix[off..off + 4 * w], k) == Screen(w0, h0, pix).At(sx + k, sy)
  {
    RowStartIs(4 * w0, sx, sy);
    BytesOf(w0, h0, pix, sx + k, sy, off + 4 * k);
  }

  // The first of the rows moved by PutRows.
  lemma PutOneRow(w0: nat, h0: nat, src: seq<Byte>, sx: nat, sy: nat, pix: seq<Byte>, x: nat, y: nat, w: nat,
                  X: nat, Y: nat, from: nat, to: nat)
    requires |src| == |pix| == h0 * (4 * w0) && X < w0 && Y < h0
    requires sx + w <= w0 && sy < h0 && x + w <= w0 && y < h0
    requires from == RowStart(4 * w0, sx, sy) && to == RowStart(4 * w0, x, y) && from + 4 * w <= |src|
    ensures Screen(w0, h0, Overwrite(pix, to, src[from..from + 4 * w])).At(X, Y)
         == if x <= X < x + w && Y == y then Screen(w0, h0, src).At(X - x + sx, sy) else Screen(w0, h0, pix).At(X, Y)
  {
    OverwriteRow(w0, h0, pix, x, y, w, src[from..from + 4 * w], X, Y, to);
    if x <= X < x + w && Y == y { SliceQuad(w0, h0, src, sx, sy, w, X - x, from); }
  }

  lemma {:induction false} PutGather(w0: nat, h0: nat, src: seq<Byte>, sx: nat, sy: nat, pix: seq<Byte>, x: nat, y: nat,
                                     w: nat, n: nat, X: nat, Y: nat, from: nat, to: nat)
    requires |src| == |pix| == h0 * (4 * w0) && X < w0 && Y < h0
    requires sx + w <= w0 && sy + n <= h0 && x + w <= w0 && y + n <= h0
    requires from == RowStart(4 * w0, sx, sy) && to == RowStart(4 * w0, x, y)
    requires RowsFit(|src|, from, 4 * w0, 4 * w, n)
    ensures Screen(w0, h0, PutRows(pix, to, 4 * w0, 4 * w, Gather(src, from, 4 * w0, 4 * w, n), n)).At(X, Y)
         == if x <= X < x + w && y <= Y < y + n then Screen(w0, h0, src).At(X - x + sx, Y - y + sy)
            else Screen(w0, h0, pix).At(X, Y)
    decreases n
  {
    if n > 0 {
      B.MoveFirst(src, from, pix, to, 4 * w0, 4 * w, n);
      PutOneRow(w0, h0, src, sx, sy, pix, x, y, w, X, Y, from, to);
      var pix' := Overwrite(pix, to, src[from..from + 4 * w]);
      PutGather(w0, h0, src, sx, sy + 1, pix', x, y + 1, w, n - 1, X, Y, from + 4 * w0, to + 4 * w0);
    }
  }

  // From pix to pix' the destination took the source's old pixels and nothing else changed.
  ghost predicate Copied(w0: nat, h0: nat, pix: seq<Byte>, pix': seq<Byte>, sx: nat, sy: nat, x: nat, y: nat, w: nat,
                         h: nat)
    requires sx + w <= w0 && sy + h <= h0
  {
    && |pix| == |pix'| == h0 * (4 * w0)
    && forall X, Y :: 0 <= X < w0 && 0 <= Y < h0 ==>
         Screen(w0, h0, pix').At(X, Y)
         == if x <= X < x + w && y <= Y < y + h then Screen(w0, h0, pix).At(X - x + sx, Y - y + sy)
            else Screen(w0, h0, pix).At(X, Y)
  }

  lemma TwoWords(inp: seq<Byte>, a: seq<Byte>, b: seq<Byte>, rest: seq<Byte>)
    requires |a| == |b| == 2 && inp == a + b + rest
    ensures |inp| >= 4 && inp[..2] == a && inp[2..4] == b && inp[4..] == rest
  {
  }

  lemma WordRead(x: Word16)
    ensures ReadU16(U16(x)) == x
  {
  }

  lemma CopyRuns(w0: nat, v: View, a: seq<Byte>, b: seq<Byte>, rest: seq<Byte>, x: nat, y: nat, w: nat, h: nat,
                 pix: seq<Byte>)
    requires |a| == |b| == 2 && v.inp == a + b + rest
    requires Moved(v.pix, RowStart(4 * w0, ReadU16(a), ReadU16(b)), RowStart(4 * w0, x, y), 4 * w0, 4 * w, h)
         == Some(pix)
    ensures CopyRect(w0, v, x, y, w, h) == Outcome(v.(inp := rest, pix := pix), None)
  {
    TwoWords(v.inp, a, b, rest);
  }

  lemma BlockMoves(w0: nat, h0: nat, pix: seq<Byte>, sx: nat, sy: nat, x: nat, y: nat, w: nat, h: nat)
      returns (pix': seq<Byte>)
    requires |pix| == h0 * (4 * w0)
    requires sx + w <= w0 && sy + h <= h0 && x + w <= w0 && y + h <= h0
    ensures Moved(pix, RowStart(4 * w0, sx, sy), RowStart(4 * w0, x, y), 4 * w0, 4 * w, h) == Some(pix')
    ensures Copied(w0, h0, pix, pix', sx, sy, x, y, w, h)
  {
    var from, to := RowStart(4 * w0, sx, sy), RowStart(4 * w0, x, y);
    B.InsideFits(w0, h0, sx, sy, w, h);
    B.InsideFits(w0, h0, x, y, w, h);
    pix' := PutRows(pix, to, 4 * w0, 4 * w, Gather(pix, from, 4 * w0, 4 * w, h), h);
    forall X, Y | 0 <= X < w0 && 0 <= Y < h0
      ensures Screen(w0, h0, pix').At(X, Y)
           == if x <= X < x + w && y <= Y < y + h then Screen(w0, h0, pix).At(X - x + sx, Y - y + sy)
              else Screen(w0, h0, pix).At(X, Y)
    {
      PutGather(w0, h0, pix, sx, sy, pix, x, y, w, h, X, Y, from, to);
    }
  }

  // CopyRect is a simultaneous assignment: for source and destination inside the framebuffer,
  // overlapping or not, every destination pixel becomes the old source pixel and the others stay.
  lemma CopyIsSimultaneous(w0: nat, h0: nat, v: View, sx: Word16, sy: Word16, rest: seq<Byte>, x: nat, y: nat, w: nat,
                           h: nat)
    requires |v.pix| == h0 * (4 * w0) && v.inp == U16(sx) + U16(sy) + rest
    requires sx + w <= w0 && sy + h <= h0 && x + w <= w0 && y + h <= h0
    ensures var o := CopyRect(w0, v, x, y, w, h);
      && o.err == None && o.v.inp == rest && o.v.updates == v.updates
      && Copied(w0, h0, v.pix, o.v.pix, sx, sy, x, y, w, h)
  {
    var pix := BlockMoves(w0, h0, v.pix, sx, sy, x, y, w, h);
    WordRead(sx);
    WordRead(sy);
    CopyRuns(w0, v, U16(sx), U16(sy), rest, x, y, w, h, pix);
  }
}
