// When a server's stream makes the viewer index past its framebuffer.
module Blocks {
  import opened Bytes
  import opened Client

  // ---- One block ----

  // Rows fit exactly when the last one ends inside.
  lemma {:induction false} RowsFitWhen(size: nat, off: nat, stride: nat, len: nat, n: nat)
    ensures RowsFit(size, off, stride, len, n) <==> n == 0 || off + (n - 1) * stride + len <= size
    decreases n
  {
    if n > 1 {
      RowsFitWhen(size, off + stride, stride, len, n - 1);
      OneMore(n - 2, stride);
    }
  }

  // The last pixel of the block, counted row by row across the screen's right edge, lies before its
  // end. A block may stick out to the right as long as it does not reach the last row.
  predicate Fits(w0: nat, h0: nat, x: nat, y: nat, w: nat, h: nat) {
    h > 0 ==> (y + h - 1) * w0 + x + w <= h0 * w0
  }

  lemma BlockFitsWhen(w0: nat, h0: nat, x: nat, y: nat, w: nat, h: nat)
    ensures RowsFit(h0 * (4 * w0), RowStart(4 * w0, x, y), 4 * w0, 4 * w, h) <==> Fits(w0, h0, x, y, w, h)
  {
    RowsFitWhen(h0 * (4 * w0), RowStart(4 * w0, x, y), 4 * w0, 4 * w, h);
    RowStartIs(4 * w0, x, y);
    if h > 0 {
      Together(y, h - 1, 4 * w0);
      FourTimes(y + h - 1, w0);
      FourTimes(h0, w0);
    }
  }

  lemma Together(a: nat, b: nat, s: nat)
    ensures a * s + b * s == (a + b) * s
  {
  }

  lemma FourTimes(a: nat, b: nat)
    ensures a * (4 * b) == 4 * (a * b)
  {
  }

  lemma InsideFits(w0: nat, h0: nat, x: nat, y: nat, w: nat, h: nat)
    requires x + w <= w0 && y + h <= h0
    ensures RowsFit(h0 * (4 * w0), RowStart(4 * w0, x, y), 4 * w0, 4 * w, h)
  {
    BlockFitsWhen(w0, h0, x, y, w, h);
    if h > 0 {
      OneMore(y + h - 1, w0);
      Below(y + h, h0, w0);
    }
  }

  lemma Below(a: nat, b: nat, s: nat)
    requires a <= b
    ensures a * s <= b * s
  {
  }

  // ---- A stream, read without a framebuffer ----

  datatype Block = Block(x: nat, y: nat, w: nat, h: nat)

  // The blocks a stream asks to copy from and to, the updates it completes, what ends it, and what
  // stays unread.
  datatype Scan = Scan(blocks: seq<Block>, updates: nat, err: Option<Error>, rest: seq<Byte>)

  predicate AllFit(w0: nat, h0: nat, blocks: seq<Block>) {
    forall k :: 0 <= k < |blocks| ==> Fits(w0, h0, blocks[k].x, blocks[k].y, blocks[k].w, blocks[k].h)
  }

  function ScanRows(inp: seq<Byte>, w: nat, n: nat): (s: Scan)
    ensures |s.rest| <= |inp| && s.err != Some(Abort) && s.blocks == [] && s.updates == 0
    decreases n
  {
    if n == 0 then Scan([], 0, None, inp)
    else if |inp| < 4 * w then Scan([], 0, Some(ShortRead(inp)), [])
    else ScanRows(inp[4 * w..], w, n - 1)
  }

  function ScanCopy(inp: seq<Byte>, x: nat, y: nat, w: nat, h: nat): (s: Scan)
    ensures |s.rest| <= |inp| && s.err != Some(Abort) && s.updates == 0
  {
    if |inp| < 4 then Scan([], 0, Some(ShortRead(inp)), [])
    else Scan([Block(ReadU16(inp[..2]), ReadU16(inp[2..4]), w, h), Block(x, y, w, h)], 0, None, inp[4..])
  }

  function ScanRectangle(inp: seq<Byte>): (s: Scan)
    ensures |s.rest| <= |inp| && s.err != Some(Abort) && s.updates == 0
  {
    if |inp| < 12 then Scan([], 0, Some(ShortRead(inp)), [])
    else
      var hdr, rest := inp[..12], inp[12..];
      var x, y, w, h := ReadU16(hdr[..2]), ReadU16(hdr[2..4]), ReadU16(hdr[4..6]), ReadU16(hdr[6..8]);
      var enc := Signed32(ReadU32(hdr[8..12]));
      if enc == 0 then ScanRows(rest, w, h)
      else if enc == 1 then ScanCopy(rest, x, y, w, h)
      else Scan([], 0, Some(UnsupportedEncoding(enc)), rest)
  }

  // One part of a stream, then what follows it unless the part ends the stream.
  function Then(first: Scan, later: Scan): (s: Scan)
    ensures first.err != Some(Abort) && later.err != Some(Abort) ==> s.err != Some(Abort)
    ensures |s.rest| <= |first.rest| || |s.rest| <= |later.rest|
  {
    if first.err.Some? then first
    else later.(blocks := first.blocks + later.blocks, updates := first.updates + later.updates)
  }

  function ScanRectangles(inp: seq<Byte>, n: nat): (s: Scan)
    ensures |s.rest| <= |inp| && s.err != Some(Abort) && s.updates == 0
    decreases n
  {
    if n == 0 then Scan([], 0, None, inp)
    else var first := ScanRectangle(inp); Then(first, ScanRectangles(first.rest, n - 1))
  }

  function ScanSkip(inp: seq<Byte>, n: nat): (s: Scan)
    ensures |s.rest| <= |inp| && s.err != Some(Abort)
  {
    if |inp| < n then Scan([], 0, Some(EOF), []) else Scan([], 0, None, inp[n..])
  }

  // One message whose type byte has been read.
  function ScanMessage(typ: Byte, inp: seq<Byte>): (s: Scan)
    ensures |s.rest| <= |inp| && s.err != Some(Abort)
  {
    if typ == 0 then
      if |inp| < 3 then Scan([], 0, Some(ShortRead(inp)), [])
      else
        var s := ScanRectangles(inp[3..], ReadU16(inp[1..3]));
        if s.err.Some? then s else s.(updates := 1)
    else if typ == 1 then
      if |inp| < 5 then Scan([], 0, Some(ShortRead(inp)), []) else ScanSkip(inp[5..], ReadU16(inp[3..5]) * 6)
    else if typ == 2 then Scan([], 0, None, inp)
    else if typ == 3 then
      if |inp| < 7 then Scan([], 0, Some(ShortRead(inp)), []) else ScanSkip(inp[7..], ReadU32(inp[3..7]))
    else Scan([], 0, Some(UnknownType(typ)), inp)
  }

  function ScanAll(inp: seq<Byte>): (s: Scan)
    ensures s.err != Some(Abort)
    decreases |inp|
  {
    if inp == [] then Scan([], 0, None, [])
    else var first := ScanMessage(inp[0], inp[1..]); Then(first, ScanAll(first.rest))
  }

  // ---- The decoder against the scan ----

  // The decoder aborts if some block does not fit, and otherwise ends as the scan does.
  predicate EndsAs(w0: nat, h0: nat, before: nat, s: Scan, r: Outcome) {
    if AllFit(w0, h0, s.blocks) then r.err == s.err && r.v.inp == s.rest && r.v.updates == before + s.updates
    else r.err == Some(Abort)
  }

  lemma {:induction false} RowsEndAs(w0: nat, h0: nat, v: View, off: nat, stride: nat, w: nat, n: nat)
    ensures EndsAs(w0, h0, v.updates, ScanRows(v.inp, w, n), RawRows(v, off, stride, w, n))
    decreases n
  {
    if n > 0 && |v.inp| >= 4 * w {
      FirstRawRow(v, off, stride, w, n);
      var pix := Overwrite(v.pix, off, Swizzle(v.inp[..4 * w], w));
      RowsEndAs(w0, h0, v.(inp := v.inp[4 * w..], pix := pix), off + stride, stride, w, n - 1);
    }
  }

  lemma CopyEndsAs(w0: nat, h0: nat, v: View, x: nat, y: nat, w: nat, h: nat)
    requires |v.pix| == h0 * (4 * w0)
    ensures EndsAs(w0, h0, v.updates, ScanCopy(v.inp, x, y, w, h), CopyRect(w0, v, x, y, w, h))
  {
    if |v.inp| >= 4 {
      var sx, sy := ReadU16(v.inp[..2]), ReadU16(v.inp[2..4]);
      BlockFitsWhen(w0, h0, sx, sy, w, h);
      BlockFitsWhen(w0, h0, x, y, w, h);
      TwoFit(w0, h0, Block(sx, sy, w, h), Block(x, y, w, h));
    }
  }

  lemma TwoFit(w0: nat, h0: nat, a: Block, b: Block)
    ensures AllFit(w0, h0, [a, b]) <==> Fits(w0, h0, a.x, a.y, a.w, a.h) && Fits(w0, h0, b.x, b.y, b.w, b.h)
  {
    assert [a, b][0] == a && [a, b][1] == b;
  }

  lemma RectangleEndsAs(w0: nat, h0: nat, v: View)
    requires |v.pix| == h0 * (4 * w0)
    ensures EndsAs(w0, h0, v.updates, ScanRectangle(v.inp), Rectangle(w0, v))
  {
    hide RawRows, CopyRect, ScanRows, ScanCopy;
    if |v.inp| >= 12 {
      var hdr, rest := v.inp[..12], v.(inp := v.inp[12..]);
      var x, y, w, h := ReadU16(hdr[..2]), ReadU16(hdr[2..4]), ReadU16(hdr[4..6]), ReadU16(hdr[6..8]);
      RowsEndAs(w0, h0, rest, RowStart(4 * w0, x, y), 4 * w0, w, h);
      CopyEndsAs(w0, h0, rest, x, y, w, h);
    }
  }

  lemma AllFitThen(w0: nat, h0: nat, first: Scan, later: Scan)
    ensures AllFit(w0, h0, Then(first, later).blocks)
       <==> AllFit(w0, h0, first.blocks) && (first.err.Some? || AllFit(w0, h0, later.blocks))
  {
    hide Fits;
    var a, b := first.blocks, later.blocks;
    if first.err.None? && AllFit(w0, h0, a + b) {
      forall k | 0 <= k < |a| ensures Fits(w0, h0, a[k].x, a[k].y, a[k].w, a[k].h) { assert a[k] == (a + b)[k]; }
      forall k | 0 <= k < |b| ensures Fits(w0, h0, b[k].x, b[k].y, b[k].w, b[k].h) {
        assert b[k] == (a + b)[|a| + k];
      }
    }
  }

  lemma {:induction false} RectanglesEndAs(w0: nat, h0: nat, v: View, n: nat)
    requires |v.pix| == h0 * (4 * w0)
    ensures EndsAs(w0, h0, v.updates, ScanRectangles(v.inp, n), Rectangles(w0, v, n))
    decreases n
  {
    hide Rectangle, ScanRectangle, AllFit;
    if n == 0 {
      NoBlocks(w0, h0);
    } else {
      var r, s := Rectangle(w0, v), ScanRectangle(v.inp);
      FirstRectangle(w0, v, n);
      RectangleEndsAs(w0, h0, v);
      AllFitThen(w0, h0, s, ScanRectangles(s.rest, n - 1));
      if r.err.None? { RectanglesEndAs(w0, h0, r.v, n - 1); }
    }
  }

  lemma NoBlocks(w0: nat, h0: nat)
    ensures AllFit(w0, h0, [])
  {
  }

  lemma MessageEndsAs(w0: nat, h0: nat, typ: Byte, v: View)
    requires |v.pix| == h0 * (4 * w0)
    ensures EndsAs(w0, h0, v.updates, ScanMessage(typ, v.inp), Message(w0, typ, v))
  {
    hide Rectangles, ScanRectangles, AllFit;
    NoBlocks(w0, h0);
    if typ == 0 && |v.inp| >= 3 { RectanglesEndAs(w0, h0, v.(inp := v.inp[3..]), ReadU16(v.inp[1..3])); }
  }

  // On any byte stream the decoder aborts if and only if the stream asks to copy from or to a block
  // that does not fit the screen; otherwise it ends where and as the stream does, having counted the
  // updates completed before.
  lemma {:induction false} AbortsWhen(w0: nat, h0: nat, v: View)
    requires |v.pix| == h0 * (4 * w0)
    ensures var (r, s) := (Decode(w0, v), ScanAll(v.inp));
      && (r.err == Some(Abort) <==> !AllFit(w0, h0, s.blocks))
      && (r.err != Some(Abort) ==> r.err == s.err && r.v.inp == s.rest && r.v.updates == v.updates + s.updates)
    decreases |v.inp|
  {
    hide Message, ScanMessage, AllFit;
    NoBlocks(w0, h0);
    if v.inp != [] {
      var next := v.(inp := v.inp[1..]);
      var r, s := Message(w0, v.inp[0], next), ScanMessage(v.inp[0], next.inp);
      MessageEndsAs(w0, h0, v.inp[0], next);
      AllFitThen(w0, h0, s, ScanAll(s.rest));
      if r.err.None? { AbortsWhen(w0, h0, r.v); }
    }
  }

  // ---- Raw rectangles wherever they lie ----

  // Byte k of the framebuffer is one of the w pixels of the row that begins at (x, y), counted on
  // across the right edge.
  predicate InRow(w0: nat, x: nat, y: nat, w: nat, k: nat) {
    RowStart(4 * w0, x, y) <= k < RowStart(4 * w0, x, y) + 4 * w
  }

  lemma FirstRawPainted(w0: nat, v: View, x: nat, y: nat, w: nat, h: nat) returns (later: View)
    requires h > 0 && |v.inp| >= RowsSize(4 * w, h)
    ensures 4 * w <= |v.inp| && |later.inp| >= RowsSize(4 * w, h - 1) && later.inp == v.inp[4 * w..]
    ensures later.pix == Overwrite(v.pix, RowStart(4 * w0, x, y), Swizzle(v.inp[..4 * w], w))
    ensures RawRows(v, RowStart(4 * w0, x, y), 4 * w0, w, h)
         == RawRows(later, RowStart(4 * w0, x, y + 1), 4 * w0, w, h - 1)
  {
    var pix := Overwrite(v.pix, RowStart(4 * w0, x, y), Swizzle(v.inp[..4 * w], w));
    later := v.(inp := v.inp[4 * w..], pix := pix);
  }

  lemma {:induction false} RawMisses(w0: nat, v: View, x: nat, y: nat, w: nat, h: nat, k: nat)
    requires |v.inp| >= RowsSize(4 * w, h) && k < |v.pix|
    requires forall Y: nat :: y <= Y < y + h ==> !InRow(w0, x, Y, w, k)
    ensures var r := RawRows(v, RowStart(4 * w0, x, y), 4 * w0, w, h); r.err == None && r.v.pix[k] == v.pix[k]
    decreases h
  {
    if h > 0 {
      var later := FirstRawPainted(w0, v, x, y, w, h);
      RawMisses(w0, later, x, y + 1, w, h - 1, k);
      hide RawRows;
      assert !InRow(w0, x, y, w, k);
    }
  }

  // Byte k is that of the row that begins n bytes into the input and is painted from byte off on.
  predicate TakenFrom(r: Outcome, inp: seq<Byte>, n: nat, w: nat, k: nat, off: nat) {
    && n + 4 * w <= |inp| && off <= k < off + 4 * w && k < |r.v.pix|
    && r.err == None && r.v.pix[k] == Swizzle(inp[n..n + 4 * w], w)[k - off]
  }

  lemma TakenBehind(r: Outcome, inp: seq<Byte>, n: nat, w: nat, k: nat, off: nat)
    requires 4 * w <= |inp| && TakenFrom(r, inp[4 * w..], n, w, k, off)
    ensures TakenFrom(r, inp, 4 * w + n, w, k, off)
  {
    assert inp[4 * w..][n..n + 4 * w] == inp[4 * w + n..4 * w + n + 4 * w];
  }

  // For every rectangle, inside the screen or not: a byte of the framebuffer that row Y of the
  // rectangle covers, and no later row, becomes that row's; one that no row covers stays.
  lemma {:induction false} RawPaintsByte(w0: nat, v: View, x: nat, y: nat, w: nat, h: nat, k: nat, Y: nat)
    requires |v.inp| >= RowsSize(4 * w, h) && k < |v.pix| && y <= Y < y + h && InRow(w0, x, Y, w, k)
    requires forall Y': nat :: Y < Y' < y + h ==> !InRow(w0, x, Y', w, k)
    ensures TakenFrom(RawRows(v, RowStart(4 * w0, x, y), 4 * w0, w, h), v.inp, RowsSize(4 * w, Y - y), w, k,
                      RowStart(4 * w0, x, Y))
    decreases h
  {
    hide RawRows, TakenFrom, RowStart, RowsSize, Swizzle, InRow;
    var later := FirstRawPainted(w0, v, x, y, w, h);
    if Y == y {
      RawPaintsFirst(w0, v, later, x, y, w, h, k);
    } else {
      RawPaintsByte(w0, later, x, y + 1, w, h - 1, k, Y);
      OneRowMore(4 * w, Y - y);
      TakenBehind(RawRows(later, RowStart(4 * w0, x, y + 1), 4 * w0, w, h - 1), v.inp, RowsSize(4 * w, Y - (y + 1)), w,
                  k, RowStart(4 * w0, x, Y));
    }
  }

  lemma OneRowMore(len: nat, n: nat)
    requires n > 0
    ensures RowsSize(len, n) == len + RowsSize(len, n - 1)
  {
  }

  lemma RawPaintsFirst(w0: nat, v: View, later: View, x: nat, y: nat, w: nat, h: nat, k: nat)
    requires h > 0 && 4 * w <= |v.inp| && |later.inp| >= RowsSize(4 * w, h - 1) && k < |v.pix|
    requires later.pix == Overwrite(v.pix, RowStart(4 * w0, x, y), Swizzle(v.inp[..4 * w], w))
    requires InRow(w0, x, y, w, k) && forall Y: nat :: y < Y < y + h ==> !InRow(w0, x, Y, w, k)
    ensures TakenFrom(RawRows(later, RowStart(4 * w0, x, y + 1), 4 * w0, w, h - 1), v.inp, RowsSize(4 * w, 0), w, k,
                      RowStart(4 * w0, x, y))
  {
    RawMisses(w0, later, x, y + 1, w, h - 1, k);
    hide RawRows, Swizzle, RowStart;
    assert v.inp[0..0 + 4 * w] == v.inp[..4 * w];
  }

  // ---- Copies wherever they lie ----

  // The first of n rows moved, then the others.
  lemma MoveFirst(src: seq<Byte>, from: nat, pix: seq<Byte>, to: nat, s: nat, len: nat, n: nat)
    requires n > 0 && RowsFit(|src|, from, s, len, n)
    ensures PutRows(pix, to, s, len, Gather(src, from, s, len, n), n)
         == PutRows(Overwrite(pix, to, src[from..from + len]), to + s, s, len, Gather(src, from + s, s, len, n - 1),
                    n - 1)
  {
    Prefix(src[from..from + len], Gather(src, from + s, s, len, n - 1));
  }

  // The rows of a block put over another, both counted on across the right edge; src is what the
  // framebuffer held before.
  function Put(w0: nat, src: seq<Byte>, sx: nat, sy: nat, pix: seq<Byte>, x: nat, y: nat, w: nat, h: nat): seq<Byte>
    requires RowsFit(|src|, RowStart(4 * w0, sx, sy), 4 * w0, 4 * w, h)
  {
    PutRows(pix, RowStart(4 * w0, x, y), 4 * w0, 4 * w, Gather(src, RowStart(4 * w0, sx, sy), 4 * w0, 4 * w, h), h)
  }

  lemma FirstRowPut(w0: nat, src: seq<Byte>, sx: nat, sy: nat, pix: seq<Byte>, x: nat, y: nat, w: nat, h: nat)
      returns (pix': seq<Byte>)
    requires h > 0 && RowsFit(|src|, RowStart(4 * w0, sx, sy), 4 * w0, 4 * w, h)
    ensures RowsFit(|src|, RowStart(4 * w0, sx, sy + 1), 4 * w0, 4 * w, h - 1)
    ensures var from := RowStart(4 * w0, sx, sy);
      from + 4 * w <= |src| && pix' == Overwrite(pix, RowStart(4 * w0, x, y), src[from..from + 4 * w])
    ensures Put(w0, src, sx, sy, pix, x, y, w, h) == Put(w0, src, sx, sy + 1, pix', x, y + 1, w, h - 1)
  {
    var from, to := RowStart(4 * w0, sx, sy), RowStart(4 * w0, x, y);
    MoveFirst(src, from, pix, to, 4 * w0, 4 * w, h);
    pix' := Overwrite(pix, to, src[from..from + 4 * w]);
  }

  lemma {:induction false} PutMisses(w0: nat, src: seq<Byte>, sx: nat, sy: nat, pix: seq<Byte>, x: nat, y: nat, w: nat,
                                     h: nat, k: nat)
    requires RowsFit(|src|, RowStart(4 * w0, sx, sy), 4 * w0, 4 * w, h) && k < |pix|
    requires forall Y: nat :: y <= Y < y + h ==> !InRow(w0, x, Y, w, k)
    ensures var r := Put(w0, src, sx, sy, pix, x, y, w, h); |r| == |pix| && r[k] == pix[k]
    decreases h
  {
    if h > 0 {
      var pix' := FirstRowPut(w0, src, sx, sy, pix, x, y, w, h);
      PutMisses(w0, src, sx, sy + 1, pix', x, y + 1, w, h - 1, k);
      hide Put, RowsFit;
      assert !InRow(w0, x, y, w, k);
    }
  }

  lemma {:induction false} PutsByte(w0: nat, src: seq<Byte>, sx: nat, sy: nat, pix: seq<Byte>, x: nat, y: nat, w: nat,
                                    h: nat, k: nat, Y: nat)
    requires RowsFit(|src|, RowStart(4 * w0, sx, sy), 4 * w0, 4 * w, h) && k < |pix|
    requires y <= Y < y + h && InRow(w0, x, Y, w, k)
    requires forall Y': nat :: Y < Y' < y + h ==> !InRow(w0, x, Y', w, k)
    ensures var from := RowStart(4 * w0, sx, sy + (Y - y)) + (k - RowStart(4 * w0, x, Y));
      var r := Put(w0, src, sx, sy, pix, x, y, w, h);
      |r| == |pix| && from < |src| && r[k] == src[from]
    decreases h
  {
    hide Put, RowsFit, RowStart;
    var pix' := FirstRowPut(w0, src, sx, sy, pix, x, y, w, h);
    if Y == y {
      PutMisses(w0, src, sx, sy + 1, pix', x, y + 1, w, h - 1, k);
    } else {
      PutsByte(w0, src, sx, sy + 1, pix', x, y + 1, w, h - 1, k, Y);
      assert sy + 1 + (Y - (y + 1)) == sy + (Y - y);
    }
  }

  lemma CopyIsPut(w0: nat, v: View, x: nat, y: nat, w: nat, h: nat) returns (sx: Word16, sy: Word16)
    requires |v.inp| >= 4 && CopyRect(w0, v, x, y, w, h).err == None
    ensures sx == ReadU16(v.inp[..2]) && sy == ReadU16(v.inp[2..4])
    ensures RowsFit(|v.pix|, RowStart(4 * w0, sx, sy), 4 * w0, 4 * w, h)
    ensures var pix := Put(w0, v.pix, sx, sy, v.pix, x, y, w, h);
      CopyRect(w0, v, x, y, w, h) == Outcome(View(v.inp[4..], pix, v.updates), None)
  {
    sx, sy := ReadU16(v.inp[..2]), ReadU16(v.inp[2..4]);
  }

  // For every copy that fits, inside the screen or sticking out to the right: a byte that row Y of the
  // destination covers, and no later row, becomes the byte that the same row of the source held before
  // the copy.
  lemma CopyMovesByte(w0: nat, v: View, x: nat, y: nat, w: nat, h: nat, k: nat, Y: nat)
    requires |v.inp| >= 4 && CopyRect(w0, v, x, y, w, h).err == None && k < |v.pix|
    requires y <= Y < y + h && InRow(w0, x, Y, w, k)
    requires forall Y': nat :: Y < Y' < y + h ==> !InRow(w0, x, Y', w, k)
    ensures var (sx, sy) := (ReadU16(v.inp[..2]), ReadU16(v.inp[2..4]));
      var from := RowStart(4 * w0, sx, sy + (Y - y)) + (k - RowStart(4 * w0, x, Y));
      from < |v.pix| && CopyRect(w0, v, x, y, w, h).v.pix[k] == v.pix[from]
  {
    hide CopyRect, Put, RowsFit, RowStart, InRow;
    var sx, sy := CopyIsPut(w0, v, x, y, w, h);
    PutsByte(w0, v.pix, sx, sy, v.pix, x, y, w, h, k, Y);
  }

  // One that no row covers stays, and the copy consumes four bytes and counts no update.
  lemma CopyLeavesByte(w0: nat, v: View, x: nat, y: nat, w: nat, h: nat, k: nat)
    requires |v.inp| >= 4 && CopyRect(w0, v, x, y, w, h).err == None && k < |v.pix|
    requires forall Y: nat :: y <= Y < y + h ==> !InRow(w0, x, Y, w, k)
    ensures var r := CopyRect(w0, v, x, y, w, h).v;
      r.inp == v.inp[4..] && r.updates == v.updates && r.pix[k] == v.pix[k]
  {
    hide CopyRect, Put, RowsFit, RowStart, InRow;
    var sx, sy := CopyIsPut(w0, v, x, y, w, h);
    PutMisses(w0, v.pix, sx, sy, v.pix, x, y, w, h, k);
  }
}
