// The viewer's half of RFB: decoding server messages into a framebuffer.
module Client {
  import opened Bytes
  import opened Streams
  import opened Images
  import opened Protocol
  import Pixel

  // The unread input, the framebuffer bytes and the number of completed updates.
  datatype View = View(inp: seq<Byte>, pix: seq<Byte>, updates: nat)

  datatype Outcome = Outcome(v: View, err: Option<Error>)

  // A w by h framebuffer as an image with origin (0, 0) and rows of 4*w bytes.
  function Screen(w: nat, h: nat, pix: seq<Byte>): (f: Frame)
    requires |pix| == h * (4 * w)
  {
    assert w > 0 && h > 0 ==> (h - 1) * (4 * w) + 4 * w == h * (4 * w);
    Image(0, 0, w, h, 4 * w, pix)
  }

  // pix with data written at off, cut off at the end of pix.
  function Overwrite(pix: seq<Byte>, off: nat, data: seq<Byte>): (r: seq<Byte>)
    ensures |r| == |pix|
    ensures forall k :: 0 <= k < |pix| ==> r[k] == if off <= k < off + |data| then data[k - off] else pix[k]
  {
    seq(|pix|, k requires 0 <= k < |pix| => if off <= k < off + |data| then data[k - off] else pix[k])
  }

  // Blue, green, red, unused turned into red, green, blue, opaque.
  function Swizzle(row: seq<Byte>, n: nat): (r: seq<Byte>)
    requires 4 * n <= |row|
    ensures |r| == 4 * n
  {
    seq(4 * n, k requires 0 <= k < 4 * n =>
      if k % 4 == 0 then row[k + 2] else if k % 4 == 1 then row[k] else if k % 4 == 2 then row[k - 2] else 255)
  }

  function RawRows(v: View, off: nat, stride: nat, w: nat, n: nat): (r: Outcome)
    ensures |r.v.inp| <= |v.inp| && |r.v.pix| == |v.pix|
    decreases n
  {
    if n == 0 then Outcome(v, None)
    else if |v.inp| < 4 * w then Outcome(v.(inp := []), Some(ShortRead(v.inp)))
    else
      var pix := Overwrite(v.pix, off, Swizzle(v.inp[..4 * w], w));
      RawRows(v.(inp := v.inp[4 * w..], pix := pix), off + stride, stride, w, n - 1)
  }

  lemma FirstRawRow(v: View, off: nat, stride: nat, w: nat, n: nat)
    requires n > 0
    ensures RawRows(v, off, stride, w, n)
         == if |v.inp| < 4 * w then Outcome(v.(inp := []), Some(ShortRead(v.inp)))
            else RawRows(v.(inp := v.inp[4 * w..], pix := Overwrite(v.pix, off, Swizzle(v.inp[..4 * w], w))),
                         off + stride, stride, w, n - 1)
  {
  }

  // n rows of len bytes, stride bytes apart, all lie inside size bytes; the code's slice expressions
  // abort otherwise.
  predicate RowsFit(size: nat, off: nat, stride: nat, len: nat, n: nat)
    decreases n
  {
    n > 0 ==> off + len <= size && RowsFit(size, off + stride, stride, len, n - 1)
  }

  // The bytes of n rows of len bytes.
  function RowsSize(len: nat, n: nat): nat
    decreases n
  {
    if n == 0 then 0 else len + RowsSize(len, n - 1)
  }

  // n rows of len bytes taken from pix, stride bytes apart.
  function Gather(pix: seq<Byte>, off: nat, stride: nat, len: nat, n: nat): (r: seq<Byte>)
    requires RowsFit(|pix|, off, stride, len, n)
    ensures |r| == RowsSize(len, n)
    decreases n
  {
    if n == 0 then [] else pix[off..off + len] + Gather(pix, off + stride, stride, len, n - 1)
  }

  // n rows of len bytes of data put into pix, stride bytes apart.
  function PutRows(pix: seq<Byte>, off: nat, stride: nat, len: nat, data: seq<Byte>, n: nat): (r: seq<Byte>)
    requires |data| == RowsSize(len, n)
    ensures |r| == |pix|
    decreases n
  {
    if n == 0 then pix
    else PutRows(Overwrite(pix, off, data[..len]), off + stride, stride, len, data[len..], n - 1)
  }

  // The rows of one block put over another, unless either lies outside.
  function Moved(pix: seq<Byte>, from: nat, to: nat, stride: nat, len: nat, h: nat): (r: Option<seq<Byte>>)
    ensures r.Some? ==> |r.value| == |pix|
  {
    if RowsFit(|pix|, from, stride, len, h) && RowsFit(|pix|, to, stride, len, h) then
      Some(PutRows(pix, to, stride, len, Gather(pix, from, stride, len, h), h))
    else None
  }

  // Where row y begins at column x, counted row by row.
  function RowStart(stride: nat, x: nat, y: nat): nat {
    if y == 0 then 4 * x else RowStart(stride, x, y - 1) + stride
  }

  lemma {:induction false} RowStartIs(stride: nat, x: nat, y: nat)
    ensures RowStart(stride, x, y) == y * stride + 4 * x
  {
    if y > 0 { RowStartIs(stride, x, y - 1); }
  }

  lemma {:induction false} RowStartAligned(w: nat, x: nat, y: nat)
    ensures RowStart(4 * w, x, y) % 4 == 0
  {
    if y > 0 { RowStartAligned(w, x, y - 1); }
  }

  function CopyRect(w0: nat, v: View, x: nat, y: nat, w: nat, h: nat): (r: Outcome)
    ensures |r.v.inp| <= |v.inp| && |r.v.pix| == |v.pix|
  {
    if |v.inp| < 4 then Outcome(v.(inp := []), Some(ShortRead(v.inp)))
    else
      var sx, sy := ReadU16(v.inp[..2]), ReadU16(v.inp[2..4]);
      var rest := v.(inp := v.inp[4..]);
      match Moved(v.pix, RowStart(4 * w0, sx, sy), RowStart(4 * w0, x, y), 4 * w0, 4 * w, h)
      case Some(pix) => Outcome(rest.(pix := pix), None)
      case None => Outcome(rest, Some(Abort))
  }

  function Rectangle(w0: nat, v: View): (r: Outcome)
    ensures |r.v.inp| <= |v.inp| && |r.v.pix| == |v.pix|
  {
    if |v.inp| < 12 then Outcome(v.(inp := []), Some(ShortRead(v.inp)))
    else
      var hdr, rest := v.inp[..12], v.(inp := v.inp[12..]);
      var x, y, w, h := ReadU16(hdr[..2]), ReadU16(hdr[2..4]), ReadU16(hdr[4..6]), ReadU16(hdr[6..8]);
      var enc := Signed32(ReadU32(hdr[8..12]));
      if enc == 0 then RawRows(rest, RowStart(4 * w0, x, y), 4 * w0, w, h)
      else if enc == 1 then CopyRect(w0, rest, x, y, w, h)
      else Outcome(rest, Some(UnsupportedEncoding(enc)))
  }

  function Rectangles(w0: nat, v: View, n: nat): (r: Outcome)
    ensures |r.v.inp| <= |v.inp| && |r.v.pix| == |v.pix|
    decreases n
  {
    if n == 0 then Outcome(v, None)
    else
      var r := Rectangle(w0, v);
      if r.err.Some? then r else Rectangles(w0, r.v, n - 1)
  }

  lemma FirstRectangle(w0: nat, v: View, n: nat)
    requires n > 0
    ensures var r := Rectangle(w0, v);
      Rectangles(w0, v, n) == if r.err.Some? then r else Rectangles(w0, r.v, n - 1)
  {
  }

  function Update(w0: nat, v: View): (r: Outcome)
    ensures |r.v.inp| <= |v.inp| && |r.v.pix| == |v.pix|
  {
    if |v.inp| < 3 then Outcome(v.(inp := []), Some(ShortRead(v.inp)))
    else Rectangles(w0, v.(inp := v.inp[3..]), ReadU16(v.inp[1..3]))
  }

  // Discarding n bytes, which reports EOF on any shortage.
  function Discard(v: View, n: nat): (r: Outcome)
    ensures |r.v.inp| <= |v.inp| && r.v.pix == v.pix
  {
    if |v.inp| < n then Outcome(v.(inp := []), Some(EOF)) else Outcome(v.(inp := v.inp[n..]), None)
  }

  function ColourMap(v: View): (r: Outcome)
    ensures |r.v.inp| <= |v.inp| && r.v.pix == v.pix
  {
    if |v.inp| < 5 then Outcome(v.(inp := []), Some(ShortRead(v.inp)))
    else Discard(v.(inp := v.inp[5..]), ReadU16(v.inp[3..5]) * 6)
  }

  function CutText(v: View): (r: Outcome)
    ensures |r.v.inp| <= |v.inp| && r.v.pix == v.pix
  {
    if |v.inp| < 7 then Outcome(v.(inp := []), Some(ShortRead(v.inp)))
    else Discard(v.(inp := v.inp[7..]), ReadU32(v.inp[3..7]))
  }

  // One server message whose type byte has been read.
  function Message(w0: nat, typ: Byte, v: View): (r: Outcome)
    ensures |r.v.inp| <= |v.inp| && |r.v.pix| == |v.pix|
  {
    if typ == 0 then
      var r := Update(w0, v);
      if r.err.Some? then r else Outcome(r.v.(updates := r.v.updates + 1), None)
    else if typ == 1 then ColourMap(v)
    else if typ == 2 then Outcome(v, None)
    else if typ == 3 then CutText(v)
    else Outcome(v, Some(UnknownType(typ)))
  }

  // Decoding until the stream ends; a clean end between messages is no error.
  function Decode(w0: nat, v: View): Outcome
    decreases |v.inp|
  {
    if v.inp == [] then Outcome(v, None)
    else
      var r := Message(w0, v.inp[0], v.(inp := v.inp[1..]));
      if r.err.Some? then r else Decode(w0, r.v)
  }

  class Client {
    var width: nat
    var height: nat
    var inp: seq<Byte>
    var out: seq<Byte>
    var pix: array<Byte>
    var updates: nat

    constructor (w: Word16, h: Word16, stream: seq<Byte>)
      ensures Valid() && Framed() && width == w && height == h && fresh(pix)
      ensures Now() == View(stream, seq(h * (4 * w), i => 0), 0) && out == []
    {
      width, height, inp, out, updates := w, h, stream, [], 0;
      pix := new Byte[h * (4 * w)](i => 0);
      WholePixels(h, w);
    }

    ghost predicate Valid()
      reads this
    {
      width < 0x1_0000 && height < 0x1_0000 && pix.Length == height * (4 * width)
    }

    // The framebuffer holds whole pixels; this is all the decoder needs of it.
    ghost predicate Framed()
      reads this
    {
      pix.Length % 4 == 0
    }

    ghost function Now(): View
      reads this, pix
    {
      View(inp, pix[..], updates)
    }

    method Write(b: seq<Byte>)
      modifies this`out
      ensures out == old(out) + b
    {
      out := out + b;
    }

    method SendSetPixelFormat()
      modifies this`out
      ensures out == old(out) + Print(SetPixelFormat(Pixel.DefaultFormat()))
    {
      var pf := [32, 24, 0, 1, 0, 255, 0, 255, 0, 255, 16, 8, 0, 0, 0, 0];
      assert U16(255) == [0, 255];
      assert Pixel.DefaultFormat().Write() == pf;
      Write([0, 0, 0, 0] + pf);
    }

    method SendSetEncodings(encodings: seq<Int32>)
      modifies this`out
      ensures out == old(out) + Print(SetEncodings(encodings))
    {
      var buf: seq<Byte> := [2, 0] + U16(|encodings|);
      var i := 0;
      assert encodings[0..] == encodings;
      while i < |encodings|
        invariant 0 <= i <= |encodings| && out == old(out)
        invariant buf + PrintEncodings(encodings[i..]) == Print(SetEncodings(encodings))
      {
        assert encodings[i..][0] == encodings[i] && encodings[i..][1..] == encodings[i + 1..];
        Assoc(buf, U32(encodings[i]), PrintEncodings(encodings[i + 1..]));
        buf := buf + U32(encodings[i]);
        i := i + 1;
      }
      assert buf + PrintEncodings(encodings[i..]) == buf;
      Write(buf);
    }

    method RequestUpdate(incremental: bool)
      requires Valid()
      modifies this`out
      ensures out == old(out) + Print(UpdateRequest(incremental, 0, 0, width, height))
    {
      var buf: seq<Byte> := [3, if incremental then 1 else 0];
      buf := buf + U16(0);
      buf := buf + U16(0);
      buf := buf + U16(width);
      buf := buf + U16(height);
      Write(buf);
    }

    // In a nonempty screen the coordinates sent are those of the nearest pixel of the screen.
    method SendPointer(x: int, y: int, buttons: Byte)
      requires Valid()
      modifies this`out
      ensures out == old(out) + Print(PointerTo(width, height, x, y, buttons))
      ensures 0 < width && 0 < height ==>
        0 <= Clamp(x, width) < width && out == old(out) + Print(Pointer(Clamp(x, width), Clamp(y, height), buttons))
    {
      var buf: seq<Byte> := [5, buttons];
      buf := buf + U16(Clamp(x, width));
      buf := buf + U16(Clamp(y, height));
      Wrapped(Clamp(x, width));
      Wrapped(Clamp(y, height));
      Write(buf);
    }

    method SendKey(keysym: Word32, down: bool)
      modifies this`out
      ensures out == old(out) + Print(Key(keysym, down))
    {
      var buf: seq<Byte> := [4, if down then 1 else 0, 0, 0];
      buf := buf + U32(keysym);
      Write(buf);
    }

    // One pixel, unless it would end past the framebuffer.
    method PaintPixel(row: seq<Byte>, si: nat, di: nat)
      requires si + 4 <= |row| && di % 4 == 0 && pix.Length % 4 == 0
      modifies pix
      ensures pix[..] == Overwrite(old(pix[..]), di, [row[si + 2], row[si + 1], row[si], 255])
    {
      if di + 3 < pix.Length {
        pix[di] := row[si + 2];
        pix[di + 1] := row[si + 1];
        pix[di + 2] := row[si];
        pix[di + 3] := 255;
      }
    }

    // One row of pixels.
    method PaintRow(row: seq<Byte>, off: nat, w: nat)
      requires |row| == 4 * w && off % 4 == 0 && pix.Length % 4 == 0
      modifies pix
      ensures pix[..] == Overwrite(old(pix[..]), off, Swizzle(row, w))
    {
      ghost var was, data := pix[..], Swizzle(row, w);
      assert Overwrite(was, off, data[..0]) == was;
      var i := 0;
      while i < w
        invariant 0 <= i <= w
        invariant pix[..] == Overwrite(was, off, data[..4 * i])
      {
        PaintPixel(row, i * 4, off + i * 4);
        SwizzleAt(row, w, i);
        OverwriteMore(was, off, data, 4 * i);
        i := i + 1;
      }
      assert data[..4 * w] == data;
    }

    // Reading and painting one row at byte off.
    method RawRow(off: nat, w: nat) returns (err: Option<Error>)
      requires off % 4 == 0 && Framed()
      modifies this`inp, pix
      ensures var v := old(Now());
        if |v.inp| < 4 * w then err == Some(ShortRead(v.inp)) && Now() == v.(inp := [])
        else
          && err == None
          && Now() == v.(inp := v.inp[4 * w..], pix := Overwrite(v.pix, off, Swizzle(v.inp[..4 * w], w)))
    {
      var row;
      err, row, inp := ReadFull(inp, w * 4);
      if err.Some? {
        return;
      }
      PaintRow(row, off, w);
    }

    method PixOffset(x: nat, y: nat) returns (off: nat)
      ensures off == RowStart(4 * width, x, y)
    {
      RowStartIs(4 * width, x, y);
      off := y * (4 * width) + 4 * x;
    }

    method DecodeRaw(x: nat, y: nat, w: nat, h: nat) returns (err: Option<Error>)
      requires Framed()
      modifies this`inp, pix
      ensures Outcome(Now(), err) == RawRows(old(Now()), RowStart(4 * width, x, y), 4 * width, w, h)
    {
      ghost var goal := RawRows(Now(), RowStart(4 * width, x, y), 4 * width, w, h);
      var j := 0;
      while j < h
        invariant 0 <= j <= h
        invariant RawRows(Now(), RowStart(4 * width, x, y + j), 4 * width, w, h - j) == goal
      {
        var off := PixOffset(x, y + j);
        RowStartAligned(width, x, y + j);
        FirstRawRow(Now(), off, 4 * width, w, h - j);
        err := RawRow(off, w);
        if err.Some? {
          return;
        }
        j := j + 1;
      }
      err := None;
    }

    // The copy built-in on a destination slice that lies inside the framebuffer.
    method CopyIn(off: nat, data: seq<Byte>)
      requires off + |data| <= pix.Length
      modifies pix
      ensures pix[..] == Overwrite(old(pix[..]), off, data)
    {
      forall k | off <= k < off + |data| {
        pix[k] := data[k - off];
      }
    }

    // The first loop of decodeCopyRect: a snapshot of h rows of the framebuffer.
    method Snapshot(off: nat, stride: nat, len: nat, h: nat) returns (region: seq<Byte>)
      requires RowsFit(pix.Length, off, stride, len, h)
      ensures region == Gather(pix[..], off, stride, len, h)
    {
      region := [];
      var from: nat, j := off, 0;
      while j < h
        invariant 0 <= j <= h && RowsFit(pix.Length, from, stride, len, h - j)
        invariant region + Gather(pix[..], from, stride, len, h - j) == Gather(pix[..], off, stride, len, h)
      {
        Assoc(region, pix[from..from + len], Gather(pix[..], from + stride, stride, len, h - j - 1));
        region := region + pix[from..from + len];
        from := from + stride;
        j := j + 1;
      }
    }

    // The second loop of decodeCopyRect: h rows of data written into the framebuffer.
    method PutBack(off: nat, stride: nat, len: nat, region: seq<Byte>, h: nat)
      requires |region| == RowsSize(len, h) && RowsFit(pix.Length, off, stride, len, h)
      modifies pix
      ensures pix[..] == PutRows(old(pix[..]), off, stride, len, region, h)
    {
      var to: nat, j, rest := off, 0, region;
      while j < h
        invariant 0 <= j <= h && |rest| == RowsSize(len, h - j) && RowsFit(pix.Length, to, stride, len, h - j)
        invariant PutRows(pix[..], to, stride, len, rest, h - j) == PutRows(old(pix[..]), off, stride, len, region, h)
      {
        CopyIn(to, rest[..len]);
        rest := rest[len..];
        to := to + stride;
        j := j + 1;
      }
    }

    // The source region is saved first, so overlapping copies stay correct; ok is false if the
    // slice expressions abort.
    method MoveBlock(from: nat, to: nat, stride: nat, len: nat, h: nat) returns (ok: bool)
      modifies pix
      ensures var r := Moved(old(pix[..]), from, to, stride, len, h);
        ok == r.Some? && (ok ==> pix[..] == r.value)
    {
      if !RowsFit(pix.Length, from, stride, len, h) || !RowsFit(pix.Length, to, stride, len, h) {
        return false;
      }
      var region := Snapshot(from, stride, len, h);
      PutBack(to, stride, len, region, h);
      return true;
    }

    method DecodeCopyRect(x: nat, y: nat, w: nat, h: nat) returns (err: Option<Error>)
      modifies this`inp, pix
      ensures err == CopyRect(width, old(Now()), x, y, w, h).err
      ensures err != Some(Abort) ==> Now() == CopyRect(width, old(Now()), x, y, w, h).v
    {
      var src;
      err, src, inp := ReadFull(inp, 4);
      if err.Some? {
        return;
      }
      assert src[..2] == old(inp)[..2] && src[2..4] == old(inp)[2..4];
      var sx: nat, sy: nat := ReadU16(src[..2]), ReadU16(src[2..4]);
      var from := PixOffset(sx, sy);
      var to := PixOffset(x, y);
      var ok := MoveBlock(from, to, 4 * width, 4 * w, h);
      if !ok {
        err := Some(Abort);
      }
    }

    method ReadRectangle() returns (err: Option<Error>)
      requires Framed()
      modifies this`inp, pix
      ensures err == Rectangle(width, old(Now())).err
      ensures err != Some(Abort) ==> Now() == Rectangle(width, old(Now())).v
    {
      var hdr;
      err, hdr, inp := ReadFull(inp, 12);
      if err.Some? {
        return;
      }
      var x, y, w, h := ReadU16(hdr[..2]), ReadU16(hdr[2..4]), ReadU16(hdr[4..6]), ReadU16(hdr[6..8]);
      var enc := Signed32(ReadU32(hdr[8..12]));
      if enc == 0 {
        err := DecodeRaw(x, y, w, h);
      } else if enc == 1 {
        err := DecodeCopyRect(x, y, w, h);
      } else {
        err := Some(UnsupportedEncoding(enc));
      }
    }

    method ReadFramebufferUpdate() returns (err: Option<Error>)
      requires Framed()
      modifies this`inp, pix
      ensures err == Update(width, old(Now())).err
      ensures err != Some(Abort) ==> Now() == Update(width, old(Now())).v
    {
      hide Rectangles;
      var head;
      err, head, inp := ReadFull(inp, 3);
      if err.Some? {
        return;
      }
      var nrects := ReadU16(head[1..3]);
      err := ReadRectangles(nrects);
    }

    // The loop over the rectangles.
    method ReadRectangles(nrects: nat) returns (err: Option<Error>)
      requires Framed()
      modifies this`inp, pix
      ensures err == Rectangles(width, old(Now()), nrects).err
      ensures err != Some(Abort) ==> Now() == Rectangles(width, old(Now()), nrects).v
    {
      hide Rectangle;
      ghost var goal := Rectangles(width, Now(), nrects);
      err := None;
      var i := 0;
      while i < nrects
        invariant 0 <= i <= nrects && err == None
        invariant Rectangles(width, Now(), nrects - i) == goal
      {
        FirstRectangle(width, Now(), nrects - i);
        err := ReadRectangle();
        if err.Some? {
          return;
        }
        i := i + 1;
      }
    }

    method SkipColourMap() returns (err: Option<Error>)
      modifies this`inp
      ensures Outcome(Now(), err) == ColourMap(old(Now()))
    {
      var head;
      err, head, inp := ReadFull(inp, 5);
      if err.Some? {
        return;
      }
      assert head[3..5] == old(inp)[3..5];
      err, inp := DiscardBytes(inp, ReadU16(head[3..5]) * 6);
    }

    method SkipCutText() returns (err: Option<Error>)
      modifies this`inp
      ensures Outcome(Now(), err) == CutText(old(Now()))
    {
      var head;
      err, head, inp := ReadFull(inp, 7);
      if err.Some? {
        return;
      }
      assert head[3..7] == old(inp)[3..7];
      err, inp := DiscardBytes(inp, ReadU32(head[3..7]));
    }

    // The switch of the loop on a message's type byte; updates counts the calls of OnUpdate.
    method Dispatch(typ: Byte) returns (err: Option<Error>)
      requires Framed()
      modifies this`inp, this`updates, pix
      ensures err == Message(width, typ, old(Now())).err
      ensures err != Some(Abort) ==> Now() == Message(width, typ, old(Now())).v
    {
      match typ
      case 0 =>
        err := ReadFramebufferUpdate();
        if err.None? {
          updates := updates + 1;
        }
      case 1 =>
        err := SkipColourMap();
      case 2 =>
        err := None;
      case 3 =>
        err := SkipCutText();
      case _ =>
        err := Some(UnknownType(typ));
    }

    // The decoding loop.
    method Run() returns (err: Option<Error>)
      requires Framed()
      modifies this`inp, this`updates, pix
      ensures err == Decode(width, old(Now())).err
      ensures err != Some(Abort) ==> Now() == Decode(width, old(Now())).v
    {
      ghost var goal := Decode(width, Now());
      while true
        invariant Decode(width, Now()) == goal
        decreases |inp|
      {
        ghost var before := Now();
        var typ;
        err, typ, inp := ReadFull(inp, 1);
        if err.Some? {
          if err == Some(EOF) {
            err := None;
          }
          return;
        }
        assert Now() == before.(inp := before.inp[1..]);
        err := Dispatch(typ[0]);
        if err.Some? {
          return;
        }
      }
    }
  }

  // Four more bytes of data, when data is written from off on.
  lemma OverwriteMore(pix: seq<Byte>, off: nat, data: seq<Byte>, n: nat)
    requires n + 4 <= |data|
    ensures Overwrite(Overwrite(pix, off, data[..n]), off + n, data[n..n + 4]) == Overwrite(pix, off, data[..n + 4])
  {
  }

  // The four bytes of pixel i of a swizzled row.
  lemma SwizzleAt(row: seq<Byte>, w: nat, i: nat)
    requires |row| == 4 * w && i < w
    ensures Swizzle(row, w)[4 * i..4 * i + 4] == [row[4 * i + 2], row[4 * i + 1], row[4 * i], 255]
  {
  }

  lemma WholePixels(h: nat, w: nat)
    ensures h * (4 * w) % 4 == 0
  {
    assert h * (4 * w) == 4 * (h * w);
  }

  lemma Wrapped(x: int)
    ensures U16(x) == U16(x % 0x1_0000)
  {
    var q, r := x / 0x1_0000, x % 0x1_0000;
    assert x == 0x100 * (0x100 * q) + r;
    assert x / 0x100 == 0x100 * q + r / 0x100;
  }
}
