// The host's half of RFB: the message loop, its parsers and the sending of updates.
module Server {
  import opened Bytes
  import opened Streams
  import opened Images
  import opened Diff
  import opened DiffFacts
  import opened Pixel
  import opened Encoding

  // What the input sink is told.
  datatype SinkEvent = KeyEvent(keysym: Word32, down: bool) | PointerEvent(x: Word16, y: Word16, buttons: Byte)

  // shots counts the captures made so far.
  datatype State = State(inp: seq<Byte>, out: seq<Byte>, pf: PixelFormat, prev: Option<Frame>, shots: nat,
                         sink: seq<SinkEvent>)

  datatype Outcome = Outcome(s: State, err: Option<Error>)

  // The host before its first message.
  function Start(stream: seq<Byte>): State {
    State(stream, [], DefaultFormat(), None, 0, [])
  }

  // The captures in the order they are made; None is a failing one, as is any past the end.
  type Capture = seq<Option<Frame>>

  function Shot(screen: Capture, k: nat): Option<Frame> {
    if k < |screen| then screen[k] else None
  }

  // A full request or the first frame sends everything, an incremental one the changed tiles.
  ghost function ChosenRects(prev: Option<Frame>, img: Frame, incremental: bool): seq<Rect> {
    if !incremental || prev.None? then [Rect(0, 0, img.width, img.height)] else Dirty(prev.value, img)
  }

  lemma ChosenWithin(prev: Option<Frame>, img: Frame, incremental: bool)
    ensures AllWithin(ChosenRects(prev, img, incremental), img.width, img.height)
  {
    if incremental && prev.Some? && SameSize(prev.value, img) { DirtyExact(prev.value, img); }
  }

  // The bytes of one update.
  ghost function UpdateFor(pf: PixelFormat, prev: Option<Frame>, img: Frame, incremental: bool): seq<Byte> {
    ChosenWithin(prev, img, incremental);
    UpdateBytes(pf, img, ChosenRects(prev, img, incremental))
  }

  // A pixel of more than four bytes overruns the encoder's four-byte buffer.
  predicate Overruns(pf: PixelFormat, rects: seq<Rect>) {
    pf.BytesPerPixel() > 4 && exists k :: 0 <= k < |rects| && rects[k].Dx() > 0 && rects[k].Dy() > 0
  }

  ghost function Send(screen: Capture, s: State, incremental: bool): (r: Outcome)
    ensures r.s.inp == s.inp && r.s.sink == s.sink && r.s.pf == s.pf
    ensures r.err == Some(CaptureFailed) ==> r.s.out == s.out && r.s.prev == s.prev
  {
    match Shot(screen, s.shots)
    case None => Outcome(s.(shots := s.shots + 1), Some(CaptureFailed))
    case Some(img) =>
      if Overruns(s.pf, ChosenRects(s.prev, img, incremental)) then Outcome(s, Some(Abort))
      else
        Outcome(s.(shots := s.shots + 1, prev := Some(img), out := s.out + UpdateFor(s.pf, s.prev, img, incremental)),
                None)
  }

  function SetPixelFormat(s: State): (r: Outcome)
    ensures |r.s.inp| <= |s.inp|
  {
    if |s.inp| < 3 then Outcome(s.(inp := []), Some(ShortRead(s.inp)))
    else if |s.inp| < 19 then Outcome(s.(inp := []), Some(ShortRead(s.inp[3..])))
    else Outcome(s.(inp := s.inp[19..], pf := ReadFormat(s.inp[3..19])), None)
  }

  // Discarding n bytes, which reports EOF on any shortage.
  function Discard(s: State, n: nat): (r: Outcome)
    ensures |r.s.inp| <= |s.inp|
  {
    if |s.inp| < n then Outcome(s.(inp := []), Some(EOF)) else Outcome(s.(inp := s.inp[n..]), None)
  }

  function SetEncodings(s: State): (r: Outcome)
    ensures |r.s.inp| <= |s.inp|
  {
    if |s.inp| < 3 then Outcome(s.(inp := []), Some(ShortRead(s.inp)))
    else Discard(s.(inp := s.inp[3..]), ReadU16(s.inp[1..3]) * 4)
  }

  ghost function UpdateRequest(screen: Capture, s: State): (r: Outcome)
    ensures |r.s.inp| <= |s.inp|
  {
    if |s.inp| < 9 then Outcome(s.(inp := []), Some(ShortRead(s.inp)))
    else Send(screen, s.(inp := s.inp[9..]), s.inp[0] != 0)
  }

  function Key(s: State): (r: Outcome)
    ensures |r.s.inp| <= |s.inp|
  {
    if |s.inp| < 7 then Outcome(s.(inp := []), Some(ShortRead(s.inp)))
    else Outcome(s.(inp := s.inp[7..], sink := s.sink + [KeyEvent(ReadU32(s.inp[3..7]), s.inp[0] != 0)]), None)
  }

  function Pointer(s: State): (r: Outcome)
    ensures |r.s.inp| <= |s.inp|
  {
    if |s.inp| < 5 then Outcome(s.(inp := []), Some(ShortRead(s.inp)))
    else
      var e := PointerEvent(ReadU16(s.inp[1..3]), ReadU16(s.inp[3..5]), s.inp[0]);
      Outcome(s.(inp := s.inp[5..], sink := s.sink + [e]), None)
  }

  function CutText(s: State): (r: Outcome)
    ensures |r.s.inp| <= |s.inp|
  {
    if |s.inp| < 7 then Outcome(s.(inp := []), Some(ShortRead(s.inp)))
    else Discard(s.(inp := s.inp[7..]), ReadU32(s.inp[3..7]))
  }

  // One client message whose type byte has been read.
  ghost function Message(screen: Capture, typ: Byte, s: State): (r: Outcome)
    ensures |r.s.inp| <= |s.inp|
  {
    if typ == 0 then SetPixelFormat(s)
    else if typ == 2 then SetEncodings(s)
    else if typ == 3 then UpdateRequest(screen, s)
    else if typ == 4 then Key(s)
    else if typ == 5 then Pointer(s)
    else if typ == 6 then CutText(s)
    else Outcome(s, Some(UnknownType(typ)))
  }

  // The loop until the stream ends; a clean end between messages is no error.
  ghost function Serve(screen: Capture, s: State): Outcome
    decreases |s.inp|
  {
    if s.inp == [] then Outcome(s, None)
    else
      var r := Message(screen, s.inp[0], s.(inp := s.inp[1..]));
      if r.err.Some? then r else Serve(screen, r.s)
  }

  class Session {
    const screen: Capture
    var inp: seq<Byte>
    var out: seq<Byte>
    var pf: PixelFormat
    var prev: Option<Frame>
    var buf: seq<Byte>
    var shots: nat
    var sink: seq<SinkEvent>

    constructor (screen: Capture, stream: seq<Byte>)
      ensures this.screen == screen
      ensures Now() == Start(stream)
    {
      this.screen := screen;
      inp, out, pf, prev, buf, shots, sink := stream, [], DefaultFormat(), None, [], 0, [];
    }

    ghost function Now(): State
      reads this
    {
      State(inp, out, pf, prev, shots, sink)
    }

    method ReadSetPixelFormat() returns (err: Option<Error>)
      modifies this`inp, this`pf
      ensures Outcome(Now(), err) == SetPixelFormat(old(Now()))
    {
      var b;
      err, b, inp := ReadFull(inp, 3);
      if err.Some? {
        return;
      }
      err, b, inp := ReadFull(inp, 16);
      if err.Some? {
        return;
      }
      assert b == old(inp)[3..19];
      pf := ReadFormat(b);
    }

    method ReadSetEncodings() returns (err: Option<Error>)
      modifies this`inp
      ensures Outcome(Now(), err) == SetEncodings(old(Now()))
    {
      var head;
      err, head, inp := ReadFull(inp, 3);
      if err.Some? {
        return;
      }
      assert head[1..3] == old(inp)[1..3];
      err, inp := DiscardBytes(inp, ReadU16(head[1..3]) * 4);
    }

    method ReadFBUR() returns (err: Option<Error>, incremental: bool)
      modifies this`inp
      ensures if |old(inp)| < 9 then err == Some(ShortRead(old(inp))) && inp == []
              else err == None && inp == old(inp)[9..] && incremental == (old(inp)[0] != 0)
    {
      var b;
      incremental := false;
      err, b, inp := ReadFull(inp, 9);
      if err.None? {
        incremental := b[0] != 0;
      }
    }

    // The rectangle loop of sendFramebufferUpdate.
    method WriteRects(img: Frame, rects: seq<Rect>) returns (err: Option<Error>)
      requires AllWithin(rects, img.width, img.height)
      modifies this`out, this`buf
      ensures err == if Overruns(pf, rects) then Some(Abort) else None
      ensures err == None ==> out == old(out) + RectsBytes(pf, img, rects)
    {
      ghost var goal := out + RectsBytes(pf, img, rects);
      var i := 0;
      while i < |rects|
        invariant 0 <= i <= |rects|
        invariant pf.BytesPerPixel() > 4 ==> forall k :: 0 <= k < i ==> rects[k].Dx() <= 0 || rects[k].Dy() <= 0
        invariant AllWithin(rects[i..], img.width, img.height) && out + RectsBytes(pf, img, rects[i..]) == goal
      {
        var r := rects[i];
        if pf.BytesPerPixel() > 4 && r.Dx() > 0 && r.Dy() > 0 {
          return Some(Abort);
        }
        RectsHead(pf, img, rects, i, out);
        out := out + RectHeader(r);
        buf := EncodeRectInto(pf, [], img, r.x0, r.y0, r.Dx(), r.Dy());
        out := out + buf;
        i := i + 1;
      }
      err := None;
    }

    method SendFramebufferUpdate(incremental: bool) returns (err: Option<Error>)
      modifies this`out, this`prev, this`buf, this`shots
      ensures err == Send(screen, old(Now()), incremental).err
      ensures err != Some(Abort) ==> Now() == Send(screen, old(Now()), incremental).s
    {
      var shot := Shot(screen, shots);
      shots := shots + 1;
      if shot.None? {
        return Some(CaptureFailed);
      }
      var img := shot.value;
      var rects: seq<Rect>;
      if !incremental || prev.None? {
        rects := [Rect(0, 0, img.width, img.height)];
      } else {
        rects := DirtyRects(prev.value, img);
      }
      ChosenWithin(prev, img, incremental);
      Assoc(out, [0, 0] + U16(|rects|), RectsBytes(pf, img, rects));
      out := out + ([0, 0] + U16(|rects|));
      err := WriteRects(img, rects);
      if err.Some? {
        return;
      }
      prev := Some(img);
    }

    method ReadKeyEvent() returns (err: Option<Error>)
      modifies this`inp, this`sink
      ensures Outcome(Now(), err) == Key(old(Now()))
    {
      var b;
      err, b, inp := ReadFull(inp, 7);
      if err.Some? {
        return;
      }
      assert b[3..7] == old(inp)[3..7];
      sink := sink + [KeyEvent(ReadU32(b[3..7]), b[0] != 0)];
    }

    method ReadPointerEvent() returns (err: Option<Error>)
      modifies this`inp, this`sink
      ensures Outcome(Now(), err) == Pointer(old(Now()))
    {
      var b;
      err, b, inp := ReadFull(inp, 5);
      if err.Some? {
        return;
      }
      assert b[1..3] == old(inp)[1..3] && b[3..5] == old(inp)[3..5];
      sink := sink + [PointerEvent(ReadU16(b[1..3]), ReadU16(b[3..5]), b[0])];
    }

    method ReadClientCutText() returns (err: Option<Error>)
      modifies this`inp
      ensures Outcome(Now(), err) == CutText(old(Now()))
    {
      var head;
      err, head, inp := ReadFull(inp, 7);
      if err.Some? {
        return;
      }
      assert head[3..7] == old(inp)[3..7];
      err, inp := DiscardBytes(inp, ReadU32(head[3..7]));
    }

    // The switch of the loop on a message's type byte.
    method Dispatch(typ: Byte) returns (err: Option<Error>)
      modifies this
      ensures err == Message(screen, typ, old(Now())).err
      ensures err != Some(Abort) ==> Now() == Message(screen, typ, old(Now())).s
    {
      match typ
      case 0 =>
        err := ReadSetPixelFormat();
      case 2 =>
        err := ReadSetEncodings();
      case 3 =>
        var incremental;
        err, incremental := ReadFBUR();
        if err.None? {
          err := SendFramebufferUpdate(incremental);
        }
      case 4 =>
        err := ReadKeyEvent();
      case 5 =>
        err := ReadPointerEvent();
      case 6 =>
        err := ReadClientCutText();
      case _ =>
        err := Some(UnknownType(typ));
    }

    method Loop() returns (err: Option<Error>)
      modifies this
      ensures err == Serve(screen, old(Now())).err
      ensures err != Some(Abort) ==> Now() == Serve(screen, old(Now())).s
    {
      ghost var goal := Serve(screen, Now());
      while true
        invariant Serve(screen, Now()) == goal
        decreases |inp|
      {
        ghost var before := Now();
        var typ;
        err, typ, inp := ReadFull(inp, 1);
        if err.Some? {
          if err == Some(EOF) {
            err := None;
          }
          return;
        }
        assert Now() == before.(inp := before.inp[1..]);
        err := Dispatch(typ[0]);
        if err.Some? {
          return;
        }
      }
    }
  }

  // Rectangle i of the rest of an update.
  lemma RectsHead(pf: PixelFormat, img: Frame, rects: seq<Rect>, i: nat, out: seq<Byte>)
    requires i < |rects| && AllWithin(rects[i..], img.width, img.height)
    ensures AllWithin(rects[i + 1..], img.width, img.height) && rects[i].Within(img.width, img.height)
    ensures var r := rects[i];
      out + RectsBytes(pf, img, rects[i..])
      == out + RectHeader(r) + ([] + RectBytes(pf, img, r.x0, r.y0, r.Dx(), r.Dy()))
         + RectsBytes(pf, img, rects[i + 1..])
  {
    var r := rects[i];
    assert rects[i..][0] == r && rects[i..][1..] == rects[i + 1..];
    var now, later := rects[i..], rects[i + 1..];
    forall k | 0 <= k < |later| ensures later[k].Within(img.width, img.height) {
      assert later[k] == now[k + 1];
    }
    var h, d, t := RectHeader(r), RectBytes(pf, img, r.x0, r.y0, r.Dx(), r.Dy()), RectsBytes(pf, img, rects[i + 1..]);
    assert [] + d == d;
    Assoc(out, h, d);
    Assoc(out, h + d, t);
  }
}
