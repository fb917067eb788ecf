// A viewer of the RFC that may change its pixel format, and what it shows after any run.
module Viewer {
  import opened Bytes
  import opened Images
  import opened DiffFacts
  import opened DiffSize
  import opened Pixel
  import opened Encoding
  import opened Server

  // A raw rectangle as received, with the format it was decoded in.
  datatype Painted = Painted(pf: PixelFormat, r: Rect, data: seq<Byte>)

  datatype Sample = Sample(pf: PixelFormat, colour: Colour)

  // The pixel at (x, y) of a received rectangle.
  function SampleAt(p: Painted, x: int, y: int): Option<Sample>
    requires p.r.Contains(x, y)
  {
    var bpp := p.pf.BytesPerPixel();
    var at := (y - p.r.y0) * (p.r.Dx() * bpp) + (x - p.r.x0) * bpp;
    if 0 <= at && at + bpp <= |p.data| then Some(Sample(p.pf, DecodePixel(p.pf, p.data[at..at + bpp]))) else None
  }

  // What the last rectangle over (x, y) put there.
  function Shown(painted: seq<Painted>, x: int, y: int): Option<Sample> {
    if painted == [] then None
    else
      var last := painted[|painted| - 1];
      if last.r.Contains(x, y) then SampleAt(last, x, y) else Shown(painted[..|painted| - 1], x, y)
  }

  datatype Received = Received(rects: seq<Painted>, rest: seq<Byte>)

  // The bytes of w by h pixels.
  function PayloadSize(pf: PixelFormat, w: nat, h: nat): nat {
    var row: nat := w * pf.BytesPerPixel();
    h * row
  }

  // n raw rectangles in format pf, each a 12-byte header and its pixels.
  function ParseRects(pf: PixelFormat, inp: seq<Byte>, n: nat): Option<Received>
    decreases n
  {
    if n == 0 then Some(Received([], inp))
    else if |inp| < 12 || ReadU32(inp[8..12]) != 0 then None
    else
      var x, y, w, h: nat := ReadU16(inp[..2]), ReadU16(inp[2..4]), ReadU16(inp[4..6]), ReadU16(inp[6..8]);
      var size := PayloadSize(pf, w, h);
      var body := inp[12..];
      if |body| < size then None
      else
        match ParseRects(pf, body[size..], n - 1)
        case None => None
        case Some(more) =>
          Some(Received([Painted(pf, Rect(x, y, x + w, y + h), body[..size])] + more.rects, more.rest))
  }

  function ParseUpdate(pf: PixelFormat, inp: seq<Byte>): Option<Received> {
    if |inp| < 4 || inp[0] != 0 then None else ParseRects(pf, inp[4..], ReadU16(inp[2..4]))
  }

  // The rectangles of an update as the viewer should receive them.
  function Sent(pf: PixelFormat, img: Frame, rects: seq<Rect>): seq<Painted>
    requires AllWithin(rects, img.width, img.height)
  {
    seq(|rects|, k requires 0 <= k < |rects| =>
      assert rects[k].Within(img.width, img.height);
      Painted(pf, rects[k], RectBytes(pf, img, rects[k].x0, rects[k].y0, rects[k].Dx(), rects[k].Dy())))
  }

  lemma HeaderFields(r: Rect, w: Word16, h: Word16, rest: seq<Byte>)
    requires r.Within(w, h)
    ensures var b := RectHeader(r) + rest;
      && ReadU16(b[..2]) == r.x0 && ReadU16(b[2..4]) == r.y0
      && ReadU16(b[4..6]) == r.Dx() && ReadU16(b[6..8]) == r.Dy() && ReadU32(b[8..12]) == 0
      && b[12..] == rest && |b| >= 12
  {
    var hdr, b := RectHeader(r), RectHeader(r) + rest;
    HeaderValues(r, w, h);
    assert b[..2] == hdr[..2] && b[2..4] == hdr[2..4] && b[4..6] == hdr[4..6];
    assert b[6..8] == hdr[6..8] && b[8..12] == hdr[8..12];
  }

  lemma ParseOne(pf: PixelFormat, r: Rect, w: Word16, h: Word16, data: seq<Byte>, more: seq<Byte>, n: nat)
    requires r.Within(w, h) && |data| == r.Dy() * (r.Dx() * pf.BytesPerPixel())
    requires n > 0 && ParseRects(pf, more, n - 1).Some?
    ensures var later := ParseRects(pf, more, n - 1).value;
      ParseRects(pf, RectHeader(r) + (data + more), n)
      == Some(Received([Painted(pf, r, data)] + later.rects, later.rest))
  {
    HeaderFields(r, w, h, data + more);
    Prefix(data, more);
  }

  lemma {:induction false} RectsRoundTrip(pf: PixelFormat, img: Frame, rects: seq<Rect>, rest: seq<Byte>)
    requires AllWithin(rects, img.width, img.height) && img.width <= 0xFFFF && img.height <= 0xFFFF
    ensures ParseRects(pf, RectsBytes(pf, img, rects) + rest, |rects|) == Some(Received(Sent(pf, img, rects), rest))
  {
    if rects == [] {
      assert Sent(pf, img, rects) == [];
      assert RectsBytes(pf, img, rects) + rest == rest;
    } else {
      var r, tail := rects[0], rects[1..];
      assert r.Within(img.width, img.height);
      var data := RectBytes(pf, img, r.x0, r.y0, r.Dx(), r.Dy());
      var more := RectsBytes(pf, img, tail);
      assert RectsBytes(pf, img, rects) + rest == RectHeader(r) + (data + (more + rest)) by {
        Assoc(RectHeader(r), data, more);
        Assoc(RectHeader(r), data + more, rest);
        Assoc(data, more, rest);
      }
      PayloadLength(pf, img, r);
      RectsRoundTrip(pf, img, tail, rest);
      ParseOne(pf, r, img.width, img.height, data, more + rest, |rects|);
      SentHead(pf, img, rects);
    }
  }

  lemma SentHead(pf: PixelFormat, img: Frame, rects: seq<Rect>)
    requires AllWithin(rects, img.width, img.height) && rects != []
    ensures rects[0].Within(img.width, img.height) && AllWithin(rects[1..], img.width, img.height)
    ensures var r := rects[0];
      Sent(pf, img, rects)
      == [Painted(pf, r, RectBytes(pf, img, r.x0, r.y0, r.Dx(), r.Dy()))] + Sent(pf, img, rects[1..])
  {
  }

  // Framing: whatever follows, the viewer reads exactly the rectangles and the bytes of one update.
  lemma UpdateRoundTrip(pf: PixelFormat, img: Frame, rects: seq<Rect>, rest: seq<Byte>)
    requires AllWithin(rects, img.width, img.height) && img.width <= 0xFFFF && img.height <= 0xFFFF
    requires |rects| <= 0xFFFF
    ensures ParseUpdate(pf, UpdateBytes(pf, img, rects) + rest) == Some(Received(Sent(pf, img, rects), rest))
  {
    var body := RectsBytes(pf, img, rects) + rest;
    Assoc([0, 0] + U16(|rects|), RectsBytes(pf, img, rects), rest);
    UpdateHeader(|rects|, body);
    RectsRoundTrip(pf, img, rects, rest);
  }

  lemma UpdateHeader(n: Word16, body: seq<Byte>)
    ensures var b := [0, 0] + U16(n) + body;
      |b| >= 4 && b[0] == 0 && ReadU16(b[2..4]) == n && b[4..] == body
  {
    assert ([0, 0] + U16(n) + body)[2..4] == U16(n);
  }

  // Where the pixel (x, y) sits in the data of its rectangle.
  lemma SentAt(pf: PixelFormat, img: Frame, r: Rect, x: int, y: int, data: seq<Byte>) returns (at: nat)
    requires r.Within(img.width, img.height) && r.Contains(x, y)
    requires data == RectBytes(pf, img, r.x0, r.y0, r.Dx(), r.Dy())
    ensures at == (y - r.y0) * (r.Dx() * pf.BytesPerPixel()) + (x - r.x0) * pf.BytesPerPixel()
    ensures at + pf.BytesPerPixel() <= |data| && data[at..at + pf.BytesPerPixel()] == EncodePixel(pf, img.At(x, y))
  {
    RectPosition(pf, img, r.x0, r.y0, r.Dx(), r.Dy(), x - r.x0, y - r.y0);
    at := (y - r.y0) * (r.Dx() * pf.BytesPerPixel()) + (x - r.x0) * pf.BytesPerPixel();
  }

  // A received rectangle shows the frame's pixel, scaled to the format.
  lemma SentPixel(pf: PixelFormat, img: Frame, r: Rect, x: int, y: int)
    requires r.Within(img.width, img.height) && r.Contains(x, y)
    requires DecodePixel(pf, EncodePixel(pf, img.At(x, y))) == Quantised(pf, img.At(x, y))
    ensures SampleAt(Painted(pf, r, RectBytes(pf, img, r.x0, r.y0, r.Dx(), r.Dy())), x, y)
         == Some(Sample(pf, Quantised(pf, img.At(x, y))))
  {
    var data := RectBytes(pf, img, r.x0, r.y0, r.Dx(), r.Dy());
    var at := SentAt(pf, img, r, x, y, data);
    SampleOf(Painted(pf, r, data), x, y, at, EncodePixel(pf, img.At(x, y)));
  }

  lemma SampleOf(p: Painted, x: int, y: int, at: int, b: seq<Byte>)
    requires p.r.Contains(x, y)
    requires at == (y - p.r.y0) * (p.r.Dx() * p.pf.BytesPerPixel()) + (x - p.r.x0) * p.pf.BytesPerPixel()
    requires 0 <= at && at + p.pf.BytesPerPixel() <= |p.data| && p.data[at..at + p.pf.BytesPerPixel()] == b
    ensures SampleAt(p, x, y) == Some(Sample(p.pf, DecodePixel(p.pf, b)))
  {
  }

  lemma SentLast(pf: PixelFormat, img: Frame, rects: seq<Rect>, r: Rect)
    requires AllWithin(rects + [r], img.width, img.height)
    ensures AllWithin(rects, img.width, img.height) && r.Within(img.width, img.height)
    ensures Sent(pf, img, rects + [r])
         == Sent(pf, img, rects) + [Painted(pf, r, RectBytes(pf, img, r.x0, r.y0, r.Dx(), r.Dy()))]
  {
    assert (rects + [r])[|rects|] == r;
    forall k | 0 <= k < |rects| ensures rects[k].Within(img.width, img.height) { assert (rects + [r])[k] == rects[k]; }
  }

  lemma ShownLast(painted: seq<Painted>, last: Painted, x: int, y: int)
    ensures Shown(painted + [last], x, y)
         == if last.r.Contains(x, y) then SampleAt(last, x, y) else Shown(painted, x, y)
  {
    assert (painted + [last])[..|painted|] == painted;
  }

  lemma CoveredLast(rects: seq<Rect>, r: Rect, x: int, y: int)
    ensures Covered(rects + [r], x, y) <==> Covered(rects, x, y) || r.Contains(x, y)
  {
    CoveredConcat(rects, [r], x, y);
    if r.Contains(x, y) { assert [r][0].Contains(x, y); }
  }

  lemma {:induction false} ShownAfter(was: seq<Painted>, pf: PixelFormat, img: Frame, rects: seq<Rect>, x: int, y: int)
    requires Legal(pf) && AllWithin(rects, img.width, img.height) && 0 <= x < img.width && 0 <= y < img.height
    ensures Shown(was + Sent(pf, img, rects), x, y)
         == if Covered(rects, x, y) then Some(Sample(pf, Quantised(pf, img.At(x, y)))) else Shown(was, x, y)
  {
    PixelRoundTrip(pf, img.At(x, y));
    if rects == [] {
      assert was + Sent(pf, img, rects) == was;
    } else {
      var init, r := rects[..|rects| - 1], rects[|rects| - 1];
      assert rects == init + [r];
      SentLast(pf, img, init, r);
      var last := Painted(pf, r, RectBytes(pf, img, r.x0, r.y0, r.Dx(), r.Dy()));
      Assoc(was, Sent(pf, img, init), [last]);
      ShownLast(was + Sent(pf, img, init), last, x, y);
      CoveredLast(init, r, x, y);
      if r.Contains(x, y) { SentPixel(pf, img, r, x, y); } else { ShownAfter(was, pf, img, init, x, y); }
    }
  }

  // ---- Runs ----

  datatype Event = SetFormat(pf: PixelFormat) | Request(incremental: bool, shot: Frame)

  // Everything the host writes over a run.
  ghost function HostBytes(pf: PixelFormat, prev: Option<Frame>, events: seq<Event>): seq<Byte>
    decreases |events|
  {
    if events == [] then []
    else
      match events[0]
      case SetFormat(p) => HostBytes(p, prev, events[1..])
      case Request(inc, shot) => UpdateFor(pf, prev, shot, inc) + HostBytes(pf, Some(shot), events[1..])
  }

  // The viewer decodes the answer to each of its requests in the format it asked for last.
  function Watch(pf: PixelFormat, painted: seq<Painted>, events: seq<Event>, inp: seq<Byte>): Option<Received>
    decreases |events|
  {
    if events == [] then Some(Received(painted, inp))
    else
      match events[0]
      case SetFormat(p) => Watch(p, painted, events[1..], inp)
      case Request(_, _) =>
        match ParseUpdate(pf, inp)
        case None => None
        case Some(got) => Watch(pf, painted + got.rects, events[1..], got.rest)
  }

  function LastShot(prev: Option<Frame>, events: seq<Event>): Option<Frame>
    decreases |events|
  {
    if events == [] then prev
    else LastShot(if events[0].Request? then Some(events[0].shot) else prev, events[1..])
  }

  // An update carries the pixel: everything is sent, or the pixel's tile changed.
  ghost predicate Carries(prev: Option<Frame>, incremental: bool, shot: Frame, x: int, y: int)
    requires 0 <= x < shot.width && 0 <= y < shot.height
  {
    !incremental || prev.None? || (SameSize(prev.value, shot) ==> DirtyAt(prev.value, shot, x, y))
  }

  ghost predicate LegalRun(w: nat, h: nat, events: seq<Event>) {
    forall k :: 0 <= k < |events| ==>
      match events[k]
      case SetFormat(p) => Legal(p)
      case Request(_, shot) => shot.width == w && shot.height == h
  }

  // The format in force when the pixel's tile was last sent.
  ghost function SentUnder(pf: PixelFormat, prev: Option<Frame>, events: seq<Event>,
                           w: nat, h: nat, x: int, y: int, before: Option<PixelFormat>): Option<PixelFormat>
    requires LegalRun(w, h, events) && 0 <= x < w && 0 <= y < h
    decreases |events|
  {
    if events == [] then before
    else
      LegalTail(w, h, events);
      match events[0]
      case SetFormat(p) => SentUnder(p, prev, events[1..], w, h, x, y, before)
      case Request(inc, shot) =>
        SentUnder(pf, Some(shot), events[1..], w, h, x, y, if Carries(prev, inc, shot, x, y) then Some(pf) else before)
  }

  lemma LegalTail(w: nat, h: nat, events: seq<Event>)
    requires LegalRun(w, h, events) && events != []
    ensures LegalRun(w, h, events[1..])
    ensures match events[0]
      case SetFormat(p) => Legal(p)
      case Request(_, shot) => shot.width == w && shot.height == h
  {
    assert forall k :: 0 <= k < |events[1..]| ==> events[1..][k] == events[k + 1];
  }

  // An update carries a pixel if and only if everything is sent, the size has changed, or the pixel's
  // tile has.
  lemma ChosenCover(prev: Option<Frame>, shot: Frame, incremental: bool, x: int, y: int)
    requires 0 <= x < shot.width && 0 <= y < shot.height
    ensures Covered(ChosenRects(prev, shot, incremental), x, y) <==> Carries(prev, incremental, shot, x, y)
  {
    if !incremental || prev.None? || !SameSize(prev.value, shot) {
      assert ChosenRects(prev, shot, incremental)[0].Contains(x, y);
    } else {
      DirtyExact(prev.value, shot);
    }
  }

  lemma ChosenCount(prev: Option<Frame>, shot: Frame, incremental: bool)
    requires MaxRects(shot.width, shot.height) <= 0xFFFF
    ensures |ChosenRects(prev, shot, incremental)| <= 0xFFFF
  {
    if incremental && prev.Some? && SameSize(prev.value, shot) { CountBound(prev.value, shot); }
  }

  // The viewer shows the host's last frame, each pixel as quantised by the format recorded for it.
  ghost predicate ShowsPixel(painted: seq<Painted>, prev: Option<Frame>, x: int, y: int, f: Option<PixelFormat>)
    requires prev.Some? ==> 0 <= x < prev.value.width && 0 <= y < prev.value.height
  {
    prev.Some? ==>
      && f.Some?
      && Shown(painted, x, y) == Some(Sample(f.value, Quantised(f.value, prev.value.At(x, y))))
  }

  // A pixel that an update does not carry is the same in both frames.
  lemma Untouched(prev: Frame, shot: Frame, x: int, y: int)
    requires SameSize(prev, shot) && 0 <= x < shot.width && 0 <= y < shot.height
    requires !DirtyAt(prev, shot, x, y)
    ensures prev.At(x, y) == shot.At(x, y)
  {
  }

  // One update: the viewer reads it whole and shows the new frame.
  lemma OneUpdate(pf: PixelFormat, prev: Option<Frame>, painted: seq<Painted>, inc: bool, shot: Frame,
                  later: seq<Byte>, x: int, y: int, f: Option<PixelFormat>)
    requires Legal(pf) && shot.width <= 0xFFFF && shot.height <= 0xFFFF && MaxRects(shot.width, shot.height) <= 0xFFFF
    requires prev.Some? ==> SameSize(prev.value, shot)
    requires 0 <= x < shot.width && 0 <= y < shot.height && ShowsPixel(painted, prev, x, y, f)
    ensures var got := ParseUpdate(pf, UpdateFor(pf, prev, shot, inc) + later);
      && got.Some? && got.value.rest == later
      && ShowsPixel(painted + got.value.rects, Some(shot), x, y, if Carries(prev, inc, shot, x, y) then Some(pf) else f)
  {
    var rects := ChosenRects(prev, shot, inc);
    ChosenWithin(prev, shot, inc);
    ChosenCount(prev, shot, inc);
    UpdateRoundTrip(pf, shot, rects, later);
    ShownAfter(painted, pf, shot, rects, x, y);
    ChosenCover(prev, shot, inc, x, y);
    if !Carries(prev, inc, shot, x, y) { Untouched(prev.value, shot, x, y); }
  }

  // Over every run of legal format changes, full or incremental requests and captures of one size,
  // the viewer reads every update to its last byte, and afterwards each of its pixels is the last
  // capture's pixel quantised under the format in force when its tile was last sent.
  lemma {:induction false} Replication(w: nat, h: nat, pf: PixelFormat, prev: Option<Frame>, painted: seq<Painted>,
                                       events: seq<Event>, rest: seq<Byte>, x: int, y: int, f: Option<PixelFormat>)
    requires Legal(pf) && LegalRun(w, h, events) && 0 <= x < w && 0 <= y < h
    requires w <= 0xFFFF && h <= 0xFFFF && MaxRects(w, h) <= 0xFFFF
    requires prev.Some? ==> prev.value.width == w && prev.value.height == h
    requires ShowsPixel(painted, prev, x, y, f)
    ensures var got := Watch(pf, painted, events, HostBytes(pf, prev, events) + rest);
      && got.Some? && got.value.rest == rest
      && var last := LastShot(prev, events);
      && (last.Some? ==> last.value.width == w && last.value.height == h)
      && ShowsPixel(got.value.rects, last, x, y, SentUnder(pf, prev, events, w, h, x, y, f))
    decreases |events|
  {
    if events == [] {
      assert HostBytes(pf, prev, events) + rest == rest;
    } else {
      LegalTail(w, h, events);
      match events[0]
      case SetFormat(p) =>
        Replication(w, h, p, prev, painted, events[1..], rest, x, y, f);
      case Request(inc, shot) =>
        var later := HostBytes(pf, Some(shot), events[1..]);
        Assoc(UpdateFor(pf, prev, shot, inc), later, rest);
        OneUpdate(pf, prev, painted, inc, shot, later + rest, x, y, f);
        var got := ParseUpdate(pf, UpdateFor(pf, prev, shot, inc) + (later + rest)).value;
        Replication(w, h, pf, Some(shot), painted + got.rects, events[1..], rest, x, y,
                    if Carries(prev, inc, shot, x, y) then Some(pf) else f);
    }
  }
}
