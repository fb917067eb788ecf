// The viewer's printers against the host's parsers, over whole streams.
module Sessions {
  import opened Bytes
  import opened Images
  import opened DiffSize
  import opened Parsing
  import opened Pixel
  import opened Protocol
  import opened Server
  import V = Viewer
  import M = Mirror
  import C = Client

  // What a message should do to the host.
  ghost function Effect(screen: Capture, s: State, m: ClientMsg): (r: Outcome)
    ensures r.s.inp == s.inp
  {
    match m
    case SetPixelFormat(pf) => Outcome(s.(pf := pf), None)
    case UpdateRequest(incremental, _, _, _, _) => Send(screen, s, incremental)
    case Pointer(x, y, buttons) => Outcome(s.(sink := s.sink + [PointerEvent(x, y, buttons)]), None)
    case Key(keysym, down) => Outcome(s.(sink := s.sink + [KeyEvent(keysym, down)]), None)
    case SetEncodings(_) | ClientCutText(_) => Outcome(s, None)
  }

  // What a stream holds behind its first message.
  function Behind(b: seq<Byte>): seq<Byte> {
    if b == [] then [] else ParseBody(b[0], b[1..]).rest
  }

  // The messages' effects one after the other, up to the first that fails.
  ghost function Effects(screen: Capture, s: State, ms: seq<ClientMsg>): Outcome
    decreases |ms|
  {
    if ms == [] then Outcome(s, None)
    else
      var r := Effect(screen, s.(inp := Behind(s.inp)), ms[0]);
      if r.err.Some? then r else Effects(screen, r.s, ms[1..])
  }

  // The host treats the front of any stream as the reader of messages does.
  ghost predicate Agrees(screen: Capture, typ: Byte, s: State) {
    match ParseBody(typ, s.inp)
    case One(m, rest) => Message(screen, typ, s) == Effect(screen, s.(inp := rest), m)
    case Stuck(err, rest) => Message(screen, typ, s) == Outcome(s.(inp := rest), Some(err))
  }

  lemma Skipped(b: seq<Byte>, head: nat, n: nat)
    requires head <= |b|
    ensures |b| - head >= n ==> b[head..][n..] == b[head + n..]
  {
  }

  lemma BodyAgrees(screen: Capture, typ: Byte, s: State)
    ensures Agrees(screen, typ, s)
  {
    if typ == 2 || typ == 6 { SkippingAgrees(screen, typ, s); } else { ReadingAgrees(screen, typ, s); }
  }

  lemma SkippingAgrees(screen: Capture, typ: Byte, s: State)
    requires typ == 2 || typ == 6
    ensures Agrees(screen, typ, s)
  {
    hide ReadU16, ReadU32, ReadEncodings;
    var b := s.inp;
    if typ == 2 && |b| >= 3 { Skipped(b, 3, ReadU16(b[1..3]) * 4); }
    if typ == 6 && |b| >= 7 { Skipped(b, 7, ReadU32(b[3..7])); }
  }

  lemma ReadingAgrees(screen: Capture, typ: Byte, s: State)
    requires typ != 2 && typ != 6
    ensures Agrees(screen, typ, s)
  {
    hide ReadU16, ReadU32, ReadFormat, Send;
  }

  // The host takes each printed message for what it is and stops right behind it.
  lemma MessageRoundTrip(screen: Capture, s: State, m: ClientMsg, rest: seq<Byte>)
    requires Printable(m)
    ensures Message(screen, Print(m)[0], s.(inp := Print(m)[1..] + rest)) == Effect(screen, s.(inp := rest), m)
  {
    MessageRead(m, rest);
    BodyAgrees(screen, Print(m)[0], s.(inp := Print(m)[1..] + rest));
    hide Message, Effect, ParseBody, Print;
  }

  lemma ServeStuck(screen: Capture, s: State)
    requires s.inp != [] && ParseBody(s.inp[0], s.inp[1..]).Stuck?
    ensures var p := ParseBody(s.inp[0], s.inp[1..]);
      Serve(screen, s) == Outcome(s.(inp := p.rest), Some(p.err))
  {
    BodyAgrees(screen, s.inp[0], s.(inp := s.inp[1..]));
  }

  lemma ServeOne(screen: Capture, s: State)
    requires s.inp != [] && ParseBody(s.inp[0], s.inp[1..]).One?
    ensures var r := Effect(screen, s.(inp := Behind(s.inp)), ParseBody(s.inp[0], s.inp[1..]).m);
      Serve(screen, s) == if r.err.Some? then r else Serve(screen, r.s)
  {
    BodyAgrees(screen, s.inp[0], s.(inp := s.inp[1..]));
  }

  // The outcome of serving the messages of a stream, or else what ends the stream.
  ghost function Outcomes(screen: Capture, s: State): Outcome {
    var p := Parse(s.inp);
    var o := Effects(screen, s, p.ms);
    if o.err.Some? then o else Outcome(o.s.(inp := p.rest), p.err)
  }

  // For every byte stream whatever the host's loop has exactly the effects of the messages in it, in
  // order and up to the first failure, and otherwise stops where and as the reader of messages does.
  lemma {:induction false} StreamServed(screen: Capture, s: State)
    ensures Serve(screen, s) == Outcomes(screen, s)
    decreases |s.inp|
  {
    hide Effect, ParseBody, Serve;
    if s.inp == [] {
      ServeNothing(screen, s);
    } else if ParseBody(s.inp[0], s.inp[1..]).Stuck? {
      ServeStuck(screen, s);
    } else {
      ServeOne(screen, s);
      var p := ParseBody(s.inp[0], s.inp[1..]);
      var r := Effect(screen, s.(inp := Behind(s.inp)), p.m);
      var ms := Parse(p.rest).ms;
      assert ([p.m] + ms)[1..] == ms;
      if r.err.None? { StreamServed(screen, r.s); }
    }
  }

  lemma ServeNothing(screen: Capture, s: State)
    requires s.inp == []
    ensures Serve(screen, s) == Outcome(s, None)
  {
  }

  // For every sequence of messages the host's loop, run on their concatenated bytes, has exactly
  // their effects in order, consumes every byte and ends cleanly, or stops at the first failure.
  lemma StreamRoundTrip(screen: Capture, s: State, ms: seq<ClientMsg>)
    requires s.inp == PrintAll(ms) && forall k :: 0 <= k < |ms| ==> Printable(ms[k])
    ensures var o := Effects(screen, s, ms);
      Serve(screen, s) == if o.err.Some? then o else Outcome(o.s.(inp := []), None)
  {
    ParsePrinted(ms);
    StreamServed(screen, s);
  }

  // A longer encoding list is cut short by its count: the host stops behind it exactly when it fits.
  lemma EncodingsFit(s: State, e: seq<Int32>)
    ensures var r := Server.SetEncodings(s.(inp := Print(Protocol.SetEncodings(e))[1..]));
      r.err == None && (r.s.inp == [] <==> |e| <= 0xFFFF)
  {
    var inp := Print(Protocol.SetEncodings(e))[1..];
    assert inp == [0] + U16(|e|) + PrintEncodings(e);
    assert inp[1..3] == U16(|e|) && inp[3..] == PrintEncodings(e);
  }

  // ---- A whole session ----

  // The format changes and the requests among the messages, each request with the capture that
  // answers it.
  function EventsOf(screen: seq<Frame>, shots: nat, ms: seq<ClientMsg>): seq<V.Event>
    requires shots + Requests(ms) <= |screen|
    decreases |ms|
  {
    if ms == [] then []
    else if ms[0].UpdateRequest? then
      [V.Request(ms[0].incremental, screen[shots])] + EventsOf(screen, shots + 1, ms[1..])
    else if ms[0].SetPixelFormat? then [V.SetFormat(ms[0].pf)] + EventsOf(screen, shots, ms[1..])
    else EventsOf(screen, shots, ms[1..])
  }

  function Requests(ms: seq<ClientMsg>): nat {
    if ms == [] then 0 else (if ms[0].UpdateRequest? then 1 else 0) + Requests(ms[1..])
  }

  // Captures that all succeed.
  function Captures(screen: seq<Frame>): Capture {
    seq(|screen|, k requires 0 <= k < |screen| => Some(screen[k]))
  }

  // What one message tells the input sink.
  function Told(m: ClientMsg): seq<SinkEvent> {
    match m
    case Pointer(x, y, buttons) => [PointerEvent(x, y, buttons)]
    case Key(keysym, down) => [KeyEvent(keysym, down)]
    case _ => []
  }

  // The input events among the messages.
  function SinkOf(ms: seq<ClientMsg>): seq<SinkEvent> {
    if ms == [] then [] else Told(ms[0]) + SinkOf(ms[1..])
  }

  // Messages that ask for legal formats only.
  ghost predicate LegalFormats(ms: seq<ClientMsg>) {
    forall k :: 0 <= k < |ms| ==> ms[k].SetPixelFormat? ==> Legal(ms[k].pf)
  }

  lemma LegalFormatsTail(ms: seq<ClientMsg>)
    requires LegalFormats(ms) && ms != []
    ensures LegalFormats(ms[1..])
    ensures ms[0].SetPixelFormat? ==> Legal(ms[0].pf)
  {
    assert forall k :: 0 <= k < |ms[1..]| ==> ms[1..][k] == ms[k + 1];
  }

  // What one message makes the host write.
  ghost function Answer(s: State, m: ClientMsg, shot: Frame): seq<Byte> {
    if m.UpdateRequest? then UpdateFor(s.pf, s.prev, shot, m.incremental) else []
  }

  lemma RequestFacts(screen: seq<Frame>, s: State, m: ClientMsg)
    requires Legal(s.pf) && m.UpdateRequest? && s.shots < |screen|
    ensures var shot := screen[s.shots];
      Effect(Captures(screen), s, m)
      == Outcome(s.(shots := s.shots + 1, prev := Some(shot), out := s.out + Answer(s, m, shot)), None)
  {
    LegalBits(s.pf);
  }

  lemma OtherFacts(screen: Capture, s: State, m: ClientMsg)
    requires !m.UpdateRequest?
    ensures var r := Effect(screen, s, m);
      && r.err == None && r.s.(sink := s.sink, pf := s.pf) == s && r.s.sink == s.sink + Told(m)
      && r.s.pf == if m.SetPixelFormat? then m.pf else s.pf
  {
  }

  lemma HostBytesHead(pf: PixelFormat, prev: Option<Frame>, e: V.Event, later: seq<V.Event>)
    ensures V.HostBytes(pf, prev, [e] + later)
         == if e.SetFormat? then V.HostBytes(e.pf, prev, later)
            else UpdateFor(pf, prev, e.shot, e.incremental) + V.HostBytes(pf, Some(e.shot), later)
  {
    assert ([e] + later)[1..] == later;
  }

  lemma EffectsStep(screen: Capture, s: State, ms: seq<ClientMsg>)
    requires ms != [] && Effect(screen, s.(inp := Behind(s.inp)), ms[0]).err == None
    ensures Effects(screen, s, ms) == Effects(screen, Effect(screen, s.(inp := Behind(s.inp)), ms[0]).s, ms[1..])
  {
  }

  // What the host should have written, passed on and counted when it has served the messages.
  ghost predicate ServesAll(screen: seq<Frame>, s: State, ms: seq<ClientMsg>, o: Outcome)
    requires s.shots + Requests(ms) <= |screen|
  {
    && o.err == None && o.s.shots == s.shots + Requests(ms) && o.s.sink == s.sink + SinkOf(ms)
    && o.s.out == s.out + V.HostBytes(s.pf, s.prev, EventsOf(screen, s.shots, ms))
  }

  lemma RequestFirst(screen: seq<Frame>, s: State, next: State, ms: seq<ClientMsg>, o: Outcome)
    requires ms != [] && ms[0].UpdateRequest? && s.shots + Requests(ms) <= |screen|
    requires next.shots == s.shots + 1 && next.prev == Some(screen[s.shots]) && next.pf == s.pf && next.sink == s.sink
    requires next.out == s.out + Answer(s, ms[0], screen[s.shots])
    requires ServesAll(screen, next, ms[1..], o)
    ensures ServesAll(screen, s, ms, o)
  {
    RequestBytes(screen, s, ms);
    RequestTellsNothing(ms);
    hide V.HostBytes, UpdateFor, EventsOf, SinkOf;
    var shot := screen[s.shots];
    Assoc(s.out, Answer(s, ms[0], shot), V.HostBytes(s.pf, Some(shot), EventsOf(screen, s.shots + 1, ms[1..])));
  }

  lemma RequestTellsNothing(ms: seq<ClientMsg>)
    requires ms != [] && ms[0].UpdateRequest?
    ensures SinkOf(ms) == SinkOf(ms[1..])
  {
    assert [] + SinkOf(ms[1..]) == SinkOf(ms[1..]);
  }

  lemma RequestBytes(screen: seq<Frame>, s: State, ms: seq<ClientMsg>)
    requires ms != [] && ms[0].UpdateRequest? && s.shots + Requests(ms) <= |screen|
    ensures var shot := screen[s.shots];
      V.HostBytes(s.pf, s.prev, EventsOf(screen, s.shots, ms))
      == UpdateFor(s.pf, s.prev, shot, ms[0].incremental)
         + V.HostBytes(s.pf, Some(shot), EventsOf(screen, s.shots + 1, ms[1..]))
  {
    RequestHead(screen, s.shots, ms);
    HostBytesHead(s.pf, s.prev, V.Request(ms[0].incremental, screen[s.shots]), EventsOf(screen, s.shots + 1, ms[1..]));
  }

  lemma RequestHead(screen: seq<Frame>, shots: nat, ms: seq<ClientMsg>)
    requires ms != [] && ms[0].UpdateRequest? && shots + Requests(ms) <= |screen|
    ensures EventsOf(screen, shots, ms)
         == [V.Request(ms[0].incremental, screen[shots])] + EventsOf(screen, shots + 1, ms[1..])
  {
  }

  lemma OtherFirst(screen: seq<Frame>, s: State, next: State, ms: seq<ClientMsg>, o: Outcome)
    requires ms != [] && !ms[0].UpdateRequest? && s.shots + Requests(ms) <= |screen|
    requires next.shots == s.shots && next.prev == s.prev && next.out == s.out && next.sink == s.sink + Told(ms[0])
    requires next.pf == if ms[0].SetPixelFormat? then ms[0].pf else s.pf
    requires ServesAll(screen, next, ms[1..], o)
    ensures ServesAll(screen, s, ms, o)
  {
    Assoc(s.sink, Told(ms[0]), SinkOf(ms[1..]));
    if ms[0].SetPixelFormat? {
      HostBytesHead(s.pf, s.prev, V.SetFormat(ms[0].pf), EventsOf(screen, s.shots, ms[1..]));
    }
  }

  lemma {:induction false} EffectsWrite(screen: seq<Frame>, s: State, ms: seq<ClientMsg>)
    requires Legal(s.pf) && LegalFormats(ms) && s.shots + Requests(ms) <= |screen|
    ensures ServesAll(screen, s, ms, Effects(Captures(screen), s, ms))
    decreases |ms|
  {
    if ms == [] {
      assert s.out + [] == s.out && s.sink + [] == s.sink;
    } else {
      var m, rest := ms[0], s.(inp := Behind(s.inp));
      var next := Effect(Captures(screen), rest, m).s;
      LegalFormatsTail(ms);
      if m.UpdateRequest? { RequestFacts(screen, rest, m); } else { OtherFacts(Captures(screen), rest, m); }
      EffectsStep(Captures(screen), s, ms);
      EffectsWrite(screen, next, ms[1..]);
      var o := Effects(Captures(screen), s, ms);
      if m.UpdateRequest? { RequestFirst(screen, s, next, ms, o); } else { OtherFirst(screen, s, next, ms, o); }
    }
  }

  // For every byte stream whose messages ask for legal formats and no more captures than there are,
  // the host's loop writes the answer to each request in the format asked for last, passes on the
  // input events in order, and stops where and as the stream does.
  lemma HostServes(screen: seq<Frame>, stream: seq<Byte>)
    requires Requests(Parse(stream).ms) <= |screen| && LegalFormats(Parse(stream).ms)
    ensures var (host, p) := (Serve(Captures(screen), Start(stream)), Parse(stream));
      && host.err == p.err && host.s.inp == p.rest && host.s.shots == Requests(p.ms) && host.s.sink == SinkOf(p.ms)
      && host.s.out == V.HostBytes(DefaultFormat(), None, EventsOf(screen, 0, p.ms))
  {
    var s, ms := Start(stream), Parse(stream).ms;
    DefaultLegal();
    StreamServed(Captures(screen), s);
    EffectsWrite(screen, s, ms);
    hide Effects, V.HostBytes, EventsOf, SinkOf, Requests, LegalFormats, Parse;
    var b, sink := V.HostBytes(DefaultFormat(), None, EventsOf(screen, 0, ms)), SinkOf(ms);
    assert [] + b == b && [] + sink == sink;
  }

  lemma {:induction false} EventFacts(screen: seq<Frame>, shots: nat, ms: seq<ClientMsg>, prev: Option<Frame>,
                                      w: nat, h: nat)
    requires shots + Requests(ms) <= |screen| && LegalFormats(ms)
    requires forall k :: 0 <= k < |screen| ==> screen[k].width == w && screen[k].height == h
    ensures var e := EventsOf(screen, shots, ms);
      && V.LegalRun(w, h, e)
      && V.LastShot(prev, e) == if Requests(ms) == 0 then prev else Some(screen[shots + Requests(ms) - 1])
    decreases |ms|
  {
    if ms != [] {
      LegalFormatsTail(ms);
      var request := ms[0].UpdateRequest?;
      var shots', prev' := if request then shots + 1 else shots, if request then Some(screen[shots]) else prev;
      EventFacts(screen, shots', ms[1..], prev', w, h);
      hide V.LegalRun, V.LastShot, LegalFormats;
      var later := EventsOf(screen, shots', ms[1..]);
      if request {
        EventFirst(w, h, prev, V.Request(ms[0].incremental, screen[shots]), later);
      } else if ms[0].SetPixelFormat? {
        EventFirst(w, h, prev, V.SetFormat(ms[0].pf), later);
      }
    }
  }

  lemma EventFirst(w: nat, h: nat, prev: Option<Frame>, e: V.Event, later: seq<V.Event>)
    requires V.LegalRun(w, h, later)
    requires if e.SetFormat? then Legal(e.pf) else e.shot.width == w && e.shot.height == h
    ensures V.LegalRun(w, h, [e] + later)
    ensures V.LastShot(prev, [e] + later) == V.LastShot(if e.Request? then Some(e.shot) else prev, later)
  {
    assert ([e] + later)[1..] == later;
  }

  // The viewer that follows the events reads these bytes to the end and shows the capture's pixel,
  // quantised under the format in force when its tile was last sent.
  ghost predicate ShowsAt(e: seq<V.Event>, bytes: seq<Byte>, shot: Frame, w: nat, h: nat, x: nat, y: nat)
    requires V.LegalRun(w, h, e) && x < w && y < h
  {
    var got := V.Watch(DefaultFormat(), [], e, bytes);
    && shot.width == w && shot.height == h
    && got.Some? && got.value.rest == []
    && V.ShowsPixel(got.value.rects, Some(shot), x, y, V.SentUnder(DefaultFormat(), None, e, w, h, x, y, None))
  }

  lemma RunShown(e: seq<V.Event>, w: Word16, h: Word16, x: nat, y: nat)
    requires V.LegalRun(w, h, e) && V.LastShot(None, e).Some? && MaxRects(w, h) <= 0xFFFF && x < w && y < h
    ensures ShowsAt(e, V.HostBytes(DefaultFormat(), None, e), V.LastShot(None, e).value, w, h, x, y)
  {
    DefaultLegal();
    V.Replication(w, h, DefaultFormat(), None, [], e, [], x, y, None);
    var b := V.HostBytes(DefaultFormat(), None, e);
    assert b + [] == b;
  }

  // End to end with any viewer of the RFC: whatever bytes it sends, if the formats they ask for are
  // legal, the host stops where and as the messages in them do, the viewer reads the host's output to
  // its last byte, and each of its pixels is the last capture's, quantised under the format in force
  // when its tile was last sent.
  lemma AnyViewerEndToEnd(screen: seq<Frame>, stream: seq<Byte>, w: Word16, h: Word16, x: nat, y: nat)
    requires forall k :: 0 <= k < |screen| ==> screen[k].width == w && screen[k].height == h
    requires 0 < Requests(Parse(stream).ms) <= |screen| && LegalFormats(Parse(stream).ms)
    requires MaxRects(w, h) <= 0xFFFF && x < w && y < h
    ensures V.LegalRun(w, h, EventsOf(screen, 0, Parse(stream).ms))
    ensures var (host, p) := (Serve(Captures(screen), Start(stream)), Parse(stream));
      && host.err == p.err && host.s.inp == p.rest && host.s.sink == SinkOf(p.ms)
      && ShowsAt(EventsOf(screen, 0, p.ms), host.s.out, screen[Requests(p.ms) - 1], w, h, x, y)
  {
    var ms := Parse(stream).ms;
    HostServes(screen, stream);
    OutputShown(screen, ms, w, h, x, y, V.HostBytes(DefaultFormat(), None, EventsOf(screen, 0, ms)));
  }

  lemma OutputShown(screen: seq<Frame>, ms: seq<ClientMsg>, w: Word16, h: Word16, x: nat, y: nat, out: seq<Byte>)
    requires forall k :: 0 <= k < |screen| ==> screen[k].width == w && screen[k].height == h
    requires 0 < Requests(ms) <= |screen| && LegalFormats(ms) && MaxRects(w, h) <= 0xFFFF && x < w && y < h
    requires out == V.HostBytes(DefaultFormat(), None, EventsOf(screen, 0, ms))
    ensures V.LegalRun(w, h, EventsOf(screen, 0, ms))
    ensures ShowsAt(EventsOf(screen, 0, ms), out, screen[Requests(ms) - 1], w, h, x, y)
  {
    hide V.LegalRun, V.HostBytes, EventsOf, LegalFormats, ShowsAt, V.LastShot;
    EventFacts(screen, 0, ms, None, w, h);
    RunShown(EventsOf(screen, 0, ms), w, h, x, y);
  }

  // ---- This repository's client ----

  // Messages that ask for no format but the client's own.
  ghost predicate OwnFormat(ms: seq<ClientMsg>) {
    forall k :: 0 <= k < |ms| ==> Printable(ms[k]) && (ms[k].SetPixelFormat? ==> ms[k].pf == DefaultFormat())
  }

  lemma OwnIsLegal(ms: seq<ClientMsg>)
    requires OwnFormat(ms)
    ensures LegalFormats(ms)
  {
    DefaultLegal();
  }

  lemma OwnTail(ms: seq<ClientMsg>)
    requires OwnFormat(ms) && ms != []
    ensures OwnFormat(ms[1..]) && (ms[0].SetPixelFormat? ==> ms[0].pf == DefaultFormat())
  {
    assert forall k :: 0 <= k < |ms[1..]| ==> ms[1..][k] == ms[k + 1];
  }

  // The requests alone.
  function RequestsOf(screen: seq<Frame>, shots: nat, ms: seq<ClientMsg>): seq<V.Event>
    requires shots + Requests(ms) <= |screen|
    decreases |ms|
  {
    if ms == [] then []
    else if ms[0].UpdateRequest? then
      [V.Request(ms[0].incremental, screen[shots])] + RequestsOf(screen, shots + 1, ms[1..])
    else RequestsOf(screen, shots, ms[1..])
  }

  lemma SameHead(pf: PixelFormat, prev: Option<Frame>, e: V.Event, later: seq<V.Event>, later': seq<V.Event>)
    requires e.Request? && V.HostBytes(pf, Some(e.shot), later) == V.HostBytes(pf, Some(e.shot), later')
    ensures V.HostBytes(pf, prev, [e] + later) == V.HostBytes(pf, prev, [e] + later')
  {
    HostBytesHead(pf, prev, e, later);
    HostBytesHead(pf, prev, e, later');
  }

  // Asking again for the format in force changes nothing.
  lemma {:induction false} OwnBytes(screen: seq<Frame>, shots: nat, ms: seq<ClientMsg>, prev: Option<Frame>)
    requires shots + Requests(ms) <= |screen| && OwnFormat(ms)
    ensures V.HostBytes(DefaultFormat(), prev, EventsOf(screen, shots, ms))
         == V.HostBytes(DefaultFormat(), prev, RequestsOf(screen, shots, ms))
    decreases |ms|
  {
    if ms != [] {
      OwnTail(ms);
      if ms[0].UpdateRequest? {
        OwnBytes(screen, shots + 1, ms[1..], Some(screen[shots]));
        SameHead(DefaultFormat(), prev, V.Request(ms[0].incremental, screen[shots]),
                 EventsOf(screen, shots + 1, ms[1..]), RequestsOf(screen, shots + 1, ms[1..]));
      } else {
        OwnBytes(screen, shots, ms[1..], prev);
        if ms[0].SetPixelFormat? {
          HostBytesHead(DefaultFormat(), prev, V.SetFormat(ms[0].pf), EventsOf(screen, shots, ms[1..]));
        }
      }
    }
  }

  lemma {:induction false} RequestEvents(screen: seq<Frame>, shots: nat, ms: seq<ClientMsg>, prev: Option<Frame>,
                                         w: nat, h: nat)
    requires shots + Requests(ms) <= |screen|
    requires forall k :: 0 <= k < |screen| ==> screen[k].width == w && screen[k].height == h
    ensures var e := RequestsOf(screen, shots, ms);
      && |e| == Requests(ms) && M.RequestsOnly(w, h, e)
      && V.LastShot(prev, e) == if Requests(ms) == 0 then prev else Some(screen[shots + Requests(ms) - 1])
    decreases |ms|
  {
    if ms != [] {
      if ms[0].UpdateRequest? {
        RequestEvents(screen, shots + 1, ms[1..], Some(screen[shots]), w, h);
        assert RequestsOf(screen, shots, ms)[1..] == RequestsOf(screen, shots + 1, ms[1..]);
      } else {
        RequestEvents(screen, shots, ms[1..], prev, w, h);
      }
    }
  }

  // Both sides ended cleanly with nothing unread, the input sink was told exactly the client's input
  // events in order, the client completed one update for each request, and its framebuffer is the
  // last capture, opaque.
  ghost predicate Faithful(screen: seq<Frame>, ms: seq<ClientMsg>, w: nat, h: nat, host: Outcome, client: C.Outcome)
    requires forall k :: 0 <= k < |screen| ==> screen[k].width == w && screen[k].height == h
  {
    var n := Requests(ms);
    && host.err == None && host.s.inp == [] && host.s.sink == SinkOf(ms)
    && client.err == None && client.v.inp == [] && client.v.updates == n
    && |client.v.pix| == h * (4 * w)
    && (0 < n <= |screen| ==> M.Mirrors(w, h, client.v.pix, screen[n - 1]))
  }

  // End to end: whatever this client sends after the handshake, in any order, the host serves it
  // all and passes its input on, and the client fed with the host's output ends with the host's last capture.
  lemma SessionEndToEnd(screen: seq<Frame>, ms: seq<ClientMsg>, w: Word16, h: Word16, pix: seq<Byte>)
    requires forall k :: 0 <= k < |screen| ==> screen[k].width == w && screen[k].height == h
    requires Requests(ms) <= |screen| && OwnFormat(ms) && MaxRects(w, h) <= 0xFFFF && |pix| == h * (4 * w)
    ensures var host := Serve(Captures(screen), Start(PrintAll(ms)));
      Faithful(screen, ms, w, h, host, C.Decode(w, C.View(host.s.out, pix, 0)))
  {
    var host := Serve(Captures(screen), Start(PrintAll(ms)));
    var events := RequestsOf(screen, 0, ms);
    assert |events| == Requests(ms) && M.RequestsOnly(w, h, events) by { RequestEvents(screen, 0, ms, None, w, h); }
    assert V.LastShot(None, events) == if |events| == 0 then None else Some(screen[|events| - 1]) by {
      RequestEvents(screen, 0, ms, None, w, h);
    }
    OwnHost(screen, ms);
    ClientFollows(screen, ms, host, events, w, h, pix);
  }

  lemma OwnHost(screen: seq<Frame>, ms: seq<ClientMsg>)
    requires Requests(ms) <= |screen| && OwnFormat(ms)
    ensures var host := Serve(Captures(screen), Start(PrintAll(ms)));
      && host.err == None && host.s.inp == [] && host.s.sink == SinkOf(ms)
      && host.s.out == V.HostBytes(DefaultFormat(), None, RequestsOf(screen, 0, ms))
  {
    OwnIsLegal(ms);
    ParsePrinted(ms);
    HostServes(screen, PrintAll(ms));
    OwnBytes(screen, 0, ms, None);
  }

  lemma ClientFollows(screen: seq<Frame>, ms: seq<ClientMsg>, host: Outcome, e: seq<V.Event>, w: Word16, h: Word16,
                      pix: seq<Byte>)
    requires forall k :: 0 <= k < |screen| ==> screen[k].width == w && screen[k].height == h
    requires MaxRects(w, h) <= 0xFFFF && |pix| == h * (4 * w) && |e| == Requests(ms) <= |screen|
    requires M.RequestsOnly(w, h, e)
    requires host.err == None && host.s.inp == [] && host.s.sink == SinkOf(ms)
    requires host.s.out == V.HostBytes(DefaultFormat(), None, e)
    requires V.LastShot(None, e) == if |e| == 0 then None else Some(screen[|e| - 1])
    ensures Faithful(screen, ms, w, h, host, C.Decode(w, C.View(host.s.out, pix, 0)))
  {
    M.ClientReplication(w, h, None, e, pix, 0);
  }

  // ---- Pointers stay on the screen ----

  // Every pointer message was made for a w by h screen.
  ghost predicate PointersFor(w: nat, h: nat, ms: seq<ClientMsg>) {
    forall k :: 0 <= k < |ms| && ms[k].Pointer? ==> exists x, y :: ms[k] == PointerTo(w, h, x, y, ms[k].buttons)
  }

  predicate Inside(w: nat, h: nat, e: SinkEvent) {
    e.PointerEvent? ==> e.x < w && e.y < h
  }

  lemma {:induction false} SinkInside(w: nat, h: nat, ms: seq<ClientMsg>)
    requires 0 < w < 0x1_0000 && 0 < h < 0x1_0000 && PointersFor(w, h, ms)
    ensures forall k :: 0 <= k < |SinkOf(ms)| ==> Inside(w, h, SinkOf(ms)[k])
    decreases |ms|
  {
    if ms != [] {
      assert PointersFor(w, h, ms[1..]) by {
        assert forall k :: 0 <= k < |ms[1..]| ==> ms[1..][k] == ms[k + 1];
      }
      SinkInside(w, h, ms[1..]);
      if ms[0].Pointer? {
        var x, y :| ms[0] == PointerTo(w, h, x, y, ms[0].buttons);
        ClampNearest(x, w, 0);
        ClampNearest(y, h, 0);
      }
    }
  }

  // Wherever the viewer's user points, the host's pointer is only ever moved inside the screen.
  lemma HostPointsInside(screen: seq<Frame>, ms: seq<ClientMsg>, w: Word16, h: Word16)
    requires Requests(ms) <= |screen| && OwnFormat(ms) && 0 < w && 0 < h && PointersFor(w, h, ms)
    ensures var sink := Serve(Captures(screen), Start(PrintAll(ms))).s.sink;
      forall k :: 0 <= k < |sink| ==> Inside(w, h, sink[k])
  {
    OwnHost(screen, ms);
    SinkInside(w, h, ms);
  }
}
