// Any byte stream read as the viewer's messages, and printing undone by reading.
module Parsing {
  import opened Bytes
  import opened Pixel
  import opened Protocol

  // One message off the front of a stream, or the error that stops the reader; rest is then what
  // stays unread.
  datatype Parsed = One(m: ClientMsg, rest: seq<Byte>) | Stuck(err: Error, rest: seq<Byte>)

  // The messages of a stream, what ends it, and what stays unread.
  datatype Messages = Messages(ms: seq<ClientMsg>, err: Option<Error>, rest: seq<Byte>)

  function ParseFormat(b: seq<Byte>): Parsed {
    if |b| < 3 then Stuck(ShortRead(b), [])
    else if |b| < 19 then Stuck(ShortRead(b[3..]), [])
    else One(SetPixelFormat(ReadFormat(b[3..19])), b[19..])
  }

  function ReadEncodings(b: seq<Byte>, n: nat): (e: seq<Int32>)
    requires |b| == 4 * n
    ensures |e| == n
  {
    if n == 0 then [] else [Signed32(ReadU32(b[..4]))] + ReadEncodings(b[4..], n - 1)
  }

  // A skipped body that is too short is always a clean end.
  function ParseEncodings(b: seq<Byte>): Parsed {
    if |b| < 3 then Stuck(ShortRead(b), [])
    else
      var n := ReadU16(b[1..3]);
      if |b| < 3 + 4 * n then Stuck(EOF, []) else One(SetEncodings(ReadEncodings(b[3..3 + 4 * n], n)), b[3 + 4 * n..])
  }

  function ParseRequest(b: seq<Byte>): Parsed {
    if |b| < 9 then Stuck(ShortRead(b), [])
    else
      One(UpdateRequest(b[0] != 0, ReadU16(b[1..3]), ReadU16(b[3..5]), ReadU16(b[5..7]), ReadU16(b[7..9])), b[9..])
  }

  function ParseKey(b: seq<Byte>): Parsed {
    if |b| < 7 then Stuck(ShortRead(b), []) else One(Key(ReadU32(b[3..7]), b[0] != 0), b[7..])
  }

  function ParsePointer(b: seq<Byte>): Parsed {
    if |b| < 5 then Stuck(ShortRead(b), []) else One(Pointer(ReadU16(b[1..3]), ReadU16(b[3..5]), b[0]), b[5..])
  }

  function ParseText(b: seq<Byte>): Parsed {
    if |b| < 7 then Stuck(ShortRead(b), [])
    else
      var n := ReadU32(b[3..7]);
      if |b| < 7 + n then Stuck(EOF, []) else One(ClientCutText(b[7..7 + n]), b[7 + n..])
  }

  // What can end a stream.
  predicate EndOf(err: Error) {
    err == EOF || err == UnexpectedEOF || err.UnknownType?
  }

  // One message whose type byte has been read.
  function ParseBody(typ: Byte, b: seq<Byte>): (p: Parsed)
    ensures |p.rest| <= |b|
    ensures p.Stuck? ==> EndOf(p.err)
  {
    if typ == 0 then ParseFormat(b)
    else if typ == 2 then ParseEncodings(b)
    else if typ == 3 then ParseRequest(b)
    else if typ == 4 then ParseKey(b)
    else if typ == 5 then ParsePointer(b)
    else if typ == 6 then ParseText(b)
    else Stuck(UnknownType(typ), b)
  }

  // A stream that ends between two messages ends well.
  function Parse(b: seq<Byte>): (p: Messages)
    ensures p.err.Some? ==> EndOf(p.err.value)
    decreases |b|
  {
    if b == [] then Messages([], None, [])
    else
      match ParseBody(b[0], b[1..])
      case Stuck(err, rest) => Messages([], Some(err), rest)
      case One(m, rest) => var p := Parse(rest); Messages([m] + p.ms, p.err, p.rest)
  }

  // ---- Reading what was printed ----

  lemma FormatRead(pf: PixelFormat, rest: seq<Byte>)
    ensures ParseFormat(Print(SetPixelFormat(pf))[1..] + rest) == One(SetPixelFormat(pf), rest)
  {
    var b := Print(SetPixelFormat(pf))[1..] + rest;
    assert b == [0, 0, 0] + pf.Write() + rest;
    assert b[3..19] == pf.Write() && b[19..] == rest;
    FormatRoundTrip(pf);
  }

  lemma {:induction false} EncodingListRead(e: seq<Int32>)
    ensures ReadEncodings(PrintEncodings(e), |e|) == e
  {
    if e != [] {
      Prefix(U32(e[0]), PrintEncodings(e[1..]));
      EncodingListRead(e[1..]);
      assert [e[0]] + e[1..] == e;
    }
  }

  lemma EncodingsRead(e: seq<Int32>, rest: seq<Byte>)
    requires |e| <= 0xFFFF
    ensures ParseEncodings(Print(SetEncodings(e))[1..] + rest) == One(SetEncodings(e), rest)
  {
    EncodingListRead(e);
    var body := PrintEncodings(e);
    assert Print(SetEncodings(e))[1..] + rest == [0] + U16(|e|) + body + rest;
    EncodingsBehind(U16(|e|), e, body, rest);
  }

  lemma EncodingsBehind(count: seq<Byte>, e: seq<Int32>, body: seq<Byte>, rest: seq<Byte>)
    requires |count| == 2 && ReadU16(count) == |e|
    requires |body| == 4 * |e| && ReadEncodings(body, |e|) == e
    ensures ParseEncodings([0] + count + body + rest) == One(SetEncodings(e), rest)
  {
    hide ReadEncodings, ReadU16;
    var b := [0] + count + body + rest;
    assert b[1..3] == count && b[3..3 + |body|] == body && b[3 + |body|..] == rest;
  }

  lemma RequestRead(m: ClientMsg, rest: seq<Byte>)
    requires m.UpdateRequest?
    ensures ParseRequest(Print(m)[1..] + rest) == One(m, rest)
  {
    var b := Print(m)[1..] + rest;
    assert b == [Flag(m.incremental)] + U16(m.x) + U16(m.y) + U16(m.width) + U16(m.height) + rest;
    assert b[1..3] == U16(m.x) && b[3..5] == U16(m.y);
    assert b[5..7] == U16(m.width) && b[7..9] == U16(m.height) && b[9..] == rest;
  }

  lemma PointerRead(m: ClientMsg, rest: seq<Byte>)
    requires m.Pointer?
    ensures ParsePointer(Print(m)[1..] + rest) == One(m, rest)
  {
    var b := Print(m)[1..] + rest;
    assert b == [m.buttons] + U16(m.x) + U16(m.y) + rest;
    assert b[1..3] == U16(m.x) && b[3..5] == U16(m.y) && b[5..] == rest;
  }

  lemma KeyRead(m: ClientMsg, rest: seq<Byte>)
    requires m.Key?
    ensures ParseKey(Print(m)[1..] + rest) == One(m, rest)
  {
    var b := Print(m)[1..] + rest;
    assert b == [Flag(m.down), 0, 0] + U32(m.keysym) + rest;
    assert b[3..7] == U32(m.keysym) && b[7..] == rest;
  }

  lemma TextRead(text: seq<Byte>, rest: seq<Byte>)
    requires |text| <= 0xFFFF_FFFF
    ensures ParseText(Print(ClientCutText(text))[1..] + rest) == One(ClientCutText(text), rest)
  {
    var b := Print(ClientCutText(text))[1..] + rest;
    assert b == [0, 0, 0] + U32(|text|) + text + rest;
    assert b[3..7] == U32(|text|) && b[7..7 + |text|] == text && b[7 + |text|..] == rest;
  }

  lemma MessageRead(m: ClientMsg, rest: seq<Byte>)
    requires Printable(m)
    ensures ParseBody(Print(m)[0], Print(m)[1..] + rest) == One(m, rest)
  {
    match m
    case SetPixelFormat(pf) => FormatRead(pf, rest);
    case SetEncodings(e) => EncodingsRead(e, rest);
    case UpdateRequest(_, _, _, _, _) => RequestRead(m, rest);
    case Pointer(_, _, _) => PointerRead(m, rest);
    case Key(_, _) => KeyRead(m, rest);
    case ClientCutText(text) => TextRead(text, rest);
  }

  lemma ParseFirst(m: ClientMsg, rest: seq<Byte>)
    requires Printable(m)
    ensures var p := Parse(rest); Parse(Print(m) + rest) == Messages([m] + p.ms, p.err, p.rest)
  {
    MessageRead(m, rest);
    hide ParseBody, Print, Printable;
    ParseFront(Print(m), m, rest);
  }

  lemma ParseFront(a: seq<Byte>, m: ClientMsg, rest: seq<Byte>)
    requires a != [] && ParseBody(a[0], a[1..] + rest) == One(m, rest)
    ensures var p := Parse(rest); Parse(a + rest) == Messages([m] + p.ms, p.err, p.rest)
  {
    hide ParseBody;
    assert (a + rest)[0] == a[0] && (a + rest)[1..] == a[1..] + rest;
  }

  // Every sequence of messages is read back from its bytes, with nothing left over.
  lemma {:induction false} ParsePrinted(ms: seq<ClientMsg>)
    requires forall k :: 0 <= k < |ms| ==> Printable(ms[k])
    ensures Parse(PrintAll(ms)) == Messages(ms, None, [])
    decreases |ms|
  {
    if ms != [] {
      var m, rest := ms[0], PrintAll(ms[1..]);
      ParsePrinted(ms[1..]);
      ParseFirst(m, rest);
      hide Parse, Print, Printable;
      assert [m] + ms[1..] == ms;
    }
  }
}
