// The messages byte by byte (section 7.5 of RFC 6143), for any values of the bytes.
module Wire {
  import opened Bytes
  import opened Pixel
  import opened Server
  import C = Client
  import H = Handshake
  import P = Protocol

  function Word(a: Byte, b: Byte): Word16 {
    256 * (a as int) + b
  }

  function LongWord(a: Byte, b: Byte, c: Byte, d: Byte): Word32 {
    0x100_0000 * (a as int) + 0x1_0000 * (b as int) + 256 * (c as int) + d
  }

  // ---- What the host makes of any bytes ----

  // The host's loop goes on behind the message as if it had started there in state t.
  ghost predicate Becomes(screen: Capture, s: State, message: seq<Byte>, rest: seq<Byte>, t: State) {
    Serve(screen, s.(inp := message + rest)) == Serve(screen, t.(inp := rest))
  }

  lemma Followed(screen: Capture, s: State, typ: Byte, body: seq<Byte>, rest: seq<Byte>, t: State)
    requires Message(screen, typ, s.(inp := body + rest)) == Outcome(t.(inp := rest), None)
    ensures Becomes(screen, s, [typ] + body, rest, t)
  {
    hide Message;
    var inp := [typ] + body + rest;
    assert inp[0] == typ && inp[1..] == body + rest;
    assert s.(inp := inp).(inp := inp[1..]) == s.(inp := body + rest);
  }

  // Any flag but zero means that the key is down.
  lemma KeyBytes(screen: Capture, s: State, f: Byte, p: Byte, q: Byte, a: Byte, b: Byte, c: Byte, d: Byte,
                 rest: seq<Byte>)
    ensures Becomes(screen, s, [4, f, p, q, a, b, c, d], rest,
                    s.(sink := s.sink + [KeyEvent(LongWord(a, b, c, d), f != 0)]))
  {
    var body := [f, p, q, a, b, c, d];
    assert [4] + body == [4, f, p, q, a, b, c, d];
    hide Serve, Becomes;
    assert (body + rest)[3..7] == [a, b, c, d] && (body + rest)[7..] == rest;
    assert ReadU32([a, b, c, d]) == LongWord(a, b, c, d);
    Followed(screen, s, 4, body, rest, s.(sink := s.sink + [KeyEvent(LongWord(a, b, c, d), f != 0)]));
  }

  lemma PointerBytes(screen: Capture, s: State, m: Byte, a: Byte, b: Byte, c: Byte, d: Byte, rest: seq<Byte>)
    ensures Becomes(screen, s, [5, m, a, b, c, d], rest,
                    s.(sink := s.sink + [PointerEvent(Word(a, b), Word(c, d), m)]))
  {
    var body := [m, a, b, c, d];
    assert [5] + body == [5, m, a, b, c, d];
    hide Serve, Becomes;
    assert (body + rest)[1..3] == [a, b] && (body + rest)[3..5] == [c, d] && (body + rest)[5..] == rest;
    Followed(screen, s, 5, body, rest, s.(sink := s.sink + [PointerEvent(Word(a, b), Word(c, d), m)]));
  }

  // Any flag but zero means an incremental request; the region is not looked at.
  lemma RequestBytes(screen: Capture, s: State, f: Byte, region: seq<Byte>, rest: seq<Byte>)
    requires |region| == 8 && Send(screen, s, f != 0).err == None
    ensures Becomes(screen, s, [3, f] + region, rest, Send(screen, s, f != 0).s)
  {
    var body := [f] + region;
    assert [3] + body == [3, f] + region;
    hide Serve, Becomes;
    assert (body + rest)[9..] == rest && (body + rest)[0] == f;
    SendAnywhere(screen, s, rest, f != 0);
    Followed(screen, s, 3, body, rest, Send(screen, s, f != 0).s);
  }

  lemma SendAnywhere(screen: Capture, s: State, inp: seq<Byte>, incremental: bool)
    ensures var r := Send(screen, s, incremental);
      Send(screen, s.(inp := inp), incremental) == Outcome(r.s.(inp := inp), r.err)
  {
  }

  lemma ReadsFields(b: seq<Byte>)
    requires |b| == 16
    ensures ReadFormat(b) == PixelFormat(b[0], b[1], b[2], b[3], Word(b[4], b[5]), Word(b[6], b[7]), Word(b[8], b[9]),
                                         b[10], b[11], b[12])
  {
    assert b[4..6] == [b[4], b[5]] && b[6..8] == [b[6], b[7]] && b[8..10] == [b[8], b[9]];
  }

  // The sixteen bytes of a format in their places, behind three of padding and before three more.
  lemma FormatBytes(screen: Capture, s: State, p: seq<Byte>, b: seq<Byte>, rest: seq<Byte>)
    requires |p| == 3 && |b| == 16
    ensures Becomes(screen, s, [0] + p + b, rest, s.(pf := PixelFormat(
                      b[0], b[1], b[2], b[3], Word(b[4], b[5]), Word(b[6], b[7]), Word(b[8], b[9]),
                      b[10], b[11], b[12])))
  {
    var body := p + b;
    assert [0] + body == [0] + p + b;
    hide Serve, Becomes;
    assert (body + rest)[3..19] == b && (body + rest)[19..] == rest;
    ReadsFields(b);
    hide ReadFormat;
    Followed(screen, s, 0, body, rest, s.(pf := ReadFormat(b)));
  }

  // Four bytes for each encoding and one for each character, none of them looked at.
  lemma EncodingBytes(screen: Capture, s: State, p: Byte, a: Byte, b: Byte, list: seq<Byte>, rest: seq<Byte>)
    requires |list| == 4 * Word(a, b)
    ensures Becomes(screen, s, [2] + ([p, a, b] + list), rest, s)
  {
    var body := [p, a, b] + list;
    hide Serve, Becomes;
    assert (body + rest)[1..3] == [a, b] && (body + rest)[3..][|list|..] == rest;
    Followed(screen, s, 2, body, rest, s);
  }

  lemma TextBytes(screen: Capture, s: State, p: seq<Byte>, a: Byte, b: Byte, c: Byte, d: Byte, text: seq<Byte>,
                  rest: seq<Byte>)
    requires |p| == 3 && |text| == LongWord(a, b, c, d)
    ensures Becomes(screen, s, [6] + (p + [a, b, c, d] + text), rest, s)
  {
    var body := p + [a, b, c, d] + text;
    hide Serve, Becomes;
    assert (body + rest)[3..7] == [a, b, c, d] && (body + rest)[7..][|text|..] == rest;
    assert ReadU32([a, b, c, d]) == LongWord(a, b, c, d);
    Followed(screen, s, 6, body, rest, s);
  }

  // ---- What the viewer prints ----

  lemma PrintedFormat(pf: PixelFormat)
    ensures P.Print(P.SetPixelFormat(pf))
         == [0, 0, 0, 0, pf.bitsPerPixel, pf.depth, pf.bigEndian, pf.trueColor,
             pf.redMax / 256, pf.redMax % 256, pf.greenMax / 256, pf.greenMax % 256, pf.blueMax / 256, pf.blueMax % 256,
             pf.redShift, pf.greenShift, pf.blueShift, 0, 0, 0]
  {
  }

  lemma PrintedInput(x: Word16, y: Word16, buttons: Byte, keysym: Word32, down: bool)
    ensures P.Print(P.Pointer(x, y, buttons)) == [5, buttons, x / 256, x % 256, y / 256, y % 256]
    ensures P.Print(P.Key(keysym, down))
         == [4, if down then 1 else 0, 0, 0,
             keysym / 0x100_0000, keysym / 0x1_0000 % 256, keysym / 256 % 256, keysym % 256]
  {
  }

  lemma PrintedRequest(m: P.ClientMsg)
    requires m.UpdateRequest?
    ensures P.Print(m)
         == [3, if m.incremental then 1 else 0, m.x / 256, m.x % 256, m.y / 256, m.y % 256,
             m.width / 256, m.width % 256, m.height / 256, m.height % 256]
  {
  }

  // ---- The encodings this viewer asks for ----

  // They are exactly those it decodes.
  lemma OwnEncodingsDecoded(w0: nat, v: C.View, e: int)
    requires |v.inp| >= 12
    ensures C.Rectangle(w0, v).err == Some(UnsupportedEncoding(e))
       <==> e == Signed32(ReadU32(v.inp[8..12])) && e !in H.OWN_ENCODINGS.encodings
  {
    assert v.inp[..12][8..12] == v.inp[8..12];
    var hdr, rest := v.inp[..12], v.(inp := v.inp[12..]);
    RowsSupported(rest, C.RowStart(4 * w0, ReadU16(hdr[..2]), ReadU16(hdr[2..4])), 4 * w0, ReadU16(hdr[4..6]),
                  ReadU16(hdr[6..8]));
  }

  lemma {:induction false} RowsSupported(v: C.View, off: nat, stride: nat, w: nat, n: nat)
    ensures var r := C.RawRows(v, off, stride, w, n); r.err.Some? ==> !r.err.value.UnsupportedEncoding?
    decreases n
  {
    if n > 0 && |v.inp| >= 4 * w {
      var pix := C.Overwrite(v.pix, off, C.Swizzle(v.inp[..4 * w], w));
      C.FirstRawRow(v, off, stride, w, n);
      hide C.RawRows, C.Overwrite, C.Swizzle;
      RowsSupported(v.(inp := v.inp[4 * w..], pix := pix), off + stride, stride, w, n - 1);
    }
  }
}
