// The two handshakes as programs of writes and exact-length reads (sections 7.1 to 7.3 of RFC 6143),
// and the methods that carry them out.
module Handshake {
  import opened Bytes
  import opened Streams
  import opened Pixel
  import opened Protocol
  import opened Auth

  // "RFB 003.008\n"
  const VERSION: seq<Byte> := [82, 70, 66, 32, 48, 48, 51, 46, 48, 48, 56, 10]

  // "authentication failed"
  const REASON: seq<Byte> :=
    [97, 117, 116, 104, 101, 110, 116, 105, 99, 97, 116, 105, 111, 110, 32, 102, 97, 105, 108, 101, 100]

  type Name = n: seq<Byte> | |n| < 0x1_0000_0000

  datatype HostConfig = HostConfig(password: seq<Byte>, challenge: Challenge, width: nat, height: nat, name: Name)

  // What a program does next.
  datatype Act = Write(bytes: seq<Byte>) | Read(n: nat) | Stop(err: Option<Error>)

  // ---- The host ----

  datatype HostPc =
    | HostVersion
    | HostHearVersion
    | Offer
    | HearChoice
    | SendChallenge
    | HearResponse
    | Result(ok: bool)
    | HearInit
    | ServerInit
    | HostDone
    | HostFailed(err: Error)

  function ResultBytes(ok: bool): seq<Byte> {
    if ok then U32(0) else U32(1) + U32(21) + REASON
  }

  function InitBytes(h: HostConfig): seq<Byte> {
    U16(h.width) + U16(h.height) + DefaultFormat().Write() + U32(|h.name|) + h.name
  }

  function HostAct(h: HostConfig, pc: HostPc): Act {
    match pc
    case HostVersion => Write(VERSION)
    case HostHearVersion => Read(12)
    case Offer => Write([1, if h.password != [] then 2 else 1])
    case HearChoice => Read(1)
    case SendChallenge => Write(h.challenge)
    case HearResponse => Read(16)
    case Result(ok) => Write(ResultBytes(ok))
    case HearInit => Read(1)
    case ServerInit => Write(InitBytes(h))
    case HostDone => Stop(None)
    case HostFailed(err) => Stop(Some(err))
  }

  // The next place; b is what was read, if anything.
  function HostAfter(des: Cipher, h: HostConfig, pc: HostPc, b: seq<Byte>): HostPc
    requires HostAct(h, pc).Read? ==> |b| == HostAct(h, pc).n
  {
    match pc
    case HostVersion => HostHearVersion
    case HostHearVersion => Offer
    case Offer => HearChoice
    case HearChoice =>
      if h.password == [] then Result(true)
      else if b[0] != 2 then HostFailed(UnsupportedSecurity(b[0]))
      else SendChallenge
    case SendChallenge => HearResponse
    case HearResponse => Result(b == Response(des, h.challenge, h.password))
    case Result(ok) => if ok then HearInit else HostFailed(AuthFailed)
    case HearInit => ServerInit
    case ServerInit => HostDone
    case _ => pc
  }

  function HostRank(pc: HostPc): nat {
    match pc
    case HostVersion => 9
    case HostHearVersion => 8
    case Offer => 7
    case HearChoice => 6
    case SendChallenge => 5
    case HearResponse => 4
    case Result(_) => 3
    case HearInit => 2
    case ServerInit => 1
    case _ => 0
  }

  // ---- The viewer ----

  datatype ViewerPc =
    | HearVersion
    | ViewerVersion
    | HearCount
    | HearRefusalLength
    | HearRefusal(l: nat)
    | HearTypes(n: nat)
    | Choose(t: Byte)
    | HearChallenge
    | Respond(c: Challenge)
    | HearResult
    | HearReasonLength
    | HearReason(l: nat)
    | ClientInit
    | HearDims
    | HearFormat
    | HearNameLength
    | HearName(l: nat)
    | SendFormat
    | SendEncodings
    | ViewerDone
    | ViewerFailed(err: Error)
  {
    // readString gives up quietly when the stream ends.
    predicate Lenient() {
      HearRefusalLength? || HearRefusal? || HearReasonLength? || HearReason? || HearNameLength? || HearName?
    }
  }

  datatype Size = Size(width: Word16, height: Word16)

  // The 32-bit format the viewer asks for, and the encodings it can decode.
  const OWN_FORMAT: ClientMsg := ClientMsg.SetPixelFormat(DefaultFormat())
  const OWN_ENCODINGS: ClientMsg := ClientMsg.SetEncodings([1, 0])

  function ViewerAct(des: Cipher, password: seq<Byte>, pc: ViewerPc): Act {
    match pc
    case HearVersion => Read(12)
    case ViewerVersion => Write(VERSION)
    case HearCount => Read(1)
    case HearRefusalLength => Read(4)
    case HearRefusal(l) => Read(l)
    case HearTypes(n) => Read(n)
    case Choose(t) => Write([t])
    case HearChallenge => Read(16)
    case Respond(c) => Write(Response(des, c, password))
    case HearResult => Read(4)
    case HearReasonLength => Read(4)
    case HearReason(l) => Read(l)
    case ClientInit => Write([1])
    case HearDims => Read(4)
    case HearFormat => Read(16)
    case HearNameLength => Read(4)
    case HearName(l) => Read(l)
    case SendFormat => Write(Print(OWN_FORMAT))
    case SendEncodings => Write(Print(OWN_ENCODINGS))
    case ViewerDone => Stop(None)
    case ViewerFailed(err) => Stop(Some(err))
  }

  // No authentication is preferred over VNC authentication.
  function Chosen(types: seq<Byte>): ViewerPc {
    if 1 in types then Choose(1) else if 2 in types then Choose(2) else ViewerFailed(UnsupportedSecurity(0))
  }

  function ViewerAfter(des: Cipher, password: seq<Byte>, pc: ViewerPc, b: seq<Byte>): ViewerPc
    requires ViewerAct(des, password, pc).Read? ==> |b| == ViewerAct(des, password, pc).n
  {
    match pc
    case HearVersion => ViewerVersion
    case ViewerVersion => HearCount
    case HearCount => if b[0] == 0 then HearRefusalLength else HearTypes(b[0])
    case HearRefusalLength => HearRefusal(ReadU32(b))
    case HearRefusal(_) => ViewerFailed(Refused)
    case HearTypes(_) => Chosen(b)
    case Choose(t) => if t == 1 then HearResult else HearChallenge
    case HearChallenge => Respond(b)
    case Respond(_) => HearResult
    case HearResult => if ReadU32(b) != 0 then HearReasonLength else ClientInit
    case HearReasonLength => HearReason(ReadU32(b))
    case HearReason(_) => ViewerFailed(AuthFailed)
    case ClientInit => HearDims
    case HearDims => HearFormat
    case HearFormat => HearNameLength
    case HearNameLength => HearName(ReadU32(b))
    case HearName(_) => SendFormat
    case SendFormat => SendEncodings
    case SendEncodings => ViewerDone
    case _ => pc
  }

  // The size is set when the dimensions are read.
  function SizeAfter(pc: ViewerPc, b: seq<Byte>, size: Option<Size>): Option<Size>
    requires pc.HearDims? ==> |b| == 4
  {
    if pc.HearDims? then Some(Size(ReadU16(b[..2]), ReadU16(b[2..4]))) else size
  }

  // Where a lenient read goes on when the stream ends too early.
  function ViewerShort(pc: ViewerPc): ViewerPc
    requires pc.Lenient()
  {
    if pc.HearNameLength? || pc.HearName? then SendFormat
    else if pc.HearReasonLength? || pc.HearReason? then ViewerFailed(AuthFailed)
    else ViewerFailed(Refused)
  }

  function ViewerRank(pc: ViewerPc): nat {
    match pc
    case HearVersion => 16
    case ViewerVersion => 15
    case HearCount => 14
    case HearRefusalLength => 13
    case HearRefusal(_) => 12
    case HearTypes(_) => 13
    case Choose(_) => 12
    case HearChallenge => 11
    case Respond(_) => 10
    case HearResult => 9
    case HearReasonLength => 8
    case HearReason(_) => 7
    case ClientInit => 8
    case HearDims => 7
    case HearFormat => 6
    case HearNameLength => 5
    case HearName(_) => 4
    case SendFormat => 3
    case SendEncodings => 2
    case _ => 0
  }

  // ---- One side alone, on a stream that ends ----

  datatype HostTalk = HostTalk(inp: seq<Byte>, out: seq<Byte>, err: Option<Error>)

  function HostRuns(des: Cipher, h: HostConfig, pc: HostPc, inp: seq<Byte>, out: seq<Byte>): HostTalk
    decreases HostRank(pc)
  {
    match HostAct(h, pc)
    case Stop(err) => HostTalk(inp, out, err)
    case Write(b) => HostRuns(des, h, HostAfter(des, h, pc, []), inp, out + b)
    case Read(n) =>
      if |inp| < n then HostTalk([], out, Some(ShortRead(inp)))
      else HostRuns(des, h, HostAfter(des, h, pc, inp[..n]), inp[n..], out)
  }

  datatype ViewerTalk = ViewerTalk(inp: seq<Byte>, out: seq<Byte>, size: Option<Size>, err: Option<Error>)

  function ViewerRuns(des: Cipher, password: seq<Byte>, pc: ViewerPc, inp: seq<Byte>, out: seq<Byte>,
                      size: Option<Size>): ViewerTalk
    decreases ViewerRank(pc)
  {
    match ViewerAct(des, password, pc)
    case Stop(err) => ViewerTalk(inp, out, size, err)
    case Write(b) => ViewerRuns(des, password, ViewerAfter(des, password, pc, []), inp, out + b, size)
    case Read(n) =>
      if |inp| < n then
        if pc.Lenient() then ViewerRuns(des, password, ViewerShort(pc), [], out, size)
        else ViewerTalk([], out, size, Some(ShortRead(inp)))
      else
        ViewerRuns(des, password, ViewerAfter(des, password, pc, inp[..n]), inp[n..], out,
                   SizeAfter(pc, inp[..n], size))
  }

  class HostSide {
    var inp: seq<Byte>
    var out: seq<Byte>

    constructor (inp: seq<Byte>)
      ensures this.inp == inp && out == []
    {
      this.inp, out := inp, [];
    }

    method Send(b: seq<Byte>)
      modifies this`out
      ensures out == old(out) + b
    {
      out := out + b;
    }

    method SendSecurityResult(ok: bool)
      modifies this`out
      ensures out == old(out) + ResultBytes(ok)
    {
      ghost var start := out;
      var code := 1;
      if ok {
        code := 0;
      }
      Send(U32(code));
      if !ok {
        Send(U32(|REASON|));
        Send(REASON);
        assert out == start + (U32(1) + U32(21) + REASON);
      }
    }

    method SecurityNone(des: Cipher, h: HostConfig) returns (err: Option<Error>)
      requires h.password == []
      modifies this
      ensures var whole := HostRuns(des, h, Offer, old(inp), old(out));
        if err.None? then whole == HostRuns(des, h, HearInit, inp, out) else whole == HostTalk(inp, out, err)
    {
      Send([1, 1]);
      var sel;
      err, sel, inp := ReadFull(inp, 1);
      if err.Some? {
        return;
      }
      SendSecurityResult(true);
    }

    // The challenge, the response and the verdict.
    method Challenge(des: Cipher, h: HostConfig) returns (err: Option<Error>)
      modifies this
      ensures var whole := HostRuns(des, h, SendChallenge, old(inp), old(out));
        if err.None? then whole == HostRuns(des, h, HearInit, inp, out) else whole == HostTalk(inp, out, err)
    {
      ghost var whole := HostRuns(des, h, SendChallenge, inp, out);
      hide Response, ResultBytes, InitBytes;
      Send(h.challenge);
      assert whole == HostRuns(des, h, HearResponse, inp, out);
      var response;
      err, response, inp := ReadFull(inp, 16);
      if err.Some? {
        return;
      }
      AnswersOnly(des, h.challenge, h.password, response);
      var ok := CheckVncAuth(des, h.challenge, response, h.password);
      assert whole == HostRuns(des, h, Result(ok), inp, out);
      SendSecurityResult(ok);
      if !ok {
        return Some(AuthFailed);
      }
    }

    method SecurityVncAuth(des: Cipher, h: HostConfig) returns (err: Option<Error>)
      requires h.password != []
      modifies this
      ensures var whole := HostRuns(des, h, Offer, old(inp), old(out));
        if err.None? then whole == HostRuns(des, h, HearInit, inp, out) else whole == HostTalk(inp, out, err)
    {
      ghost var whole := HostRuns(des, h, Offer, inp, out);
      Send([1, 2]);
      var sel;
      err, sel, inp := ReadFull(inp, 1);
      if err.Some? {
        return;
      }
      if sel[0] != 2 {
        return Some(UnsupportedSecurity(sel[0]));
      }
      assert whole == HostRuns(des, h, SendChallenge, inp, out);
      err := Challenge(des, h);
    }

    // The end of the handshake: ClientInit is read and ServerInit sent.
    method Initialise(des: Cipher, h: HostConfig) returns (err: Option<Error>)
      modifies this
      ensures HostTalk(inp, out, err) == HostRuns(des, h, HearInit, old(inp), old(out))
    {
      var b;
      err, b, inp := ReadFull(inp, 1);
      if err.Some? {
        return;
      }
      ghost var start := out;
      Send(U16(h.width) + U16(h.height));
      Send(DefaultFormat().Write());
      Send(U32(|h.name|));
      Send(h.name);
      assert out == start + InitBytes(h);
    }

    // The start: the versions are exchanged.
    method Greet(des: Cipher, h: HostConfig) returns (err: Option<Error>)
      modifies this
      ensures var whole := HostRuns(des, h, HostVersion, old(inp), old(out));
        if err.None? then whole == HostRuns(des, h, Offer, inp, out) else whole == HostTalk(inp, out, err)
    {
      Send(VERSION);
      var b;
      err, b, inp := ReadFull(inp, 12);
    }

    method Handshake(des: Cipher, h: HostConfig) returns (err: Option<Error>)
      modifies this
      ensures HostTalk(inp, out, err) == HostRuns(des, h, HostVersion, old(inp), old(out))
    {
      err := Greet(des, h);
      if err.Some? {
        return;
      }
      if h.password != [] {
        err := SecurityVncAuth(des, h);
      } else {
        err := SecurityNone(des, h);
      }
      if err.Some? {
        return;
      }
      err := Initialise(des, h);
    }
  }

  class ViewerSide {
    var inp: seq<Byte>
    var out: seq<Byte>
    var size: Option<Size>
    var pix: array<Byte>

    constructor (inp: seq<Byte>)
      ensures this.inp == inp && out == [] && size == None
    {
      this.inp, out, size := inp, [], None;
      pix := new Byte[0];
    }

    // The framebuffer has the size learned and is blank.
    ghost predicate Blank()
      reads this, pix
    {
      && size.Some? && pix.Length == size.value.height * (4 * size.value.width)
      && forall k :: 0 <= k < pix.Length ==> pix[k] == 0
    }

    method Send(b: seq<Byte>)
      modifies this`out
      ensures out == old(out) + b
    {
      out := out + b;
    }

    // A length and that many bytes; where the stream ends early the rest stays zero.
    method ReadString() returns (s: seq<Byte>)
      modifies this`inp
      ensures inp == AfterString(old(inp)) && s == StringOf(old(inp))
    {
      var err, b;
      err, b, inp := ReadFull(inp, 4);
      if err.Some? {
        return [];
      }
      LengthRead(old(inp));
      var l := ReadU32(b);
      var rest := inp;
      err, s, inp := ReadFull(inp, l);
      if err.Some? {
        s := rest + Zeros(l - |rest|);
      }
    }

    method Has(types: seq<Byte>, t: Byte) returns (found: bool)
      ensures found <==> t in types
    {
      var i := 0;
      while i < |types|
        invariant 0 <= i <= |types| && t !in types[..i]
      {
        if types[i] == t {
          return true;
        }
        i := i + 1;
      }
      return false;
    }

    method DoSecurity(des: Cipher, password: seq<Byte>, types: seq<Byte>) returns (err: Option<Error>)
      modifies this`inp, this`out
      ensures var whole := ViewerRuns(des, password, Chosen(types), old(inp), old(out), size);
        if err.None? then whole == ViewerRuns(des, password, HearResult, inp, out, size)
        else whole == ViewerTalk(inp, out, size, err)
    {
      var none := Has(types, 1);
      if none {
        ChoiceRuns(des, password, 1, inp, out, size);
        Send([1]);
        return None;
      }
      var vnc := Has(types, 2);
      if !vnc {
        return Some(UnsupportedSecurity(0));
      }
      ChoiceRuns(des, password, 2, inp, out, size);
      Send([2]);
      err := AnswerChallenge(des, password);
    }

    method AnswerChallenge(des: Cipher, password: seq<Byte>) returns (err: Option<Error>)
      modifies this`inp, this`out
      ensures var whole := ViewerRuns(des, password, HearChallenge, old(inp), old(out), size);
        if err.None? then whole == ViewerRuns(des, password, HearResult, inp, out, size)
        else whole == ViewerTalk(inp, out, size, err)
    {
      var challenge;
      err, challenge, inp := ReadFull(inp, 16);
      if err.Some? {
        return;
      }
      hide Response;
      ghost var answered := ViewerRuns(des, password, HearChallenge, old(inp), out, size);
      var response := VncAuthResponse(des, challenge, password);
      assert answered == ViewerRuns(des, password, Respond(challenge), inp, out, size);
      Send(response);
    }

    // The versions are exchanged and the security types read and answered.
    method Negotiate(des: Cipher, password: seq<Byte>) returns (err: Option<Error>)
      modifies this`inp, this`out
      ensures var whole := ViewerRuns(des, password, HearVersion, old(inp), old(out), size);
        if err.None? then whole == ViewerRuns(des, password, HearResult, inp, out, size)
        else whole == ViewerTalk(inp, out, size, err)
    {
      ghost var whole := ViewerRuns(des, password, HearVersion, inp, out, size);
      var b;
      err, b, inp := ReadFull(inp, 12);
      if err.Some? {
        return;
      }
      Send(VERSION);
      assert whole == ViewerRuns(des, password, HearCount, inp, out, size);
      err, b, inp := ReadFull(inp, 1);
      if err.Some? {
        return;
      }
      if b[0] == 0 {
        assert whole == ViewerRuns(des, password, HearRefusalLength, inp, out, size);
        RefusalRead(des, password, inp, out, size);
        var reason := ReadString();
        return Some(Refused);
      }
      var count := b[0];
      assert whole == ViewerRuns(des, password, HearTypes(count), inp, out, size);
      err, b, inp := ReadFull(inp, count);
      if err.Some? {
        return;
      }
      assert whole == ViewerRuns(des, password, Chosen(b), inp, out, size);
      err := DoSecurity(des, password, b);
    }

    // ServerInit is read and the viewer's format and encodings are sent.
    method Initialise(des: Cipher, password: seq<Byte>) returns (err: Option<Error>)
      modifies this
      ensures ViewerTalk(inp, out, size, err) == ViewerRuns(des, password, ClientInit, old(inp), old(out), old(size))
      ensures err == None ==> fresh(pix) && Blank()
    {
      ghost var whole := ViewerRuns(des, password, ClientInit, inp, out, size);
      Send([1]);
      var b;
      err, b, inp := ReadFull(inp, 4);
      if err.Some? {
        return;
      }
      size := Some(Size(ReadU16(b[..2]), ReadU16(b[2..4])));
      assert whole == ViewerRuns(des, password, HearFormat, inp, out, size);
      err, b, inp := ReadFull(inp, 16);
      if err.Some? {
        return;
      }
      assert whole == ViewerRuns(des, password, HearNameLength, inp, out, size);
      Finish(des, password);
    }

    // The name is read and passed over, the framebuffer made, and the format and encodings sent.
    method Finish(des: Cipher, password: seq<Byte>)
      requires size.Some?
      modifies this`inp, this`out, this`pix
      ensures ViewerTalk(inp, out, size, None) == ViewerRuns(des, password, HearNameLength, old(inp), old(out), size)
      ensures fresh(pix) && Blank()
    {
      NameRead(des, password, inp, out, size);
      var name := ReadString();
      MakeFrame();
      SendPreferences(des, password);
    }

    method MakeFrame()
      requires size.Some?
      modifies this`pix
      ensures fresh(pix) && Blank()
    {
      pix := new Byte[size.value.height * (4 * size.value.width)](_ => 0);
    }

    // The viewer's format and encodings.
    method SendPreferences(des: Cipher, password: seq<Byte>)
      modifies this`out
      ensures ViewerTalk(inp, out, size, None) == ViewerRuns(des, password, SendFormat, inp, old(out), size)
    {
      PreferencesRun(des, password, inp, out, size);
      Send(Print(OWN_FORMAT));
      Send(Print(OWN_ENCODINGS));
    }

    method Handshake(des: Cipher, password: seq<Byte>) returns (err: Option<Error>)
      modifies this
      ensures ViewerTalk(inp, out, size, err) == ViewerRuns(des, password, HearVersion, old(inp), old(out), old(size))
      ensures err == None ==> fresh(pix) && Blank()
    {
      ghost var whole := ViewerRuns(des, password, HearVersion, inp, out, size);
      err := Negotiate(des, password);
      if err.Some? {
        return;
      }
      var b;
      err, b, inp := ReadFull(inp, 4);
      if err.Some? {
        return;
      }
      if ReadU32(b) != 0 {
        assert whole == ViewerRuns(des, password, HearReasonLength, inp, out, size);
        ReasonRead(des, password, inp, out, size);
        var reason := ReadString();
        return Some(AuthFailed);
      }
      assert whole == ViewerRuns(des, password, ClientInit, inp, out, size);
      err := Initialise(des, password);
    }
  }

  // What a stream holds after a length and that many bytes, or nothing when it is too short.
  function AfterString(inp: seq<Byte>): seq<Byte> {
    if |inp| < 4 || |inp| < 4 + ReadU32(inp) then [] else inp[4 + ReadU32(inp)..]
  }

  function Zeros(n: nat): (b: seq<Byte>)
    ensures |b| == n && forall k :: 0 <= k < n ==> b[k] == 0
  {
    seq(n, _ => 0)
  }

  // The string itself: empty without a whole length, filled up with zeros when it is cut short.
  function StringOf(inp: seq<Byte>): seq<Byte> {
    if |inp| < 4 then []
    else
      var l := ReadU32(inp);
      if |inp| < 4 + l then inp[4..] + Zeros(l - |inp[4..]|) else inp[4..4 + l]
  }

  lemma StringFilled(inp: seq<Byte>)
    ensures |inp| < 4 ==> StringOf(inp) == []
    ensures |inp| >= 4 ==> |StringOf(inp)| == ReadU32(inp)
    ensures forall i :: 0 <= i < |StringOf(inp)| ==> StringOf(inp)[i] == if 4 + i < |inp| then inp[4 + i] else 0
  {
  }

  lemma LengthRead(inp: seq<Byte>)
    requires |inp| >= 4
    ensures ReadU32(inp[..4]) == ReadU32(inp)
    ensures forall n: nat :: n <= |inp| - 4 ==> inp[4..][n..] == inp[4 + n..]
  {
    assert inp[..4][..2] == inp[..2] && inp[..4][2..4] == inp[2..4];
  }

  lemma ChoiceRuns(des: Cipher, password: seq<Byte>, t: Byte, inp: seq<Byte>, out: seq<Byte>, size: Option<Size>)
    ensures ViewerRuns(des, password, Choose(t), inp, out, size)
         == ViewerRuns(des, password, if t == 1 then HearResult else HearChallenge, inp, out + [t], size)
  {
  }

  // One read that finds all its bytes, and a lenient one that does not.
  lemma ReadsAll(des: Cipher, password: seq<Byte>, pc: ViewerPc, inp: seq<Byte>, out: seq<Byte>, size: Option<Size>)
    requires pc.Lenient() && ViewerAct(des, password, pc).n <= |inp|
    ensures var n := ViewerAct(des, password, pc).n;
      ViewerRuns(des, password, pc, inp, out, size)
      == ViewerRuns(des, password, ViewerAfter(des, password, pc, inp[..n]), inp[n..], out, size)
  {
  }

  lemma ReadsShort(des: Cipher, password: seq<Byte>, pc: ViewerPc, inp: seq<Byte>, out: seq<Byte>, size: Option<Size>)
    requires pc.Lenient() && |inp| < ViewerAct(des, password, pc).n
    ensures ViewerRuns(des, password, pc, inp, out, size) == ViewerRuns(des, password, ViewerShort(pc), [], out, size)
  {
  }

  lemma WriteRuns(des: Cipher, password: seq<Byte>, pc: ViewerPc, b: seq<Byte>, inp: seq<Byte>, out: seq<Byte>,
                  size: Option<Size>)
    requires ViewerAct(des, password, pc) == Write(b)
    ensures ViewerRuns(des, password, pc, inp, out, size)
         == ViewerRuns(des, password, ViewerAfter(des, password, pc, []), inp, out + b, size)
  {
  }

  lemma PreferencesRun(des: Cipher, password: seq<Byte>, inp: seq<Byte>, out: seq<Byte>, size: Option<Size>)
    ensures ViewerRuns(des, password, SendFormat, inp, out, size)
         == ViewerTalk(inp, out + Print(OWN_FORMAT) + Print(OWN_ENCODINGS), size, None)
  {
    WriteRuns(des, password, SendFormat, Print(OWN_FORMAT), inp, out, size);
    WriteRuns(des, password, SendEncodings, Print(OWN_ENCODINGS), inp, out + Print(OWN_FORMAT), size);
  }

  // A length read at head, then that many bytes at body, and on to next.
  ghost predicate ReadsString(des: Cipher, password: seq<Byte>, head: ViewerPc, body: ViewerPc, next: ViewerPc,
                              inp: seq<Byte>) {
    && head.Lenient() && ViewerAct(des, password, head) == Read(4) && ViewerShort(head) == next
    && (|inp| >= 4 ==>
          && ViewerAfter(des, password, head, inp[..4]) == body
          && body.Lenient() && ViewerAct(des, password, body) == Read(ReadU32(inp)) && ViewerShort(body) == next)
    && (forall b: seq<Byte> :: |inp| >= 4 && |b| == ReadU32(inp) ==> ViewerAfter(des, password, body, b) == next)
  }

  lemma BodyRead(des: Cipher, password: seq<Byte>, head: ViewerPc, body: ViewerPc, next: ViewerPc,
                 inp: seq<Byte>, out: seq<Byte>, size: Option<Size>)
    requires ReadsString(des, password, head, body, next, inp) && |inp| >= 4
    ensures ViewerRuns(des, password, body, inp[4..], out, size)
         == ViewerRuns(des, password, next, AfterString(inp), out, size)
  {
    LengthRead(inp);
    var n, later := ReadU32(inp), inp[4..];
    if |later| < n {
      ReadsShort(des, password, body, later, out, size);
    } else {
      ReadsAll(des, password, body, later, out, size);
      hide ViewerRuns, ViewerAct, ViewerShort, ReadU32;
      assert ViewerAfter(des, password, body, later[..n]) == next && later[n..] == AfterString(inp);
    }
  }

  lemma StringRead(des: Cipher, password: seq<Byte>, head: ViewerPc, body: ViewerPc, next: ViewerPc,
                   inp: seq<Byte>, out: seq<Byte>, size: Option<Size>)
    requires ReadsString(des, password, head, body, next, inp)
    ensures ViewerRuns(des, password, head, inp, out, size)
         == ViewerRuns(des, password, next, AfterString(inp), out, size)
  {
    if |inp| < 4 {
      ReadsShort(des, password, head, inp, out, size);
    } else {
      ReadsAll(des, password, head, inp, out, size);
      BodyRead(des, password, head, body, next, inp, out, size);
    }
  }

  lemma NameRead(des: Cipher, password: seq<Byte>, inp: seq<Byte>, out: seq<Byte>, size: Option<Size>)
    ensures ViewerRuns(des, password, HearNameLength, inp, out, size)
         == ViewerRuns(des, password, SendFormat, AfterString(inp), out, size)
  {
    if |inp| >= 4 { LengthRead(inp); }
    StringRead(des, password, HearNameLength, HearName(if |inp| >= 4 then ReadU32(inp) else 0), SendFormat, inp, out,
               size);
  }

  lemma ReasonRead(des: Cipher, password: seq<Byte>, inp: seq<Byte>, out: seq<Byte>, size: Option<Size>)
    ensures ViewerRuns(des, password, HearReasonLength, inp, out, size)
         == ViewerTalk(AfterString(inp), out, size, Some(AuthFailed))
  {
    if |inp| >= 4 { LengthRead(inp); }
    StringRead(des, password, HearReasonLength, HearReason(if |inp| >= 4 then ReadU32(inp) else 0),
               ViewerFailed(AuthFailed), inp, out, size);
  }

  lemma RefusalRead(des: Cipher, password: seq<Byte>, inp: seq<Byte>, out: seq<Byte>, size: Option<Size>)
    ensures ViewerRuns(des, password, HearRefusalLength, inp, out, size)
         == ViewerTalk(AfterString(inp), out, size, Some(Refused))
  {
    if |inp| >= 4 { LengthRead(inp); }
    StringRead(des, password, HearRefusalLength, HearRefusal(if |inp| >= 4 then ReadU32(inp) else 0),
               ViewerFailed(Refused), inp, out, size);
  }
}
