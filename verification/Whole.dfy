// The whole conversation: the handshakes, then the message loop of the host and the decoder of the
// viewer, on the bytes the handshakes leave.
module Whole {
  import opened Bytes
  import opened Images
  import opened Protocol
  import opened Handshake
  import Auth
  import A = Agreement
  import C = Client
  import S = Sessions
  import Server
  import opened DiffSize

  lemma {:induction false} PrintAppend(a: seq<ClientMsg>, b: seq<ClientMsg>)
    ensures PrintAll(a + b) == PrintAll(a) + PrintAll(b)
    decreases |a|
  {
    if a == [] {
      assert [] + b == b && [] + PrintAll(b) == PrintAll(b);
    } else {
      assert (a + b)[0] == a[0] && (a + b)[1..] == a[1..] + b;
      PrintAppend(a[1..], b);
      Assoc(Print(a[0]), PrintAll(a[1..]), PrintAll(b));
    }
  }

  lemma {:induction false} RequestsAppend(a: seq<ClientMsg>, b: seq<ClientMsg>)
    ensures S.Requests(a + b) == S.Requests(a) + S.Requests(b)
    decreases |a|
  {
    if a == [] {
      assert [] + b == b;
    } else {
      assert (a + b)[0] == a[0] && (a + b)[1..] == a[1..] + b;
      RequestsAppend(a[1..], b);
    }
  }

  lemma {:induction false} SinkAppend(a: seq<ClientMsg>, b: seq<ClientMsg>)
    ensures S.SinkOf(a + b) == S.SinkOf(a) + S.SinkOf(b)
    decreases |a|
  {
    if a == [] {
      assert [] + b == b && S.SinkOf([]) + S.SinkOf(b) == S.SinkOf(b);
    } else {
      assert (a + b)[0] == a[0] && (a + b)[1..] == a[1..] + b;
      SinkAppend(a[1..], b);
      Assoc(S.Told(a[0]), S.SinkOf(a[1..]), S.SinkOf(b));
    }
  }

  // The messages a viewer ends its handshake with.
  predicate Opening(wishes: seq<ClientMsg>) {
    wishes == [OWN_FORMAT, OWN_ENCODINGS]
  }

  lemma OpeningFits(wishes: seq<ClientMsg>)
    requires Opening(wishes)
    ensures S.OwnFormat(wishes) && S.Requests(wishes) == 0 && S.SinkOf(wishes) == []
  {
    assert wishes[1..] == [OWN_ENCODINGS] && wishes[1..][1..] == [];
    assert S.Requests(wishes[1..][1..]) == 0 && S.Requests(wishes[1..]) == 0;
    assert S.SinkOf(wishes[1..][1..]) == [] && S.SinkOf(wishes[1..]) == [];
  }

  // What the host's loop and the viewer's decoder make of the messages after the handshakes.
  ghost predicate Served(screen: seq<Frame>, ms: seq<ClientMsg>, w: Word16, h: Word16, pix: seq<Byte>,
                         stream: seq<Byte>)
    requires forall k :: 0 <= k < |screen| ==> screen[k].width == w && screen[k].height == h
  {
    var host := Server.Serve(S.Captures(screen), Server.Start(stream));
    S.Faithful(screen, ms, w, h, host, C.Decode(w, C.View(host.s.out, pix, 0)))
  }

  lemma ServedAfter(wishes: seq<ClientMsg>, screen: seq<Frame>, ms: seq<ClientMsg>, w: Word16, h: Word16,
                    pix: seq<Byte>)
    requires forall k :: 0 <= k < |screen| ==> screen[k].width == w && screen[k].height == h
    requires MaxRects(w, h) <= 0xFFFF && S.Requests(ms) <= |screen| && S.OwnFormat(ms) && |pix| == h * (4 * w)
    requires S.OwnFormat(wishes) && S.Requests(wishes) == 0 && S.SinkOf(wishes) == []
    ensures Served(screen, ms, w, h, pix, PrintAll(wishes) + PrintAll(ms))
  {
    RequestsAppend(wishes, ms);
    PrintAppend(wishes, ms);
    SinkAppend(wishes, ms);
    BothFit(wishes, ms);
    hide S.OwnFormat, S.Requests, S.SinkOf, S.Faithful, PrintAll;
    assert [] + S.SinkOf(ms) == S.SinkOf(ms);
    S.SessionEndToEnd(screen, wishes + ms, w, h, pix);
    var host := Server.Serve(S.Captures(screen), Server.Start(PrintAll(wishes + ms)));
    SameWork(screen, wishes + ms, ms, w, h, host, C.Decode(w, C.View(host.s.out, pix, 0)));
  }

  lemma SameWork(screen: seq<Frame>, a: seq<ClientMsg>, b: seq<ClientMsg>, w: nat, h: nat, host: Server.Outcome,
                 client: C.Outcome)
    requires forall k :: 0 <= k < |screen| ==> screen[k].width == w && screen[k].height == h
    requires S.Requests(a) == S.Requests(b) && S.SinkOf(a) == S.SinkOf(b)
    ensures S.Faithful(screen, a, w, h, host, client) == S.Faithful(screen, b, w, h, host, client)
  {
    hide S.Requests, S.SinkOf;
  }

  lemma BothFit(a: seq<ClientMsg>, b: seq<ClientMsg>)
    requires S.OwnFormat(a) && S.OwnFormat(b)
    ensures S.OwnFormat(a + b)
  {
  }

  lemma SizeAgreed(c: A.Setup, w: A.World)
    requires A.SizeIs(c, w.size) && c.h.width < 0x1_0000 && c.h.height < 0x1_0000
    ensures w.size == Some(Size(c.h.width, c.h.height))
  {
  }

  lemma UpIsOpening(c: A.Setup, w: A.World) returns (wishes: seq<ClientMsg>)
    requires A.Agreed(c, w)
    ensures Opening(wishes) && w.up == PrintAll(wishes)
  {
    wishes := [OWN_FORMAT, OWN_ENCODINGS];
  }

  // When the handshakes have ended in success, whatever the viewer sends next is served to the end,
  // and its decoder, with the size it learned, ends on the host's last capture.
  lemma ConversationFaithful(des: Auth.Cipher, c: A.Setup, moves: seq<A.Side>, screen: seq<Frame>, ms: seq<ClientMsg>,
                             pix: seq<Byte>)
    requires A.Run(des, c, A.START, moves).Some?
    requires c.h.width < 0x1_0000 && c.h.height < 0x1_0000 && MaxRects(c.h.width, c.h.height) <= 0xFFFF
    requires forall k :: 0 <= k < |screen| ==> screen[k].width == c.h.width && screen[k].height == c.h.height
    requires S.Requests(ms) <= |screen| && S.OwnFormat(ms) && |pix| == c.h.height * (4 * c.h.width)
    ensures var w := A.Run(des, c, A.START, moves).value;
      w.hp == HostDone && w.vp == ViewerDone ==>
        && w.size == Some(Size(c.h.width, c.h.height))
        && Served(screen, ms, c.h.width, c.h.height, pix, w.up + PrintAll(ms))
  {
    var w := A.Run(des, c, A.START, moves).value;
    if w.hp == HostDone && w.vp == ViewerDone {
      var wishes := Ended(des, c, moves);
      ServedAfter(wishes, screen, ms, c.h.width, c.h.height, pix);
    }
  }

  lemma Ended(des: Auth.Cipher, c: A.Setup, moves: seq<A.Side>) returns (wishes: seq<ClientMsg>)
    requires A.Run(des, c, A.START, moves).Some? && c.h.width < 0x1_0000 && c.h.height < 0x1_0000
    requires var w := A.Run(des, c, A.START, moves).value; w.hp == HostDone && w.vp == ViewerDone
    ensures S.OwnFormat(wishes) && S.Requests(wishes) == 0 && S.SinkOf(wishes) == []
    ensures var w := A.Run(des, c, A.START, moves).value;
      w.up == PrintAll(wishes) && w.size == Some(Size(c.h.width, c.h.height))
  {
    var w := A.Run(des, c, A.START, moves).value;
    A.HandshakesAgree(des, c, moves);
    SizeAgreed(c, w);
    wishes := UpIsOpening(c, w);
    OpeningFits(wishes);
  }
}
