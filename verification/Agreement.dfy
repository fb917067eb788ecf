// The two handshakes run against each other over a pair of byte channels.
module Agreement {
  import opened Bytes
  import opened Pixel
  import opened Protocol
  import opened Auth
  import opened Handshake

  datatype Side = AtHost | AtViewer

  // down and up hold the bytes under way to the viewer and to the host.
  datatype World = World(hp: HostPc, vp: ViewerPc, down: seq<Byte>, up: seq<Byte>, size: Option<Size>)

  datatype Setup = Setup(h: HostConfig, password: seq<Byte>)
  {
    predicate Protected() { h.password != [] }
  }

  const START: World := World(HostVersion, HearVersion, [], [], None)

  // A write always goes through, a read needs all its bytes.
  predicate CanAct(a: Act, channel: seq<Byte>) {
    match a
    case Write(_) => true
    case Read(n) => |channel| >= n
    case Stop(_) => false
  }

  predicate CanMove(des: Cipher, c: Setup, w: World, side: Side) {
    match side
    case AtHost => CanAct(HostAct(c.h, w.hp), w.up)
    case AtViewer => CanAct(ViewerAct(des, c.password, w.vp), w.down)
  }

  function Move(des: Cipher, c: Setup, w: World, side: Side): World
    requires CanMove(des, c, w, side)
  {
    match side
    case AtHost => (
      match HostAct(c.h, w.hp)
      case Write(b) => w.(hp := HostAfter(des, c.h, w.hp, []), down := w.down + b)
      case Read(n) => w.(hp := HostAfter(des, c.h, w.hp, w.up[..n]), up := w.up[n..])
    )
    case AtViewer => (
      match ViewerAct(des, c.password, w.vp)
      case Write(b) => w.(vp := ViewerAfter(des, c.password, w.vp, []), up := w.up + b)
      case Read(n) =>
        w.(vp := ViewerAfter(des, c.password, w.vp, w.down[..n]), down := w.down[n..],
           size := SizeAfter(w.vp, w.down[..n], w.size))
    )
  }

  // The world after a schedule of moves, if each was possible in its turn.
  function Run(des: Cipher, c: Setup, w: World, moves: seq<Side>): Option<World>
    decreases |moves|
  {
    if moves == [] then Some(w)
    else if CanMove(des, c, w, moves[0]) then Run(des, c, Move(des, c, w, moves[0]), moves[1..])
    else None
  }

  // Whether the host will be satisfied.
  predicate Matches(des: Cipher, c: Setup) {
    c.Protected() ==> Response(des, c.h.challenge, c.password) == Response(des, c.h.challenge, c.h.password)
  }

  // ---- What is still to be said ----

  function SecurityType(c: Setup): Byte {
    if c.Protected() then 2 else 1
  }

  // The bytes the host still writes from a place on.
  function HostWrites(des: Cipher, c: Setup, pc: HostPc): seq<Byte> {
    var last := if Matches(des, c) then InitBytes(c.h) else [];
    var verdict := ResultBytes(Matches(des, c)) + last;
    var asked := if c.Protected() then c.h.challenge + verdict else verdict;
    match pc
    case HostVersion => VERSION + ([1, SecurityType(c)] + asked)
    case HostHearVersion => [1, SecurityType(c)] + asked
    case Offer => [1, SecurityType(c)] + asked
    case HearChoice => asked
    case SendChallenge => asked
    case HearResponse => verdict
    case Result(_) => verdict
    case HearInit => last
    case ServerInit => last
    case _ => []
  }

  // The bytes the viewer still reads from a place on.
  function ViewerReads(des: Cipher, c: Setup, pc: ViewerPc): seq<Byte> {
    var name := U32(|c.h.name|) + c.h.name;
    var format := DefaultFormat().Write() + name;
    var last := if Matches(des, c) then U16(c.h.width) + U16(c.h.height) + format else U32(21) + REASON;
    var verdict := U32(if Matches(des, c) then 0 else 1) + last;
    var asked := if c.Protected() then c.h.challenge + verdict else verdict;
    match pc
    case HearVersion => VERSION + ([1] + ([SecurityType(c)] + asked))
    case ViewerVersion => [1] + ([SecurityType(c)] + asked)
    case HearCount => [1] + ([SecurityType(c)] + asked)
    case HearTypes(_) => [SecurityType(c)] + asked
    case Choose(_) => asked
    case HearChallenge => asked
    case Respond(_) => verdict
    case HearResult => verdict
    case HearReasonLength => last
    case HearReason(_) => REASON
    case ClientInit => last
    case HearDims => last
    case HearFormat => format
    case HearNameLength => name
    case HearName(_) => c.h.name
    case _ => []
  }

  // The bytes the viewer still writes from a place on.
  function ViewerWrites(des: Cipher, c: Setup, pc: ViewerPc): seq<Byte> {
    var wishes := Print(OWN_FORMAT) + Print(OWN_ENCODINGS);
    var last := if Matches(des, c) then [1] + wishes else [];
    var answer := if c.Protected() then Response(des, c.h.challenge, c.password) + last else last;
    match pc
    case HearVersion => VERSION + ([SecurityType(c)] + answer)
    case ViewerVersion => VERSION + ([SecurityType(c)] + answer)
    case HearCount => [SecurityType(c)] + answer
    case HearTypes(_) => [SecurityType(c)] + answer
    case Choose(_) => [SecurityType(c)] + answer
    case HearChallenge => answer
    case Respond(_) => answer
    case HearResult => last
    case ClientInit => last
    case HearDims => wishes
    case HearFormat => wishes
    case HearNameLength => wishes
    case HearName(_) => wishes
    case SendFormat => wishes
    case SendEncodings => Print(OWN_ENCODINGS)
    case _ => []
  }

  // The bytes the host still reads, and leaves behind, from a place on.
  function HostReads(des: Cipher, c: Setup, pc: HostPc): seq<Byte> {
    var wishes := Print(OWN_FORMAT) + Print(OWN_ENCODINGS);
    var last := if Matches(des, c) then [1] + wishes else [];
    var answer := if c.Protected() then Response(des, c.h.challenge, c.password) + last else last;
    match pc
    case HostVersion => VERSION + ([SecurityType(c)] + answer)
    case HostHearVersion => VERSION + ([SecurityType(c)] + answer)
    case Offer => [SecurityType(c)] + answer
    case HearChoice => [SecurityType(c)] + answer
    case SendChallenge => answer
    case HearResponse => answer
    case Result(_) => last
    case HearInit => last
    case ServerInit => wishes
    case HostDone => wishes
    case _ => []
  }

  // ---- The invariant ----

  // The host's place fits what the two sides have been given.
  predicate HostOn(des: Cipher, c: Setup, pc: HostPc) {
    match pc
    case SendChallenge => c.Protected()
    case HearResponse => c.Protected()
    case Result(ok) => ok == Matches(des, c)
    case HearInit => Matches(des, c)
    case ServerInit => Matches(des, c)
    case HostDone => Matches(des, c)
    case HostFailed(err) => !Matches(des, c) && err == AuthFailed
    case _ => true
  }

  predicate ViewerOn(des: Cipher, c: Setup, pc: ViewerPc, size: Option<Size>) {
    match pc
    case HearRefusalLength => false
    case HearRefusal(_) => false
    case HearTypes(n) => n == 1
    case Choose(t) => t == SecurityType(c)
    case HearChallenge => c.Protected()
    case Respond(ch) => c.Protected() && ch == c.h.challenge
    case HearReasonLength => !Matches(des, c)
    case HearReason(l) => !Matches(des, c) && l == 21
    case ViewerFailed(err) => !Matches(des, c) && err == AuthFailed
    case ClientInit => Matches(des, c)
    case HearDims => Matches(des, c)
    case HearFormat => Matches(des, c) && SizeIs(c, size)
    case HearNameLength => Matches(des, c) && SizeIs(c, size)
    case HearName(l) => Matches(des, c) && SizeIs(c, size) && l == |c.h.name|
    case SendFormat => Matches(des, c) && SizeIs(c, size)
    case SendEncodings => Matches(des, c) && SizeIs(c, size)
    case ViewerDone => Matches(des, c) && SizeIs(c, size)
    case _ => true
  }

  // The viewer's size is the host's, cut to 16 bits.
  predicate SizeIs(c: Setup, size: Option<Size>) {
    size == Some(Size(c.h.width % 0x1_0000, c.h.height % 0x1_0000))
  }

  // Each side is where it should be, and what it will still read is what is under way and what the
  // other side will still write.
  predicate InStep(des: Cipher, c: Setup, w: World) {
    && HostOn(des, c, w.hp) && ViewerOn(des, c, w.vp, w.size)
    && ViewerReads(des, c, w.vp) == w.down + HostWrites(des, c, w.hp)
    && HostReads(des, c, w.hp) == w.up + ViewerWrites(des, c, w.vp)
  }

  // ---- The start ----

  lemma InitBytesRight(h: HostConfig)
    ensures InitBytes(h) == U16(h.width) + U16(h.height) + (DefaultFormat().Write() + (U32(|h.name|) + h.name))
  {
  }

  lemma VerdictSame(des: Cipher, c: Setup)
    ensures HostWrites(des, c, HearResponse) == ViewerReads(des, c, HearResult)
  {
    InitBytesRight(c.h);
    if Matches(des, c) {
      Assoc(U32(0), [], InitBytes(c.h));
    } else {
      Assoc(U32(1), U32(21), REASON);
    }
  }

  lemma AskedSame(des: Cipher, c: Setup)
    ensures HostWrites(des, c, SendChallenge) == ViewerReads(des, c, HearChallenge)
  {
    VerdictSame(des, c);
  }

  lemma Regroup(version: seq<Byte>, a: Byte, b: Byte, asked: seq<Byte>)
    ensures version + ([a, b] + asked) == version + ([a] + ([b] + asked))
  {
    assert [a, b] + asked == [a] + ([b] + asked);
  }

  lemma HostOpens(des: Cipher, c: Setup)
    ensures HostWrites(des, c, HostVersion) == VERSION + ([1, SecurityType(c)] + HostWrites(des, c, SendChallenge))
  {
  }

  lemma ViewerOpens(des: Cipher, c: Setup)
    ensures ViewerReads(des, c, HearVersion)
         == VERSION + ([1] + ([SecurityType(c)] + ViewerReads(des, c, HearChallenge)))
  {
  }

  lemma DownStarts(des: Cipher, c: Setup)
    ensures HostWrites(des, c, HostVersion) == ViewerReads(des, c, HearVersion)
  {
    AskedSame(des, c);
    HostOpens(des, c);
    ViewerOpens(des, c);
    Regroup(VERSION, 1, SecurityType(c), HostWrites(des, c, SendChallenge));
  }

  lemma StartsInStep(des: Cipher, c: Setup)
    ensures InStep(des, c, START)
  {
    DownStarts(des, c);
  }

  // ---- One move ----

  // Reading the expected front of a channel.
  lemma Front(script: seq<Byte>, part: seq<Byte>, rest: seq<Byte>, channel: seq<Byte>, later: seq<Byte>)
    requires script == part + rest == channel + later && |channel| >= |part|
    ensures channel[..|part|] == part && rest == channel[|part|..] + later
  {
    assert script[..|part|] == part && script[|part|..] == rest;
  }

  // What the host expects to read.
  function HostHears(des: Cipher, c: Setup, pc: HostPc): seq<Byte> {
    match pc
    case HostHearVersion => VERSION
    case HearChoice => [SecurityType(c)]
    case HearResponse => Response(des, c.h.challenge, c.password)
    case _ => [1]
  }

  // What the host's next write or read must do.
  predicate HostGoesOn(des: Cipher, c: Setup, pc: HostPc) {
    match HostAct(c.h, pc)
    case Stop(_) => true
    case Write(b) =>
      var next := HostAfter(des, c.h, pc, []);
      && HostOn(des, c, next) && HostReads(des, c, next) == HostReads(des, c, pc)
      && HostWrites(des, c, pc) == b + HostWrites(des, c, next)
    case Read(n) =>
      var b := HostHears(des, c, pc);
      && |b| == n
      && var next := HostAfter(des, c.h, pc, b);
      && HostOn(des, c, next) && HostWrites(des, c, next) == HostWrites(des, c, pc)
      && HostReads(des, c, pc) == b + HostReads(des, c, next)
  }

  lemma HostOffers(des: Cipher, c: Setup, pc: HostPc)
    requires HostOn(des, c, pc) && (pc.HostVersion? || pc.HostHearVersion? || pc.Offer? || pc.HearChoice?)
    ensures HostGoesOn(des, c, pc)
  {
  }

  lemma HostJudges(des: Cipher, c: Setup, pc: HostPc)
    requires HostOn(des, c, pc) && (pc.SendChallenge? || pc.HearResponse? || pc.Result?)
    ensures HostGoesOn(des, c, pc)
  {
  }

  lemma HostInitialises(des: Cipher, c: Setup, pc: HostPc)
    requires HostOn(des, c, pc) && (pc.HearInit? || pc.ServerInit?)
    ensures HostGoesOn(des, c, pc)
  {
  }

  lemma HostScript(des: Cipher, c: Setup, pc: HostPc)
    requires HostOn(des, c, pc)
    ensures HostGoesOn(des, c, pc)
  {
    if pc.HostVersion? || pc.HostHearVersion? || pc.Offer? || pc.HearChoice? {
      HostOffers(des, c, pc);
    } else if pc.SendChallenge? || pc.HearResponse? || pc.Result? {
      HostJudges(des, c, pc);
    } else if pc.HearInit? || pc.ServerInit? {
      HostInitialises(des, c, pc);
    }
  }

  // What the viewer expects to read.
  function ViewerHears(des: Cipher, c: Setup, pc: ViewerPc): seq<Byte> {
    match pc
    case HearVersion => VERSION
    case HearCount => [1]
    case HearTypes(_) => [SecurityType(c)]
    case HearChallenge => c.h.challenge
    case HearResult => U32(if Matches(des, c) then 0 else 1)
    case HearReasonLength => U32(21)
    case HearReason(_) => REASON
    case HearDims => U16(c.h.width) + U16(c.h.height)
    case HearFormat => DefaultFormat().Write()
    case HearNameLength => U32(|c.h.name|)
    case _ => c.h.name
  }

  lemma ViewerWriteScript(des: Cipher, c: Setup, pc: ViewerPc, size: Option<Size>)
    requires ViewerOn(des, c, pc, size) && ViewerAct(des, c.password, pc).Write?
    ensures var b, next := ViewerAct(des, c.password, pc).bytes, ViewerAfter(des, c.password, pc, []);
      && ViewerOn(des, c, next, size) && ViewerReads(des, c, next) == ViewerReads(des, c, pc)
      && ViewerWrites(des, c, pc) == b + ViewerWrites(des, c, next)
  {
  }

  // What reading the expected bytes at a place must do.
  predicate ReadsOn(des: Cipher, c: Setup, pc: ViewerPc, size: Option<Size>) {
    var b := ViewerHears(des, c, pc);
    && ViewerAct(des, c.password, pc) == Read(|b|)
    && var next := ViewerAfter(des, c.password, pc, b);
    && ViewerOn(des, c, next, SizeAfter(pc, b, size))
    && ViewerWrites(des, c, next) == ViewerWrites(des, c, pc)
    && ViewerReads(des, c, pc) == b + ViewerReads(des, c, next)
  }

  lemma ReadsOffer(des: Cipher, c: Setup, pc: ViewerPc, size: Option<Size>)
    requires ViewerOn(des, c, pc, size) && (pc.HearVersion? || pc.HearCount? || pc.HearTypes? || pc.HearChallenge?)
    ensures ReadsOn(des, c, pc, size)
  {
  }

  lemma ReadsVerdict(des: Cipher, c: Setup, pc: ViewerPc, size: Option<Size>)
    requires ViewerOn(des, c, pc, size) && (pc.HearResult? || pc.HearReasonLength? || pc.HearReason?)
    ensures ReadsOn(des, c, pc, size)
  {
  }

  lemma ReadsSizes(des: Cipher, c: Setup, pc: ViewerPc, size: Option<Size>)
    requires ViewerOn(des, c, pc, size) && (pc.HearDims? || pc.HearFormat?)
    ensures ReadsOn(des, c, pc, size)
  {
  }

  lemma ReadsName(des: Cipher, c: Setup, pc: ViewerPc, size: Option<Size>)
    requires ViewerOn(des, c, pc, size) && (pc.HearNameLength? || pc.HearName?)
    ensures ReadsOn(des, c, pc, size)
  {
  }

  lemma ViewerReadScript(des: Cipher, c: Setup, pc: ViewerPc, size: Option<Size>)
    requires ViewerOn(des, c, pc, size) && ViewerAct(des, c.password, pc).Read?
    ensures ReadsOn(des, c, pc, size)
  {
    if pc.HearVersion? || pc.HearCount? || pc.HearTypes? || pc.HearChallenge? {
      ReadsOffer(des, c, pc, size);
    } else if pc.HearResult? || pc.HearReasonLength? || pc.HearReason? {
      ReadsVerdict(des, c, pc, size);
    } else if pc.HearDims? || pc.HearFormat? {
      ReadsSizes(des, c, pc, size);
    } else {
      ReadsName(des, c, pc, size);
    }
  }

  lemma MoveInStep(des: Cipher, c: Setup, w: World, side: Side)
    requires InStep(des, c, w) && CanMove(des, c, w, side)
    ensures InStep(des, c, Move(des, c, w, side))
  {
    if side.AtHost? { HostInStep(des, c, w); } else { ViewerInStep(des, c, w); }
  }

  lemma HostInStep(des: Cipher, c: Setup, w: World)
    requires InStep(des, c, w) && CanMove(des, c, w, AtHost)
    ensures InStep(des, c, Move(des, c, w, AtHost))
  {
    HostScript(des, c, w.hp);
    match HostAct(c.h, w.hp)
    case Write(b) =>
      Assoc(w.down, b, HostWrites(des, c, HostAfter(des, c.h, w.hp, [])));
    case Read(n) =>
      var b := HostHears(des, c, w.hp);
      Front(HostReads(des, c, w.hp), b, HostReads(des, c, HostAfter(des, c.h, w.hp, b)), w.up,
            ViewerWrites(des, c, w.vp));
  }

  lemma ViewerInStep(des: Cipher, c: Setup, w: World)
    requires InStep(des, c, w) && CanMove(des, c, w, AtViewer)
    ensures InStep(des, c, Move(des, c, w, AtViewer))
  {
    match ViewerAct(des, c.password, w.vp)
    case Write(b) =>
      ViewerWriteScript(des, c, w.vp, w.size);
      Assoc(w.up, b, ViewerWrites(des, c, ViewerAfter(des, c.password, w.vp, [])));
    case Read(n) =>
      ViewerReadScript(des, c, w.vp, w.size);
      var b := ViewerHears(des, c, w.vp);
      Front(ViewerReads(des, c, w.vp), b, ViewerReads(des, c, ViewerAfter(des, c.password, w.vp, b)), w.down,
            HostWrites(des, c, w.hp));
  }

  // ---- Progress ----

  lemma HostRankFalls(des: Cipher, c: Setup, pc: HostPc, b: seq<Byte>)
    requires var a := HostAct(c.h, pc); !a.Stop? && (a.Read? ==> |b| == a.n)
    ensures HostRank(HostAfter(des, c.h, pc, b)) < HostRank(pc)
  {
  }

  lemma ViewerRankFalls(des: Cipher, c: Setup, pc: ViewerPc, b: seq<Byte>)
    requires var a := ViewerAct(des, c.password, pc); !a.Stop? && (a.Read? ==> |b| == a.n)
    ensures ViewerRank(ViewerAfter(des, c.password, pc, b)) < ViewerRank(pc)
  {
  }

  lemma RanksFall(des: Cipher, c: Setup, w: World, side: Side)
    requires CanMove(des, c, w, side)
    ensures var w' := Move(des, c, w, side);
      HostRank(w'.hp) + ViewerRank(w'.vp) < HostRank(w.hp) + ViewerRank(w.vp)
  {
    match side
    case AtHost =>
      HostRankFalls(des, c, w.hp, if HostAct(c.h, w.hp).Read? then w.up[..HostAct(c.h, w.hp).n] else []);
    case AtViewer =>
      var a := ViewerAct(des, c.password, w.vp);
      ViewerRankFalls(des, c, w.vp, if a.Read? then w.down[..a.n] else []);
  }

  // Two sides that have not both stopped are never both waiting.
  lemma NeverStuck(des: Cipher, c: Setup, w: World)
    requires InStep(des, c, w)
    ensures CanMove(des, c, w, AtHost) || CanMove(des, c, w, AtViewer)
      || (HostAct(c.h, w.hp).Stop? && ViewerAct(des, c.password, w.vp).Stop?)
  {
    assert |ViewerReads(des, c, w.vp)| == |w.down| + |HostWrites(des, c, w.hp)|;
    assert |HostReads(des, c, w.hp)| == |w.up| + |ViewerWrites(des, c, w.vp)|;
    Needed(des, c, w.hp, w.vp, |w.down|, |w.up|);
  }

  // The same on lengths: what lacks on one channel, the other side writes without reading first.
  lemma Needed(des: Cipher, c: Setup, hp: HostPc, vp: ViewerPc, down: nat, up: nat)
    requires HostOn(des, c, hp) && exists size :: ViewerOn(des, c, vp, size)
    requires |ViewerReads(des, c, vp)| == down + |HostWrites(des, c, hp)|
    requires |HostReads(des, c, hp)| == up + |ViewerWrites(des, c, vp)|
    ensures Served(des, c, hp, vp, down, up)
  {
    if hp.HostHearVersion? {
      NeededVersion(des, c, vp, down, up);
    } else if hp.HearChoice? {
      NeededChoice(des, c, vp, down, up);
    } else if hp.HearResponse? {
      NeededResponse(des, c, vp, down, up);
    } else if hp.HearInit? {
      NeededInit(des, c, vp, down, up);
    } else {
      NeededLast(des, c, hp, vp, down, up);
    }
  }

  // Some side can write or finds what it wants to read, or both have stopped.
  predicate Served(des: Cipher, c: Setup, hp: HostPc, vp: ViewerPc, down: nat, up: nat) {
    var h, v := HostAct(c.h, hp), ViewerAct(des, c.password, vp);
    h.Write? || v.Write? || (h.Read? && up >= h.n) || (v.Read? && down >= v.n) || (h.Stop? && v.Stop?)
  }

  lemma NeededVersion(des: Cipher, c: Setup, vp: ViewerPc, down: nat, up: nat)
    requires exists size :: ViewerOn(des, c, vp, size)
    requires |ViewerReads(des, c, vp)| == down + |HostWrites(des, c, HostHearVersion)|
    requires |HostReads(des, c, HostHearVersion)| == up + |ViewerWrites(des, c, vp)|
    ensures Served(des, c, HostHearVersion, vp, down, up)
  {
  }

  lemma NeededChoice(des: Cipher, c: Setup, vp: ViewerPc, down: nat, up: nat)
    requires exists size :: ViewerOn(des, c, vp, size)
    requires |ViewerReads(des, c, vp)| == down + |HostWrites(des, c, HearChoice)|
    requires |HostReads(des, c, HearChoice)| == up + |ViewerWrites(des, c, vp)|
    ensures Served(des, c, HearChoice, vp, down, up)
  {
  }

  lemma NeededResponse(des: Cipher, c: Setup, vp: ViewerPc, down: nat, up: nat)
    requires HostOn(des, c, HearResponse) && exists size :: ViewerOn(des, c, vp, size)
    requires |ViewerReads(des, c, vp)| == down + |HostWrites(des, c, HearResponse)|
    requires |HostReads(des, c, HearResponse)| == up + |ViewerWrites(des, c, vp)|
    ensures Served(des, c, HearResponse, vp, down, up)
  {
  }

  lemma NeededInit(des: Cipher, c: Setup, vp: ViewerPc, down: nat, up: nat)
    requires HostOn(des, c, HearInit) && exists size :: ViewerOn(des, c, vp, size)
    requires |ViewerReads(des, c, vp)| == down + |HostWrites(des, c, HearInit)|
    requires |HostReads(des, c, HearInit)| == up + |ViewerWrites(des, c, vp)|
    ensures Served(des, c, HearInit, vp, down, up)
  {
  }

  // A host that writes or has stopped.
  lemma NeededLast(des: Cipher, c: Setup, hp: HostPc, vp: ViewerPc, down: nat, up: nat)
    requires !HostAct(c.h, hp).Read? && exists size :: ViewerOn(des, c, vp, size)
    requires |ViewerReads(des, c, vp)| == down + |HostWrites(des, c, hp)|
    ensures Served(des, c, hp, vp, down, up)
  {
  }

  lemma {:induction false} RunInStep(des: Cipher, c: Setup, w: World, moves: seq<Side>)
    requires InStep(des, c, w) && Run(des, c, w, moves).Some?
    ensures var w' := Run(des, c, w, moves).value;
      InStep(des, c, w') && |moves| + HostRank(w'.hp) + ViewerRank(w'.vp) <= HostRank(w.hp) + ViewerRank(w.vp)
    decreases |moves|
  {
    if moves != [] {
      MoveInStep(des, c, w, moves[0]);
      RanksFall(des, c, w, moves[0]);
      RunInStep(des, c, Move(des, c, w, moves[0]), moves[1..]);
    }
  }

  // Both sides succeeded: they agree on the size, nothing is under way to the viewer, and to the
  // host the viewer's format and encodings.
  predicate Agreed(c: Setup, w: World) {
    && w.hp == HostDone && w.vp == ViewerDone && SizeIs(c, w.size)
    && w.down == [] && w.up == PrintAll([OWN_FORMAT, OWN_ENCODINGS])
  }

  // Both sides know that authentication failed, and nothing is under way.
  predicate Denied(w: World) {
    w.hp == HostFailed(AuthFailed) && w.vp == ViewerFailed(AuthFailed) && w.down == [] && w.up == []
  }

  lemma Wishes()
    ensures PrintAll([OWN_FORMAT, OWN_ENCODINGS]) == Print(OWN_FORMAT) + Print(OWN_ENCODINGS)
  {
    var ms := [OWN_FORMAT, OWN_ENCODINGS];
    assert ms[1..] == [OWN_ENCODINGS] && ms[1..][1..] == [];
    assert PrintAll([]) == [] && PrintAll(ms[1..]) == Print(OWN_ENCODINGS) + PrintAll([]);
  }

  lemma BothEnded(des: Cipher, c: Setup, w: World)
    requires InStep(des, c, w) && HostAct(c.h, w.hp).Stop? && ViewerAct(des, c.password, w.vp).Stop?
    ensures if Matches(des, c) then Agreed(c, w) else Denied(w)
  {
    Wishes();
  }

  // Whatever the schedule, the handshakes take at most 25 moves, can always go on until both have
  // ended, and end in agreement if no password is set or the responses match, else in denial.
  lemma HandshakesAgree(des: Cipher, c: Setup, moves: seq<Side>)
    requires Run(des, c, START, moves).Some?
    ensures |moves| <= 25
    ensures var w := Run(des, c, START, moves).value;
      || CanMove(des, c, w, AtHost) || CanMove(des, c, w, AtViewer)
      || if c.h.password == [] || Response(des, c.h.challenge, c.password) == Response(des, c.h.challenge, c.h.password)
         then Agreed(c, w) else Denied(w)
  {
    StartsInStep(des, c);
    RunInStep(des, c, START, moves);
    var w := Run(des, c, START, moves).value;
    NeverStuck(des, c, w);
    if HostAct(c.h, w.hp).Stop? && ViewerAct(des, c.password, w.vp).Stop? { BothEnded(des, c, w); }
  }

  // On a host with a password a viewer whose response differs in either block is always denied.
  lemma WrongAnswerDenied(des: Cipher, c: Setup, moves: seq<Side>)
    requires c.h.password != [] && Run(des, c, START, moves).Some?
    requires var ch := c.h.challenge;
      || des(Auth.Key(c.password), ch[..8]) != des(Auth.Key(c.h.password), ch[..8])
      || des(Auth.Key(c.password), ch[8..]) != des(Auth.Key(c.h.password), ch[8..])
    ensures var w := Run(des, c, START, moves).value;
      CanMove(des, c, w, AtHost) || CanMove(des, c, w, AtViewer) || Denied(w)
  {
    var b := Response(des, c.h.challenge, c.password);
    AnswersOnly(des, c.h.challenge, c.password, b);
    AnswersOnly(des, c.h.challenge, c.h.password, b);
    HandshakesAgree(des, c, moves);
  }

  // So, under a cipher that tells keys apart, every viewer without the host's password.
  lemma WrongPasswordDenied(des: Cipher, c: Setup, moves: seq<Side>)
    requires TellsKeys(des) && c.h.password != [] && Padded(c.password) != Padded(c.h.password)
    requires Run(des, c, START, moves).Some?
    ensures var w := Run(des, c, START, moves).value;
      CanMove(des, c, w, AtHost) || CanMove(des, c, w, AtViewer) || Denied(w)
  {
    SameKey(c.password, c.h.password);
    WrongAnswerDenied(des, c, moves);
  }

  // A viewer whose password agrees with the host's on the first eight bytes, shorter ones filled up
  // with zeros, is never denied.
  lemma SamePasswordAgrees(des: Cipher, c: Setup, moves: seq<Side>)
    requires Padded(c.password) == Padded(c.h.password)
    requires Run(des, c, START, moves).Some?
    ensures var w := Run(des, c, START, moves).value;
      CanMove(des, c, w, AtHost) || CanMove(des, c, w, AtViewer) || Agreed(c, w)
  {
    SamePasswordPasses(des, c.h.challenge, c.password, c.h.password);
    HandshakesAgree(des, c, moves);
  }
}
