// The way of a viewer through the relay: no step of it is skipped, and nothing but a refusal, a
// failure or a timeout stops it.
module Passage {
  import opened Bytes
  import opened Broker
  import opened Registry
  import opened Control
  import Admission
  import Causality
  import Scenes

  // ---- No step is skipped ----

  // The steps of one viewer in a run.
  function StepsOf(labels: seq<Label>, v: nat): seq<Label>
    decreases |labels|
  {
    if labels == [] then []
    else
      var l := labels[|labels| - 1];
      StepsOf(labels[..|labels| - 1], v) + if !HostLabel(l) && l.v == v then [l] else []
  }

  // Coming, being looked up, having the PIN checked and drawing the session id.
  predicate Drew(t: seq<Label>, v: nat, w: Viewer, k: string) {
    && |t| == 4 && t[0] == Arrive(v, w.id, w.pin) && t[1] == Lookup(v) && t[2].Check? && t[3] == Enqueue(v, k)
  }

  // The same, and the consent of an attended host.
  predicate Agreed(t: seq<Label>, v: nat, w: Viewer, k: string, unattended: bool) {
    if unattended then Drew(t, v, w, k)
    else |t| == 7 && Drew(t[..4], v, w, k) && t[4..] == [Notify(v, true), Receive(v), Leave(v)]
  }

  // What viewer v has done to be where it is.
  predicate Walked(t: seq<Label>, v: nat, w: Viewer, unattended: bool) {
    match w.pc
    case Connecting => t == [Arrive(v, w.id, w.pin)]
    case Found(_) => t == [Arrive(v, w.id, w.pin), Lookup(v)]
    case Admitted(_) => |t| == 3 && t[0] == Arrive(v, w.id, w.pin) && t[1] == Lookup(v) && t[2].Check?
    case Queued(_, k) => !unattended && Drew(t, v, w, k)
    case Asked(_, k) => !unattended && |t| == 5 && Drew(t[..4], v, w, k) && t[4] == Notify(v, true)
    case Leaving(_, k, result) =>
      !unattended && (result ==> |t| == 6 && Drew(t[..4], v, w, k) && t[4..] == [Notify(v, true), Receive(v)])
    case Consented(_, k) => Agreed(t, v, w, k, unattended)
    case Joined(_, k) => |t| > 0 && Agreed(t[..|t| - 1], v, w, k, unattended) && t[|t| - 1] == Join(v, true)
    case Bridged(_, k) =>
      && |t| > 1 && Agreed(t[..|t| - 2], v, w, k, unattended) && t[|t| - 2..] == [Join(v, true), OpenData(v, true)]
    case _ => true
  }

  predicate ModeAt(s: State, pc: Pc) {
    !pc.Connecting? && !pc.Closed? && pc.reg in s.regs && s.regs[pc.reg].unattended
  }

  predicate WalkedAt(s: State, v: nat, t: seq<Label>) {
    if v in s.viewers then Walked(t, v, s.viewers[v], ModeAt(s, s.viewers[v].pc)) else t == []
  }

  // One more step of the viewer's own.
  predicate WalksTo(c: Config, s: State, l: Label, t: seq<Label>)
    requires Enabled(s, l) && !HostLabel(l)
  {
    var d := ViewerChange(c, s, l);
    && d.viewer.Some? && d.viewer.value.v == l.v
    && Walked(t + [l], l.v, d.viewer.value.w, ModeAt(s, d.viewer.value.w.pc))
  }

  lemma WalksIn(c: Config, s: State, l: Label, t: seq<Label>)
    requires Enabled(s, l) && (l.Arrive? || l.Lookup? || l.Check? || l.SendAlert?) && WalkedAt(s, l.v, t)
    ensures WalksTo(c, s, l, t)
  {
  }

  lemma WalksUp(c: Config, s: State, l: Label, t: seq<Label>)
    requires Enabled(s, l) && (l.Enqueue? || l.Notify?) && WalkedAt(s, l.v, t)
    ensures WalksTo(c, s, l, t)
  {
    var w := s.viewers[l.v];
    if l.Enqueue? {
      assert t + [l] == [t[0], t[1], t[2], l];
    } else {
      assert (t + [l])[..4] == t;
    }
  }

  lemma WalksBack(c: Config, s: State, l: Label, t: seq<Label>)
    requires Enabled(s, l) && (l.Receive? || l.Timeout?) && WalkedAt(s, l.v, t)
    ensures WalksTo(c, s, l, t)
  {
    assert (t + [l])[..4] == t[..4] && (t + [l])[4..] == [Notify(l.v, true), l];
  }

  lemma WalksAway(c: Config, s: State, l: Label, t: seq<Label>)
    requires Enabled(s, l) && l.Leave? && WalkedAt(s, l.v, t)
    ensures WalksTo(c, s, l, t)
  {
    if |t| >= 4 { assert (t + [l])[..4] == t[..4] && (t + [l])[4..] == t[4..] + [l]; }
  }

  lemma WalksOut(c: Config, s: State, l: Label, t: seq<Label>)
    requires Enabled(s, l) && (l.Join? || l.OpenData?) && WalkedAt(s, l.v, t)
    ensures WalksTo(c, s, l, t)
  {
    var t' := t + [l];
    if l.Join? {
      assert t'[..|t'| - 1] == t;
    } else if l.success {
      assert t[|t| - 1] == Join(l.v, true);
      assert t'[..|t'| - 2] == t[..|t| - 1] && t'[|t'| - 2..] == [Join(l.v, true), OpenData(l.v, true)];
    }
  }

  lemma WalksOn(c: Config, s: State, l: Label, t: seq<Label>)
    requires Enabled(s, l) && !HostLabel(l) && WalkedAt(s, l.v, t)
    ensures WalksTo(c, s, l, t)
  {
    hide WalksTo, WalkedAt;
    match l
    case Enqueue(_, _) => WalksUp(c, s, l, t);
    case Notify(_, _) => WalksUp(c, s, l, t);
    case Receive(_) => WalksBack(c, s, l, t);
    case Timeout(_) => WalksBack(c, s, l, t);
    case Leave(_) => WalksAway(c, s, l, t);
    case Join(_, _) => WalksOut(c, s, l, t);
    case OpenData(_, _) => WalksOut(c, s, l, t);
    case _ => WalksIn(c, s, l, t);
  }

  lemma ModeStays(c: Config, s: State, l: Label, v: nat, w: Viewer)
    requires Enabled(s, l) && PlacedAt(s, v, w)
    ensures ModeAt(Next(c, s, l), w.pc) == ModeAt(s, w.pc)
  {
    if !w.pc.Connecting? && !w.pc.Closed? { StepKeepsIdentity(c, s, l, w.pc.reg); }
  }

  lemma OthersStay(c: Config, s: State, l: Label, v: nat)
    requires Enabled(s, l) && (HostLabel(l) || l.v != v)
    ensures (v in Next(c, s, l).viewers) == (v in s.viewers)
    ensures v in s.viewers ==>
      var (w, w') := (s.viewers[v], Next(c, s, l).viewers[v]);
      w'.pc == w.pc && w'.id == w.id && w'.pin == w.pin
  {
    if HostLabel(l) { HostMovesNoViewer(s, l); } else { Causality.ViewerKeepsName(c, s, l); }
  }

  // The mode at the viewer's new place is the same before and after the step.
  lemma ModeAfter(c: Config, s: State, l: Label)
    requires Enabled(s, l) && !HostLabel(l) && Agrees(s) && Placed(s)
    ensures l.v in Next(c, s, l).viewers
    ensures var w := Next(c, s, l).viewers[l.v]; ModeAt(Next(c, s, l), w.pc) == ModeAt(s, w.pc)
  {
    var w := Next(c, s, l).viewers[l.v];
    ViewerPlaced(c, s, l);
    if !w.pc.Connecting? && !w.pc.Closed? { StepKeepsIdentity(c, s, l, w.pc.reg); }
  }

  lemma StepWalked(c: Config, s: State, l: Label, v: nat, t: seq<Label>)
    requires Enabled(s, l) && Agrees(s) && Placed(s) && WalkedAt(s, v, t)
    ensures WalkedAt(Next(c, s, l), v, t + if !HostLabel(l) && l.v == v then [l] else [])
  {
    hide Next, Walked, ModeAt, Agrees, PlacedAt, Enabled;
    if !HostLabel(l) && l.v == v {
      OwnWalk(c, s, l, t);
    } else {
      OthersStay(c, s, l, v);
      assert t + [] == t;
      if v in s.viewers {
        ModeStays(c, s, l, v, s.viewers[v]);
        SameWalk(t, v, s.viewers[v], Next(c, s, l).viewers[v], ModeAt(s, s.viewers[v].pc));
      }
    }
  }

  lemma OwnWalk(c: Config, s: State, l: Label, t: seq<Label>)
    requires Enabled(s, l) && !HostLabel(l) && Agrees(s) && Placed(s) && WalkedAt(s, l.v, t)
    ensures WalkedAt(Next(c, s, l), l.v, t + [l])
  {
    hide Walked, ModeAt, Agrees, Placed, Enabled, ViewerChange;
    WalksOn(c, s, l, t);
    ModeAfter(c, s, l);
  }

  lemma SameWalk(t: seq<Label>, v: nat, w: Viewer, w': Viewer, unattended: bool)
    requires w'.pc == w.pc && w'.id == w.id && w'.pin == w.pin
    ensures Walked(t, v, w, unattended) == Walked(t, v, w', unattended)
  {
  }

  lemma NextSteps(past: seq<Label>, l: Label, v: nat)
    ensures StepsOf(past + [l], v) == StepsOf(past, v) + if !HostLabel(l) && l.v == v then [l] else []
  {
    assert (past + [l])[..|past|] == past;
  }

  lemma {:induction false} RunWalked(c: Config, s: State, past: seq<Label>, labels: seq<Label>, v: nat)
    requires Run(c, s, labels).Some? && Agrees(s) && Placed(s) && WalkedAt(s, v, StepsOf(past, v))
    ensures WalkedAt(Run(c, s, labels).value, v, StepsOf(past + labels, v))
    decreases |labels|
  {
    hide Next, Agrees, Placed, WalkedAt, StepsOf, HostLabel;
    if labels == [] {
      assert past + [] == past;
    } else {
      var l := labels[0];
      StepAgrees(c, s, l);
      StepPlaced(c, s, l);
      StepWalked(c, s, l, v, StepsOf(past, v));
      NextSteps(past, l, v);
      RunWalked(c, Next(c, s, l), past + [l], labels[1..], v);
      assert past + [l] + labels[1..] == past + labels;
    }
  }

  // Opened is recorded of viewers that are bridged, and they stay so.
  ghost predicate OpenedAreBridged(s: State) {
    forall i :: 0 <= i < |s.log| && s.log[i].Opened? ==>
      s.log[i].v in s.viewers && s.viewers[s.log[i].v].pc == Bridged(s.log[i].r, s.log[i].session)
  }

  lemma StepOpened(c: Config, s: State, l: Label)
    requires Enabled(s, l) && OpenedAreBridged(s)
    ensures OpenedAreBridged(Next(c, s, l))
  {
    var s', events := Next(c, s, l), ChangeOf(c, s, l).events;
    forall i | 0 <= i < |s'.log| && s'.log[i].Opened?
      ensures var e := s'.log[i]; e.v in s'.viewers && s'.viewers[e.v].pc == Bridged(e.r, e.session)
    {
      if i < |s.log| {
        BridgedStays(c, s, l, s.log[i].v);
      } else {
        OpenedNow(c, s, l, i - |s.log|);
      }
    }
  }

  lemma BridgedStays(c: Config, s: State, l: Label, v: nat)
    requires Enabled(s, l) && v in s.viewers && s.viewers[v].pc.Bridged?
    ensures v in Next(c, s, l).viewers && Next(c, s, l).viewers[v].pc == s.viewers[v].pc
  {
    if HostLabel(l) || l.v != v { OthersStay(c, s, l, v); }
  }

  lemma OpenedNow(c: Config, s: State, l: Label, n: nat)
    requires Enabled(s, l) && n < |ChangeOf(c, s, l).events| && ChangeOf(c, s, l).events[n].Opened?
    ensures var e := ChangeOf(c, s, l).events[n];
      e.v in Next(c, s, l).viewers && Next(c, s, l).viewers[e.v].pc == Bridged(e.r, e.session)
  {
    if HostLabel(l) {
      if l.LoopReads? { Causality.LoopShape(s, l.r, l.newId, l.newPin); } else { Causality.HostSilent(s, l); }
    } else {
      Admission.OneEvent(c, s, l);
    }
  }

  lemma {:induction false} RunOpened(c: Config, s: State, labels: seq<Label>)
    requires Run(c, s, labels).Some? && OpenedAreBridged(s)
    ensures OpenedAreBridged(Run(c, s, labels).value)
    decreases |labels|
  {
    hide Next, OpenedAreBridged;
    if labels != [] {
      StepOpened(c, s, labels[0]);
      RunOpened(c, Next(c, s, labels[0]), labels[1..]);
    }
  }

  // Over every run the viewer of a data channel came, was looked up, had its PIN checked and drew the
  // session id; unless the host asked to be unattended it was announced, received an answer and left
  // the pending map; then the session channel was accepted and the data channel opened, each once
  // and in this order.
  lemma NoStepSkipped(c: Config, labels: seq<Label>, e: Event)
    requires Run(c, INIT, labels).Some? && e.Opened? && e in Run(c, INIT, labels).value.log
    ensures var t := StepsOf(labels, e.v);
      var asked := if ModeOf(labels, e.r) == Some(true) then [] else [Notify(e.v, true), Receive(e.v), Leave(e.v)];
      && |t| > 4 && t[0].Arrive? && t[2].Check?
      && t == [t[0], Lookup(e.v), t[2], Enqueue(e.v, e.session)] + asked + [Join(e.v, true), OpenData(e.v, true)]
  {
    var s, t := Run(c, INIT, labels).value, StepsOf(labels, e.v);
    BridgedWalked(c, labels, e);
    var unattended := ModeOf(labels, e.r) == Some(true);
    hide Run, ModeOf, StepsOf, Agreed;
    assert t == t[..|t| - 2] + [Join(e.v, true), OpenData(e.v, true)];
    WholeWay(t[..|t| - 2], e.v, s.viewers[e.v], e.session, unattended);
  }

  lemma BridgedWalked(c: Config, labels: seq<Label>, e: Event)
    requires Run(c, INIT, labels).Some? && e.Opened? && e in Run(c, INIT, labels).value.log
    ensures var s, t := Run(c, INIT, labels).value, StepsOf(labels, e.v);
      && e.v in s.viewers && |t| > 1 && t[|t| - 2..] == [Join(e.v, true), OpenData(e.v, true)]
      && Agreed(t[..|t| - 2], e.v, s.viewers[e.v], e.session, ModeOf(labels, e.r) == Some(true))
  {
    hide Run, ModeOf, StepsOf, Agreed;
    var s := Run(c, INIT, labels).value;
    OpenedBridged(c, labels, e);
    WalkedFrom(c, labels, e.v);
    BridgedMode(c, labels, e.v);
    RegisteredMode(c, labels, e.r);
  }

  lemma OpenedBridged(c: Config, labels: seq<Label>, e: Event)
    requires Run(c, INIT, labels).Some? && e.Opened? && e in Run(c, INIT, labels).value.log
    ensures var s := Run(c, INIT, labels).value; e.v in s.viewers && s.viewers[e.v].pc == Bridged(e.r, e.session)
  {
    RunOpened(c, INIT, labels);
    hide Run;
  }

  lemma WalkedFrom(c: Config, labels: seq<Label>, v: nat)
    requires Run(c, INIT, labels).Some?
    ensures WalkedAt(Run(c, INIT, labels).value, v, StepsOf(labels, v))
  {
    RunWalked(c, INIT, [], labels, v);
    assert [] + labels == labels;
  }

  lemma WholeWay(t: seq<Label>, v: nat, w: Viewer, k: string, unattended: bool)
    requires Agreed(t, v, w, k, unattended)
    ensures |t| >= 4 && t[0].Arrive? && t[2].Check?
    ensures t == [t[0], Lookup(v), t[2], Enqueue(v, k)]
                 + if unattended then [] else [Notify(v, true), Receive(v), Leave(v)]
  {
    if !unattended { assert t == t[..4] + t[4..] && t[..4] == [t[0], Lookup(v), t[2], Enqueue(v, k)]; }
  }

  lemma BridgedMode(c: Config, labels: seq<Label>, v: nat)
    requires Run(c, INIT, labels).Some?
    ensures var s := Run(c, INIT, labels).value;
      v in s.viewers && s.viewers[v].pc.Bridged? ==>
        s.viewers[v].pc.reg in s.regs && s.regs[s.viewers[v].pc.reg].registered
  {
    RunPlaced(c, INIT, labels);
    var s := Run(c, INIT, labels).value;
    if v in s.viewers { assert PlacedAt(s, v, s.viewers[v]); }
  }

  lemma {:induction false} RunPlaced(c: Config, s: State, labels: seq<Label>)
    requires Agrees(s) && Placed(s) && Run(c, s, labels).Some?
    ensures Placed(Run(c, s, labels).value)
    decreases |labels|
  {
    hide Agrees, Placed, Next;
    if labels != [] {
      StepAgrees(c, s, labels[0]);
      StepPlaced(c, s, labels[0]);
      RunPlaced(c, Next(c, s, labels[0]), labels[1..]);
    }
  }

  // ---- Nothing else stops it ----

  lemma RunFirst(c: Config, s: State, l: Label, later: seq<Label>)
    requires Enabled(s, l)
    ensures Run(c, s, [l] + later) == Run(c, Next(c, s, l), later)
  {
    assert ([l] + later)[1..] == later;
  }

  // Viewer v joins the session channel of a host that let it in, and the data channel is opened.
  lemma LetIn(c: Config, s: State, v: nat, r: nat, k: string) returns (s': State)
    requires At(s, v) && s.viewers[v].pc == Consented(r, k)
    ensures Run(c, s, [Join(v, true), OpenData(v, true)]) == Some(s')
    ensures v in s'.viewers && s'.viewers[v].pc == Bridged(r, k) && s'.log == s.log + [Opened(v, r, k)]
  {
    var s1 := Next(c, s, Join(v, true));
    s' := Next(c, s1, OpenData(v, true));
    RunFirst(c, s, Join(v, true), [OpenData(v, true)]);
    RunFirst(c, s1, OpenData(v, true), []);
    assert [OpenData(v, true)] + [] == [OpenData(v, true)];
    assert [Join(v, true)] + [OpenData(v, true)] == [Join(v, true), OpenData(v, true)];
    assert s1.log == s.log + [] == s.log;
  }

  // An admitted viewer of an unattended host is let in without anybody being asked.
  lemma UnattendedLetsIn(c: Config, s: State, v: nat, r: nat, k: string) returns (s': State)
    requires At(s, v) && s.viewers[v].pc == Admitted(r) && s.regs[r].unattended
    ensures Run(c, s, [Enqueue(v, k)] + [Join(v, true), OpenData(v, true)]) == Some(s')
    ensures v in s'.viewers && s'.viewers[v].pc == Bridged(r, k) && s'.log == s.log + [Opened(v, r, k)]
  {
    var s1 := Next(c, s, Enqueue(v, k));
    assert s1.log == s.log + [] == s.log;
    s' := LetIn(c, s1, v, r, k);
    RunFirst(c, s, Enqueue(v, k), [Join(v, true), OpenData(v, true)]);
  }

  // What a waiting viewer receives decides: Accept lets it in, Reject turns it away.
  lemma AnswerDecides(c: Config, s: State, v: nat, r: nat, k: string, ok: bool) returns (s': State)
    requires At(s, v) && s.viewers[v].pc == Asked(r, k) && s.viewers[v].box == Some(ok)
    ensures Run(c, s, [Receive(v)] + ([Leave(v)] + if ok then [Join(v, true), OpenData(v, true)] else [])) == Some(s')
    ensures v in s'.viewers && s'.viewers[v].pc == (if ok then Bridged(r, k) else Closed)
    ensures s'.log == s.log + if ok then [Opened(v, r, k)] else []
  {
    var last := if ok then [Join(v, true), OpenData(v, true)] else [];
    var s1 := Next(c, s, Receive(v));
    var s2 := Next(c, s1, Leave(v));
    assert s2.log == s.log + [] + [] == s.log;
    RunFirst(c, s, Receive(v), [Leave(v)] + last);
    RunFirst(c, s1, Leave(v), last);
    if ok { s' := LetIn(c, s2, v, r, k); } else { s' := s2; }
  }

  // A viewer that receives nothing in time is turned away.
  lemma SilenceTurnsAway(c: Config, s: State, v: nat) returns (s': State)
    requires At(s, v) && s.viewers[v].pc.Asked?
    ensures Run(c, s, [Timeout(v)] + [Leave(v)]) == Some(s')
    ensures v in s'.viewers && s'.viewers[v].pc == Closed && s'.log == s.log
  {
    var s1 := Next(c, s, Timeout(v));
    s' := Next(c, s1, Leave(v));
    assert s'.log == s.log + [] + [] == s.log;
    RunFirst(c, s, Timeout(v), [Leave(v)]);
    RunFirst(c, s1, Leave(v), []);
    assert [Leave(v)] + [] == [Leave(v)];
  }

  // The host is told, its agent answers, and the control loop passes the answer on.
  function Exchange(v: nat, r: nat, consent: bool): seq<Label> {
    [Notify(v, true)] + ([HostReads(r, consent)] + ([LoopReads(r, "", "")] + [Deliver(r)]))
  }

  lemma AnswerArrives(c: Config, s: State, v: nat, r: nat, k: string, consent: bool) returns (s': State)
    requires At(s, v) && s.viewers[v].pc == Queued(r, k) && s.viewers[v].box == None
    requires k in s.regs[r].pending && s.regs[r].pending[k] == v
    requires s.regs[r].agent == Serving && s.regs[r].loop == Reading && s.regs[r].down == s.regs[r].up == []
    ensures Run(c, s, Exchange(v, r, consent)) == Some(s')
    ensures At(s', v) && s'.viewers[v].pc == Asked(r, k) && s'.viewers[v].box == Some(consent)
    ensures s'.log == s.log + [Sent(r, k), Heard(r, k, consent), Hit(v, r, k, consent)]
  {
    var a, b, d, e := Notify(v, true), HostReads(r, consent), LoopReads(r, "", ""), Deliver(r);
    var s1 := Notified(c, s, v, r, k);
    var s2 := Replied(c, s1, r, k, consent);
    var s3 := Looked(c, s2, v, r, k, consent);
    s' := Delivered(c, s3, v, r, consent);
    hide Enabled, Next;
    assert At(s', v) && s'.viewers[v].pc == Asked(r, k) && s'.viewers[v].box == Some(consent);
    hide At;
    assert s'.log == s.log + [Sent(r, k)] + [Heard(r, k, consent), Hit(v, r, k, consent)];
    RunFirst(c, s, a, [b] + ([d] + [e]));
    RunFirst(c, s1, b, [d] + [e]);
    RunFirst(c, s2, d, [e]);
    RunFirst(c, s3, e, []);
    assert [e] + [] == [e];
  }

  lemma Notified(c: Config, s: State, v: nat, r: nat, k: string) returns (s': State)
    requires At(s, v) && s.viewers[v].pc == Queued(r, k)
    ensures Enabled(s, Notify(v, true)) && s' == Next(c, s, Notify(v, true))
    ensures s'.viewers == s.viewers[v := s.viewers[v].(pc := Asked(r, k))]
    ensures s'.regs == s.regs[r := s.regs[r].(down := s.regs[r].down + [Incoming(k)])]
    ensures s'.log == s.log + [Sent(r, k)]
  {
    s' := Next(c, s, Notify(v, true));
  }

  lemma Replied(c: Config, s: State, r: nat, k: string, consent: bool) returns (s': State)
    requires r in s.regs && s.regs[r].agent == Serving && s.regs[r].up == []
    requires s.regs[r].down == [Incoming(k)]
    ensures Enabled(s, HostReads(r, consent)) && s' == Next(c, s, HostReads(r, consent))
    ensures s'.regs == s.regs[r := s.regs[r].(down := [], up := [if consent then Accept(k) else Reject(k)])]
    ensures s'.viewers == s.viewers && s'.log == s.log
  {
    var m := if consent then Accept(k) else Reject(k);
    s' := Next(c, s, HostReads(r, consent));
    assert s'.log == s.log + [] == s.log;
    assert s.regs[r].down[1..] == [] && s.regs[r].up + [m] == [m];
  }

  lemma Looked(c: Config, s: State, v: nat, r: nat, k: string, ok: bool) returns (s': State)
    requires r in s.regs && s.regs[r].loop == Reading && k in s.regs[r].pending && s.regs[r].pending[k] == v
    requires s.regs[r].up == [if ok then Accept(k) else Reject(k)]
    ensures Enabled(s, LoopReads(r, "", "")) && s' == Next(c, s, LoopReads(r, "", ""))
    ensures s'.regs == s.regs[r := s.regs[r].(up := [], loop := Resolving(Some(v), ok))]
    ensures s'.viewers == s.viewers && s'.log == s.log + [Heard(r, k, ok), Hit(v, r, k, ok)]
  {
    s' := Next(c, s, LoopReads(r, "", ""));
    assert s.regs[r].up[1..] == [];
  }

  lemma Delivered(c: Config, s: State, v: nat, r: nat, ok: bool) returns (s': State)
    requires r in s.regs && s.regs[r].loop == Resolving(Some(v), ok) && v in s.viewers && s.viewers[v].box == None
    ensures Enabled(s, Deliver(r)) && s' == Next(c, s, Deliver(r))
    ensures s'.regs == s.regs[r := s.regs[r].(loop := Reading)]
    ensures s'.viewers == s.viewers[v := s.viewers[v].(box := Some(ok))] && s'.log == s.log
  {
    s' := Next(c, s, Deliver(r));
    assert s'.log == s.log + [] == s.log;
  }

  // What follows an answer.
  function Verdict(v: nat, consent: bool): seq<Label> {
    [Receive(v)] + ([Leave(v)] + if consent then [Join(v, true), OpenData(v, true)] else [])
  }

  // With an idle agent and nobody in between, the agent's own answer decides whether the data channel
  // is opened.
  lemma ConsentDecides(c: Config, s: State, v: nat, r: nat, k: string, consent: bool) returns (s': State)
    requires At(s, v) && s.viewers[v].pc == Admitted(r) && s.viewers[v].box == None && !s.regs[r].unattended
    requires s.regs[r].agent == Serving && s.regs[r].loop == Reading && s.regs[r].down == s.regs[r].up == []
    ensures Run(c, s, [Enqueue(v, k)] + (Exchange(v, r, consent) + Verdict(v, consent))) == Some(s')
    ensures v in s'.viewers && s'.viewers[v].pc == (if consent then Bridged(r, k) else Closed)
    ensures s'.log == s.log + [Sent(r, k), Heard(r, k, consent), Hit(v, r, k, consent)]
                   + if consent then [Opened(v, r, k)] else []
  {
    var s1 := Queueing(c, s, v, r, k);
    RunFirst(c, s, Enqueue(v, k), Exchange(v, r, consent) + Verdict(v, consent));
    var s2 := AnswerArrives(c, s1, v, r, k, consent);
    s' := AnswerDecides(c, s2, v, r, k, consent);
    hide Exchange, Run, Next;
    Scenes.RunThen(c, s1, Exchange(v, r, consent), Verdict(v, consent));
  }

  lemma Queueing(c: Config, s: State, v: nat, r: nat, k: string) returns (s': State)
    requires At(s, v) && s.viewers[v].pc == Admitted(r) && !s.regs[r].unattended
    ensures Enabled(s, Enqueue(v, k)) && s' == Next(c, s, Enqueue(v, k)) && At(s', v)
    ensures s'.viewers[v] == s.viewers[v].(pc := Queued(r, k)) && s'.log == s.log
    ensures s'.regs[r] == s.regs[r].(pending := s.regs[r].pending[k := v])
  {
    s' := Next(c, s, Enqueue(v, k));
    assert s'.log == s.log + [] == s.log;
  }

  // ---- Ids that repeat ----

  // A viewer that leaves deletes the entry pending under its session even if another one waits there
  // with the same id; that one waits on, and an answer then finds nobody.
  lemma LeavingStrands(c: Config, s: State, v: nat, u: nat, r: nat, k: string, ok: bool)
    requires Enabled(s, Leave(v)) && s.viewers[v].pc.reg == r && s.viewers[v].pc.session == k
    requires u in s.viewers && u != v && s.viewers[u].pc == Asked(r, k)
    requires s.regs[r].loop == Reading && s.regs[r].up == [if ok then Accept(k) else Reject(k)]
    ensures var s1 := Next(c, s, Leave(v));
      && s1.regs[r].pending == s.regs[r].pending - {k} && s1.viewers[u] == s.viewers[u]
      && Enabled(s1, LoopReads(r, "", ""))
      && var s2 := Next(c, s1, LoopReads(r, "", ""));
      && Enabled(s2, Deliver(r)) && s2.viewers == s1.viewers && Next(c, s2, Deliver(r)).viewers == s1.viewers
  {
  }
}
