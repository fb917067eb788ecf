// What holds of every data channel opened, also when session ids repeat.
module Admission {
  import opened Bytes
  import opened Broker
  import opened Registry
  import opened Consent
  import opened Control
  import Causality
  import Replies

  // The viewer was admitted, and afterwards a reply ok was heard and found the pending entry of that
  // very viewer.
  predicate BackedAt(log: seq<Event>, v: nat, r: nat, k: string, ok: bool, j: nat, m: nat) {
    j < m < |log| - 1 && log[j] == Admit(v, r) && log[m] == Heard(r, k, ok) && log[m + 1] == Hit(v, r, k, ok)
  }

  ghost predicate Backed(log: seq<Event>, v: nat, r: nat, k: string, ok: bool) {
    exists j, m :: BackedAt(log, v, r, k, ok, j, m)
  }

  lemma BackedLater(log: seq<Event>, more: seq<Event>, v: nat, r: nat, k: string, ok: bool)
    requires Backed(log, v, r, k, ok)
    ensures Backed(log + more, v, r, k, ok)
  {
    var j, m :| BackedAt(log, v, r, k, ok, j, m);
    assert BackedAt(log + more, v, r, k, ok, j, m);
  }

  lemma BackedNow(log: seq<Event>, v: nat, r: nat, k: string, ok: bool)
    requires Admit(v, r) in log
    ensures Backed(log + [Heard(r, k, ok), Hit(v, r, k, ok)], v, r, k, ok)
  {
    var j :| 0 <= j < |log| && log[j] == Admit(v, r);
    assert BackedAt(log + [Heard(r, k, ok), Hit(v, r, k, ok)], v, r, k, ok, j, |log|);
  }

  predicate Granted(pc: Pc) {
    (pc.Leaving? && pc.result) || pc.Consented? || pc.Joined? || pc.Bridged?
  }

  // What a viewer's result channel holds, and its consent by an attended host, is backed by a reply.
  ghost predicate Grounded(log: seq<Event>, v: nat, w: Viewer, unattended: bool) {
    if w.pc.InSession() then
      && (w.box.Some? ==> Backed(log, v, w.pc.reg, w.pc.session, w.box.value))
      && (Granted(w.pc) && !unattended ==> Backed(log, v, w.pc.reg, w.pc.session, true))
    else w.pc.Closed? || w.box.None?
  }

  ghost predicate GroundedAt(s: State, v: nat, w: Viewer) {
    (w.pc.InSession() ==> w.pc.reg in s.regs)
    && Grounded(s.log, v, w, w.pc.InSession() && s.regs[w.pc.reg].unattended)
  }

  // A reply held by the control loop is backed for the session of the viewer whose channel it found.
  ghost predicate HeldFor(s: State, r: nat, loop: Loop) {
    Replies.Loaded(loop) ==>
      var v := loop.ch.value;
      && v in s.viewers && (s.viewers[v].pc.InSession() || s.viewers[v].pc.Closed?)
      && (s.viewers[v].pc.InSession() ==>
            s.viewers[v].pc.reg == r && Backed(s.log, v, r, s.viewers[v].pc.session, loop.ok))
  }

  // A pending entry belongs to a viewer that waits there with its session.
  ghost predicate EntryWaits(s: State, r: nat, k: string)
    requires r in s.regs && k in s.regs[r].pending
  {
    Waits(s, s.regs[r].pending[k], r, k)
  }

  ghost predicate Supported(s: State) {
    && (forall r, k :: r in s.regs && k in s.regs[r].pending ==> EntryWaits(s, r, k))
    && (forall v :: v in s.viewers ==> GroundedAt(s, v, s.viewers[v]))
    && (forall r :: r in s.regs ==> HeldFor(s, r, s.regs[r].loop))
  }

  // ---- Pending entries over one step ----

  lemma EntriesKept(s: State, d: Change, r: nat, k: string)
    requires SessionKept(s, d) && Supported(s) && r in Apply(s, d).regs && k in Apply(s, d).regs[r].pending
    ensures EntryWaits(Apply(s, d), r, k)
  {
    assert EntryWaits(s, r, k);
  }

  lemma EntriesStart(s: State, d: Change, v: nat, n: string, r: nat, k: string)
    requires SessionStarts(s, d, v, n) && Supported(s) && r in Apply(s, d).regs && k in Apply(s, d).regs[r].pending
    ensures EntryWaits(Apply(s, d), r, k)
  {
    if d.reg.None? || r != s.viewers[v].pc.reg || k != n { assert EntryWaits(s, r, k); }
  }

  lemma EntriesLeft(s: State, d: Change, v: nat, r: nat, k: string)
    requires SessionLeft(s, d, v) && Supported(s) && r in Apply(s, d).regs && k in Apply(s, d).regs[r].pending
    ensures EntryWaits(Apply(s, d), r, k)
  {
    assert EntryWaits(s, r, k);
  }

  lemma StepEntries(c: Config, s: State, l: Label, r: nat, k: string)
    requires Enabled(s, l) && Supported(s) && r in Next(c, s, l).regs && k in Next(c, s, l).regs[r].pending
    ensures EntryWaits(Next(c, s, l), r, k)
  {
    var d := ChangeOf(c, s, l);
    if HostLabel(l) {
      HostSessions(s, l);
      EntriesKept(s, d, r, k);
    } else {
      ViewerSessions(c, s, l);
      if l.Enqueue? { EntriesStart(s, d, l.v, l.session, r, k); }
      else if l.Leave? { EntriesLeft(s, d, l.v, r, k); }
      else { EntriesKept(s, d, r, k); }
    }
  }

  // ---- Viewers over one step ----

  // How a viewer moves on its own: its session and its backing stay, or it starts one with an empty
  // channel.
  predicate ViewerMoved(s: State, v: nat, w: Viewer) {
    if v in s.viewers then
      var w0 := s.viewers[v];
      && (w0.pc.InSession() || w0.pc.Closed? ==> w.pc.InSession() || w.pc.Closed?)
      && (w0.pc.InSession() && w.pc.InSession() ==> w.pc.reg == w0.pc.reg && w.pc.session == w0.pc.session)
      && (w0.pc.Closed? ==> w.pc.Closed?)
    else !w.pc.InSession() && !w.pc.Closed?
  }

  lemma CheckGrounded(c: Config, s: State, v: nat, now: nat, later: nat)
    requires At(s, v) && s.viewers[v].pc.Found? && GroundedAt(s, v, s.viewers[v])
    ensures var d := CheckStep(c, s, v, now, later);
      d.viewer.Some? && d.viewer.value.v == v && ViewerMoved(s, v, d.viewer.value.w)
      && GroundedAt(s, v, d.viewer.value.w)
  {
  }

  lemma ViewerGrounded(c: Config, s: State, l: Label)
    requires Enabled(s, l) && !HostLabel(l)
    requires l.v in s.viewers ==> GroundedAt(s, l.v, s.viewers[l.v])
    ensures var d := ViewerChange(c, s, l);
      d.viewer.Some? && d.viewer.value.v == l.v && ViewerMoved(s, l.v, d.viewer.value.w)
      && GroundedAt(s, l.v, d.viewer.value.w)
  {
    hide Backed;
    if l.Check? { CheckGrounded(c, s, l.v, l.now, l.later); }
  }

  lemma ViewerLoops(c: Config, s: State, l: Label)
    requires Enabled(s, l) && !HostLabel(l)
    ensures var d := ViewerChange(c, s, l);
      d.reg.Some? ==> d.reg.value.r in s.regs && d.reg.value.reg.loop == s.regs[d.reg.value.r].loop
  {
  }

  // What is grounded in the registrations and log before a step is so after it.
  lemma StaysGrounded(c: Config, s: State, l: Label, v: nat, w: Viewer)
    requires Enabled(s, l) && GroundedAt(s, v, w)
    requires w.pc.InSession() ==> s.regs[w.pc.reg].registered
    ensures GroundedAt(Next(c, s, l), v, w)
  {
    hide Backed;
    if w.pc.InSession() {
      var r, k, events := w.pc.reg, w.pc.session, ChangeOf(c, s, l).events;
      StepKeepsIdentity(c, s, l, r);
      if w.box.Some? { BackedLater(s.log, events, v, r, k, w.box.value); }
      if Granted(w.pc) && !s.regs[r].unattended { BackedLater(s.log, events, v, r, k, true); }
    }
  }

  // Delivering puts what the control loop holds into the channel.
  lemma DeliverGrounded(s: State, l: Label, v: nat)
    requires Enabled(s, l) && l.Deliver? && Supported(s) && v in s.viewers
    ensures v in Apply(s, HostChange(s, l)).viewers && GroundedAt(s, v, Apply(s, HostChange(s, l)).viewers[v])
  {
    hide Backed;
    assert GroundedAt(s, v, s.viewers[v]) && HeldFor(s, l.r, s.regs[l.r].loop);
  }

  lemma StepGrounded(c: Config, s: State, l: Label, v: nat)
    requires Enabled(s, l) && Placed(s) && Agrees(s) && Supported(s) && v in Next(c, s, l).viewers
    ensures GroundedAt(Next(c, s, l), v, Next(c, s, l).viewers[v])
  {
    hide GroundedAt, HeldFor, EntryWaits;
    var w := Next(c, s, l).viewers[v];
    if l.Deliver? {
      HostMovesNoViewer(s, l);
      DeliverGrounded(s, l, v);
      assert PlacedAt(s, v, s.viewers[v]);
      StaysGrounded(c, s, l, v, w);
    } else if HostLabel(l) {
      HostLeaves(s, l);
      assert PlacedAt(s, v, w);
      StaysGrounded(c, s, l, v, w);
    } else {
      ViewerGrounded(c, s, l);
      ViewerPlaced(c, s, l);
      if v in s.viewers { assert PlacedAt(s, v, s.viewers[v]); }
      StaysGrounded(c, s, l, v, w);
    }
  }

  lemma HostLeaves(s: State, l: Label)
    requires Enabled(s, l) && HostLabel(l) && !l.Deliver?
    ensures HostChange(s, l).viewer.None?
  {
    if l.LoopReads? { Replies.LoopMoves(s, l.r, l.newId, l.newPin); } else { Replies.HostMoves(s, l); }
  }

  // ---- Control loops over one step ----

  // A viewer with a session keeps it or is closed, and a closed one stays so.
  lemma StepKeepsSession(c: Config, s: State, l: Label, v: nat)
    requires Enabled(s, l) && v in s.viewers && (s.viewers[v].pc.InSession() || s.viewers[v].pc.Closed?)
    ensures var w, w' := s.viewers[v], Next(c, s, l).viewers[v];
      && (w'.pc.InSession() || w'.pc.Closed?)
      && (w'.pc.InSession() ==> w.pc.InSession() && w'.pc.reg == w.pc.reg && w'.pc.session == w.pc.session)
  {
    if HostLabel(l) { HostMovesNoViewer(s, l); } else { ViewerKeepsSession(c, s, l); }
  }

  lemma ViewerKeepsSession(c: Config, s: State, l: Label)
    requires Enabled(s, l) && !HostLabel(l)
    ensures var d := ViewerChange(c, s, l); d.viewer.Some? && d.viewer.value.v == l.v
    ensures l.v in s.viewers && (s.viewers[l.v].pc.InSession() || s.viewers[l.v].pc.Closed?) ==>
      ViewerMoved(s, l.v, ViewerChange(c, s, l).viewer.value.w)
  {
  }

  lemma HeldStays(c: Config, s: State, l: Label, r: nat, loop: Loop)
    requires Enabled(s, l) && HeldFor(s, r, loop)
    ensures HeldFor(Next(c, s, l), r, loop)
  {
    hide Backed;
    if Replies.Loaded(loop) {
      var v := loop.ch.value;
      StepKeepsSession(c, s, l, v);
      if s.viewers[v].pc.InSession() {
        BackedLater(s.log, ChangeOf(c, s, l).events, v, r, s.viewers[v].pc.session, loop.ok);
      }
    }
  }

  lemma FoundHeld(c: Config, s: State, l: Label)
    requires Enabled(s, l) && l.LoopReads? && Placed(s) && Supported(s)
    requires !Replies.NoHit(ChangeOf(c, s, l).events)
    ensures HeldFor(Next(c, s, l), l.r, Next(c, s, l).regs[l.r].loop)
  {
    Replies.LoopMoves(s, l.r, l.newId, l.newPin);
    var e := ChangeOf(c, s, l).events[1];
    assert EntryWaits(s, l.r, e.session) && PlacedAt(s, e.v, s.viewers[e.v]);
    BackedNow(s.log, e.v, l.r, e.session, e.ok);
  }

  lemma StepHeld(c: Config, s: State, l: Label, r: nat)
    requires Enabled(s, l) && Placed(s) && Supported(s) && r in Next(c, s, l).regs
    ensures HeldFor(Next(c, s, l), r, Next(c, s, l).regs[r].loop)
  {
    hide GroundedAt, EntryWaits;
    var loop := Next(c, s, l).regs[r].loop;
    if Replies.Loaded(loop) {
      if l.LoopReads? && l.r == r {
        Replies.LoopMoves(s, l.r, l.newId, l.newPin);
        FoundHeld(c, s, l);
      } else {
        SameLoaded(c, s, l, r);
        HeldStays(c, s, l, r, loop);
      }
    }
  }

  // Apart from a reading control loop, a step loads none.
  lemma SameLoaded(c: Config, s: State, l: Label, r: nat)
    requires Enabled(s, l) && !(l.LoopReads? && l.r == r) && r in Next(c, s, l).regs
    requires Replies.Loaded(Next(c, s, l).regs[r].loop)
    ensures r in s.regs && s.regs[r].loop == Next(c, s, l).regs[r].loop
  {
    if HostLabel(l) {
      if l.LoopReads? { Replies.LoopMoves(s, l.r, l.newId, l.newPin); }
      else if !l.Deliver? { Replies.HostMoves(s, l); }
    } else {
      ViewerLoops(c, s, l);
    }
  }

  lemma StepSupported(c: Config, s: State, l: Label)
    requires Enabled(s, l) && Agrees(s) && Placed(s) && Supported(s)
    ensures Supported(Next(c, s, l))
  {
    hide GroundedAt, HeldFor, EntryWaits, Next;
    var s' := Next(c, s, l);
    forall r, k | r in s'.regs && k in s'.regs[r].pending ensures EntryWaits(s', r, k) { StepEntries(c, s, l, r, k); }
    forall v | v in s'.viewers ensures GroundedAt(s', v, s'.viewers[v]) { StepGrounded(c, s, l, v); }
    forall r | r in s'.regs ensures HeldFor(s', r, s'.regs[r].loop) { StepHeld(c, s, l, r); }
  }

  // ---- Data channels on record ----

  // The channel was opened on a registration with the id and PIN the viewer gave, which had admitted
  // it; if that host is attended, on an Accept that found the viewer's own entry.
  ghost predicate OpenedRight(s: State, past: seq<Event>, e: Event) {
    e.Opened? ==>
      && e.v in s.viewers && e.r in s.regs && s.regs[e.r].registered
      && s.viewers[e.v].id == s.regs[e.r].id && s.viewers[e.v].pin == s.regs[e.r].pin
      && Admit(e.v, e.r) in past
      && (s.regs[e.r].unattended || Backed(past, e.v, e.r, e.session, true))
  }

  ghost predicate AllRight(s: State) {
    forall i :: 0 <= i < |s.log| ==> OpenedRight(s, s.log[..i], s.log[i])
  }

  lemma StaysRight(c: Config, s: State, l: Label, past: seq<Event>, e: Event)
    requires Enabled(s, l) && OpenedRight(s, past, e)
    ensures OpenedRight(Next(c, s, l), past, e)
  {
    hide Backed;
    if e.Opened? {
      Causality.StepKeepsName(c, s, l, e.v);
      StepKeepsIdentity(c, s, l, e.r);
    }
  }

  // What a step records is right in the state before it.
  lemma NewlyRight(c: Config, s: State, l: Label, n: nat)
    requires Enabled(s, l) && Placed(s) && Supported(s) && n < |ChangeOf(c, s, l).events|
    ensures var events := ChangeOf(c, s, l).events;
      OpenedRight(s, s.log + events[..n], events[n])
  {
    hide Backed;
    if HostLabel(l) {
      if l.LoopReads? { Causality.LoopShape(s, l.r, l.newId, l.newPin); } else { Causality.HostSilent(s, l); }
    } else {
      if l.v in s.viewers { assert PlacedAt(s, l.v, s.viewers[l.v]) && GroundedAt(s, l.v, s.viewers[l.v]); }
      OneEvent(c, s, l);
      assert s.log + ChangeOf(c, s, l).events[..n] == s.log;
    }
  }

  lemma OneEvent(c: Config, s: State, l: Label)
    requires Enabled(s, l) && !HostLabel(l)
    ensures |ViewerChange(c, s, l).events| <= 1
    ensures forall e :: e in ViewerChange(c, s, l).events && e.Opened? ==>
      l.v in s.viewers && s.viewers[l.v].pc == Joined(e.r, e.session) && e.v == l.v
  {
  }

  lemma StepRight(c: Config, s: State, l: Label)
    requires Enabled(s, l) && Placed(s) && Supported(s) && AllRight(s)
    ensures AllRight(Next(c, s, l))
  {
    hide OpenedRight, Supported, Placed, ChangeOf;
    var s', events := Next(c, s, l), ChangeOf(c, s, l).events;
    assert s'.log == s.log + events;
    forall i | 0 <= i < |s'.log| ensures OpenedRight(s', s'.log[..i], s'.log[i]) {
      if i < |s.log| {
        assert s'.log[..i] == s.log[..i];
        StaysRight(c, s, l, s.log[..i], s.log[i]);
      } else {
        var n := i - |s.log|;
        assert s'.log[..i] == s.log + events[..n];
        NewlyRight(c, s, l, n);
        StaysRight(c, s, l, s.log + events[..n], events[n]);
      }
    }
  }

  // ---- Every run ----

  lemma {:induction false} RunRight(c: Config, s: State, labels: seq<Label>)
    requires Agrees(s) && Placed(s) && Supported(s) && AllRight(s) && Run(c, s, labels).Some?
    ensures AllRight(Run(c, s, labels).value) && Supported(Run(c, s, labels).value)
    decreases |labels|
  {
    hide Agrees, Placed, Supported, AllRight, Next;
    if labels != [] {
      var l := labels[0];
      StepAgrees(c, s, l);
      StepPlaced(c, s, l);
      StepSupported(c, s, l);
      StepRight(c, s, l);
      RunRight(c, Next(c, s, l), labels[1..]);
    }
  }

  // In every run, repeated session ids or not, a data channel is opened only on the registration
  // whose id and PIN the viewer came with, the ones drawn for it, after that registration admitted
  // it and, unless the first Register from its host asked to be unattended, after an Accept that was
  // heard since and found the pending entry of that very viewer.
  lemma OpenedOnMatchedHost(c: Config, labels: seq<Label>, i: nat)
    requires Run(c, INIT, labels).Some?
    ensures var s := Run(c, INIT, labels).value;
      i < |s.log| && s.log[i].Opened? ==>
        var e := s.log[i];
        && e.v in s.viewers && e.r in s.regs
        && s.viewers[e.v].id == s.regs[e.r].id && s.viewers[e.v].pin == s.regs[e.r].pin
        && Arrive(e.v, s.regs[e.r].id, s.regs[e.r].pin) in labels
        && LoopReads(e.r, s.regs[e.r].id, s.regs[e.r].pin) in labels
        && Admit(e.v, e.r) in s.log[..i]
        && (ModeOf(labels, e.r) == Some(true) || Backed(s.log[..i], e.v, e.r, e.session, true))
  {
    hide Backed;
    RunRight(c, INIT, labels);
    NamesFromLabels(c, INIT, labels);
    if i < |Run(c, INIT, labels).value.log| && Run(c, INIT, labels).value.log[i].Opened? {
      RegisteredMode(c, labels, Run(c, INIT, labels).value.log[i].r);
    }
    var s := Run(c, INIT, labels).value;
    if i < |s.log| && s.log[i].Opened? { assert OpenedRight(s, s.log[..i], s.log[i]); }
  }

  // In every run a reply being read or delivered changes no viewer but the one whose entry it found,
  // and what that viewer then holds for its session is a reply heard for it after it was admitted.
  lemma ReplyTouchesOne(c: Config, labels: seq<Label>, l: Label, v: nat)
    requires Run(c, INIT, labels).Some? && (l.Deliver? || l.LoopReads?)
    ensures var s := Run(c, INIT, labels).value;
      Enabled(s, l) && v in s.viewers ==>
        && v in Next(c, s, l).viewers
        && var w, w' := s.viewers[v], Next(c, s, l).viewers[v];
        && w' == w.(box := w'.box)
        && (w' != w ==> l.Deliver? && s.regs[l.r].loop == Resolving(Some(v), w'.box.value))
        && (w' != w && w.pc.InSession() ==>
              w.pc.reg == l.r && Backed(s.log, v, l.r, w.pc.session, w'.box.value))
  {
    RunRight(c, INIT, labels);
    var s := Run(c, INIT, labels).value;
    if Enabled(s, l) && v in s.viewers { TouchesOne(c, s, l, v); }
  }

  lemma TouchesOne(c: Config, s: State, l: Label, v: nat)
    requires Supported(s) && Enabled(s, l) && (l.Deliver? || l.LoopReads?) && v in s.viewers
    ensures v in Next(c, s, l).viewers
    ensures var w, w' := s.viewers[v], Next(c, s, l).viewers[v];
      && w' == w.(box := w'.box)
      && (w' != w ==> l.Deliver? && s.regs[l.r].loop == Resolving(Some(v), w'.box.value))
      && (w' != w && w.pc.InSession() ==> w.pc.reg == l.r && Backed(s.log, v, l.r, w.pc.session, w'.box.value))
  {
    hide Backed;
    if l.LoopReads? { HostLeaves(s, l); } else { assert HeldFor(s, l.r, s.regs[l.r].loop); }
  }
}
