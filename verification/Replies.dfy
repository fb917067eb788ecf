// What a waiter hears: the first reply that found its session's pending entry.
module Replies {
  import opened Bytes
  import opened Broker
  import opened Registry
  import opened Consent

  // The first reply on record that found the entry of session k at registration r.
  function FirstHit(log: seq<Event>, r: nat, k: string): Option<bool>
    decreases |log|
  {
    if log == [] then None
    else
      var before, e := FirstHit(log[..|log| - 1], r, k), log[|log| - 1];
      if before.Some? then before else if e.Hit? && e.r == r && e.session == k then Some(e.ok) else None
  }

  // The hit among the events of one step, if any.
  function HitIn(events: seq<Event>, r: nat, k: string): Option<bool> {
    if events != [] && var e := events[|events| - 1]; e.Hit? && e.r == r && e.session == k
    then Some(events[|events| - 1].ok) else None
  }

  predicate OneHit(events: seq<Event>) {
    |events| <= 2 && (|events| == 2 ==> !events[0].Hit?)
  }

  lemma FirstHitAfter(log: seq<Event>, events: seq<Event>, r: nat, k: string)
    requires OneHit(events)
    ensures FirstHit(log + events, r, k)
         == if FirstHit(log, r, k).Some? then FirstHit(log, r, k) else HitIn(events, r, k)
  {
    if |events| == 0 {
      assert log + events == log;
    } else if |events| == 1 {
      assert (log + events)[..|log|] == log;
    } else {
      var once := log + events[..1];
      assert once[..|log|] == log;
      assert (log + events)[..|log| + 1] == once;
    }
  }

  // A viewer's result channel and decision agree with the first hit f of its session; the control
  // loop of its registration is at loop.
  predicate Decided(v: nat, w: Viewer, unattended: bool, loop: Loop, f: Option<bool>) {
    match w.pc
    case Queued(_, _) => Boxed(v, w, loop, f)
    case Asked(_, _) => Boxed(v, w, loop, f)
    case Leaving(_, _, result) => result ==> f == Some(true)
    case Consented(_, _) => unattended || f == Some(true)
    case Joined(_, _) => unattended || f == Some(true)
    case Bridged(_, _) => unattended || f == Some(true)
    case Closed => true
    case _ => w.box.None?
  }

  // The channel holds the first hit, unless that is still in the hands of the control loop.
  predicate Boxed(v: nat, w: Viewer, loop: Loop, f: Option<bool>) {
    if w.box.Some? then f == w.box else f.Some? ==> loop == Resolving(Some(v), f.value)
  }

  predicate DecidedAt(s: State, v: nat, w: Viewer) {
    if w.pc.InSession() then
      w.pc.reg in s.regs
      && Decided(v, w, s.regs[w.pc.reg].unattended, s.regs[w.pc.reg].loop, FirstHit(s.log, w.pc.reg, w.pc.session))
    else w.pc.Closed? || w.box.None?
  }

  // A control loop between the halves of resolve holds the channel of a viewer that has, or had,
  // a session; if that viewer still waits with an empty channel, the reply held is the first.
  predicate Held(s: State, r: nat, loop: Loop) {
    loop.Resolving? && loop.ch.Some? ==>
      var v := loop.ch.value;
      && v in s.viewers && (s.viewers[v].pc.InSession() || s.viewers[v].pc.Closed?)
      && (s.viewers[v].pc.Queued? || s.viewers[v].pc.Asked? ==>
            var f := FirstHit(s.log, s.viewers[v].pc.reg, s.viewers[v].pc.session);
            s.viewers[v].pc.reg == r && f.Some? && (s.viewers[v].box.None? ==> f == Some(loop.ok)))
  }

  ghost predicate Answers(s: State) {
    && (forall v :: v in s.viewers ==> DecidedAt(s, v, s.viewers[v]))
    && (forall r :: r in s.regs ==> Held(s, r, s.regs[r].loop))
    && (forall r, k :: FirstHit(s.log, r, k).Some? ==> k in s.used)
  }

  // ---- One step ----

  predicate NoHit(events: seq<Event>) {
    OneHit(events) && (events != [] ==> !events[|events| - 1].Hit?)
  }

  predicate Loaded(loop: Loop) {
    loop.Resolving? && loop.ch.Some?
  }

  // How one viewer moves, other than by starting a session: it keeps its session and its decision.
  predicate Moves(s: State, v: nat, w: Viewer) {
    if v in s.viewers then
      var w0 := s.viewers[v];
      && (w.pc.InSession() ==> w0.pc.InSession() && w.pc.reg == w0.pc.reg && w.pc.session == w0.pc.session)
      && (w0.pc.InSession() || w0.pc.Closed? ==> w.pc.InSession() || w.pc.Closed?)
      && (w.pc.Queued? || w.pc.Asked? ==> (w0.pc.Queued? || w0.pc.Asked?) && w.box == w0.box)
      && DecidedAt(s, v, w)
    else !w.pc.InSession() && w.box.None?
  }

  // A viewer's step, other than starting a session, as seen by its result channel.
  predicate ViewerMove(s: State, v: nat, d: Change) {
    && NoHit(d.events) && d.used == s.used
    && d.viewer.Some? && d.viewer.value.v == v && Moves(s, v, d.viewer.value.w)
    && (d.reg.Some? ==>
          && d.reg.value.r in s.regs
          && d.reg.value.reg.loop == s.regs[d.reg.value.r].loop
          && d.reg.value.reg.unattended == s.regs[d.reg.value.r].unattended)
  }

  lemma CheckMoves(c: Config, s: State, v: nat, now: nat, later: nat)
    requires At(s, v) && s.viewers[v].pc.Found? && DecidedAt(s, v, s.viewers[v])
    ensures ViewerMove(s, v, CheckStep(c, s, v, now, later))
  {
  }

  lemma ViewerMoves(c: Config, s: State, l: Label)
    requires Enabled(s, l) && !HostLabel(l) && !l.Enqueue?
    requires l.v in s.viewers ==> DecidedAt(s, l.v, s.viewers[l.v])
    ensures ViewerMove(s, l.v, ViewerChange(c, s, l))
  {
    if l.Check? {
      CheckMoves(c, s, l.v, l.now, l.later);
    } else if l.SendAlert? || l.Notify? || l.Leave? {
      SharedMoves(c, s, l);
    } else {
      OwnMoves(c, s, l);
    }
  }

  lemma SharedMoves(c: Config, s: State, l: Label)
    requires Enabled(s, l) && (l.SendAlert? || l.Notify? || l.Leave?) && DecidedAt(s, l.v, s.viewers[l.v])
    ensures ViewerMove(s, l.v, ViewerChange(c, s, l))
  {
  }

  lemma OwnMoves(c: Config, s: State, l: Label)
    requires Enabled(s, l) && (l.Arrive? || l.Lookup? || l.Receive? || l.Timeout? || l.Join? || l.OpenData?)
    requires l.v in s.viewers ==> DecidedAt(s, l.v, s.viewers[l.v])
    ensures ViewerMove(s, l.v, ViewerChange(c, s, l))
  {
  }

  lemma LoopMoves(s: State, r: nat, newId: string, newPin: string)
    requires Enabled(s, LoopReads(r, newId, newPin))
    ensures LoopMove(s, r, LoopStep(s, r, newId, newPin))
  {
    var reg := s.regs[r];
    var m := reg.up[0];
    if m.Accept? || m.Reject? { ReplyMoves(s, r, reg.(up := reg.up[1..]), m.session, m.Accept?); }
  }

  predicate LoopMove(s: State, r: nat, d: Change) {
    r in s.regs
      && d.viewer.None? && OneHit(d.events) && d.used == s.used
      && d.reg.Some? && d.reg.value.r == r && !Loaded(s.regs[r].loop)
      && if NoHit(d.events) then !Loaded(d.reg.value.reg.loop)
         else
           |d.events| == 2
           && var e := d.events[1];
           && e.r == r && e.session in s.regs[r].pending && e.v == s.regs[r].pending[e.session]
           && d.events == [Heard(r, e.session, e.ok), e]
           && d.reg.value.reg.loop == Resolving(Some(s.regs[r].pending[e.session]), e.ok)
  }

  lemma ReplyMoves(s: State, r: nat, rest: Reg, k: string, ok: bool)
    requires r in s.regs && rest.pending == s.regs[r].pending && s.regs[r].loop == Reading == rest.loop
    ensures LoopMove(s, r, Reply(s, r, rest, k, ok))
  {
  }

  lemma HostMoves(s: State, l: Label)
    requires Enabled(s, l) && HostLabel(l) && !l.LoopReads? && !l.Deliver?
    ensures var d := HostChange(s, l);
      && d.viewer.None? && d.events == [] && d.used == s.used && d.reg.Some?
      && if d.reg.value.r in s.regs then
           || d.reg.value.reg.loop == s.regs[d.reg.value.r].loop
           || (!Loaded(d.reg.value.reg.loop) && !Loaded(s.regs[d.reg.value.r].loop))
         else !Loaded(d.reg.value.reg.loop)
  {
  }

  // A registered host stays attended or unattended.
  predicate SameHost(s: State, d: Change) {
    d.reg.Some? && d.reg.value.r in s.regs && s.regs[d.reg.value.r].registered ==>
      d.reg.value.reg.unattended == s.regs[d.reg.value.r].unattended
  }

  lemma StepSameHost(c: Config, s: State, l: Label)
    requires Enabled(s, l)
    ensures SameHost(s, ChangeOf(c, s, l))
  {
    if HostLabel(l) { HostKeepsIdentity(s, l); } else { ViewerKeepsIdentity(c, s, l); }
  }

  predicate SameLoop(s: State, d: Change) {
    d.reg.Some? ==>
      var r, b := d.reg.value.r, d.reg.value.reg;
      || (r in s.regs && b.loop == s.regs[r].loop)
      || (!Loaded(b.loop) && (r in s.regs ==> !Loaded(s.regs[r].loop)))
  }

  predicate SameLog(s: State, d: Change, r: nat, k: string) {
    FirstHit(s.log + d.events, r, k) == FirstHit(s.log, r, k)
  }

  lemma QuietLog(s: State, d: Change)
    requires NoHit(d.events)
    ensures forall r, k :: SameLog(s, d, r, k)
  {
    forall r, k ensures SameLog(s, d, r, k) { FirstHitAfter(s.log, d.events, r, k); }
  }

  lemma MovedViewer(s: State, d: Change, v: nat)
    requires Placed(s) && Answers(s) && SameHost(s, d) && SameLoop(s, d) && v in Apply(s, d).viewers
    requires forall r, k :: SameLog(s, d, r, k)
    requires d.viewer.Some? ==> Moves(s, d.viewer.value.v, d.viewer.value.w)
    ensures DecidedAt(Apply(s, d), v, Apply(s, d).viewers[v])
  {
    if v in s.viewers {
      assert PlacedAt(s, v, s.viewers[v]) && DecidedAt(s, v, s.viewers[v]);
      var w := Apply(s, d).viewers[v];
      if w.pc.InSession() { assert SameLog(s, d, w.pc.reg, w.pc.session); }
    }
  }

  lemma MovedLoop(s: State, d: Change, r: nat)
    requires Answers(s) && SameLoop(s, d) && r in Apply(s, d).regs
    requires forall r, k :: SameLog(s, d, r, k)
    requires d.viewer.Some? ==> Moves(s, d.viewer.value.v, d.viewer.value.w)
    ensures Held(Apply(s, d), r, Apply(s, d).regs[r].loop)
  {
    var loop := Apply(s, d).regs[r].loop;
    if Loaded(loop) {
      assert Held(s, r, loop);
      var w := s.viewers[loop.ch.value];
      if w.pc.Queued? || w.pc.Asked? { assert SameLog(s, d, w.pc.reg, w.pc.session); }
    }
  }

  // A step that records no hit, delivers nothing and starts no session.
  lemma MovedAnswers(s: State, d: Change)
    requires Placed(s) && Answers(s) && NoHit(d.events) && d.used == s.used && SameHost(s, d) && SameLoop(s, d)
    requires d.viewer.Some? ==> Moves(s, d.viewer.value.v, d.viewer.value.w)
    ensures Answers(Apply(s, d))
  {
    var s' := Apply(s, d);
    QuietLog(s, d);
    forall v | v in s'.viewers ensures DecidedAt(s', v, s'.viewers[v]) { MovedViewer(s, d, v); }
    forall r | r in s'.regs ensures Held(s', r, s'.regs[r].loop) { MovedLoop(s, d, r); }
    forall r, k | FirstHit(s'.log, r, k).Some? ensures k in s'.used { assert SameLog(s, d, r, k); }
  }

  lemma StartedAnswers(s: State, d: Change, v: nat, k: string)
    requires SessionStarts(s, d, v, k) && k !in s.used && d.events == [] && SameLoop(s, d) && SameHost(s, d)
    requires d.viewer.value.w.box == s.viewers[v].box
    requires Placed(s) && Answers(s)
    ensures Answers(Apply(s, d))
  {
    var s' := Apply(s, d);
    assert s'.log == s.log;
    assert DecidedAt(s, v, s.viewers[v]);
    forall x | x in s'.viewers ensures DecidedAt(s', x, s'.viewers[x]) {
      if x == v {
        assert FirstHit(s.log, s.viewers[v].pc.reg, k).None?;
      } else {
        assert DecidedAt(s, x, s.viewers[x]) && PlacedAt(s, x, s.viewers[x]);
      }
    }
    forall r | r in s'.regs ensures Held(s', r, s'.regs[r].loop) {
      assert Held(s, r, s.regs[r].loop);
    }
  }

  // The control loop reads a reply that finds the entry of session k.
  predicate Finds(s: State, d: Change, r: nat, k: string, ok: bool) {
    && r in s.regs && !Loaded(s.regs[r].loop) && k in s.regs[r].pending
    && d.viewer.None? && d.used == s.used && OneHit(d.events) && d.reg.Some? && d.reg.value.r == r
    && d.reg.value.reg.loop == Resolving(Some(s.regs[r].pending[k]), ok)
    && d.events == [Heard(r, k, ok), Hit(s.regs[r].pending[k], r, k, ok)]
  }

  predicate Grown(s: State, d: Change, r: nat, k: string, ok: bool, q: nat, j: string) {
    FirstHit(s.log + d.events, q, j)
    == if FirstHit(s.log, q, j).None? && q == r && j == k then Some(ok) else FirstHit(s.log, q, j)
  }

  lemma FoundViewer(s: State, d: Change, r: nat, k: string, ok: bool, v: nat)
    requires Finds(s, d, r, k, ok) && SameHost(s, d) && v in s.viewers
    requires Placed(s) && Answers(s) && Distinct(s) && PendingExact(s)
    requires forall q, j :: Grown(s, d, r, k, ok, q, j)
    ensures DecidedAt(Apply(s, d), v, s.viewers[v])
  {
    assert Waits(s, s.regs[r].pending[k], r, k);
    assert PlacedAt(s, v, s.viewers[v]) && DecidedAt(s, v, s.viewers[v]);
    var w := s.viewers[v];
    if w.pc.InSession() {
      assert HoldsSession(s, v, w.pc.reg, w.pc.session);
      assert Grown(s, d, r, k, ok, w.pc.reg, w.pc.session);
    }
  }

  lemma FoundLoop(s: State, d: Change, r: nat, k: string, ok: bool, q: nat)
    requires Finds(s, d, r, k, ok) && q in s.regs && Answers(s) && PendingExact(s)
    requires forall q, j :: Grown(s, d, r, k, ok, q, j)
    ensures Held(Apply(s, d), q, Apply(s, d).regs[q].loop)
  {
    var v := s.regs[r].pending[k];
    assert Waits(s, v, r, k) && DecidedAt(s, v, s.viewers[v]) && Held(s, q, s.regs[q].loop);
    var loop := Apply(s, d).regs[q].loop;
    if Loaded(loop) {
      var w := s.viewers[loop.ch.value];
      if w.pc.Queued? || w.pc.Asked? { assert Grown(s, d, r, k, ok, w.pc.reg, w.pc.session); }
    }
  }

  lemma FoundAnswers(s: State, d: Change, r: nat, k: string, ok: bool)
    requires Finds(s, d, r, k, ok) && SameHost(s, d)
    requires Placed(s) && Answers(s) && Distinct(s) && PendingExact(s)
    ensures Answers(Apply(s, d))
  {
    var s' := Apply(s, d);
    forall q, j ensures Grown(s, d, r, k, ok, q, j) { FirstHitAfter(s.log, d.events, q, j); }
    forall v | v in s'.viewers ensures DecidedAt(s', v, s'.viewers[v]) { FoundViewer(s, d, r, k, ok, v); }
    forall q | q in s'.regs ensures Held(s', q, s'.regs[q].loop) { FoundLoop(s, d, r, k, ok, q); }
    assert Waits(s, s.regs[r].pending[k], r, k);
    forall q, j | FirstHit(s'.log, q, j).Some? ensures j in s'.used {
      assert Grown(s, d, r, k, ok, q, j);
      assert HoldsSession(s, s.regs[r].pending[k], r, k);
    }
  }

  // The control loop puts the reply it holds into the viewer's channel, or gives up.
  predicate Delivers(s: State, d: Change, r: nat) {
    && r in s.regs && d.reg.Some? && d.reg.value.r == r && d.reg.value.reg == s.regs[r].(loop := Reading)
    && d.events == [] && d.used == s.used && s.regs[r].loop.Resolving?
    && var loop := s.regs[r].loop;
    if Loaded(loop) && loop.ch.value in s.viewers && s.viewers[loop.ch.value].box.None?
    then d.viewer == Some(ViewerOf(loop.ch.value, s.viewers[loop.ch.value].(box := Some(loop.ok))))
    else d.viewer.None?
  }

  lemma DeliveredViewer(s: State, d: Change, r: nat, v: nat)
    requires Delivers(s, d, r) && Answers(s) && v in s.viewers
    ensures DecidedAt(Apply(s, d), v, Apply(s, d).viewers[v])
  {
    assert Apply(s, d).log == s.log;
    assert Held(s, r, s.regs[r].loop) && DecidedAt(s, v, s.viewers[v]);
  }

  lemma DeliveredLoop(s: State, d: Change, r: nat, q: nat)
    requires Delivers(s, d, r) && Answers(s) && q in s.regs
    ensures Held(Apply(s, d), q, Apply(s, d).regs[q].loop)
  {
    assert Apply(s, d).log == s.log;
    assert Held(s, q, s.regs[q].loop) && Held(s, r, s.regs[r].loop);
  }

  lemma DeliveredAnswers(s: State, d: Change, r: nat)
    requires Delivers(s, d, r) && Answers(s)
    ensures Answers(Apply(s, d))
  {
    var s' := Apply(s, d);
    assert s'.log == s.log;
    forall v | v in s'.viewers ensures DecidedAt(s', v, s'.viewers[v]) { DeliveredViewer(s, d, r, v); }
    forall q | q in s'.regs ensures Held(s', q, s'.regs[q].loop) { DeliveredLoop(s, d, r, q); }
  }

  lemma ViewerAnswers(c: Config, s: State, l: Label)
    requires Enabled(s, l) && !HostLabel(l) && FreshLabel(s, l) && Placed(s) && Answers(s)
    ensures Answers(Next(c, s, l))
  {
    StepSameHost(c, s, l);
    if l.Enqueue? {
      ViewerSessions(c, s, l);
      StartShape(c, s, l);
      StartedAnswers(s, ViewerChange(c, s, l), l.v, l.session);
    } else {
      ViewerMoves(c, s, l);
      MovedAnswers(s, ViewerChange(c, s, l));
    }
  }

  lemma StartShape(c: Config, s: State, l: Label)
    requires Enabled(s, l) && l.Enqueue?
    ensures var d := ViewerChange(c, s, l);
      d.events == [] && SameLoop(s, d) && d.viewer.Some? && d.viewer.value.w.box == s.viewers[l.v].box
  {
  }

  lemma HostAnswers(c: Config, s: State, l: Label)
    requires Enabled(s, l) && HostLabel(l) && Placed(s) && Answers(s) && Distinct(s) && PendingExact(s)
    ensures Answers(Next(c, s, l))
  {
    var d := ChangeOf(c, s, l);
    StepSameHost(c, s, l);
    if l.Deliver? {
      DeliveredAnswers(s, d, l.r);
    } else if l.LoopReads? {
      LoopMoves(s, l.r, l.newId, l.newPin);
      if NoHit(d.events) {
        MovedAnswers(s, d);
      } else {
        FoundAnswers(s, d, l.r, d.events[1].session, d.events[1].ok);
      }
    } else {
      HostMoves(s, l);
      MovedAnswers(s, d);
    }
  }

  lemma StepAnswers(c: Config, s: State, l: Label)
    requires Enabled(s, l) && FreshLabel(s, l) && Placed(s) && Distinct(s) && PendingExact(s) && Answers(s)
    ensures Answers(Next(c, s, l))
  {
    if HostLabel(l) { HostAnswers(c, s, l); } else { ViewerAnswers(c, s, l); }
  }
}
