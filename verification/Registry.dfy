// Registry agreement, bounded failure counters and the identity of an admitted viewer's host.
module Registry {
  import opened Broker

  // The map holds exactly the registrations that are online, each under its own id.
  ghost predicate Agrees(s: State) {
    && (forall i :: i in s.hosts ==>
          s.hosts[i] in s.regs && s.regs[s.hosts[i]].id == i && s.regs[s.hosts[i]].Online())
    && (forall r :: r in s.regs && s.regs[r].Online() ==>
          s.regs[r].id in s.hosts && s.hosts[s.regs[r].id] == r)
    && (forall r :: r in s.regs && s.regs[r].loop == Greeting ==> s.regs[r].registered)
  }

  // What a step may do to one registration's status.
  ghost predicate StatusMove(s: State, d: Change) {
    if d.reg.None? then d.hosts == s.hosts
    else
      var r, b := d.reg.value.r, d.reg.value.reg;
      && (b.loop == Greeting ==> b.registered)
      && if r !in s.regs then d.hosts == s.hosts && !b.registered
         else
           var a := s.regs[r];
           || (d.hosts == s.hosts && b.registered == a.registered && b.id == a.id && b.Online() == a.Online())
           || (!a.registered && b.Online() && b.id !in s.hosts && d.hosts == s.hosts[b.id := r])
           || (a.Online() && !b.Online() && d.hosts == s.hosts - {a.id})
  }

  lemma LoopStatus(s: State, r: nat, newId: string, newPin: string)
    requires Enabled(s, LoopReads(r, newId, newPin)) && Agrees(s)
    ensures StatusMove(s, LoopStep(s, r, newId, newPin))
  {
    var reg := s.regs[r];
    var m := reg.up[0];
    if m.Accept? || m.Reject? { ReplyStatus(s, r, reg.(up := reg.up[1..]), m.session, m.Accept?); }
  }

  lemma ReplyStatus(s: State, r: nat, rest: Reg, k: string, ok: bool)
    requires r in s.regs && rest == s.regs[r].(up := rest.up) && rest.loop == Reading
    ensures StatusMove(s, Reply(s, r, rest, k, ok))
  {
  }

  lemma HostStatus(s: State, l: Label)
    requires Enabled(s, l) && Agrees(s) && HostLabel(l)
    ensures StatusMove(s, HostChange(s, l))
  {
    if l.LoopReads? { LoopStatus(s, l.r, l.newId, l.newPin); }
  }

  lemma ViewerStatus(c: Config, s: State, l: Label)
    requires Enabled(s, l) && Agrees(s) && !HostLabel(l)
    ensures StatusMove(s, ViewerChange(c, s, l))
  {
  }

  lemma MoveAgrees(s: State, d: Change)
    requires Agrees(s) && StatusMove(s, d)
    ensures Agrees(Apply(s, d))
  {
  }

  lemma StepAgrees(c: Config, s: State, l: Label)
    requires Enabled(s, l) && Agrees(s)
    ensures Agrees(Next(c, s, l))
  {
    if HostLabel(l) { HostStatus(s, l); } else { ViewerStatus(c, s, l); }
    MoveAgrees(s, ChangeOf(c, s, l));
  }

  // ---- Identity ----

  // Who a registration is never changes again, nor what kind of host is behind it.
  predicate SameIdentity(a: Reg, b: Reg) {
    && a.agent.Free? == b.agent.Free?
    && (a.registered ==> b.registered && b.id == a.id && b.pin == a.pin && b.unattended == a.unattended)
  }

  lemma StepKeepsIdentity(c: Config, s: State, l: Label, r: nat)
    requires Enabled(s, l) && r in s.regs
    ensures r in Next(c, s, l).regs && SameIdentity(s.regs[r], Next(c, s, l).regs[r])
  {
    if HostLabel(l) { HostKeepsIdentity(s, l); } else { ViewerKeepsIdentity(c, s, l); }
  }

  lemma HostKeepsIdentity(s: State, l: Label)
    requires Enabled(s, l) && HostLabel(l)
    ensures var d := HostChange(s, l);
      d.reg.Some? && d.reg.value.r in s.regs ==> SameIdentity(s.regs[d.reg.value.r], d.reg.value.reg)
  {
    if l.LoopReads? { LoopKeepsIdentity(s, l.r, l.newId, l.newPin); }
  }

  lemma LoopKeepsIdentity(s: State, r: nat, newId: string, newPin: string)
    requires Enabled(s, LoopReads(r, newId, newPin))
    ensures var d := LoopStep(s, r, newId, newPin);
      d.reg.Some? && d.reg.value.r == r && SameIdentity(s.regs[r], d.reg.value.reg)
  {
    var m := s.regs[r].up[0];
    if m.Accept? || m.Reject? {
      ReplyKeepsIdentity(s, r, s.regs[r].(up := s.regs[r].up[1..]), m.session, m.Accept?);
    }
  }

  lemma ReplyKeepsIdentity(s: State, r: nat, rest: Reg, k: string, ok: bool)
    ensures var d := Reply(s, r, rest, k, ok);
      d.reg.Some? && d.reg.value.r == r && d.reg.value.reg == rest.(loop := d.reg.value.reg.loop)
  {
  }

  lemma ViewerKeepsIdentity(c: Config, s: State, l: Label)
    requires Enabled(s, l) && !HostLabel(l)
    ensures var d := ViewerChange(c, s, l);
      d.reg.Some? ==> d.reg.value.r in s.regs && SameIdentity(s.regs[d.reg.value.r], d.reg.value.reg)
  {
  }

  // ---- Failure counters ----

  ghost predicate Counters(c: Config, s: State) {
    forall r :: r in s.regs ==> s.regs[r].gate.failures < c.max
  }

  lemma StepCounts(c: Config, s: State, l: Label)
    requires Enabled(s, l) && Counters(c, s) && c.max > 0
    ensures Counters(c, Next(c, s, l))
  {
    if HostLabel(l) { HostCounts(c, s, l); } else { ViewerCounts(c, s, l); }
  }

  lemma HostCounts(c: Config, s: State, l: Label)
    requires Enabled(s, l) && HostLabel(l) && Counters(c, s) && c.max > 0
    ensures var d := HostChange(s, l); d.reg.Some? ==> d.reg.value.reg.gate.failures < c.max
  {
  }

  lemma ViewerCounts(c: Config, s: State, l: Label)
    requires Enabled(s, l) && !HostLabel(l) && Counters(c, s) && c.max > 0
    ensures var d := ViewerChange(c, s, l); d.reg.Some? ==> d.reg.value.reg.gate.failures < c.max
  {
  }

  // ---- Admitted viewers ----

  // A viewer past the lookup is at a registered host with the id it asked for, and past the PIN
  // check it holds that host's PIN and its admission is on record.
  ghost predicate PlacedAt(s: State, v: nat, w: Viewer) {
    !w.pc.Connecting? && !w.pc.Closed? ==>
      && w.pc.reg in s.regs && s.regs[w.pc.reg].registered && s.regs[w.pc.reg].id == w.id
      && (w.pc.Authenticated() ==> s.regs[w.pc.reg].pin == w.pin && Admit(v, w.pc.reg) in s.log)
  }

  ghost predicate Placed(s: State) {
    forall v :: v in s.viewers ==> PlacedAt(s, v, s.viewers[v])
  }

  lemma ViewerPlaced(c: Config, s: State, l: Label)
    requires Enabled(s, l) && !HostLabel(l) && Agrees(s) && Placed(s)
    ensures var d := ViewerChange(c, s, l);
      && d.viewer.Some? && d.viewer.value.v == l.v && (!l.Arrive? ==> l.v in s.viewers)
      && var w := d.viewer.value.w;
      !w.pc.Connecting? && !w.pc.Closed? ==>
        && w.pc.reg in s.regs && s.regs[w.pc.reg].registered && s.regs[w.pc.reg].id == w.id
        && (w.pc.Authenticated() ==>
          s.regs[w.pc.reg].pin == w.pin && (Admit(l.v, w.pc.reg) in s.log || Admit(l.v, w.pc.reg) in d.events))
  {
    if l.v in s.viewers { assert PlacedAt(s, l.v, s.viewers[l.v]); }
  }

  lemma HostMovesNoViewer(s: State, l: Label)
    requires Enabled(s, l) && HostLabel(l)
    ensures var d := HostChange(s, l);
      d.viewer.Some? ==>
        && d.viewer.value.v in s.viewers
        && d.viewer.value.w == s.viewers[d.viewer.value.v].(box := d.viewer.value.w.box)
  {
  }

  lemma StepPlaced(c: Config, s: State, l: Label)
    requires Enabled(s, l) && Agrees(s) && Placed(s)
    ensures Placed(Next(c, s, l))
  {
    var d, s' := ChangeOf(c, s, l), Next(c, s, l);
    if HostLabel(l) { HostMovesNoViewer(s, l); } else { ViewerPlaced(c, s, l); }
    forall v | v in s'.viewers ensures PlacedAt(s', v, s'.viewers[v]) {
      var w := s'.viewers[v];
      if v in s.viewers { assert PlacedAt(s, v, s.viewers[v]); }
      if !w.pc.Connecting? && !w.pc.Closed? {
        StepKeepsIdentity(c, s, l, w.pc.reg);
      }
    }
  }
}
