// Sessions, pending entries and consent, when session ids are drawn fresh.
module Consent {
  import opened Bytes
  import opened Broker
  import opened Registry

  ghost predicate HoldsSession(s: State, v: nat, r: nat, session: string) {
    v in s.viewers && s.viewers[v].pc.InSession() && s.viewers[v].pc.reg == r && s.viewers[v].pc.session == session
  }

  ghost predicate Waits(s: State, v: nat, r: nat, session: string) {
    HoldsSession(s, v, r, session) && s.viewers[v].pc.Waiting()
  }

  // Every session id in use was drawn, and no two viewers share one.
  ghost predicate Distinct(s: State) {
    && (forall v, r, k :: HoldsSession(s, v, r, k) ==> k in s.used)
    && (forall v, v', r, r', k :: HoldsSession(s, v, r, k) && HoldsSession(s, v', r', k) ==> v == v')
  }

  // The pending maps hold exactly the sessions still waiting, each with its own viewer's channel.
  ghost predicate PendingExact(s: State) {
    && (forall r, k :: r in s.regs && k in s.regs[r].pending ==> Waits(s, s.regs[r].pending[k], r, k))
    && (forall v, r, k :: Waits(s, v, r, k) ==>
          r in s.regs && !s.regs[r].unattended && k in s.regs[r].pending && s.regs[r].pending[k] == v)
  }

  // What a step does to the session of its viewer v and to the pending map of its registration.
  ghost predicate SessionKept(s: State, d: Change) {
    && d.used == s.used
    && (d.viewer.Some? ==>
          var v, w := d.viewer.value.v, d.viewer.value.w;
          if v in s.viewers then
            && (w.pc.InSession() ==> HoldsSession(s, v, w.pc.reg, w.pc.session))
            && w.pc.Waiting() == s.viewers[v].pc.Waiting()
          else !w.pc.InSession())
    && (d.reg.Some? ==>
          var r, b := d.reg.value.r, d.reg.value.reg;
          if r in s.regs then b.pending == s.regs[r].pending else b.pending == map[])
  }

  ghost predicate SessionStarts(s: State, d: Change, v: nat, k: string) {
    && v in s.viewers && s.viewers[v].pc.Admitted? && s.viewers[v].pc.reg in s.regs
    && d.used == s.used + {k} && d.viewer.Some? && d.viewer.value.v == v
    && var w, r := d.viewer.value.w, s.viewers[v].pc.reg;
    && w.pc.InSession() && w.pc.reg == r && w.pc.session == k
    && if s.regs[r].unattended then d.reg.None? && !w.pc.Waiting()
       else w.pc.Queued? && d.reg == Some(RegOf(r, s.regs[r].(pending := s.regs[r].pending[k := v])))
  }

  ghost predicate SessionLeft(s: State, d: Change, v: nat) {
    && v in s.viewers && s.viewers[v].pc.Leaving? && s.viewers[v].pc.reg in s.regs
    && d.used == s.used && d.viewer.Some? && d.viewer.value.v == v
    && var w, r, k := d.viewer.value.w, s.viewers[v].pc.reg, s.viewers[v].pc.session;
    && !w.pc.Waiting() && (w.pc.InSession() ==> w.pc.reg == r && w.pc.session == k)
    && d.reg == Some(RegOf(r, s.regs[r].(pending := s.regs[r].pending - {k})))
  }

  lemma LoopSessions(s: State, r: nat, newId: string, newPin: string)
    requires Enabled(s, LoopReads(r, newId, newPin))
    ensures SessionKept(s, LoopStep(s, r, newId, newPin))
  {
  }

  lemma HostSessions(s: State, l: Label)
    requires Enabled(s, l) && HostLabel(l)
    ensures SessionKept(s, HostChange(s, l))
  {
    if l.LoopReads? { LoopSessions(s, l.r, l.newId, l.newPin); }
  }

  lemma EnqueueSessions(s: State, v: nat, k: string)
    requires At(s, v) && s.viewers[v].pc.Admitted?
    ensures SessionStarts(s, EnqueueStep(s, v, k), v, k)
  {
  }

  lemma CheckSessions(c: Config, s: State, v: nat, now: nat, later: nat)
    requires At(s, v) && s.viewers[v].pc.Found?
    ensures SessionKept(s, CheckStep(c, s, v, now, later))
  {
  }

  lemma ViewerSessions(c: Config, s: State, l: Label)
    requires Enabled(s, l) && !HostLabel(l)
    ensures var d := ViewerChange(c, s, l);
      if l.Enqueue? then SessionStarts(s, d, l.v, l.session)
      else if l.Leave? then SessionLeft(s, d, l.v)
      else SessionKept(s, d)
  {
    if l.Enqueue? {
      EnqueueSessions(s, l.v, l.session);
    } else if l.Check? {
      CheckSessions(c, s, l.v, l.now, l.later);
    }
  }

  // No viewer waits at a registration whose unattended flag a change turns.
  ghost predicate ModeKept(s: State, d: Change) {
    d.reg.Some? && d.reg.value.r in s.regs ==>
      (exists v, k :: Waits(s, v, d.reg.value.r, k)) ==> d.reg.value.reg.unattended == s.regs[d.reg.value.r].unattended
  }

  lemma KeptPending(s: State, d: Change)
    requires SessionKept(s, d) && PendingExact(s) && ModeKept(s, d)
    ensures PendingExact(Apply(s, d))
  {
    var s' := Apply(s, d);
    assert forall v, r, k :: Waits(s', v, r, k) ==> Waits(s, v, r, k);
    forall r, k | r in s'.regs && k in s'.regs[r].pending ensures Waits(s', s'.regs[r].pending[k], r, k) {
      assert Waits(s, s'.regs[r].pending[k], r, k);
    }
  }

  lemma KeptSessions(s: State, d: Change)
    requires SessionKept(s, d) && Distinct(s) && PendingExact(s) && ModeKept(s, d)
    ensures Distinct(Apply(s, d)) && PendingExact(Apply(s, d))
  {
    KeptPending(s, d);
    assert forall v, r, k :: HoldsSession(Apply(s, d), v, r, k) ==> HoldsSession(s, v, r, k);
  }

  lemma PendingGrows(s: State, d: Change, v: nat, k: string)
    requires SessionStarts(s, d, v, k) && PendingExact(s)
    requires s.regs[s.viewers[v].pc.reg].unattended || k !in s.regs[s.viewers[v].pc.reg].pending
    ensures PendingExact(Apply(s, d))
  {
    var s' := Apply(s, d);
    var r := s.viewers[v].pc.reg;
    forall q, j | q in s'.regs && j in s'.regs[q].pending ensures Waits(s', s'.regs[q].pending[j], q, j) {
      if d.reg.None? || q != r || j != k { assert Waits(s, s.regs[q].pending[j], q, j); }
    }
    forall x, q, j | Waits(s', x, q, j)
      ensures q in s'.regs && !s'.regs[q].unattended && j in s'.regs[q].pending && s'.regs[q].pending[j] == x
    {
      if x != v { assert Waits(s, x, q, j); }
    }
  }

  lemma PendingUsed(s: State, r: nat, k: string)
    requires Distinct(s) && PendingExact(s) && r in s.regs && k in s.regs[r].pending
    ensures k in s.used
  {
    assert HoldsSession(s, s.regs[r].pending[k], r, k);
  }

  lemma StartedSessions(s: State, d: Change, v: nat, k: string)
    requires SessionStarts(s, d, v, k) && k !in s.used && Distinct(s) && PendingExact(s)
    ensures Distinct(Apply(s, d)) && PendingExact(Apply(s, d))
  {
    var s' := Apply(s, d);
    var r := s.viewers[v].pc.reg;
    forall j | j in s.regs[r].pending ensures j in s.used { PendingUsed(s, r, j); }
    PendingGrows(s, d, v, k);
    assert forall x, q, j :: HoldsSession(s', x, q, j) ==> (x == v && q == r && j == k) || HoldsSession(s, x, q, j);
  }

  lemma LeftPending(s: State, d: Change, v: nat)
    requires SessionLeft(s, d, v) && PendingExact(s)
    ensures PendingExact(Apply(s, d))
  {
    var s' := Apply(s, d);
    var r, k := s.viewers[v].pc.reg, s.viewers[v].pc.session;
    assert Waits(s, v, r, k);
    forall q, j | q in s'.regs && j in s'.regs[q].pending ensures Waits(s', s'.regs[q].pending[j], q, j) {
      assert Waits(s, s.regs[q].pending[j], q, j);
    }
    forall x, q, j | Waits(s', x, q, j)
      ensures q in s'.regs && !s'.regs[q].unattended && j in s'.regs[q].pending && s'.regs[q].pending[j] == x
    {
      assert Waits(s, x, q, j) && x != v;
    }
  }

  lemma LeftSession(s: State, d: Change, v: nat)
    requires SessionLeft(s, d, v) && Distinct(s) && PendingExact(s)
    ensures Distinct(Apply(s, d)) && PendingExact(Apply(s, d))
  {
    LeftPending(s, d, v);
    assert forall x, q, j :: HoldsSession(Apply(s, d), x, q, j) ==> HoldsSession(s, x, q, j);
  }

  lemma StepModeKept(c: Config, s: State, l: Label)
    requires Enabled(s, l) && Placed(s)
    ensures ModeKept(s, ChangeOf(c, s, l))
  {
    var d := ChangeOf(c, s, l);
    if d.reg.Some? && d.reg.value.r in s.regs {
      StepKeepsIdentity(c, s, l, d.reg.value.r);
      forall v, k | Waits(s, v, d.reg.value.r, k) ensures s.regs[d.reg.value.r].registered {
        assert PlacedAt(s, v, s.viewers[v]);
      }
    }
  }

  lemma StepSessions(c: Config, s: State, l: Label)
    requires Enabled(s, l) && FreshLabel(s, l) && Placed(s) && Distinct(s) && PendingExact(s)
    ensures Distinct(Next(c, s, l)) && PendingExact(Next(c, s, l))
  {
    var d := ChangeOf(c, s, l);
    if l.Enqueue? {
      ViewerSessions(c, s, l);
      StartedSessions(s, d, l.v, l.session);
    } else if l.Leave? {
      ViewerSessions(c, s, l);
      LeftSession(s, d, l.v);
    } else {
      if HostLabel(l) { HostSessions(s, l); } else { ViewerSessions(c, s, l); }
      StepModeKept(c, s, l);
      KeptSessions(s, d);
    }
  }

  // ---- Ids that are not pending ----

  // Nothing in the relay compares a new session id with those pending. One step keeps the pending
  // maps exact if and only if it does not draw, for an attended host, an id pending there.
  lemma StepPending(c: Config, s: State, l: Label)
    requires Enabled(s, l) && Placed(s) && PendingExact(s)
    ensures PendingExact(Next(c, s, l)) <==> FreeLabel(s, l)
  {
    var d := ChangeOf(c, s, l);
    if l.Enqueue? {
      CollisionExact(c, s, l);
    } else if l.Leave? {
      ViewerSessions(c, s, l);
      LeftPending(s, d, l.v);
    } else {
      if HostLabel(l) { HostSessions(s, l); } else { ViewerSessions(c, s, l); }
      StepModeKept(c, s, l);
      KeptPending(s, d);
    }
  }

  lemma CollisionExact(c: Config, s: State, l: Label)
    requires Enabled(s, l) && l.Enqueue? && PendingExact(s)
    ensures PendingExact(Next(c, s, l)) <==> FreeLabel(s, l)
  {
    var s', r, k := Next(c, s, l), s.viewers[l.v].pc.reg, l.session;
    ViewerSessions(c, s, l);
    if FreeLabel(s, l) {
      PendingGrows(s, ViewerChange(c, s, l), l.v, k);
    } else {
      var x := s.regs[r].pending[k];
      assert Waits(s, x, r, k) && Waits(s', x, r, k) && s'.regs[r].pending[k] == l.v;
    }
  }

  // A fresh id is never pending.
  lemma FreshIsFree(s: State, l: Label)
    requires Enabled(s, l) && FreshLabel(s, l) && Distinct(s) && PendingExact(s)
    ensures FreeLabel(s, l)
  {
    if l.Enqueue? {
      var r := s.viewers[l.v].pc.reg;
      forall j | j in s.regs[r].pending ensures j in s.used { PendingUsed(s, r, j); }
    }
  }
}
