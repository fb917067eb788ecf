// Why a data channel was opened: the order of events on record.
module Causality {
  import opened Bytes
  import opened Broker
  import opened Registry
  import opened Consent
  import opened Replies

  // What must be on record before an event. A data channel is opened on the registration whose id
  // and PIN the viewer gave and which admitted it, after consent; a reply that found its entry was
  // heard just before; an agent replies only to what was sent.
  predicate JustifiedAt(s: State, past: seq<Event>, e: Event) {
    match e
    case Opened(v, r, k) =>
      && v in s.viewers && r in s.regs && s.regs[r].registered
      && s.viewers[v].id == s.regs[r].id && s.viewers[v].pin == s.regs[r].pin && Admit(v, r) in past
      && (s.regs[r].unattended || FirstHit(past, r, k) == Some(true))
    case Hit(_, r, k, ok) => past != [] && past[|past| - 1] == Heard(r, k, ok)
    case Heard(r, k, ok) => r in s.regs && (s.regs[r].agent.Free? || Sent(r, k) in past)
    case _ => true
  }

  ghost predicate Justified(s: State) {
    forall k :: 0 <= k < |s.log| ==> JustifiedAt(s, s.log[..k], s.log[k])
  }

  // ---- Messages under way ----

  function Flight(reg: Reg, k: string): nat {
    multiset(reg.down)[Incoming(k)] + multiset(reg.up)[Accept(k)] + multiset(reg.up)[Reject(k)]
  }

  function Replied(log: seq<Event>, r: nat, k: string): nat {
    multiset(log)[Heard(r, k, true)] + multiset(log)[Heard(r, k, false)]
  }

  function Notices(log: seq<Event>, r: nat, k: string): nat {
    multiset(log)[Sent(r, k)]
  }

  // Nothing is lost or doubled on the way: each Incoming sent to an agent is under way, has its reply
  // under way or has had its reply heard. An agent that gave up may have dropped some.
  predicate Answered(s: State, r: nat, k: string) {
    r in s.regs && !s.regs[r].agent.Free? ==>
      var answers := Flight(s.regs[r], k) + Replied(s.log, r, k);
      if s.regs[r].agent.Gone? then answers <= Notices(s.log, r, k) else answers == Notices(s.log, r, k)
  }

  // At most one Incoming is sent for a session, and only by the viewer that drew it.
  predicate NotifiedOnce(s: State, r: nat, k: string) {
    && Notices(s.log, r, k) <= 1
    && (Notices(s.log, r, k) > 0 ==> r in s.regs && k in s.used)
    && (Replied(s.log, r, k) > 0 ==> r in s.regs)
  }

  predicate Unnotified(s: State, w: Viewer) {
    w.pc.Queued? ==> Notices(s.log, w.pc.reg, w.pc.session) == 0
  }

  ghost predicate Exchanges(s: State) {
    && (forall r, k :: Answered(s, r, k) && NotifiedOnce(s, r, k))
    && (forall v :: v in s.viewers ==> Unnotified(s, s.viewers[v]))
  }

  // ---- One step ----

  // The events of one step are about its own registration.
  predicate Local(d: Change) {
    forall i :: 0 <= i < |d.events| ==>
      var e := d.events[i];
      e.Sent? || e.Heard? ==> d.reg.Some? && e.r == d.reg.value.r
  }

  // What one step adds for session k: replies for the messages it takes, messages for its notices.
  predicate Balanced(s: State, d: Change, k: string) {
    d.reg.Some? && !d.reg.value.reg.agent.Free? ==>
      var r, b := d.reg.value.r, d.reg.value.reg;
      var had := if r in s.regs then Flight(s.regs[r], k) else 0;
      if b.agent.Gone? then Flight(b, k) + Replied(d.events, r, k) <= had + Notices(d.events, r, k)
      else
        && (r in s.regs ==> !s.regs[r].agent.Gone?)
        && Flight(b, k) + Replied(d.events, r, k) == had + Notices(d.events, r, k)
  }

  lemma HeadGone<T>(q: seq<T>)
    requires q != []
    ensures multiset(q) == multiset{q[0]} + multiset(q[1..])
  {
    assert q == [q[0]] + q[1..];
  }

  // A step whose messages and events have nothing to do with consent.
  predicate Plain(s: State, d: Change) {
    && (forall i :: 0 <= i < |d.events| ==> !d.events[i].Sent? && !d.events[i].Heard?)
    && (d.reg.Some? ==>
          var r, b := d.reg.value.r, d.reg.value.reg;
          b.agent.Free?
          || if r in s.regs then Appended(s.regs[r].down, b.down) && b.up == s.regs[r].up && b.agent == s.regs[r].agent
             else b.down == [] && Appended([], b.up) && !b.agent.Gone?)
  }

  predicate Appended(q: seq<Msg>, q': seq<Msg>) {
    q' == q || (|q'| == |q| + 1 && q' == q + [q'[|q|]] && var m := q'[|q|]; !m.Incoming? && !m.Accept? && !m.Reject?)
  }

  lemma PlainBalanced(s: State, d: Change, k: string)
    requires Plain(s, d)
    ensures Local(d) && Balanced(s, d, k)
  {
    if d.reg.Some? && !d.reg.value.reg.agent.Free? {
      var r, b := d.reg.value.r, d.reg.value.reg;
      assert Heard(r, k, true) !in d.events && Heard(r, k, false) !in d.events && Sent(r, k) !in d.events;
    }
  }

  lemma UpTaken(a: Reg, b: Reg, k: string)
    requires a.up != [] && b.up == a.up[1..] && b.down == a.down
    ensures Flight(a, k) == Flight(b, k) + if a.up[0] == Accept(k) || a.up[0] == Reject(k) then 1 else 0
  {
    HeadGone(a.up);
  }

  // What hearing a reply to session j records: the reply, and the entry it found, if any.
  predicate HeardEvents(events: seq<Event>, r: nat, j: string, ok: bool) {
    || events == [Heard(r, j, ok)]
    || (|events| == 2 && events[1].Hit? && events == [Heard(r, j, ok), Hit(events[1].v, r, j, ok)])
  }

  lemma HeardCounts(events: seq<Event>, r: nat, j: string, ok: bool, k: string)
    requires HeardEvents(events, r, j, ok)
    ensures Replied(events, r, k) == if j == k then 1 else 0
  {
    if |events| == 2 {
      assert multiset(events) == multiset{Heard(r, j, ok), events[1]};
    }
  }

  // What reading one message takes and records.
  predicate LoopShaped(s: State, r: nat, d: Change) {
    && r in s.regs && s.regs[r].up != [] && d.reg.Some? && d.reg.value.r == r
    && var (a, b) := (s.regs[r], d.reg.value.reg);
    && b.up == a.up[1..] && b.down == a.down && b.agent == a.agent
    && match a.up[0]
       case Accept(j) => HeardEvents(d.events, r, j, true)
       case Reject(j) => HeardEvents(d.events, r, j, false)
       case _ => d.events == []
  }

  lemma LoopShape(s: State, r: nat, newId: string, newPin: string)
    requires Enabled(s, LoopReads(r, newId, newPin))
    ensures LoopShaped(s, r, LoopStep(s, r, newId, newPin))
  {
    var a := s.regs[r];
    var m := a.up[0];
    if m.Accept? || m.Reject? { ReplyShape(s, r, a.(up := a.up[1..]), m.session, m.Accept?); }
  }

  lemma ReplyShape(s: State, r: nat, a: Reg, j: string, ok: bool)
    ensures var d := Reply(s, r, a, j, ok);
      && d.reg.Some? && d.reg.value.r == r && d.reg.value.reg == a.(loop := d.reg.value.reg.loop)
      && HeardEvents(d.events, r, j, ok)
  {
  }

  lemma ShapeBalanced(s: State, r: nat, d: Change, k: string)
    requires LoopShaped(s, r, d)
    ensures Local(d) && Balanced(s, d, k)
  {
    var m := s.regs[r].up[0];
    UpTaken(s.regs[r], d.reg.value.reg, k);
    if m.Accept? || m.Reject? { HeardCounts(d.events, r, m.session, m.Accept?, k); }
  }

  lemma LoopBalanced(s: State, r: nat, newId: string, newPin: string, k: string)
    requires Enabled(s, LoopReads(r, newId, newPin))
    ensures var d := LoopStep(s, r, newId, newPin); Local(d) && Balanced(s, d, k)
  {
    LoopShape(s, r, newId, newPin);
    ShapeBalanced(s, r, LoopStep(s, r, newId, newPin), k);
  }

  lemma AgentBalanced(s: State, r: nat, consent: bool, k: string)
    requires Enabled(s, HostReads(r, consent))
    ensures var d := Keep(s).Put(r, AgentStep(s.regs[r], consent)); Local(d) && Balanced(s, d, k)
  {
    DownTaken(s.regs[r], AgentStep(s.regs[r], consent), k);
    assert Replied([], r, k) == 0 && Notices([], r, k) == 0;
  }

  // Taking a message down: what is lost of session k, and the reply it may be answered with.
  lemma DownTaken(a: Reg, b: Reg, k: string)
    requires a.down != [] && b.down == a.down[1..]
    requires var m := a.down[0];
      b.up == a.up || (m.Incoming? && (b.up == a.up + [Accept(m.session)] || b.up == a.up + [Reject(m.session)]))
    ensures Flight(b, k)
         == Flight(a, k) - (if a.down[0] == Incoming(k) then 1 else 0)
            + if b.up != a.up && a.down[0] == Incoming(k) then 1 else 0
  {
    HeadGone(a.down);
  }

  lemma HostPlain(s: State, l: Label)
    requires Enabled(s, l) && HostLabel(l) && !l.LoopReads? && !l.HostReads?
    ensures Plain(s, HostChange(s, l))
  {
  }

  lemma HostBalanced(s: State, l: Label, k: string)
    requires Enabled(s, l) && HostLabel(l)
    ensures var d := HostChange(s, l); Local(d) && Balanced(s, d, k)
  {
    if l.LoopReads? { LoopBalanced(s, l.r, l.newId, l.newPin, k); }
    else if l.HostReads? { AgentBalanced(s, l.r, l.consent, k); }
    else { HostPlain(s, l); PlainBalanced(s, HostChange(s, l), k); }
  }

  lemma ViewerPlain(c: Config, s: State, l: Label)
    requires Enabled(s, l) && !HostLabel(l) && !(l.Notify? && l.sent)
    ensures Plain(s, ViewerChange(c, s, l))
  {
  }

  lemma NotifyBalanced(c: Config, s: State, l: Label, k: string)
    requires Enabled(s, l) && l.Notify? && l.sent
    ensures var d := ViewerChange(c, s, l); Local(d) && Balanced(s, d, k)
  {
    var w := s.viewers[l.v];
    assert ViewerChange(c, s, l).events == [Sent(w.pc.reg, w.pc.session)];
    assert Replied(ViewerChange(c, s, l).events, w.pc.reg, k) == 0;
  }

  lemma NoticesAdd(a: seq<Event>, b: seq<Event>, r: nat, k: string)
    ensures Notices(a + b, r, k) == Notices(a, r, k) + Notices(b, r, k)
    ensures Replied(a + b, r, k) == Replied(a, r, k) + Replied(b, r, k)
  {
  }

  lemma NotHere(d: Change, r: nat, k: string)
    requires Local(d) && (d.reg.Some? ==> d.reg.value.r != r)
    ensures Notices(d.events, r, k) == 0 && Replied(d.events, r, k) == 0
  {
    assert Sent(r, k) !in d.events && Heard(r, k, true) !in d.events && Heard(r, k, false) !in d.events;
  }

  lemma AppliedAnswered(s: State, d: Change, r: nat, k: string)
    requires Answered(s, r, k) && NotifiedOnce(s, r, k) && Local(d) && Balanced(s, d, k)
    requires d.reg.Some? && d.reg.value.r in s.regs ==> d.reg.value.reg.agent.Free? == s.regs[d.reg.value.r].agent.Free?
    ensures Answered(Apply(s, d), r, k)
    ensures Replied(Apply(s, d).log, r, k) > 0 ==> r in Apply(s, d).regs
  {
    NoticesAdd(s.log, d.events, r, k);
    if d.reg.None? || d.reg.value.r != r { NotHere(d, r, k); }
  }

  // Only the viewer's own Notify records a notice.
  predicate NoNotice(events: seq<Event>) {
    forall i :: 0 <= i < |events| ==> !events[i].Sent?
  }

  lemma HostNoNotice(s: State, l: Label)
    requires Enabled(s, l) && HostLabel(l)
    ensures NoNotice(HostChange(s, l).events) && HostChange(s, l).used == s.used
  {
    if l.LoopReads? { LoopShape(s, l.r, l.newId, l.newPin); }
  }

  lemma StepBalanced(c: Config, s: State, l: Label, k: string)
    requires Enabled(s, l)
    ensures var d := ChangeOf(c, s, l); Local(d) && Balanced(s, d, k)
  {
    if HostLabel(l) { HostBalanced(s, l, k); }
    else if l.Notify? && l.sent { NotifyBalanced(c, s, l, k); }
    else { ViewerPlain(c, s, l); PlainBalanced(s, ViewerChange(c, s, l), k); }
  }

  lemma StepAnswered(c: Config, s: State, l: Label, r: nat, k: string)
    requires Enabled(s, l) && Answered(s, r, k) && NotifiedOnce(s, r, k)
    ensures Answered(Next(c, s, l), r, k)
    ensures Replied(Next(c, s, l).log, r, k) > 0 ==> r in Next(c, s, l).regs
  {
    var d := ChangeOf(c, s, l);
    StepBalanced(c, s, l, k);
    if d.reg.Some? && d.reg.value.r in s.regs { StepKeepsIdentity(c, s, l, d.reg.value.r); }
    AppliedAnswered(s, d, r, k);
  }

  // A viewer's step that sends no Incoming: a queued viewer stays as it is or is new to its session.
  lemma ViewerQueued(c: Config, s: State, l: Label)
    requires Enabled(s, l) && !HostLabel(l) && !(l.Notify? && l.sent)
    ensures var d := ViewerChange(c, s, l);
      && NoNotice(d.events) && s.used <= d.used && d.viewer.Some? && d.viewer.value.v == l.v
      && var w := d.viewer.value.w;
      w.pc.Queued? ==> if l.Enqueue? then w.pc.session == l.session else l.v in s.viewers && w.pc == s.viewers[l.v].pc
  {
  }

  lemma QuietNotices(s: State, d: Change, r: nat, k: string)
    requires NoNotice(d.events)
    ensures Notices(Apply(s, d).log, r, k) == Notices(s.log, r, k)
  {
    NoticesAdd(s.log, d.events, r, k);
    assert Sent(r, k) !in d.events;
  }

  lemma NotifyShape(c: Config, s: State, l: Label)
    requires Enabled(s, l) && l.Notify? && l.sent
    ensures var d, w := ViewerChange(c, s, l), s.viewers[l.v];
      && d.events == [Sent(w.pc.reg, w.pc.session)] && d.used == s.used
      && d.viewer == Some(ViewerOf(l.v, w.(pc := Asked(w.pc.reg, w.pc.session))))
      && d.reg.Some? && d.reg.value.r == w.pc.reg
  {
  }

  lemma StepNotified(c: Config, s: State, l: Label, r: nat, k: string)
    requires Enabled(s, l) && Exchanges(s) && Distinct(s)
    ensures NotifiedOnce(Next(c, s, l), r, k)
  {
    var d := ChangeOf(c, s, l);
    assert Answered(s, r, k) && NotifiedOnce(s, r, k);
    StepAnswered(c, s, l, r, k);
    if r in s.regs { StepKeepsIdentity(c, s, l, r); }
    if l.Notify? && l.sent {
      NotifyShape(c, s, l);
      var w := s.viewers[l.v];
      NoticesAdd(s.log, d.events, r, k);
      assert Unnotified(s, w) && HoldsSession(s, l.v, w.pc.reg, w.pc.session);
    } else {
      if HostLabel(l) { HostNoNotice(s, l); } else { ViewerQueued(c, s, l); }
      QuietNotices(s, d, r, k);
    }
  }

  lemma NotifyUnnotified(c: Config, s: State, l: Label, v: nat)
    requires Enabled(s, l) && l.Notify? && l.sent && Exchanges(s) && Distinct(s) && v in Next(c, s, l).viewers
    ensures Unnotified(Next(c, s, l), Next(c, s, l).viewers[v])
  {
    var d, w := ChangeOf(c, s, l), Next(c, s, l).viewers[v];
    NotifyShape(c, s, l);
    if w.pc.Queued? {
      var r, k := w.pc.reg, w.pc.session;
      assert Unnotified(s, s.viewers[v]);
      NoticesAdd(s.log, d.events, r, k);
      assert HoldsSession(s, v, r, k) && HoldsSession(s, l.v, s.viewers[l.v].pc.reg, s.viewers[l.v].pc.session);
    }
  }

  // A queued viewer after a change without a notice was queued before, or just drew its session.
  lemma QuietUnnotified(s: State, d: Change, v: nat)
    requires Exchanges(s) && NoNotice(d.events) && v in Apply(s, d).viewers
    requires var w := Apply(s, d).viewers[v];
      w.pc.Queued? ==> w.pc.session !in s.used || (v in s.viewers && w.pc == s.viewers[v].pc)
    ensures Unnotified(Apply(s, d), Apply(s, d).viewers[v])
  {
    var w := Apply(s, d).viewers[v];
    if w.pc.Queued? {
      QuietNotices(s, d, w.pc.reg, w.pc.session);
      assert NotifiedOnce(s, w.pc.reg, w.pc.session) && (v in s.viewers ==> Unnotified(s, s.viewers[v]));
    }
  }

  lemma StepUnnotified(c: Config, s: State, l: Label, v: nat)
    requires Enabled(s, l) && FreshLabel(s, l)
    requires Exchanges(s) && Distinct(s) && v in Next(c, s, l).viewers
    ensures Unnotified(Next(c, s, l), Next(c, s, l).viewers[v])
  {
    if l.Notify? && l.sent {
      NotifyUnnotified(c, s, l, v);
    } else {
      if HostLabel(l) { HostNoNotice(s, l); HostMovesNoViewer(s, l); } else { ViewerQueued(c, s, l); }
      QuietUnnotified(s, ChangeOf(c, s, l), v);
    }
  }

  lemma StepExchanges(c: Config, s: State, l: Label)
    requires Enabled(s, l) && FreshLabel(s, l) && Exchanges(s) && Distinct(s)
    ensures Exchanges(Next(c, s, l))
  {
    var s' := Next(c, s, l);
    forall r, k ensures Answered(s', r, k) && NotifiedOnce(s', r, k) {
      assert Answered(s, r, k) && NotifiedOnce(s, r, k);
      StepAnswered(c, s, l, r, k);
      StepNotified(c, s, l, r, k);
    }
    forall v | v in s'.viewers ensures Unnotified(s', s'.viewers[v]) { StepUnnotified(c, s, l, v); }
  }

  // ---- The order of events ----

  lemma ViewerKeepsName(c: Config, s: State, l: Label)
    requires Enabled(s, l) && !HostLabel(l)
    ensures var d := ViewerChange(c, s, l);
      && d.viewer.Some? && d.viewer.value.v == l.v
      && (l.v in s.viewers ==> d.viewer.value.w.id == s.viewers[l.v].id && d.viewer.value.w.pin == s.viewers[l.v].pin)
  {
  }

  lemma StepKeepsName(c: Config, s: State, l: Label, v: nat)
    requires Enabled(s, l) && v in s.viewers
    ensures var s' := Next(c, s, l);
      v in s'.viewers && s'.viewers[v].id == s.viewers[v].id && s'.viewers[v].pin == s.viewers[v].pin
  {
    if HostLabel(l) { HostMovesNoViewer(s, l); } else { ViewerKeepsName(c, s, l); }
  }

  lemma StaysJustified(c: Config, s: State, l: Label, past: seq<Event>, e: Event)
    requires Enabled(s, l) && JustifiedAt(s, past, e)
    ensures JustifiedAt(Next(c, s, l), past, e)
  {
    if e.Opened? {
      StepKeepsName(c, s, l, e.v);
      StepKeepsIdentity(c, s, l, e.r);
    } else if e.Heard? {
      StepKeepsIdentity(c, s, l, e.r);
    }
  }

  // The events of one step, on top of what is on record, when read in the state before it.
  predicate NewlyJustified(s: State, events: seq<Event>) {
    |events| <= 2
    && (|events| > 0 ==> JustifiedAt(s, s.log, events[0]))
    && (|events| > 1 ==> JustifiedAt(s, s.log + events[..1], events[1]))
  }

  lemma LoopJustified(s: State, r: nat, newId: string, newPin: string)
    requires Enabled(s, LoopReads(r, newId, newPin)) && Exchanges(s)
    ensures NewlyJustified(s, LoopStep(s, r, newId, newPin).events)
  {
    LoopShape(s, r, newId, newPin);
    var m := s.regs[r].up[0];
    if m.Accept? || m.Reject? {
      assert m in s.regs[r].up;
      assert Answered(s, r, m.session);
      assert !s.regs[r].agent.Free? ==> Sent(r, m.session) in s.log;
    }
  }

  lemma ViewerJustified(c: Config, s: State, l: Label)
    requires Enabled(s, l) && !HostLabel(l) && Placed(s) && Answers(s)
    ensures NewlyJustified(s, ViewerChange(c, s, l).events)
  {
    if l.v in s.viewers { assert PlacedAt(s, l.v, s.viewers[l.v]) && DecidedAt(s, l.v, s.viewers[l.v]); }
  }

  lemma StepJustified(c: Config, s: State, l: Label)
    requires Enabled(s, l) && Placed(s) && Answers(s) && Exchanges(s) && Justified(s)
    ensures Justified(Next(c, s, l))
  {
    var d, s' := ChangeOf(c, s, l), Next(c, s, l);
    if l.LoopReads? { LoopJustified(s, l.r, l.newId, l.newPin); }
    else if HostLabel(l) { HostSilent(s, l); }
    else { ViewerJustified(c, s, l); }
    forall k | 0 <= k < |s'.log| ensures JustifiedAt(s', s'.log[..k], s'.log[k]) {
      if k < |s.log| {
        assert s'.log[..k] == s.log[..k];
        StaysJustified(c, s, l, s.log[..k], s.log[k]);
      } else if k == |s.log| {
        assert s'.log[..k] == s.log;
        StaysJustified(c, s, l, s.log, d.events[0]);
      } else {
        assert s'.log[..k] == s.log + d.events[..1];
        StaysJustified(c, s, l, s.log + d.events[..1], d.events[1]);
      }
    }
  }

  lemma HostSilent(s: State, l: Label)
    requires Enabled(s, l) && HostLabel(l) && !l.LoopReads?
    ensures HostChange(s, l).events == []
  {
  }
}
