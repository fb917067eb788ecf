// What a control loop does follows from what its host said: each channel is read in order, message by
// message, and the first Register decides.
module Control {
  import opened Bytes
  import opened Broker
  import opened Registry
  import Causality
  import R = Relay

  // ---- What a host said ----

  // The messages a step puts into the channel from the host behind r.
  function Puts(s: State, l: Label, r: nat): seq<Msg>
    requires Enabled(s, l)
  {
    match l
    case OpenControl(q, conforming, unattended) => if q == r && conforming then [Register(unattended)] else []
    case HostSays(q, m) => if q == r then [m] else []
    case HostReads(q, consent) =>
      if q == r && s.regs[r].agent == Serving && s.regs[r].down[0].Incoming? then
        var k := s.regs[r].down[0].session;
        [if consent then Accept(k) else Reject(k)]
      else []
    case _ => []
  }

  // Everything the host behind r said in a run.
  function Said(c: Config, s: State, labels: seq<Label>, r: nat): seq<Msg>
    decreases |labels|
  {
    if labels == [] || !Enabled(s, labels[0]) then []
    else Puts(s, labels[0], r) + Said(c, Next(c, s, labels[0]), labels[1..], r)
  }

  // Whether a step reads from that channel, and how often a run does.
  predicate Takes(l: Label, r: nat) {
    l.LoopReads? && l.r == r
  }

  function Taken(labels: seq<Label>, r: nat): nat
    decreases |labels|
  {
    if labels == [] then 0 else (if Takes(labels[0], r) then 1 else 0) + Taken(labels[1..], r)
  }

  // The replies among some messages, and those on record as heard from the host behind r.
  function RepliesIn(messages: seq<Msg>): seq<Msg>
    decreases |messages|
  {
    if messages == [] then []
    else
      var m := messages[|messages| - 1];
      RepliesIn(messages[..|messages| - 1]) + if m.Accept? || m.Reject? then [m] else []
  }

  function HeardIn(e: Event, r: nat): seq<Msg> {
    if e.Heard? && e.r == r then [if e.ok then Accept(e.session) else Reject(e.session)] else []
  }

  function HeardBy(log: seq<Event>, r: nat): seq<Msg>
    decreases |log|
  {
    if log == [] then [] else HeardBy(log[..|log| - 1], r) + HeardIn(log[|log| - 1], r)
  }

  lemma {:induction false} HeardMore(log: seq<Event>, more: seq<Event>, r: nat)
    ensures HeardBy(log + more, r) == HeardBy(log, r) + HeardBy(more, r)
    decreases |more|
  {
    if more == [] {
      assert log + more == log;
    } else {
      var past, e := more[..|more| - 1], more[|more| - 1];
      assert (log + more)[..|log + more| - 1] == log + past;
      HeardMore(log, past, r);
      Assoc(HeardBy(log, r), HeardBy(past, r), HeardIn(e, r));
    }
  }

  // ---- One step ----

  // Events that record nothing heard from the host behind r.
  predicate Quiet(events: seq<Event>, r: nat) {
    forall i :: 0 <= i < |events| ==> events[i].Heard? ==> events[i].r != r
  }

  lemma {:induction false} QuietHeard(events: seq<Event>, r: nat)
    requires Quiet(events, r)
    ensures HeardBy(events, r) == []
    decreases |events|
  {
    if events != [] { QuietHeard(events[..|events| - 1], r); }
  }

  // A step that does not read from the channel: messages are added at its end.
  predicate Leaves(s: State, d: Change, r: nat, said: seq<Msg>) {
    && Quiet(d.events, r)
    && if d.reg.Some? && d.reg.value.r == r then
         var b := d.reg.value.reg;
         if r in s.regs then
           var a := s.regs[r];
           b.up == a.up + said && b.registered == a.registered && b.unattended == a.unattended
         else b.up == said && !b.registered
       else said == []
  }

  lemma HostLeaves(s: State, l: Label, r: nat)
    requires Enabled(s, l) && HostLabel(l) && !Takes(l, r)
    ensures Leaves(s, HostChange(s, l), r, Puts(s, l, r))
  {
    if l.LoopReads? { OtherLoopLeaves(s, l, r); }
  }

  lemma OtherLoopLeaves(s: State, l: Label, r: nat)
    requires Enabled(s, l) && l.LoopReads? && l.r != r
    ensures Leaves(s, LoopStep(s, l.r, l.newId, l.newPin), r, [])
  {
    Causality.LoopShape(s, l.r, l.newId, l.newPin);
    hide LoopStep, Enabled;
  }

  lemma ViewerLeaves(c: Config, s: State, l: Label, r: nat)
    requires Enabled(s, l) && !HostLabel(l)
    ensures Leaves(s, ViewerChange(c, s, l), r, Puts(s, l, r))
    ensures var d := ViewerChange(c, s, l); d.reg.Some? ==> d.reg.value.r in s.regs
  {
  }

  // The loop is where the first n messages said have brought it: the rest is under way, it has
  // registered if there was a Register among them, with the flag of the first, and has heard the
  // replies among them, in order.
  predicate Follows(s: State, r: nat, said: seq<Msg>, n: nat) {
    if r in s.regs then
      && n <= |said| && s.regs[r].up == said[n..]
      && s.regs[r].registered == R.FirstRegister(said[..n]).Some?
      && (s.regs[r].registered ==> s.regs[r].unattended == R.FirstRegister(said[..n]).value)
      && HeardBy(s.log, r) == RepliesIn(said[..n])
    else said == [] && n == 0 && HeardBy(s.log, r) == []
  }

  lemma LeavesFollows(s: State, d: Change, r: nat, said: seq<Msg>, n: nat, more: seq<Msg>)
    requires Follows(s, r, said, n) && Leaves(s, d, r, more)
    ensures Follows(Apply(s, d), r, said + more, n)
  {
    hide R.FirstRegister, RepliesIn, HeardBy, Quiet;
    HeardMore(s.log, d.events, r);
    QuietHeard(d.events, r);
    assert HeardBy(s.log, r) + [] == HeardBy(s.log, r);
    if r in s.regs {
      Later(said, more, n);
      assert d.reg.None? || d.reg.value.r != r ==> said + more == said;
    } else {
      Silence();
      assert said + more == more && (said + more)[..0] == [] && more[0..] == more;
    }
  }

  lemma Later(said: seq<Msg>, more: seq<Msg>, n: nat)
    requires n <= |said|
    ensures (said + more)[..n] == said[..n] && (said + more)[n..] == said[n..] + more
  {
  }

  lemma Silence()
    ensures R.FirstRegister([]) == None && RepliesIn([]) == []
  {
  }

  // What reading the message m does to the registration and records.
  predicate Reads(a: Reg, b: Reg, events: seq<Event>, r: nat, m: Msg) {
    && a.up != [] && a.up[0] == m && b.up == a.up[1..]
    && HeardBy(events, r) == (if m.Accept? || m.Reject? then [m] else [])
    && if m.Register? && !a.registered then b.registered && b.unattended == m.unattended
       else b.registered == a.registered && b.unattended == a.unattended
  }

  lemma LoopTakes(s: State, r: nat, newId: string, newPin: string)
    requires Enabled(s, LoopReads(r, newId, newPin))
    ensures var d := LoopStep(s, r, newId, newPin);
      && d.reg.Some? && d.reg.value.r == r
      && Reads(s.regs[r], d.reg.value.reg, d.events, r, s.regs[r].up[0])
  {
    var m, d := s.regs[r].up[0], LoopStep(s, r, newId, newPin);
    Causality.LoopShape(s, r, newId, newPin);
    if m.Accept? || m.Reject? { HeardOnce(d.events, r, m); } else { QuietHeard(d.events, r); }
  }

  lemma HeardOnce(events: seq<Event>, r: nat, m: Msg)
    requires m.Accept? || m.Reject?
    requires Causality.HeardEvents(events, r, m.session, m.Accept?)
    ensures HeardBy(events, r) == [m]
  {
    var first := [Heard(r, m.session, m.Accept?)];
    assert first[..0] == [] && HeardBy(first, r) == [m];
    if |events| == 2 {
      assert events[..1] == first;
      assert HeardIn(events[1], r) == [];
    }
  }

  lemma TakenFollows(s: State, d: Change, r: nat, said: seq<Msg>, n: nat)
    requires Follows(s, r, said, n) && r in s.regs && d.reg.Some? && d.reg.value.r == r && s.regs[r].up != []
    requires Reads(s.regs[r], d.reg.value.reg, d.events, r, s.regs[r].up[0])
    ensures Follows(Apply(s, d), r, said, n + 1)
  {
    HeardMore(s.log, d.events, r);
    assert said[n] == s.regs[r].up[0];
    assert said[..n + 1][..n] == said[..n] && said[n..][1..] == said[n + 1..];
  }

  lemma SaysNothing(s: State, l: Label, r: nat, said: seq<Msg>)
    requires Enabled(s, l) && Takes(l, r)
    ensures said + Puts(s, l, r) == said && HostLabel(l) && r in s.regs && s.regs[r].up != []
  {
  }

  lemma StepFollows(c: Config, s: State, l: Label, r: nat, said: seq<Msg>, n: nat)
    requires Enabled(s, l) && Follows(s, r, said, n)
    ensures Follows(Next(c, s, l), r, said + Puts(s, l, r), n + if Takes(l, r) then 1 else 0)
  {
    hide Follows, Leaves, Reads, Puts;
    if Takes(l, r) {
      LoopTakes(s, r, l.newId, l.newPin);
      TakenFollows(s, LoopStep(s, r, l.newId, l.newPin), r, said, n);
      SaysNothing(s, l, r, said);
    } else {
      if HostLabel(l) { HostLeaves(s, l, r); } else { ViewerLeaves(c, s, l, r); }
      LeavesFollows(s, ChangeOf(c, s, l), r, said, n, Puts(s, l, r));
    }
  }

  // ---- Every run ----

  lemma {:induction false} RunFollows(c: Config, s: State, labels: seq<Label>, r: nat, said: seq<Msg>, n: nat)
    requires Run(c, s, labels).Some? && Follows(s, r, said, n)
    ensures Follows(Run(c, s, labels).value, r, said + Said(c, s, labels, r), n + Taken(labels, r))
    decreases |labels|
  {
    hide Follows, Next, Enabled, Puts, Takes;
    if labels == [] {
      assert said + [] == said;
    } else {
      var l, later := labels[0], Said(c, Next(c, s, labels[0]), labels[1..], r);
      StepFollows(c, s, l, r, said, n);
      RunFollows(c, Next(c, s, l), labels[1..], r, said + Puts(s, l, r), n + if Takes(l, r) then 1 else 0);
      Assoc(said, Puts(s, l, r), later);
    }
  }

  // The control loop of every host, in every run: it has read the first n messages the host said and
  // the others are under way, in order. It has registered if and only if there was a Register among
  // the n, with the flag of the first, and the replies on record are those among the n, in order.
  lemma LoopFollowsHost(c: Config, labels: seq<Label>, r: nat)
    requires Run(c, INIT, labels).Some?
    ensures var (s, said, n) := (Run(c, INIT, labels).value, Said(c, INIT, labels, r), Taken(labels, r));
      r in s.regs ==>
        && n <= |said| && s.regs[r].up == said[n..]
        && s.regs[r].registered == R.FirstRegister(said[..n]).Some?
        && (s.regs[r].registered ==> s.regs[r].unattended == R.FirstRegister(said[..n]).value)
        && HeardBy(s.log, r) == RepliesIn(said[..n])
  {
    assert Follows(INIT, r, [], 0);
    RunFollows(c, INIT, labels, r, [], 0);
    assert [] + Said(c, INIT, labels, r) == Said(c, INIT, labels, r);
  }

  // ---- Modes and names, from the labels alone ----

  // The flag a label sends with a Register from the host behind r.
  function ModeIn(l: Label, r: nat): Option<bool> {
    match l
    case OpenControl(q, conforming, unattended) => if q == r && conforming then Some(unattended) else None
    case HostSays(q, m) => if q == r && m.Register? then Some(m.unattended) else None
    case _ => None
  }

  // The mode a host asked for: the flag of the first Register it sent.
  function ModeOf(labels: seq<Label>, r: nat): Option<bool>
    decreases |labels|
  {
    if labels == [] then None
    else if ModeIn(labels[0], r).Some? then ModeIn(labels[0], r)
    else ModeOf(labels[1..], r)
  }

  lemma {:induction false} FirstOfBoth(a: seq<Msg>, b: seq<Msg>)
    ensures R.FirstRegister(a + b)
         == if R.FirstRegister(a).Some? then R.FirstRegister(a) else R.FirstRegister(b)
    decreases |b|
  {
    if b == [] {
      assert a + b == a;
    } else {
      assert (a + b)[..|a + b| - 1] == a + b[..|b| - 1];
      FirstOfBoth(a, b[..|b| - 1]);
    }
  }

  lemma PutsMode(s: State, l: Label, r: nat)
    requires Enabled(s, l)
    ensures R.FirstRegister(Puts(s, l, r)) == ModeIn(l, r)
  {
    var said := Puts(s, l, r);
    assert |said| <= 1 && (said != [] ==> said[..0] == []);
  }

  lemma {:induction false} SaidMode(c: Config, s: State, labels: seq<Label>, r: nat)
    requires Run(c, s, labels).Some?
    ensures R.FirstRegister(Said(c, s, labels, r)) == ModeOf(labels, r)
    decreases |labels|
  {
    hide Next, Enabled, Puts, ModeIn;
    if labels != [] {
      PutsMode(s, labels[0], r);
      FirstOfBoth(Puts(s, labels[0], r), Said(c, Next(c, s, labels[0]), labels[1..], r));
      SaidMode(c, Next(c, s, labels[0]), labels[1..], r);
    }
  }

  // In every run a registered host is unattended if and only if the first Register it sent said so.
  lemma RegisteredMode(c: Config, labels: seq<Label>, r: nat)
    requires Run(c, INIT, labels).Some?
    ensures var s := Run(c, INIT, labels).value;
      r in s.regs && s.regs[r].registered ==> ModeOf(labels, r) == Some(s.regs[r].unattended)
  {
    var s, said, n := Run(c, INIT, labels).value, Said(c, INIT, labels, r), Taken(labels, r);
    if r in s.regs && s.regs[r].registered {
      LoopFollowsHost(c, labels, r);
      SaidMode(c, INIT, labels, r);
      assert said == said[..n] + said[n..];
      FirstOfBoth(said[..n], said[n..]);
    }
  }

  lemma OpensOnce(c: Config, s: State, labels: seq<Label>, r: nat, u: bool)
    requires Run(c, s, labels).Some? && r in s.regs
    ensures OpenControl(r, true, u) !in labels
    ensures r in Run(c, s, labels).value.regs
    ensures Run(c, s, labels).value.regs[r].agent.Free? == s.regs[r].agent.Free?
    decreases |labels|
  {
    hide Next, SameIdentity;
    if labels != [] {
      StepKeepsKind(c, s, labels[0], r);
      OpensOnce(c, Next(c, s, labels[0]), labels[1..], r, u);
      assert labels == [labels[0]] + labels[1..];
    }
  }

  lemma StepKeepsKind(c: Config, s: State, l: Label, r: nat)
    requires Enabled(s, l) && r in s.regs
    ensures r in Next(c, s, l).regs && Next(c, s, l).regs[r].agent.Free? == s.regs[r].agent.Free?
  {
    StepKeepsIdentity(c, s, l, r);
  }

  // An agent that runs Connect and Serve is one, and asks for the mode it was started with.
  lemma {:induction false} AgentMode(c: Config, s: State, labels: seq<Label>, r: nat, u: bool)
    requires Run(c, s, labels).Some? && r !in s.regs && OpenControl(r, true, u) in labels
    ensures ModeOf(labels, r) == Some(u)
    ensures r in Run(c, s, labels).value.regs && !Run(c, s, labels).value.regs[r].agent.Free?
    decreases |labels|
  {
    var l := labels[0];
    assert labels == [l] + labels[1..];
    if l == OpenControl(r, true, u) {
      OpensOnce(c, Next(c, s, l), labels[1..], r, u);
    } else {
      StaysUnknown(c, s, l, r);
      if r in Next(c, s, l).regs {
        OpensOnce(c, Next(c, s, l), labels[1..], r, u);
      } else {
        AgentMode(c, Next(c, s, l), labels[1..], r, u);
      }
    }
  }

  // A step that makes r known opens its channel, and until then it says nothing.
  lemma StaysUnknown(c: Config, s: State, l: Label, r: nat)
    requires Enabled(s, l) && r !in s.regs
    ensures r in Next(c, s, l).regs ==> l.OpenControl? && l.r == r
    ensures !(l.OpenControl? && l.r == r) ==> ModeIn(l, r) == None
  {
    if HostLabel(l) { Causality.HostBalanced(s, l, ""); } else { ViewerLeaves(c, s, l, r); }
  }

  // What names a registration and a viewer are the draw of the loop that registered it and the
  // viewer's own request.
  lemma {:induction false} NamesFromLabels(c: Config, s: State, labels: seq<Label>)
    requires Run(c, s, labels).Some? && s.regs == map[] && s.viewers == map[]
    ensures Named(Run(c, s, labels).value, labels)
  {
    RunNamed(c, s, [], labels);
    assert [] + labels == labels;
  }

  predicate Named(s: State, labels: seq<Label>) {
    && (forall r :: r in s.regs && s.regs[r].registered ==> LoopReads(r, s.regs[r].id, s.regs[r].pin) in labels)
    && (forall v :: v in s.viewers ==> Arrive(v, s.viewers[v].id, s.viewers[v].pin) in labels)
  }

  lemma StepNamed(c: Config, s: State, past: seq<Label>, l: Label)
    requires Enabled(s, l) && Named(s, past)
    ensures Named(Next(c, s, l), past + [l])
  {
    var s' := Next(c, s, l);
    forall r | r in s'.regs && s'.regs[r].registered
      ensures LoopReads(r, s'.regs[r].id, s'.regs[r].pin) in past + [l]
    {
      NamedReg(c, s, l, r);
    }
    forall v | v in s'.viewers ensures Arrive(v, s'.viewers[v].id, s'.viewers[v].pin) in past + [l] {
      NamedViewer(c, s, l, v);
    }
  }

  lemma NamedReg(c: Config, s: State, l: Label, r: nat)
    requires Enabled(s, l) && r in Next(c, s, l).regs && Next(c, s, l).regs[r].registered
    ensures var b := Next(c, s, l).regs[r];
      || (r in s.regs && s.regs[r].registered && s.regs[r].id == b.id && s.regs[r].pin == b.pin)
      || l == LoopReads(r, b.id, b.pin)
  {
    if r in s.regs { StepKeepsIdentity(c, s, l, r); }
    if r !in s.regs || !s.regs[r].registered { Registers(c, s, l, r); }
  }

  lemma Registers(c: Config, s: State, l: Label, r: nat)
    requires Enabled(s, l) && r in Next(c, s, l).regs && Next(c, s, l).regs[r].registered
    requires r !in s.regs || !s.regs[r].registered
    ensures l == LoopReads(r, Next(c, s, l).regs[r].id, Next(c, s, l).regs[r].pin)
  {
    if !HostLabel(l) { ViewerLeaves(c, s, l, r); }
  }

  lemma NamedViewer(c: Config, s: State, l: Label, v: nat)
    requires Enabled(s, l) && v in Next(c, s, l).viewers
    ensures var w := Next(c, s, l).viewers[v];
      || (v in s.viewers && s.viewers[v].id == w.id && s.viewers[v].pin == w.pin)
      || l == Arrive(v, w.id, w.pin)
  {
    if v in s.viewers { Causality.StepKeepsName(c, s, l, v); }
  }

  lemma {:induction false} RunNamed(c: Config, s: State, past: seq<Label>, labels: seq<Label>)
    requires Run(c, s, labels).Some? && Named(s, past)
    ensures Named(Run(c, s, labels).value, past + labels)
    decreases |labels|
  {
    hide Next, Named;
    if labels == [] {
      assert past + [] == past;
    } else {
      StepNamed(c, s, past, labels[0]);
      RunNamed(c, Next(c, s, labels[0]), past + [labels[0]], labels[1..]);
      assert past + [labels[0]] + labels[1..] == past + labels;
    }
  }
}
