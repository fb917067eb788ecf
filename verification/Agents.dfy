// What becomes of an agent that connects: the first message down to it decides.
module Agents {
  import opened Bytes
  import opened Broker
  import opened Registry
  import L = Lockout
  import Scenes

  // The message a step sends down to registration r, if any: Registered by the control loop,
  // Incoming and Alert by viewers.
  function SendsDown(s: State, l: Label, r: nat): Option<Msg> {
    if !Enabled(s, l) then None
    else
      match l
      case Greet(q, sent) => if sent && q == r then Some(Registered(s.regs[r].id, s.regs[r].pin)) else None
      case Notify(v, sent) =>
        if sent && s.viewers[v].pc.reg == r then Some(Incoming(s.viewers[v].pc.session)) else None
      case SendAlert(v, sent) => if sent && s.viewers[v].pc.reg == r then Some(Alert) else None
      case _ => None
  }

  // The first message sent down to r in a run.
  function FirstDown(c: Config, s: State, labels: seq<Label>, r: nat): Option<Msg>
    decreases |labels|
  {
    if labels == [] || !Enabled(s, labels[0]) then None
    else
      var m := SendsDown(s, labels[0], r);
      if m.Some? then m else FirstDown(c, Next(c, s, labels[0]), labels[1..], r)
  }

  // How often the host behind r takes a message.
  function Reads(labels: seq<Label>, r: nat): nat
    decreases |labels|
  {
    if labels == [] then 0
    else (if labels[0].HostReads? && labels[0].r == r then 1 else 0) + Reads(labels[1..], r)
  }

  // Where an agent is, given the first message sent down to it and that it has taken n.
  predicate Fate(reg: Reg, first: Option<Msg>, n: nat) {
    match reg.agent
    case Free => true
    case Dialing => n == 0 && if reg.down == [] then first.None? else first == Some(reg.down[0])
    case Serving => n > 0 && first.Some? && first.value.Registered?
    case Gone => n > 0 && first.Some? && !first.value.Registered?
  }

  predicate FateOf(s: State, r: nat, first: Option<Msg>, n: nat) {
    if r in s.regs then Fate(s.regs[r], first, n) else first.None? && n == 0
  }

  // What one step does to the messages down to r and to the agent there.
  predicate DownMove(s: State, d: Change, r: nat, taken: bool, m: Option<Msg>) {
    var sent := if m.Some? then [m.value] else [];
    if r !in s.regs then
      !taken && m.None? && (r in Apply(s, d).regs ==>
        var b := Apply(s, d).regs[r]; b.down == [] && (b.agent.Free? || b.agent.Dialing?))
    else
      r in Apply(s, d).regs
      && var (a, b) := (s.regs[r], Apply(s, d).regs[r]);
      if taken then
        && m.None? && a.down != [] && b.down == a.down[1..]
        && match a.agent
           case Dialing => b.agent == if a.down[0].Registered? then Serving else Gone
           case Serving => b.agent == Serving
           case _ => false
      else b.down == a.down + sent && b.agent == a.agent
  }

  lemma LoopDown(s: State, r: nat, newId: string, newPin: string)
    requires Enabled(s, LoopReads(r, newId, newPin))
    ensures var d := LoopStep(s, r, newId, newPin);
      && d.reg.Some? && d.reg.value.r == r
      && d.reg.value.reg.down == s.regs[r].down && d.reg.value.reg.agent == s.regs[r].agent
  {
  }

  lemma HostDown(s: State, l: Label, r: nat)
    requires Enabled(s, l) && HostLabel(l)
    ensures DownMove(s, HostChange(s, l), r, l.HostReads? && l.r == r, SendsDown(s, l, r))
  {
    if l.LoopReads? { LoopDown(s, l.r, l.newId, l.newPin); }
  }

  lemma ViewerDown(c: Config, s: State, l: Label, r: nat)
    requires Enabled(s, l) && !HostLabel(l)
    ensures DownMove(s, ViewerChange(c, s, l), r, false, SendsDown(s, l, r))
  {
  }

  lemma MovedFate(s: State, d: Change, r: nat, taken: bool, m: Option<Msg>, first: Option<Msg>, n: nat)
    requires FateOf(s, r, first, n) && DownMove(s, d, r, taken, m)
    ensures FateOf(Apply(s, d), r, if first.Some? then first else m, n + if taken then 1 else 0)
  {
  }

  lemma StepFate(c: Config, s: State, l: Label, r: nat, first: Option<Msg>, n: nat)
    requires Enabled(s, l) && FateOf(s, r, first, n)
    ensures FateOf(Next(c, s, l), r, if first.Some? then first else SendsDown(s, l, r),
                   n + if l.HostReads? && l.r == r then 1 else 0)
  {
    if HostLabel(l) { HostDown(s, l, r); } else { ViewerDown(c, s, l, r); }
    MovedFate(s, ChangeOf(c, s, l), r, l.HostReads? && l.r == r, SendsDown(s, l, r), first, n);
  }

  lemma {:induction false} RunFate(c: Config, s: State, labels: seq<Label>, r: nat, first: Option<Msg>, n: nat)
    requires Run(c, s, labels).Some? && FateOf(s, r, first, n)
    ensures FateOf(Run(c, s, labels).value, r, if first.Some? then first else FirstDown(c, s, labels, r),
                   n + Reads(labels, r))
    decreases |labels|
  {
    if labels != [] {
      var l := labels[0];
      var first' := if first.Some? then first else SendsDown(s, l, r);
      StepFate(c, s, l, r, first, n);
      RunFate(c, Next(c, s, l), labels[1..], r, first', n + if l.HostReads? && l.r == r then 1 else 0);
    }
  }

  // Over every run: an agent that has read nothing is still dialling; one that has read serves if the
  // first message sent down to it was Registered, and has given up if it was not. The relay makes
  // the host known before it sends Registered, so a viewer can be first.
  lemma AgentFate(c: Config, labels: seq<Label>, r: nat)
    requires Run(c, INIT, labels).Some?
    ensures var s := Run(c, INIT, labels).value;
      r in s.regs && !s.regs[r].agent.Free? ==>
        var first := FirstDown(c, INIT, labels, r);
        && (s.regs[r].agent == Dialing <==> Reads(labels, r) == 0)
        && (s.regs[r].agent == Serving <==> Reads(labels, r) > 0 && first.Some? && first.value.Registered?)
        && (s.regs[r].agent == Gone <==> Reads(labels, r) > 0 && first.Some? && !first.value.Registered?)
  {
    RunFate(c, INIT, labels, r, None, 0);
  }

  // ---- Everything sent down ----

  // The messages sent down to r in a run.
  function SentDown(c: Config, s: State, labels: seq<Label>, r: nat): seq<Msg>
    decreases |labels|
  {
    if labels == [] || !Enabled(s, labels[0]) then []
    else
      var m := SendsDown(s, labels[0], r);
      (if m.Some? then [m.value] else []) + SentDown(c, Next(c, s, labels[0]), labels[1..], r)
  }

  // At most one Registered, and it carries the registration's own id and PIN.
  predicate GreetedRight(reg: Reg, sent: seq<Msg>) {
    && (forall i :: 0 <= i < |sent| && sent[i].Registered? ==>
          reg.registered && reg.loop != Greeting && sent[i] == Registered(reg.id, reg.pin))
    && (forall i, j :: 0 <= i < j < |sent| ==> !sent[i].Registered? || !sent[j].Registered?)
  }

  predicate Delivers(s: State, r: nat, sent: seq<Msg>, n: nat) {
    if r in s.regs then
      n <= |sent| && s.regs[r].down == sent[n..] && GreetedRight(s.regs[r], sent)
    else sent == [] && n == 0
  }

  lemma LoopGreets(s: State, r: nat, newId: string, newPin: string)
    requires Enabled(s, LoopReads(r, newId, newPin))
    ensures var d := LoopStep(s, r, newId, newPin);
      d.reg.Some? && (d.reg.value.reg.loop == Greeting ==> !s.regs[r].registered)
  {
  }

  // A registration is greeted only once.
  lemma GreetsOnce(c: Config, s: State, l: Label, r: nat)
    requires Enabled(s, l) && r in s.regs && r in Next(c, s, l).regs && Next(c, s, l).regs[r].loop == Greeting
    ensures !s.regs[r].registered || (s.regs[r].loop == Greeting && !(l.Greet? && l.r == r))
  {
    if l.LoopReads? { LoopGreets(s, l.r, l.newId, l.newPin); }
  }

  lemma OnlyGreetRegisters(c: Config, s: State, l: Label, r: nat)
    requires Enabled(s, l) && Agrees(s) && r in s.regs
    requires SendsDown(s, l, r).Some? && SendsDown(s, l, r).value.Registered?
    ensures s.regs[r].loop == Greeting && s.regs[r].registered && r in Next(c, s, l).regs
    ensures var b := Next(c, s, l).regs[r];
      b.loop != Greeting && b.registered && SendsDown(s, l, r).value == Registered(b.id, b.pin)
  {
  }

  lemma StepDelivers(c: Config, s: State, l: Label, r: nat, sent: seq<Msg>, n: nat)
    requires Enabled(s, l) && Agrees(s) && Delivers(s, r, sent, n)
    ensures var m := SendsDown(s, l, r);
      Delivers(Next(c, s, l), r, sent + if m.Some? then [m.value] else [],
               n + if l.HostReads? && l.r == r then 1 else 0)
  {
    hide Enabled, Agrees, ChangeOf, Next, SendsDown, GreetedRight, SameIdentity;
    var m, taken := SendsDown(s, l, r), l.HostReads? && l.r == r;
    MovesDown(c, s, l, r);
    if r in s.regs {
      StepKeepsIdentity(c, s, l, r);
      if Next(c, s, l).regs[r].loop == Greeting { GreetsOnce(c, s, l, r); }
      if m.Some? && m.value.Registered? { OnlyGreetRegisters(c, s, l, r); }
      GreetSends(s, l, r);
      DeliversOn(s.regs[r], Next(c, s, l).regs[r], sent, n, m, taken);
    }
  }

  lemma GreetSends(s: State, l: Label, r: nat)
    ensures SendsDown(s, l, r).Some? && SendsDown(s, l, r).value.Registered? ==> l.Greet? && l.r == r
  {
  }

  // The channel down to r and what is in it, over one step.
  lemma MovesDown(c: Config, s: State, l: Label, r: nat)
    requires Enabled(s, l)
    ensures var m, s' := SendsDown(s, l, r), Next(c, s, l);
      if r !in s.regs then m.None? && !(l.HostReads? && l.r == r) && (r in s'.regs ==> s'.regs[r].down == [])
      else
        && r in s'.regs
        && if l.HostReads? && l.r == r then
             m.None? && s.regs[r].down != [] && s'.regs[r].down == s.regs[r].down[1..]
           else s'.regs[r].down == s.regs[r].down + if m.Some? then [m.value] else []
    ensures r !in s.regs && r in Next(c, s, l).regs ==> GreetedRight(Next(c, s, l).regs[r], [])
  {
    if HostLabel(l) { HostDown(s, l, r); } else { ViewerDown(c, s, l, r); }
    hide Enabled, HostChange, ViewerChange, SendsDown;
  }

  lemma DeliversOn(a: Reg, b: Reg, sent: seq<Msg>, n: nat, m: Option<Msg>, taken: bool)
    requires n <= |sent| && a.down == sent[n..] && GreetedRight(a, sent) && SameIdentity(a, b)
    requires if taken then m.None? && a.down != [] && b.down == a.down[1..]
             else b.down == a.down + if m.Some? then [m.value] else []
    requires b.loop == Greeting ==> !a.registered || (a.loop == Greeting && !(m.Some? && m.value.Registered?))
    requires m.Some? && m.value.Registered? ==>
      a.loop == Greeting && b.loop != Greeting && b.registered && m.value == Registered(b.id, b.pin)
    ensures var sent', n' := sent + if m.Some? then [m.value] else [], n + if taken then 1 else 0;
      n' <= |sent'| && b.down == sent'[n'..] && GreetedRight(b, sent')
  {
  }

  lemma {:induction false} RunDelivers(c: Config, s: State, labels: seq<Label>, r: nat, sent: seq<Msg>, n: nat)
    requires Run(c, s, labels).Some? && Agrees(s) && Delivers(s, r, sent, n)
    ensures Delivers(Run(c, s, labels).value, r, sent + SentDown(c, s, labels, r), n + Reads(labels, r))
    decreases |labels|
  {
    hide Delivers, Next, Enabled, SendsDown, Agrees;
    if labels == [] {
      assert sent + [] == sent;
    } else {
      var l := labels[0];
      var m := SendsDown(s, l, r);
      var more := if m.Some? then [m.value] else [];
      StepDelivers(c, s, l, r, sent, n);
      StepAgrees(c, s, l);
      RunDelivers(c, Next(c, s, l), labels[1..], r, sent + more, n + if l.HostReads? && l.r == r then 1 else 0);
      Assoc(sent, more, SentDown(c, Next(c, s, l), labels[1..], r));
    }
  }

  // In every run the messages down to a host arrive in the order they were sent, and at most one of
  // them is Registered, with the id and the PIN of the registration in their places.
  lemma GreetedOnce(c: Config, labels: seq<Label>, r: nat)
    requires Run(c, INIT, labels).Some?
    ensures var (s, sent, n) := (Run(c, INIT, labels).value, SentDown(c, INIT, labels, r), Reads(labels, r));
      r in s.regs ==>
        && n <= |sent| && s.regs[r].down == sent[n..]
        && (forall i :: 0 <= i < |sent| && sent[i].Registered? ==>
              sent[i].id == s.regs[r].id && sent[i].pin == s.regs[r].pin && s.regs[r].registered)
        && (forall i, j :: 0 <= i < j < |sent| ==> !sent[i].Registered? || !sent[j].Registered?)
  {
    RunDelivers(c, INIT, labels, r, [], 0);
    assert [] + SentDown(c, INIT, labels, r) == SentDown(c, INIT, labels, r);
  }

  // ---- A viewer that is first ----

  lemma Overtaken(c: Config, s: State)
    requires s.clock == 0 && s.viewers == map[] && 0 in s.regs && s.hosts == map["1" := 0] && "k" !in s.used
    requires s.regs[0].pin == "2" && s.regs[0].registered && !s.regs[0].unattended && s.regs[0].gate == L.Gate(0, 0)
    requires s.regs[0].down == [] && s.regs[0].agent == Dialing
    ensures var run := Scenes.Ask(0, "1", "2", "k", 0) + [Notify(0, true)] + [HostReads(0, true)];
      && FreshRun(c, s, run) && Run(c, s, run).Some?
      && var s' := Run(c, s, run).value;
      0 in s'.regs && s'.regs[0].registered && s'.regs[0].agent == Gone
  {
    var ask := Scenes.Ask(0, "1", "2", "k", 0);
    var s1 := Scenes.Asking(c, s, 0, 0, "1", "2", "k");
    AskFresh(c, s);
    var s2 := Next(c, s1, Notify(0, true));
    Scenes.RunOne(c, s1, Notify(0, true));
    Scenes.RunThen(c, s, ask, [Notify(0, true)]);
    assert s2.regs[0].down == [Incoming("k")];
    Scenes.RunOne(c, s2, HostReads(0, true));
    Scenes.RunThen(c, s, ask + [Notify(0, true)], [HostReads(0, true)]);
    Scenes.NoSessionFresh(c, s1, [Notify(0, true)]);
    Scenes.FreshThen(c, s, ask, [Notify(0, true)]);
    Scenes.NoSessionFresh(c, s2, [HostReads(0, true)]);
    Scenes.FreshThen(c, s, ask + [Notify(0, true)], [HostReads(0, true)]);
  }

  lemma AskFresh(c: Config, s: State)
    requires s.clock == 0 && s.viewers == map[] && 0 in s.regs && s.hosts == map["1" := 0] && "k" !in s.used
    requires s.regs[0].pin == "2" && s.regs[0].gate == L.Gate(0, 0)
    ensures FreshRun(c, s, Scenes.Ask(0, "1", "2", "k", 0))
  {
    var s1 := Scenes.Joined(c, s, 0, 0, "1", "2");
    Scenes.NoSessionFresh(c, s, Scenes.Join(0, "1", "2", 0));
    assert FreshRun(c, s1, [Enqueue(0, "k")]);
    Scenes.FreshThen(c, s, Scenes.Join(0, "1", "2", 0), [Enqueue(0, "k")]);
  }

  // A run with fresh ids in which a registered host with a conforming agent is lost to its own agent.
  lemma RegistrationLost(c: Config)
    ensures exists labels ::
      && FreshRun(c, INIT, labels) && Run(c, INIT, labels).Some?
      && var s := Run(c, INIT, labels).value;
      0 in s.regs && s.regs[0].registered && s.regs[0].agent == Gone
  {
    var opening := Scenes.Open(0, "1", "2");
    var s := Scenes.Opened(c, 0, "1", "2");
    var run := Scenes.Ask(0, "1", "2", "k", 0) + [Notify(0, true)] + [HostReads(0, true)];
    Overtaken(c, s);
    Scenes.NoSessionFresh(c, INIT, opening);
    Scenes.RunThen(c, INIT, opening, run);
    Scenes.FreshThen(c, INIT, opening, run);
    assert FreshRun(c, INIT, opening + run);
  }
}
