// Short runs of the relay, used to show that a state is reached.
module Scenes {
  import opened Bytes
  import opened Broker
  import L = Lockout

  lemma RunOne(c: Config, s: State, l: Label)
    requires Enabled(s, l)
    ensures Run(c, s, [l]) == Some(Next(c, s, l))
  {
    assert [l][1..] == [];
    assert Run(c, Next(c, s, l), []) == Some(Next(c, s, l));
  }

  lemma {:induction false} RunThen(c: Config, s: State, a: seq<Label>, b: seq<Label>)
    requires Run(c, s, a).Some?
    ensures Run(c, s, a + b) == Run(c, Run(c, s, a).value, b)
    decreases |a|
  {
    hide Next, Enabled;
    if a == [] {
      assert a + b == b;
    } else {
      assert (a + b)[0] == a[0] && (a + b)[1..] == a[1..] + b;
      RunThen(c, Next(c, s, a[0]), a[1..], b);
    }
  }

  lemma {:induction false} FreshThen(c: Config, s: State, a: seq<Label>, b: seq<Label>)
    requires FreshRun(c, s, a) && Run(c, s, a).Some? && FreshRun(c, Run(c, s, a).value, b)
    ensures FreshRun(c, s, a + b)
    decreases |a|
  {
    hide Next, Enabled;
    if a == [] {
      assert a + b == b;
    } else {
      assert (a + b)[0] == a[0] && (a + b)[1..] == a[1..] + b;
      FreshThen(c, Next(c, s, a[0]), a[1..], b);
    }
  }

  // A run that starts no session is fresh.
  lemma {:induction false} NoSessionFresh(c: Config, s: State, labels: seq<Label>)
    requires Run(c, s, labels).Some? && forall k :: 0 <= k < |labels| ==> !labels[k].Enqueue?
    ensures FreshRun(c, s, labels)
    decreases |labels|
  {
    if labels != [] { NoSessionFresh(c, Next(c, s, labels[0]), labels[1..]); }
  }

  // An attended agent opens control channel r and is registered, but not yet greeted.
  function Open(r: nat, id: string, pin: string): seq<Label> {
    [OpenControl(r, true, false), LoopReads(r, id, pin)]
  }

  lemma Opened(c: Config, r: nat, id: string, pin: string) returns (s: State)
    ensures Run(c, INIT, Open(r, id, pin)) == Some(s)
    ensures s == State(0, map[id := r],
                       map[r := Reg(true, id, pin, false, L.Gate(0, 0), map[], Greeting, Dialing, [], [])],
                       map[], {}, [])
  {
    var s1 := Next(c, INIT, OpenControl(r, true, false));
    assert s1.regs[r].up[1..] == [];
    s := Next(c, s1, LoopReads(r, id, pin));
    RunOne(c, INIT, OpenControl(r, true, false));
    RunOne(c, s1, LoopReads(r, id, pin));
    RunThen(c, INIT, [OpenControl(r, true, false)], [LoopReads(r, id, pin)]);
    assert Open(r, id, pin) == [OpenControl(r, true, false)] + [LoopReads(r, id, pin)];
  }

  // Viewer v comes with an id and a PIN and has them checked at time t.
  function Join(v: nat, id: string, pin: string, t: nat): seq<Label> {
    [Arrive(v, id, pin), Lookup(v), Check(v, t, t)]
  }

  // Given the id and PIN of an online host that is not locked, the viewer is admitted.
  lemma Joined(c: Config, s: State, v: nat, r: nat, id: string, pin: string) returns (s': State)
    requires v !in s.viewers && r in s.regs && id in s.hosts && s.hosts[id] == r
    requires s.regs[r].pin == pin && s.regs[r].gate.lockUntil <= s.clock
    ensures Run(c, s, Join(v, id, pin, s.clock)) == Some(s')
    ensures s' == State(s.clock, s.hosts, s.regs[r := s.regs[r].(gate := s.regs[r].gate.(failures := 0))],
                        s.viewers[v := Viewer(id, pin, Admitted(r), None)], s.used, s.log + [Admit(v, r)])
  {
    var a, b, d := Arrive(v, id, pin), Lookup(v), Check(v, s.clock, s.clock);
    var s1 := Next(c, s, a);
    var s2 := Next(c, s1, b);
    assert s2.viewers[v].pc == Found(r);
    s' := Next(c, s2, d);
    RunOne(c, s, a);
    RunOne(c, s1, b);
    RunThen(c, s, [a], [b]);
    RunOne(c, s2, d);
    RunThen(c, s, [a] + [b], [d]);
    assert Join(v, id, pin, s.clock) == [a] + [b] + [d];
  }

  // A viewer is admitted and waits for consent in session k.
  function Ask(v: nat, id: string, pin: string, k: string, t: nat): seq<Label> {
    Join(v, id, pin, t) + [Enqueue(v, k)]
  }

  lemma Asking(c: Config, s: State, v: nat, r: nat, id: string, pin: string, k: string) returns (s': State)
    requires v !in s.viewers && r in s.regs && id in s.hosts && s.hosts[id] == r
    requires s.regs[r].pin == pin && s.regs[r].gate.lockUntil <= s.clock && !s.regs[r].unattended
    ensures Run(c, s, Ask(v, id, pin, k, s.clock)) == Some(s')
    ensures s' == State(s.clock, s.hosts,
                        s.regs[r := s.regs[r].(gate := s.regs[r].gate.(failures := 0),
                                               pending := s.regs[r].pending[k := v])],
                        s.viewers[v := Viewer(id, pin, Queued(r, k), None)], s.used + {k}, s.log + [Admit(v, r)])
  {
    var s1 := Joined(c, s, v, r, id, pin);
    s' := Next(c, s1, Enqueue(v, k));
    RunThen(c, s, Join(v, id, pin, s.clock), [Enqueue(v, k)]);
    RunOne(c, s1, Enqueue(v, k));
  }
}
