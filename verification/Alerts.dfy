// The PIN check inside the relay: every run of the relay drives each host's lockout by its attempts.
module Alerts {
  import opened Broker
  import opened Registry
  import Causality
  import L = Lockout

  // ---- One alert for each lockout ----

  function Owed(s: State, v: nat, r: nat): nat {
    if v in s.viewers && s.viewers[v].pc == Alerting(r) then 1 else 0
  }

  // Every attempt that tripped the lockout of r has sent one alert, or is about to.
  predicate Tallied(s: State, v: nat, r: nat) {
    multiset(s.log)[Tripped(v, r)] == multiset(s.log)[Alerted(v, r)] + Owed(s, v, r)
  }

  predicate TallyMove(s: State, d: Change, v: nat, r: nat) {
    multiset(d.events)[Tripped(v, r)] + Owed(s, v, r) == multiset(d.events)[Alerted(v, r)] + Owed(Apply(s, d), v, r)
  }

  predicate NoAlarm(events: seq<Event>) {
    forall i :: 0 <= i < |events| ==> !events[i].Tripped? && !events[i].Alerted?
  }

  lemma QuietTally(s: State, d: Change, v: nat, r: nat)
    requires NoAlarm(d.events) && Owed(Apply(s, d), v, r) == Owed(s, v, r)
    ensures TallyMove(s, d, v, r)
  {
    assert Tripped(v, r) !in d.events && Alerted(v, r) !in d.events;
  }

  lemma HostNoAlarm(s: State, l: Label)
    requires Enabled(s, l) && HostLabel(l)
    ensures NoAlarm(HostChange(s, l).events)
  {
    if l.LoopReads? { Causality.LoopShape(s, l.r, l.newId, l.newPin); } else { Causality.HostSilent(s, l); }
  }

  lemma CheckTally(c: Config, s: State, x: nat, now: nat, later: nat, v: nat, r: nat)
    requires At(s, x) && s.viewers[x].pc.Found?
    ensures TallyMove(s, CheckStep(c, s, x, now, later), v, r)
  {
  }

  lemma AlertTally(c: Config, s: State, l: Label, v: nat, r: nat)
    requires Enabled(s, l) && l.SendAlert?
    ensures TallyMove(s, ViewerChange(c, s, l), v, r)
  {
  }

  lemma ViewerNoAlarm(c: Config, s: State, l: Label)
    requires Enabled(s, l) && !HostLabel(l) && !l.Check? && !l.SendAlert?
    ensures var d := ViewerChange(c, s, l);
      && NoAlarm(d.events) && d.viewer.Some? && d.viewer.value.v == l.v && !d.viewer.value.w.pc.Alerting?
      && (l.v in s.viewers ==> !s.viewers[l.v].pc.Alerting?)
  {
  }

  lemma StepTallied(c: Config, s: State, l: Label, v: nat, r: nat)
    requires Enabled(s, l) && Tallied(s, v, r)
    ensures Tallied(Next(c, s, l), v, r)
  {
    var d := ChangeOf(c, s, l);
    if l.Check? {
      CheckTally(c, s, l.v, l.now, l.later, v, r);
    } else if l.SendAlert? {
      AlertTally(c, s, l, v, r);
    } else {
      if HostLabel(l) { HostNoAlarm(s, l); HostMovesNoViewer(s, l); } else { ViewerNoAlarm(c, s, l); }
      QuietTally(s, d, v, r);
    }
  }

  // ---- The attempts of a run ----

  function AttemptOf(s: State, l: Label, r: nat): seq<L.Attempt> {
    if l.Check? && At(s, l.v) && s.viewers[l.v].pc == Found(r) then
      [L.Attempt(l.now, l.later, s.viewers[l.v].pin == s.regs[r].pin)]
    else []
  }

  // The attempts on registration r in a run, in the order of the PIN checks.
  function Attempts(c: Config, s: State, labels: seq<Label>, r: nat): seq<L.Attempt>
    decreases |labels|
  {
    if labels == [] || !Enabled(s, labels[0]) then []
    else AttemptOf(s, labels[0], r) + Attempts(c, Next(c, s, labels[0]), labels[1..], r)
  }

  // The lockouts of r on record.
  function TripCount(log: seq<Event>, r: nat): nat
    decreases |log|
  {
    if log == [] then 0
    else TripCount(log[..|log| - 1], r) + if log[|log| - 1].Tripped? && log[|log| - 1].r == r then 1 else 0
  }

  lemma TripCountKeeps(log: seq<Event>, events: seq<Event>, r: nat)
    requires |events| <= 2 && NoAlarm(events)
    ensures TripCount(log + events, r) == TripCount(log, r)
  {
    if |events| == 0 {
      assert log + events == log;
    } else if |events| == 1 {
      assert (log + events)[..|log|] == log;
    } else {
      assert (log + events)[..|log|] == log && (log + events)[..|log| + 1][..|log|] == log;
    }
  }

  // ---- The lockout follows the attempts ----

  // What a step means for the PIN check of r.
  predicate GateMove(c: Config, s: State, d: Change, r: nat, xs: seq<L.Attempt>)
    requires r in s.regs
  {
    && |xs| <= 1 && r in Apply(s, d).regs
    && s.clock <= d.clock
    && var reg := s.regs[r];
    && var reg' := Apply(s, d).regs[r];
    if xs == [] then
      reg'.gate == reg.gate && TripCount(s.log + d.events, r) == TripCount(s.log, r)
    else
      var reply := L.Try(c.max, c.lockout, reg.gate, xs[0]);
      && s.clock <= xs[0].now <= xs[0].later == d.clock
      && reg'.gate == reply.g
      && TripCount(s.log + d.events, r) == TripCount(s.log, r) + if reply.justLocked then 1 else 0
  }

  lemma HostGate(s: State, l: Label)
    requires Enabled(s, l) && HostLabel(l)
    ensures var d := HostChange(s, l);
      && d.clock == s.clock && |d.events| <= 2
      && (d.reg.Some? && d.reg.value.r in s.regs ==> d.reg.value.reg.gate == s.regs[d.reg.value.r].gate)
  {
    if l.LoopReads? { LoopGate(s, l.r, l.newId, l.newPin); }
  }

  lemma LoopGate(s: State, r: nat, newId: string, newPin: string)
    requires Enabled(s, LoopReads(r, newId, newPin))
    ensures var d := LoopStep(s, r, newId, newPin);
      && d.clock == s.clock && |d.events| <= 2
      && d.reg.Some? && d.reg.value.r == r && d.reg.value.reg.gate == s.regs[r].gate
  {
  }

  lemma ViewerGate(c: Config, s: State, l: Label)
    requires Enabled(s, l) && !HostLabel(l) && !l.Check?
    ensures var d := ViewerChange(c, s, l);
      && d.clock == s.clock && |d.events| <= 1
      && (d.reg.Some? ==> d.reg.value.r in s.regs && d.reg.value.reg.gate == s.regs[d.reg.value.r].gate)
      && (l.SendAlert? ==> d.events == [Alerted(l.v, s.viewers[l.v].pc.reg)])
  {
  }

  lemma CheckGate(c: Config, s: State, l: Label, r: nat)
    requires Enabled(s, l) && l.Check? && r in s.regs
    ensures GateMove(c, s, ChangeOf(c, s, l), r, AttemptOf(s, l, r))
  {
    var d := ChangeOf(c, s, l);
    if |d.events| == 1 {
      assert (s.log + d.events)[..|s.log|] == s.log;
    } else {
      assert s.log + d.events == s.log;
    }
  }

  lemma StepGate(c: Config, s: State, l: Label, r: nat)
    requires Enabled(s, l) && r in s.regs
    ensures GateMove(c, s, ChangeOf(c, s, l), r, AttemptOf(s, l, r))
  {
    var d := ChangeOf(c, s, l);
    if l.Check? {
      CheckGate(c, s, l, r);
    } else {
      if HostLabel(l) {
        HostGate(s, l);
        HostNoAlarm(s, l);
        TripCountKeeps(s.log, d.events, r);
      } else {
        ViewerGate(c, s, l);
        if l.SendAlert? {
          assert (s.log + d.events)[..|s.log|] == s.log;
        } else {
          ViewerNoAlarm(c, s, l);
          TripCountKeeps(s.log, d.events, r);
        }
      }
    }
  }

  lemma EarlierClock(t: nat, t': nat, xs: seq<L.Attempt>)
    requires t <= t' && L.Clocked(t', xs)
    ensures L.Clocked(t, xs)
  {
  }

  // Over any run, in any interleaving, the PIN check of r is in the state its attempts lead to,
  // the attempts are in the order of the clock, and each trip of the lockout is on record.
  lemma {:induction false} GateFollowsAttempts(c: Config, s: State, labels: seq<Label>, r: nat)
    requires r in s.regs && Run(c, s, labels).Some?
    ensures var s', xs := Run(c, s, labels).value, Attempts(c, s, labels, r);
      && r in s'.regs && s'.regs[r].gate == L.After(c.max, c.lockout, s.regs[r].gate, xs)
      && L.Clocked(s.clock, xs)
      && TripCount(s'.log, r) == TripCount(s.log, r) + L.Trips(c.max, c.lockout, s.regs[r].gate, xs)
    decreases |labels|
  {
    if labels != [] {
      var l := labels[0];
      var next := Next(c, s, l);
      StepGate(c, s, l, r);
      GateFollowsAttempts(c, next, labels[1..], r);
      var xs, rest := AttemptOf(s, l, r), Attempts(c, next, labels[1..], r);
      EarlierClock(s.clock, next.clock, rest);
      if xs == [] {
        assert xs + rest == rest;
      } else {
        assert (xs + rest)[0] == xs[0] && (xs + rest)[1..] == rest;
      }
    }
  }

  // The rate bound over any run of the relay: however viewers and hosts are interleaved, in a
  // stretch of the given length in which no attempt on r passes, the wrong PINs compared with its
  // own stay within one round for each lockout that fits, and one more.
  lemma RateBoundInEveryRun(c: Config, s: State, labels: seq<Label>, r: nat, length: nat)
    requires c.lockout > 0 && Counters(c, s) && r in s.regs && Run(c, s, labels).Some?
    requires var xs := Attempts(c, s, labels, r);
      L.AllBy(s.clock + length, xs) && L.NonePasses(c.max, c.lockout, s.regs[r].gate, xs)
    ensures L.Guesses(c.max, c.lockout, s.regs[r].gate, Attempts(c, s, labels, r)) <= L.Limit(c.max, c.lockout, length)
  {
    GateFollowsAttempts(c, s, labels, r);
    L.RateBound(c.max, c.lockout, s.regs[r].gate, Attempts(c, s, labels, r), s.clock, length);
  }
}
