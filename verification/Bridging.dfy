// What holds after every run of the relay.
module Bridging {
  import opened Bytes
  import opened Broker
  import opened Registry
  import opened Consent
  import opened Replies
  import opened Causality
  import opened Control
  import opened Alerts

  // ---- Runs in which session ids may repeat ----

  ghost predicate Steady(c: Config, s: State) {
    Agrees(s) && Placed(s) && Counters(c, s) && forall v, r :: Tallied(s, v, r)
  }

  lemma InitSteady(c: Config)
    ensures Steady(c, INIT)
  {
  }

  lemma StepSteady(c: Config, s: State, l: Label)
    requires Enabled(s, l) && c.max > 0 && Steady(c, s)
    ensures Steady(c, Next(c, s, l))
  {
    StepAgrees(c, s, l);
    StepPlaced(c, s, l);
    StepCounts(c, s, l);
    forall v, r ensures Tallied(Next(c, s, l), v, r) { StepTallied(c, s, l, v, r); }
  }

  lemma {:induction false} RunSteady(c: Config, s: State, labels: seq<Label>)
    requires c.max > 0 && Steady(c, s) && Run(c, s, labels).Some?
    ensures Steady(c, Run(c, s, labels).value)
    decreases |labels|
  {
    if labels != [] {
      StepSteady(c, s, labels[0]);
      RunSteady(c, Next(c, s, labels[0]), labels[1..]);
    }
  }

  lemma {:induction false} RunAgrees(c: Config, s: State, labels: seq<Label>)
    requires Agrees(s) && Run(c, s, labels).Some?
    ensures Agrees(Run(c, s, labels).value)
    decreases |labels|
  {
    if labels != [] {
      StepAgrees(c, s, labels[0]);
      RunAgrees(c, Next(c, s, labels[0]), labels[1..]);
    }
  }

  // The host map holds exactly the control loops that have registered and not ended, each under
  // its own id, so that no two share one.
  lemma RegistryAgreement(c: Config, labels: seq<Label>)
    requires Run(c, INIT, labels).Some?
    ensures var s := Run(c, INIT, labels).value;
      forall i, r :: i in s.hosts && s.hosts[i] == r <==> r in s.regs && s.regs[r].Online() && s.regs[r].id == i
  {
    RunAgrees(c, INIT, labels);
  }

  // Whatever runs next, a registered host keeps its id, its PIN and its mode.
  lemma {:induction false} IdentityForGood(c: Config, s: State, labels: seq<Label>, r: nat)
    requires r in s.regs && Run(c, s, labels).Some?
    ensures r in Run(c, s, labels).value.regs && SameIdentity(s.regs[r], Run(c, s, labels).value.regs[r])
    decreases |labels|
  {
    if labels != [] {
      StepKeepsIdentity(c, s, labels[0], r);
      IdentityForGood(c, Next(c, s, labels[0]), labels[1..], r);
    }
  }

  // The counter of failures is below the limit, and each trip of a lockout has had one alert
  // attempted, apart from those about to be sent.
  lemma AlertsMatchTrips(c: Config, labels: seq<Label>, v: nat, r: nat)
    requires c.max > 0 && Run(c, INIT, labels).Some?
    ensures var s := Run(c, INIT, labels).value;
      && (r in s.regs ==> s.regs[r].gate.failures < c.max)
      && multiset(s.log)[Tripped(v, r)] == multiset(s.log)[Alerted(v, r)] + Owed(s, v, r)
  {
    InitSteady(c);
    RunSteady(c, INIT, labels);
    assert Tallied(Run(c, INIT, labels).value, v, r);
  }

  // ---- Runs with fresh session ids ----

  ghost predicate Sound(s: State) {
    Agrees(s) && Placed(s) && Distinct(s) && PendingExact(s) && Answers(s) && Exchanges(s) && Justified(s)
  }

  lemma InitSound()
    ensures Sound(INIT)
  {
  }

  lemma StepSound(c: Config, s: State, l: Label)
    requires Enabled(s, l) && FreshLabel(s, l) && Sound(s)
    ensures Sound(Next(c, s, l))
  {
    StepAgrees(c, s, l);
    StepPlaced(c, s, l);
    StepSessions(c, s, l);
    StepAnswers(c, s, l);
    StepExchanges(c, s, l);
    StepJustified(c, s, l);
  }

  lemma {:induction false} RunSound(c: Config, s: State, labels: seq<Label>)
    requires FreshRun(c, s, labels) && Sound(s)
    ensures Run(c, s, labels).Some? && Sound(Run(c, s, labels).value)
    decreases |labels|
  {
    if labels != [] {
      StepSound(c, s, labels[0]);
      RunSound(c, Next(c, s, labels[0]), labels[1..]);
    }
  }

  // First reply wins: what awaitConsent returns as consent, or receives, is the first reply that
  // found the session's entry.
  lemma FirstReplyWins(c: Config, labels: seq<Label>, v: nat, r: nat, k: string)
    requires FreshRun(c, INIT, labels)
    ensures Run(c, INIT, labels).Some?
    ensures var s := Run(c, INIT, labels).value;
      HoldsSession(s, v, r, k) ==>
        && r in s.regs
        && var w := s.viewers[v];
        && (w.pc.Leaving? && w.pc.result ==> FirstHit(s.log, r, k) == Some(true))
        && (w.pc.Consented? || w.pc.Joined? || w.pc.Bridged? ==>
          s.regs[r].unattended || FirstHit(s.log, r, k) == Some(true))
        && (w.pc.Asked? && w.box.Some? ==> FirstHit(s.log, r, k) == w.box)
  {
    InitSound();
    RunSound(c, INIT, labels);
    var s := Run(c, INIT, labels).value;
    if HoldsSession(s, v, r, k) { assert DecidedAt(s, v, s.viewers[v]); }
  }

  // A reply on its way changes no viewer but the one whose session it answers, and what a viewer
  // still waiting gets from it is the first reply to its own session on that registration.
  lemma RepliesReachTheirOwn(c: Config, labels: seq<Label>, l: Label, v: nat)
    requires FreshRun(c, INIT, labels) && (l.Deliver? || l.LoopReads?)
    ensures Run(c, INIT, labels).Some?
    ensures var s := Run(c, INIT, labels).value;
      Enabled(s, l) && v in s.viewers ==>
        && v in Next(c, s, l).viewers
        && var w, w' := s.viewers[v], Next(c, s, l).viewers[v];
        && w' == w.(box := w'.box)
        && (w' != w ==> l.Deliver? && s.regs[l.r].loop == Resolving(Some(v), w'.box.value))
        && (w' != w && (w.pc.Queued? || w.pc.Asked?) ==>
          w.pc.reg == l.r && FirstHit(s.log, l.r, w.pc.session) == w'.box)
  {
    InitSound();
    RunSound(c, INIT, labels);
    var s := Run(c, INIT, labels).value;
    if Enabled(s, l) && v in s.viewers {
      HostMovesNoViewer(s, l);
      if l.LoopReads? { LoopMoves(s, l.r, l.newId, l.newPin); }
      else { assert Held(s, l.r, s.regs[l.r].loop); }
    }
  }

  // With fresh ids the reply behind a data channel opened on an attended host is the first one that
  // found its session's entry.
  lemma OpenedAfterFirstReply(c: Config, labels: seq<Label>, i: nat)
    requires FreshRun(c, INIT, labels)
    ensures Run(c, INIT, labels).Some?
    ensures var s := Run(c, INIT, labels).value;
      i < |s.log| && s.log[i].Opened? ==>
        var e := s.log[i];
        && e.v in s.viewers && e.r in s.regs
        && s.viewers[e.v].id == s.regs[e.r].id && s.viewers[e.v].pin == s.regs[e.r].pin
        && (exists j :: 0 <= j < i && s.log[j] == Admit(e.v, e.r))
        && (ModeOf(labels, e.r) == Some(true) || FirstHit(s.log[..i], e.r, e.session) == Some(true))
  {
    InitSound();
    RunSound(c, INIT, labels);
    var s := Run(c, INIT, labels).value;
    if i < |s.log| && s.log[i].Opened? {
      RegisteredMode(c, labels, s.log[i].r);
      assert JustifiedAt(s, s.log[..i], s.log[i]);
      var j :| 0 <= j < |s.log[..i]| && s.log[..i][j] == Admit(s.log[i].v, s.log[i].r);
      assert s.log[j] == Admit(s.log[i].v, s.log[i].r);
    }
  }

  lemma {:induction false} HitOnRecord(log: seq<Event>, r: nat, k: string, ok: bool) returns (j: nat)
    requires FirstHit(log, r, k) == Some(ok)
    ensures j < |log| && log[j].Hit? && log[j] == Hit(log[j].v, r, k, ok)
    decreases |log|
  {
    if FirstHit(log[..|log| - 1], r, k).Some? {
      j := HitOnRecord(log[..|log| - 1], r, k, ok);
    } else {
      j := |log| - 1;
    }
  }

  // An attended host whose agent runs Connect and Serve.
  predicate Conforming(s: State, r: nat) {
    r in s.regs && !s.regs[r].unattended && !s.regs[r].agent.Free?
  }

  lemma HeardAfterSent(s: State, i: nat)
    requires Sound(s) && i < |s.log| && s.log[i].Opened? && Conforming(s, s.log[i].r)
    ensures var r, k := s.log[i].r, s.log[i].session;
      exists j, m :: 0 <= j < m < i && s.log[j] == Sent(r, k) && s.log[m] == Heard(r, k, true)
  {
    var r, k := s.log[i].r, s.log[i].session;
    assert JustifiedAt(s, s.log[..i], s.log[i]);
    var h := HitOnRecord(s.log[..i], r, k, true);
    assert JustifiedAt(s, s.log[..h], s.log[h]);
    var m := h - 1;
    assert JustifiedAt(s, s.log[..m], s.log[m]);
    var j :| 0 <= j < m && s.log[..m][j] == Sent(r, k);
    assert s.log[j] == Sent(r, k) && s.log[m] == Heard(r, k, true);
  }

  lemma OneReply(s: State, r: nat, k: string)
    requires Sound(s) && Conforming(s, r) && Heard(r, k, true) in s.log
    ensures Heard(r, k, false) !in s.log
  {
    assert Answered(s, r, k) && NotifiedOnce(s, r, k);
  }

  // With an agent started as attended, Incoming was sent and then Accept heard for that session
  // before its data channel was opened, and no Reject is heard for it, before or after.
  lemma ConsentBeforeBridge(c: Config, labels: seq<Label>, i: nat)
    requires FreshRun(c, INIT, labels)
    ensures Run(c, INIT, labels).Some?
    ensures var s := Run(c, INIT, labels).value;
      i < |s.log| && s.log[i].Opened? && OpenControl(s.log[i].r, true, false) in labels ==>
        var r, k := s.log[i].r, s.log[i].session;
        && Heard(r, k, false) !in s.log
        && exists j, m :: 0 <= j < m < i && s.log[j] == Sent(r, k) && s.log[m] == Heard(r, k, true)
  {
    InitSound();
    RunSound(c, INIT, labels);
    var s := Run(c, INIT, labels).value;
    if i < |s.log| && s.log[i].Opened? && OpenControl(s.log[i].r, true, false) in labels {
      assert JustifiedAt(s, s.log[..i], s.log[i]);
      AgentMode(c, INIT, labels, s.log[i].r, false);
      RegisteredMode(c, labels, s.log[i].r);
      HeardAfterSent(s, i);
      OneReply(s, s.log[i].r, s.log[i].session);
    }
  }

  // Conservation of the exchange: while an agent serves, each Incoming sent to it is under way, has
  // its reply under way or has had its reply heard, and there is at most one for each session.
  lemma ExchangeConserved(c: Config, labels: seq<Label>, r: nat, k: string)
    requires FreshRun(c, INIT, labels)
    ensures Run(c, INIT, labels).Some?
    ensures var s := Run(c, INIT, labels).value;
      r in s.regs && s.regs[r].agent == Serving ==>
        multiset(s.log)[Sent(r, k)]
        == multiset(s.regs[r].down)[Incoming(k)] + multiset(s.regs[r].up)[Accept(k)] + multiset(s.regs[r].up)[Reject(k)]
           + multiset(s.log)[Heard(r, k, true)] + multiset(s.log)[Heard(r, k, false)]
        <= 1
  {
    InitSound();
    RunSound(c, INIT, labels);
    assert Answered(Run(c, INIT, labels).value, r, k) && NotifiedOnce(Run(c, INIT, labels).value, r, k);
  }
}
