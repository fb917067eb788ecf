// The pending maps over whole runs, and what a repeated session id does to them.
module Pending {
  import opened Broker
  import opened Registry
  import opened Consent
  import Bridging
  import L = Lockout
  import Scenes

  // The pending maps are exact in every state of the run.
  ghost predicate AlwaysExact(c: Config, s: State, labels: seq<Label>)
    decreases |labels|
  {
    && PendingExact(s)
    && (labels != [] ==> Enabled(s, labels[0]) && AlwaysExact(c, Next(c, s, labels[0]), labels[1..]))
  }

  lemma {:induction false} ExactFrom(c: Config, s: State, labels: seq<Label>)
    requires Agrees(s) && Placed(s) && PendingExact(s) && Run(c, s, labels).Some?
    ensures AlwaysExact(c, s, labels) <==> FreeRun(c, s, labels)
    decreases |labels|
  {
    if labels != [] {
      var next := Next(c, s, labels[0]);
      StepPending(c, s, labels[0]);
      if FreeLabel(s, labels[0]) {
        StepAgrees(c, s, labels[0]);
        StepPlaced(c, s, labels[0]);
        ExactFrom(c, next, labels[1..]);
      } else {
        assert !AlwaysExact(c, next, labels[1..]);
      }
    }
  }

  // The pending maps hold exactly the sessions whose viewers are inside awaitConsent, in every state
  // of a run, if and only if no id is drawn for an attended host while it is pending there.
  lemma PendingAlwaysExact(c: Config, labels: seq<Label>)
    requires Run(c, INIT, labels).Some?
    ensures AlwaysExact(c, INIT, labels) <==> FreeRun(c, INIT, labels)
  {
    ExactFrom(c, INIT, labels);
  }

  lemma {:induction false} ExactAtEnd(c: Config, s: State, labels: seq<Label>)
    requires AlwaysExact(c, s, labels)
    ensures Run(c, s, labels).Some? && PendingExact(Run(c, s, labels).value)
    decreases |labels|
  {
    if labels != [] { ExactAtEnd(c, Next(c, s, labels[0]), labels[1..]); }
  }

  lemma {:induction false} FreeRuns(c: Config, s: State, labels: seq<Label>)
    requires FreeRun(c, s, labels)
    ensures Run(c, s, labels).Some?
    decreases |labels|
  {
    if labels != [] { FreeRuns(c, Next(c, s, labels[0]), labels[1..]); }
  }

  // An entry is pending at a host if and only if its viewer waits there with that session.
  lemma PendingInEveryRun(c: Config, labels: seq<Label>, v: nat, r: nat, k: string)
    requires FreeRun(c, INIT, labels)
    ensures Run(c, INIT, labels).Some?
    ensures var s := Run(c, INIT, labels).value;
      r in s.regs && k in s.regs[r].pending && s.regs[r].pending[k] == v <==> Waits(s, v, r, k)
  {
    FreeRuns(c, INIT, labels);
    PendingAlwaysExact(c, labels);
    ExactAtEnd(c, INIT, labels);
  }

  // Fresh ids are more than enough.
  lemma {:induction false} FreshRunIsFree(c: Config, s: State, labels: seq<Label>)
    requires FreshRun(c, s, labels) && Bridging.Sound(s)
    ensures FreeRun(c, s, labels)
    decreases |labels|
  {
    if labels != [] {
      FreshIsFree(s, labels[0]);
      Bridging.StepSound(c, s, labels[0]);
      FreshRunIsFree(c, Next(c, s, labels[0]), labels[1..]);
    }
  }

  lemma TakenOver(c: Config, s: State)
    requires s.clock == 0 && s.viewers == map[] && 0 in s.regs && s.hosts == map["1" := 0]
    requires s.regs[0].pin == "2" && !s.regs[0].unattended && s.regs[0].gate == L.Gate(0, 0)
    ensures var run := Scenes.Ask(0, "1", "2", "k", 0) + Scenes.Ask(1, "1", "2", "k", 0);
      Run(c, s, run).Some? && !PendingExact(Run(c, s, run).value)
  {
    var s1 := Scenes.Asking(c, s, 0, 0, "1", "2", "k");
    var s2 := Scenes.Asking(c, s1, 1, 0, "1", "2", "k");
    Scenes.RunThen(c, s, Scenes.Ask(0, "1", "2", "k", 0), Scenes.Ask(1, "1", "2", "k", 0));
    assert Waits(s2, 0, 0, "k") && s2.regs[0].pending["k"] == 1;
  }

  // Two viewers of one attended host that draw the same id: the second takes over the entry while
  // the first still waits.
  lemma CollisionReached(c: Config)
    ensures exists labels :: Run(c, INIT, labels).Some? && !PendingExact(Run(c, INIT, labels).value)
  {
    var s := Scenes.Opened(c, 0, "1", "2");
    TakenOver(c, s);
    var run := Scenes.Ask(0, "1", "2", "k", 0) + Scenes.Ask(1, "1", "2", "k", 0);
    Scenes.RunThen(c, INIT, Scenes.Open(0, "1", "2"), run);
    assert Run(c, INIT, Scenes.Open(0, "1", "2") + run).Some?;
  }
}
