// The relay's accept loop: the cap on connections and the backoff after failed accepts.
module Listener {
  import opened Bits

  // What happens to the listener: a connection arrives, Accept fails for a while, the handler of
  // the n-th connection returns, or the listener is closed.
  datatype Event = Arrived | Failed | Finished(n: nat) | Closed

  // The connections by what became of them, the failures since the last success, and the delays
  // slept so far in milliseconds.
  datatype Door = Door(accepted: nat, running: set<nat>, released: set<nat>, dropped: set<nat>, streak: nat,
                       slept: seq<nat>)

  // The k-th delay of a streak of failures: 5, 10, 20, ... up to one second.
  function Backoff(k: nat): nat
    requires k > 0
  {
    if 5 * Pow2(k - 1) <= 1000 then 5 * Pow2(k - 1) else 1000
  }

  function Step(conns: nat, d: Door, e: Event): Door {
    match e
    case Arrived =>
      var counted := d.(accepted := d.accepted + 1, streak := 0);
      if |d.running| < conns then counted.(running := d.running + {d.accepted})
      else counted.(dropped := d.dropped + {d.accepted})
    case Failed => d.(streak := d.streak + 1, slept := d.slept + [Backoff(d.streak + 1)])
    case Finished(n) =>
      if n in d.running then d.(running := d.running - {n}, released := d.released + {n}) else d
    case Closed => d
  }

  const IDLE: Door := Door(0, {}, {}, {}, 0, [])

  function After(conns: nat, events: seq<Event>): Door
    decreases |events|
  {
    if events == [] then IDLE else Step(conns, After(conns, events[..|events| - 1]), events[|events| - 1])
  }

  lemma {:induction false} FirstN(s: set<nat>, n: nat)
    requires forall i :: i in s <==> 0 <= i < n
    ensures |s| == n
    decreases n
  {
    if n == 0 {
      assert s == {};
    } else {
      FirstN(s - {n - 1}, n - 1);
    }
  }

  // Each connection that arrived is running, released or dropped, and only one of these.
  ghost predicate Partitioned(d: Door) {
    && d.running !! d.released && d.running !! d.dropped && d.released !! d.dropped
    && forall n :: n in d.running || n in d.released || n in d.dropped <==> 0 <= n < d.accepted
  }

  lemma StepPartitioned(conns: nat, d: Door, e: Event)
    requires Partitioned(d) && |d.running| <= conns
    ensures Partitioned(Step(conns, d, e)) && |Step(conns, d, e).running| <= conns
  {
  }

  lemma PartitionedCount(d: Door)
    requires Partitioned(d)
    ensures d.accepted == |d.running| + |d.released| + |d.dropped|
  {
    FirstN(d.running + d.released + d.dropped, d.accepted);
  }

  // In every run the connections that arrived are those holding a slot, released and dropped, and
  // never more than conns hold a slot.
  lemma {:induction false} SlotsConserved(conns: nat, events: seq<Event>)
    ensures var d := After(conns, events);
      && Partitioned(d) && |d.running| <= conns
      && d.accepted == |d.running| + |d.released| + |d.dropped|
    decreases |events|
  {
    if events != [] {
      SlotsConserved(conns, events[..|events| - 1]);
      StepPartitioned(conns, After(conns, events[..|events| - 1]), events[|events| - 1]);
    }
    PartitionedCount(After(conns, events));
  }

  lemma NextIsNew(conns: nat, events: seq<Event>)
    ensures After(conns, events).accepted !in After(conns, events).running
  {
    SlotsConserved(conns, events);
  }

  lemma {:induction false} FatesLast(conns: nat, events: seq<Event>, j: nat)
    requires j <= |events|
    ensures var (past, d) := (After(conns, events[..j]), After(conns, events));
      && past.accepted <= d.accepted && past.dropped <= d.dropped
      && forall n :: n in d.dropped && n < past.accepted ==> n in past.dropped
    decreases |events|
  {
    if j == |events| {
      assert events[..j] == events;
    } else {
      assert events[..|events| - 1][..j] == events[..j];
      FatesLast(conns, events[..|events| - 1], j);
    }
  }

  // A connection is dropped exactly when it arrives while every slot is held.
  lemma DroppedWhenFull(conns: nat, events: seq<Event>, j: nat)
    requires j < |events| && events[j] == Arrived
    ensures var past := After(conns, events[..j]);
      past.accepted in After(conns, events).dropped <==> |past.running| == conns
  {
    var past := After(conns, events[..j]);
    assert events[..j + 1][..j] == events[..j];
    SlotsConserved(conns, events[..j]);
    FatesLast(conns, events, j + 1);
  }

  // ---- Slots are given back ----

  function Arrivals(events: seq<Event>): nat
    decreases |events|
  {
    if events == [] then 0
    else Arrivals(events[..|events| - 1]) + if events[|events| - 1] == Arrived then 1 else 0
  }

  lemma {:induction false} AcceptedAll(conns: nat, events: seq<Event>)
    ensures After(conns, events).accepted == Arrivals(events)
    decreases |events|
  {
    if events != [] { AcceptedAll(conns, events[..|events| - 1]); }
  }

  // The connection that arrives as event j holds a slot as long as its handler has not returned, if
  // there was a free one for it, and no longer.
  lemma {:induction false} HeldUntilFinished(conns: nat, events: seq<Event>, j: nat)
    requires j < |events| && events[j] == Arrived
    ensures var n := Arrivals(events[..j]);
      n in After(conns, events).running
      <==> |After(conns, events[..j]).running| < conns && Finished(n) !in events[j + 1..]
    decreases |events|
  {
    var n, past, last := Arrivals(events[..j]), events[..|events| - 1], events[|events| - 1];
    AcceptedAll(conns, events[..j]);
    AcceptedAll(conns, past);
    NextIsNew(conns, past);
    HoldStep(conns, After(conns, past), last, n);
    hide Step, Arrivals;
    var d, d' := After(conns, past), After(conns, events);
    assert d' == Step(conns, d, last);
    hide After;
    if j < |past| {
      assert past[..j] == events[..j];
      HeldUntilFinished(conns, past, j);
      FewerBefore(past, j);
      assert Finished(n) in events[j + 1..] <==> Finished(n) in past[j + 1..] || last == Finished(n) by {
        assert events[j + 1..] == past[j + 1..] + [last];
      }
    } else {
      assert past == events[..j] && events[j + 1..] == [];
    }
  }

  lemma HoldStep(conns: nat, d: Door, e: Event, n: nat)
    requires d.accepted !in d.running
    ensures n < d.accepted ==> (n in Step(conns, d, e).running <==> n in d.running && e != Finished(n))
    ensures n == d.accepted && e == Arrived ==> (n in Step(conns, d, e).running <==> |d.running| < conns)
  {
  }

  lemma {:induction false} FewerBefore(events: seq<Event>, j: nat)
    requires j < |events| && events[j] == Arrived
    ensures Arrivals(events[..j]) < Arrivals(events)
    decreases |events|
  {
    var past := events[..|events| - 1];
    if j < |past| {
      assert past[..j] == events[..j];
      FewerBefore(past, j);
    } else {
      assert past == events[..j];
    }
  }

  // ---- The delays ----

  // The failures since the last success.
  function FailuresSince(events: seq<Event>): nat
    decreases |events|
  {
    if events == [] || events[|events| - 1] == Arrived then 0
    else FailuresSince(events[..|events| - 1]) + if events[|events| - 1] == Failed then 1 else 0
  }

  // One delay for each failure, doubled for each one since the last success.
  function Delays(events: seq<Event>): seq<nat>
    decreases |events|
  {
    if events == [] then []
    else
      var past := events[..|events| - 1];
      Delays(past) + if events[|events| - 1] == Failed then [Capped(FailuresSince(past))] else []
  }

  // min(5 * 2^k, 1000)
  function Capped(k: nat): nat {
    if 5 * Pow2(k) <= 1000 then 5 * Pow2(k) else 1000
  }

  lemma {:induction false} SleptAll(conns: nat, events: seq<Event>)
    ensures After(conns, events).slept == Delays(events) && After(conns, events).streak == FailuresSince(events)
    decreases |events|
  {
    if events != [] { SleptAll(conns, events[..|events| - 1]); }
  }

  function Failures(events: seq<Event>): nat
    decreases |events|
  {
    if events == [] then 0
    else Failures(events[..|events| - 1]) + if events[|events| - 1] == Failed then 1 else 0
  }

  lemma {:induction false} StreakCounts(before: seq<Event>, later: seq<Event>)
    requires (before == [] || before[|before| - 1] == Arrived) && Arrived !in later
    ensures FailuresSince(before + later) == Failures(later)
    decreases |later|
  {
    if later == [] {
      assert before + later == before;
    } else {
      var past := later[..|later| - 1];
      assert (before + later)[..|before + later| - 1] == before + past;
      StreakCounts(before, past);
    }
  }

  // From a success, or from the start, on: after k failures with no success among them the next one
  // is followed by a delay of min(5 * 2^k, 1000) milliseconds.
  lemma StreakDelay(conns: nat, before: seq<Event>, later: seq<Event>, k: nat)
    requires (before == [] || before[|before| - 1] == Arrived) && Arrived !in later && Failures(later) == k
    ensures After(conns, before + later + [Failed]).slept
         == After(conns, before + later).slept + [if 5 * Pow2(k) <= 1000 then 5 * Pow2(k) else 1000]
  {
    var past := before + later;
    SleptAll(conns, past);
    StreakCounts(before, later);
    assert (past + [Failed])[..|past|] == past;
  }

  // Doubling and capping gives the closed form.
  lemma NextBackoff(k: nat, delay: nat)
    requires delay == if k == 0 then 0 else Backoff(k)
    ensures (if delay == 0 then 5 else if delay * 2 > 1000 then 1000 else delay * 2) == Backoff(k + 1)
  {
    if k > 0 { assert Pow2(k) == 2 * Pow2(k - 1); }
  }

  // The delay after one more failure; k counts those before it.
  method Longer(ghost k: nat, delay: nat) returns (next: nat)
    requires delay == if k == 0 then 0 else Backoff(k)
    ensures next == Backoff(k + 1)
  {
    NextBackoff(k, delay);
    if delay == 0 {
      next := 5;
    } else {
      next := delay * 2;
    }
    if next > 1000 {
      next := 1000;
    }
  }

  class Acceptor {
    const conns: nat
    var sem: nat
    var running: set<nat>
    ghost var released: set<nat>
    ghost var dropped: set<nat>
    var slept: seq<nat>

    constructor (conns: nat)
      ensures this.conns == conns && sem == 0 && running == released == dropped == {} && slept == []
    {
      this.conns := conns;
      sem, running, released, dropped, slept := 0, {}, {}, {}, [];
    }

    // Taking a slot without waiting for one; n is the connection.
    method Take(n: nat)
      requires sem == |running| && n !in running
      modifies this`sem, this`running, this`dropped
      ensures sem == |running|
      ensures if old(sem) < conns then running == old(running) + {n} && dropped == old(dropped)
              else running == old(running) && dropped == old(dropped) + {n}
    {
      if sem < conns {
        sem := sem + 1;
        running := running + {n};
      } else {
        dropped := dropped + {n};
      }
    }

    // The deferred release of connection n, if its handler was running.
    method Release(n: nat)
      requires sem == |running|
      modifies this`sem, this`running, this`released
      ensures sem == |running| && running == old(running) - {n}
      ensures released == old(released) + if n in old(running) then {n} else {}
    {
      if n in running {
        sem := sem - 1;
        running := running - {n};
        released := released + {n};
      }
    }

    // One round of the loop; accepted counts the connections so far.
    method React(e: Event, ghost d: Door, accepted: nat, delay: nat) returns (accepted': nat, delay': nat)
      requires e != Closed && accepted !in running && sem == |running|
      requires d == Door(accepted, running, released, dropped, d.streak, slept)
      requires delay == if d.streak == 0 then 0 else Backoff(d.streak)
      modifies this
      ensures sem == |running|
      ensures var d' := Step(conns, d, e);
        && d' == Door(accepted', running, released, dropped, d'.streak, slept)
        && delay' == if d'.streak == 0 then 0 else Backoff(d'.streak)
    {
      hide Backoff;
      accepted', delay' := accepted, delay;
      match e {
        case Failed =>
          delay' := Longer(d.streak, delay);
          slept := slept + [delay'];
        case Arrived =>
          delay' := 0;
          Take(accepted);
          accepted' := accepted + 1;
        case Finished(n) =>
          Release(n);
      }
    }

    // The loop until the listener is closed. The semaphore holds one slot for each connection
    // whose handler has not returned.
    method Serve(events: seq<Event>) returns (handled: nat)
      requires sem == 0 && running == released == dropped == {} && slept == []
      modifies this
      ensures handled <= |events| && Closed !in events[..handled]
      ensures handled < |events| ==> events[handled] == Closed
      ensures var d := After(conns, events[..handled]);
        running == d.running && released == d.released && dropped == d.dropped
      ensures slept == Delays(events[..handled])
      ensures sem == |running|
    {
      var delay, accepted := 0, 0;
      handled := 0;
      while handled < |events|
        invariant handled <= |events| && Closed !in events[..handled] && sem == |running|
        invariant var d := After(conns, events[..handled]);
          && d == Door(accepted, running, released, dropped, d.streak, slept)
          && delay == if d.streak == 0 then 0 else Backoff(d.streak)
      {
        SleptAll(conns, events[..handled]);
        if events[handled] == Closed {
          return;
        }
        NextIsNew(conns, events[..handled]);
        assert events[..handled + 1][..handled] == events[..handled];
        accepted, delay := React(events[handled], After(conns, events[..handled]), accepted, delay);
        handled := handled + 1;
      }
      SleptAll(conns, events[..handled]);
    }
  }
}
