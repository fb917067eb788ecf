// The relay's objects and the methods that change them: registration, PIN check, replies.
module Relay {
  import opened Bytes
  import opened Broker
  import L = Lockout

  // Durations count nanoseconds.
  const SECOND: nat := 1_000_000_000

  // A viewer's result channel of capacity one.
  class Waiter {
    var box: Option<bool>

    constructor ()
      ensures box == None
    {
      box := None;
    }

    // A send that gives up when the buffer is full.
    method Offer(ok: bool)
      modifies this
      ensures box == if old(box).Some? then old(box) else Some(ok)
    {
      if box.None? {
        box := Some(ok);
      }
    }
  }

  class HostReg {
    var id: string
    var pin: string
    var unattended: bool
    var sent: seq<Msg>
    var pending: map<string, Waiter>
    var failures: nat
    var lockUntil: nat

    constructor ()
      ensures pending == map[] && sent == [] && Gate() == L.Gate(0, 0) && !unattended
    {
      id, pin, unattended, sent, pending, failures, lockUntil := "", "", false, [], map[], 0, 0;
    }

    ghost function Gate(): L.Gate
      reads this
    {
      L.Gate(failures, lockUntil)
    }

    // No channel is pending under two sessions.
    ghost predicate OwnChannels()
      reads this
    {
      forall j, k :: j in pending && k in pending && j != k ==> pending[j] != pending[k]
    }

    method Send(m: Msg)
      modifies this`sent
      ensures sent == old(sent) + [m]
    {
      sent := sent + [m];
    }

    // now and later are the two readings of the clock.
    method Authenticate(max: nat, lockout: nat, given: string, now: nat, later: nat)
      returns (verdict: L.Verdict, justLocked: bool)
      modifies this`failures, this`lockUntil
      ensures L.Reply(Gate(), verdict, justLocked)
           == L.Try(max, lockout, old(Gate()), L.Attempt(now, later, given == pin))
    {
      if now < lockUntil {
        return L.Locked, false;
      }
      if given == pin {
        failures := 0;
        return L.Passed, false;
      }
      failures := failures + 1;
      if failures >= max {
        failures := 0;
        lockUntil := later + lockout;
        return L.Locked, true;
      }
      return L.BadPin, false;
    }

    // awaitConsent up to its blocking point, without and with the notice to the host.
    method Enqueue(session: string) returns (w: Waiter)
      requires OwnChannels()
      modifies this`pending
      ensures fresh(w) && w.box == None && pending == old(pending)[session := w] && OwnChannels()
    {
      w := new Waiter();
      pending := pending[session := w];
    }

    method Forget(session: string)
      requires OwnChannels()
      modifies this`pending
      ensures pending == old(pending) - {session} && OwnChannels()
    {
      pending := pending - {session};
    }

    // One viewer's wait with nothing else running: canSend says whether the notice reaches the host,
    // reply is what the control loop offers before the timeout, if anything. The entry is gone in
    // every case, even one another session had under the same id.
    method AwaitConsent(session: string, canSend: bool, reply: Option<bool>) returns (granted: bool)
      requires OwnChannels()
      modifies this`pending, this`sent
      ensures granted <==> unattended || (canSend && reply == Some(true))
      ensures pending == (if unattended then old(pending) else old(pending) - {session}) && OwnChannels()
      ensures sent == old(sent) + if !unattended && canSend then [Incoming(session)] else []
    {
      if unattended {
        return true;
      }
      var result := Enqueue(session);
      granted := false;
      if canSend {
        Send(Incoming(session));
        if reply.Some? {
          result.Offer(reply.value);
        }
        if result.box.Some? {
          granted := result.box.value;
        }
      }
      Forget(session);
    }

    // The reply goes into the channel pending under its session, if it has room; no other channel
    // is touched.
    method Resolve(session: string, ok: bool)
      requires OwnChannels()
      modifies pending.Values
      ensures forall k :: k in pending ==>
        pending[k].box == if k == session && old(pending[k].box).None? then Some(ok) else old(pending[k].box)
    {
      if session in pending {
        pending[session].Offer(ok);
      }
    }
  }

  // The first reply to session k among the messages of a host.
  function FirstReply(messages: seq<Msg>, k: string): Option<bool>
    decreases |messages|
  {
    if messages == [] then None
    else
      var before, m := FirstReply(messages[..|messages| - 1], k), messages[|messages| - 1];
      if before.Some? then before
      else if m == Accept(k) then Some(true)
      else if m == Reject(k) then Some(false)
      else None
  }

  // The first Register among the messages of a host.
  function FirstRegister(messages: seq<Msg>): Option<bool>
    decreases |messages|
  {
    if messages == [] then None
    else
      var before, m := FirstRegister(messages[..|messages| - 1]), messages[|messages| - 1];
      if before.Some? then before else if m.Register? then Some(m.unattended) else None
  }

  // The first candidate that is free.
  ghost predicate FirstFree(hosts: set<string>, candidates: seq<string>, i: string) {
    exists k :: 0 <= k < |candidates| && candidates[k] == i && i !in hosts
      && forall j :: 0 <= j < k ==> candidates[j] in hosts
  }

  class Server {
    const max: nat
    const lockout: nat
    const handshakeTimeout: nat
    const conns: nat
    var hosts: map<string, HostReg>

    // Options that are not positive fall back to the defaults.
    constructor (maxAttempts: int, lockoutDuration: int, timeout: int, maxConns: int)
      ensures hosts == map[] && max > 0 && lockout > 0 && handshakeTimeout > 0 && conns > 0
      ensures if maxAttempts <= 0 then max == 5 else max == maxAttempts
      ensures if lockoutDuration <= 0 then lockout == 30 * SECOND else lockout == lockoutDuration
      ensures if timeout <= 0 then handshakeTimeout == 15 * SECOND else handshakeTimeout == timeout
      ensures if maxConns <= 0 then conns == 512 else conns == maxConns
    {
      max := if maxAttempts <= 0 then 5 else maxAttempts;
      lockout := if lockoutDuration <= 0 then 30 * SECOND else lockoutDuration;
      handshakeTimeout := if timeout <= 0 then 15 * SECOND else timeout;
      conns := if maxConns <= 0 then 512 else maxConns;
      hosts := map[];
    }

    // Every entry is stored under its own id.
    ghost predicate OwnNames()
      reads this, hosts.Values
    {
      forall i :: i in hosts ==> hosts[i].id == i
    }

    // candidates are the ids drawn, in order; the source draws until one is free.
    method Register(reg: HostReg, candidates: seq<string>, pin: string)
      requires exists k :: 0 <= k < |candidates| && candidates[k] !in hosts
      modifies this`hosts, reg`id, reg`pin
      ensures FirstFree(old(hosts.Keys), candidates, reg.id)
      ensures reg.pin == pin && hosts == old(hosts)[reg.id := reg]
      ensures old(OwnNames()) && reg !in old(hosts.Values) ==> OwnNames()
    {
      var k := 0;
      while candidates[k] in hosts
        invariant 0 <= k < |candidates|
        invariant exists j :: k <= j < |candidates| && candidates[j] !in hosts
        invariant forall j :: 0 <= j < k ==> candidates[j] in hosts
        decreases |candidates| - k
      {
        k := k + 1;
      }
      reg.id := candidates[k];
      reg.pin := pin;
      hosts := hosts[reg.id := reg];
    }

    method Unregister(id: string)
      modifies this`hosts
      ensures hosts == old(hosts) - {id}
      ensures old(OwnNames()) ==> OwnNames()
    {
      hosts := hosts - {id};
    }

    method Lookup(id: string) returns (reg: HostReg?)
      ensures (reg == null <==> id !in hosts) && (reg != null ==> reg == hosts[id])
      ensures OwnNames() && reg != null ==> reg.id == id
    {
      if id in hosts {
        return hosts[id];
      }
      return null;
    }

    // The answer to a host's first Register.
    method Greet(reg: HostReg, unattended: bool, candidates: seq<string>, pin: string)
      requires exists k :: 0 <= k < |candidates| && candidates[k] !in hosts
      modifies this`hosts, reg`id, reg`pin, reg`unattended, reg`sent
      ensures FirstFree(old(hosts.Keys), candidates, reg.id) && hosts == old(hosts)[reg.id := reg]
      ensures reg.pin == pin && reg.unattended == unattended && reg.sent == old(reg.sent) + [Registered(reg.id, pin)]
    {
      reg.unattended := unattended;
      Register(reg, candidates, pin);
      reg.Send(Registered(reg.id, reg.pin));
    }

    // The control loop of one host from its first message to its last, with nothing else running:
    // it registers once, passes each session its first reply, and leaves the map as it found it.
    method ServeControl(reg: HostReg, messages: seq<Msg>, candidates: seq<string>, pin: string)
      requires reg.OwnChannels()
      requires exists k :: 0 <= k < |candidates| && candidates[k] !in hosts
      modifies this`hosts, reg`id, reg`pin, reg`unattended, reg`sent, reg.pending.Values
      ensures hosts == old(hosts)
      ensures forall k :: k in reg.pending ==>
        reg.pending[k].box == if old(reg.pending[k].box).Some? then old(reg.pending[k].box) else FirstReply(messages, k)
      ensures match FirstRegister(messages)
              case None => reg.sent == old(reg.sent) && reg.unattended == old(reg.unattended)
              case Some(u) =>
                && FirstFree(old(hosts.Keys), candidates, reg.id) && reg.unattended == u
                && reg.sent == old(reg.sent) + [Registered(reg.id, pin)]
    {
      var registered := false;
      var i := 0;
      while i < |messages|
        invariant 0 <= i <= |messages|
        invariant registered == FirstRegister(messages[..i]).Some?
        invariant registered ==>
          && FirstFree(old(hosts.Keys), candidates, reg.id)
          && hosts == old(hosts)[reg.id := reg]
          && reg.unattended == FirstRegister(messages[..i]).value
          && reg.sent == old(reg.sent) + [Registered(reg.id, pin)]
        invariant !registered ==>
          hosts == old(hosts) && reg.unattended == old(reg.unattended) && reg.sent == old(reg.sent)
        invariant forall k :: k in reg.pending ==>
          reg.pending[k].box
          == if old(reg.pending[k].box).Some? then old(reg.pending[k].box) else FirstReply(messages[..i], k)
      {
        assert messages[..i + 1][..i] == messages[..i];
        match messages[i] {
          case Register(u) =>
            if !registered {
              Greet(reg, u, candidates, pin);
              registered := true;
            }
          case Accept(session) =>
            reg.Resolve(session, true);
          case Reject(session) =>
            reg.Resolve(session, false);
          case _ =>
        }
        i := i + 1;
      }
      assert messages[..i] == messages;
      if registered {
        Unregister(reg.id);
      }
    }
  }
}
