// The host's half of the relay protocol.
module HostAgent {
  import opened Bytes
  import opened Broker

  // Whether viewers are put to a callback, and its answers in the order it is asked.
  datatype Policy = Policy(asks: bool, answers: seq<bool>)
  {
    predicate Grants(k: nat) {
      asks ==> k < |answers| && answers[k]
    }
  }

  // The sessions announced by Incoming messages.
  function Sessions(messages: seq<Msg>): seq<string>
    decreases |messages|
  {
    if messages == [] then []
    else
      var past, m := messages[..|messages| - 1], messages[|messages| - 1];
      Sessions(past) + if m.Incoming? then [m.session] else []
  }

  function Replies(p: Policy, messages: seq<Msg>): seq<Msg>
    decreases |messages|
  {
    if messages == [] then []
    else
      var past, m := Replies(p, messages[..|messages| - 1]), messages[|messages| - 1];
      if m.Incoming? then past + [if p.Grants(|past|) then Accept(m.session) else Reject(m.session)] else past
  }

  // Exactly one reply for each Incoming, in the same order, and it accepts if and only if consent
  // is not asked for or was given.
  lemma {:induction false} OneReplyEach(p: Policy, messages: seq<Msg>)
    ensures var (replies, sessions) := (Replies(p, messages), Sessions(messages));
      && |replies| == |sessions|
      && forall k :: 0 <= k < |replies| ==>
           replies[k]
           == if !p.asks || (k < |p.answers| && p.answers[k]) then Accept(sessions[k]) else Reject(sessions[k])
    decreases |messages|
  {
    if messages != [] { OneReplyEach(p, messages[..|messages| - 1]); }
  }

  // The agent of the step system after reading n messages, when it consents as p says.
  function AgentAfter(reg: Reg, p: Policy, n: nat): Option<Reg>
    decreases n
  {
    if n == 0 then Some(reg)
    else
      var before := AgentAfter(reg, p, n - 1);
      if before.None? || before.value.down == [] || |before.value.up| < |reg.up| then None
      else Some(AgentStep(before.value, p.Grants(|before.value.up| - |reg.up|)))
  }

  // The steps of the relay's model of an agent write what Serve writes.
  lemma {:induction false} AgentServes(reg: Reg, p: Policy, n: nat)
    requires reg.agent.Serving? && n <= |reg.down|
    ensures AgentAfter(reg, p, n) == Some(reg.(down := reg.down[n..], up := reg.up + Replies(p, reg.down[..n])))
    decreases n
  {
    if n == 0 {
      assert reg.down[0..] == reg.down && reg.up + [] == reg.up;
    } else {
      AgentServes(reg, p, n - 1);
      assert reg.down[..n][..n - 1] == reg.down[..n - 1];
      var before, m, past := AgentAfter(reg, p, n - 1).value, reg.down[n - 1], Replies(p, reg.down[..n - 1]);
      assert before.up == reg.up + past && |before.up| - |reg.up| == |past|;
      assert before.down[0] == m && before.down[1..] == reg.down[n..];
      assert AgentAfter(reg, p, n) == Some(AgentStep(before, p.Grants(|past|)));
      if m.Incoming? {
        var reply := if p.Grants(|past|) then Accept(m.session) else Reject(m.session);
        assert before.up + [reply] == reg.up + (past + [reply]);
      }
    }
  }

  // One more message handled.
  lemma NextReply(p: Policy, all: seq<Msg>, n: nat)
    requires n < |all|
    ensures var past, m := Replies(p, all[..n]), all[n];
      Replies(p, all[..n + 1])
      == if m.Incoming? then past + [if p.Grants(|past|) then Accept(m.session) else Reject(m.session)] else past
    ensures multiset(all[..n + 1])[Alert] == multiset(all[..n])[Alert] + if all[n] == Alert then 1 else 0
  {
    assert all[..n + 1][..n] == all[..n] && all[..n + 1] == all[..n] + [all[n]];
  }

  datatype Outcome = Connected | SendFailed | NoReply | Unexpected(op: Msg)

  // inp holds the messages that can still be decoded, room counts those that can still be sent.
  class Host {
    var id: string
    var pin: string
    var inp: seq<Msg>
    var out: seq<Msg>
    var room: nat
    var alerts: nat

    constructor (inp: seq<Msg>, room: nat)
      ensures this.inp == inp && this.room == room && id == "" && pin == "" && out == [] && alerts == 0
    {
      this.inp, this.room := inp, room;
      id, pin, out, alerts := "", "", [], 0;
    }

    method Encode(m: Msg) returns (ok: bool)
      modifies this`out, this`room
      ensures ok == (old(room) > 0)
      ensures out == old(out) + (if ok then [m] else []) && room == old(room) - if ok then 1 else 0
    {
      ok := room > 0;
      if ok {
        out, room := out + [m], room - 1;
      }
    }

    // Registering: the id and PIN come from the first message back, which must be Registered.
    method Connect(unattended: bool) returns (r: Outcome)
      modifies this`id, this`pin, this`inp, this`out, this`room
      ensures r.SendFailed? <==> old(room) == 0
      ensures out == old(out) + if r.SendFailed? then [] else [Register(unattended)]
      ensures !r.SendFailed? ==> (r.NoReply? <==> old(inp) == [])
      ensures inp == if r.SendFailed? || r.NoReply? then old(inp) else old(inp)[1..]
      ensures r.Unexpected? ==> r.op == old(inp)[0] && !r.op.Registered?
      ensures r.Connected? ==> old(inp)[0] == Registered(id, pin)
      ensures !r.Connected? ==> id == old(id) && pin == old(pin)
    {
      var ok := Encode(Register(unattended));
      if !ok {
        return SendFailed;
      }
      if inp == [] {
        return NoReply;
      }
      var m := inp[0];
      inp := inp[1..];
      if !m.Registered? {
        return Unexpected(m);
      }
      id, pin := m.id, m.pin;
      return Connected;
    }

    // The answer to one Incoming; asked counts those before.
    method Answer(p: Policy, session: string, asked: nat) returns (ok: bool)
      modifies this`out, this`room
      ensures ok == (old(room) > 0) && room == old(room) - if ok then 1 else 0
      ensures out == old(out) + if ok then [if p.Grants(asked) then Accept(session) else Reject(session)] else []
    {
      var grant := true;
      if p.asks {
        grant := p.Grants(asked);
      }
      ok := Encode(if grant then Accept(session) else Reject(session));
    }

    // Answering until nothing more can be read, or until a reply cannot be sent: what was written are
    // the replies to the messages read, save the one that failed.
    method Serve(p: Policy) returns (sent: bool)
      modifies this`inp, this`out, this`room, this`alerts
      ensures |inp| <= |old(inp)| && inp == old(inp)[|old(inp)| - |inp|..]
      ensures var past := old(inp)[..|old(inp)| - |inp|];
        && alerts == old(alerts) + multiset(past)[Alert]
        && if sent then inp == [] && out == old(out) + Replies(p, past)
           else
             && past != [] && past[|past| - 1].Incoming? && room == 0
             && out == old(out) + Replies(p, past[..|past| - 1])
    {
      ghost var all, start := inp, out;
      ghost var n := 0;
      var asked := 0;
      while inp != []
        invariant n <= |all| && inp == all[n..]
        invariant out == start + Replies(p, all[..n]) && asked == |Replies(p, all[..n])|
        invariant alerts == old(alerts) + multiset(all[..n])[Alert]
        decreases |inp|
      {
        NextReply(p, all, n);
        assert all[..n + 1][..n] == all[..n];
        var m := inp[0];
        inp := inp[1..];
        n := n + 1;
        if m.Incoming? {
          sent := Answer(p, m.session, asked);
          asked := asked + 1;
          if !sent {
            return;
          }
        } else if m == Alert {
          alerts := alerts + 1;
        }
      }
      return true;
    }
  }
}
