// The relay as a step system: control loops, host agents and viewers, interleaved in any way.
// Each block that holds a lock, each channel operation and each message is one step.
module Broker {
  import opened Bytes
  import L = Lockout

  datatype Msg =
    | Register(unattended: bool)
    | Registered(id: string, pin: string)
    | Incoming(session: string)
    | Accept(session: string)
    | Reject(session: string)
    | Alert
    | Other

  // Where a control loop is: between messages, before it sends Registered, between the two halves
  // of resolve with the channel it looked up, or finished.
  datatype Loop = Reading | Greeting | Resolving(ch: Option<nat>, ok: bool) | Ended

  // The host at the other end: one that may send anything, or an agent running Connect and Serve.
  datatype Agent = Free | Dialing | Serving | Gone

  // One control channel and its registration; down and up are the messages under way.
  datatype Reg = Reg(registered: bool, id: string, pin: string, unattended: bool, gate: L.Gate,
                     pending: map<string, nat>, loop: Loop, agent: Agent, down: seq<Msg>, up: seq<Msg>)
  {
    predicate Online() { registered && loop != Ended }
  }

  // Where a viewer's serveConnect is.
  datatype Pc =
    | Connecting
    | Found(reg: nat)
    | Alerting(reg: nat)
    | Admitted(reg: nat)
    | Queued(reg: nat, session: string)
    | Asked(reg: nat, session: string)
    | Leaving(reg: nat, session: string, result: bool)
    | Consented(reg: nat, session: string)
    | Joined(reg: nat, session: string)
    | Bridged(reg: nat, session: string)
    | Closed
  {
    // The pending entry exists from its insertion to the deferred delete.
    predicate Waiting() { Queued? || Asked? || Leaving? }

    predicate InSession() { Waiting() || Consented? || Joined? || Bridged? }

    predicate Authenticated() { Admitted? || InSession() }
  }

  // box is the one-place buffer of the viewer's result channel.
  datatype Viewer = Viewer(id: string, pin: string, pc: Pc, box: Option<bool>)

  datatype Event =
    | Admit(v: nat, r: nat)
    | Tripped(v: nat, r: nat)
    | Alerted(v: nat, r: nat)
    | Sent(r: nat, session: string)
    | Heard(r: nat, session: string, ok: bool)
    | Hit(v: nat, r: nat, session: string, ok: bool)
    | Opened(v: nat, r: nat, session: string)

  // used and log record the past; no step of the relay depends on them.
  datatype State = State(clock: nat, hosts: map<string, nat>, regs: map<nat, Reg>, viewers: map<nat, Viewer>,
                         used: set<string>, log: seq<Event>)

  datatype Config = Config(max: nat, lockout: nat)

  datatype Label =
    | OpenControl(r: nat, conforming: bool, unattended: bool)
    | HostSays(r: nat, m: Msg)
    | HostReads(r: nat, consent: bool)
    | LoopReads(r: nat, newId: string, newPin: string)
    | Greet(r: nat, sent: bool)
    | Deliver(r: nat)
    | HangUp(r: nat)
    | Arrive(v: nat, id: string, pin: string)
    | Lookup(v: nat)
    | Check(v: nat, now: nat, later: nat)
    | SendAlert(v: nat, sent: bool)
    | Enqueue(v: nat, session: string)
    | Notify(v: nat, sent: bool)
    | Receive(v: nat)
    | Timeout(v: nat)
    | Leave(v: nat)
    | Join(v: nat, accepted: bool)
    | OpenData(v: nat, success: bool)

  predicate At(s: State, v: nat) {
    v in s.viewers && (s.viewers[v].pc.Connecting? || s.viewers[v].pc.Closed? || s.viewers[v].pc.reg in s.regs)
  }

  predicate Enabled(s: State, l: Label) {
    match l
    case OpenControl(r, _, _) => r !in s.regs
    case HostSays(r, _) => r in s.regs && s.regs[r].agent == Free
    case HostReads(r, _) =>
      r in s.regs && (s.regs[r].agent == Dialing || s.regs[r].agent == Serving) && s.regs[r].down != []
    case LoopReads(r, newId, _) =>
      && r in s.regs && s.regs[r].loop == Reading && s.regs[r].up != []
      && (s.regs[r].up[0].Register? && !s.regs[r].registered ==> newId !in s.hosts)
    case Greet(r, _) => r in s.regs && s.regs[r].loop == Greeting
    case Deliver(r) => r in s.regs && s.regs[r].loop.Resolving?
    case HangUp(r) => r in s.regs && s.regs[r].loop == Reading
    case Arrive(v, _, _) => v !in s.viewers
    case Lookup(v) => At(s, v) && s.viewers[v].pc.Connecting?
    case Check(v, now, later) => At(s, v) && s.viewers[v].pc.Found? && s.clock <= now <= later
    case SendAlert(v, _) => At(s, v) && s.viewers[v].pc.Alerting?
    case Enqueue(v, _) => At(s, v) && s.viewers[v].pc.Admitted?
    case Notify(v, _) => At(s, v) && s.viewers[v].pc.Queued?
    case Receive(v) => At(s, v) && s.viewers[v].pc.Asked? && s.viewers[v].box.Some?
    case Timeout(v) => At(s, v) && s.viewers[v].pc.Asked?
    case Leave(v) => At(s, v) && s.viewers[v].pc.Leaving?
    case Join(v, _) => At(s, v) && s.viewers[v].pc.Consented?
    case OpenData(v, _) => At(s, v) && s.viewers[v].pc.Joined?
  }

  datatype RegOf = RegOf(r: nat, reg: Reg)

  datatype ViewerOf = ViewerOf(v: nat, w: Viewer)

  // What a step changes: at most one registration and one viewer.
  datatype Change = Change(reg: Option<RegOf>, viewer: Option<ViewerOf>, hosts: map<string, nat>, clock: nat,
                           used: set<string>, events: seq<Event>)
  {
    function Put(r: nat, reg: Reg): Change { this.(reg := Some(RegOf(r, reg))) }

    function Set(v: nat, w: Viewer): Change { this.(viewer := Some(ViewerOf(v, w))) }

    function Note(e: Event): Change { this.(events := events + [e]) }
  }

  function Keep(s: State): Change {
    Change(None, None, s.hosts, s.clock, s.used, [])
  }

  function Apply(s: State, d: Change): State {
    State(d.clock, d.hosts,
          if d.reg.Some? then s.regs[d.reg.value.r := d.reg.value.reg] else s.regs,
          if d.viewer.Some? then s.viewers[d.viewer.value.v := d.viewer.value.w] else s.viewers,
          d.used, s.log + d.events)
  }

  // One message of the host agent: Connect awaits Registered, Serve answers each Incoming once.
  function AgentStep(reg: Reg, consent: bool): Reg
    requires reg.down != []
  {
    var m, rest := reg.down[0], reg.(down := reg.down[1..]);
    if reg.agent == Dialing then rest.(agent := if m.Registered? then Serving else Gone)
    else if m.Incoming? then rest.(up := reg.up + [if consent then Accept(m.session) else Reject(m.session)])
    else rest
  }

  // One message of the control loop.
  function LoopStep(s: State, r: nat, newId: string, newPin: string): Change
    requires r in s.regs && s.regs[r].up != []
  {
    var reg := s.regs[r];
    var m, rest := reg.up[0], reg.(up := reg.up[1..]);
    match m
    case Register(unattended) =>
      if reg.registered then Keep(s).Put(r, rest)
      else
        var named := rest.(registered := true, id := newId, pin := newPin, unattended := unattended, loop := Greeting);
        Keep(s).Put(r, named).(hosts := s.hosts[newId := r])
    case Accept(session) => Reply(s, r, rest, session, true)
    case Reject(session) => Reply(s, r, rest, session, false)
    case _ => Keep(s).Put(r, rest)
  }

  // The first half of resolve: the lookup under the lock.
  function Reply(s: State, r: nat, reg: Reg, session: string, ok: bool): Change {
    var heard := Keep(s).Note(Heard(r, session, ok));
    if session in reg.pending then
      var v := reg.pending[session];
      heard.Put(r, reg.(loop := Resolving(Some(v), ok))).Note(Hit(v, r, session, ok))
    else heard.Put(r, reg.(loop := Resolving(None, ok)))
  }

  // The second half of resolve: a send that gives up when the buffer is full.
  function DeliverStep(s: State, r: nat): Change
    requires r in s.regs && s.regs[r].loop.Resolving?
  {
    var loop := s.regs[r].loop;
    var done := Keep(s).Put(r, s.regs[r].(loop := Reading));
    if loop.ch.Some? && loop.ch.value in s.viewers && s.viewers[loop.ch.value].box.None? then
      done.Set(loop.ch.value, s.viewers[loop.ch.value].(box := Some(loop.ok)))
    else done
  }

  function CheckStep(c: Config, s: State, v: nat, now: nat, later: nat): Change
    requires At(s, v) && s.viewers[v].pc.Found?
  {
    var w := s.viewers[v];
    var r := w.pc.reg;
    var reg := s.regs[r];
    var reply := L.Try(c.max, c.lockout, reg.gate, L.Attempt(now, later, w.pin == reg.pin));
    var d := Keep(s).Put(r, reg.(gate := reply.g)).(clock := later);
    if reply.verdict == L.Passed then d.Set(v, w.(pc := Admitted(r))).Note(Admit(v, r))
    else if reply.justLocked then d.Set(v, w.(pc := Alerting(r))).Note(Tripped(v, r))
    else d.Set(v, w.(pc := Closed))
  }

  // The start of awaitConsent: unattended hosts consent at once, the others get a pending entry.
  function EnqueueStep(s: State, v: nat, session: string): Change
    requires At(s, v) && s.viewers[v].pc.Admitted?
  {
    var w := s.viewers[v];
    var r := w.pc.reg;
    var reg := s.regs[r];
    var d := Keep(s).(used := s.used + {session});
    if reg.unattended then d.Set(v, w.(pc := Consented(r, session)))
    else d.Put(r, reg.(pending := reg.pending[session := v])).Set(v, w.(pc := Queued(r, session)))
  }

  // The steps of the host's side.
  function HostChange(s: State, l: Label): Change
    requires Enabled(s, l) && HostLabel(l)
  {
    match l
    case OpenControl(r, conforming, unattended) =>
      Keep(s).Put(r, Reg(false, "", "", false, L.Gate(0, 0), map[], Reading, if conforming then Dialing else Free, [],
                         if conforming then [Register(unattended)] else []))
    case HostSays(r, m) => Keep(s).Put(r, s.regs[r].(up := s.regs[r].up + [m]))
    case HostReads(r, consent) => Keep(s).Put(r, AgentStep(s.regs[r], consent))
    case LoopReads(r, newId, newPin) => LoopStep(s, r, newId, newPin)
    case Greet(r, sent) =>
      var reg := s.regs[r];
      Keep(s).Put(r, reg.(loop := Reading, down := reg.down + if sent then [Registered(reg.id, reg.pin)] else []))
    case Deliver(r) => DeliverStep(s, r)
    case HangUp(r) =>
      var reg := s.regs[r];
      Keep(s).Put(r, reg.(loop := Ended)).(hosts := if reg.registered then s.hosts - {reg.id} else s.hosts)
  }

  predicate HostLabel(l: Label) {
    l.OpenControl? || l.HostSays? || l.HostReads? || l.LoopReads? || l.Greet? || l.Deliver? || l.HangUp?
  }

  // The steps of serveConnect.
  function ViewerChange(c: Config, s: State, l: Label): Change
    requires Enabled(s, l) && !HostLabel(l)
  {
    if l.Arrive? then Keep(s).Set(l.v, Viewer(l.id, l.pin, Connecting, None))
    else
      var v, w := l.v, s.viewers[l.v];
      match l
      case Lookup(_) =>
        Keep(s).Set(v, w.(pc := if w.id in s.hosts && s.hosts[w.id] in s.regs then Found(s.hosts[w.id]) else Closed))
      case Check(_, now, later) => CheckStep(c, s, v, now, later)
      case SendAlert(_, sent) =>
        var r := w.pc.reg;
        var reg := s.regs[r];
        Keep(s).Put(r, reg.(down := reg.down + if sent then [Alert] else []))
        .Set(v, w.(pc := Closed)).Note(Alerted(v, r))
      case Enqueue(_, session) => EnqueueStep(s, v, session)
      case Notify(_, sent) =>
        var r, session := w.pc.reg, w.pc.session;
        var reg := s.regs[r];
        if sent then
          Keep(s).Put(r, reg.(down := reg.down + [Incoming(session)]))
          .Set(v, w.(pc := Asked(r, session))).Note(Sent(r, session))
        else Keep(s).Set(v, w.(pc := Leaving(r, session, false)))
      case Receive(_) => Keep(s).Set(v, w.(pc := Leaving(w.pc.reg, w.pc.session, w.box.value), box := None))
      case Timeout(_) => Keep(s).Set(v, w.(pc := Leaving(w.pc.reg, w.pc.session, false)))
      case Leave(_) =>
        var r, session := w.pc.reg, w.pc.session;
        var reg := s.regs[r];
        Keep(s).Put(r, reg.(pending := reg.pending - {session}))
        .Set(v, w.(pc := if w.pc.result then Consented(r, session) else Closed))
      case Join(_, accepted) => Keep(s).Set(v, w.(pc := if accepted then Joined(w.pc.reg, w.pc.session) else Closed))
      case OpenData(_, success) =>
        if success then
          Keep(s).Set(v, w.(pc := Bridged(w.pc.reg, w.pc.session))).Note(Opened(v, w.pc.reg, w.pc.session))
        else Keep(s).Set(v, w.(pc := Closed))
  }

  function ChangeOf(c: Config, s: State, l: Label): Change
    requires Enabled(s, l)
  {
    if HostLabel(l) then HostChange(s, l) else ViewerChange(c, s, l)
  }

  function Next(c: Config, s: State, l: Label): State
    requires Enabled(s, l)
  {
    Apply(s, ChangeOf(c, s, l))
  }

  const INIT: State := State(0, map[], map[], map[], {}, [])

  // The state after a run of labels, if each was enabled when it was taken.
  function Run(c: Config, s: State, labels: seq<Label>): Option<State>
    decreases |labels|
  {
    if labels == [] then Some(s)
    else if Enabled(s, labels[0]) then Run(c, Next(c, s, labels[0]), labels[1..]) else None
  }

  // The assumption about session ids: no id is drawn twice.
  predicate FreshLabel(s: State, l: Label) {
    l.Enqueue? ==> l.session !in s.used
  }

  // Less than fresh: no id is drawn for an attended host while it is pending there.
  predicate FreeLabel(s: State, l: Label) {
    l.Enqueue? && Enabled(s, l) ==>
      var reg := s.regs[s.viewers[l.v].pc.reg];
      reg.unattended || l.session !in reg.pending
  }

  predicate FreeRun(c: Config, s: State, labels: seq<Label>)
    decreases |labels|
  {
    labels != [] ==>
      && Enabled(s, labels[0]) && FreeLabel(s, labels[0])
      && FreeRun(c, Next(c, s, labels[0]), labels[1..])
  }

  predicate FreshRun(c: Config, s: State, labels: seq<Label>)
    decreases |labels|
  {
    labels != [] ==>
      && Enabled(s, labels[0]) && FreshLabel(s, labels[0])
      && FreshRun(c, Next(c, s, labels[0]), labels[1..])
  }
}
