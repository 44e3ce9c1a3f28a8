/** The concurrent server as a transition system: any number of client threads, two locks, the
    slaves, the fault injector and the statistics.

    One step of one thread is one `Action`. Private computation is as coarse as it can be without
    hiding an interleaving: everything shared - the locks, each slave, each counter - is touched by
    a step of its own. The fields `bus0`, `log`, `input`, `handled`, `responses` and `output` are
    history: no step's effect on the other fields depends on them. */
module Server {
  import opened Bits
  import opened Options
  import opened Station
  import opened Bus
  import opened Mbap
  import opened Gateway
  import opened History

  const RECV_MAX: nat := 1024

  /** A decoded request and the bytes it took from the front of the buffer. */
  datatype Job = Job(req: MbapFrame, consumed: nat)

  datatype Reason = PeerGone | FramingError | SendFailed(job: Job, out: seq<byte>, sent: nat)

  /** Where a client thread stands in `serve_client`, `handle` and `transact`. */
  datatype Pc =
    | Receiving
    | Draining
    | Entering(job: Job)
    | AwaitInjector(job: Job)
    | InInjector(job: Job)
    | AwaitBus(job: Job)
    | Scanning(job: Job, i: nat)
    | Scanned(job: Job, reply: Option<seq<byte>>)
    | BusReleased(job: Job, reply: Option<seq<byte>>)
    | Translating(job: Job, reply: Option<seq<byte>>)
    | Sending(job: Job, out: seq<byte>, sent: nat)
    | Closed(why: Reason)

  datatype Client = Client(
    pc: Pc,
    buf: seq<byte>,
    input: seq<byte>,
    handled: seq<MbapFrame>,
    responses: seq<MbapFrame>,
    output: seq<byte>)

  datatype System = System(
    faulty: bool,
    bus0: seq<Station>,
    slaves: seq<Station>,
    injectorLock: Option<nat>,
    busLock: Option<nat>,
    dropped: u64,
    corrupted: u64,
    stats: Stats,
    clients: seq<Client>,
    log: seq<Event>)

  datatype Action =
    | Accept
    | Receive(chunk: seq<byte>)
    | HangUp
    | DecodeNext
    | Enter
    | LockInjector
    | DrawDrop(drop: bool)
    | LockBus
    | Visit
    | UnlockBus
    | DrawCorrupt(corrupt: bool, pick: nat)
    | Translate
    | Send(n: nat)
    | SendFails
    | Erase

  function Fresh(): Client {
    Client(Receiving, [], [], [], [], [])
  }

  function Start(faulty: bool, ids: seq<byte>, regs: u16): System {
    var bus := FreshBus(ids, regs);
    System(faulty, bus, bus, None, None, 0, 0, Stats(0, 0, 0, 0, 0), [], [])
  }

  /** May client `c` take action `a`? The next client to connect is number `|s.clients|`. */
  predicate Enabled(s: System, c: nat, a: Action) {
    if a.Accept? then c == |s.clients|
    else
      && c < |s.clients|
      && var pc := s.clients[c].pc;
      match a
      case Accept => true
      case Receive(chunk) => pc.Receiving? && 1 <= |chunk| <= RECV_MAX
      case HangUp => pc.Receiving?
      case DecodeNext => pc.Draining?
      case Enter => pc.Entering?
      case LockInjector => pc.AwaitInjector? && s.injectorLock == None
      case DrawDrop(_) => pc.InInjector?
      case LockBus => pc.AwaitBus? && s.busLock == None
      case Visit => pc.Scanning?
      case UnlockBus => pc.Scanned?
      case DrawCorrupt(corrupt, _) => pc.BusReleased? && (corrupt ==> pc.reply.Some?)
      case Translate => pc.Translating? && pc.job.req.pdu != []
      case Send(n) => pc.Sending? && 1 <= n && pc.sent + n <= |pc.out|
      case SendFails => pc.Sending? && pc.sent < |pc.out|
      case Erase => pc.Sending? && pc.sent >= |pc.out| && pc.job.consumed <= |s.clients[c].buf|
  }

  function SetClient(s: System, c: nat, k: Client): System
    requires c < |s.clients|
  {
    s.(clients := s.clients[c := k])
  }

  function Goto(s: System, c: nat, pc: Pc): System
    requires c < |s.clients|
  {
    SetClient(s, c, s.clients[c].(pc := pc))
  }

  /** The end of `transact`: the event is recorded and the outcome goes to the translation. */
  function Finish(s: System, c: nat, job: Job, draw: Draw, reply: Option<seq<byte>>): System
    requires c < |s.clients|
  {
    Goto(s, c, Translating(job, reply)).(log := s.log + [Event(c, job.req, draw)])
  }

  // ---- the steps, one function each ----

  /** A new connection gets a thread of its own. */
  function Accepted(s: System): System {
    s.(clients := s.clients + [Fresh()])
  }

  function Received(s: System, c: nat, chunk: seq<byte>): System
    requires c < |s.clients|
  {
    var k := s.clients[c];
    SetClient(s, c, k.(pc := Draining, buf := k.buf + chunk, input := k.input + chunk))
  }

  function Decoded(s: System, c: nat): System
    requires c < |s.clients|
  {
    match Decode(s.clients[c].buf)
    case Frame(f, n) => Goto(s, c, Entering(Job(f, n)))
    case NoFrame(e) =>
      if e == NeedMoreData then Goto(s, c, Receiving)
      else Goto(s, c, Closed(FramingError)).(stats := s.stats.(malformed := Inc64(s.stats.malformed)))
  }

  function Entered(s: System, c: nat): System
    requires c < |s.clients| && s.clients[c].pc.Entering?
  {
    var job := s.clients[c].pc.job;
    Goto(s, c, if s.faulty then AwaitInjector(job) else AwaitBus(job))
      .(stats := s.stats.(requests := Inc64(s.stats.requests)))
  }

  function InjectorLocked(s: System, c: nat): System
    requires c < |s.clients| && s.clients[c].pc.AwaitInjector?
  {
    Goto(s, c, InInjector(s.clients[c].pc.job)).(injectorLock := Some(c))
  }

  function DropDrawn(s: System, c: nat, drop: bool): System
    requires c < |s.clients| && s.clients[c].pc.InInjector?
  {
    var job := s.clients[c].pc.job;
    if drop then Finish(s, c, job, Draw(true, false, 0), None).(injectorLock := None, dropped := Inc64(s.dropped))
    else Goto(s, c, AwaitBus(job))
  }

  function BusLocked(s: System, c: nat): System
    requires c < |s.clients| && s.clients[c].pc.AwaitBus?
  {
    Goto(s, c, Scanning(s.clients[c].pc.job, 0)).(busLock := Some(c))
  }

  /** One turn of the loop over the slaves, or its end. */
  function Visited(s: System, c: nat): System
    requires c < |s.clients| && s.clients[c].pc.Scanning?
  {
    var Scanning(job, i) := s.clients[c].pc;
    if i >= |s.slaves| then Goto(s, c, Scanned(job, None))
    else
      var (t, o) := Handle(s.slaves[i], TcpToRtu(job.req));
      Goto(s, c, if o.Respond? then Scanned(job, Some(o.frame)) else Scanning(job, i + 1))
        .(slaves := s.slaves[i := t])
  }

  function BusUnlocked(s: System, c: nat): System
    requires c < |s.clients| && s.clients[c].pc.Scanned?
  {
    var Scanned(job, reply) := s.clients[c].pc;
    (if s.faulty then Goto(s, c, BusReleased(job, reply)) else Finish(s, c, job, NO_FAULT, reply)).(busLock := None)
  }

  function CorruptionDrawn(s: System, c: nat, corrupt: bool, pick: nat): System
    requires c < |s.clients| && s.clients[c].pc.BusReleased?
  {
    var BusReleased(job, reply) := s.clients[c].pc;
    var draw := Draw(false, corrupt, pick);
    Finish(s, c, job, draw, if reply.Some? then Some(Damage(reply.value, draw)) else None)
      .(injectorLock := None, corrupted := if corrupt then Inc64(s.corrupted) else s.corrupted)
  }

  function Translated(s: System, c: nat): System
    requires c < |s.clients| && s.clients[c].pc.Translating? && s.clients[c].pc.job.req.pdu != []
  {
    var k := s.clients[c];
    var Translating(job, reply) := k.pc;
    var rsp := Answer(job.req, reply);
    SetClient(s, c, k.(pc := Sending(job, Encode(rsp), 0), responses := k.responses + [rsp]))
      .(stats := CountDisposition(s.stats, Dispose(reply, job.req.transactionId)))
  }

  function Sent(s: System, c: nat, n: nat): System
    requires c < |s.clients| && s.clients[c].pc.Sending? && s.clients[c].pc.sent + n <= |s.clients[c].pc.out|
  {
    var k := s.clients[c];
    var Sending(job, out, sent) := k.pc;
    SetClient(s, c, k.(pc := Sending(job, out, sent + n), output := k.output + out[sent..sent + n]))
  }

  function SendBroken(s: System, c: nat): System
    requires c < |s.clients| && s.clients[c].pc.Sending?
  {
    var Sending(job, out, sent) := s.clients[c].pc;
    Goto(s, c, Closed(SendFailed(job, out, sent)))
  }

  function Erased(s: System, c: nat): System
    requires c < |s.clients| && s.clients[c].pc.Sending? && s.clients[c].pc.job.consumed <= |s.clients[c].buf|
  {
    var k := s.clients[c];
    var job := k.pc.job;
    SetClient(s, c, k.(pc := Draining, buf := k.buf[job.consumed..], handled := k.handled + [job.req]))
  }

  function Apply(s: System, c: nat, a: Action): System
    requires Enabled(s, c, a)
  {
    match a
    case Accept => Accepted(s)
    case Receive(chunk) => Received(s, c, chunk)
    case HangUp => Goto(s, c, Closed(PeerGone))
    case DecodeNext => Decoded(s, c)
    case Enter => Entered(s, c)
    case LockInjector => InjectorLocked(s, c)
    case DrawDrop(drop) => DropDrawn(s, c, drop)
    case LockBus => BusLocked(s, c)
    case Visit => Visited(s, c)
    case UnlockBus => BusUnlocked(s, c)
    case DrawCorrupt(corrupt, pick) => CorruptionDrawn(s, c, corrupt, pick)
    case Translate => Translated(s, c)
    case Send(n) => Sent(s, c, n)
    case SendFails => SendBroken(s, c)
    case Erase => Erased(s, c)
  }

  // ---- runs ----

  datatype Step = Step(client: nat, action: Action)

  /** The state after a run of steps, if every one of them was possible. */
  function RunFrom(s: System, steps: seq<Step>): Option<System> {
    if steps == [] then Some(s)
    else
      var before := RunFrom(s, steps[..|steps| - 1]);
      var step := steps[|steps| - 1];
      if before.Some? && Enabled(before.value, step.client, step.action)
      then Some(Apply(before.value, step.client, step.action))
      else None
  }

  /** `s` can be reached by some interleaving. */
  ghost predicate Reachable(s: System, faulty: bool, ids: seq<byte>, regs: u16) {
    exists steps: seq<Step> :: RunFrom(Start(faulty, ids, regs), steps) == Some(s)
  }
}
