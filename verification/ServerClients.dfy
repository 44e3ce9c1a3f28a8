/** Every step keeps every client in agreement with its own input and with the log. */
module ServerClients {
  import opened Bits
  import opened Options
  import opened Station
  import opened Bus
  import opened Mbap
  import opened Gateway
  import opened History
  import opened Server
  import opened ServerLocks
  import opened ServerInvariant

  /** Only client `c` moved, and the log did not. */
  lemma OneClientMoves(s: System, c: nat, t: System)
    requires ClientsOk(s) && c < |s.clients| == |t.clients| && t.clients == s.clients[c := t.clients[c]]
    requires t.bus0 == s.bus0 && t.log == s.log && ClientOk(c, t.clients[c], s.bus0, s.log)
    ensures ClientsOk(t)
  {
    hide ClientOk, LegalLog, KnownClients;
  }

  /** Client `c` finishes an exchange; for the others the log says what it said before. */
  lemma OneEventMore(s: System, c: nat, t: System, e: Event)
    requires ClientsOk(s) && c < |s.clients| == |t.clients| && t.clients == s.clients[c := t.clients[c]]
    requires t.bus0 == s.bus0 && e.client == c && Legal(e.req) && t.log == s.log + [e] && LegalLog(t.log)
    requires ClientOk(c, t.clients[c], t.bus0, t.log)
    ensures ClientsOk(t)
  {
    hide BufferOk, OutputOk, Legal, AnswersOf, RequestsOf, LegalLog;
    forall d | 0 <= d < |t.clients| ensures ClientOk(d, t.clients[d], t.bus0, t.log) {
      if d != c {
        assert ClientOk(d, s.clients[d], s.bus0, s.log);
        OneMoreEvent(d, s.bus0, s.log, e);
      }
    }
  }

  // ---- moves that change only the program counter ----

  /** Between two points of an exchange, or between decoding and it. */
  lemma SameJob(c: nat, k: Client, pc: Pc, bus: seq<Station>, log: seq<Event>)
    requires LegalLog(log) && ClientOk(c, k, bus, log)
    requires HasJob(k.pc) && HasJob(pc) && pc.job == k.pc.job
    requires !k.pc.Translating? && !k.pc.Sending? && !pc.Translating? && !pc.Sending?
    ensures ClientOk(c, k.(pc := pc), bus, log)
  {
    hide Decode, EncodeAll, AnswersOf, RequestsOf, LegalLog, AllLegal;
  }

  lemma HangUpClient(c: nat, k: Client, bus: seq<Station>, log: seq<Event>)
    requires LegalLog(log) && ClientOk(c, k, bus, log) && k.pc.Receiving?
    ensures ClientOk(c, k.(pc := Closed(PeerGone)), bus, log)
  {
    hide Decode, EncodeAll, AnswersOf, RequestsOf, LegalLog, AllLegal;
  }

  lemma ReceiveClient(c: nat, k: Client, chunk: seq<byte>, bus: seq<Station>, log: seq<Event>)
    requires LegalLog(log) && ClientOk(c, k, bus, log) && k.pc.Receiving? && |chunk| <= RECV_MAX
    ensures ClientOk(c, k.(pc := Draining, buf := k.buf + chunk, input := k.input + chunk), bus, log)
  {
    hide BufferOk, EncodeAll, Encode, AnswersOf, RequestsOf, LegalLog;
    ReceiveKeepsBuffer(k, chunk);
  }

  lemma ReceiveKeepsBuffer(k: Client, chunk: seq<byte>)
    requires BufferOk(k) && k.pc.Receiving? && |chunk| <= RECV_MAX
    ensures BufferOk(k.(pc := Draining, buf := k.buf + chunk, input := k.input + chunk))
  {
    hide Decode, EncodeAll, AllLegal;
    IncompleteIsShort(k.buf);
    ReceivedBytes(k.handled, k.buf, chunk);
  }

  lemma ReceivedBytes(handled: seq<MbapFrame>, buf: seq<byte>, chunk: seq<byte>)
    ensures EncodeAll(handled) + buf + chunk == EncodeAll(handled) + (buf + chunk)
  {
    hide EncodeAll;
  }

  /** What the drain loop makes of the front of the buffer. */
  function Judged(k: Client): Pc {
    match Decode(k.buf)
    case Frame(f, n) => Entering(Job(f, n))
    case NoFrame(e) => if e == NeedMoreData then Receiving else Closed(FramingError)
  }

  lemma JudgeClient(c: nat, k: Client, bus: seq<Station>, log: seq<Event>)
    requires LegalLog(log) && ClientOk(c, k, bus, log) && k.pc.Draining?
    ensures ClientOk(c, k.(pc := Judged(k)), bus, log)
  {
    hide Decode, EncodeAll, AnswersOf, RequestsOf, LegalLog, AllLegal;
  }

  lemma DecodeClient(s: System, c: nat)
    requires ClientsOk(s) && c < |s.clients| && s.clients[c].pc.Draining?
    ensures ClientOk(c, Decoded(s, c).clients[c], s.bus0, s.log)
    ensures Decoded(s, c).clients == s.clients[c := Decoded(s, c).clients[c]]
  {
    hide Decode, ClientOk, LegalLog, Inc64;
    JudgeClient(c, s.clients[c], s.bus0, s.log);
  }

  // ---- the end of an exchange ----

  lemma FinishClient(c: nat, k: Client, job: Job, draw: Draw, reply: Option<seq<byte>>, bus: seq<Station>,
                     log: seq<Event>)
    requires LegalLog(log) && ClientOk(c, k, bus, log)
    requires HasJob(k.pc) && k.pc.job == job && !k.pc.Translating? && !k.pc.Sending?
    requires Legal(job.req) && reply == ReplyAfter(bus, log, Event(c, job.req, draw))
    ensures LegalLog(log + [Event(c, job.req, draw)])
    ensures ClientOk(c, k.(pc := Translating(job, reply)), bus, log + [Event(c, job.req, draw)])
  {
    hide Decode, EncodeAll, AnswersOf, RequestsOf, LegalLog, AllLegal, ReplyAfter, Answer;
    OneMoreEvent(c, bus, log, Event(c, job.req, draw));
  }

  lemma FinishKeepsClients(s: System, c: nat, job: Job, draw: Draw, reply: Option<seq<byte>>)
    requires ClientsOk(s) && c < |s.clients|
    requires HasJob(s.clients[c].pc) && s.clients[c].pc.job == job
    requires !s.clients[c].pc.Translating? && !s.clients[c].pc.Sending?
    requires Legal(job.req) && reply == ReplyAfter(s.bus0, s.log, Event(c, job.req, draw))
    ensures ClientsOk(Finish(s, c, job, draw, reply))
  {
    hide ClientOk, LegalLog, Legal, ReplyAfter;
    FinishClient(c, s.clients[c], job, draw, reply, s.bus0, s.log);
    OneEventMore(s, c, Finish(s, c, job, draw, reply), Event(c, job.req, draw));
  }

  // ---- the reply ----

  lemma TranslateClient(c: nat, k: Client, bus: seq<Station>, log: seq<Event>)
    requires LegalLog(log) && ClientOk(c, k, bus, log) && k.pc.Translating?
    ensures k.pc.job.req.pdu != []
    ensures var rsp := Answer(k.pc.job.req, k.pc.reply);
      ClientOk(c, k.(pc := Sending(k.pc.job, Encode(rsp), 0), responses := k.responses + [rsp]), bus, log)
  {
    hide Decode, Encode, EncodeAll, AnswersOf, RequestsOf, LegalLog, AllLegal, Answer;
    var rsp := Answer(k.pc.job.req, k.pc.reply);
    assert (k.responses + [rsp])[..|k.responses|] == k.responses;
    assert k.output + Encode(rsp)[..0] == k.output;
  }

  lemma SendClient(c: nat, k: Client, n: nat, bus: seq<Station>, log: seq<Event>)
    requires LegalLog(log) && ClientOk(c, k, bus, log) && k.pc.Sending? && k.pc.sent + n <= |k.pc.out|
    ensures ClientOk(c, k.(pc := Sending(k.pc.job, k.pc.out, k.pc.sent + n),
                           output := k.output + k.pc.out[k.pc.sent..k.pc.sent + n]), bus, log)
  {
    hide Decode, Encode, EncodeAll, AnswersOf, RequestsOf, LegalLog, AllLegal;
    var Sending(_, out, sent) := k.pc;
    assert out[..sent] + out[sent..sent + n] == out[..sent + n];
  }

  lemma SendFailsClient(c: nat, k: Client, bus: seq<Station>, log: seq<Event>)
    requires LegalLog(log) && ClientOk(c, k, bus, log) && k.pc.Sending? && k.pc.sent < |k.pc.out|
    ensures ClientOk(c, k.(pc := Closed(SendFailed(k.pc.job, k.pc.out, k.pc.sent))), bus, log)
  {
    hide Decode, Encode, EncodeAll, AnswersOf, RequestsOf, LegalLog, AllLegal;
  }

  lemma EraseClient(c: nat, k: Client, bus: seq<Station>, log: seq<Event>)
    requires LegalLog(log) && ClientOk(c, k, bus, log) && k.pc.Sending? && k.pc.sent >= |k.pc.out|
    ensures k.pc.job.consumed <= |k.buf|
    ensures ClientOk(c, k.(pc := Draining, buf := k.buf[k.pc.job.consumed..], handled := k.handled + [k.pc.job.req]),
                     bus, log)
  {
    hide Encode, EncodeAll, AnswersOf, RequestsOf, LegalLog, BufferOk;
    var Sending(job, out, sent) := k.pc;
    EraseKeepsBuffer(k);
    var n := |k.responses| - 1;
    EncodeAllOneMore(k.responses[..n], k.responses[n]);
    assert k.responses[..n] + [k.responses[n]] == k.responses;
    assert out[..sent] == out;
  }

  lemma EraseKeepsBuffer(k: Client)
    requires BufferOk(k) && k.pc.Sending?
    ensures k.pc.job.consumed <= |k.buf|
    ensures BufferOk(k.(pc := Draining, buf := k.buf[k.pc.job.consumed..], handled := k.handled + [k.pc.job.req]))
  {
    hide Decode, Encode, EncodeAll;
    var job := k.pc.job;
    JobIsLegal(k);
    AllLegalOneMore(k.handled, job.req);
    EncodeAllOneMore(k.handled, job.req);
    assert k.buf == k.buf[..job.consumed] + k.buf[job.consumed..];
  }

  lemma AllLegalOneMore(frames: seq<MbapFrame>, f: MbapFrame)
    requires AllLegal(frames) && Legal(f)
    ensures AllLegal(frames + [f])
  {
    hide Legal;
  }

  lemma EncodeAllOneMore(frames: seq<MbapFrame>, f: MbapFrame)
    ensures EncodeAll(frames + [f]) == EncodeAll(frames) + Encode(f)
  {
    hide Encode, EncodeAll;
    EncodeAllConcat(frames, [f]);
    EncodeAllOne(f);
  }

  // ---- every step ----

  lemma {:induction false} UnseenClient(c: nat, bus: seq<Station>, log: seq<Event>)
    requires LegalLog(log) && KnownClients(log, c)
    ensures RequestsOf(c, log) == [] && AnswersOf(c, bus, log) == []
    decreases |log|
  {
    hide Legal, Answer, ReplyAfter;
    if log != [] {
      var before, e := log[..|log| - 1], log[|log| - 1];
      assert e in log;
      UnseenClient(c, bus, before);
    }
  }

  lemma FreshClient(c: nat, bus: seq<Station>, log: seq<Event>)
    requires LegalLog(log) && KnownClients(log, c)
    ensures ClientOk(c, Fresh(), bus, log)
  {
    UnseenClient(c, bus, log);
    hide AnswersOf, RequestsOf, LegalLog, KnownClients;
    EncodeAllNone();
  }

  lemma AcceptKeepsClients(s: System)
    requires ClientsOk(s)
    ensures ClientsOk(Accepted(s))
  {
    hide ClientOk, LegalLog, Fresh;
    var t := Accepted(s);
    FreshClient(|s.clients|, s.bus0, s.log);
    assert forall d | 0 <= d < |s.clients| :: t.clients[d] == s.clients[d];
  }

  lemma ReadingKeepsClients(s: System, c: nat, a: Action)
    requires ClientsOk(s) && Enabled(s, c, a) && ReadsRequest(a)
    ensures ClientsOk(Apply(s, c, a))
  {
    hide ClientOk, LegalLog, KnownClients, Decoded, Inc64;
    var k := s.clients[c];
    match a
    case Receive(chunk) => ReceiveClient(c, k, chunk, s.bus0, s.log);
      OneClientMoves(s, c, Apply(s, c, a));
    case HangUp => HangUpClient(c, k, s.bus0, s.log);
      OneClientMoves(s, c, Apply(s, c, a));
    case DecodeNext => DecodeClient(s, c);
      DecodedKeepsLog(s, c);
      OneClientMoves(s, c, Apply(s, c, a));
    case Enter =>
      SameJob(c, k, if s.faulty then AwaitInjector(k.pc.job) else AwaitBus(k.pc.job), s.bus0, s.log);
      OneClientMoves(s, c, Apply(s, c, a));
  }

  lemma DecodedKeepsLog(s: System, c: nat)
    requires c < |s.clients|
    ensures var t := Decoded(s, c); t.bus0 == s.bus0 && t.log == s.log && |t.clients| == |s.clients|
  {
    hide Decode, Inc64;
  }

  lemma ReplyingKeepsClients(s: System, c: nat, a: Action)
    requires ClientsOk(s) && Enabled(s, c, a) && SendsReply(a)
    ensures ClientsOk(Apply(s, c, a))
  {
    hide ClientOk, LegalLog, KnownClients, Encode, Answer, Dispose, CountDisposition;
    var k := s.clients[c];
    match a
    case Translate => TranslateClient(c, k, s.bus0, s.log);
    case Send(n) => SendClient(c, k, n, s.bus0, s.log);
    case SendFails => SendFailsClient(c, k, s.bus0, s.log);
    case Erase => EraseClient(c, k, s.bus0, s.log);
    OneClientMoves(s, c, Apply(s, c, a));
  }

  /** Steps inside an exchange that do not end it. */
  lemma MovingKeepsClients(s: System, c: nat, pc: Pc, t: System)
    requires ClientsOk(s) && c < |s.clients|
    requires t.clients == s.clients[c := s.clients[c].(pc := pc)] && t.bus0 == s.bus0 && t.log == s.log
    requires HasJob(s.clients[c].pc) && HasJob(pc) && pc.job == s.clients[c].pc.job
    requires !s.clients[c].pc.Translating? && !s.clients[c].pc.Sending? && !pc.Translating? && !pc.Sending?
    ensures ClientsOk(t)
  {
    hide ClientOk, LegalLog, KnownClients, HasJob;
    SameJob(c, s.clients[c], pc, s.bus0, s.log);
    OneClientMoves(s, c, t);
  }

  lemma UnlockBusKeepsClients(s: System, c: nat, t: System)
    requires Enabled(s, c, UnlockBus) && Legal(s.clients[c].pc.job.req) && t == BusUnlocked(s, c)
    requires LockOk(s) && SlavesOk(s) && ClientsOk(s)
    ensures ClientsOk(t)
  {
    hide ClientsOk, LockOk, SlavesOk, BusAfter, Scan, Legal, Damage, TcpToRtu, ReplyAfter;
    HeldReplyIsClean(s, c);
    var Scanned(job, reply) := s.clients[c].pc;
    if s.faulty {
      MovingKeepsClients(s, c, BusReleased(job, reply), BusUnlocked(s, c));
    } else {
      ExchangeEnds(s.bus0, s.log, Event(c, job.req, NO_FAULT), s.slaves, reply);
      if reply.Some? {
        NoFaultKeepsReply(reply.value);
      }
      FinishKeepsClients(s, c, job, NO_FAULT, reply);
      SameClientsOk(Finish(s, c, job, NO_FAULT, reply), BusUnlocked(s, c));
    }
  }

  lemma SameClientsOk(s: System, t: System)
    requires ClientsOk(s) && t.clients == s.clients && t.bus0 == s.bus0 && t.log == s.log
    ensures ClientsOk(t)
  {
    hide ClientOk, LegalLog, KnownClients;
  }

  lemma DropKeepsClients(s: System, c: nat, drop: bool)
    requires ClientsOk(s) && Enabled(s, c, DrawDrop(drop)) && Legal(s.clients[c].pc.job.req)
    ensures ClientsOk(DropDrawn(s, c, drop))
  {
    hide ClientsOk, BusAfter, Legal, ReplyAfter, Inc64;
    var job := s.clients[c].pc.job;
    if drop {
      DropEnds(s.bus0, s.log, Event(c, job.req, Draw(true, false, 0)));
      FinishKeepsClients(s, c, job, Draw(true, false, 0), None);
      SameClientsOk(Finish(s, c, job, Draw(true, false, 0), None), DropDrawn(s, c, drop));
    } else {
      MovingKeepsClients(s, c, AwaitBus(job), DropDrawn(s, c, drop));
    }
  }

  lemma CorruptKeepsClients(s: System, c: nat, corrupt: bool, pick: nat, t: System)
    requires Enabled(s, c, DrawCorrupt(corrupt, pick)) && Legal(s.clients[c].pc.job.req)
    requires t == CorruptionDrawn(s, c, corrupt, pick)
    requires LockOk(s) && SlavesOk(s) && ClientsOk(s)
    ensures ClientsOk(t)
  {
    hide ClientsOk, LockOk, SlavesOk, BusAfter, Scan, Legal, Damage, TcpToRtu, ReplyAfter, Inc64;
    HeldReplyIsClean(s, c);
    var BusReleased(job, reply) := s.clients[c].pc;
    var draw := Draw(false, corrupt, pick);
    var got := if reply.Some? then Some(Damage(reply.value, draw)) else None;
    ExchangeEnds(s.bus0, s.log, Event(c, job.req, draw), s.slaves, reply);
    FinishKeepsClients(s, c, job, draw, got);
    SameClientsOk(Finish(s, c, job, draw, got), CorruptionDrawn(s, c, corrupt, pick));
  }

  lemma VisitKeepsClients(s: System, c: nat)
    requires ClientsOk(s) && Enabled(s, c, Visit)
    ensures ClientsOk(Visited(s, c))
  {
    hide ClientsOk, Handle, TcpToRtu;
    MovingKeepsClients(s, c, Visited(s, c).clients[c].pc, Visited(s, c));
  }

  /** Every step keeps every client in agreement with its input and the log. */
  lemma ClientsKept(s: System, c: nat, a: Action)
    requires Inv(s) && Enabled(s, c, a)
    ensures ClientsOk(Apply(s, c, a))
  {
    hide SlavesOk, LockOk, BufferOk, OutputOk, HistoryOk, Received, Decoded, Entered, DropDrawn, Visited,
         BusUnlocked, CorruptionDrawn, Translated, Sent, SendBroken, Erased, Accepted;
    if a.Accept? {
      AcceptKeepsClients(s);
    } else if ReadsRequest(a) {
      ReadingKeepsClients(s, c, a);
    } else if SendsReply(a) {
      ReplyingKeepsClients(s, c, a);
    } else {
      JobIsLegal(s.clients[c]);
      var job := s.clients[c].pc.job;
      match a
      case LockInjector => MovingKeepsClients(s, c, InInjector(job), Apply(s, c, a));
      case DrawDrop(drop) => DropKeepsClients(s, c, drop);
      case LockBus => MovingKeepsClients(s, c, Scanning(job, 0), Apply(s, c, a));
      case Visit => VisitKeepsClients(s, c);
      case UnlockBus => UnlockBusKeepsClients(s, c, Apply(s, c, a));
      case DrawCorrupt(corrupt, pick) => CorruptKeepsClients(s, c, corrupt, pick, Apply(s, c, a));
    }
  }

  /** The invariant is inductive. */
  lemma InvKept(s: System, c: nat, a: Action)
    requires Inv(s) && Enabled(s, c, a)
    ensures Inv(Apply(s, c, a))
  {
    hide SlavesOk, LockOk, ClientsOk, Apply, Enabled;
    LocksKept(s, c, a);
    SlavesKept(s, c, a);
    ClientsKept(s, c, a);
  }

  lemma InvInitially(faulty: bool, ids: seq<byte>, regs: u16)
    ensures Inv(Start(faulty, ids, regs))
  {
    hide FreshBus;
  }

  lemma BusIsConstant(s: System, c: nat, a: Action)
    requires Enabled(s, c, a)
    ensures Apply(s, c, a).bus0 == s.bus0 && Apply(s, c, a).faulty == s.faulty
  {
    hide Handle, Decode, Encode, Damage, Answer, Dispose, TcpToRtu, CountDisposition, Inc64;
  }

  lemma {:induction false} RunKeepsInv(faulty: bool, ids: seq<byte>, regs: u16, steps: seq<Step>)
    requires RunFrom(Start(faulty, ids, regs), steps).Some?
    ensures var s := RunFrom(Start(faulty, ids, regs), steps).value;
      Inv(s) && s.bus0 == FreshBus(ids, regs) && s.faulty == faulty
    decreases |steps|
  {
    hide Inv, Apply, Enabled, FreshBus;
    InvInitially(faulty, ids, regs);
    if steps != [] {
      var step := steps[|steps| - 1];
      RunKeepsInv(faulty, ids, regs, steps[..|steps| - 1]);
      var before := RunFrom(Start(faulty, ids, regs), steps[..|steps| - 1]).value;
      InvKept(before, step.client, step.action);
      BusIsConstant(before, step.client, step.action);
    }
  }

  /** The invariant holds in every reachable state. */
  lemma ReachableInv(s: System, faulty: bool, ids: seq<byte>, regs: u16)
    requires Reachable(s, faulty, ids, regs)
    ensures Inv(s) && s.bus0 == FreshBus(ids, regs) && s.faulty == faulty
  {
    hide Inv, Start, FreshBus;
    var steps: seq<Step> :| RunFrom(Start(faulty, ids, regs), steps) == Some(s);
    RunKeepsInv(faulty, ids, regs, steps);
  }
}
