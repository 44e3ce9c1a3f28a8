/** The invariant of the concurrent server, and its preservation by every step. */
module ServerInvariant {
  import opened Bits
  import opened Options
  import opened Station
  import opened Bus
  import opened Mbap
  import opened Gateway
  import opened History
  import opened Server
  import opened ServerLocks

  // ---- the slaves against the log ----

  /** Who is inside an exchange: the holder of the outermost lock. */
  function Owner(s: System): Option<nat> {
    if s.faulty then s.injectorLock else s.busLock
  }

  /** The slaves in terms of the slaves before the exchange. */
  predicate MidExchange(slaves: seq<Station>, pc: Pc, before: seq<Station>) {
    match pc
    case Scanning(job, i) => ScanContinues(slaves, i, before, TcpToRtu(job.req))
    case Scanned(job, reply) => (slaves, reply) == Scan(before, TcpToRtu(job.req))
    case BusReleased(job, reply) => (slaves, reply) == Scan(before, TcpToRtu(job.req))
    case _ => slaves == before
  }

  predicate SlavesOk(s: System) {
    var before := BusAfter(s.bus0, s.log);
    match Owner(s)
    case None => s.slaves == before
    case Some(c) => c < |s.clients| && MidExchange(s.slaves, s.clients[c].pc, before)
  }

  // ---- one client against the log ----

  predicate HasJob(pc: Pc) {
    !(pc.Receiving? || pc.Draining? || pc.Closed?)
  }

  /** The request whose answer is being sent, or whose sending failed. */
  function BeingAnswered(pc: Pc): seq<MbapFrame> {
    if pc.Sending? then [pc.job.req]
    else if pc.Closed? && pc.why.SendFailed? then [pc.why.job.req]
    else []
  }

  /** The request that has left the bus but is not yet translated. */
  function Returned(pc: Pc): seq<MbapFrame> {
    if pc.Translating? then [pc.job.req] else []
  }

  /** The answer it will get. */
  function Due(pc: Pc): seq<MbapFrame>
    requires pc.Translating? ==> pc.job.req.pdu != []
  {
    if pc.Translating? then [Answer(pc.job.req, pc.reply)] else []
  }

  predicate BufferOk(k: Client) {
    && AllLegal(k.handled)
    && k.input == EncodeAll(k.handled) + k.buf
    && |k.buf| <= 259 + RECV_MAX
    && (HasJob(k.pc) ==> Decode(k.buf) == Frame(k.pc.job.req, k.pc.job.consumed))
    && (k.pc.Receiving? ==> Decode(k.buf) == NoFrame(NeedMoreData))
    && (k.pc.Closed? && k.pc.why.PeerGone? ==> Decode(k.buf) == NoFrame(NeedMoreData))
    && (k.pc.Closed? && k.pc.why.FramingError? ==> Decode(k.buf).NoFrame? && Decode(k.buf).error != NeedMoreData)
    && (k.pc.Closed? && k.pc.why.SendFailed? ==> Decode(k.buf) == Frame(k.pc.why.job.req, k.pc.why.job.consumed))
  }

  /** The bytes delivered: every response but the one being sent in full, and of that one what the
      sends so far took. */
  predicate OutputOk(k: Client) {
    if k.pc.Sending? then Partial(k, k.pc.out, k.pc.sent)
    else if k.pc.Closed? && k.pc.why.SendFailed? then
      Partial(k, k.pc.why.out, k.pc.why.sent) && k.pc.why.sent < |k.pc.why.out|
    else k.output == EncodeAll(k.responses)
  }

  predicate Partial(k: Client, out: seq<byte>, sent: nat) {
    && k.responses != []
    && var n := |k.responses| - 1;
    && out == Encode(k.responses[n])
    && sent <= |out|
    && k.output == EncodeAll(k.responses[..n]) + out[..sent]
  }

  predicate HistoryOk(c: nat, k: Client, bus: seq<Station>, log: seq<Event>)
    requires LegalLog(log)
  {
    && (k.pc.Translating? ==> k.pc.job.req.pdu != [])
    && RequestsOf(c, log) == k.handled + Returned(k.pc) + BeingAnswered(k.pc)
    && AnswersOf(c, bus, log) == k.responses + Due(k.pc)
  }

  predicate ClientOk(c: nat, k: Client, bus: seq<Station>, log: seq<Event>)
    requires LegalLog(log)
  {
    BufferOk(k) && OutputOk(k) && HistoryOk(c, k, bus, log)
  }

  /** The log names connected clients only. */
  predicate KnownClients(log: seq<Event>, n: nat) {
    forall e | e in log :: e.client < n
  }

  predicate ClientsOk(s: System) {
    && LegalLog(s.log)
    && KnownClients(s.log, |s.clients|)
    && forall c | 0 <= c < |s.clients| :: ClientOk(c, s.clients[c], s.bus0, s.log)
  }

  // ---- the slaves: preservation ----

  /** The request in hand is the legal frame at the front of the buffer. */
  lemma JobIsLegal(k: Client)
    requires BufferOk(k) && HasJob(k.pc)
    ensures Legal(k.pc.job.req) && k.pc.job.req.pdu != []
    ensures k.pc.job.consumed <= |k.buf| && Encode(k.pc.job.req) == k.buf[..k.pc.job.consumed]
  {
    hide Decode, Encode, EncodeAll;
    EncodeDecode(k.buf);
  }

  /** The exchange of the client that ends it: the slaves are those after the recorded event, and
      what goes to the translation is what the event says came back. */
  lemma ExchangeEnds(bus: seq<Station>, log: seq<Event>, e: Event, slaves: seq<Station>, clean: Option<seq<byte>>)
    requires Legal(e.req) && !e.draw.drop
    requires (slaves, clean) == Scan(BusAfter(bus, log), TcpToRtu(e.req))
    ensures BusAfter(bus, log + [e]) == slaves
    ensures ReplyAfter(bus, log, e) == if clean.Some? then Some(Damage(clean.value, e.draw)) else None
  {
    hide Legal, Scan, TcpToRtu, Exchange, Damage;
    LegalExchange(BusAfter(bus, log), e.req, e.draw);
    LastOf(log, e);
  }

  lemma DropEnds(bus: seq<Station>, log: seq<Event>, e: Event)
    requires e.draw.drop
    ensures BusAfter(bus, log + [e]) == BusAfter(bus, log) && ReplyAfter(bus, log, e) == None
  {
    hide TcpToRtu, Transact;
    LastOf(log, e);
  }

  lemma NoFaultKeepsReply(reply: seq<byte>)
    ensures Damage(reply, NO_FAULT) == reply
  {
  }

  predicate Inv(s: System) {
    LockOk(s) && SlavesOk(s) && ClientsOk(s)
  }

  lemma LocksOfClient(s: System, c: nat)
    requires LockOk(s) && c < |s.clients|
    ensures ClientLocks(s, c)
  {
    hide HoldsInjector, HoldsBus, PossiblePc;
  }

  /** What the client that ends the exchange knows about it. */
  lemma HeldReplyIsClean(s: System, c: nat)
    requires LockOk(s) && SlavesOk(s) && c < |s.clients|
    requires s.clients[c].pc.BusReleased? || s.clients[c].pc.Scanned?
    ensures (s.slaves, s.clients[c].pc.reply) == Scan(BusAfter(s.bus0, s.log), TcpToRtu(s.clients[c].pc.job.req))
    ensures s.clients[c].pc.reply == CleanReply(BusAfter(s.bus0, s.log), s.clients[c].pc.job.req)
  {
    hide BusAfter, Scan, TcpToRtu;
    LocksOfClient(s, c);
  }

  lemma OwnerInExchange(s: System, c: nat)
    requires LockOk(s) && c < |s.clients|
    ensures Owner(s) == Some(c) <==>
      var pc := s.clients[c].pc; pc.InInjector? || pc.BusReleased? || HoldsBus(pc) || (s.faulty && pc.AwaitBus?)
  {
    LocksOfClient(s, c);
  }

  /** A step that leaves slaves, log and owner alone, by a client outside any exchange. */
  lemma OutsideExchange(s: System, c: nat, t: System)
    requires SlavesOk(s) && c < |s.clients| == |t.clients| && t.clients == s.clients[c := t.clients[c]]
    requires t.faulty == s.faulty && t.bus0 == s.bus0 && t.log == s.log && t.slaves == s.slaves
    requires t.injectorLock == s.injectorLock && t.busLock == s.busLock && Owner(s) != Some(c)
    ensures SlavesOk(t)
  {
    hide BusAfter, MidExchange;
  }

  lemma ReadingKeepsSlaves(s: System, c: nat, a: Action)
    requires LockOk(s) && SlavesOk(s) && Enabled(s, c, a) && ReadsRequest(a)
    ensures SlavesOk(Apply(s, c, a))
  {
    hide Decode, Inc64, SlavesOk, LockOk;
    OwnerInExchange(s, c);
    OutsideExchange(s, c, Apply(s, c, a));
  }

  lemma ReplyingKeepsSlaves(s: System, c: nat, a: Action)
    requires LockOk(s) && SlavesOk(s) && Enabled(s, c, a) && SendsReply(a)
    ensures SlavesOk(Apply(s, c, a))
  {
    hide Encode, Answer, Dispose, CountDisposition, SlavesOk, LockOk;
    OwnerInExchange(s, c);
    OutsideExchange(s, c, Apply(s, c, a));
  }

  lemma AcceptKeepsSlaves(s: System, c: nat)
    requires SlavesOk(s) && c == |s.clients|
    ensures SlavesOk(Accepted(s))
  {
    hide BusAfter, MidExchange;
  }

  lemma LockInjectorKeepsSlaves(s: System, c: nat)
    requires LockOk(s) && SlavesOk(s) && Enabled(s, c, LockInjector)
    ensures SlavesOk(InjectorLocked(s, c))
  {
    hide BusAfter, Scan;
    LocksOfClient(s, c);
  }

  lemma DropKeepsSlaves(s: System, c: nat, drop: bool)
    requires LockOk(s) && SlavesOk(s) && Enabled(s, c, DrawDrop(drop))
    ensures SlavesOk(DropDrawn(s, c, drop))
  {
    hide BusAfter, Scan, Exchange;
    LocksOfClient(s, c);
    DropEnds(s.bus0, s.log, Event(c, s.clients[c].pc.job.req, Draw(true, false, 0)));
  }

  lemma LockBusKeepsSlaves(s: System, c: nat)
    requires LockOk(s) && SlavesOk(s) && Enabled(s, c, LockBus)
    ensures SlavesOk(BusLocked(s, c))
  {
    hide BusAfter, Scan, ScanContinues;
    LocksOfClient(s, c);
    ScanStarts(s.slaves, TcpToRtu(s.clients[c].pc.job.req));
  }

  lemma VisitKeepsSlaves(s: System, c: nat)
    requires LockOk(s) && SlavesOk(s) && Enabled(s, c, Visit)
    ensures SlavesOk(Visited(s, c))
  {
    hide BusAfter, Scan, Handle, TcpToRtu;
    LocksOfClient(s, c);
    var Scanning(job, i) := s.clients[c].pc;
    ScanAdvances(s.slaves, i, BusAfter(s.bus0, s.log), TcpToRtu(job.req));
  }

  lemma UnlockBusKeepsSlaves(s: System, c: nat, t: System)
    requires Enabled(s, c, UnlockBus) && Legal(s.clients[c].pc.job.req) && t == BusUnlocked(s, c)
    requires LockOk(s) && SlavesOk(s)
    ensures SlavesOk(t)
  {
    hide BusAfter, Scan, Legal;
    LocksOfClient(s, c);
    var Scanned(job, reply) := s.clients[c].pc;
    ExchangeEnds(s.bus0, s.log, Event(c, job.req, NO_FAULT), s.slaves, reply);
  }

  lemma CorruptKeepsSlaves(s: System, c: nat, corrupt: bool, pick: nat, t: System)
    requires Enabled(s, c, DrawCorrupt(corrupt, pick)) && Legal(s.clients[c].pc.job.req)
    requires t == CorruptionDrawn(s, c, corrupt, pick)
    requires LockOk(s) && SlavesOk(s)
    ensures SlavesOk(t)
  {
    hide BusAfter, Scan, Legal, Damage;
    LocksOfClient(s, c);
    var BusReleased(job, reply) := s.clients[c].pc;
    ExchangeEnds(s.bus0, s.log, Event(c, job.req, Draw(false, corrupt, pick)), s.slaves, reply);
  }

  /** Every step keeps the slaves in agreement with the log. */
  lemma SlavesKept(s: System, c: nat, a: Action)
    requires Inv(s) && Enabled(s, c, a)
    ensures SlavesOk(Apply(s, c, a))
  {
    hide SlavesOk, LockOk, BufferOk, OutputOk, HistoryOk, Received, Decoded, Entered, InjectorLocked, DropDrawn,
         BusLocked, Visited, BusUnlocked, CorruptionDrawn, Translated, Sent, SendBroken, Erased, Accepted, Goto;
    if a.Accept? {
      AcceptKeepsSlaves(s, c);
    } else if ReadsRequest(a) {
      ReadingKeepsSlaves(s, c, a);
    } else if SendsReply(a) {
      ReplyingKeepsSlaves(s, c, a);
    } else {
      JobIsLegal(s.clients[c]);
      match a
      case LockInjector => LockInjectorKeepsSlaves(s, c);
      case DrawDrop(drop) => DropKeepsSlaves(s, c, drop);
      case LockBus => LockBusKeepsSlaves(s, c);
      case Visit => VisitKeepsSlaves(s, c);
      case UnlockBus => UnlockBusKeepsSlaves(s, c, Apply(s, c, a));
      case DrawCorrupt(corrupt, pick) => CorruptKeepsSlaves(s, c, corrupt, pick, Apply(s, c, a));
    }
  }
}
