/** What the statistics say in every reachable state of the concurrent server. */
module ServerStats {
  import opened Bits
  import opened Options
  import opened Station
  import opened Bus
  import opened Mbap
  import opened Gateway
  import opened History
  import opened Registers
  import opened Server
  import opened ServerLocks
  import opened ServerInvariant
  import opened ServerClients

  /** Ways of counting clients by their program counter. */
  datatype Census = Exchanging | Untranslated(d: Disposition) | InFlight | Broken

  predicate InExchange(pc: Pc) {
    pc.AwaitInjector? || pc.InInjector? || pc.AwaitBus? || pc.Scanning? || pc.Scanned? || pc.BusReleased?
  }

  predicate CountedBy(y: Census, pc: Pc) {
    match y
    case Exchanging => InExchange(pc)
    case Untranslated(d) => pc.Translating? && Dispose(pc.reply, pc.job.req.transactionId) == d
    case InFlight => InExchange(pc) || pc.Translating?
    case Broken => pc.Closed? && pc.why.FramingError?
  }

  function One(b: bool): nat {
    if b then 1 else 0
  }

  function HowMany(y: Census, clients: seq<Client>): nat {
    if clients == [] then 0
    else HowMany(y, clients[..|clients| - 1]) + One(CountedBy(y, clients[|clients| - 1].pc))
  }

  /** Every counter against the log and the clients. */
  predicate StatsOk(s: System) {
    && Counts(s.stats.requests, |s.log| + HowMany(Exchanging, s.clients))
    && Counts(s.stats.responses, Accounted(s, Responded))
    && Counts(s.stats.timeouts, Accounted(s, TimedOut))
    && Counts(s.stats.crcFailures, Accounted(s, CrcFailed))
    && Counts(s.stats.malformed, HowMany(Broken, s.clients))
    && Counts(s.dropped, Drops(s.log))
    && Counts(s.corrupted, Corruptions(s.bus0, s.log))
  }

  /** Exchanges disposed of in the given way whose thread has got to counting them. */
  function Accounted(s: System, d: Disposition): int {
    DisposedAs(d, s.bus0, s.log) - HowMany(Untranslated(d), s.clients)
  }

  lemma {:induction false} NumberOfUpdate(y: Census, clients: seq<Client>, c: nat, k: Client)
    requires c < |clients|
    ensures HowMany(y, clients[c := k])
         == HowMany(y, clients) - One(CountedBy(y, clients[c].pc)) + One(CountedBy(y, k.pc))
    decreases |clients|
  {
    hide CountedBy, One;
    var n := |clients| - 1;
    if c < n {
      NumberOfUpdate(y, clients[..n], c, k);
      assert clients[c := k][..n] == clients[..n][c := k];
    } else {
      assert clients[c := k][..n] == clients[..n];
    }
  }

  lemma NumberOfAppend(y: Census, clients: seq<Client>, k: Client)
    ensures HowMany(y, clients + [k]) == HowMany(y, clients) + One(CountedBy(y, k.pc))
  {
    hide CountedBy, One;
    assert (clients + [k])[..|clients|] == clients;
  }

  /** A client moved between two points that are counted alike. */
  lemma SameCensus(s: System, c: nat, t: System)
    requires StatsOk(s) && c < |s.clients| == |t.clients| && t.clients == s.clients[c := t.clients[c]]
    requires t.bus0 == s.bus0 && t.log == s.log && t.stats == s.stats
    requires t.dropped == s.dropped && t.corrupted == s.corrupted
    requires InExchange(t.clients[c].pc) <==> InExchange(s.clients[c].pc)
    requires !s.clients[c].pc.Translating? && !t.clients[c].pc.Translating?
    requires CountedBy(Broken, t.clients[c].pc) <==> CountedBy(Broken, s.clients[c].pc)
    ensures StatsOk(t)
  {
    hide Counts, Dispose, HowMany, DisposedAs, Drops, Corruptions;
    var k := t.clients[c];
    NumberOfUpdate(Exchanging, s.clients, c, k);
    NumberOfUpdate(Untranslated(Responded), s.clients, c, k);
    NumberOfUpdate(Untranslated(TimedOut), s.clients, c, k);
    NumberOfUpdate(Untranslated(CrcFailed), s.clients, c, k);
    NumberOfUpdate(Broken, s.clients, c, k);
  }

  lemma AcceptKeepsStats(s: System)
    requires StatsOk(s)
    ensures StatsOk(Accepted(s))
  {
    hide Counts, Dispose, HowMany, DisposedAs, Drops, Corruptions;
    NumberOfAppend(Exchanging, s.clients, Fresh());
    NumberOfAppend(Untranslated(Responded), s.clients, Fresh());
    NumberOfAppend(Untranslated(TimedOut), s.clients, Fresh());
    NumberOfAppend(Untranslated(CrcFailed), s.clients, Fresh());
    NumberOfAppend(Broken, s.clients, Fresh());
  }

  /** A framing error is counted once, by the thread that closes its connection for it. */
  lemma BreakKeepsStats(s: System, c: nat)
    requires StatsOk(s) && c < |s.clients| && s.clients[c].pc.Draining?
    ensures StatsOk(Goto(s, c, Closed(FramingError)).(stats := s.stats.(malformed := Inc64(s.stats.malformed))))
  {
    hide Counts, Dispose, HowMany, DisposedAs, Drops, Corruptions, Inc64;
    var k := s.clients[c].(pc := Closed(FramingError));
    NumberOfUpdate(Exchanging, s.clients, c, k);
    NumberOfUpdate(Untranslated(Responded), s.clients, c, k);
    NumberOfUpdate(Untranslated(TimedOut), s.clients, c, k);
    NumberOfUpdate(Untranslated(CrcFailed), s.clients, c, k);
    NumberOfUpdate(Broken, s.clients, c, k);
    OneMore(s.stats.malformed, HowMany(Broken, s.clients));
  }

  lemma DecodeKeepsStats(s: System, c: nat)
    requires StatsOk(s) && c < |s.clients| && s.clients[c].pc.Draining?
    ensures StatsOk(Decoded(s, c))
  {
    hide StatsOk, Decode, Inc64;
    if Decode(s.clients[c].buf).Frame? || Decode(s.clients[c].buf) == NoFrame(NeedMoreData) {
      SameCensus(s, c, Decoded(s, c));
    } else {
      BreakKeepsStats(s, c);
    }
  }

  lemma EnterKeepsStats(s: System, c: nat)
    requires StatsOk(s) && c < |s.clients| && s.clients[c].pc.Entering?
    ensures StatsOk(Entered(s, c))
  {
    hide Counts, Dispose, HowMany, DisposedAs, Drops, Corruptions, Inc64;
    var k := Entered(s, c).clients[c];
    NumberOfUpdate(Exchanging, s.clients, c, k);
    NumberOfUpdate(Untranslated(Responded), s.clients, c, k);
    NumberOfUpdate(Untranslated(TimedOut), s.clients, c, k);
    NumberOfUpdate(Untranslated(CrcFailed), s.clients, c, k);
    NumberOfUpdate(Broken, s.clients, c, k);
    OneMore(s.stats.requests, |s.log| + HowMany(Exchanging, s.clients));
  }

  /** The thread counts the outcome when it translates it. */
  lemma TranslateKeepsStats(s: System, c: nat)
    requires StatsOk(s) && Enabled(s, c, Translate)
    ensures StatsOk(Translated(s, c))
  {
    hide Counts, Dispose, HowMany, DisposedAs, Drops, Corruptions, Inc64, Encode, Answer;
    var k := Translated(s, c).clients[c];
    NumberOfUpdate(Exchanging, s.clients, c, k);
    NumberOfUpdate(Untranslated(Responded), s.clients, c, k);
    NumberOfUpdate(Untranslated(TimedOut), s.clients, c, k);
    NumberOfUpdate(Untranslated(CrcFailed), s.clients, c, k);
    NumberOfUpdate(Broken, s.clients, c, k);
    OneMore(s.stats.responses, Accounted(s, Responded));
    OneMore(s.stats.timeouts, Accounted(s, TimedOut));
    OneMore(s.stats.crcFailures, Accounted(s, CrcFailed));
  }

  lemma LogOneMore(bus: seq<Station>, log: seq<Event>, e: Event, d: Disposition)
    ensures DisposedAs(d, bus, log + [e])
         == DisposedAs(d, bus, log) + One(Dispose(ReplyAfter(bus, log, e), e.req.transactionId) == d)
    ensures Drops(log + [e]) == Drops(log) + One(e.draw.drop)
    ensures Corruptions(bus, log + [e]) == Corruptions(bus, log) + One(Corrupting(BusAfter(bus, log), e.req, e.draw))
  {
    hide ReplyAfter, Dispose, Corrupting, BusAfter;
    LastOf(log, e);
  }

  /** The end of an exchange: one event more in the log, one client fewer inside an exchange. */
  lemma FinishKeepsStats(s: System, c: nat, job: Job, draw: Draw, reply: Option<seq<byte>>, t: System)
    requires StatsOk(s) && c < |s.clients| && InExchange(s.clients[c].pc)
    requires reply == ReplyAfter(s.bus0, s.log, Event(c, job.req, draw))
    requires var f := Finish(s, c, job, draw, reply);
      t.clients == f.clients && t.log == f.log && t.bus0 == s.bus0 && t.stats == s.stats
    requires t.dropped == if draw.drop then Inc64(s.dropped) else s.dropped
    requires t.corrupted
          == if Corrupting(BusAfter(s.bus0, s.log), job.req, draw) then Inc64(s.corrupted) else s.corrupted
    ensures StatsOk(t)
  {
    hide Counts, Dispose, HowMany, DisposedAs, Drops, Corruptions, Inc64, ReplyAfter, Corrupting, BusAfter;
    var k := t.clients[c];
    NumberOfUpdate(Exchanging, s.clients, c, k);
    NumberOfUpdate(Untranslated(Responded), s.clients, c, k);
    NumberOfUpdate(Untranslated(TimedOut), s.clients, c, k);
    NumberOfUpdate(Untranslated(CrcFailed), s.clients, c, k);
    NumberOfUpdate(Broken, s.clients, c, k);
    var e := Event(c, job.req, draw);
    LogOneMore(s.bus0, s.log, e, Responded);
    LogOneMore(s.bus0, s.log, e, TimedOut);
    LogOneMore(s.bus0, s.log, e, CrcFailed);
    OneMore(s.dropped, Drops(s.log));
    OneMore(s.corrupted, Corruptions(s.bus0, s.log));
  }

  lemma DropKeepsStats(s: System, c: nat, drop: bool)
    requires StatsOk(s) && Enabled(s, c, DrawDrop(drop))
    ensures StatsOk(DropDrawn(s, c, drop))
  {
    hide StatsOk, Inc64, BusAfter, ReplyAfter, Transact;
    var job := s.clients[c].pc.job;
    var draw := Draw(true, false, 0);
    if drop {
      DropEnds(s.bus0, s.log, Event(c, job.req, draw));
      FinishKeepsStats(s, c, job, draw, None, DropDrawn(s, c, drop));
    } else {
      SameCensus(s, c, DropDrawn(s, c, drop));
    }
  }

  lemma UnlockBusKeepsStats(s: System, c: nat, t: System)
    requires Enabled(s, c, UnlockBus) && Legal(s.clients[c].pc.job.req) && t == BusUnlocked(s, c)
    requires LockOk(s) && SlavesOk(s) && StatsOk(s)
    ensures StatsOk(t)
  {
    hide StatsOk, LockOk, SlavesOk, BusAfter, Scan, Legal, Damage, TcpToRtu, ReplyAfter, CleanReply, Corrupting;
    var Scanned(job, reply) := s.clients[c].pc;
    if s.faulty {
      SameCensus(s, c, BusUnlocked(s, c));
    } else {
      HeldReplyIsClean(s, c);
      ExchangeEnds(s.bus0, s.log, Event(c, job.req, NO_FAULT), s.slaves, reply);
      if reply.Some? {
        NoFaultKeepsReply(reply.value);
      }
      CorruptingIff(BusAfter(s.bus0, s.log), job.req, NO_FAULT);
      FinishKeepsStats(s, c, job, NO_FAULT, reply, BusUnlocked(s, c));
    }
  }

  lemma CorruptKeepsStats(s: System, c: nat, corrupt: bool, pick: nat, t: System)
    requires Enabled(s, c, DrawCorrupt(corrupt, pick)) && Legal(s.clients[c].pc.job.req)
    requires t == CorruptionDrawn(s, c, corrupt, pick)
    requires LockOk(s) && SlavesOk(s) && StatsOk(s)
    ensures StatsOk(t)
  {
    hide StatsOk, LockOk, SlavesOk, BusAfter, Scan, Legal, Damage, TcpToRtu, ReplyAfter, CleanReply, Inc64,
         Corrupting;
    var BusReleased(job, reply) := s.clients[c].pc;
    var draw := Draw(false, corrupt, pick);
    HeldReplyIsClean(s, c);
    ExchangeEnds(s.bus0, s.log, Event(c, job.req, draw), s.slaves, reply);
    CorruptingIff(BusAfter(s.bus0, s.log), job.req, draw);
    var got := if reply.Some? then Some(Damage(reply.value, draw)) else None;
    FinishKeepsStats(s, c, job, draw, got, CorruptionDrawn(s, c, corrupt, pick));
  }

  lemma VisitKeepsStats(s: System, c: nat)
    requires StatsOk(s) && Enabled(s, c, Visit)
    ensures StatsOk(Visited(s, c))
  {
    hide StatsOk, Handle, TcpToRtu;
    SameCensus(s, c, Visited(s, c));
  }

  /** Steps of one client that count nothing. */
  lemma QuietStep(s: System, c: nat, a: Action)
    requires StatsOk(s) && Enabled(s, c, a)
    requires a.Receive? || a.HangUp? || a.Send? || a.SendFails? || a.Erase? || a.LockInjector? || a.LockBus?
    ensures StatsOk(Apply(s, c, a))
  {
    hide StatsOk, Decoded, Entered, DropDrawn, Visited, BusUnlocked, CorruptionDrawn, Translated;
    SameCensus(s, c, Apply(s, c, a));
  }

  /** Every step keeps the statistics in agreement with the log and the clients. */
  lemma StatsKept(s: System, c: nat, a: Action)
    requires Inv(s) && StatsOk(s) && Enabled(s, c, a)
    ensures StatsOk(Apply(s, c, a))
  {
    hide SlavesOk, LockOk, BufferOk, OutputOk, HistoryOk, StatsOk, Received, Decoded, Entered, DropDrawn, Visited,
         BusUnlocked, CorruptionDrawn, Translated, Sent, SendBroken, Erased, Accepted;
    match a
    case Accept => AcceptKeepsStats(s);
    case DecodeNext => DecodeKeepsStats(s, c);
    case Enter => EnterKeepsStats(s, c);
    case DrawDrop(drop) => DropKeepsStats(s, c, drop);
    case Visit => VisitKeepsStats(s, c);
    case UnlockBus => JobIsLegal(s.clients[c]);
      UnlockBusKeepsStats(s, c, Apply(s, c, a));
    case DrawCorrupt(corrupt, pick) => JobIsLegal(s.clients[c]);
      CorruptKeepsStats(s, c, corrupt, pick, Apply(s, c, a));
    case Translate => TranslateKeepsStats(s, c);
    case _ => QuietStep(s, c, a);
  }

  lemma {:induction false} RunKeepsStats(faulty: bool, ids: seq<byte>, regs: u16, steps: seq<Step>)
    requires RunFrom(Start(faulty, ids, regs), steps).Some?
    ensures StatsOk(RunFrom(Start(faulty, ids, regs), steps).value)
    decreases |steps|
  {
    hide Inv, Apply, Enabled, FreshBus;
    if steps != [] {
      hide StatsOk;
      var step := steps[|steps| - 1];
      RunKeepsInv(faulty, ids, regs, steps[..|steps| - 1]);
      RunKeepsStats(faulty, ids, regs, steps[..|steps| - 1]);
      StatsKept(RunFrom(Start(faulty, ids, regs), steps[..|steps| - 1]).value, step.client, step.action);
    }
  }

  lemma ReachableStats(s: System, faulty: bool, ids: seq<byte>, regs: u16)
    requires Reachable(s, faulty, ids, regs)
    ensures StatsOk(s)
  {
    hide StatsOk, Start, FreshBus;
    var steps: seq<Step> :| RunFrom(Start(faulty, ids, regs), steps) == Some(s);
    RunKeepsStats(faulty, ids, regs, steps);
  }

  // ---- theorems ----

  lemma InFlightSplitsOne(pc: Pc)
    ensures One(CountedBy(InFlight, pc))
         == One(CountedBy(Exchanging, pc)) + One(CountedBy(Untranslated(Responded), pc))
            + One(CountedBy(Untranslated(TimedOut), pc)) + One(CountedBy(Untranslated(CrcFailed), pc))
  {
    hide RtuToTcp;
  }

  lemma {:induction false} InFlightSplits(clients: seq<Client>)
    ensures HowMany(InFlight, clients)
         == HowMany(Exchanging, clients) + HowMany(Untranslated(Responded), clients)
            + HowMany(Untranslated(TimedOut), clients) + HowMany(Untranslated(CrcFailed), clients)
    decreases |clients|
  {
    hide CountedBy, One;
    if clients != [] {
      InFlightSplits(clients[..|clients| - 1]);
      InFlightSplitsOne(clients[|clients| - 1].pc);
    }
  }

  /** Counters that have counted to `x`, `y` and `z` sum, up to wrapping, to what is left of `n`. */
  lemma CountsAddUp(a: u64, b: u64, c: u64, r: u64, x: int, y: int, z: int, flying: nat)
    requires Counts(a, x) && Counts(b, y) && Counts(c, z) && Counts(r, x + y + z + flying)
    ensures Counts(r, a + b + c + flying)
  {
  }

  /** In every reachable state each request is answered, timed out, failed its CRC or is in flight,
      and `malformed` is the number of connections closed for a framing error. */
  lemma RequestConservation(s: System, faulty: bool, ids: seq<byte>, regs: u16)
    requires Reachable(s, faulty, ids, regs)
    ensures Counts(s.stats.requests,
                   s.stats.responses + s.stats.timeouts + s.stats.crcFailures + HowMany(InFlight, s.clients))
    ensures Counts(s.stats.malformed, HowMany(Broken, s.clients))
  {
    hide Reachable, HowMany, DisposedAs, Drops, Corruptions, LockOk, SlavesOk, Unanswered, ClientOk, Counts, FreshBus;
    ReachableInv(s, faulty, ids, regs);
    ReachableStats(s, faulty, ids, regs);
    InFlightSplits(s.clients);
    FaultAccounting(s.bus0, s.log);
    CountsAddUp(s.stats.responses, s.stats.timeouts, s.stats.crcFailures, s.stats.requests,
                Accounted(s, Responded), Accounted(s, TimedOut), Accounted(s, CrcFailed), HowMany(InFlight, s.clients));
  }

  /** Nobody is between taking a request to the bus and counting its outcome. */
  predicate Quiescent(s: System) {
    forall c | 0 <= c < |s.clients| :: !CountedBy(InFlight, s.clients[c].pc)
  }

  lemma {:induction false} NobodyCounted(y: Census, clients: seq<Client>)
    requires forall c | 0 <= c < |clients| :: !CountedBy(y, clients[c].pc)
    ensures HowMany(y, clients) == 0
    decreases |clients|
  {
    hide CountedBy;
    if clients != [] {
      NobodyCounted(y, clients[..|clients| - 1]);
    }
  }

  lemma SameCount(a: u64, b: u64, n: int)
    requires Counts(a, n) && Counts(b, n)
    ensures a == b
  {
  }

  lemma CountsFrom(a: u64, b: u64, x: int, n: nat)
    requires Counts(a, x + n) && Counts(b, x)
    ensures Counts(a, b + n)
  {
  }

  /** When nothing is in flight, CRC failures are exactly the corruptions, and timeouts are the
      drops and the exchanges that no slave answered. */
  lemma FaultsAreCounted(s: System, faulty: bool, ids: seq<byte>, regs: u16)
    requires Reachable(s, faulty, ids, regs) && Quiescent(s)
    ensures s.stats.crcFailures == s.corrupted
    ensures Counts(s.stats.timeouts, s.dropped + Unanswered(s.bus0, s.log))
  {
    hide Reachable, CountedBy, HowMany, DisposedAs, Drops, Corruptions, LockOk, SlavesOk, Unanswered, ClientOk,
         FreshBus, Counts;
    ReachableInv(s, faulty, ids, regs);
    ReachableStats(s, faulty, ids, regs);
    NobodyCounted(InFlight, s.clients);
    InFlightSplits(s.clients);
    FaultAccounting(s.bus0, s.log);
    SameCount(s.stats.crcFailures, s.corrupted, Corruptions(s.bus0, s.log));
    CountsFrom(s.stats.timeouts, s.dropped, Drops(s.log), Unanswered(s.bus0, s.log));
  }

  lemma CountsAlikeIff(a: u64, b: u64, n: nat)
    requires Counts(a, b + n)
    ensures a == b <==> n % 0x1_0000_0000_0000_0000 == 0
  {
  }

  /** What the repository's own test checks, and exactly when it holds: with nothing in flight,
      gateway exceptions are the injected faults iff the unanswered exchanges are a multiple of 2^64.
      For runs shorter than that: iff every exchange was dropped or asked what the bus answers. */
  lemma ExceptionsAreInjectedFaults(s: System, faulty: bool, ids: seq<byte>, regs: u16)
    requires Reachable(s, faulty, ids, regs) && Quiescent(s)
    ensures s.stats.timeouts + s.stats.crcFailures == s.dropped + s.corrupted
        <==> Unanswered(FreshBus(ids, regs), s.log) % 0x1_0000_0000_0000_0000 == 0
    ensures |s.log| < 0x1_0000_0000_0000_0000 ==>
      (s.stats.timeouts + s.stats.crcFailures == s.dropped + s.corrupted
       <==> forall e | e in s.log :: e.draw.drop || Answerable(e.req, ids))
    ensures (forall e | e in s.log :: e.draw.drop || Answerable(e.req, ids)) ==>
      && s.stats.crcFailures == s.corrupted && s.stats.timeouts == s.dropped
      && Counts(s.stats.requests, s.stats.responses + s.dropped + s.corrupted)
  {
    hide Reachable, HowMany, LockOk, SlavesOk, ClientOk, LegalLog, CountedBy, Answerable, FreshBus, Counts, Unanswered,
         Drops, Corruptions;
    ReachableInv(s, faulty, ids, regs);
    FaultsAreCounted(s, faulty, ids, regs);
    RequestConservation(s, faulty, ids, regs);
    NobodyCounted(InFlight, s.clients);
    UnansweredIff(ids, regs, s.log);
    FaultsAreEvents(s.bus0, s.log);
    CountsAlikeIff(s.stats.timeouts, s.dropped, Unanswered(s.bus0, s.log));
  }
}
