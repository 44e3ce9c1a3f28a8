/** The sequential meaning of the gateway: whole exchanges, one after the other. */
module History {
  import opened Bits
  import opened Options
  import opened Station
  import opened Bus
  import opened Mbap
  import opened Gateway

  /** One exchange of one client, with the faults that hit it. */
  datatype Event = Event(client: nat, req: MbapFrame, draw: Draw)

  predicate LegalLog(log: seq<Event>) {
    forall e | e in log :: Legal(e.req)
  }

  /** The slaves after the exchanges of `log`. */
  function BusAfter(bus: seq<Station>, log: seq<Event>): seq<Station> {
    if log == [] then bus
    else
      var e := log[|log| - 1];
      Exchange(BusAfter(bus, log[..|log| - 1]), e.req, e.draw).0
  }

  /** What came back from the bus for an event that follows `log`. */
  function ReplyAfter(bus: seq<Station>, log: seq<Event>, e: Event): Option<seq<byte>> {
    Exchange(BusAfter(bus, log), e.req, e.draw).1
  }

  function RequestsOf(c: nat, log: seq<Event>): seq<MbapFrame> {
    if log == [] then []
    else
      var e := log[|log| - 1];
      RequestsOf(c, log[..|log| - 1]) + (if e.client == c then [e.req] else [])
  }

  function AnswersOf(c: nat, bus: seq<Station>, log: seq<Event>): seq<MbapFrame>
    requires LegalLog(log)
  {
    if log == [] then []
    else
      var before, e := log[..|log| - 1], log[|log| - 1];
      assert e in log;
      AnswersOf(c, bus, before)
      + (if e.client == c then [Answer(e.req, ReplyAfter(bus, before, e))] else [])
  }

  /** The number of events of the log that the gateway disposes of in the given way. */
  function DisposedAs(d: Disposition, bus: seq<Station>, log: seq<Event>): nat {
    if log == [] then 0
    else
      var before, e := log[..|log| - 1], log[|log| - 1];
      DisposedAs(d, bus, before)
      + (if Dispose(ReplyAfter(bus, before, e), e.req.transactionId) == d then 1 else 0)
  }

  function Drops(log: seq<Event>): nat {
    if log == [] then 0
    else Drops(log[..|log| - 1]) + (if log[|log| - 1].draw.drop then 1 else 0)
  }

  /** Exchanges that ended in a damaged reply. */
  function Corruptions(bus: seq<Station>, log: seq<Event>): nat {
    if log == [] then 0
    else
      var before, e := log[..|log| - 1], log[|log| - 1];
      Corruptions(bus, before) + (if Corrupting(BusAfter(bus, before), e.req, e.draw) then 1 else 0)
  }

  /** Exchanges that were not dropped and that no slave answered. */
  function Unanswered(bus: seq<Station>, log: seq<Event>): nat {
    if log == [] then 0
    else
      var before, e := log[..|log| - 1], log[|log| - 1];
      Unanswered(bus, before)
      + (if !e.draw.drop && CleanReply(BusAfter(bus, before), e.req).None? then 1 else 0)
  }

  lemma LastOf(log: seq<Event>, e: Event)
    ensures (log + [e])[..|log|] == log && (log + [e])[|log|] == e
    ensures LegalLog(log + [e]) <==> LegalLog(log) && Legal(e.req)
  {
    hide Legal;
    assert e in log + [e];
    assert forall f | f in log :: f in log + [e];
  }

  lemma OneMoreEvent(c: nat, bus: seq<Station>, log: seq<Event>, e: Event)
    requires LegalLog(log) && Legal(e.req)
    ensures LegalLog(log + [e])
    ensures RequestsOf(c, log + [e]) == RequestsOf(c, log) + (if e.client == c then [e.req] else [])
    ensures AnswersOf(c, bus, log + [e])
         == AnswersOf(c, bus, log) + (if e.client == c then [Answer(e.req, ReplyAfter(bus, log, e))] else [])
  {
    hide Legal, Answer, ReplyAfter;
    LastOf(log, e);
  }

  // ---- routing ----

  /** `a` answers `q`: the ids of the request, its function code up to bit 7, a legal frame, and
      never exception 10. */
  predicate Matches(q: MbapFrame, a: MbapFrame) {
    && a.transactionId == q.transactionId && a.unitId == q.unitId
    && Legal(q) && Legal(a)
    && (a.pdu[0] == q.pdu[0] || a.pdu[0] == WithHighBit(q.pdu[0]))
    && !Excepts(a, 10)
  }

  /** Each client gets one answer for each of its requests, in order, and it is the answer to that
      request and to no other. */
  lemma {:induction false} AnswersMatchRequests(c: nat, bus: seq<Station>, log: seq<Event>)
    requires LegalLog(log)
    ensures |AnswersOf(c, bus, log)| == |RequestsOf(c, log)|
    ensures forall k | 0 <= k < |RequestsOf(c, log)| :: Matches(RequestsOf(c, log)[k], AnswersOf(c, bus, log)[k])
    decreases |log|
  {
    hide Exchange, Dispose, WithHighBit, BusAfter, Excepts;
    if log != [] {
      var before, e := log[..|log| - 1], log[|log| - 1];
      assert e in log;
      AnswersMatchRequests(c, bus, before);
      ResponseMatchesRequest(BusAfter(bus, before), e.req, e.draw);
      PathUnavailableNever(BusAfter(bus, before), e.req, e.draw);
      assert Matches(e.req, Answer(e.req, ReplyAfter(bus, before, e)));
    }
  }

  /** Where event number `j` finds its answer: at the position of its request among its client's. */
  lemma {:induction false} AnswerOfEvent(bus: seq<Station>, log: seq<Event>, j: nat)
    requires LegalLog(log) && j < |log|
    ensures LegalLog(log[..j]) && Legal(log[j].req)
    ensures var c, i := log[j].client, |RequestsOf(log[j].client, log[..j])|;
      && i < |RequestsOf(c, log)| == |AnswersOf(c, bus, log)|
      && RequestsOf(c, log)[i] == log[j].req
      && AnswersOf(c, bus, log)[i] == Answer(log[j].req, ReplyAfter(bus, log[..j], log[j]))
    decreases |log|
  {
    hide Legal, Answer, ReplyAfter, Matches;
    var before, c := log[..|log| - 1], log[j].client;
    LegalPrefix(log, j);
    LegalPrefix(log, |log| - 1);
    AnswersMatchRequests(c, bus, before);
    AnswersMatchRequests(c, bus, log);
    if j < |before| {
      assert before[..j] == log[..j];
      AnswerOfEvent(bus, before, j);
    }
  }

  /** What a client had exchanged stays when the log grows. */
  lemma {:induction false} RequestsGrow(c: nat, log: seq<Event>, j: nat)
    requires j <= |log|
    ensures RequestsOf(c, log[..j]) <= RequestsOf(c, log)
    decreases |log|
  {
    if j == |log| {
      assert log[..j] == log;
    } else {
      var before := log[..|log| - 1];
      assert before[..j] == log[..j];
      RequestsGrow(c, before, j);
    }
  }

  /** An event takes a place among the requests of its client. */
  lemma EventTakesPlace(log: seq<Event>, j: nat)
    requires j < |log|
    ensures |RequestsOf(log[j].client, log[..j])| < |RequestsOf(log[j].client, log)|
  {
    hide RequestsOf;
    var c := log[j].client;
    RequestsGrow(c, log, j + 1);
    assert log[..j + 1] == log[..j] + [log[j]];
    OneMoreRequest(c, log[..j], log[j]);
  }

  /** An event lies in the first `n` exactly when its place does. */
  lemma PlaceDecides(log: seq<Event>, j: nat, n: nat)
    requires j < |log| && n <= |log|
    ensures |RequestsOf(log[j].client, log[..j])| < |RequestsOf(log[j].client, log[..n])| <==> j < n
  {
    hide RequestsOf;
    if j < n {
      EventTakesPlace(log[..n], j);
      assert log[..n][..j] == log[..j];
    } else {
      RequestsGrow(log[j].client, log[..j], n);
      assert log[..j][..n] == log[..n];
    }
  }

  lemma OneMoreRequest(c: nat, log: seq<Event>, e: Event)
    ensures RequestsOf(c, log + [e]) == RequestsOf(c, log) + (if e.client == c then [e.req] else [])
  {
    assert (log + [e])[..|log|] == log;
  }

  lemma LegalPrefix(log: seq<Event>, j: nat)
    requires LegalLog(log) && j <= |log|
    ensures LegalLog(log[..j]) && (j < |log| ==> Legal(log[j].req))
  {
    hide Legal;
    if j < |log| {
      assert log[j] in log;
    }
  }

  // ---- faults ----

  /** Over any log: each event is disposed of in exactly one way; CRC failures are exactly the
      corruptions; timeouts are the drops and the exchanges nobody answered. */
  lemma {:induction false} FaultAccounting(bus: seq<Station>, log: seq<Event>)
    requires LegalLog(log)
    ensures DisposedAs(Responded, bus, log) + DisposedAs(TimedOut, bus, log) + DisposedAs(CrcFailed, bus, log) == |log|
    ensures DisposedAs(CrcFailed, bus, log) == Corruptions(bus, log)
    ensures DisposedAs(TimedOut, bus, log) == Drops(log) + Unanswered(bus, log)
    decreases |log|
  {
    hide Exchange, Dispose, CleanReply, BusAfter, Legal, Corrupting;
    if log != [] {
      var before, e := log[..|log| - 1], log[|log| - 1];
      assert e in log;
      FaultAccounting(bus, before);
      FaultsBecomeExceptions(BusAfter(bus, before), e.req, e.draw);
      CorruptingIff(BusAfter(bus, before), e.req, e.draw);
    }
  }

  /** The counters after the exchanges of `log`. */
  function LedgerAfter(l: Ledger, bus: seq<Station>, log: seq<Event>): Ledger {
    if log == [] then l
    else
      var before, e := log[..|log| - 1], log[|log| - 1];
      RequestCounted(LedgerAfter(l, bus, before), BusAfter(bus, before), e.req, e.draw)
  }

  /** What the counters mean: from zero, they are the numbers of exchanges and of each of their
      fates, up to wrapping. */
  lemma {:induction false} LedgerCounts(bus: seq<Station>, log: seq<Event>)
    requires LegalLog(log)
    ensures var l := LedgerAfter(Ledger(Stats(0, 0, 0, 0, 0), 0, 0), bus, log);
      && Counts(l.stats.requests, |log|)
      && Counts(l.stats.responses, DisposedAs(Responded, bus, log))
      && Counts(l.stats.timeouts, DisposedAs(TimedOut, bus, log))
      && Counts(l.stats.crcFailures, DisposedAs(CrcFailed, bus, log))
      && Counts(l.dropped, Drops(log)) && Counts(l.corrupted, Corruptions(bus, log))
      && l.stats.malformed == 0
    decreases |log|
  {
    hide Exchange, Dispose, BusAfter, Legal, Corrupting, Counts, Inc64;
    var zero := Ledger(Stats(0, 0, 0, 0, 0), 0, 0);
    if log == [] {
      NothingCounted();
    } else {
      var before, e := log[..|log| - 1], log[|log| - 1];
      assert e in log;
      LedgerCounts(bus, before);
      var l := LedgerAfter(zero, bus, before);
      OneMore(l.stats.requests, |before|);
      OneMore(l.stats.responses, DisposedAs(Responded, bus, before));
      OneMore(l.stats.timeouts, DisposedAs(TimedOut, bus, before));
      OneMore(l.stats.crcFailures, DisposedAs(CrcFailed, bus, before));
      OneMore(l.dropped, Drops(before));
      OneMore(l.corrupted, Corruptions(bus, before));
    }
  }

  lemma NothingCounted()
    ensures Counts(0, 0)
  {
  }
}
