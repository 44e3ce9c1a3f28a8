/** What holds in every reachable state of the concurrent server, for any number of clients, any
    interleaving, any segmentation of their bytes, any partial sends and any faults. */
module ServerTheorems {
  import opened Bits
  import opened Options
  import opened Station
  import opened Bus
  import opened Mbap
  import opened MbapWire
  import opened Gateway
  import opened History
  import opened Registers
  import opened Server
  import opened ServerLocks
  import opened ServerInvariant
  import opened ServerClients

  lemma ReachableClient(s: System, faulty: bool, ids: seq<byte>, regs: u16, c: nat)
    requires Reachable(s, faulty, ids, regs) && c < |s.clients|
    ensures LegalLog(s.log) && ClientOk(c, s.clients[c], FreshBus(ids, regs), s.log)
  {
    hide Reachable, LockOk, SlavesOk, ClientOk, LegalLog, FreshBus;
    ReachableInv(s, faulty, ids, regs);
  }

  // ---- the stream assembler ----

  /** The parse of everything a client sent: the frames handled, then what the buffer holds. */
  lemma InputParse(k: Client)
    requires BufferOk(k)
    ensures ParseAll(k.input) == PrependAll(k.handled, ParseAll(k.buf))
  {
    ParseEncoded(k.handled, k.buf);
  }

  /** A thread that has stopped reading for good, or is about to read more. */
  predicate StoppedReading(pc: Pc) {
    pc.Receiving? || (pc.Closed? && !pc.why.SendFailed?)
  }

  /** Segmentation independence. However the bytes of a client were cut into chunks, the server has
      handled the frames of a batch parse of all of them: all of those frames, with the same bytes left
      over and for the same reason, whenever its thread is waiting for more or has closed the
      connection on what it read. A framing error is final whatever `more` might have followed. */
  lemma SegmentationIndependence(s: System, faulty: bool, ids: seq<byte>, regs: u16, c: nat, more: seq<byte>)
    requires Reachable(s, faulty, ids, regs) && c < |s.clients|
    ensures var k, p := s.clients[c], ParseAll(s.clients[c].input);
      && k.handled <= p.frames
      && (StoppedReading(k.pc) ==> p.frames == k.handled && p.rest == k.buf)
      && (k.pc.Receiving? || (k.pc.Closed? && k.pc.why.PeerGone?) ==> p.stop == NeedMoreData)
      && (k.pc.Closed? && k.pc.why.FramingError? ==>
          p.stop != NeedMoreData && ParseAll(k.input + more) == Parsed(k.handled, k.buf + more, p.stop))
  {
    hide Reachable, ParseAll, Decode, OutputOk, HistoryOk, EncodeAll, LegalLog, AllLegal;
    ReachableClient(s, faulty, ids, regs, c);
    var k := s.clients[c];
    InputParse(k);
    ParseStep(k.buf);
    ParseExtends(k.input, more);
  }

  /** The buffer is bounded in every run, and short whenever the drain loop has ended. */
  lemma BufferIsBounded(s: System, faulty: bool, ids: seq<byte>, regs: u16, c: nat)
    requires Reachable(s, faulty, ids, regs) && c < |s.clients|
    ensures |s.clients[c].buf| <= 1283
    ensures s.clients[c].pc.Receiving? ==> |s.clients[c].buf| <= 259
  {
    hide Reachable, Decode, OutputOk, HistoryOk, EncodeAll, LegalLog, AllLegal;
    ReachableClient(s, faulty, ids, regs, c);
    if s.clients[c].pc.Receiving? {
      IncompleteIsShort(s.clients[c].buf);
    }
  }

  // ---- routing ----

  /** The requests a client has had exchanged are the first frames of its stream. */
  lemma RequestsBeginStream(c: nat, k: Client, bus: seq<Station>, log: seq<Event>)
    requires LegalLog(log) && ClientOk(c, k, bus, log)
    ensures RequestsOf(c, log) <= ParseAll(k.input).frames
  {
    hide ParseAll, Decode, OutputOk, EncodeAll, RequestsOf, AnswersOf, LegalLog, AllLegal;
    InputParse(k);
    ParseStep(k.buf);
  }

  /** The routing invariant: in every reachable state the k-th response made for a client is the
      answer, with the transaction id and the unit id, of the k-th frame that client sent. */
  lemma RoutingInvariant(s: System, faulty: bool, ids: seq<byte>, regs: u16, c: nat)
    requires Reachable(s, faulty, ids, regs) && c < |s.clients|
    ensures var frames, responses := ParseAll(s.clients[c].input).frames, s.clients[c].responses;
      |responses| <= |frames| && forall k | 0 <= k < |responses| :: Matches(frames[k], responses[k])
  {
    hide Reachable, ParseAll, BufferOk, OutputOk, RequestsOf, AnswersOf, LegalLog, Matches, FreshBus;
    ReachableClient(s, faulty, ids, regs, c);
    RequestsBeginStream(c, s.clients[c], FreshBus(ids, regs), s.log);
    AnswersMatchRequests(c, FreshBus(ids, regs), s.log);
  }

  // ---- malformed requests ----

  /** Exception 10 never reaches a master, in any run. */
  lemma PathUnavailableIsNeverSent(s: System, faulty: bool, ids: seq<byte>, regs: u16, c: nat)
    requires Reachable(s, faulty, ids, regs) && c < |s.clients|
    ensures forall r | r in s.clients[c].responses :: !Excepts(r, 10)
  {
    hide Reachable, ParseAll, Excepts, Legal, WithHighBit;
    RoutingInvariant(s, faulty, ids, regs, c);
    var frames, responses := ParseAll(s.clients[c].input).frames, s.clients[c].responses;
    forall r | r in responses ensures !Excepts(r, 10) {
      var k :| 0 <= k < |responses| && responses[k] == r;
      assert Matches(frames[k], responses[k]);
    }
  }

  /** The drain loop closes a connection exactly when a bad header is at the front of its buffer. Then
      nothing is added to the responses or the output, no request and no exchange is counted, and the
      thread never steps again. */
  lemma MalformedCloses(s: System, c: nat)
    requires Enabled(s, c, DecodeNext)
    ensures c < |Apply(s, c, DecodeNext).clients|
    ensures Apply(s, c, DecodeNext).clients[c].pc.Closed? <==> BadHeader(s.clients[c].buf)
    ensures BadHeader(s.clients[c].buf) ==>
      var t := Apply(s, c, DecodeNext);
      && t == s.(clients := s.clients[c := s.clients[c].(pc := Closed(FramingError))],
                 stats := s.stats.(malformed := Inc64(s.stats.malformed)))
      && forall a :: !Enabled(t, c, a)
  {
    hide Decode, Inc64, BadHeader;
    HeaderErrors(s.clients[c].buf);
  }

  /** A drained thread reads again: with no complete frame and no bad header it is back at `recv`, and
      nothing else has changed. */
  lemma DrainedReadsAgain(s: System, c: nat)
    requires Enabled(s, c, DecodeNext) && !BadHeader(s.clients[c].buf)
    requires |s.clients[c].buf| < 7 || |s.clients[c].buf| < 6 + Number(s.clients[c].buf, 4) as int
    ensures Apply(s, c, DecodeNext) == s.(clients := s.clients[c := s.clients[c].(pc := Receiving)])
  {
    hide Decode, Inc64, BadHeader, Number;
    var buf := s.clients[c].buf;
    HeaderErrors(buf);
    if Decode(buf).Frame? {
      FrameIsThere(buf, Decode(buf).frame, Decode(buf).consumed);
    }
  }

  /** A thread that finds a complete frame at the front of its buffer takes it to the gateway. */
  lemma FramesAreTaken(s: System, c: nat, n: nat)
    requires Enabled(s, c, DecodeNext) && !BadHeader(s.clients[c].buf)
    requires 7 <= |s.clients[c].buf| && n == 6 + Number(s.clients[c].buf, 4) as int <= |s.clients[c].buf|
    ensures n >= 8
    ensures var buf := s.clients[c].buf;
      var f := MbapFrame(Number(buf, 0), 0, buf[6], buf[7..n]);
      Apply(s, c, DecodeNext) == s.(clients := s.clients[c := s.clients[c].(pc := Entering(Job(f, n)))])
  {
    hide Decode, Inc64, Number;
    var buf := s.clients[c].buf;
    FrameIsThere(buf, MbapFrame(Number(buf, 0), 0, buf[6], buf[7..n]), n);
  }

  /** Any connection whose first bytes are a bad header ends so, without an answer. */
  lemma MalformedRun(faulty: bool, ids: seq<byte>, regs: u16, data: seq<byte>)
    requires BadHeader(data) && |data| <= 1024
    ensures var steps := [Step(0, Accept), Step(0, Receive(data)), Step(0, DecodeNext)];
      var run := RunFrom(Start(faulty, ids, regs), steps);
      && run.Some?
      && run.value.clients == [Client(Closed(FramingError), data, data, [], [], [])]
      && run.value.stats == Stats(0, 0, 0, 0, 1)
  {
    hide FreshBus, RunFrom, Decode, Decoded, Entered, InjectorLocked, DropDrawn, BusLocked, Visited, BusUnlocked,
         CorruptionDrawn, Translated, Sent, SendBroken, Erased, Number;
    var start := Start(faulty, ids, regs);
    var received := Apply(Apply(start, 0, Accept), 0, Receive(data));
    NoSteps(start);
    OneStepMore(start, [], Step(0, Accept));
    assert [] + [Step(0, Accept)] == [Step(0, Accept)];
    OneStepMore(start, [Step(0, Accept)], Step(0, Receive(data)));
    assert [Step(0, Accept)] + [Step(0, Receive(data))] == [Step(0, Accept), Step(0, Receive(data))];
    OneStepMore(start, [Step(0, Accept), Step(0, Receive(data))], Step(0, DecodeNext));
    assert [Step(0, Accept), Step(0, Receive(data))] + [Step(0, DecodeNext)]
        == [Step(0, Accept), Step(0, Receive(data)), Step(0, DecodeNext)];
    assert received.clients == [Client(Draining, data, data, [], [], [])] by {
      assert [] + data == data;
    }
    MalformedCloses(received, 0);
  }

  /** Three such headers: protocol 1, and lengths of 1 and of 65535. */
  lemma BadHeaders()
    ensures BadHeader([0, 1, 0, 1, 0, 2, 1])
    ensures BadHeader([0, 1, 0, 0, 0, 1, 1])
    ensures BadHeader([0, 1, 0, 0, 255, 255, 1])
  {
    var small: seq<byte>, large: seq<byte> := [0, 1, 0, 0, 0, 1, 1], [0, 1, 0, 0, 255, 255, 1];
    assert Number(small, 4) == 1 && Number(large, 4) == 65535;
  }

  lemma NoSteps(s: System)
    ensures RunFrom(s, []) == Some(s)
  {
    hide Apply, Enabled;
  }

  lemma OneStepMore(s: System, steps: seq<Step>, step: Step)
    requires RunFrom(s, steps).Some? && Enabled(RunFrom(s, steps).value, step.client, step.action)
    ensures RunFrom(s, steps + [step]) == Some(Apply(RunFrom(s, steps).value, step.client, step.action))
  {
    hide Apply, Enabled;
    assert (steps + [step])[..|steps|] == steps;
  }

  // ---- what reaches the client ----

  /** The bytes sent are a prefix of the encoded responses that holds every response but the last in
      full, and all of them unless a send is under way or has failed. */
  lemma OutputIsPrefix(s: System, faulty: bool, ids: seq<byte>, regs: u16, c: nat)
    requires Reachable(s, faulty, ids, regs) && c < |s.clients|
    ensures var k := s.clients[c];
      && k.output <= EncodeAll(k.responses)
      && (k.responses != [] ==> EncodeAll(k.responses[..|k.responses| - 1]) <= k.output)
      && (!k.pc.Sending? && !(k.pc.Closed? && k.pc.why.SendFailed?) ==> k.output == EncodeAll(k.responses))
  {
    hide Reachable, Encode, EncodeAll, BufferOk, HistoryOk, LegalLog;
    ReachableClient(s, faulty, ids, regs, c);
    PartialIsPrefix(s.clients[c]);
  }

  lemma PartialIsPrefix(k: Client)
    requires OutputOk(k)
    ensures k.output <= EncodeAll(k.responses)
    ensures k.responses != [] ==> EncodeAll(k.responses[..|k.responses| - 1]) <= k.output
  {
    hide Encode, EncodeAll;
    if k.responses != [] {
      var n := |k.responses| - 1;
      EncodeAllOneMore(k.responses[..n], k.responses[n]);
      assert k.responses[..n] + [k.responses[n]] == k.responses;
    }
  }

  /** Any prefix of a stream of legal frames parses to a prefix of the frames. */
  lemma {:induction false} PrefixParse(frames: seq<MbapFrame>, data: seq<byte>)
    requires AllLegal(frames) && data <= EncodeAll(frames)
    ensures ParseAll(data).frames <= frames && ParseAll(data).stop == NeedMoreData
    decreases |frames|
  {
    hide Decode, Encode, Legal, ParseAll;
    ParseStep(data);
    if frames == [] {
      EncodeAllNone();
      NothingYet();
    } else {
      var f := frames[0];
      assert Legal(f);
      if |data| < |Encode(f)| {
        assert data == Encode(f)[..|data|];
        PartOfFrame(f, |data|);
      } else {
        var tail := data[|Encode(f)|..];
        assert data == Encode(f) + tail;
        DecodeEncodeIff(f, tail);
        assert tail <= EncodeAll(frames[1..]);
        PrefixParse(frames[1..], tail);
      }
    }
  }

  lemma NothingYet()
    ensures Decode([]) == NoFrame(NeedMoreData)
  {
  }

  /** End to end: whatever a client can decode from the bytes it has received so far is, frame by
      frame, the answer to the frames it sent, and never a framing error. */
  lemma ClientReadsItsAnswers(s: System, faulty: bool, ids: seq<byte>, regs: u16, c: nat)
    requires Reachable(s, faulty, ids, regs) && c < |s.clients|
    ensures var sent, got := ParseAll(s.clients[c].input).frames, ParseAll(s.clients[c].output);
      && got.stop == NeedMoreData
      && |got.frames| <= |sent|
      && forall k | 0 <= k < |got.frames| :: Matches(sent[k], got.frames[k])
  {
    hide Reachable, ParseAll, Encode, EncodeAll, Legal, WithHighBit;
    RoutingInvariant(s, faulty, ids, regs, c);
    OutputIsPrefix(s, faulty, ids, regs, c);
    var k := s.clients[c];
    assert AllLegal(k.responses) by {
      forall f | f in k.responses ensures Legal(f) {
        var i :| 0 <= i < |k.responses| && k.responses[i] == f;
        assert Matches(ParseAll(k.input).frames[i], k.responses[i]);
      }
    }
    PrefixParse(k.responses, k.output);
  }

  // ---- linearizability ----

  /** Every run equals a sequential one: whenever no exchange is under way the slaves are those after
      the logged exchanges one by one, and always the responses of every client are those the
      sequential run gives it, up to one that is being translated. */
  lemma RunsAreSequential(s: System, faulty: bool, ids: seq<byte>, regs: u16, c: nat)
    requires Reachable(s, faulty, ids, regs) && c < |s.clients|
    ensures LegalLog(s.log)
    ensures Owner(s) == None ==> s.slaves == BusAfter(FreshBus(ids, regs), s.log)
    ensures s.clients[c].responses <= AnswersOf(c, FreshBus(ids, regs), s.log)
    ensures |AnswersOf(c, FreshBus(ids, regs), s.log)| <= |s.clients[c].responses| + 1
    ensures !s.clients[c].pc.Translating? ==> s.clients[c].responses == AnswersOf(c, FreshBus(ids, regs), s.log)
  {
    hide Reachable, BufferOk, OutputOk, RequestsOf, AnswersOf, LegalLog, FreshBus, BusAfter, Answer;
    ReachableInv(s, faulty, ids, regs);
    ReachableClient(s, faulty, ids, regs, c);
  }

  /** The log is the order of the exchanges: it grows only in a step of a client that holds the
      outermost lock, by that client's own pending request. */
  lemma LogGrowsUnderTheLock(s: System, c: nat, a: Action)
    requires LockOk(s) && Enabled(s, c, a) && Apply(s, c, a).log != s.log
    ensures Owner(s) == Some(c) && HasJob(s.clients[c].pc)
    ensures |Apply(s, c, a).log| == |s.log| + 1 && Apply(s, c, a).log[..|s.log|] == s.log
    ensures Apply(s, c, a).log[|s.log|].client == c
    ensures Apply(s, c, a).log[|s.log|].req == s.clients[c].pc.job.req
  {
    hide Handle, Decode, Encode, Damage, Answer, Dispose, TcpToRtu, CountDisposition, Inc64, LockOk;
    if !a.Accept? {
      OwnerInExchange(s, c);
      LocksOfClient(s, c);
    }
  }

  /** What has been recorded stays: the log, and for every client its input, the requests handled,
      the responses made and the bytes sent. */
  predicate Continues(s: System, t: System) {
    && s.log <= t.log && |s.clients| <= |t.clients|
    && forall c | 0 <= c < |s.clients| :: ClientContinues(s.clients[c], t.clients[c])
  }

  predicate ClientContinues(k: Client, l: Client) {
    k.input <= l.input && k.handled <= l.handled && k.responses <= l.responses && k.output <= l.output
  }

  /** What one step does to the log and to the client that takes it. */
  predicate StepKeeps(s: System, c: nat, t: System) {
    s.log <= t.log && c < |s.clients| && c < |t.clients| && ClientContinues(s.clients[c], t.clients[c])
  }

  lemma ReadingKeeps(s: System, c: nat, a: Action)
    requires Enabled(s, c, a) && ReadsRequest(a)
    ensures StepKeeps(s, c, Apply(s, c, a))
  {
    hide Decode, Inc64, InjectorLocked, DropDrawn, BusLocked, Visited, BusUnlocked, CorruptionDrawn, Translated, Sent,
         SendBroken, Erased;
  }

  lemma ReplyingKeeps(s: System, c: nat, a: Action)
    requires Enabled(s, c, a) && SendsReply(a)
    ensures StepKeeps(s, c, Apply(s, c, a))
  {
    hide Encode, Answer, Dispose, CountDisposition, Received, Decoded, Entered, InjectorLocked, DropDrawn, BusLocked,
         Visited, BusUnlocked, CorruptionDrawn;
  }

  lemma ExchangingKeeps(s: System, c: nat, a: Action)
    requires Enabled(s, c, a) && !a.Accept? && !ReadsRequest(a) && !SendsReply(a)
    ensures StepKeeps(s, c, Apply(s, c, a))
  {
    hide Handle, Damage, TcpToRtu, Inc64, Received, Decoded, Entered, Translated, Sent, SendBroken, Erased;
  }

  lemma StepContinues(s: System, c: nat, a: Action)
    requires Enabled(s, c, a)
    ensures Continues(s, Apply(s, c, a))
  {
    hide Received, Decoded, Entered, InjectorLocked, DropDrawn, BusLocked, Visited, BusUnlocked, CorruptionDrawn,
         Translated, Sent, SendBroken, Erased;
    if !a.Accept? {
      StepTouchesOne(s, c, a);
      if ReadsRequest(a) {
        ReadingKeeps(s, c, a);
      } else if SendsReply(a) {
        ReplyingKeeps(s, c, a);
      } else {
        ExchangingKeeps(s, c, a);
      }
    }
  }

  lemma ContinuesOn(s: System, t: System, u: System)
    requires Continues(s, t) && Continues(t, u)
    ensures Continues(s, u)
  {
    hide ClientContinues;
    forall c | 0 <= c < |s.clients| ensures ClientContinues(s.clients[c], u.clients[c]) {
      ClientContinuesOn(s.clients[c], t.clients[c], u.clients[c]);
    }
  }

  lemma ClientContinuesOn(k: Client, l: Client, m: Client)
    requires ClientContinues(k, l) && ClientContinues(l, m)
    ensures ClientContinues(k, m)
  {
  }

  /** Over any run nothing recorded is lost or reordered. */
  lemma {:induction false} RunContinues(s: System, steps: seq<Step>)
    requires RunFrom(s, steps).Some?
    ensures Continues(s, RunFrom(s, steps).value)
    decreases |steps|
  {
    hide Apply, Enabled, Continues;
    if steps == [] {
      SameContinues(s);
    } else {
      var step := steps[|steps| - 1];
      RunContinues(s, steps[..|steps| - 1]);
      var before := RunFrom(s, steps[..|steps| - 1]).value;
      StepContinues(before, step.client, step.action);
      ContinuesOn(s, before, RunFrom(s, steps).value);
    }
  }

  lemma SameContinues(s: System)
    ensures Continues(s, s)
  {
  }

  /** Event number `j` of the log is the exchange of request number `p` of client `c`. */
  predicate ExchangeOf(log: seq<Event>, j: nat, c: nat, p: nat) {
    j < |log| && log[j].client == c && |RequestsOf(c, log[..j])| == p
  }

  /** The order of the log respects real time: a request that has its response in some state is
      exchanged before every request that has not been exchanged in that state. */
  lemma LogRespectsRealTime(s: System, faulty: bool, ids: seq<byte>, regs: u16, steps: seq<Step>,
                            c: nat, p: nat, j: nat, d: nat, q: nat, i: nat)
    requires Reachable(s, faulty, ids, regs) && RunFrom(s, steps).Some?
    requires c < |s.clients| && p < |s.clients[c].responses|
    requires q >= |RequestsOf(d, s.log)|
    requires ExchangeOf(RunFrom(s, steps).value.log, j, c, p)
    requires ExchangeOf(RunFrom(s, steps).value.log, i, d, q)
    ensures j < |s.log| <= i
  {
    hide Reachable, RunFrom, RequestsOf, AnswersOf, ClientContinues, FreshBus, LegalLog;
    RunContinues(s, steps);
    var log := RunFrom(s, steps).value.log;
    RunsAreSequential(s, faulty, ids, regs, c);
    AnswersMatchRequests(c, FreshBus(ids, regs), s.log);
    assert log[..|s.log|] == s.log;
    PlaceDecides(log, j, |s.log|);
    PlaceDecides(log, i, |s.log|);
  }

  /** The response to event number `j` of the log, once it is made, is the answer of the sequential
      run to that very request. */
  lemma ResponseOfEvent(s: System, faulty: bool, ids: seq<byte>, regs: u16, j: nat)
    requires Reachable(s, faulty, ids, regs) && j < |s.log|
    ensures LegalLog(s.log[..j]) && Legal(s.log[j].req) && s.log[j].client < |s.clients|
    ensures var e, i := s.log[j], |RequestsOf(s.log[j].client, s.log[..j])|;
      var responses := s.clients[e.client].responses;
      i < |responses| ==>
        responses[i] == Answer(e.req, ReplyAfter(FreshBus(ids, regs), s.log[..j], e))
  {
    hide Reachable, LockOk, SlavesOk, ClientOk, RequestsOf, AnswersOf, FreshBus, BusAfter, Answer, Legal, ReplyAfter;
    ReachableInv(s, faulty, ids, regs);
    assert s.log[j] in s.log;
    RunsAreSequential(s, faulty, ids, regs, s.log[j].client);
    AnswerOfEvent(FreshBus(ids, regs), s.log, j);
  }

  /** Faults over whole runs: every exchange that was dropped, damaged or met by silence is answered
      by the one exception 11 that carries its request's ids, and every other one by the slave's
      reply itself. */
  lemma FaultsAreAnswered(s: System, faulty: bool, ids: seq<byte>, regs: u16, j: nat)
    requires Reachable(s, faulty, ids, regs) && j < |s.log|
    ensures s.log[j].client < |s.clients| && Legal(s.log[j].req)
    ensures var e, i := s.log[j], |RequestsOf(s.log[j].client, s.log[..j])|;
      var responses := s.clients[e.client].responses;
      var clean := CleanReply(BusAfter(FreshBus(ids, regs), s.log[..j]), e.req);
      i < |responses| ==>
        if e.draw.drop || e.draw.corrupt || clean.None? then
          responses[i] == MbapFrame(e.req.transactionId, 0, e.req.unitId, [WithHighBit(e.req.pdu[0]), 11])
        else RtuToTcp(clean.value, e.req.transactionId) == Some(responses[i])
  {
    hide Reachable, RequestsOf, FreshBus, BusAfter, CleanReply, RtuToTcp, WithHighBit;
    ResponseOfEvent(s, faulty, ids, regs, j);
    FaultsBecomeExceptions(BusAfter(FreshBus(ids, regs), s.log[..j]), s.log[j].req, s.log[j].draw);
  }

  /** Every response of every run, byte by byte: the request's transaction id and unit id, protocol
      id 0, and the expected PDU - exception 11 for a fault or a request nobody answers, else what a
      slave says whose registers hold the last values written before the exchange. */
  lemma EveryResponseIsDetermined(s: System, faulty: bool, ids: seq<byte>, regs: u16, j: nat)
    requires Reachable(s, faulty, ids, regs) && DistinctIds(ids) && j < |s.log|
    ensures s.log[j].client < |s.clients| && s.log[j].req.pdu != []
    ensures var e, i := s.log[j], |RequestsOf(s.log[j].client, s.log[..j])|;
      var responses := s.clients[e.client].responses;
      i < |responses| ==>
        responses[i] == MbapFrame(e.req.transactionId, 0, e.req.unitId, ExpectedPdu(ids, regs, s.log[..j], e))
  {
    hide Reachable, RequestsOf, FreshBus, ReplyAfter, Answer, ExpectedPdu, LegalLog, DistinctIds;
    ResponseOfEvent(s, faulty, ids, regs, j);
    ResponsesAreDetermined(ids, regs, s.log[..j], s.log[j]);
  }

  /** Linearizable reads: a read that no fault hit returns, for each register it covers, the value
      of the last write to that unit before it in the order of the log, or the seed. */
  lemma ReadsAreLinearizable(s: System, faulty: bool, ids: seq<byte>, regs: u16, j: nat, start: nat, qty: nat)
    requires Reachable(s, faulty, ids, regs) && DistinctIds(ids) && j < |s.log|
    requires s.log[j].req.unitId in ids && s.log[j].req.unitId != 0
    requires !s.log[j].draw.drop && !s.log[j].draw.corrupt
    requires IsRead(s.log[j].req.pdu, start, qty) && start + qty <= regs
    ensures s.log[j].client < |s.clients|
    ensures var e, i := s.log[j], |RequestsOf(s.log[j].client, s.log[..j])|;
      var responses := s.clients[e.client].responses;
      i < |responses| ==> responses[i].pdu == ReadPdu(LastValues(s.log[..j], e.req.unitId, regs, start, qty))
  {
    hide Reachable, RequestsOf, FreshBus, ReplyAfter, Answer, LastValues, ReadPdu, IsRead, Legal, LegalLog,
         DistinctIds;
    ResponseOfEvent(s, faulty, ids, regs, j);
    ReadsReturnLastWrites(ids, regs, s.log[..j], s.log[j], start, qty);
  }

  /** Whenever no exchange is under way, register `r` of every unit holds the last value written to
      it in the order of the log, or its seed. */
  lemma RegistersAreLinearizable(s: System, faulty: bool, ids: seq<byte>, regs: u16, u: nat, r: nat)
    requires Reachable(s, faulty, ids, regs) && DistinctIds(ids) && u < |ids| && r < regs && Owner(s) == None
    ensures Serves(s.slaves, ids, regs)
    ensures s.slaves[u].holding[r] == LastValue(s.log, ids[u], regs, r)
  {
    hide Reachable, BusAfter, FreshBus, LastValue, LockOk, ClientOk, LegalLog, Serves;
    ReachableInv(s, faulty, ids, regs);
    RegistersHoldLastWrites(ids, regs, s.log, u, r);
  }

  // ---- the environment ----

  /** Nothing is asked of masters, network and injector: anybody may connect; `recv` may give back any 1
      to 1024 bytes or fail; `send` may take any part of what is left or fail; any exchange may be
      dropped, and any reply damaged anywhere. */
  lemma EnvironmentIsFree(s: System, c: nat)
    requires c < |s.clients|
    ensures Enabled(s, |s.clients|, Accept)
    ensures s.clients[c].pc.Receiving? ==>
      Enabled(s, c, HangUp) && forall chunk :: Enabled(s, c, Receive(chunk)) <==> 1 <= |chunk| <= 1024
    ensures s.clients[c].pc.InInjector? ==> forall drop :: Enabled(s, c, DrawDrop(drop))
    ensures s.clients[c].pc.BusReleased? ==>
      forall corrupt, pick: nat ::
        Enabled(s, c, DrawCorrupt(corrupt, pick)) <==> !corrupt || s.clients[c].pc.reply.Some?
    ensures s.clients[c].pc.Sending? ==>
      var rest := |s.clients[c].pc.out| - s.clients[c].pc.sent;
      && (Enabled(s, c, SendFails) <==> rest > 0)
      && forall n: nat :: Enabled(s, c, Send(n)) <==> 1 <= n <= rest
  {
  }

  // ---- locks and progress ----

  /** At most one client is inside the scan, and at most one inside the injector. */
  lemma MutualExclusion(s: System, faulty: bool, ids: seq<byte>, regs: u16, c: nat, d: nat)
    requires Reachable(s, faulty, ids, regs) && c < |s.clients| && d < |s.clients| && c != d
    ensures !(HoldsBus(s.clients[c].pc) && HoldsBus(s.clients[d].pc))
    ensures !(HoldsInjector(faulty, s.clients[c].pc) && HoldsInjector(faulty, s.clients[d].pc))
  {
    hide Reachable, SlavesOk, ClientsOk, HoldsBus, HoldsInjector, PossiblePc, FreshBus;
    ReachableInv(s, faulty, ids, regs);
  }

  /** Every thread that has not ended can take its next step, unless the lock that step needs is
      held; and then the holder, which is another thread, can step. */
  lemma NoDeadlock(s: System, faulty: bool, ids: seq<byte>, regs: u16, c: nat) returns (d: nat)
    requires Reachable(s, faulty, ids, regs) && c < |s.clients| && !s.clients[c].pc.Closed?
    ensures d < |s.clients| && Enabled(s, d, NextAction(s.clients[d].pc))
    ensures d != c <==> WantsLock(s, c)
    ensures WantsLock(s, c) && s.clients[c].pc.AwaitInjector? ==> s.injectorLock == Some(d)
    ensures WantsLock(s, c) && s.clients[c].pc.AwaitBus? ==> s.busLock == Some(d)
  {
    hide Reachable, SlavesOk, HoldsInjector, PossiblePc, FreshBus, OutputOk, HistoryOk, LegalLog, Decode, BufferOk;
    ReachableInv(s, faulty, ids, regs);
    if WantsLock(s, c) {
      d := SomeHolderCanStep(s, c);
    } else {
      d := c;
      if HasJob(s.clients[c].pc) {
        JobIsLegal(s.clients[c]);
      }
    }
  }
}
