/** The thread of one connection as imperative code: the receive loop, the drain loop and the loop
    of partial sends, when no other thread uses the gateway meanwhile.

    What the peer and the network do is given beforehand: `chunks` are what the calls of `recv`
    return until one fails, the n-th call of `send` takes at most `accepts(n)` bytes and fails when
    that is 0, and `draws(n)` are the faults of the n-th exchange. */
module ServeClient {
  import opened Bits
  import opened Options
  import opened Station
  import opened Bus
  import opened Mbap
  import opened G = Gateway
  import opened GatewayService
  import opened History
  import opened Server
  import opened ServerInvariant
  import opened ServerClients
  import opened ServerTheorems

  datatype End = ByPeer | ByFraming | BySend

  /** The exchanges of one connection alone. */
  function Session(frames: seq<MbapFrame>, draws: nat -> Draw): (log: seq<Event>)
    ensures |log| == |frames|
  {
    seq(|frames|, i requires 0 <= i < |frames| => Event(0, frames[i], draws(i)))
  }

  /** What a connection comes to, in terms of a batch parse of everything its peer had to say. */
  ghost predicate Delivered(bus: seq<Station>, p: Parsed, draws: nat -> Draw, exchanges: nat, wire: seq<byte>,
                            end: End)
  {
    && exchanges <= |p.frames|
    && var log := Session(p.frames[..exchanges], draws);
    && LegalLog(log)
    && wire <= EncodeAll(AnswersOf(0, bus, log))
    && (end != BySend ==> exchanges == |p.frames| && wire == EncodeAll(AnswersOf(0, bus, log)))
    && (end == BySend ==> exchanges >= 1 && CutShort(wire, AnswersOf(0, bus, log)))
    && (end == ByPeer ==> p.stop == NeedMoreData)
    && (end == ByFraming ==> p.stop != NeedMoreData)
  }

  /** All answers but the last in full, and a proper part of the last. */
  ghost predicate CutShort(wire: seq<byte>, answers: seq<MbapFrame>) {
    && answers != []
    && EncodeAll(answers[..|answers| - 1]) <= wire
    && |wire| < |EncodeAll(answers)|
  }

  /** What the calls of `send` from `call` to `calls` take between them. */
  function Room(accepts: nat -> nat, call: nat, calls: nat): nat
    requires call <= calls
    decreases calls - call
  {
    if call == calls then 0 else Room(accepts, call, calls - 1) + accepts(calls - 1)
  }

  /** The loop of partial sends: as many bytes go as the calls take, and no call is made once all are
      gone. */
  method SendAll(out: seq<byte>, accepts: nat -> nat, call: nat) returns (taken: seq<byte>, calls: nat)
    ensures taken <= out && calls >= call
    ensures |taken| == if Room(accepts, call, calls) < |out| then Room(accepts, call, calls) else |out|
    ensures calls > call ==> Room(accepts, call, calls - 1) < |out|
    ensures taken == out <==> forall n | call <= n < calls :: accepts(n) > 0
  {
    var sent := 0;
    taken, calls := [], call;
    while sent < |out|
      invariant sent <= |out| && taken == out[..sent] && call <= calls
      invariant forall n | call <= n < calls :: accepts(n) > 0
      invariant sent == if Room(accepts, call, calls) < |out| then Room(accepts, call, calls) else |out|
      invariant calls > call ==> Room(accepts, call, calls - 1) < |out|
      decreases |out| - sent
    {
      var room := accepts(calls);
      calls := calls + 1;
      if room == 0 {
        assert |taken| != |out|;
        return;
      }
      var w := if room < |out| - sent then room else |out| - sent;
      taken := taken + out[sent..sent + w];
      sent := sent + w;
    }
  }

  // ---- one frame ----

  /** The history of the thread after a request that got `rsp`, of which `taken` was sent. */
  ghost function Served(k: Client, job: Job, rsp: MbapFrame, taken: seq<byte>): Client
    requires job.consumed <= |k.buf|
  {
    var out := Encode(rsp);
    var done := k.(responses := k.responses + [rsp], output := k.output + taken);
    if taken == out then
      done.(pc := Draining, buf := k.buf[job.consumed..], handled := k.handled + [job.req])
    else done.(pc := Closed(SendFailed(job, out, |taken|)))
  }

  lemma ServedClient(k: Client, job: Job, draw: Draw, taken: seq<byte>, bus: seq<Station>, log: seq<Event>)
    requires LegalLog(log) && ClientOk(0, k, bus, log) && k.pc == Entering(job)
    ensures Legal(job.req) && job.consumed <= |k.buf|
    ensures var e := Event(0, job.req, draw);
      var rsp := Answer(job.req, ReplyAfter(bus, log, e));
      && LegalLog(log + [e])
      && (taken <= Encode(rsp) ==> ClientOk(0, Served(k, job, rsp, taken), bus, log + [e]))
  {
    hide BufferOk, OutputOk, HistoryOk, LegalLog, Encode, Answer, ReplyAfter, Legal;
    JobIsLegal(k);
    var e := Event(0, job.req, draw);
    var reply := ReplyAfter(bus, log, e);
    var rsp := Answer(job.req, reply);
    FinishClient(0, k, job, draw, reply, bus, log);
    var k1 := k.(pc := Translating(job, reply));
    TranslateClient(0, k1, bus, log + [e]);
    var k2 := k1.(pc := Sending(job, Encode(rsp), 0), responses := k.responses + [rsp]);
    if taken <= Encode(rsp) {
      var n := |taken|;
      SendClient(0, k2, n, bus, log + [e]);
      assert Encode(rsp)[0..n] == taken;
      var k3 := k2.(pc := Sending(job, Encode(rsp), n), output := k.output + taken);
      if taken == Encode(rsp) {
        EraseClient(0, k3, bus, log + [e]);
      } else {
        assert n < |Encode(rsp)|;
        SendFailsClient(0, k3, bus, log + [e]);
      }
    }
  }

  /** The history against the variables of the code. */
  ghost predicate SessionOk(k: Client, log: seq<Event>, bus: seq<Station>, draws: nat -> Draw,
                            buf: seq<byte>, wire: seq<byte>, exchanges: nat)
  {
    && LegalLog(log) && ClientOk(0, k, bus, log)
    && k.buf == buf && k.output == wire && exchanges == |log|
    && log == Session(RequestsOf(0, log), draws)
  }

  /** The gateway after the exchanges of `log`. */
  ghost predicate GatewayOk(gw: GatewayService.Gateway, log: seq<Event>, bus: seq<Station>, ledger: Ledger)
    reads gw.stats, gw.rtu, gw.rtu.inner, gw.rtu.inner.slaves, gw.rtu.inner.Files()
  {
    gw.rtu.inner.Valid() && gw.Units() == BusAfter(bus, log) && gw.Counted() == LedgerAfter(ledger, bus, log)
  }

  lemma SessionAppend(frames: seq<MbapFrame>, f: MbapFrame, draws: nat -> Draw)
    ensures Session(frames + [f], draws) == Session(frames, draws) + [Event(0, f, draws(|frames|))]
  {
  }

  lemma SessionGrows(log: seq<Event>, draws: nat -> Draw, req: MbapFrame, bus: seq<Station>)
    requires LegalLog(log) && Legal(req) && log == Session(RequestsOf(0, log), draws)
    ensures var more := log + [Event(0, req, draws(|log|))]; more == Session(RequestsOf(0, more), draws)
  {
    hide RequestsOf, Legal, LegalLog, AnswersOf, Session, Answer, ReplyAfter;
    OneMoreEvent(0, bus, log, Event(0, req, draws(|log|)));
    SessionAppend(RequestsOf(0, log), req, draws);
  }

  lemma GatewayGrows(log: seq<Event>, bus: seq<Station>, ledger: Ledger, e: Event)
    requires e.req.pdu != []
    ensures Handled(BusAfter(bus, log), e.req, e.draw)
         == (BusAfter(bus, log + [e]), Answer(e.req, ReplyAfter(bus, log, e)))
    ensures RequestCounted(LedgerAfter(ledger, bus, log), BusAfter(bus, log), e.req, e.draw)
         == LedgerAfter(ledger, bus, log + [e])
  {
    hide Exchange, Answer, RequestCounted, Legal;
    LastOf(log, e);
  }

  /** The body of the drain loop once a frame is decoded: handle, send, erase. */
  method ServeFrame(gw: GatewayService.Gateway, job: Job, buf: seq<byte>, wire: seq<byte>, exchanges: nat,
                    draws: nat -> Draw, accepts: nat -> nat, call: nat, ghost k: Client, ghost log: seq<Event>,
                    ghost bus: seq<Station>, ghost ledger: Ledger)
    returns (ok: bool, rest: seq<byte>, wired: seq<byte>, calls: nat, ghost after: Client, ghost more: seq<Event>)
    requires SessionOk(k, log, bus, draws, buf, wire, exchanges) && k.pc == Entering(job)
    requires GatewayOk(gw, log, bus, ledger)
    modifies gw.stats, gw.rtu, gw.rtu.inner.slaves, gw.rtu.inner.Files()
    ensures SessionOk(after, more, bus, draws, rest, wired, exchanges + 1) && after.input == k.input
    ensures GatewayOk(gw, more, bus, ledger)
    ensures if ok then after.pc == Draining && |rest| < |buf| else after.pc.Closed? && after.pc.why.SendFailed?
    ensures call <= calls && (ok <==> forall n | call <= n < calls :: accepts(n) > 0)
  {
    hide ClientOk, LegalLog, BusAfter, LedgerAfter, Encode, Session, RequestsOf, Legal, Answer, ReplyAfter, Decode,
         RequestCounted, Handled;
    ghost var e := Event(0, job.req, draws(exchanges));
    ServedClient(k, job, e.draw, [], bus, log);
    FrameIsLong(k, bus, log);
    SessionGrows(log, draws, job.req, bus);
    GatewayGrows(log, bus, ledger, e);
    var rsp := gw.Handle(job.req, draws(exchanges));
    var out := EncodeFrame(rsp);
    var taken;
    taken, calls := SendAll(out, accepts, call);
    ServedClient(k, job, e.draw, taken, bus, log);
    ok := taken == out;
    wired := wire + taken;
    rest := if ok then buf[job.consumed..] else buf;
    after := Served(k, job, rsp, taken);
    more := log + [e];
  }

  lemma FrameIsLong(k: Client, bus: seq<Station>, log: seq<Event>)
    requires LegalLog(log) && ClientOk(0, k, bus, log) && HasJob(k.pc)
    ensures k.pc.job.req.pdu != [] && 8 <= k.pc.job.consumed <= |k.buf|
  {
    hide Decode, EncodeAll, AllLegal, OutputOk, HistoryOk, LegalLog;
    EncodeDecode(k.buf);
  }

  // ---- the drain loop ----

  method Drain(gw: GatewayService.Gateway, buf0: seq<byte>, wire0: seq<byte>, exchanges0: nat, draws: nat -> Draw,
               accepts: nat -> nat, call: nat, ghost k0: Client, ghost log0: seq<Event>, ghost bus: seq<Station>,
               ghost ledger: Ledger)
    returns (buf: seq<byte>, wire: seq<byte>, exchanges: nat, calls: nat, end: Option<End>, ghost k: Client,
             ghost log: seq<Event>)
    requires SessionOk(k0, log0, bus, draws, buf0, wire0, exchanges0) && k0.pc == Draining
    requires GatewayOk(gw, log0, bus, ledger)
    modifies gw.stats, gw.rtu, gw.rtu.inner.slaves, gw.rtu.inner.Files()
    ensures SessionOk(k, log, bus, draws, buf, wire, exchanges) && k.input == k0.input
    ensures Stopped(k.pc, end)
    ensures end != Some(ByFraming) ==> GatewayOk(gw, log, bus, ledger)
    ensures end == Some(ByFraming) ==>
      && gw.rtu.inner.Valid() && gw.Units() == BusAfter(bus, log)
      && var counted := LedgerAfter(ledger, bus, log);
         gw.Counted() == counted.(stats := counted.stats.(malformed := Inc64(counted.stats.malformed)))
    ensures call <= calls && (end == Some(BySend) <==> exists n | call <= n < calls :: accepts(n) == 0)
  {
    hide ClientOk, LegalLog, BusAfter, LedgerAfter, Session, RequestsOf, Decode, Inc64;
    buf, wire, exchanges, calls, end := buf0, wire0, exchanges0, call, None;
    k, log := k0, log0;
    while true
      invariant SessionOk(k, log, bus, draws, buf, wire, exchanges) && k.input == k0.input && k.pc == Draining
      invariant GatewayOk(gw, log, bus, ledger)
      invariant call <= calls && forall n | call <= n < calls :: accepts(n) > 0
      decreases |buf|
    {
      JudgeClient(0, k, bus, log);
      k := k.(pc := Judged(k));
      var r := Decode(buf);
      if r.NoFrame? {
        if r.error == NeedMoreData {
          return;
        }
        gw.stats.malformed := Inc64(gw.stats.malformed);
        end := Some(ByFraming);
        return;
      }
      var ok;
      ok, buf, wire, calls, k, log :=
        ServeFrame(gw, Job(r.frame, r.consumed), buf, wire, exchanges, draws, accepts, calls, k, log, bus, ledger);
      exchanges := exchanges + 1;
      if !ok {
        end := Some(BySend);
        return;
      }
    }
  }

  /** Why the drain loop ended. */
  ghost predicate Stopped(pc: Pc, end: Option<End>) {
    match end
    case None => pc == Receiving
    case Some(ByPeer) => false
    case Some(ByFraming) => pc == Closed(FramingError)
    case Some(BySend) => pc.Closed? && pc.why.SendFailed?
  }

  // ---- the receive loop ----

  function Flatten(chunks: seq<seq<byte>>): seq<byte> {
    if chunks == [] then [] else Flatten(chunks[..|chunks| - 1]) + chunks[|chunks| - 1]
  }

  lemma {:induction false} FlattenSplits(chunks: seq<seq<byte>>, n: nat)
    requires n <= |chunks|
    ensures Flatten(chunks) == Flatten(chunks[..n]) + Flatten(chunks[n..])
    decreases |chunks|
  {
    if n == |chunks| {
      assert chunks[..n] == chunks;
    } else {
      var m := |chunks| - 1;
      FlattenSplits(chunks[..m], n);
      assert chunks[..m][..n] == chunks[..n];
      assert chunks[n..][..m - n] == chunks[..m][n..];
    }
  }

  /** Serves one connection to its end: a framing error is final whatever would have followed, and
      the outcome depends on the bytes of the peer alone and not on how they were cut into chunks. */
  method ServeConnection(gw: GatewayService.Gateway, chunks: seq<seq<byte>>, draws: nat -> Draw, accepts: nat -> nat)
    returns (wire: seq<byte>, exchanges: nat, calls: nat, end: End)
    requires gw.rtu.inner.Valid() && forall chunk | chunk in chunks :: 1 <= |chunk| <= RECV_MAX
    modifies gw.stats, gw.rtu, gw.rtu.inner.slaves, gw.rtu.inner.Files()
    ensures Delivered(old(gw.Units()), ParseAll(Flatten(chunks)), draws, exchanges, wire, end)
    ensures end == BySend <==> exists n | 0 <= n < calls :: accepts(n) == 0
    ensures gw.rtu.inner.Valid()
    ensures var log := Session(ParseAll(Flatten(chunks)).frames[..exchanges], draws);
      && gw.Units() == BusAfter(old(gw.Units()), log)
      && var counted := LedgerAfter(old(gw.Counted()), old(gw.Units()), log);
         gw.Counted() == if end == ByFraming
           then counted.(stats := counted.stats.(malformed := Inc64(counted.stats.malformed)))
           else counted
  {
    hide ClientOk, LegalLog, BusAfter, LedgerAfter, Session, RequestsOf, Decode, Inc64, ParseAll, Delivered, Flatten;
    ghost var bus, ledger := gw.Units(), gw.Counted();
    var buf: seq<byte> := [];
    var received := 0;
    wire, exchanges, calls := [], 0, 0;
    ghost var k, log := Fresh(), [];
    SessionStarts(bus, ledger, draws);
    while received < |chunks|
      invariant received <= |chunks|
      invariant SessionOk(k, log, bus, draws, buf, wire, exchanges) && k.pc == Receiving
      invariant k.input == Flatten(chunks[..received])
      invariant GatewayOk(gw, log, bus, ledger)
      invariant forall n | 0 <= n < calls :: accepts(n) > 0
    {
      var chunk := chunks[received];
      assert chunk in chunks;
      ReceiveClient(0, k, chunk, bus, log);
      k := k.(pc := Draining, buf := k.buf + chunk, input := k.input + chunk);
      FlattenOneMore(chunks, received);
      received := received + 1;
      buf := buf + chunk;
      var stop;
      buf, wire, exchanges, calls, stop, k, log :=
        Drain(gw, buf, wire, exchanges, draws, accepts, calls, k, log, bus, ledger);
      if stop.Some? {
        end := stop.value;
        SessionEnds(k, log, bus, draws, buf, wire, exchanges, chunks, received, end);
        return;
      }
    }
    end := ByPeer;
    HangUpClient(0, k, bus, log);
    k := k.(pc := Closed(PeerGone));
    SessionEnds(k, log, bus, draws, buf, wire, exchanges, chunks, received, end);
  }

  lemma FlattenOneMore(chunks: seq<seq<byte>>, n: nat)
    requires n < |chunks|
    ensures Flatten(chunks[..n + 1]) == Flatten(chunks[..n]) + chunks[n]
  {
    assert chunks[..n + 1][..n] == chunks[..n];
  }

  lemma SessionStarts(bus: seq<Station>, ledger: Ledger, draws: nat -> Draw)
    ensures SessionOk(Fresh(), [], bus, draws, [], [], 0)
    ensures BusAfter(bus, []) == bus && LedgerAfter(ledger, bus, []) == ledger && Flatten([]) == []
  {
    hide Decode;
    FreshClient(0, bus, []);
  }

  /** How the histories at the end of the thread read as an outcome. */
  lemma SessionEnds(k: Client, log: seq<Event>, bus: seq<Station>, draws: nat -> Draw, buf: seq<byte>, wire: seq<byte>,
                    exchanges: nat, chunks: seq<seq<byte>>, received: nat, end: End)
    requires SessionOk(k, log, bus, draws, buf, wire, exchanges) && received <= |chunks|
    requires k.input == Flatten(chunks[..received]) && k.pc.Closed?
    requires end == ByPeer ==> received == |chunks| && k.pc.why == PeerGone
    requires end == ByFraming ==> k.pc.why == FramingError
    requires end == BySend ==> k.pc.why.SendFailed?
    ensures exchanges <= |ParseAll(Flatten(chunks)).frames|
    ensures log == Session(ParseAll(Flatten(chunks)).frames[..exchanges], draws)
    ensures Delivered(bus, ParseAll(Flatten(chunks)), draws, exchanges, wire, end)
  {
    hide LegalLog, RequestsOf, AnswersOf, Decode, ParseAll, Flatten, EncodeAll, AllLegal, Session;
    var more := Flatten(chunks[received..]);
    var all := Flatten(chunks);
    FlattenSplits(chunks, received);
    if received == |chunks| {
      assert chunks[..received] == chunks;
    }
    RequestsBeginStream(0, k, bus, log);
    AnswersMatchRequests(0, bus, log);
    InputParse(k);
    ParseStep(k.buf);
    ParseExtends(k.input, more);
    PartialIsPrefix(k);
    var frames := ParseAll(all).frames;
    RequestsCount(log, draws);
    assert RequestsOf(0, log) == frames[..exchanges];
    assert AnswersOf(0, bus, log) == k.responses;
    if end == ByPeer {
      assert frames == k.handled && ParseAll(all).stop == NeedMoreData;
    } else if end == ByFraming {
      assert frames == k.handled && ParseAll(all).stop != NeedMoreData;
    } else {
      BrokenOffShort(k);
    }
  }

  lemma BrokenOffShort(k: Client)
    requires OutputOk(k) && k.pc.Closed? && k.pc.why.SendFailed?
    ensures CutShort(k.output, k.responses)
  {
    hide Encode, EncodeAll;
    var n := |k.responses| - 1;
    EncodeAllOneMore(k.responses[..n], k.responses[n]);
    assert k.responses[..n] + [k.responses[n]] == k.responses;
  }

  lemma RequestsCount(log: seq<Event>, draws: nat -> Draw)
    requires log == Session(RequestsOf(0, log), draws)
    ensures |RequestsOf(0, log)| == |log|
  {
    hide RequestsOf;
  }
}
