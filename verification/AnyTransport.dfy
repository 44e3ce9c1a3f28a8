/** The concurrent server over a transport of which nothing is assumed: an exchange may take any time
    and give back anything or nothing. What is left of the routing invariant is the transaction id. */
module AnyTransport {
  import opened Bits
  import opened Options
  import opened Bus
  import opened Mbap
  import opened Gateway
  import opened Server
  import opened ServerLocks
  import opened ServerInvariant
  import opened ServerClients
  import opened ServerTheorems

  /** A step of a thread's own code, or the return of its call of `transact`. */
  datatype Move = Own(action: Action) | Return(reply: Option<seq<byte>>)

  predicate Possible(s: System, c: nat, m: Move) {
    match m
    case Own(a) => Enabled(s, c, a) && (a.Accept? || ReadsRequest(a) || SendsReply(a))
    case Return(_) => c < |s.clients| && (s.clients[c].pc.AwaitInjector? || s.clients[c].pc.AwaitBus?)
  }

  function After(s: System, c: nat, m: Move): System
    requires Possible(s, c, m)
  {
    match m
    case Own(a) => Apply(s, c, a)
    case Return(reply) => Goto(s, c, Translating(s.clients[c].pc.job, reply))
  }

  datatype Turn = Turn(client: nat, move: Move)

  function Run(s: System, turns: seq<Turn>): Option<System> {
    if turns == [] then Some(s)
    else
      var before := Run(s, turns[..|turns| - 1]);
      var turn := turns[|turns| - 1];
      if before.Some? && Possible(before.value, turn.client, turn.move)
      then Some(After(before.value, turn.client, turn.move))
      else None
  }

  /** `a` is what the gateway makes of some reply to `q`: a frame that passed the CRC, or its own
      exception; and it carries the transaction id of `q`. */
  ghost predicate Carries(q: MbapFrame, a: MbapFrame) {
    && q.pdu != []
    && a.transactionId == q.transactionId && a.protocolId == 0
    && (|| a == MbapFrame(q.transactionId, 0, q.unitId, [WithHighBit(q.pdu[0]), 11])
        || exists rtu :: Passes(rtu) && RtuToTcp(rtu, q.transactionId) == Some(a))
  }

  lemma AnswerCarries(q: MbapFrame, reply: Option<seq<byte>>)
    requires q.pdu != []
    ensures Carries(q, Answer(q, reply))
  {
    hide Passes, WithHighBit;
    AnyTransportKeepsTransactionId(q, reply);
    if reply.Some? && Passes(reply.value) {
      assert RtuToTcp(reply.value, q.transactionId) == Some(Answer(q, reply));
    }
  }

  /** The requests that have their response. */
  function Asked(k: Client): seq<MbapFrame> {
    k.handled + BeingAnswered(k.pc)
  }

  ghost predicate Carried(k: Client) {
    |Asked(k)| == |k.responses| && forall i | 0 <= i < |k.responses| :: Carries(Asked(k)[i], k.responses[i])
  }

  ghost predicate ClientCarried(k: Client) {
    BufferOk(k) && OutputOk(k) && Carried(k)
  }

  ghost predicate ClientsCarried(s: System) {
    forall c | 0 <= c < |s.clients| :: ClientCarried(s.clients[c])
  }

  // ---- one client, one step ----

  lemma FreshCarried()
    ensures ClientCarried(Fresh())
  {
    hide Carries, EncodeAll, Legal;
    EncodeAllNone();
  }

  lemma ReceiveCarried(k: Client, chunk: seq<byte>)
    requires ClientCarried(k) && k.pc.Receiving? && |chunk| <= RECV_MAX
    ensures ClientCarried(k.(pc := Draining, buf := k.buf + chunk, input := k.input + chunk))
  {
    hide BufferOk, Carries, EncodeAll, Encode;
    ReceiveKeepsBuffer(k, chunk);
  }

  lemma HangUpCarried(k: Client)
    requires ClientCarried(k) && k.pc.Receiving?
    ensures ClientCarried(k.(pc := Closed(PeerGone)))
  {
    hide Decode, EncodeAll, AllLegal, Carries;
  }

  lemma JudgeCarried(k: Client)
    requires ClientCarried(k) && k.pc.Draining?
    ensures ClientCarried(k.(pc := Judged(k)))
  {
    hide Decode, EncodeAll, AllLegal, Carries;
  }

  /** From one point of the exchange to the next. */
  lemma SameJobCarried(k: Client, pc: Pc)
    requires ClientCarried(k) && HasJob(k.pc) && HasJob(pc) && pc.job == k.pc.job && !k.pc.Sending? && !pc.Sending?
    ensures ClientCarried(k.(pc := pc))
  {
    hide Decode, EncodeAll, AllLegal, Carries;
  }

  lemma TranslateCarried(k: Client)
    requires ClientCarried(k) && k.pc.Translating?
    ensures k.pc.job.req.pdu != []
    ensures var rsp := Answer(k.pc.job.req, k.pc.reply);
      ClientCarried(k.(pc := Sending(k.pc.job, Encode(rsp), 0), responses := k.responses + [rsp]))
  {
    hide Decode, Encode, EncodeAll, AllLegal, Carries, Answer;
    JobIsLegal(k);
    AnswerCarries(k.pc.job.req, k.pc.reply);
    var rsp := Answer(k.pc.job.req, k.pc.reply);
    assert (k.responses + [rsp])[..|k.responses|] == k.responses;
    assert k.output + Encode(rsp)[..0] == k.output;
  }

  lemma SendCarried(k: Client, n: nat)
    requires ClientCarried(k) && k.pc.Sending? && k.pc.sent + n <= |k.pc.out|
    ensures ClientCarried(k.(pc := Sending(k.pc.job, k.pc.out, k.pc.sent + n),
                             output := k.output + k.pc.out[k.pc.sent..k.pc.sent + n]))
  {
    hide Decode, Encode, EncodeAll, AllLegal, Carries, OutputOk;
    SendKeepsOutput(k, n);
  }

  lemma SendKeepsOutput(k: Client, n: nat)
    requires OutputOk(k) && k.pc.Sending? && k.pc.sent + n <= |k.pc.out|
    ensures OutputOk(k.(pc := Sending(k.pc.job, k.pc.out, k.pc.sent + n),
                        output := k.output + k.pc.out[k.pc.sent..k.pc.sent + n]))
  {
    hide Encode, EncodeAll;
    var Sending(_, out, sent) := k.pc;
    assert out[..sent] + out[sent..sent + n] == out[..sent + n];
  }

  lemma SendFailsCarried(k: Client)
    requires ClientCarried(k) && k.pc.Sending? && k.pc.sent < |k.pc.out|
    ensures ClientCarried(k.(pc := Closed(SendFailed(k.pc.job, k.pc.out, k.pc.sent))))
  {
    hide Decode, Encode, EncodeAll, AllLegal, Carries;
  }

  lemma EraseCarried(k: Client)
    requires ClientCarried(k) && k.pc.Sending? && k.pc.sent >= |k.pc.out|
    ensures k.pc.job.consumed <= |k.buf|
    ensures ClientCarried(k.(pc := Draining, buf := k.buf[k.pc.job.consumed..],
                             handled := k.handled + [k.pc.job.req]))
  {
    hide BufferOk, Carries, Encode, EncodeAll;
    EraseKeepsBuffer(k);
    AllSent(k);
  }

  lemma AllSent(k: Client)
    requires OutputOk(k) && k.pc.Sending? && k.pc.sent >= |k.pc.out|
    ensures k.output == EncodeAll(k.responses)
  {
    hide Encode, EncodeAll;
    var n := |k.responses| - 1;
    EncodeAllOneMore(k.responses[..n], k.responses[n]);
    assert k.responses[..n] + [k.responses[n]] == k.responses;
    assert k.pc.out[..k.pc.sent] == k.pc.out;
  }

  // ---- the system ----

  lemma OneMoved(s: System, c: nat, t: System)
    requires ClientsCarried(s) && c < |s.clients| == |t.clients| && t.clients == s.clients[c := t.clients[c]]
    requires ClientCarried(t.clients[c])
    ensures ClientsCarried(t)
  {
    hide ClientCarried;
  }

  lemma ReadingCarried(s: System, c: nat, a: Action)
    requires ClientsCarried(s) && Enabled(s, c, a) && ReadsRequest(a)
    ensures ClientCarried(Apply(s, c, a).clients[c])
  {
    hide ClientCarried, Decode, Inc64;
    var k := s.clients[c];
    match a
    case Receive(chunk) => ReceiveCarried(k, chunk);
    case HangUp => HangUpCarried(k);
    case DecodeNext => JudgeCarried(k);
    case Enter => SameJobCarried(k, if s.faulty then AwaitInjector(k.pc.job) else AwaitBus(k.pc.job));
  }

  lemma ReplyingCarried(s: System, c: nat, a: Action)
    requires ClientsCarried(s) && Enabled(s, c, a) && SendsReply(a)
    ensures ClientCarried(Apply(s, c, a).clients[c])
  {
    hide ClientCarried, Encode, Answer, Dispose, CountDisposition;
    var k := s.clients[c];
    match a
    case Translate => TranslateCarried(k);
    case Send(n) => SendCarried(k, n);
    case SendFails => SendFailsCarried(k);
    case Erase => EraseCarried(k);
  }

  lemma MovesKeepCarried(s: System, c: nat, m: Move)
    requires ClientsCarried(s) && Possible(s, c, m)
    ensures ClientsCarried(After(s, c, m))
  {
    hide ClientCarried, Apply, Enabled, Fresh;
    match m
    case Return(reply) =>
      SameJobCarried(s.clients[c], Translating(s.clients[c].pc.job, reply));
      OneMoved(s, c, After(s, c, m));
    case Own(a) =>
      if a.Accept? {
        AcceptCarried(s, c);
      } else {
        StepTouchesOne(s, c, a);
        EnabledClient(s, c, a);
        if ReadsRequest(a) {
          ReadingCarried(s, c, a);
        } else {
          ReplyingCarried(s, c, a);
        }
        OneMoved(s, c, Apply(s, c, a));
      }
  }

  lemma EnabledClient(s: System, c: nat, a: Action)
    requires Enabled(s, c, a) && !a.Accept?
    ensures c < |s.clients|
  {
  }

  lemma AcceptCarried(s: System, c: nat)
    requires ClientsCarried(s) && Enabled(s, c, Accept)
    ensures ClientsCarried(Apply(s, c, Accept))
  {
    hide ClientCarried, Fresh;
    FreshCarried();
    var t := Accepted(s);
    assert forall d | 0 <= d < |s.clients| :: t.clients[d] == s.clients[d];
  }

  lemma {:induction false} RunCarried(faulty: bool, ids: seq<byte>, regs: u16, turns: seq<Turn>)
    requires Run(Start(faulty, ids, regs), turns).Some?
    ensures ClientsCarried(Run(Start(faulty, ids, regs), turns).value)
    decreases |turns|
  {
    hide After, Possible, FreshBus, ClientCarried;
    if turns != [] {
      var turn := turns[|turns| - 1];
      RunCarried(faulty, ids, regs, turns[..|turns| - 1]);
      MovesKeepCarried(Run(Start(faulty, ids, regs), turns[..|turns| - 1]).value, turn.client, turn.move);
    }
  }

  /** Routing over any transport: in every state of every run the k-th response made for a client
      carries the transaction id of the k-th frame it sent, and is a frame that passed the CRC or the
      gateway's exception to that very request. */
  lemma TransactionIdsAreKept(faulty: bool, ids: seq<byte>, regs: u16, turns: seq<Turn>, s: System, c: nat)
    requires Run(Start(faulty, ids, regs), turns) == Some(s) && c < |s.clients|
    ensures var frames, responses := ParseAll(s.clients[c].input).frames, s.clients[c].responses;
      |responses| <= |frames| && forall k | 0 <= k < |responses| :: Carries(frames[k], responses[k])
  {
    hide Run, Start, Carries, ParseAll, Decode, EncodeAll, AllLegal;
    RunCarried(faulty, ids, regs, turns);
    var k := s.clients[c];
    assert ClientCarried(k);
    ParseEncoded(k.handled, k.buf);
    ParseStep(k.buf);
    assert Asked(k) <= ParseAll(k.input).frames;
  }

  /** A response that is not a legal frame is a forwarded reply too long for an RTU ADU. */
  lemma IllegalIsOverlong(q: MbapFrame, a: MbapFrame)
    requires Carries(q, a) && !Legal(a)
    ensures exists rtu :: Passes(rtu) && RtuToTcp(rtu, q.transactionId) == Some(a) && |rtu| > 256
  {
    hide Passes, WithHighBit, RtuToTcp;
    var rtu :| Passes(rtu) && RtuToTcp(rtu, q.transactionId) == Some(a);
    ForwardedIsLegalIff(rtu, q.transactionId);
  }

  /** What reaches a master over any transport: a prefix of its encoded responses. When these are
      legal frames, it decodes to them in order, each carrying the transaction id of the request at
      its place, and never to a framing error. */
  lemma BytesAreCarried(faulty: bool, ids: seq<byte>, regs: u16, turns: seq<Turn>, s: System, c: nat)
    requires Run(Start(faulty, ids, regs), turns) == Some(s) && c < |s.clients|
    ensures s.clients[c].output <= EncodeAll(s.clients[c].responses)
    ensures AllLegal(s.clients[c].responses) ==>
      var sent, got := ParseAll(s.clients[c].input).frames, ParseAll(s.clients[c].output);
      && got.stop == NeedMoreData
      && got.frames <= s.clients[c].responses
      && |got.frames| <= |sent|
      && forall k | 0 <= k < |got.frames| :: Carries(sent[k], got.frames[k])
  {
    hide Run, Start, Carries, ParseAll, BufferOk, Encode, EncodeAll, AllLegal;
    RunCarried(faulty, ids, regs, turns);
    TransactionIdsAreKept(faulty, ids, regs, turns, s, c);
    var k := s.clients[c];
    assert ClientCarried(k);
    PartialIsPrefix(k);
    if AllLegal(k.responses) {
      PrefixParse(k.responses, k.output);
    }
  }
}
