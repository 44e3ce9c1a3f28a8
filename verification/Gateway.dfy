/** TCP/RTU translation, and what the gateway answers to one request. */
module Gateway {
  import opened Bits
  import opened Options
  import opened Crc
  import opened Station
  import opened StationLemmas
  import opened Bus
  import opened Mbap

  /** `tcp_to_rtu`: the length given to the CRC is truncated to 16 bits. */
  function TcpToRtu(f: MbapFrame): (rtu: seq<byte>)
    ensures |rtu| == |f.pdu| + 3
  {
    var body := [f.unitId] + f.pdu;
    var crc := Crc16(body[..ToU16(|body|)]);
    body + [Lo(crc), Hi(crc)]
  }

  /** The gateway's check of an RTU frame, with the same truncation. */
  predicate Passes(rtu: seq<byte>) {
    |rtu| >= 4 && Crc16(rtu[..ToU16(|rtu|)]) == 0
  }

  /** `rtu_to_tcp`. */
  function RtuToTcp(rtu: seq<byte>, transactionId: u16): Option<MbapFrame> {
    if !Passes(rtu) then None
    else Some(MbapFrame(transactionId, 0, rtu[0], rtu[1..|rtu| - 2]))
  }

  // ---- translation round trips ----

  lemma TcpToRtuSeals(f: MbapFrame)
    requires |f.pdu| < 0xFFFF
    ensures TcpToRtu(f) == Seal([f.unitId] + f.pdu)
  {
    hide Crc16;
    var body := [f.unitId] + f.pdu;
    assert body[..|body|] == body;
  }

  /** Translating to RTU and back returns the frame exactly when its protocol id is 0, it has a PDU,
      and what the truncated length makes the gateway check ends in the CRC that was appended. Up to
      65534 bytes of PDU that is: when it has 1 to 65532 bytes. */
  lemma RtuRoundTrip(f: MbapFrame)
    ensures var rtu, n := TcpToRtu(f), ToU16(|f.pdu| + 3);
      && n <= |rtu|
      && (RtuToTcp(rtu, f.transactionId) == Some(f)
          <==> f.protocolId == 0 && f.pdu != [] && 2 <= n && rtu[n - 2..n] == rtu[|rtu| - 2..])
    ensures |f.pdu| <= 0xFFFE ==>
      (RtuToTcp(TcpToRtu(f), f.transactionId) == Some(f) <==> f.protocolId == 0 && 1 <= |f.pdu| <= 0xFFFC)
  {
    hide Crc16, Hi, Lo, Word, TcpToRtu, ToU16;
    var rtu := TcpToRtu(f);
    CastOfShorter(|rtu|);
    CastOfLong(|rtu|);
    var n := ToU16(|rtu|);
    assert rtu[1..|rtu| - 2] == f.pdu && rtu[0] == f.unitId by {
      TranslatedBytes(f);
    }
    if n <= 1 {
      ShortHasResidue(rtu[..n]);
    } else {
      CheckedPart(f, n);
    }
  }

  lemma CastOfLong(n: nat)
    ensures n == 0x1_0000 || n == 0x1_0001 ==> ToU16(n) <= 1
  {
  }

  lemma TranslatedBytes(f: MbapFrame)
    ensures TcpToRtu(f)[0] == f.unitId && TcpToRtu(f)[1..|f.pdu| + 1] == f.pdu
  {
    hide Crc16, Hi, Lo;
  }

  /** The part that is checked has zero residue exactly when it ends in the CRC that was appended. */
  lemma CheckedPart(f: MbapFrame, n: nat)
    requires n == ToU16(|f.pdu| + 3) >= 2
    ensures n <= |TcpToRtu(f)|
    ensures var rtu := TcpToRtu(f); Crc16(rtu[..n]) == 0 <==> rtu[n - 2..n] == rtu[|rtu| - 2..]
  {
    hide Crc16, Hi, Lo, Word, ToU16;
    CastOfShorter(|f.pdu| + 3);
    var rtu, body := TcpToRtu(f), [f.unitId] + f.pdu;
    var head := rtu[..n];
    var crc := Crc16(body[..n - 2]);
    assert head[..n - 2] == body[..n - 2];
    assert rtu[|rtu| - 2..] == [Lo(crc), Hi(crc)];
    ResidueIsZeroIffSealed(head);
    assert rtu[n - 2..n] == [head[n - 2], head[n - 1]];
    WordOfBytes(crc);
    BytesOfWord(head[n - 1], head[n - 2]);
  }

  /** Every accepted RTU frame is reproduced by translating it back, unless its length does not fit
      16 bits and it ends in other bytes than the CRC that was checked. */
  lemma TcpRoundTrip(rtu: seq<byte>, transactionId: u16)
    requires RtuToTcp(rtu, transactionId).Some?
    ensures var f, n := RtuToTcp(rtu, transactionId).value, ToU16(|rtu|);
      && f.transactionId == transactionId && f.protocolId == 0
      && 2 <= n <= |rtu|
      && (TcpToRtu(f) == rtu <==> rtu[|rtu| - 2..] == rtu[n - 2..n])
      && (|rtu| < 0x1_0000 ==> TcpToRtu(f) == rtu)
  {
    hide Crc16, Hi, Lo, ToU16;
    CastOfShorter(|rtu|);
    var n := ToU16(|rtu|);
    var head := rtu[..n];
    if n <= 1 {
      ShortHasResidue(head);
    }
    ZeroResidueIsSealed(head);
    var f := RtuToTcp(rtu, transactionId).value;
    var body := rtu[..|rtu| - 2];
    var crc := Crc16(rtu[..n - 2]);
    assert [f.unitId] + f.pdu == body;
    assert body[..n - 2] == head[..n - 2] == rtu[..n - 2];
    assert rtu[n - 2..n] == head[n - 2..] == [Lo(crc), Hi(crc)];
    assert rtu == body + rtu[|rtu| - 2..];
    assert TcpToRtu(f) == body + [Lo(crc), Hi(crc)];
    assert TcpToRtu(f)[|rtu| - 2..] == [Lo(crc), Hi(crc)];
  }

  lemma CastOfShorter(n: nat)
    requires n >= 2
    ensures ToU16(n) <= n && (n < 0x1_0000 ==> ToU16(n) == n)
    ensures ToU16(n) >= 2 ==> ToU16(n - 2) == ToU16(n) - 2
  {
  }

  /** An accepted frame of 65540 bytes that translating back does not reproduce. */
  lemma OverlongIsNotReproduced(transactionId: u16)
    ensures var last := if Lo(Crc16([0, 0])) == 0 then 1 else 0;
      var rtu := Seal([0, 0]) + seq(0x1_0000, _ => last);
      && RtuToTcp(rtu, transactionId).Some?
      && TcpToRtu(RtuToTcp(rtu, transactionId).value) != rtu
  {
    hide Crc16, Hi, Lo;
    var last := if Lo(Crc16([0, 0])) == 0 then 1 else 0;
    var rtu := Seal([0, 0]) + seq(0x1_0000, _ => last);
    SealHasZeroResidue([0, 0]);
    assert rtu[..4] == Seal([0, 0]);
    TcpRoundTrip(rtu, transactionId);
    assert rtu[|rtu| - 2..][0] == last && rtu[2..4][0] == Lo(Crc16([0, 0]));
  }

  /** A legal frame becomes an RTU request of 4 to 256 bytes that no slave rejects for its length
      or its CRC. */
  lemma LegalRequestIsIntact(f: MbapFrame)
    requires Legal(f)
    ensures Intact(TcpToRtu(f)) && 4 <= |TcpToRtu(f)| <= 256
    ensures TcpToRtu(f)[0] == f.unitId && TcpToRtu(f)[1] == f.pdu[0]
    ensures TcpToRtu(f)[1..|f.pdu| + 1] == f.pdu
  {
    hide Crc16, Seal, Intact;
    TcpToRtuSeals(f);
    var body := [f.unitId] + f.pdu;
    SealedIsIntact(body);
    assert TcpToRtu(f)[..|body|] == body;
    assert body[1..] == f.pdu;
  }

  // ---- one request ----

  datatype Disposition = Responded | TimedOut | CrcFailed

  /** The gateway's statistics. */
  datatype Stats = Stats(requests: u64, responses: u64, timeouts: u64, crcFailures: u64, malformed: u64)

  function CountDisposition(stats: Stats, d: Disposition): Stats {
    match d
    case Responded => stats.(responses := Inc64(stats.responses))
    case TimedOut => stats.(timeouts := Inc64(stats.timeouts))
    case CrcFailed => stats.(crcFailures := Inc64(stats.crcFailures))
  }

  /** How the gateway accounts for what came back from the bus. */
  function Dispose(reply: Option<seq<byte>>, transactionId: u16): Disposition {
    if reply.None? then TimedOut
    else if RtuToTcp(reply.value, transactionId).None? then CrcFailed
    else Responded
  }

  /** The frame the gateway returns for what came back from the bus. */
  function Answer(req: MbapFrame, reply: Option<seq<byte>>): MbapFrame
    requires req.pdu != []
  {
    if Dispose(reply, req.transactionId).Responded? then RtuToTcp(reply.value, req.transactionId).value
    else MakeException(req.transactionId, req.unitId, req.pdu[0], EX_TARGET_NO_RESPONSE)
  }

  /** One whole exchange as an atomic step: the bus afterwards, and what came back. */
  function Exchange(bus: seq<Station>, req: MbapFrame, draw: Draw): (seq<Station>, Option<seq<byte>>) {
    FaultyTransact(bus, TcpToRtu(req), draw)
  }

  /** The bus after one request, and the response to it. */
  function Handled(bus: seq<Station>, req: MbapFrame, draw: Draw): (seq<Station>, MbapFrame)
    requires req.pdu != []
  {
    var (after, reply) := Exchange(bus, req, draw);
    (after, Answer(req, reply))
  }

  /** Does the exchange end in a damaged reply? */
  predicate Corrupting(bus: seq<Station>, req: MbapFrame, draw: Draw) {
    !draw.drop && draw.corrupt && Transact(bus, TcpToRtu(req)).1.Some?
  }

  /** Everything that is counted on the way of a request: by the gateway and by the injector. */
  datatype Ledger = Ledger(stats: Stats, dropped: u64, corrupted: u64)

  /** The counters after one request. */
  function RequestCounted(l: Ledger, bus: seq<Station>, req: MbapFrame, draw: Draw): Ledger {
    var taken := l.stats.(requests := Inc64(l.stats.requests));
    Ledger(CountDisposition(taken, Dispose(Exchange(bus, req, draw).1, req.transactionId)),
           if draw.drop then Inc64(l.dropped) else l.dropped,
           if Corrupting(bus, req, draw) then Inc64(l.corrupted) else l.corrupted)
  }

  /** Over any transport at all, the response carries the transaction id of the request, and what
      is forwarded passed the CRC. Its unit id is the request's exactly when nothing was forwarded
      or the reply named the same unit: the gateway does not compare them. */
  lemma AnyTransportKeepsTransactionId(req: MbapFrame, reply: Option<seq<byte>>)
    requires req.pdu != []
    ensures Answer(req, reply).transactionId == req.transactionId && Answer(req, reply).protocolId == 0
    ensures Dispose(reply, req.transactionId).Responded? <==> reply.Some? && Passes(reply.value)
    ensures Answer(req, reply).unitId == req.unitId
        <==> reply.None? || !Passes(reply.value) || reply.value[0] == req.unitId
  {
    hide Passes, WithHighBit;
    if Dispose(reply, req.transactionId).Responded? {
      PassingIsLong(reply.value);
    }
  }

  lemma PassingIsLong(rtu: seq<byte>)
    requires Passes(rtu)
    ensures |rtu| >= 4
  {
    hide Crc16;
  }

  /** Over any transport, a forwarded reply is a legal frame exactly when it fits an RTU ADU; the
      gateway itself sets no upper bound. */
  lemma ForwardedIsLegalIff(rtu: seq<byte>, transactionId: u16)
    requires Passes(rtu)
    ensures Legal(RtuToTcp(rtu, transactionId).value) <==> |rtu| <= 256
  {
    hide Crc16;
  }

  /** Two replies a transport could deliver that the gateway forwards although they should not
      reach the master: one from another unit, and one too long for any decoder. */
  lemma StrayRepliesAreForwarded(req: MbapFrame, unit: byte)
    requires req.pdu != [] && unit != req.unitId
    ensures var stray := Seal([unit] + [0, 0]);
      Answer(req, Some(stray)).unitId == unit != req.unitId
    ensures var long := Seal([req.unitId] + seq(300, _ => 0));
      Dispose(Some(long), req.transactionId).Responded? && !Legal(Answer(req, Some(long)))
  {
    hide Crc16, Seal;
    var stray, long := Seal([unit] + [0, 0]), Seal([req.unitId] + seq(300, _ => 0));
    SealHasZeroResidue([unit] + [0, 0]);
    SealHasZeroResidue([req.unitId] + seq(300, _ => 0));
    assert stray[..|stray|] == stray && long[..|long|] == long;
    assert stray[..3][0] == stray[0];
  }

  /** What a request meets on the bus: its reply as the slave sent it, before any damage. */
  function CleanReply(bus: seq<Station>, req: MbapFrame): Option<seq<byte>> {
    Scan(bus, TcpToRtu(req)).1
  }

  /** Any exchange, of any length: a drop before the bus is reached, or a scan of the bytes that the
      16-bit length covers, whose reply may be damaged. */
  lemma AnyExchange(bus: seq<Station>, req: MbapFrame, draw: Draw)
    ensures var rtu := TcpToRtu(req);
      var scan := Scan(bus, rtu[..|rtu| % 65536]);
      Exchange(bus, req, draw)
         == if draw.drop then (bus, None)
            else (scan.0, if scan.1.Some? then Some(Damage(scan.1.value, draw)) else None)
  {
    hide TcpToRtu, Scan, Damage, Transact;
    TransactIs(bus, TcpToRtu(req));
  }

  lemma LegalExchange(bus: seq<Station>, req: MbapFrame, draw: Draw)
    requires Legal(req)
    ensures Exchange(bus, req, draw)
         == if draw.drop then (bus, None)
            else (Scan(bus, TcpToRtu(req)).0,
                  if CleanReply(bus, req).Some? then Some(Damage(CleanReply(bus, req).value, draw)) else None)
  {
    hide TcpToRtu, Scan, Damage, Exchange;
    AnyExchange(bus, req, draw);
    var rtu := TcpToRtu(req);
    assert rtu[..|rtu| % 65536] == rtu;
  }

  /** For decoded requests: a slave answered, and a bit of its reply was flipped. */
  lemma CorruptingIff(bus: seq<Station>, req: MbapFrame, draw: Draw)
    requires Legal(req)
    ensures Corrupting(bus, req, draw) <==> !draw.drop && draw.corrupt && CleanReply(bus, req).Some?
  {
    hide TcpToRtu, Scan;
    var rtu := TcpToRtu(req);
    assert rtu[..ToU16(|rtu|)] == rtu;
  }

  /** Faults never leak: a response is forwarded exactly when the exchange was neither dropped nor
      damaged and a slave answered, and then it is the slave's reply untouched; a damaged reply is
      a CRC failure; everything else is a timeout. */
  lemma FaultsBecomeExceptions(bus: seq<Station>, req: MbapFrame, draw: Draw)
    requires Legal(req)
    ensures var clean := CleanReply(bus, req);
      var reply := Exchange(bus, req, draw).1;
      && Dispose(reply, req.transactionId)
         == (if draw.drop || clean.None? then TimedOut else if draw.corrupt then CrcFailed else Responded)
      && (Dispose(reply, req.transactionId).Responded? ==> reply == clean)
  {
    hide Crc16, TcpToRtu, Scan, Intact;
    LegalExchange(bus, req, draw);
    ScanReplies(bus, TcpToRtu(req));
    if CleanReply(bus, req).Some? {
      var frame := CleanReply(bus, req).value;
      DamageIsDetected(frame, draw.pick % |frame|);
      assert frame[..|frame|] == frame;
      var got := Damage(frame, draw);
      assert got[..|got|] == got;
    }
  }

  /** The routing invariant for one request, over the in-process bus with or without faults: the
      response carries the request's transaction id and unit id, its function code up to bit 7, and
      encodes to an ADU that decodes. Code 11 comes from the gateway and from nowhere else. */
  lemma ResponseMatchesRequest(bus: seq<Station>, req: MbapFrame, draw: Draw)
    requires Legal(req)
    ensures var reply := Exchange(bus, req, draw).1;
      var rsp := Answer(req, reply);
      && rsp.transactionId == req.transactionId && rsp.unitId == req.unitId && Legal(rsp)
      && (rsp.pdu[0] == req.pdu[0] || rsp.pdu[0] == WithHighBit(req.pdu[0]))
      && (Dispose(reply, req.transactionId).Responded?
          <==> rsp.pdu != [WithHighBit(req.pdu[0]), 11])
  {
    hide Crc16, TcpToRtu, Scan, Intact, Exchange, Damage;
    var reply := Exchange(bus, req, draw).1;
    FaultsBecomeExceptions(bus, req, draw);
    ScanReplies(bus, TcpToRtu(req));
    LegalRequestIsIntact(req);
    if Dispose(reply, req.transactionId).Responded? {
      var frame := reply.value;
      assert Answer(req, reply).pdu == frame[1..|frame| - 2];
      ForwardedPdu(frame, req.pdu[0]);
    }
  }

  lemma ForwardedPdu(frame: seq<byte>, fc: byte)
    requires 5 <= |frame| <= 255 && AnswersFunction(frame, fc)
    ensures frame[1..|frame| - 2] != [WithHighBit(fc), 11]
  {
  }

  /** Exception 10 is the answer to an empty PDU and to nothing else: neither the gateway nor a
      slave says it to any other request, whatever the faults. */
  lemma PathUnavailableNever(bus: seq<Station>, req: MbapFrame, draw: Draw)
    requires req.pdu != []
    ensures !Excepts(Answer(req, Exchange(bus, req, draw).1), 10)
  {
    hide Crc16, TcpToRtu, Scan, Intact, FlipAt;
    var rtu := TcpToRtu(req);
    var reply := Exchange(bus, req, draw).1;
    ScanReplies(bus, rtu[..ToU16(|rtu|)]);
    if reply.Some? && Passes(reply.value) {
      var frame := Transact(bus, rtu).1.value;
      DamageIsDetected(frame, draw.pick % |frame|);
      assert reply.value[..|reply.value|] == reply.value;
    }
  }
}
