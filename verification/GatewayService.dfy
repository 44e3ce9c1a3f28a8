/** The gateway as an object: statistics updated in place around one exchange on the bus. */
module GatewayService {
  import opened Bits
  import opened Options
  import opened Crc
  import opened Station
  import opened Bus
  import opened Mbap
  import opened G = Gateway
  import opened RtuTransport

  /** `encode`: the frame is appended byte by byte. */
  method EncodeFrame(f: MbapFrame) returns (out: seq<byte>)
    ensures out == Encode(f)
  {
    var length := ToU16(|f.pdu| + 1);
    out := [];
    out := out + [Hi(f.transactionId)];
    out := out + [Lo(f.transactionId)];
    out := out + [Hi(f.protocolId)];
    out := out + [Lo(f.protocolId)];
    out := out + [Hi(length)];
    out := out + [Lo(length)];
    out := out + [f.unitId];
    out := out + f.pdu;
  }

  /** `tcp_to_rtu`. */
  method BuildRtu(f: MbapFrame) returns (rtu: seq<byte>)
    ensures rtu == TcpToRtu(f)
  {
    hide Crc16;
    rtu := [];
    rtu := rtu + [f.unitId];
    rtu := rtu + f.pdu;
    assert rtu == [f.unitId] + f.pdu;
    var crc := ComputeCrc16(rtu, ToU16(|rtu|));
    rtu := rtu + [Lo(crc)];
    rtu := rtu + [Hi(crc)];
  }

  /** `rtu_to_tcp`. */
  method CheckRtu(rtu: seq<byte>, transactionId: u16) returns (f: Option<MbapFrame>)
    ensures f == RtuToTcp(rtu, transactionId)
  {
    hide Crc16;
    if |rtu| < 4 {
      return None;
    }
    var crc := ComputeCrc16(rtu, ToU16(|rtu|));
    if crc != 0 {
      return None;
    }
    f := Some(MbapFrame(transactionId, 0, rtu[0], rtu[1..|rtu| - 2]));
  }

  class GatewayStats {
    var requests: u64
    var responses: u64
    var timeouts: u64
    var crcFailures: u64
    var malformed: u64

    ghost function Value(): Stats
      reads this
    {
      Stats(requests, responses, timeouts, crcFailures, malformed)
    }

    constructor ()
      ensures Value() == Stats(0, 0, 0, 0, 0)
    {
      requests, responses, timeouts, crcFailures, malformed := 0, 0, 0, 0, 0;
    }
  }

  class Gateway {
    const rtu: FaultyRtu
    const stats: GatewayStats

    /** The slaves behind the gateway. */
    ghost function Units(): seq<Station>
      reads rtu.inner, rtu.inner.slaves, rtu.inner.Files()
    {
      rtu.inner.States()
    }

    /** All its counters, with those of the injector. */
    ghost function Counted(): Ledger
      reads stats, rtu
    {
      Ledger(stats.Value(), rtu.dropped, rtu.corrupted)
    }

    constructor (rtu: FaultyRtu, stats: GatewayStats)
      ensures this.rtu == rtu && this.stats == stats
    {
      this.rtu, this.stats := rtu, stats;
    }

    /** What follows the exchange: the outcome is counted and the response made. */
    method Settle(req: MbapFrame, reply: Option<seq<byte>>) returns (rsp: MbapFrame)
      requires req.pdu != []
      modifies stats
      ensures rsp == Answer(req, reply)
      ensures reply.None? || !Passes(reply.value) ==>
        rsp == MbapFrame(req.transactionId, 0, req.unitId, [WithHighBit(req.pdu[0]), 11])
      ensures stats.Value() == CountDisposition(old(stats.Value()), Dispose(reply, req.transactionId))
    {
      hide Passes, Inc64;
      var fc := req.pdu[0];
      if reply.None? {
        stats.timeouts := Inc64(stats.timeouts);
        return MakeException(req.transactionId, req.unitId, fc, EX_TARGET_NO_RESPONSE);
      }
      var answer := CheckRtu(reply.value, req.transactionId);
      if answer.None? {
        stats.crcFailures := Inc64(stats.crcFailures);
        return MakeException(req.transactionId, req.unitId, fc, EX_TARGET_NO_RESPONSE);
      }
      stats.responses := Inc64(stats.responses);
      rsp := answer.value;
    }

    /** `handle`: always exactly one response, and one outcome counted. */
    method Handle(req: MbapFrame, draw: Draw) returns (rsp: MbapFrame)
      requires rtu.inner.Valid()
      modifies stats, rtu, rtu.inner.slaves, rtu.inner.Files()
      ensures req.pdu == [] ==>
        && rsp == MbapFrame(req.transactionId, 0, req.unitId, [128, 10])
        && Units() == old(Units())
        && unchanged(rtu)
        && stats.requests == Inc64(old(stats.requests)) && stats.malformed == Inc64(old(stats.malformed))
        && stats.responses == old(stats.responses) && stats.timeouts == old(stats.timeouts)
        && stats.crcFailures == old(stats.crcFailures)
      ensures req.pdu != [] ==>
        && (Units(), rsp) == Handled(old(Units()), req, draw)
        && Counted() == RequestCounted(old(Counted()), old(Units()), req, draw)
      ensures Excepts(rsp, 10) <==> req.pdu == []
    {
      hide TcpToRtu, RtuToTcp, FaultyTransact, Inc64, Answer, Dispose, CountDisposition, Transact;
      stats.requests := Inc64(stats.requests);
      if req.pdu == [] {
        stats.malformed := Inc64(stats.malformed);
        return MakeException(req.transactionId, req.unitId, 0, EX_PATH_UNAVAILABLE);
      }
      PathUnavailableNever(Units(), req, draw);
      var rtuReq := BuildRtu(req);
      var reply := rtu.Transact(rtuReq, draw);
      rsp := Settle(req, reply);
    }
  }
}
