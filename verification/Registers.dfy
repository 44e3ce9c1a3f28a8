/** The registers a master sees: every register holds the last value written to it, in the order of
    the exchanges, or its seed. */
module Registers {
  import opened Bits
  import opened Options
  import opened Crc
  import opened Station
  import opened StationContract
  import opened StationLemmas
  import opened Bus
  import opened Dispatch
  import opened Mbap
  import opened Gateway
  import opened History

  /** What an event writes to register `r` of `unit`: broadcasts reach every unit, and a dropped
      exchange writes nothing, but one whose reply was damaged does. */
  function Writes(e: Event, unit: byte, regs: nat, r: nat): Option<u16> {
    if e.draw.drop || (e.req.unitId != unit && e.req.unitId != 0) then None
    else PduWrites(e.req.pdu, regs, r)
  }

  /** The last value written, or the seed. */
  function LastValue(log: seq<Event>, unit: byte, regs: nat, r: nat): u16 {
    if log == [] then SeedValue(unit, r)
    else
      var w := Writes(log[|log| - 1], unit, regs, r);
      if w.Some? then w.value else LastValue(log[..|log| - 1], unit, regs, r)
  }

  // ---- one request, one slave ----

  /** What a decoded frame becomes on the bus. */
  lemma RequestFrame(f: MbapFrame)
    requires Legal(f)
    ensures Framed(TcpToRtu(f)) && PduOf(TcpToRtu(f)) == f.pdu
    ensures TcpToRtu(f)[0] == f.unitId && TcpToRtu(f)[1] == f.pdu[0]
  {
    hide Crc16, TcpToRtu, Intact;
    LegalRequestIsIntact(f);
    IntactIffZeroResidue(TcpToRtu(f));
  }

  /** The register of a slave after it has handled a request from the gateway. */
  lemma RequestWrites(s: Station, f: MbapFrame, r: nat)
    requires Legal(f) && r < |s.holding|
    ensures var t := Handle(s, TcpToRtu(f)).0;
      && t.addr == s.addr && |t.holding| == |s.holding|
      && var w := if f.unitId == s.addr || f.unitId == 0 then PduWrites(f.pdu, |s.holding|, r) else None;
         t.holding[r] == if w.Some? then w.value else s.holding[r]
  {
    hide Crc16, TcpToRtu, Handle, PduWrites, Framed, PduOf;
    RequestFrame(f);
    RegistersAfter(s, TcpToRtu(f));
  }

  // ---- the bus ----

  predicate DistinctIds(ids: seq<byte>) {
    forall i, j | 0 <= i < j < |ids| :: ids[i] != ids[j]
  }

  /** The units of the bus never change. */
  predicate Serves(bus: seq<Station>, ids: seq<byte>, regs: nat) {
    |bus| == |ids| && forall k | 0 <= k < |ids| :: bus[k].addr == ids[k] && |bus[k].holding| == regs
  }

  lemma {:induction false} BusKeepsUnits(ids: seq<byte>, regs: u16, log: seq<Event>)
    requires LegalLog(log)
    ensures Serves(BusAfter(FreshBus(ids, regs), log), ids, regs)
    decreases |log|
  {
    hide Legal, Scan, Exchange;
    if log != [] {
      var before, e := log[..|log| - 1], log[|log| - 1];
      assert e in log;
      BusKeepsUnits(ids, regs, before);
      var bus := BusAfter(FreshBus(ids, regs), before);
      LegalExchange(bus, e.req, e.draw);
      ScanKeepsUnits(bus, TcpToRtu(e.req));
    }
  }

  /** Linearizability: after any log, register `r` of every unit holds the last value written to it
      in log order, or its seed. */
  lemma {:induction false} RegistersHoldLastWrites(ids: seq<byte>, regs: u16, log: seq<Event>, k: nat, r: nat)
    requires DistinctIds(ids) && LegalLog(log) && k < |ids| && r < regs
    ensures Serves(BusAfter(FreshBus(ids, regs), log), ids, regs)
    ensures BusAfter(FreshBus(ids, regs), log)[k].holding[r] == LastValue(log, ids[k], regs, r)
    decreases |log|
  {
    hide Legal, Scan, Exchange, PduWrites, Handle, TcpToRtu, SeedValue, Intact;
    BusKeepsUnits(ids, regs, log);
    if log != [] {
      var before, e := log[..|log| - 1], log[|log| - 1];
      assert e in log;
      BusKeepsUnits(ids, regs, before);
      RegistersHoldLastWrites(ids, regs, before, k, r);
      var bus := BusAfter(FreshBus(ids, regs), before);
      LegalExchange(bus, e.req, e.draw);
      ScanIsPointwise(bus, TcpToRtu(e.req), k);
      RequestWrites(bus[k], e.req, r);
    }
  }

  // ---- answers ----

  /** The scan finds the addressed slave and returns what it says. */
  lemma {:induction false} ScanReturnsReply(slaves: seq<Station>, req: seq<byte>, k: nat)
    requires Distinct(slaves) && Framed(req) && req[0] != 0 && k < |slaves| && slaves[k].addr == req[0]
    requires Handle(slaves[k], req).1.Respond?
    ensures Scan(slaves, req).1 == Some(Handle(slaves[k], req).1.frame)
    decreases |slaves|
  {
    hide Handle, Framed;
    if k > 0 {
      assert slaves[0].addr != slaves[k].addr;
      FramedIsLong(req);
      IgnoresOthers(slaves[0], req);
      ScanReturnsReply(slaves[1..], req, k - 1);
    }
  }

  lemma FramedIsLong(req: seq<byte>)
    requires Framed(req)
    ensures 4 <= |req| <= 256
  {
    hide Crc16;
  }

  /** The register file of a unit in the log: the last values written, or the seeds. */
  function RegisterFile(log: seq<Event>, unit: byte, regs: nat): (values: seq<u16>)
    ensures |values| == regs
  {
    seq<u16>(regs, r requires 0 <= r => LastValue(log, unit, regs, r))
  }

  /** A request that the bus of these units answers. */
  predicate Answerable(f: MbapFrame, ids: seq<byte>) {
    Legal(f) && f.unitId != 0 && WellShaped(f.pdu) && f.unitId in ids
  }

  /** The PDU of the response to an exchange that follows `log`: exception 11 if a fault hit it or
      nobody answers such a request, and else the answer of a slave whose registers hold the last
      values written. */
  function ExpectedPdu(ids: seq<byte>, regs: nat, log: seq<Event>, e: Event): seq<byte>
    requires e.req.pdu != []
  {
    if e.draw.drop || e.draw.corrupt || !Answerable(e.req, ids) then [TopBitSet(e.req.pdu[0]), 11]
    else AnswerPdu(e.req.pdu, RegisterFile(log, e.req.unitId, regs))
  }

  lemma AnswerFrame(bus: seq<Station>, f: MbapFrame, k: nat)
    requires Distinct(bus) && k < |bus| && Legal(f) && bus[k].addr == f.unitId != 0 && WellShaped(f.pdu)
    ensures CleanReply(bus, f) == Some(Seal([f.unitId] + AnswerPdu(f.pdu, bus[k].holding)))
  {
    hide Crc16, TcpToRtu, Handle, Scan, Framed, PduOf, AnswerPdu, Seal, WellShaped, Distinct, Written, Refusal;
    RequestFrame(f);
    AnswersRequest(bus[k], TcpToRtu(f));
    ScanReturnsReply(bus, TcpToRtu(f), k);
  }

  lemma FileHolds(ids: seq<byte>, regs: u16, log: seq<Event>, k: nat)
    requires DistinctIds(ids) && LegalLog(log) && k < |ids|
    ensures Serves(BusAfter(FreshBus(ids, regs), log), ids, regs)
    ensures BusAfter(FreshBus(ids, regs), log)[k].holding == RegisterFile(log, ids[k], regs)
  {
    hide LegalLog, BusAfter, FreshBus, LastValue;
    BusKeepsUnits(ids, regs, log);
    var s := BusAfter(FreshBus(ids, regs), log)[k];
    forall r | 0 <= r < regs ensures s.holding[r] == RegisterFile(log, ids[k], regs)[r] {
      RegistersHoldLastWrites(ids, regs, log, k, r);
    }
  }

  lemma ServesDistinct(bus: seq<Station>, ids: seq<byte>, regs: nat)
    requires Serves(bus, ids, regs) && DistinctIds(ids)
    ensures Distinct(bus)
  {
  }

  /** Every response of every sequential run, byte by byte: the request's transaction id and unit id,
      protocol id 0, and the expected PDU. */
  lemma ResponsesAreDetermined(ids: seq<byte>, regs: u16, log: seq<Event>, e: Event)
    requires DistinctIds(ids) && LegalLog(log) && Legal(e.req)
    ensures Answer(e.req, ReplyAfter(FreshBus(ids, regs), log, e))
         == MbapFrame(e.req.transactionId, 0, e.req.unitId, ExpectedPdu(ids, regs, log, e))
  {
    hide Scan, Exchange, Handle, TcpToRtu, LastValue, RegisterFile, Seal, Passes, BusAfter, FreshBus, AnswerPdu,
         WellShaped, CleanReply, LegalLog, WithHighBit, Or, DistinctIds, Serves;
    var bus := BusAfter(FreshBus(ids, regs), log);
    BusKeepsUnits(ids, regs, log);
    ServesDistinct(bus, ids, regs);
    UnansweredEvent(ids, regs, log, e);
    FaultsBecomeExceptions(bus, e.req, e.draw);
    WithHighBitIsOr(e.req.pdu[0]);
    if !e.draw.drop && !e.draw.corrupt && Answerable(e.req, ids) {
      var k :| 0 <= k < |ids| && ids[k] == e.req.unitId;
      FileHolds(ids, regs, log, k);
      ServesUnit(bus, ids, regs, k);
      AnswerFrame(bus, e.req, k);
      SealedPdu(e.req.unitId, AnswerPdu(e.req.pdu, bus[k].holding));
    }
  }

  lemma ServesUnit(bus: seq<Station>, ids: seq<byte>, regs: nat, k: nat)
    requires Serves(bus, ids, regs) && k < |ids|
    ensures k < |bus| && bus[k].addr == ids[k] && |bus[k].holding| == regs
  {
  }

  lemma SealedPdu(addr: byte, pdu: seq<byte>)
    ensures var frame := Seal([addr] + pdu); frame[0] == addr && frame[1..|frame| - 2] == pdu
  {
    hide Crc16;
  }

  // ---- reads ----

  /** A read of `qty` registers from `start`, within the protocol's limits. */
  predicate IsRead(pdu: seq<byte>, start: nat, qty: nat) {
    |pdu| == 5 && pdu[0] == 3 && 1 <= qty <= 125 && Number(pdu, 1) == start && Number(pdu, 3) == qty
  }

  function LastValues(log: seq<Event>, unit: byte, regs: nat, start: nat, qty: nat): (values: seq<u16>)
    ensures |values| == qty
  {
    seq<u16>(qty, i requires 0 <= i => LastValue(log, unit, regs, start + i))
  }

  /** The PDU that carries register values to the master. */
  function ReadPdu(values: seq<u16>): seq<byte>
    requires |values| <= 125
  {
    [3, 2 * |values|] + WordBytes(values)
  }

  /** A forwarded read returns, for every register it covers, the last value written to it before
      the read in log order, or the seed. */
  lemma ReadsReturnLastWrites(ids: seq<byte>, regs: u16, log: seq<Event>, e: Event, start: nat, qty: nat)
    requires DistinctIds(ids) && LegalLog(log) && e.req.unitId in ids
    requires Legal(e.req) && e.req.unitId != 0
    requires IsRead(e.req.pdu, start, qty) && start + qty <= regs
    requires !e.draw.drop && !e.draw.corrupt
    ensures Answer(e.req, ReplyAfter(FreshBus(ids, regs), log, e)).pdu
         == ReadPdu(LastValues(log, e.req.unitId, regs, start, qty))
  {
    hide Legal, Answer, ReplyAfter, LastValue, Number, LegalLog, DistinctIds, WordBytes, TopBitSet;
    ResponsesAreDetermined(ids, regs, log, e);
    var unit := e.req.unitId;
    assert RegisterFile(log, unit, regs)[start..start + qty] == LastValues(log, unit, regs, start, qty);
  }

  // ---- silence ----

  lemma RespondsIff(s: Station, f: MbapFrame)
    requires Legal(f)
    ensures Handle(s, TcpToRtu(f)).1.Respond? <==> f.unitId == s.addr && f.unitId != 0 && WellShaped(f.pdu)
  {
    hide Crc16, TcpToRtu, Handle, WellShaped, Framed, PduOf, Written, AnswerPdu, Refusal, Seal;
    var req := TcpToRtu(f);
    RequestFrame(f);
    FramedIsLong(req);
    if req[0] != 0 && req[0] != s.addr {
      IgnoresOthers(s, req);
    } else if !WellShaped(f.pdu) {
      DropsMisshapen(s, req);
    } else if req[0] == 0 {
      AppliesBroadcast(s, req);
    } else {
      AnswersRequest(s, req);
    }
  }

  lemma {:induction false} ScanAnswersIff(slaves: seq<Station>, req: seq<byte>)
    ensures Scan(slaves, req).1.Some? <==> exists k | 0 <= k < |slaves| :: Handle(slaves[k], req).1.Respond?
    decreases |slaves|
  {
    hide Handle;
    if slaves != [] && !Handle(slaves[0], req).1.Respond? {
      ScanAnswersIff(slaves[1..], req);
      if k :| 0 <= k < |slaves| && Handle(slaves[k], req).1.Respond? {
        assert slaves[1..][k - 1] == slaves[k];
      }
    }
  }

  /** Exactly which forwarded requests the bus answers: those for a unit on it, not broadcast, with
      the length their function code calls for. All others come back as timeouts. */
  lemma AnsweredIff(slaves: seq<Station>, f: MbapFrame)
    requires Legal(f)
    ensures CleanReply(slaves, f).Some?
        <==> f.unitId != 0 && WellShaped(f.pdu) && exists s | s in slaves :: s.addr == f.unitId
  {
    hide Handle, Scan, TcpToRtu, WellShaped;
    ScanAnswersIff(slaves, TcpToRtu(f));
    forall k | 0 <= k < |slaves|
      ensures Handle(slaves[k], TcpToRtu(f)).1.Respond?
          <==> slaves[k].addr == f.unitId && f.unitId != 0 && WellShaped(f.pdu)
    {
      RespondsIff(slaves[k], f);
    }
  }

  lemma UnitOnBus(bus: seq<Station>, ids: seq<byte>, regs: nat, unit: byte)
    requires Serves(bus, ids, regs)
    ensures (exists s | s in bus :: s.addr == unit) <==> unit in ids
  {
    if unit in ids {
      var k :| 0 <= k < |ids| && ids[k] == unit;
      assert bus[k] in bus;
    }
    if s :| s in bus && s.addr == unit {
      var k :| 0 <= k < |bus| && bus[k] == s;
      assert ids[k] == unit;
    }
  }

  /** At any point of any run the bus answers exactly the answerable requests. */
  lemma UnansweredEvent(ids: seq<byte>, regs: u16, before: seq<Event>, e: Event)
    requires LegalLog(before) && Legal(e.req)
    ensures CleanReply(BusAfter(FreshBus(ids, regs), before), e.req).Some? <==> Answerable(e.req, ids)
  {
    hide CleanReply, FreshBus, BusAfter, WellShaped, Legal, LegalLog;
    var bus := BusAfter(FreshBus(ids, regs), before);
    BusKeepsUnits(ids, regs, before);
    AnsweredIff(bus, e.req);
    UnitOnBus(bus, ids, regs, e.req.unitId);
    LegalPduIsNotEmpty(e.req);
  }

  lemma LegalPduIsNotEmpty(f: MbapFrame)
    requires Legal(f)
    ensures f.pdu != []
  {
  }

  /** No exchange goes unanswered exactly when each was dropped or asked something the bus answers. */
  lemma {:induction false} UnansweredIff(ids: seq<byte>, regs: u16, log: seq<Event>)
    requires LegalLog(log)
    ensures Unanswered(FreshBus(ids, regs), log) == 0 <==> forall e | e in log :: e.draw.drop || Answerable(e.req, ids)
    decreases |log|
  {
    hide CleanReply, FreshBus, BusAfter, Answerable, Legal;
    if log != [] {
      var before, e := log[..|log| - 1], log[|log| - 1];
      assert log == before + [e];
      assert e in log;
      UnansweredIff(ids, regs, before);
      UnansweredEvent(ids, regs, before, e);
    }
  }

  lemma {:induction false} FaultsAreEvents(bus: seq<Station>, log: seq<Event>)
    requires LegalLog(log)
    ensures Drops(log) + Corruptions(bus, log) + Unanswered(bus, log) <= |log|
    decreases |log|
  {
    hide BusAfter, CleanReply, Legal, Corrupting;
    if log != [] {
      var before, e := log[..|log| - 1], log[|log| - 1];
      assert e in log;
      FaultsAreEvents(bus, before);
      CorruptingIff(BusAfter(bus, before), e.req, e.draw);
    }
  }

  /** Over any log the exchanges that end in exception 0x0B are as many as the injected faults
      exactly when each exchange was dropped or asked something the bus answers. */
  lemma ExceptionsEqualFaultsIff(ids: seq<byte>, regs: u16, log: seq<Event>)
    requires LegalLog(log)
    ensures var bus := FreshBus(ids, regs);
      DisposedAs(TimedOut, bus, log) + DisposedAs(CrcFailed, bus, log) == Drops(log) + Corruptions(bus, log)
      <==> forall e | e in log :: e.draw.drop || Answerable(e.req, ids)
  {
    hide FreshBus, DisposedAs, Drops, Corruptions, Unanswered, Answerable, LegalLog;
    FaultAccounting(FreshBus(ids, regs), log);
    UnansweredIff(ids, regs, log);
  }

  /** A broadcast read that no fault hits: one exception, no injected fault. */
  lemma BroadcastTimesOut(ids: seq<byte>, regs: u16, c: nat, transactionId: u16)
    ensures var bus := FreshBus(ids, regs);
      var req := MbapFrame(transactionId, 0, 0, [3, 0, 0, 0, 1]);
      var log := [Event(c, req, NO_FAULT)];
      && LegalLog(log)
      && Excepts(Answer(req, ReplyAfter(bus, [], log[0])), 11)
      && DisposedAs(TimedOut, bus, log) == 1
      && Drops(log) == 0 && Corruptions(bus, log) == 0
  {
    hide FreshBus, CleanReply, Exchange, Corrupting;
    var bus := FreshBus(ids, regs);
    var req := MbapFrame(transactionId, 0, 0, [3, 0, 0, 0, 1]);
    var log := [Event(c, req, NO_FAULT)];
    AnsweredIff(bus, req);
    FaultsBecomeExceptions(bus, req, NO_FAULT);
    CorruptingIff(bus, req, NO_FAULT);
    assert log[..0] == [];
  }
}
