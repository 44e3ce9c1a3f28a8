/** The Modbus RTU slave core as an object: registers and counters updated in place. */
module Slave {
  import opened Bits
  import opened Crc
  import opened Station

  datatype MbResult = MbRespond | MbSilent | MbBadCrc | MbBadLength

  /** The result code and the reply that go with an outcome. */
  ghost predicate Reports(result: MbResult, frame: seq<byte>, o: Outcome) {
    match o
    case Respond(f) => result == MbRespond && frame == f
    case Silent => result == MbSilent
    case BadCrc => result == MbBadCrc
    case BadLength => result == MbBadLength
  }

  /** Writes a big-endian word. */
  method WriteWord(p: array<byte>, at: nat, v: u16)
    requires at + 2 <= p.Length
    modifies p
    ensures p[..] == old(p[..at]) + [Hi(v), Lo(v)] + old(p[at + 2..])
  {
    p[at] := Hi(v);
    p[at + 1] := Lo(v);
  }

  /** Appends the CRC, low byte first. */
  method SealInPlace(resp: array<byte>, bodyLen: nat) returns (len: nat)
    requires bodyLen + 2 <= resp.Length && bodyLen < 0x1_0000
    modifies resp
    ensures len == bodyLen + 2 && resp[..len] == Seal(old(resp[..bodyLen]))
  {
    var crc := ComputeCrc16(resp[..], bodyLen);
    assert resp[..][..bodyLen] == resp[..bodyLen];
    resp[bodyLen] := Lo(crc);
    resp[bodyLen + 1] := Hi(crc);
    len := bodyLen + 2;
  }

  class Slave {
    const addr: byte
    const holding: array<u16>
    var cntFramesOk: u32
    var cntCrcErr: u32
    var cntLenErr: u32
    var cntExceptions: u32
    var cntResponses: u32
    var cntBroadcast: u32

    ghost function Count(): Counters
      reads this
    {
      Counters(cntFramesOk, cntCrcErr, cntLenErr, cntExceptions, cntResponses, cntBroadcast)
    }

    ghost function State(): Station
      reads this, holding
    {
      Station(addr, holding[..], Count())
    }

    /** `mb_slave_init`: all registers and counters are zero. */
    constructor (addr: byte, holdingCount: u16)
      ensures fresh(holding) && holding.Length == holdingCount
      ensures State() == Station(addr, seq(holdingCount, _ => 0), Counters(0, 0, 0, 0, 0, 0))
    {
      this.addr := addr;
      holding := new u16[holdingCount];
      cntFramesOk, cntCrcErr, cntLenErr := 0, 0, 0;
      cntExceptions, cntResponses, cntBroadcast := 0, 0, 0;
      new;
      for i := 0 to holdingCount
        invariant forall k | 0 <= k < i :: holding[k] == 0
        invariant Count() == ZERO_COUNTERS
      {
        holding[i] := 0;
      }
      assert holding[..] == seq(holdingCount, _ => 0);
    }

    method MakeException(fc: byte, code: byte, resp: array<byte>) returns (result: MbResult, respLen: nat)
      requires resp.Length >= ADU_MAX
      modifies this, resp
      ensures result == MbRespond && respLen == 5
      ensures resp[..respLen] == Seal([addr, WithHighBit(fc), code])
      ensures Count() == old(Count()).(exceptions := Inc(old(cntExceptions)), responses := Inc(old(cntResponses)))
    {
      resp[0] := addr;
      resp[1] := if fc < 0x80 then fc + 0x80 else fc;
      resp[2] := code;
      assert resp[..3] == [addr, WithHighBit(fc), code];
      respLen := SealInPlace(resp, 3);
      cntExceptions := Inc(cntExceptions);
      cntResponses := Inc(cntResponses);
      result := MbRespond;
    }

    /** The loop that puts the registers into a read reply. */
    method CopyRegisters(start: nat, qty: nat, resp: array<byte>)
      requires start + qty <= holding.Length && 3 + 2 * qty <= resp.Length
      modifies resp
      ensures resp[..3 + 2 * qty] == old(resp[..3]) + BytesOf(holding[start..start + qty])
    {
      ghost var words := holding[start..start + qty];
      for i := 0 to qty
        invariant resp[..3 + 2 * i] == old(resp[..3]) + BytesOf(words[..i])
      {
        assert words[..i + 1][..i] == words[..i];
        ghost var before := resp[..3 + 2 * i];
        WriteWord(resp, 3 + 2 * i, holding[start + i]);
        assert resp[..3 + 2 * (i + 1)] == before + [Hi(words[i]), Lo(words[i])];
      }
      assert words[..qty] == words;
    }

    /** Case 0x03 of the switch. */
    method ReadHolding(req: seq<byte>, broadcast: bool, resp: array<byte>) returns (result: MbResult, respLen: nat)
      requires Structured(req) && req[1] == FC_READ_HOLDING && broadcast == IsBroadcast(req)
      requires resp.Length >= ADU_MAX
      modifies this, resp
      ensures State() == Serve(old(State()), req).0
      ensures respLen <= resp.Length && Reports(result, resp[..respLen], Serve(old(State()), req).1)
    {
      hide Seal, BytesOf, Inc, Word;
      if |req| != 8 {
        cntLenErr := Inc(cntLenErr);
        return MbBadLength, 0;
      }
      if broadcast {
        return MbSilent, 0;
      }
      var start, qty := Word(req[2], req[3]), Word(req[4], req[5]);
      if qty < 1 || qty > READ_QTY_MAX {
        result, respLen := MakeException(req[1], EX_ILLEGAL_VALUE, resp);
        return;
      }
      if start + qty > holding.Length {
        result, respLen := MakeException(req[1], EX_ILLEGAL_ADDRESS, resp);
        return;
      }
      resp[0] := addr;
      resp[1] := req[1];
      resp[2] := 2 * qty % 0x100;
      assert resp[..3] == [addr, req[1], 2 * qty % 0x100];
      CopyRegisters(start, qty, resp);
      respLen := SealInPlace(resp, 3 + 2 * qty);
      cntResponses := Inc(cntResponses);
      result := MbRespond;
    }

    /** The reply to a write: address, function code and two words, sealed. */
    method Acknowledge(fc: byte, first: u16, second: u16, resp: array<byte>) returns (result: MbResult, respLen: nat)
      requires resp.Length >= ADU_MAX
      modifies this, resp
      ensures result == MbRespond && respLen == 8
      ensures resp[..respLen] == Seal([addr, fc, Hi(first), Lo(first), Hi(second), Lo(second)])
      ensures Count() == old(Count()).(responses := Inc(old(cntResponses)))
    {
      hide Seal, Inc, Hi, Lo;
      resp[0] := addr;
      resp[1] := fc;
      WriteWord(resp, 2, first);
      WriteWord(resp, 4, second);
      assert resp[..6] == [addr, fc, Hi(first), Lo(first), Hi(second), Lo(second)];
      respLen := SealInPlace(resp, 6);
      cntResponses := Inc(cntResponses);
      result := MbRespond;
    }

    /** Case 0x06 of the switch. */
    method WriteSingle(req: seq<byte>, broadcast: bool, resp: array<byte>) returns (result: MbResult, respLen: nat)
      requires Structured(req) && req[1] == FC_WRITE_SINGLE && broadcast == IsBroadcast(req)
      requires resp.Length >= ADU_MAX
      modifies this, holding, resp
      ensures State() == Serve(old(State()), req).0
      ensures respLen <= resp.Length && Reports(result, resp[..respLen], Serve(old(State()), req).1)
    {
      hide Seal, Inc, Word, Hi, Lo;
      if |req| != 8 {
        cntLenErr := Inc(cntLenErr);
        return MbBadLength, 0;
      }
      var reg, value := Word(req[2], req[3]), Word(req[4], req[5]);
      if reg >= holding.Length {
        if broadcast {
          return MbSilent, 0;
        }
        result, respLen := MakeException(req[1], EX_ILLEGAL_ADDRESS, resp);
        return;
      }
      holding[reg] := value;
      assert WordsAt(req, 4, 1) == [value];
      assert holding[..] == Overwrite(old(holding[..]), reg, [value]);
      if broadcast {
        return MbSilent, 0;
      }
      EchoedWords(addr, req);
      result, respLen := Acknowledge(req[1], reg, value, resp);
    }

    /** The loop that stores the words of a multiple write. */
    method StoreRegisters(start: nat, qty: nat, req: seq<byte>)
      requires start + qty <= holding.Length && 7 + 2 * qty <= |req|
      modifies holding
      ensures holding[..] == Overwrite(old(holding[..]), start, WordsAt(req, 7, qty))
    {
      ghost var words := WordsAt(req, 7, qty);
      for i := 0 to qty
        invariant forall k | 0 <= k < i :: holding[start + k] == words[k]
        invariant forall k | 0 <= k < holding.Length :: k < start || k >= start + i ==> holding[k] == old(holding[k])
      {
        holding[start + i] := Word(req[7 + 2 * i], req[7 + 2 * i + 1]);
      }
      ghost var was, now := old(holding[..]), holding[..];
      forall k | 0 <= k < |now| ensures now[k] == Overwrite(was, start, words)[k] {
        if start <= k < start + qty {
          assert holding[start + (k - start)] == words[k - start];
        }
      }
    }

    /** Case 0x10 of the switch. */
    method WriteMultiple(req: seq<byte>, broadcast: bool, resp: array<byte>) returns (result: MbResult, respLen: nat)
      requires Structured(req) && req[1] == FC_WRITE_MULTIPLE && broadcast == IsBroadcast(req)
      requires resp.Length >= ADU_MAX
      modifies this, holding, resp
      ensures State() == Serve(old(State()), req).0
      ensures respLen <= resp.Length && Reports(result, resp[..respLen], Serve(old(State()), req).1)
    {
      hide Seal, Inc, Word, Hi, Lo, Overwrite, WordsAt;
      if |req| < 9 {
        cntLenErr := Inc(cntLenErr);
        return MbBadLength, 0;
      }
      var start, qty := Word(req[2], req[3]), Word(req[4], req[5]);
      var byteCount: nat := req[6];
      if |req| != 9 + byteCount {
        cntLenErr := Inc(cntLenErr);
        return MbBadLength, 0;
      }
      if qty < 1 || qty > WRITE_MULTI_QTY_MAX || byteCount != 2 * qty {
        if broadcast {
          return MbSilent, 0;
        }
        result, respLen := MakeException(req[1], EX_ILLEGAL_VALUE, resp);
        return;
      }
      if start + qty > holding.Length {
        if broadcast {
          return MbSilent, 0;
        }
        result, respLen := MakeException(req[1], EX_ILLEGAL_ADDRESS, resp);
        return;
      }
      StoreRegisters(start, qty, req);
      if broadcast {
        return MbSilent, 0;
      }
      EchoedWords(addr, req);
      result, respLen := Acknowledge(req[1], start, qty, resp);
    }

    /** `mb_slave_handle`. */
    method HandleFrame(req: seq<byte>, resp: array<byte>) returns (result: MbResult, respLen: nat)
      requires resp.Length >= ADU_MAX
      modifies this, holding, resp
      ensures State() == Handle(old(State()), req).0
      ensures respLen <= resp.Length && Reports(result, resp[..respLen], Handle(old(State()), req).1)
    {
      hide Inc, Word, Serve, Crc16;
      if |req| < ADU_MIN || |req| > ADU_MAX {
        cntLenErr := Inc(cntLenErr);
        return MbBadLength, 0;
      }
      var calcCrc := ComputeCrc16(req, |req| - 2);
      var rxCrc := Word(req[|req| - 1], req[|req| - 2]);
      if calcCrc != rxCrc {
        cntCrcErr := Inc(cntCrcErr);
        return MbBadCrc, 0;
      }
      var broadcast := req[0] == ADDR_BROADCAST;
      if !broadcast && req[0] != addr {
        return MbSilent, 0;
      }
      cntFramesOk := Inc(cntFramesOk);
      if broadcast {
        cntBroadcast := Inc(cntBroadcast);
      }
      var fc := req[1];
      if fc == FC_READ_HOLDING {
        result, respLen := ReadHolding(req, broadcast, resp);
      } else if fc == FC_WRITE_SINGLE {
        result, respLen := WriteSingle(req, broadcast, resp);
      } else if fc == FC_WRITE_MULTIPLE {
        result, respLen := WriteMultiple(req, broadcast, resp);
      } else {
        result, respLen := OtherFunction(req, broadcast, resp);
      }
    }

    /** The default case of the switch. */
    method OtherFunction(req: seq<byte>, broadcast: bool, resp: array<byte>) returns (result: MbResult, respLen: nat)
      requires Structured(req) && broadcast == IsBroadcast(req)
      requires req[1] != FC_READ_HOLDING && req[1] != FC_WRITE_SINGLE && req[1] != FC_WRITE_MULTIPLE
      requires resp.Length >= ADU_MAX
      modifies this, resp
      ensures State() == Serve(old(State()), req).0
      ensures respLen <= resp.Length && Reports(result, resp[..respLen], Serve(old(State()), req).1)
    {
      hide Seal, Inc;
      if broadcast {
        return MbSilent, 0;
      }
      result, respLen := MakeException(req[1], EX_ILLEGAL_FUNCTION, resp);
    }
  }

  /** Taking two words apart and putting their bytes in the reply echoes the request. */
  lemma EchoedWords(addr: byte, req: seq<byte>)
    requires |req| >= 6
    ensures var first, second := Word(req[2], req[3]), Word(req[4], req[5]);
      [addr, req[1], Hi(first), Lo(first), Hi(second), Lo(second)] == [addr] + req[1..6]
  {
    hide Hi, Lo, Word;
    BytesOfWord(req[2], req[3]);
    BytesOfWord(req[4], req[5]);
  }
}
