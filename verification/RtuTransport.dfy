/** The shared RTU bus and the fault injector in front of it, as objects. The two mutexes guard the
    whole of each `Transact`; what they exclude is the subject of `Server` and `ServerLocks`. */
module RtuTransport {
  import opened Bits
  import opened Options
  import opened Crc
  import opened Station
  import opened Slave
  import opened Bus

  /** The seeding loop: every register names its unit and its index. */
  method SeedRegisters(s: Slave, regs: u16)
    requires s.holding.Length == regs
    modifies s.holding
    ensures s.holding[..] == FreshStation(s.addr, regs).holding
  {
    hide SeedValue;
    for i := 0 to regs
      invariant forall k | 0 <= k < i :: s.holding[k] == SeedValue(s.addr, k)
    {
      s.holding[i] := SeedValue(s.addr, i);
    }
  }

  class InProcessRtu {
    var slaves: seq<Slave>

    /** The register files of the slaves. */
    ghost function Files(): set<array<u16>>
      reads this
    {
      set s: Slave | s in slaves :: s.holding
    }

    /** The slaves are objects of their own, with registers of their own. */
    ghost predicate Valid()
      reads this
    {
      forall i, j | 0 <= i < j < |slaves| :: slaves[i] != slaves[j] && slaves[i].holding != slaves[j].holding
    }

    ghost function States(): (states: seq<Station>)
      reads this, slaves, Files()
      ensures |states| == |slaves|
    {
      seq(|slaves|, i requires 0 <= i < |slaves| reads this, slaves, Files() => slaves[i].State())
    }

    constructor (unitIds: seq<byte>, regs: u16)
      ensures Valid() && fresh(slaves) && fresh(Files())
      ensures States() == FreshBus(unitIds, regs)
    {
      slaves := [];
      new;
      hide SeedValue;
      for n := 0 to |unitIds|
        invariant Valid() && fresh(slaves) && fresh(Files()) && |slaves| == n
        invariant forall k | 0 <= k < n :: slaves[k].State() == FreshStation(unitIds[k], regs)
      {
        var s := new Slave(unitIds[n], regs);
        SeedRegisters(s, regs);
        ghost var files := Files();
        slaves := slaves + [s];
        assert Files() == files + {s.holding};
      }
    }

    /** The body of the scan: slave `i` sees the request. */
    method Visit(i: nat, frame: seq<byte>, respBuf: array<byte>) returns (reply: Option<seq<byte>>)
      requires Valid() && i < |slaves| && respBuf.Length >= ADU_MAX
      modifies slaves[i], slaves[i].holding, respBuf
      ensures States() == old(States())[i := Handle(old(States())[i], frame).0]
      ensures var o := Handle(old(States())[i], frame).1; reply == if o.Respond? then Some(o.frame) else None
    {
      hide Handle;
      var result, respLen := slaves[i].HandleFrame(frame, respBuf);
      reply := if result == MbRespond then Some(respBuf[..respLen]) else None;
    }

    /** One exchange: each slave in turn sees the request until one responds. The lengths handed to
        the slaves are truncated to 16 bits. */
    method Transact(req: seq<byte>) returns (reply: Option<seq<byte>>)
      requires Valid()
      modifies slaves, Files()
      ensures Valid()
      ensures (States(), reply) == Bus.Transact(old(States()), req)
    {
      hide Handle, Scan;
      if req == [] {
        return None;
      }
      var frame := req[..ToU16(|req|)];
      var respBuf := new byte[ADU_MAX];
      ghost var before := States();
      ScanStarts(before, frame);
      for i := 0 to |slaves|
        invariant Valid()
        invariant ScanContinues(States(), i, before, frame)
      {
        ScanAdvances(States(), i, before, frame);
        reply := Visit(i, frame, respBuf);
        if reply.Some? {
          return;
        }
      }
      ScanAdvances(States(), |slaves|, before, frame);
      return None;
    }
  }

  /** The injector. The random numbers it draws are a parameter of the exchange. */
  class FaultyRtu {
    const inner: InProcessRtu
    var dropped: u64
    var corrupted: u64

    constructor (inner: InProcessRtu)
      ensures this.inner == inner && dropped == 0 && corrupted == 0
    {
      this.inner := inner;
      dropped, corrupted := 0, 0;
    }

    method Transact(req: seq<byte>, draw: Draw) returns (reply: Option<seq<byte>>)
      requires inner.Valid()
      modifies this, inner.slaves, inner.Files()
      ensures inner.Valid()
      ensures (inner.States(), reply) == FaultyTransact(old(inner.States()), req, draw)
      ensures dropped == if draw.drop then Inc64(old(dropped)) else old(dropped)
      ensures corrupted == if !draw.drop && draw.corrupt && Bus.Transact(old(inner.States()), req).1.Some?
                           then Inc64(old(corrupted)) else old(corrupted)
    {
      hide Bus.Transact, Inc64;
      if draw.drop {
        dropped := Inc64(dropped);
        return None;
      }
      RepliesAreNotEmpty(inner.States(), req);
      reply := inner.Transact(req);
      if reply.None? {
        return;
      }
      var rsp := reply.value;
      if rsp != [] && draw.corrupt {
        var at := draw.pick % |rsp|;
        XorByte(rsp[at], 1);
        rsp := rsp[at := Xor(rsp[at], 1)];
        corrupted := Inc64(corrupted);
      }
      reply := Some(rsp);
    }
  }

  lemma RepliesAreNotEmpty(slaves: seq<Station>, req: seq<byte>)
    ensures Bus.Transact(slaves, req).1.Some? ==> 5 <= |Bus.Transact(slaves, req).1.value| <= 255
  {
    hide Crc16, Scan;
    if req != [] {
      ScanReplies(slaves, req[..ToU16(|req|)]);
    }
  }

  /** With draws that inject nothing the injector is transparent. */
  lemma NoFaultIsTransparent(slaves: seq<Station>, req: seq<byte>)
    ensures FaultyTransact(slaves, req, NO_FAULT) == Bus.Transact(slaves, req)
  {
    hide Bus.Transact;
  }
}
