/** One exchange on the shared RTU bus: the scan over the slaves, and the fault injector. */
module Bus {
  import opened Bits
  import opened Options
  import opened Crc
  import opened CrcErrors
  import opened Station
  import opened StationLemmas

  // ---- start of day ----

  /** `(id << 8) | i`, truncated to 16 bits. */
  function SeedValue(id: byte, i: nat): u16 {
    ToU16(Or(Shl(id, 8), i))
  }

  function FreshStation(id: byte, regs: u16): (s: Station)
    ensures s.addr == id && |s.holding| == regs && s.cnt == Counters(0, 0, 0, 0, 0, 0)
  {
    Station(id, seq(regs, i requires 0 <= i => SeedValue(id, i)), ZERO_COUNTERS)
  }

  function FreshBus(ids: seq<byte>, regs: u16): (bus: seq<Station>)
    ensures |bus| == |ids|
    ensures forall k | 0 <= k < |ids| :: bus[k] == FreshStation(ids[k], regs)
  {
    seq(|ids|, k requires 0 <= k < |ids| => FreshStation(ids[k], regs))
  }

  /** A seed names its unit and its register, both to be read off the value, exactly for the
      registers below 256. */
  lemma SeedNamesUnitAndRegister(id: byte, i: u16)
    ensures Hi(SeedValue(id, i)) == id && Lo(SeedValue(id, i)) == i <==> i < 0x100
  {
    hide Or, Shl, Hi, Lo;
    BytesByDivision(SeedValue(id, i));
    if i < 0x100 {
      OrDisjoint(id, i, 8);
      ShlByte(id);
      Pow2Values();
    }
  }

  /** Every seed: the low byte is the register's, the high byte the unit and the register's high byte
      or-ed together. */
  lemma SeedBytes(id: byte, i: u16)
    ensures Hi(SeedValue(id, i)) == Or(id, Hi(i)) && Lo(SeedValue(id, i)) == Lo(i)
  {
    hide Or, Shl, Shr, LowBits;
    OrShifted(id, i, 8);
    OrIsByte(id, Hi(i));
    ShlByte(Or(id, Hi(i)));
    BytesByDivision(i);
    ShrByte(i);
    LowByte(i);
    BytesByDivision(SeedValue(id, i));
  }

  lemma OrIsByte(a: byte, b: byte)
    ensures Or(a, b) < 256
  {
    hide Or;
    Pow2Values();
    OrBounded(a, b, 8);
  }

  // ---- one exchange ----

  /** Slaves are tried in order until one responds. */
  function Scan(slaves: seq<Station>, req: seq<byte>): (seq<Station>, Option<seq<byte>>) {
    if slaves == [] then ([], None)
    else
      var (s, o) := Handle(slaves[0], req);
      if o.Respond? then ([s] + slaves[1..], Some(o.frame))
      else
        var (rest, reply) := Scan(slaves[1..], req);
        ([s] + rest, reply)
  }

  /** `InProcessRtu::transact`; the length given to the slaves is truncated to 16 bits. */
  function Transact(slaves: seq<Station>, req: seq<byte>): (seq<Station>, Option<seq<byte>>) {
    if req == [] then (slaves, None) else Scan(slaves, req[..ToU16(|req|)])
  }

  /** The slaves when the scan has come to slave `i`: what remains of it still gives the result of
      the whole. */
  predicate ScanContinues(slaves: seq<Station>, i: nat, before: seq<Station>, req: seq<byte>) {
    && i <= |slaves|
    && Scan(before, req) == (slaves[..i] + Scan(slaves[i..], req).0, Scan(slaves[i..], req).1)
  }

  lemma ScanStarts(slaves: seq<Station>, req: seq<byte>)
    ensures ScanContinues(slaves, 0, slaves, req)
  {
    hide Handle, Scan;
    assert slaves[0..] == slaves;
    assert slaves[..0] + Scan(slaves, req).0 == Scan(slaves, req).0;
  }

  /** One visit of the loop moves the scan on by one slave, or ends it with its result. */
  lemma ScanAdvances(slaves: seq<Station>, i: nat, before: seq<Station>, req: seq<byte>)
    requires ScanContinues(slaves, i, before, req)
    ensures i == |slaves| ==> Scan(before, req) == (slaves, None)
    ensures i < |slaves| ==>
      var (t, o) := Handle(slaves[i], req);
      if o.Respond? then Scan(before, req) == (slaves[i := t], Some(o.frame))
      else ScanContinues(slaves[i := t], i + 1, before, req)
  {
    hide Handle;
    if i == |slaves| {
      assert slaves[..i] + [] == slaves;
    } else {
      var (t, o) := Handle(slaves[i], req);
      var next := slaves[i := t];
      assert slaves[i..][1..] == slaves[i + 1..] == next[i + 1..];
      assert slaves[..i] + ([t] + slaves[i + 1..]) == next;
      assert slaves[..i] + ([t] + Scan(slaves[i + 1..], req).0) == next[..i + 1] + Scan(slaves[i + 1..], req).0;
    }
  }

  /** An empty request reaches nobody; of any other each slave sees the length modulo 2^16. */
  lemma TransactIs(slaves: seq<Station>, req: seq<byte>)
    ensures req == [] ==> Transact(slaves, req) == (slaves, None)
    ensures req != [] ==> Transact(slaves, req) == Scan(slaves, req[..|req| % 65536])
  {
    hide Scan;
    ToU16Wraps(|req|);
  }

  // ---- faults ----

  /** One use of the injector's random numbers: lose the exchange, or flip the low bit of a byte. */
  datatype Draw = Draw(drop: bool, corrupt: bool, pick: nat)

  const NO_FAULT: Draw := Draw(false, false, 0)

  function FlipAt(rsp: seq<byte>, k: nat): (r: seq<byte>)
    requires k < |rsp|
    ensures |r| == |rsp|
  {
    XorByte(rsp[k], 1);
    rsp[k := Xor(rsp[k], 1)]
  }

  function Damage(rsp: seq<byte>, draw: Draw): (r: seq<byte>)
    ensures |r| == |rsp|
  {
    if rsp != [] && draw.corrupt then FlipAt(rsp, draw.pick % |rsp|) else rsp
  }

  /** The draw names the byte whose lowest bit is flipped; any byte can be named, and all others stay. */
  lemma DamageFlipsPicked(rsp: seq<byte>, k: nat, drop: bool)
    requires k < |rsp|
    ensures var got := Damage(rsp, Draw(drop, true, k));
      && got[k] == (if rsp[k] % 2 == 0 then rsp[k] + 1 else rsp[k] - 1)
      && got == rsp[k := got[k]]
    ensures Damage(rsp, Draw(drop, false, k)) == rsp
  {
    hide Xor;
    XorByte(rsp[k], 1);
    XorHalves(rsp[k], 1);
    XorIdentity(rsp[k] / 2);
  }

  /** `FaultyRtu::transact`: a drop happens before the exchange, a corruption after it. */
  function FaultyTransact(slaves: seq<Station>, req: seq<byte>, draw: Draw): (seq<Station>, Option<seq<byte>>) {
    if draw.drop then (slaves, None)
    else
      var (after, reply) := Transact(slaves, req);
      (after, if reply.Some? then Some(Damage(reply.value, draw)) else None)
  }

  // ---- replies ----

  lemma {:induction false} ScanReplies(slaves: seq<Station>, req: seq<byte>)
    ensures |Scan(slaves, req).0| == |slaves|
    ensures Scan(slaves, req).1.Some? ==>
      var frame := Scan(slaves, req).1.value;
      && Intact(req) && 5 <= |frame| <= 255 && Crc16(frame) == 0 && frame[0] == req[0] != ADDR_BROADCAST
      && AnswersFunction(frame, req[1])
    decreases |slaves|
  {
    hide Crc16, WithHighBit, Sealed, Serve;
    if slaves != [] {
      if Handle(slaves[0], req).1.Respond? {
        RepliesAreValid(slaves[0], req);
      } else {
        ScanReplies(slaves[1..], req);
      }
    }
  }

  lemma LowBitMask(n: nat)
    requires n > 0
    ensures BitsOf(1, n) == [true] + Zeros(n - 1)
  {
    BitsOfZero(n - 1);
  }

  lemma FlippedBits(b: byte)
    ensures Xor(b, 1) < 0x100 && XorBits(BitsOf(b, 8), BitsOf(Xor(b, 1), 8)) == [true] + Zeros(7)
  {
    hide Xor, BitsOf;
    XorByte(b, 1);
    BitsOfXor(b, 1, 8);
    LowBitMask(8);
    assert XorBits(BitsOf(b, 8), XorBits(BitsOf(b, 8), BitsOf(1, 8))) == BitsOf(1, 8);
  }

  lemma FlipsOfFirst(sent: seq<byte>, got: seq<byte>)
    requires |sent| == |got| > 0
    ensures Flips(sent, got) == XorBits(BitsOf(sent[0], 8), BitsOf(got[0], 8)) + Flips(sent[1..], got[1..])
  {
    hide BitsOf;
    var b, c := BitsOf(sent[0], 8), BitsOf(got[0], 8);
    assert StreamBits(sent) == b + StreamBits(sent[1..]) && StreamBits(got) == c + StreamBits(got[1..]);
  }

  lemma NoFlips(frame: seq<byte>)
    ensures Flips(frame, frame) == Zeros(8 * |frame|)
  {
    hide StreamBits;
  }

  lemma {:induction false} FlippedBitPattern(frame: seq<byte>, k: nat)
    requires k < |frame|
    ensures Flips(frame, FlipAt(frame, k)) == Zeros(8 * k) + [true] + Zeros(8 * (|frame| - k) - 1)
    decreases k
  {
    hide Xor, BitsOf, Flips;
    var got := FlipAt(frame, k);
    FlipsOfFirst(frame, got);
    if k == 0 {
      FlippedBits(frame[0]);
      assert got[1..] == frame[1..];
      NoFlips(frame[1..]);
    } else {
      assert got[1..] == FlipAt(frame[1..], k - 1);
      FlippedBitPattern(frame[1..], k - 1);
      assert XorBits(BitsOf(frame[0], 8), BitsOf(frame[0], 8)) == Zeros(8);
      assert Zeros(8) + Zeros(8 * (k - 1)) == Zeros(8 * k);
    }
  }

  /** The injector's single flipped bit always breaks the residue. */
  lemma DamageIsDetected(frame: seq<byte>, k: nat)
    requires k < |frame| && Crc16(frame) == 0
    ensures Crc16(FlipAt(frame, k)) != 0
  {
    hide Crc16, Flips, FlipAt;
    FlippedBitPattern(frame, k);
    var got := FlipAt(frame, k);
    FlipChanges(frame, k);
    BurstDetected(frame, got, 8 * k, [true], 8 * (|frame| - k) - 1);
  }

  lemma FlipChanges(frame: seq<byte>, k: nat)
    requires k < |frame|
    ensures FlipAt(frame, k) != frame
  {
    XorHalves(frame[k], 1);
  }
}
