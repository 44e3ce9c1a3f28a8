/** What the slave promises its masters: valid replies, registers that only successful writes
    change, writes that read back, and counters that add up. */
module StationLemmas {
  import opened Bits
  import opened Crc
  import opened Station

  // ---- frames ----

  lemma SealedIsIntact(body: seq<byte>)
    requires 2 <= |body| <= ADU_MAX - 2
    ensures Intact(Seal(body))
  {
    hide Crc16, Seal;
    SealHasZeroResidue(body);
    ResidueIsZeroIffSealed(Seal(body));
  }

  /** Slaves and gateway agree on what an intact frame is. */
  lemma IntactIffZeroResidue(req: seq<byte>)
    requires Structured(req)
    ensures Intact(req) <==> Crc16(req) == 0
  {
    hide Crc16, Word;
    ResidueIsZeroIffSealed(req);
  }

  lemma ReplyBodyShape(addr: byte, holding: seq<u16>, req: seq<byte>)
    requires Structured(req) && !Understand(|holding|, req).WrongLength?
    ensures var body := ReplyBody(addr, holding, req);
      && 3 <= |body| <= 253 && body[0] == addr
      && if Understand(|holding|, req).Illegal? then body == [addr, WithHighBit(req[1]), body[2]] && 1 <= body[2] <= 3
         else |body| >= 5 && body[1] == req[1]
  {
    hide BytesOf, WordsAt, Word;
  }

  /** A frame that answers function `fc`: an exception of five bytes with bit 7 of the code set and
      a reason 1..3, or seven bytes and more under the code itself. */
  predicate AnswersFunction(frame: seq<byte>, fc: byte)
    requires |frame| >= 5
  {
    if |frame| == 5 then frame[1] == WithHighBit(fc) && 1 <= frame[2] <= 3
    else |frame| >= 7 && frame[1] == fc
  }

  /** Every reply is 5 to 255 bytes long, has zero residue, comes from the addressed slave and
      answers the function of the request. */
  lemma RepliesAreValid(s: Station, req: seq<byte>)
    requires Handle(s, req).1.Respond?
    ensures var frame := Handle(s, req).1.frame;
      && 5 <= |frame| <= 255 && Crc16(frame) == 0
      && frame[0] == s.addr == req[0] != ADDR_BROADCAST
      && AnswersFunction(frame, req[1])
  {
    hide Understand, ReplyBody, Crc16, Overwrite, Sealed;
    ReplyBodyShape(s.addr, s.holding, req);
    SealHasZeroResidue(ReplyBody(s.addr, s.holding, req));
  }

  // ---- registers ----

  /** The registers a request writes, if the slave accepts it. */
  predicate Accepts(s: Station, req: seq<byte>) {
    Intact(req) && Addressed(s.addr, req) && Understand(|s.holding|, req).Write?
  }

  /** Registers change only by an accepted write, and then exactly in the written range. Everything
      rejected, malformed, read or answered with an exception leaves them alone. */
  lemma OnlyAcceptedWritesChange(s: Station, req: seq<byte>)
    ensures Handle(s, req).0.addr == s.addr && |Handle(s, req).0.holding| == |s.holding|
    ensures Handle(s, req).0.holding
         == if Accepts(s, req) then var w := Understand(|s.holding|, req); Overwrite(s.holding, w.start, w.values)
            else s.holding
    ensures Handle(s, req).1.BadCrc? || Handle(s, req).1.BadLength? ==> !Accepts(s, req)
    ensures Handle(s, req).1.Respond? && |Handle(s, req).1.frame| == 5 ==> !Accepts(s, req)
  {
    hide Understand, Crc16, Overwrite, Sealed, ReplyBody, Inc;
    if Intact(req) && !Understand(|s.holding|, req).WrongLength? {
      ReplyBodyShape(s.addr, s.holding, req);
    }
  }

  function SingleWrite(addr: byte, reg: u16, value: u16): seq<byte> {
    Seal([addr, FC_WRITE_SINGLE, Hi(reg), Lo(reg), Hi(value), Lo(value)])
  }

  /** `values` as one Write Single Register request each, in ascending register order. */
  function SingleWrites(addr: byte, start: nat, values: seq<u16>): seq<seq<byte>>
    requires start + |values| < 0x1_0000
    decreases |values|
  {
    if values == [] then []
    else [SingleWrite(addr, start, values[0])] + SingleWrites(addr, start + 1, values[1..])
  }

  function HandleAll(s: Station, reqs: seq<seq<byte>>): Station
    decreases |reqs|
  {
    if reqs == [] then s else HandleAll(Handle(s, reqs[0]).0, reqs[1..])
  }

  lemma SingleWriteUnderstood(addr: byte, reg: u16, value: u16, count: nat)
    requires reg < count
    ensures Intact(SingleWrite(addr, reg, value)) && SingleWrite(addr, reg, value)[0] == addr
    ensures Understand(count, SingleWrite(addr, reg, value)) == Write(reg, [value])
  {
    hide Crc16, Sealed, Hi, Lo, Word;
    WordOfBytes(reg);
    WordOfBytes(value);
    var body := [addr, FC_WRITE_SINGLE, Hi(reg), Lo(reg), Hi(value), Lo(value)];
    var req := SingleWrite(addr, reg, value);
    SealedIsIntact(body);
    assert forall i | 0 <= i < 6 :: req[i] == req[..6][i] == body[i];
    assert WordsAt(req, 4, 1) == [value];
  }

  /** One Write Multiple Registers has the effect of Write Single Register requests, one for each
      of its values. */
  lemma {:induction false} SinglesOverwrite(s: Station, addr: byte, start: nat, values: seq<u16>)
    requires addr == s.addr || addr == ADDR_BROADCAST
    requires start + |values| <= |s.holding| < 0x1_0000
    ensures HandleAll(s, SingleWrites(addr, start, values)).holding == Overwrite(s.holding, start, values)
    decreases |values|
  {
    hide Handle, SingleWrite, Understand, Sealed;
    if values == [] {
      assert Overwrite(s.holding, start, values) == s.holding;
    } else {
      var req := SingleWrite(addr, start, values[0]);
      SingleWriteUnderstood(addr, start, values[0], |s.holding|);
      OnlyAcceptedWritesChange(s, req);
      var next := Handle(s, req).0;
      assert next.holding == Overwrite(s.holding, start, [values[0]]);
      SinglesOverwrite(next, addr, start + 1, values[1..]);
      assert SingleWrites(addr, start, values)[1..] == SingleWrites(addr, start + 1, values[1..]);
      assert Overwrite(next.holding, start + 1, values[1..]) == Overwrite(s.holding, start, values);
    }
  }

  lemma MultipleIsManySingles(s: Station, req: seq<byte>)
    requires Accepts(s, req) && |s.holding| < 0x1_0000
    ensures var w := Understand(|s.holding|, req);
      Handle(s, req).0.holding == HandleAll(s, SingleWrites(req[0], w.start, w.values)).holding
  {
    hide Understand, Handle, HandleAll, Overwrite, SingleWrites, Sealed;
    var w := Understand(|s.holding|, req);
    OnlyAcceptedWritesChange(s, req);
    SinglesOverwrite(s, req[0], w.start, w.values);
  }

  // ---- reading back ----

  function ReadRequest(addr: byte, start: u16, qty: u16): seq<byte> {
    Seal([addr, FC_READ_HOLDING, Hi(start), Lo(start), Hi(qty), Lo(qty)])
  }

  lemma ReadRequestUnderstood(addr: byte, start: u16, qty: u16, count: nat)
    requires 1 <= qty <= READ_QTY_MAX && start + qty <= count
    ensures Intact(ReadRequest(addr, start, qty)) && ReadRequest(addr, start, qty)[0] == addr
    ensures ReadRequest(addr, start, qty)[1] == FC_READ_HOLDING
    ensures Understand(count, ReadRequest(addr, start, qty)) == Read(start, qty)
  {
    hide Crc16, Sealed, Hi, Lo, Word;
    WordOfBytes(start);
    WordOfBytes(qty);
    var body := [addr, FC_READ_HOLDING, Hi(start), Lo(start), Hi(qty), Lo(qty)];
    var req := ReadRequest(addr, start, qty);
    SealedIsIntact(body);
    assert forall i | 0 <= i < 6 :: req[i] == req[..6][i] == body[i];
  }

  lemma {:induction false} BytesOfWordsAt(data: seq<byte>, from: nat, qty: nat)
    requires from + 2 * qty <= |data|
    ensures BytesOf(WordsAt(data, from, qty)) == data[from..from + 2 * qty]
    decreases qty
  {
    if qty > 0 {
      var words := WordsAt(data, from, qty);
      assert words[..qty - 1] == WordsAt(data, from, qty - 1);
      BytesOfWordsAt(data, from, qty - 1);
      var k := from + 2 * (qty - 1);
      assert data[from..k] + [data[k], data[k + 1]] == data[from..from + 2 * qty];
      BytesOfWord(data[k], data[k + 1]);
    }
  }

  /** After an accepted write, reading the written range returns the values written, as the bytes
      of the reply. */
  lemma WriteReadsBack(s: Station, req: seq<byte>, start: nat, values: seq<u16>)
    requires |s.holding| < 0x1_0000 && s.addr != ADDR_BROADCAST
    requires Structured(req) && Understand(|s.holding|, req) == Write(start, values)
    requires Accepts(s, req)
    ensures Handle(Handle(s, req).0, ReadRequest(s.addr, start, |values|)).1
         == Respond(Seal([s.addr, FC_READ_HOLDING, 2 * |values|] + BytesOf(values)))
  {
    hide Crc16, Sealed, BytesOf, WordsAt, ReadRequest, Seal, Word, Handle, Understand;
    OnlyAcceptedWritesChange(s, req);
    var t := Handle(s, req).0;
    ReadRequestUnderstood(s.addr, start, |values|, |s.holding|);
    ReadReply(t, ReadRequest(s.addr, start, |values|), start, |values|);
    assert t.holding[start..start + |values|] == values;
  }

  lemma ReadReply(s: Station, req: seq<byte>, start: nat, qty: nat)
    requires Intact(req) && req[0] == s.addr != ADDR_BROADCAST && req[1] == FC_READ_HOLDING
    requires Understand(|s.holding|, req) == Read(start, qty) && qty <= READ_QTY_MAX
    ensures Handle(s, req).1
         == Respond(Seal([s.addr, FC_READ_HOLDING, 2 * qty] + BytesOf(s.holding[start..start + qty])))
  {
    hide Crc16, Sealed, BytesOf, Seal, Understand;
    assert 2 * qty % 0x100 == 2 * qty;
  }

  /** The values of a multiple write are its data bytes. */
  lemma WrittenBytes(count: nat, req: seq<byte>)
    requires Structured(req) && req[1] == FC_WRITE_MULTIPLE && Understand(count, req).Write?
    ensures BytesOf(Understand(count, req).values) == req[7..|req| - 2]
  {
    hide BytesOf, Word;
    var qty := |Understand(count, req).values|;
    BytesOfWordsAt(req, 7, qty);
  }
}
