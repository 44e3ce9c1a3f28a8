/** What a slave does with a frame, in the numbers of the protocol: read off the bytes of the frame,
    the slave's address and its registers, and off nothing that the slave itself computes. */
module StationContract {
  import opened Bits
  import opened Options
  import opened Crc
  import opened Station
  import opened StationLemmas

  // ---- the request, as numbers ----

  /** A frame of the allowed length whose CRC is right. */
  predicate Framed(req: seq<byte>) {
    4 <= |req| <= 256 && Crc16(req) == 0
  }

  /** The frame without its address and its CRC. */
  function PduOf(req: seq<byte>): (pdu: seq<byte>)
    requires |req| >= 4
    ensures |pdu| == |req| - 3
  {
    req[1..|req| - 2]
  }

  /** The length a PDU must have for its function code; other codes may have any. */
  predicate WellShaped(pdu: seq<byte>)
    requires pdu != []
  {
    if pdu[0] == 3 || pdu[0] == 6 then |pdu| == 5
    else if pdu[0] == 16 then |pdu| >= 6 && var byteCount: nat := pdu[5]; |pdu| == 6 + byteCount
    else true
  }

  /** Why a well-shaped request is refused: 1 for a function, 2 for a register, 3 for a quantity; the
      quantity is looked at before the registers. 0 if it is not refused. */
  function Refusal(pdu: seq<byte>, count: nat): (code: nat)
    requires pdu != [] && WellShaped(pdu)
    ensures code <= 3
  {
    if pdu[0] == 3 then
      if Number(pdu, 3) < 1 || Number(pdu, 3) > 125 then 3
      else if Number(pdu, 1) + Number(pdu, 3) > count then 2
      else 0
    else if pdu[0] == 6 then
      if Number(pdu, 1) >= count then 2 else 0
    else if pdu[0] == 16 then
      var byteCount: nat := pdu[5];
      if Number(pdu, 3) < 1 || Number(pdu, 3) > 123 || byteCount != 2 * Number(pdu, 3) then 3
      else if Number(pdu, 1) + Number(pdu, 3) > count then 2
      else 0
    else 1
  }

  /** The value a request writes to register `r` of a slave with `count` registers. */
  function PduWrites(pdu: seq<byte>, count: nat, r: nat): Option<u16> {
    if |pdu| == 5 && pdu[0] == 6 then
      if Number(pdu, 1) == r < count then Some(Number(pdu, 3)) else None
    else if |pdu| >= 6 && pdu[0] == 16 then
      var start: nat, qty: nat := Number(pdu, 1), Number(pdu, 3);
      var byteCount: nat := pdu[5];
      if 1 <= qty <= 123 && byteCount == 2 * qty && |pdu| == 6 + 2 * qty
         && start + qty <= count && start <= r < start + qty
      then Some(Number(pdu, 6 + 2 * (r - start)))
      else None
    else None
  }

  /** The registers after the request. */
  function Written(pdu: seq<byte>, holding: seq<u16>): (after: seq<u16>)
    ensures |after| == |holding|
  {
    seq(|holding|, r requires 0 <= r < |holding| =>
      var w := PduWrites(pdu, |holding|, r); if w.Some? then w.value else holding[r])
  }

  /** Byte `i` of words sent high byte first. */
  function WordByte(words: seq<u16>, i: nat): byte
    requires i < 2 * |words|
  {
    if i % 2 == 0 then words[i / 2] / 256 else words[i / 2] % 256
  }

  function WordBytes(words: seq<u16>): (data: seq<byte>)
    ensures |data| == 2 * |words|
  {
    seq(2 * |words|, i requires 0 <= i < 2 * |words| => WordByte(words, i))
  }

  /** The PDU of the answer to a well-shaped request: the reason under the function code with its top
      bit set; or the registers read; or the first five bytes of the request, which is all of a single
      write. */
  function AnswerPdu(pdu: seq<byte>, holding: seq<u16>): seq<byte>
    requires pdu != [] && WellShaped(pdu)
  {
    if Refusal(pdu, |holding|) != 0 then [TopBitSet(pdu[0]), Refusal(pdu, |holding|)]
    else if pdu[0] == 3 then
      var start: nat, qty: nat := Number(pdu, 1), Number(pdu, 3);
      [3, 2 * qty] + WordBytes(holding[start..start + qty])
    else pdu[..5]
  }

  /** `b | 128`. */
  function TopBitSet(b: byte): byte {
    WithHighBitIsOr(b);
    Or(b, 128)
  }

  /** A 32-bit counter one further. */
  function Up(x: u32): u32 {
    (x + 1) % 0x1_0000_0000
  }

  // ---- what the slave understands ----

  lemma {:induction false} BytesOfAt(words: seq<u16>, i: nat)
    requires i < 2 * |words|
    ensures BytesOf(words)[i] == WordByte(words, i)
    decreases |words|
  {
    hide Hi, Lo;
    var n := |words| - 1;
    BytesByDivision(words[n]);
    if i < 2 * n {
      BytesOfAt(words[..n], i);
    }
  }

  lemma BytesOfIsWordBytes(words: seq<u16>)
    ensures BytesOf(words) == WordBytes(words)
  {
    hide BytesOf;
    forall i | 0 <= i < 2 * |words| ensures BytesOf(words)[i] == WordBytes(words)[i] {
      BytesOfAt(words, i);
    }
  }

  lemma PduBytes(req: seq<byte>)
    requires |req| >= 4
    ensures forall i | 0 <= i < |req| - 3 :: PduOf(req)[i] == req[i + 1]
  {
  }

  lemma ShapeUnderstood(count: nat, req: seq<byte>)
    requires 4 <= |req| <= 256
    ensures Understand(count, req).WrongLength? <==> !WellShaped(PduOf(req))
  {
    hide PduOf, Word, WordsAt;
    PduBytes(req);
    var pdu := PduOf(req);
    assert pdu[0] == req[1];
    if |pdu| >= 6 {
      assert pdu[5] == req[6];
    }
  }

  lemma HeadBytes(req: seq<byte>)
    requires |req| >= 8
    ensures var pdu := PduOf(req);
      && pdu[0] == req[1] && Number(pdu, 1) == Word(req[2], req[3]) && Number(pdu, 3) == Word(req[4], req[5])
      && (|req| >= 9 ==> pdu[5] == req[6])
  {
  }

  lemma ReasonUnderstood(count: nat, req: seq<byte>)
    requires 4 <= |req| <= 256 && WellShaped(PduOf(req))
    ensures var u, n := Understand(count, req), Refusal(PduOf(req), count);
      if n == 0 then u.Read? || u.Write? else u == Illegal(n)
    ensures Refusal(PduOf(req), count) == 0 ==>
      (Understand(count, req).Read? <==> req[1] == 3) && (req[1] == 3 || req[1] == 6 || req[1] == 16)
  {
    hide PduOf, Number, Word, WordsAt;
    PduBytes(req);
    assert PduOf(req)[0] == req[1];
    if |req| >= 8 {
      HeadBytes(req);
    }
  }

  lemma ReadUnderstood(count: nat, req: seq<byte>)
    requires 4 <= |req| <= 256 && WellShaped(PduOf(req)) && req[1] == 3 && Refusal(PduOf(req), count) == 0
    ensures |req| == 8
    ensures Understand(count, req) == Read(Number(PduOf(req), 1), Number(PduOf(req), 3))
    ensures Number(PduOf(req), 1) + Number(PduOf(req), 3) <= count && Number(PduOf(req), 3) <= 125
  {
    hide PduOf, Number, Word;
    PduBytes(req);
    assert PduOf(req)[0] == req[1];
    HeadBytes(req);
  }

  lemma WriteUnderstood(count: nat, req: seq<byte>, r: nat)
    requires 4 <= |req| <= 256 && r < count
    ensures var u, w := Understand(count, req), PduWrites(PduOf(req), count, r);
      w == if u.Write? && u.start <= r < u.start + |u.values| then Some(u.values[r - u.start]) else None
  {
    hide PduOf, Number, Word;
    PduBytes(req);
    var pdu := PduOf(req);
    assert pdu[0] == req[1];
    if |req| >= 8 {
      HeadBytes(req);
      NumberIsWord(pdu, 3);
      assert pdu[3] == req[4] && pdu[4] == req[5];
    }
    var u := Understand(count, req);
    if u.Write? && u.start <= r < u.start + |u.values| && req[1] == 16 {
      var at := 6 + 2 * (r - u.start);
      NumberIsWord(pdu, at);
      assert pdu[at] == req[at + 1] && pdu[at + 1] == req[at + 2];
    }
  }

  lemma WrittenUnderstood(holding: seq<u16>, req: seq<byte>)
    requires 4 <= |req| <= 256
    ensures var u := Understand(|holding|, req);
      Written(PduOf(req), holding) == if u.Write? then Overwrite(holding, u.start, u.values) else holding
  {
    hide PduOf, Understand, PduWrites;
    var u := Understand(|holding|, req);
    forall r | 0 <= r < |holding|
      ensures Written(PduOf(req), holding)[r]
           == (if u.Write? then Overwrite(holding, u.start, u.values) else holding)[r]
    {
      WriteUnderstood(|holding|, req, r);
    }
  }

  lemma AnswerUnderstood(addr: byte, holding: seq<u16>, req: seq<byte>)
    requires 4 <= |req| <= 256 && WellShaped(PduOf(req))
    ensures !Understand(|holding|, req).WrongLength?
    ensures ReplyBody(addr, holding, req) == [addr] + AnswerPdu(PduOf(req), holding)
  {
    hide Understand, Refusal, Number, BytesOf, WordBytes, Or, WithHighBit, WellShaped;
    var pdu := PduOf(req);
    ShapeUnderstood(|holding|, req);
    ReasonUnderstood(|holding|, req);
    WithHighBitIsOr(req[1]);
    if Refusal(pdu, |holding|) == 0 {
      if req[1] == 3 {
        ReadUnderstood(|holding|, req);
        var start: nat, qty: nat := Number(pdu, 1), Number(pdu, 3);
        BytesOfIsWordBytes(holding[start..start + qty]);
      } else {
        LongEnough(pdu);
        assert req[1..6] == pdu[..5];
      }
    }
  }

  lemma LongEnough(pdu: seq<byte>)
    requires pdu != [] && WellShaped(pdu) && (pdu[0] == 6 || pdu[0] == 16)
    ensures |pdu| >= 5
  {
  }

  // ---- the contract ----

  /** A frame of an impossible length is counted and dropped. */
  lemma IgnoresWrongLength(s: Station, req: seq<byte>)
    requires |req| < 4 || |req| > 256
    ensures Handle(s, req) == (s.(cnt := s.cnt.(lenErr := Up(s.cnt.lenErr))), BadLength)
  {
    hide Serve, Sealed;
  }

  /** A frame whose CRC is wrong is counted and dropped, whatever its address. */
  lemma IgnoresWrongCrc(s: Station, req: seq<byte>)
    requires 4 <= |req| <= 256 && Crc16(req) != 0
    ensures Handle(s, req) == (s.(cnt := s.cnt.(crcErr := Up(s.cnt.crcErr))), BadCrc)
  {
    hide Crc16, Serve, Sealed;
    IntactIffZeroResidue(req);
  }

  /** A frame for another unit is nobody's business. */
  lemma IgnoresOthers(s: Station, req: seq<byte>)
    requires Framed(req) && req[0] != 0 && req[0] != s.addr
    ensures Handle(s, req) == (s, Silent)
  {
    hide Crc16, Serve, Sealed;
    IntactIffZeroResidue(req);
  }

  /** An addressed frame of the wrong length for its function is accepted, counted as a length error,
      and dropped. */
  lemma DropsMisshapen(s: Station, req: seq<byte>)
    requires Framed(req) && (req[0] == 0 || req[0] == s.addr) && !WellShaped(PduOf(req))
    ensures Handle(s, req)
         == (s.(cnt := s.cnt.(framesOk := Up(s.cnt.framesOk), lenErr := Up(s.cnt.lenErr),
                              broadcast := if req[0] == 0 then Up(s.cnt.broadcast) else s.cnt.broadcast)),
             BadLength)
  {
    hide Crc16, Sealed, Understand, WellShaped, PduOf, ReplyBody;
    IntactIffZeroResidue(req);
    ShapeUnderstood(|s.holding|, req);
  }

  /** A well-shaped broadcast is applied and never answered. */
  lemma AppliesBroadcast(s: Station, req: seq<byte>)
    requires Framed(req) && req[0] == 0 && WellShaped(PduOf(req))
    ensures Handle(s, req)
         == (s.(holding := Written(PduOf(req), s.holding),
                cnt := s.cnt.(framesOk := Up(s.cnt.framesOk), broadcast := Up(s.cnt.broadcast))),
             Silent)
  {
    hide Crc16, Sealed, Understand, WellShaped, PduOf, ReplyBody, Written, Overwrite;
    IntactIffZeroResidue(req);
    ShapeUnderstood(|s.holding|, req);
    WrittenUnderstood(s.holding, req);
  }

  /** A well-shaped request to this slave is applied and answered. */
  lemma AnswersRequest(s: Station, req: seq<byte>)
    requires Framed(req) && req[0] == s.addr != 0 && WellShaped(PduOf(req))
    ensures Handle(s, req)
         == (s.(holding := Written(PduOf(req), s.holding),
                cnt := s.cnt.(framesOk := Up(s.cnt.framesOk), responses := Up(s.cnt.responses),
                              exceptions := if Refusal(PduOf(req), |s.holding|) != 0 then Up(s.cnt.exceptions)
                                            else s.cnt.exceptions)),
             Respond(Seal([s.addr] + AnswerPdu(PduOf(req), s.holding))))
  {
    hide Crc16, Sealed, Understand, WellShaped, PduOf, ReplyBody, Written, Overwrite, AnswerPdu, Refusal, Seal;
    IntactIffZeroResidue(req);
    ShapeUnderstood(|s.holding|, req);
    ReasonUnderstood(|s.holding|, req);
    WrittenUnderstood(s.holding, req);
    AnswerUnderstood(s.addr, s.holding, req);
  }

  /** The registers and the units after any frame with a right CRC. */
  lemma RegistersAfter(s: Station, req: seq<byte>)
    requires Framed(req)
    ensures Handle(s, req).0.addr == s.addr
    ensures Handle(s, req).0.holding
         == if req[0] == 0 || req[0] == s.addr then Written(PduOf(req), s.holding) else s.holding
  {
    hide Crc16, Handle, WellShaped, Written, PduOf, AnswerPdu, Refusal, PduWrites;
    if req[0] != 0 && req[0] != s.addr {
      IgnoresOthers(s, req);
    } else if !WellShaped(PduOf(req)) {
      DropsMisshapen(s, req);
      MisshapenWritesNothing(PduOf(req), s.holding);
    } else if req[0] == 0 {
      AppliesBroadcast(s, req);
    } else {
      AnswersRequest(s, req);
    }
  }

  lemma MisshapenWritesNothing(pdu: seq<byte>, holding: seq<u16>)
    requires pdu != [] && !WellShaped(pdu)
    ensures Written(pdu, holding) == holding
  {
    hide Number;
  }

  // ---- the answers one by one ----

  /** An accepted single write is answered with the request frame itself, byte for byte. */
  lemma SingleWriteIsEchoed(s: Station, req: seq<byte>)
    requires |req| == 8 && Framed(req) && req[0] == s.addr != 0 && req[1] == 6
    requires Number(req, 2) < |s.holding|
    ensures Handle(s, req).1 == Respond(req)
    ensures Handle(s, req).0.holding == s.holding[Number(req, 2) := Number(req, 4)]
  {
    hide Crc16, Handle, Seal, Number;
    PduNumbers(req);
    AnswersRequest(s, req);
    ZeroResidueIsSealed(req);
    assert [s.addr] + PduOf(req)[..5] == req[..6];
  }

  lemma PduNumbers(req: seq<byte>)
    requires |req| >= 8
    ensures PduOf(req)[0] == req[1]
    ensures Number(PduOf(req), 1) == Number(req, 2) && Number(PduOf(req), 3) == Number(req, 4)
    ensures |req| >= 9 ==> PduOf(req)[5] == req[6]
  {
  }

  /** An accepted multiple write is answered with the first six bytes of the request, sealed. */
  lemma MultipleWriteIsAcknowledged(s: Station, req: seq<byte>, bytes: nat)
    requires |req| == 9 + bytes && Framed(req) && req[0] == s.addr != 0 && req[1] == 16 && req[6] == bytes
    requires 1 <= Number(req, 4) <= 123 && bytes == 2 * Number(req, 4)
    requires Number(req, 2) + Number(req, 4) <= |s.holding|
    ensures Handle(s, req).1 == Respond(Seal(req[..6]))
  {
    hide Crc16, Handle, Seal, Written, Number;
    PduNumbers(req);
    AnswersRequest(s, req);
    assert [s.addr] + PduOf(req)[..5] == req[..6];
  }

  /** A refusal: the function code with its top bit set, and the reason; the registers stay. */
  lemma RefusalIsAnswered(s: Station, req: seq<byte>)
    requires 4 <= |req| && Framed(req) && req[0] == s.addr != 0 && WellShaped(PduOf(req))
    requires Refusal(PduOf(req), |s.holding|) != 0
    ensures Handle(s, req).1 == Respond(Seal([s.addr, TopBitSet(req[1]), Refusal(PduOf(req), |s.holding|)]))
    ensures Handle(s, req).0.holding == s.holding
  {
    hide Crc16, Handle, Seal, Written, Number, TopBitSet;
    AnswersRequest(s, req);
    RefusedWritesNothing(PduOf(req), s.holding);
    var pdu := PduOf(req);
    assert [s.addr] + [TopBitSet(pdu[0]), Refusal(pdu, |s.holding|)]
        == [s.addr, TopBitSet(req[1]), Refusal(pdu, |s.holding|)];
  }

  lemma RefusedWritesNothing(pdu: seq<byte>, holding: seq<u16>)
    requires pdu != [] && WellShaped(pdu) && Refusal(pdu, |holding|) != 0
    ensures Written(pdu, holding) == holding
  {
    hide Number;
  }

  /** A function other than 3, 6 and 16 is refused with reason 1. */
  lemma OtherFunctionsAreRefused(s: Station, req: seq<byte>)
    requires 4 <= |req| && Framed(req) && req[0] == s.addr != 0 && req[1] != 3 && req[1] != 6 && req[1] != 16
    ensures Handle(s, req).1 == Respond(Seal([s.addr, TopBitSet(req[1]), 1]))
  {
    hide Crc16, Handle, Seal, TopBitSet;
    assert PduOf(req)[0] == req[1];
    RefusalIsAnswered(s, req);
  }

  lemma TopBits()
    ensures TopBitSet(3) == 131 && TopBitSet(6) == 134 && TopBitSet(16) == 144
  {
    hide Or;
    WithHighBitIsOr(3);
    WithHighBitIsOr(6);
    WithHighBitIsOr(16);
  }

  /** A read is refused with reason 3 for its quantity and otherwise with reason 2 for its range. */
  lemma ReadsAreRefused(s: Station, req: seq<byte>)
    requires |req| == 8 && Framed(req) && req[0] == s.addr != 0 && req[1] == 3
    requires Number(req, 4) < 1 || Number(req, 4) > 125 || Number(req, 2) + Number(req, 4) > |s.holding|
    ensures var code := if Number(req, 4) < 1 || Number(req, 4) > 125 then 3 else 2;
      Handle(s, req).1 == Respond(Seal([s.addr, 131, code]))
  {
    hide Crc16, Handle, Seal, TopBitSet, Number;
    PduNumbers(req);
    TopBits();
    RefusalIsAnswered(s, req);
  }

  /** A single write is refused with reason 2 for its register. */
  lemma SingleWritesAreRefused(s: Station, req: seq<byte>)
    requires |req| == 8 && Framed(req) && req[0] == s.addr != 0 && req[1] == 6 && Number(req, 2) >= |s.holding|
    ensures Handle(s, req).1 == Respond(Seal([s.addr, 134, 2]))
  {
    hide Crc16, Handle, Seal, TopBitSet, Number;
    PduNumbers(req);
    TopBits();
    RefusalIsAnswered(s, req);
  }

  /** A multiple write is refused with reason 3 for its quantity or byte count and otherwise with
      reason 2 for its range. */
  lemma MultipleWritesAreRefused(s: Station, req: seq<byte>, bytes: nat)
    requires |req| == 9 + bytes && Framed(req) && req[0] == s.addr != 0 && req[1] == 16 && req[6] == bytes
    requires Number(req, 4) < 1 || Number(req, 4) > 123 || bytes != 2 * Number(req, 4)
      || Number(req, 2) + Number(req, 4) > |s.holding|
    ensures var code := if Number(req, 4) < 1 || Number(req, 4) > 123 || bytes != 2 * Number(req, 4) then 3 else 2;
      Handle(s, req).1 == Respond(Seal([s.addr, 144, code]))
  {
    hide Crc16, Handle, Seal, TopBitSet, Number;
    PduNumbers(req);
    TopBits();
    RefusalIsAnswered(s, req);
  }
}
