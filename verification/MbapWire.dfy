/** The MBAP header on the wire, in numbers: what `encode` writes and what `decode` answers, read off
    the bytes alone. */
module MbapWire {
  import opened Bits
  import opened Mbap

  // ---- encoding ----

  /** The bytes of an encoded frame: transaction id, protocol id and length, each high byte first, then
      the unit id and the PDU; the length counts the unit id and wraps at 16 bits. */
  lemma EncodedBytesAre(f: MbapFrame)
    ensures var n := (|f.pdu| + 1) % 65536;
      Encode(f) == [f.transactionId / 256, f.transactionId % 256, f.protocolId / 256, f.protocolId % 256,
                    n / 256, n % 256, f.unitId] + f.pdu
  {
    hide Hi, Lo;
    BytesByDivision(f.transactionId);
    BytesByDivision(f.protocolId);
    BytesByDivision(ToU16(|f.pdu| + 1));
  }

  // ---- decoding ----

  /** A header that no frame begins with: another protocol, or a length of less than a unit id and a
      function code, or of more than a unit id and 253 bytes. */
  predicate BadHeader(data: seq<byte>) {
    |data| >= 7 && (data[2] != 0 || data[3] != 0 || Number(data, 4) < 2 || Number(data, 4) > 254)
  }

  /** The verdict on a header: errors as soon as it is complete, whatever follows. */
  lemma HeaderErrors(data: seq<byte>)
    ensures |data| < 7 ==> Decode(data) == NoFrame(NeedMoreData)
    ensures |data| >= 7 ==>
      && (Decode(data) == NoFrame(BadProtocolId) <==> data[2] != 0 || data[3] != 0)
      && (Decode(data) == NoFrame(LengthTooSmall) <==> data[2] == 0 && data[3] == 0 && Number(data, 4) < 2)
      && (Decode(data) == NoFrame(LengthTooLarge) <==> data[2] == 0 && data[3] == 0 && Number(data, 4) > 254)
    ensures BadHeader(data) <==> Decode(data).NoFrame? && Decode(data).error != NeedMoreData
  {
    hide Number, Word;
    if |data| >= 7 {
      NumberIsWord(data, 4);
      NoProtocol(data[2], data[3]);
    }
  }

  /** A frame is there exactly when the header is good and as many bytes as it announces have come. */
  lemma FrameIsThere(data: seq<byte>, f: MbapFrame, n: nat)
    ensures Decode(data) == Frame(f, n)
        <==> && |data| >= 7 && !BadHeader(data) && n == 6 + Number(data, 4) as int <= |data|
             && f == MbapFrame(Number(data, 0), 0, data[6], data[7..n])
  {
    hide Number, Word;
    if |data| >= 7 {
      NumberIsWord(data, 0);
      NumberIsWord(data, 4);
      NoProtocol(data[2], data[3]);
    }
  }

  /** More is needed exactly while the header is incomplete, or while what has come is the beginning
      of the encoding of some legal frame and not all of it. */
  lemma IncompleteIff(data: seq<byte>)
    ensures Decode(data) == NoFrame(NeedMoreData) <==> |data| < 7 || exists f :: Legal(f) && data < Encode(f)
  {
    hide Decode, Encode, Legal, Number;
    HeaderErrors(data);
    if |data| >= 7 {
      if Decode(data) == NoFrame(NeedMoreData) {
        var f := Completion(data);
        assert Legal(f) && data < Encode(f);
      }
      if f :| Legal(f) && data < Encode(f) {
        assert Encode(f)[..|data|] == data;
        PartOfFrame(f, |data|);
      }
    }
  }

  /** A frame that an incomplete buffer can become. */
  lemma Completion(data: seq<byte>) returns (f: MbapFrame)
    requires |data| >= 7 && Decode(data) == NoFrame(NeedMoreData)
    ensures Legal(f) && data < Encode(f)
  {
    hide Encode, Hi, Lo, Word;
    var length := Word(data[4], data[5]);
    f := MbapFrame(Word(data[0], data[1]), 0, data[6], data[7..] + seq(6 + length - |data|, _ => 0));
    NoProtocol(data[2], data[3]);
    EncodedBytes(f, data[..7]);
    assert Encode(f) == data + seq(6 + length - |data|, _ => 0);
  }

  lemma NoProtocol(hi: byte, lo: byte)
    ensures Word(hi, lo) == 0 <==> hi == 0 && lo == 0
  {
  }
}
