/** The MBAP header codec, and the batch meaning of a TCP byte stream. */
module Mbap {
  import opened Bits

  const HEADER_LEN: nat := 7
  const MAX_PDU: nat := 253

  const EX_PATH_UNAVAILABLE: byte := 0x0A
  const EX_TARGET_NO_RESPONSE: byte := 0x0B

  datatype MbapFrame = MbapFrame(transactionId: u16, protocolId: u16, unitId: byte, pdu: seq<byte>)

  datatype DecodeError = NeedMoreData | BadProtocolId | LengthTooSmall | LengthTooLarge

  datatype DecodeResult =
    | Frame(frame: MbapFrame, consumed: nat)
    | NoFrame(error: DecodeError)

  /** Decodes one ADU from the front of a byte stream. */
  function Decode(data: seq<byte>): DecodeResult {
    if |data| < HEADER_LEN then NoFrame(NeedMoreData)
    else
      var protocolId := Word(data[2], data[3]);
      var length := Word(data[4], data[5]);
      if protocolId != 0 then NoFrame(BadProtocolId)
      else if length < 2 then NoFrame(LengthTooSmall)
      else if length > 1 + MAX_PDU then NoFrame(LengthTooLarge)
      else
        var total := 6 + length;
        if |data| < total then NoFrame(NeedMoreData)
        else Frame(MbapFrame(Word(data[0], data[1]), protocolId, data[6], data[HEADER_LEN..total]), total)
  }

  /** The length field is 16 bits wide, so the size of the PDU is truncated to it. */
  function Encode(f: MbapFrame): (out: seq<byte>)
    ensures |out| == HEADER_LEN + |f.pdu|
  {
    var length: u16 := ToU16(|f.pdu| + 1);
    [Hi(f.transactionId), Lo(f.transactionId),
     Hi(f.protocolId), Lo(f.protocolId),
     Hi(length), Lo(length),
     f.unitId] + f.pdu
  }

  function MakeException(transactionId: u16, unitId: byte, functionCode: byte, code: byte): MbapFrame {
    MbapFrame(transactionId, 0, unitId, [WithHighBit(functionCode), code])
  }

  /** Is the frame an exception with the given code? */
  predicate Excepts(f: MbapFrame, code: byte) {
    |f.pdu| == 2 && f.pdu[0] >= 128 && f.pdu[1] == code
  }

  /** What the protocol allows in a frame. */
  predicate Legal(f: MbapFrame) {
    f.protocolId == 0 && 1 <= |f.pdu| <= 253
  }

  // ---- one frame ----

  lemma EncodedHeader(f: MbapFrame, data: seq<byte>)
    requires Encode(f) <= data
    ensures Word(data[0], data[1]) == f.transactionId
    ensures Word(data[2], data[3]) == f.protocolId
    ensures Word(data[4], data[5]) == ToU16(|f.pdu| + 1)
    ensures data[6] == f.unitId
    ensures data[HEADER_LEN..HEADER_LEN + |f.pdu|] == f.pdu
  {
    assert forall i | 0 <= i < |Encode(f)| :: data[i] == Encode(f)[i];
    WordOfBytes(f.transactionId);
    WordOfBytes(f.protocolId);
    WordOfBytes(ToU16(|f.pdu| + 1));
  }

  lemma EncodedBytes(f: MbapFrame, h: seq<byte>)
    requires |h| == HEADER_LEN
    requires f.transactionId == Word(h[0], h[1]) && f.protocolId == Word(h[2], h[3])
    requires |f.pdu| + 1 == Word(h[4], h[5]) && f.unitId == h[6]
    ensures Encode(f) == h + f.pdu
  {
    hide Hi, Lo, Word;
    BytesOfWord(h[0], h[1]);
    BytesOfWord(h[2], h[3]);
    BytesOfWord(h[4], h[5]);
  }

  /** Every successful decode consumes the encoding of the frame it returns. */
  lemma EncodeDecode(data: seq<byte>)
    requires Decode(data).Frame?
    ensures Legal(Decode(data).frame)
    ensures 8 <= Decode(data).consumed <= 260
    ensures Decode(data).consumed <= |data|
    ensures Encode(Decode(data).frame) == data[..Decode(data).consumed]
  {
    hide Encode, Hi, Lo, Word;
    var f, n := Decode(data).frame, Decode(data).consumed;
    EncodedBytes(f, data[..HEADER_LEN]);
    assert data[..n] == data[..HEADER_LEN] + data[HEADER_LEN..n];
  }

  lemma DecodeLegal(f: MbapFrame, data: seq<byte>)
    requires Legal(f) && |data| >= HEADER_LEN + |f.pdu|
    requires Word(data[0], data[1]) == f.transactionId && Word(data[2], data[3]) == 0
    requires Word(data[4], data[5]) == |f.pdu| + 1
    requires data[6] == f.unitId && data[HEADER_LEN..HEADER_LEN + |f.pdu|] == f.pdu
    ensures Decode(data) == Frame(f, HEADER_LEN + |f.pdu|)
  {
  }

  /** An encoded frame decodes to itself, whatever follows it, exactly when it is legal. */
  lemma DecodeEncodeIff(f: MbapFrame, rest: seq<byte>)
    ensures Decode(Encode(f) + rest) == Frame(f, |Encode(f)|) <==> Legal(f)
  {
    hide Decode, Encode, Word;
    var data := Encode(f) + rest;
    if Legal(f) {
      EncodedHeader(f, data);
      DecodeLegal(f, data);
    } else if Decode(data).Frame? {
      EncodeDecode(data);
    }
  }

  /** A verdict other than "need more data" is final: bytes that arrive later do not change it. */
  lemma DecodeStable(data: seq<byte>, more: seq<byte>)
    requires Decode(data) != NoFrame(NeedMoreData)
    ensures Decode(data + more) == Decode(data)
  {
    var all := data + more;
    assert forall i | 0 <= i < |data| :: all[i] == data[i];
    if Decode(data).Frame? {
      var n := Decode(data).consumed;
      assert all[HEADER_LEN..n] == data[HEADER_LEN..n];
    }
  }

  /** Only a short buffer can be incomplete. */
  lemma IncompleteIsShort(data: seq<byte>)
    requires Decode(data) == NoFrame(NeedMoreData)
    ensures |data| <= 259
  {
  }

  /** A part of an encoded frame decodes to nothing yet. */
  lemma PartOfFrame(f: MbapFrame, n: nat)
    requires Legal(f) && n < |Encode(f)|
    ensures Decode(Encode(f)[..n]) == NoFrame(NeedMoreData)
  {
    hide Decode, Encode, Legal;
    var out := Encode(f);
    DecodeEncodeIff(f, []);
    assert out + [] == out && out[..n] + out[n..] == out;
    if Decode(out[..n]) != NoFrame(NeedMoreData) {
      DecodeStable(out[..n], out[n..]);
      EncodeDecode(out[..n]);
    }
  }

  // ---- streams ----

  function EncodeAll(frames: seq<MbapFrame>): seq<byte> {
    if frames == [] then [] else Encode(frames[0]) + EncodeAll(frames[1..])
  }

  /** All frames at the front of a stream, the bytes left over, and why parsing stopped. */
  datatype Parsed = Parsed(frames: seq<MbapFrame>, rest: seq<byte>, stop: DecodeError)

  function ParseAll(data: seq<byte>): Parsed
    decreases |data|
  {
    match Decode(data)
    case NoFrame(e) => Parsed([], data, e)
    case Frame(f, n) =>
      EncodeDecode(data);
      Prepend(f, ParseAll(data[n..]))
  }

  function PrependAll(frames: seq<MbapFrame>, p: Parsed): Parsed {
    p.(frames := frames + p.frames)
  }

  predicate AllLegal(frames: seq<MbapFrame>) {
    forall f | f in frames :: Legal(f)
  }

  lemma {:induction false} EncodeAllConcat(a: seq<MbapFrame>, b: seq<MbapFrame>)
    ensures EncodeAll(a + b) == EncodeAll(a) + EncodeAll(b)
    decreases |a|
  {
    if a == [] {
      assert a + b == b;
    } else {
      assert (a + b)[1..] == a[1..] + b;
      EncodeAllConcat(a[1..], b);
    }
  }

  lemma EncodeAllOne(f: MbapFrame)
    ensures EncodeAll([f]) == Encode(f)
  {
    EncodeAllPrepend(f, []);
    EncodeAllNone();
    assert [f] + [] == [f];
  }

  function Prepend(f: MbapFrame, p: Parsed): Parsed {
    p.(frames := [f] + p.frames)
  }

  lemma ParseOne(f: MbapFrame, more: seq<byte>)
    requires Legal(f)
    ensures ParseAll(Encode(f) + more) == Prepend(f, ParseAll(more))
  {
    var data := Encode(f) + more;
    DecodeEncodeIff(f, more);
    assert data[|Encode(f)|..] == more;
  }

  /** Legal frames in front of a stream are parsed off it, and the parse goes on behind them. */
  lemma {:induction false} ParseEncoded(frames: seq<MbapFrame>, tail: seq<byte>)
    requires AllLegal(frames)
    ensures ParseAll(EncodeAll(frames) + tail) == PrependAll(frames, ParseAll(tail))
    decreases |frames|
  {
    hide Decode, Encode, Legal;
    var p := ParseAll(tail);
    if frames == [] {
      assert EncodeAll(frames) + tail == tail;
      assert frames + p.frames == p.frames;
    } else {
      var f, others := frames[0], frames[1..];
      assert EncodeAll(frames) + tail == Encode(f) + (EncodeAll(others) + tail);
      ParseOne(f, EncodeAll(others) + tail);
      ParseEncoded(others, tail);
      assert [f] + (others + p.frames) == frames + p.frames;
    }
  }

  /** A concatenation of encoded legal frames parses back to exactly those frames. */
  lemma StreamRoundTrip(frames: seq<MbapFrame>)
    requires AllLegal(frames)
    ensures ParseAll(EncodeAll(frames)) == Parsed(frames, [], NeedMoreData)
  {
    ParseEncoded(frames, []);
    assert EncodeAll(frames) + [] == EncodeAll(frames);
    assert frames + [] == frames;
  }

  /** A parse yields legal frames only. */
  lemma {:induction false} ParsedAreLegal(data: seq<byte>)
    ensures AllLegal(ParseAll(data).frames)
    decreases |data|
  {
    hide Decode, Encode, Legal, ParseAll;
    ParseStep(data);
    if Decode(data).Frame? {
      EncodeDecode(data);
      ParsedAreLegal(data[Decode(data).consumed..]);
    }
  }

  /** Decoding stops on the bytes left over, for the stated reason. */
  lemma {:induction false} ParseStopsAtRest(data: seq<byte>)
    ensures Decode(ParseAll(data).rest) == NoFrame(ParseAll(data).stop)
    decreases |data|
  {
    hide Decode, Encode, Legal, ParseAll;
    ParseStep(data);
    if Decode(data).Frame? {
      EncodeDecode(data);
      ParseStopsAtRest(data[Decode(data).consumed..]);
    }
  }

  /** A parse accounts for every byte: the encodings of its frames, then the bytes left over. */
  lemma {:induction false} ParseAccountsForStream(data: seq<byte>)
    ensures data == EncodeAll(ParseAll(data).frames) + ParseAll(data).rest
    decreases |data|
  {
    hide Decode, Encode, Legal, EncodeAll, ParseAll;
    ParseStep(data);
    if Decode(data).Frame? {
      var f, n := Decode(data).frame, Decode(data).consumed;
      EncodeDecode(data);
      var p := ParseAll(data[n..]);
      ParseAccountsForStream(data[n..]);
      EncodeAllPrepend(f, p.frames);
      assert data == Encode(f) + (EncodeAll(p.frames) + p.rest);
    } else {
      EncodeAllNone();
    }
  }

  lemma ParseStep(data: seq<byte>)
    ensures Decode(data).NoFrame? ==> ParseAll(data) == Parsed([], data, Decode(data).error)
    ensures Decode(data).Frame? ==>
      && Decode(data).consumed <= |data|
      && ParseAll(data) == Prepend(Decode(data).frame, ParseAll(data[Decode(data).consumed..]))
  {
    hide Decode;
    if Decode(data).Frame? {
      EncodeDecode(data);
    }
  }

  lemma EncodeAllNone()
    ensures EncodeAll([]) == []
  {
  }

  lemma EncodeAllPrepend(f: MbapFrame, frames: seq<MbapFrame>)
    ensures EncodeAll([f] + frames) == Encode(f) + EncodeAll(frames)
  {
    hide Encode;
    assert ([f] + frames)[1..] == frames;
  }

  /** The encoding is prefix-free, and a stream has only one reading: if two sequences of legal
      frames encode to streams one of which begins the other, the frames begin each other too. */
  lemma EncodingPrefixFree(a: seq<MbapFrame>, b: seq<MbapFrame>, tail: seq<byte>)
    requires AllLegal(a) && AllLegal(b) && EncodeAll(a) + tail == EncodeAll(b)
    ensures a <= b
  {
    ParseEncoded(a, tail);
    StreamRoundTrip(b);
  }

  /** Parsing is incremental: what a prefix of the stream yielded stays, and the leftover bytes
      continue with what follows; after a framing error nothing more is ever parsed. */
  lemma ParseExtends(data: seq<byte>, more: seq<byte>)
    ensures var p := ParseAll(data);
      ParseAll(data + more) == if p.stop == NeedMoreData then PrependAll(p.frames, ParseAll(p.rest + more))
                               else Parsed(p.frames, p.rest + more, p.stop)
  {
    hide Decode, Encode, Legal;
    var p := ParseAll(data);
    ParseAccountsForStream(data);
    ParsedAreLegal(data);
    ParseStopsAtRest(data);
    assert data + more == EncodeAll(p.frames) + (p.rest + more);
    ParseEncoded(p.frames, p.rest + more);
    if p.stop != NeedMoreData {
      DecodeStable(p.rest, more);
      assert p.frames + [] == p.frames;
    }
  }
}
