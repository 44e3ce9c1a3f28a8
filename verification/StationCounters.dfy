/** Conservation of the slave's diagnostic counters over any run of frames. */
module StationCounters {
  import opened Bits
  import opened Crc
  import opened Station
  import opened StationContract
  import opened StationLemmas

  /** The accounting classes of the frames on the bus, for one slave. */
  datatype Class =
    | NotStructured
    | NotSealed
    | NotMine
    | BroadcastTaken
    | BroadcastDropped
    | UnicastDropped
    | AnsweredNormally
    | AnsweredException

  /** The class of a frame, from its bytes, the slave's address and its number of registers. */
  function Classify(addr: byte, count: nat, req: seq<byte>): Class {
    if |req| < 4 || |req| > 256 then NotStructured
    else if Crc16(req) != 0 then NotSealed
    else if req[0] != 0 && req[0] != addr then NotMine
    else if req[0] == 0 then if WellShaped(PduOf(req)) then BroadcastTaken else BroadcastDropped
    else if !WellShaped(PduOf(req)) then UnicastDropped
    else if Refusal(PduOf(req), count) == 0 then AnsweredNormally
    else AnsweredException
  }

  /** How many of the frames fall in class `c`. */
  function Tally(addr: byte, count: nat, reqs: seq<seq<byte>>, c: Class): nat
    decreases |reqs|
  {
    if reqs == [] then 0
    else (if Classify(addr, count, reqs[0]) == c then 1 else 0) + Tally(addr, count, reqs[1..], c)
  }

  function Plus(x: u32, n: nat): u32 {
    (x + n) % 0x1_0000_0000
  }

  /** Counters after frames of which each class `c` has `n(c)`. */
  function Expected(cnt: Counters, n: Class -> nat): Counters {
    Counters(
      Plus(cnt.framesOk, n(BroadcastTaken) + n(BroadcastDropped) + n(UnicastDropped)
                         + n(AnsweredNormally) + n(AnsweredException)),
      Plus(cnt.crcErr, n(NotSealed)),
      Plus(cnt.lenErr, n(NotStructured) + n(BroadcastDropped) + n(UnicastDropped)),
      Plus(cnt.exceptions, n(AnsweredException)),
      Plus(cnt.responses, n(AnsweredNormally) + n(AnsweredException)),
      Plus(cnt.broadcast, n(BroadcastTaken) + n(BroadcastDropped)))
  }

  lemma PlusPlus(x: u32, m: nat, n: nat)
    ensures Plus(Plus(x, m), n) == Plus(x, m + n)
  {
  }

  lemma SmallSteps(x: u32)
    ensures Plus(x, 0) == x && Plus(x, 1) == Up(x)
  {
  }

  /** The result code that goes with a class. */
  predicate ResultOf(c: Class, o: Outcome) {
    match c
    case NotStructured => o == BadLength
    case NotSealed => o == BadCrc
    case NotMine => o == Silent
    case BroadcastTaken => o == Silent
    case BroadcastDropped => o == BadLength
    case UnicastDropped => o == BadLength
    case AnsweredNormally => o.Respond? && |o.frame| != 5
    case AnsweredException => o.Respond? && |o.frame| == 5
  }

  /** One of class `c`, none of the others. */
  function Single(c: Class): Class -> nat {
    d => if d == c then 1 else 0
  }

  /** One frame has the result of its class and moves exactly the counters of its class. */
  lemma OneFrame(s: Station, req: seq<byte>)
    ensures var c := Classify(s.addr, |s.holding|, req);
      && ResultOf(c, Handle(s, req).1)
      && Handle(s, req).0.cnt == Expected(s.cnt, Single(c))
      && Handle(s, req).0.addr == s.addr && |Handle(s, req).0.holding| == |s.holding|
  {
    hide Crc16, Handle, WellShaped, Refusal, PduOf, Written, AnswerPdu, Seal, Up, Plus;
    forall x: u32 ensures Plus(x, 0) == x && Plus(x, 1) == Up(x) {
      SmallSteps(x);
    }
    if |req| < 4 || |req| > 256 {
      IgnoresWrongLength(s, req);
    } else if Crc16(req) != 0 {
      IgnoresWrongCrc(s, req);
    } else if req[0] != 0 && req[0] != s.addr {
      IgnoresOthers(s, req);
    } else if !WellShaped(PduOf(req)) {
      DropsMisshapen(s, req);
    } else if req[0] == 0 {
      AppliesBroadcast(s, req);
    } else {
      AnswersRequest(s, req);
      AnswerLength(PduOf(req), s.holding);
    }
  }

  /** Only refusals have two bytes. */
  lemma AnswerLength(pdu: seq<byte>, holding: seq<u16>)
    requires pdu != [] && WellShaped(pdu)
    ensures |AnswerPdu(pdu, holding)| == 2 <==> Refusal(pdu, |holding|) != 0
  {
    hide Number, TopBitSet, WordBytes;
  }

  function Tallies(addr: byte, count: nat, reqs: seq<seq<byte>>): Class -> nat {
    c => Tally(addr, count, reqs, c)
  }

  lemma ExpectedAdds(cnt: Counters, m: Class -> nat, n: Class -> nat, sum: Class -> nat)
    requires forall c :: sum(c) == m(c) + n(c)
    ensures Expected(Expected(cnt, m), n) == Expected(cnt, sum)
  {
    hide Plus;
    forall x: u32, i: nat, j: nat ensures Plus(Plus(x, i), j) == Plus(x, i + j) {
      PlusPlus(x, i, j);
    }
  }

  /** Every counter is the number of frames in its classes, modulo 2^32, over any run. */
  lemma {:induction false} CountersTally(s: Station, reqs: seq<seq<byte>>)
    ensures HandleAll(s, reqs).cnt == Expected(s.cnt, Tallies(s.addr, |s.holding|, reqs))
    decreases |reqs|
  {
    hide Handle, Classify, Expected;
    var addr, count := s.addr, |s.holding|;
    if reqs == [] {
      NoFrames(s.cnt, Tallies(addr, count, reqs));
    } else {
      OneFrame(s, reqs[0]);
      CountersTally(Handle(s, reqs[0]).0, reqs[1..]);
      ExpectedAdds(s.cnt, Single(Classify(addr, count, reqs[0])), Tallies(addr, count, reqs[1..]),
                   Tallies(addr, count, reqs));
    }
  }

  lemma NoFrames(cnt: Counters, n: Class -> nat)
    requires forall c :: n(c) == 0
    ensures Expected(cnt, n) == cnt
  {
  }

  lemma {:induction false} TallyBounded(addr: byte, count: nat, reqs: seq<seq<byte>>)
    ensures Tally(addr, count, reqs, AnsweredNormally) + Tally(addr, count, reqs, AnsweredException) <= |reqs|
    decreases |reqs|
  {
    hide Classify;
    if reqs != [] {
      TallyBounded(addr, count, reqs[1..]);
    }
  }

  lemma FromZero(a: nat, b: nat, c: nat)
    ensures Plus(Plus(Plus(0, a), Plus(0, b)), c) == Plus(0, a + b + c)
  {
  }

  /** A wrapping counter does not fall behind another that went `n` further unless `n` takes it
      across the width. */
  lemma OvertakenIff(e: nat, n: nat)
    ensures var width := 0x1_0000_0000;
      && (Plus(0, e) <= Plus(0, n + e) <==> e % width + n % width < width)
      && (n + e < width ==> e % width + n % width < width)
  {
  }

  /** From a fresh slave: accepted frames are the answered, the broadcast and the unicast frames of
      the wrong length (modulo the counter width); and there are no more exceptions than responses
      exactly when the two kinds of answers do not wrap together, as while fewer than 2^32 frames have
      been answered. */
  lemma CounterConservation(s: Station, reqs: seq<seq<byte>>)
    requires s.cnt == Counters(0, 0, 0, 0, 0, 0)
    ensures var cnt, n, width := HandleAll(s, reqs).cnt, Tallies(s.addr, |s.holding|, reqs), 0x1_0000_0000;
      && cnt.framesOk == Plus(Plus(cnt.responses, cnt.broadcast), n(UnicastDropped))
      && (cnt.exceptions <= cnt.responses <==> n(AnsweredException) % width + n(AnsweredNormally) % width < width)
      && (n(AnsweredNormally) + n(AnsweredException) < width ==> cnt.exceptions <= cnt.responses)
      && n(AnsweredNormally) + n(AnsweredException) <= |reqs|
  {
    hide Handle, Classify, Tally, HandleAll, Plus;
    CountersTally(s, reqs);
    TallyBounded(s.addr, |s.holding|, reqs);
    var n := Tallies(s.addr, |s.holding|, reqs);
    FromZero(n(AnsweredNormally) + n(AnsweredException), n(BroadcastTaken) + n(BroadcastDropped), n(UnicastDropped));
    OvertakenIff(n(AnsweredException), n(AnsweredNormally));
  }

  // ---- the counters wrap ----

  lemma {:induction false} TallyRepeated(addr: byte, count: nat, req: seq<byte>, n: nat, c: Class)
    ensures Tally(addr, count, seq(n, _ => req), c) == if Classify(addr, count, req) == c then n else 0
    decreases n
  {
    hide Classify;
    if n > 0 {
      assert seq(n, _ => req)[1..] == seq(n - 1, _ => req);
      TallyRepeated(addr, count, req, n - 1, c);
    }
  }

  lemma ReadIsNormal(addr: byte, count: nat)
    requires addr != 0 && count >= 1
    ensures Classify(addr, count, Seal([addr, 3, 0, 0, 0, 1])) == AnsweredNormally
  {
    hide Crc16, Hi, Lo;
    SealHasZeroResidue([addr, 3, 0, 0, 0, 1]);
  }

  lemma UnknownIsExcepted(addr: byte, count: nat)
    requires addr != 0
    ensures Classify(addr, count, Seal([addr, 127])) == AnsweredException
  {
    hide Crc16, Hi, Lo;
    SealHasZeroResidue([addr, 127]);
  }

  /** A run after which a slave counts more exceptions than responses: one request for function 127,
      then 2^32 - 1 reads. */
  lemma ExceptionsOvertakeResponses(s: Station)
    requires s.cnt == Counters(0, 0, 0, 0, 0, 0) && s.addr != 0 && |s.holding| >= 1
    ensures var reqs := [Seal([s.addr, 127])] + seq(0xFFFF_FFFF, _ => Seal([s.addr, 3, 0, 0, 0, 1]));
      HandleAll(s, reqs).cnt.exceptions > HandleAll(s, reqs).cnt.responses
  {
    hide Handle, HandleAll, Seal, Classify;
    var first, read := Seal([s.addr, 127]), Seal([s.addr, 3, 0, 0, 0, 1]);
    var others := seq(0xFFFF_FFFF, _ => read);
    var reqs := [first] + others;
    assert reqs[0] == first && reqs[1..] == others;
    UnknownIsExcepted(s.addr, |s.holding|);
    ReadIsNormal(s.addr, |s.holding|);
    TallyRepeated(s.addr, |s.holding|, read, 0xFFFF_FFFF, AnsweredNormally);
    TallyRepeated(s.addr, |s.holding|, read, 0xFFFF_FFFF, AnsweredException);
    CounterConservation(s, reqs);
  }
}
