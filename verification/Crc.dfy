/** CRC-16/MODBUS: the bitwise loop of `mb_crc16`, and the algebra everything else rests on. */
module Crc {
  import opened Bits

  const POLYNOMIAL: u16 := 0xA001
  const INITIAL: u16 := 0xFFFF

  /** One turn of the inner loop. */
  function Shift(r: nat): nat {
    if r % 2 == 1 then Xor(r / 2, POLYNOMIAL) else r / 2
  }

  function ShiftN(r: nat, n: nat): nat
    decreases n, r
  {
    if n == 0 then r else ShiftN(Shift(r), n - 1)
  }

  /** The register after the bytes `buf`, starting from `r`. */
  function Feed(r: nat, buf: seq<byte>): nat
    decreases |buf|
  {
    if buf == [] then r else Feed(ShiftN(Xor(r, buf[0]), 8), buf[1..])
  }

  /** The value `mb_crc16` returns for the bytes `buf`. */
  function Crc16(buf: seq<byte>): (crc: u16)
  {
    FeedIsWord(INITIAL, buf);
    Feed(INITIAL, buf)
  }

  /** The two loops of `mb_crc16`; only the first `len` bytes are read. */
  method ComputeCrc16(buf: seq<byte>, len: u16) returns (crc: u16)
    requires len <= |buf|
    ensures crc == Crc16(buf[..len])
  {
    hide Xor;
    crc := INITIAL;
    var i := 0;
    while i < len
      invariant 0 <= i <= len
      invariant Feed(crc, buf[i..len]) == Feed(INITIAL, buf[..len])
    {
      assert buf[i..len][1..] == buf[i + 1..len];
      ghost var rest := buf[i + 1..len];
      XorWord(crc, buf[i]);
      crc := Xor(crc, buf[i]);
      var bit := 0;
      while bit < 8
        invariant 0 <= bit <= 8
        invariant Feed(ShiftN(crc, 8 - bit), rest) == Feed(INITIAL, buf[..len])
      {
        ShiftIsWord(crc);
        if crc % 2 == 1 {
          crc := Xor(crc / 2, POLYNOMIAL);
        } else {
          crc := crc / 2;
        }
        bit := bit + 1;
      }
      i := i + 1;
    }
    FeedIsWord(INITIAL, buf[..len]);
  }

  // ---- the register stays a 16-bit word ----

  lemma ShiftIsWord(r: u16)
    ensures Shift(r) < 0x1_0000
  {
    hide Xor;
    XorWord(r / 2, POLYNOMIAL);
  }

  lemma {:induction false} ShiftNIsWord(r: u16, n: nat)
    ensures ShiftN(r, n) < 0x1_0000
    decreases n
  {
    hide Xor, Shift;
    if n > 0 {
      ShiftIsWord(r);
      ShiftNIsWord(Shift(r), n - 1);
    }
  }

  lemma {:induction false} FeedIsWord(r: u16, buf: seq<byte>)
    ensures Feed(r, buf) < 0x1_0000
    decreases |buf|
  {
    hide Xor, Shift, ShiftN;
    if buf != [] {
      XorWord(r, buf[0]);
      ShiftNIsWord(Xor(r, buf[0]), 8);
      FeedIsWord(ShiftN(Xor(r, buf[0]), 8), buf[1..]);
    }
  }

  // ---- the shift step is linear and injective ----

  lemma ShiftLinear(a: nat, b: nat)
    ensures Shift(Xor(a, b)) == Xor(Shift(a), Shift(b))
  {
    hide Xor;
    XorHalves(a, b);
    var x, y := a / 2, b / 2;
    XorIdentity(Xor(x, y));
    XorAssociates(x, y, POLYNOMIAL);
    XorAssociates(x, POLYNOMIAL, y);
    XorCommutes(y, POLYNOMIAL);
    XorExchange(x, POLYNOMIAL, y, POLYNOMIAL);
    XorZero(POLYNOMIAL, POLYNOMIAL);
  }

  lemma {:induction false} ShiftNLinear(a: nat, b: nat, n: nat)
    ensures ShiftN(Xor(a, b), n) == Xor(ShiftN(a, n), ShiftN(b, n))
    decreases n
  {
    hide Xor, Shift;
    if n > 0 {
      ShiftLinear(a, b);
      ShiftNLinear(Shift(a), Shift(b), n - 1);
    }
  }

  /** No non-zero word is shifted to zero: the low bit that leaves comes back as bit 15. */
  lemma {:induction false} ShiftNKeepsNonZero(r: u16, n: nat)
    ensures ShiftN(r, n) == 0 <==> r == 0
    decreases n
  {
    if n > 0 {
      XorZero(r / 2, POLYNOMIAL);
      ShiftIsWord(r);
      ShiftNKeepsNonZero(Shift(r), n - 1);
    }
  }

  lemma {:induction false} ShiftNAdds(r: nat, m: nat, n: nat)
    ensures ShiftN(r, m + n) == ShiftN(ShiftN(r, m), n)
    decreases m
  {
    hide Xor, Shift;
    if m > 0 {
      ShiftNAdds(Shift(r), m - 1, n);
    }
  }

  lemma {:induction false} FeedConcat(r: nat, x: seq<byte>, y: seq<byte>)
    ensures Feed(r, x + y) == Feed(Feed(r, x), y)
    decreases |x|
  {
    hide Xor, Shift, ShiftN;
    if x == [] {
      assert x + y == y;
    } else {
      assert (x + y)[1..] == x[1..] + y;
      FeedConcat(ShiftN(Xor(r, x[0]), 8), x[1..], y);
    }
  }

  // ---- the register as a machine on the bits of the line ----

  /** The register after the bits `bits`, taken one at a time. */
  function FeedBits(r: nat, bits: seq<bool>): nat
    decreases |bits|
  {
    if bits == [] then r else FeedBits(Shift(Xor(r, Numeral(bits[0]))), bits[1..])
  }

  /** The bits of a frame in the order they cross the line. */
  function StreamBits(buf: seq<byte>): (bits: seq<bool>)
    ensures |bits| == 8 * |buf|
  {
    if buf == [] then [] else BitsOf(buf[0], 8) + StreamBits(buf[1..])
  }

  lemma {:induction false} FeedBitsConcat(r: nat, x: seq<bool>, y: seq<bool>)
    ensures FeedBits(r, x + y) == FeedBits(FeedBits(r, x), y)
    decreases |x|
  {
    hide Xor, Shift;
    if x == [] {
      assert x + y == y;
    } else {
      assert (x + y)[1..] == x[1..] + y;
      FeedBitsConcat(Shift(Xor(r, Numeral(x[0]))), x[1..], y);
    }
  }

  /** Adding a whole value and shifting is feeding its bits one by one. */
  lemma {:induction false} ShiftNIsFeedBits(r: nat, v: nat, n: nat)
    requires v < Pow2(n)
    ensures ShiftN(Xor(r, v), n) == FeedBits(r, BitsOf(v, n))
    decreases n
  {
    hide Xor;
    XorIdentity(r);
    if n > 0 {
      var b, rest := v % 2, v / 2;
      assert Xor(b, 2 * rest) == v by {
        XorHalves(b, 2 * rest);
        XorIdentity(rest);
      }
      XorAssociates(r, b, 2 * rest);
      ShiftLinear(Xor(r, b), 2 * rest);
      assert Shift(2 * rest) == rest;
      ShiftNIsFeedBits(Shift(Xor(r, b)), rest, n - 1);
      assert BitsOf(v, n)[1..] == BitsOf(rest, n - 1);
    }
  }

  lemma {:induction false} FeedIsFeedBits(r: nat, buf: seq<byte>)
    ensures Feed(r, buf) == FeedBits(r, StreamBits(buf))
    decreases |buf|
  {
    hide Xor, Shift, BitsOf;
    if buf != [] {
      Pow2Values();
      ShiftNIsFeedBits(r, buf[0], 8);
      FeedIsFeedBits(ShiftN(Xor(r, buf[0]), 8), buf[1..]);
      FeedBitsConcat(r, BitsOf(buf[0], 8), StreamBits(buf[1..]));
    }
  }

  lemma {:induction false} FeedBitsLinear(r: nat, s: nat, x: seq<bool>, y: seq<bool>)
    requires |x| == |y|
    ensures FeedBits(Xor(r, s), XorBits(x, y)) == Xor(FeedBits(r, x), FeedBits(s, y))
    decreases |x|
  {
    hide Shift;
    if x != [] {
      var a, b := Numeral(x[0]), Numeral(y[0]);
      assert Numeral(XorBits(x, y)[0]) == Xor(a, b);
      XorExchange(r, s, a, b);
      ShiftLinear(Xor(r, a), Xor(s, b));
      assert XorBits(x, y)[1..] == XorBits(x[1..], y[1..]);
      FeedBitsLinear(Shift(Xor(r, a)), Shift(Xor(s, b)), x[1..], y[1..]);
    }
  }

  // ---- the two CRC checks of the system agree ----

  /** Feeding two bytes to a register clears it exactly when they are its own bytes, low first. */
  lemma OwnBytesClear(crc: u16, lo: byte, hi: byte)
    ensures ShiftN(Xor(ShiftN(Xor(crc, lo), 8), hi), 8) == 0 <==> crc == Word(hi, lo)
  {
    hide Xor, Shift, ShiftN;
    var word := Word(hi, lo);
    var all := Xor(crc, word);
    // Both bytes may be added before the sixteen shifts.
    assert all == Xor(Xor(crc, lo), 0x100 * hi) by {
      TopByteJoins(lo, hi);
      XorAssociates(crc, lo, 0x100 * hi);
    }
    assert ShiftN(all, 8) == Xor(ShiftN(Xor(crc, lo), 8), hi) by {
      ShiftNLinear(Xor(crc, lo), 0x100 * hi, 8);
      TopByteFalls(hi);
    }
    XorWord(crc, word);
    ShiftNIsWord(all, 8);
    ShiftNKeepsNonZero(all, 8);
    ShiftNKeepsNonZero(ShiftN(all, 8), 8);
    XorZero(crc, word);
  }

  lemma FeedPair(r: nat, lo: byte, hi: byte)
    ensures Feed(r, [lo, hi]) == ShiftN(Xor(ShiftN(Xor(r, lo), 8), hi), 8)
  {
    hide Xor, Shift, ShiftN;
    assert [lo, hi][1..] == [hi];
    assert Feed(ShiftN(Xor(r, lo), 8), [hi]) == ShiftN(Xor(ShiftN(Xor(r, lo), 8), hi), 8);
  }

  /** A frame passes the gateway's check (the CRC over all of it is zero) exactly when it passes
      the slave's (its last two bytes are the CRC of the rest, low byte first). */
  lemma ResidueIsZeroIffSealed(frame: seq<byte>)
    requires |frame| >= 2
    ensures var n := |frame| - 2;
      Crc16(frame) == 0 <==> Crc16(frame[..n]) == Word(frame[n + 1], frame[n])
  {
    hide Xor, Shift, ShiftN, Word;
    var n := |frame| - 2;
    assert frame == frame[..n] + [frame[n], frame[n + 1]];
    FeedConcat(INITIAL, frame[..n], [frame[n], frame[n + 1]]);
    FeedPair(Crc16(frame[..n]), frame[n], frame[n + 1]);
    OwnBytesClear(Crc16(frame[..n]), frame[n], frame[n + 1]);
  }

  lemma TopByteFalls(hi: byte)
    ensures ShiftN(0x100 * hi, 8) == hi
  {
    hide Xor, Shift, ShiftN;
    EvenShifts(hi, 8, 8);
    ShlByte(hi);
  }

  /** A register whose low bits are clear is only shifted. */
  lemma {:induction false} EvenShifts(v: nat, k: nat, n: nat)
    requires n <= k
    ensures ShiftN(Shl(v, k), n) == Shl(v, k - n)
    decreases n
  {
    hide Xor;
    if n > 0 {
      EvenShifts(v, k - 1, n - 1);
    }
  }

  lemma TopByteJoins(lo: byte, hi: byte)
    ensures Xor(lo, 0x100 * hi) == lo + 0x100 * hi
  {
    hide Xor;
    Pow2Values();
    XorDisjoint(lo, hi, 8);
    ShlByte(hi);
  }

  /** Appends the CRC of a body, low byte first: `seal` in the slave, and the tail of
      `tcp_to_rtu` in the gateway. */
  function Seal(body: seq<byte>): (frame: seq<byte>)
    ensures |frame| == |body| + 2
    ensures frame[..|body|] == body
  {
    body + [Lo(Crc16(body)), Hi(Crc16(body))]
  }

  lemma SealHasZeroResidue(body: seq<byte>)
    ensures Crc16(Seal(body)) == 0
  {
    hide Feed, Hi, Lo, Word;
    ResidueIsZeroIffSealed(Seal(body));
    WordOfBytes(Crc16(body));
  }

  /** Nothing shorter than a CRC has zero residue. */
  lemma ShortHasResidue(buf: seq<byte>)
    requires |buf| <= 1
    ensures Crc16(buf) != 0
  {
    hide Xor, ShiftN;
    if |buf| == 0 {
      assert buf == [];
    } else {
      assert buf[1..] == [];
      XorWord(INITIAL, buf[0]);
      XorZero(INITIAL, buf[0]);
      ShiftNKeepsNonZero(Xor(INITIAL, buf[0]), 8);
      assert Crc16(buf) == Feed(ShiftN(Xor(INITIAL, buf[0]), 8), []);
    }
  }

  /** Zero-residue frames are exactly the sealed ones. */
  lemma ZeroResidueIsSealed(frame: seq<byte>)
    requires |frame| >= 2 && Crc16(frame) == 0
    ensures frame == Seal(frame[..|frame| - 2])
  {
    hide Crc16, Feed, Word, Hi, Lo;
    var n := |frame| - 2;
    ResidueIsZeroIffSealed(frame);
    BytesOfWord(frame[n + 1], frame[n]);
    assert frame == frame[..n] + [frame[n], frame[n + 1]];
  }
}
