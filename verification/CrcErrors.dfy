/** Which transmission errors the CRC detects, by the number and the spread of the flipped bits. */
module CrcErrors {
  import opened Bits
  import opened Crc

  function Zeros(n: nat): (z: seq<bool>)
    ensures |z| == n
  {
    seq(n, _ => false)
  }

  /** The number of set bits. */
  function Weight(bits: seq<bool>): nat {
    if bits == [] then 0 else Numeral(bits[0]) + Weight(bits[1..])
  }

  /** The error pattern between two frames, in line order. */
  function Flips(sent: seq<byte>, got: seq<byte>): (d: seq<bool>)
    requires |sent| == |got|
    ensures |d| == 8 * |sent|
  {
    XorBits(StreamBits(sent), StreamBits(got))
  }

  /** By linearity the frame plays no part: an intact frame stays accepted exactly when its error
      pattern alone leaves a zero register. */
  lemma AcceptedIffPatternVanishes(sent: seq<byte>, got: seq<byte>)
    requires |sent| == |got| && Crc16(sent) == 0
    ensures Crc16(got) == 0 <==> FeedBits(0, Flips(sent, got)) == 0
  {
    hide Xor, Feed, FeedBits, StreamBits;
    FeedIsFeedBits(INITIAL, sent);
    FeedIsFeedBits(INITIAL, got);
    FeedBitsLinear(INITIAL, INITIAL, StreamBits(sent), StreamBits(got));
    XorZero(INITIAL, INITIAL);
    XorZero(Crc16(sent), Crc16(got));
  }

  lemma {:induction false} FeedZeros(r: nat, n: nat)
    ensures FeedBits(r, Zeros(n)) == ShiftN(r, n)
    decreases n
  {
    hide Xor, Shift;
    if n > 0 {
      assert Zeros(n)[1..] == Zeros(n - 1);
      XorIdentity(r);
      FeedZeros(Shift(r), n - 1);
    }
  }

  lemma ShiftZero(n: nat)
    ensures ShiftN(0, n) == 0
  {
    hide Xor, Shift, ShiftN;
    ShiftNKeepsNonZero(0, n);
  }

  // ---- bursts ----

  lemma {:induction false} BitsOfZero(n: nat)
    ensures BitsOf(0, n) == Zeros(n)
    decreases n
  {
    if n > 0 {
      BitsOfZero(n - 1);
    }
  }

  /** The value whose `n` lowest bits, lowest first, are `bits`. */
  function Pack(bits: seq<bool>): nat {
    if bits == [] then 0 else Numeral(bits[0]) + 2 * Pack(bits[1..])
  }

  lemma {:induction false} PackBits(bits: seq<bool>)
    ensures Pack(bits) < Pow2(|bits|)
    ensures BitsOf(Pack(bits), |bits|) == bits
    ensures Pack(bits) == 0 <==> Weight(bits) == 0
    decreases |bits|
  {
    if bits != [] {
      PackBits(bits[1..]);
      assert bits == [bits[0]] + bits[1..];
    }
  }

  lemma {:induction false} Pow2Grows(m: nat, n: nat)
    requires m <= n
    ensures Pow2(m) <= Pow2(n)
    decreases n
  {
    if m < n {
      Pow2Grows(m, n - 1);
    }
  }

  /** A non-zero error pattern confined to sixteen consecutive bits is always detected. */
  lemma BurstDetected(sent: seq<byte>, got: seq<byte>, before: nat, burst: seq<bool>, after: nat)
    requires |sent| == |got| && Crc16(sent) == 0
    requires Flips(sent, got) == Zeros(before) + burst + Zeros(after)
    requires |burst| <= 16 && sent != got
    ensures Crc16(got) != 0
  {
    hide Xor, Shift, ShiftN, FeedBits, Feed, Crc16, BitsOf, StreamBits;
    var d := Flips(sent, got);
    var v := Pack(burst);
    if Weight(burst) == 0 {
      PackBits(burst);
      WeightZero(burst);
      assert forall k | 0 <= k < |d| :: !d[k];
      SameBitsSameFrame(sent, got);
      assert false;
    }
    PackBits(burst);
    Pow2Values();
    Pow2Grows(|burst|, 16);
    var n := |burst|;
    FeedBitsConcat(0, Zeros(before) + burst, Zeros(after));
    FeedBitsConcat(0, Zeros(before), burst);
    FeedZeros(0, before);
    ShiftZero(before);
    ShiftNIsFeedBits(0, v, n);
    XorIdentity(v);
    FeedZeros(ShiftN(v, n), after);
    ShiftNIsWord(v, n);
    ShiftNKeepsNonZero(v, n);
    ShiftNKeepsNonZero(ShiftN(v, n), after);
    AcceptedIffPatternVanishes(sent, got);
  }

  lemma {:induction false} WeightZero(bits: seq<bool>)
    requires Weight(bits) == 0
    ensures forall k | 0 <= k < |bits| :: !bits[k]
    decreases |bits|
  {
    if bits != [] {
      WeightZero(bits[1..]);
      assert bits == [bits[0]] + bits[1..];
    }
  }

  lemma {:induction false} BitsDetermineValue(a: nat, b: nat, n: nat)
    requires a < Pow2(n) && b < Pow2(n) && BitsOf(a, n) == BitsOf(b, n)
    ensures a == b
    decreases n
  {
    if n > 0 {
      assert BitsOf(a, n)[0] == BitsOf(b, n)[0];
      assert BitsOf(a, n)[1..] == BitsOf(a / 2, n - 1);
      assert BitsOf(b, n)[1..] == BitsOf(b / 2, n - 1);
      BitsDetermineValue(a / 2, b / 2, n - 1);
    }
  }

  lemma {:induction false} SameBitsSameFrame(x: seq<byte>, y: seq<byte>)
    requires |x| == |y|
    requires forall k | 0 <= k < |Flips(x, y)| :: !Flips(x, y)[k]
    ensures x == y
    decreases |x|
  {
    var d := Flips(x, y);
    assert StreamBits(x) == StreamBits(y) by {
      forall k | 0 <= k < |d| ensures StreamBits(x)[k] == StreamBits(y)[k] {
        assert !d[k];
      }
    }
    if x != [] {
      Pow2Values();
      assert StreamBits(x)[..8] == BitsOf(x[0], 8) && StreamBits(y)[..8] == BitsOf(y[0], 8);
      assert StreamBits(x)[8..] == StreamBits(x[1..]) && StreamBits(y)[8..] == StreamBits(y[1..]);
      BitsDetermineValue(x[0], y[0], 8);
      SameBitsSameFrame(x[1..], y[1..]);
    }
  }

  // ---- odd errors: the shift step preserves parity ----

  function Parity(v: nat): bool {
    if v == 0 then false else (v % 2 == 1) != Parity(v / 2)
  }

  lemma {:induction false} ParityXor(a: nat, b: nat)
    ensures Parity(Xor(a, b)) == (Parity(a) != Parity(b))
    decreases a + b
  {
    if a != 0 || b != 0 {
      XorHalves(a, b);
      ParityXor(a / 2, b / 2);
    }
  }

  lemma PolynomialIsOdd()
    ensures Parity(POLYNOMIAL)
  {
    assert !Parity(0x5);
    assert Parity(0x28) == Parity(0x14) == Parity(0xA) == Parity(0x5);
    assert Parity(0x280) == Parity(0x140) == Parity(0xA0) == Parity(0x50) == Parity(0x28);
    assert Parity(0x2800) == Parity(0x1400) == Parity(0xA00) == Parity(0x500) == Parity(0x280);
    assert Parity(0x5000) == Parity(0x2800);
  }

  lemma ShiftKeepsParity(r: nat)
    ensures Parity(Shift(r)) == Parity(r)
  {
    hide Xor;
    PolynomialIsOdd();
    ParityXor(r / 2, POLYNOMIAL);
  }

  lemma {:induction false} FeedBitsParity(r: nat, bits: seq<bool>)
    ensures Parity(FeedBits(r, bits)) == (Parity(r) != (Weight(bits) % 2 == 1))
    decreases |bits|
  {
    hide Xor, Shift;
    if bits != [] {
      var b := Numeral(bits[0]);
      ParityXor(r, b);
      ShiftKeepsParity(Xor(r, b));
      FeedBitsParity(Shift(Xor(r, b)), bits[1..]);
    }
  }

  /** Every odd number of flipped bits is detected, at any frame length. */
  lemma OddErrorDetected(sent: seq<byte>, got: seq<byte>)
    requires |sent| == |got| && Crc16(sent) == 0
    requires Weight(Flips(sent, got)) % 2 == 1
    ensures Crc16(got) != 0
  {
    hide FeedBits, Crc16, Flips;
    FeedBitsParity(0, Flips(sent, got));
    AcceptedIffPatternVanishes(sent, got);
  }
}
