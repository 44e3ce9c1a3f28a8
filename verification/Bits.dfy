/** Unsigned integers as the C and C++ sources use them, and the bitwise operators on them.

    Bytes and words are ranges of the mathematical integers; shifts are division by powers of
    two, and exclusive-or and inclusive-or are defined bit by bit. */
module Bits {

  type byte = x: int | 0 <= x < 0x100
  type u16 = x: int | 0 <= x < 0x1_0000

  const U32: int := 0x1_0000_0000
  const U64: int := 0x1_0000_0000_0000_0000

  type u64 = x: int | 0 <= x < U64

  /** A 64-bit counter goes up by one and wraps. */
  function Inc64(x: u64): u64 {
    if x + 1 < U64 then x + 1 else 0
  }

  /** A 64-bit counter that has counted to `n`, wrapping. */
  predicate Counts(x: u64, n: int) {
    x == n % 0x1_0000_0000_0000_0000
  }

  lemma OneMore(x: u64, n: int)
    requires Counts(x, n)
    ensures Counts(Inc64(x), n + 1)
  {
  }

  /** `v >> k`. */
  function Shr(v: nat, k: nat): nat
    decreases k, v
  {
    if k == 0 then v else Shr(v / 2, k - 1)
  }

  /** `v & (2^n - 1)`. */
  function LowBits(v: nat, n: nat): nat
    decreases n, v
  {
    if n == 0 then 0 else 2 * LowBits(v / 2, n - 1) + v % 2
  }

  /** The cast of a length to 16 bits: it wraps, but not for the lengths of legal frames. */
  function ToU16(n: nat): u16 {
    if n < 0x1_0000 then n else n % 0x1_0000
  }

  lemma ToU16Wraps(n: nat)
    ensures ToU16(n) == n % 65536
  {
  }

  /** The high byte of a word. */
  function Hi(v: u16): byte {
    ShrByte(v);
    Shr(v, 8)
  }

  /** The low byte of a word. */
  function Lo(v: u16): byte {
    LowByte(v);
    LowBits(v, 8)
  }

  lemma ShrStep(v: nat, k: nat)
    ensures Shr(v, k + 1) == Shr(v / 2, k)
  {
  }

  lemma ShrNibble(v: nat, k: nat)
    ensures Shr(v, k + 4) == Shr(v / 0x10, k)
  {
    hide Shr;
    ShrStep(v, k + 3);
    ShrStep(v / 2, k + 2);
    ShrStep(v / 4, k + 1);
    ShrStep(v / 8, k);
  }

  lemma ShrByte(v: nat)
    ensures Shr(v, 8) == v / 0x100
  {
    ShrNibble(v, 4);
    ShrNibble(v / 0x10, 0);
  }

  lemma LowBitsStep(v: nat, k: nat)
    ensures LowBits(v, k + 1) == 2 * LowBits(v / 2, k) + v % 2
  {
  }

  lemma LowNibble(v: nat, k: nat)
    ensures LowBits(v, k + 4) == 0x10 * LowBits(v / 0x10, k) + v % 0x10
  {
    hide LowBits;
    LowBitsStep(v, k + 3);
    LowBitsStep(v / 2, k + 2);
    LowBitsStep(v / 4, k + 1);
    LowBitsStep(v / 8, k);
  }

  lemma LowByte(v: nat)
    ensures LowBits(v, 8) == v % 0x100
  {
    hide LowBits;
    var h := v / 0x10;
    LowNibble(v, 4);
    LowNibble(h, 0);
    LowNone(h / 0x10);
    TwoNibbles(v, h / 0x10, h % 0x10, v % 0x10);
  }

  lemma TwoNibbles(v: nat, hi: nat, mid: nat, lo: nat)
    requires v == 0x100 * hi + 0x10 * mid + lo && mid < 0x10 && lo < 0x10
    ensures v % 0x100 == 0x10 * mid + lo
  {
  }

  lemma LowNone(v: nat)
    ensures LowBits(v, 0) == 0
  {
  }

  /** The bytes of a word by arithmetic. */
  lemma BytesByDivision(v: u16)
    ensures Hi(v) == v / 0x100 && Lo(v) == v % 0x100
  {
    hide Shr, LowBits;
    ShrByte(v);
    LowByte(v);
  }

  lemma WordOfBytes(v: u16)
    ensures Word(Hi(v), Lo(v)) == v
  {
    hide Hi, Lo;
    BytesByDivision(v);
  }

  lemma BytesOfWord(hi: byte, lo: byte)
    ensures Hi(Word(hi, lo)) == hi && Lo(Word(hi, lo)) == lo
  {
    hide Hi, Lo;
    BytesByDivision(Word(hi, lo));
  }

  /** The big-endian word made of two bytes. */
  function Word(hi: byte, lo: byte): u16 {
    0x100 * hi + lo
  }

  /** The number at bytes `at` and `at + 1`, high byte first. */
  function Number(data: seq<byte>, at: nat): (v: u16)
    requires at + 2 <= |data|
  {
    256 * (data[at] as int) + data[at + 1] as int
  }

  lemma NumberIsWord(data: seq<byte>, at: nat)
    requires at + 2 <= |data|
    ensures Number(data, at) == Word(data[at], data[at + 1])
  {
  }

  /** `b | 0x80`. */
  function WithHighBit(b: byte): byte {
    if b < 0x80 then b + 0x80 else b
  }

  /** `a ^ b`. */
  function Xor(a: nat, b: nat): nat
    decreases a + b
  {
    if a == 0 && b == 0 then 0
    else 2 * Xor(a / 2, b / 2) + (if a % 2 == b % 2 then 0 else 1)
  }

  /** `a | b`. */
  function Or(a: nat, b: nat): nat
    decreases a + b
  {
    if a == 0 && b == 0 then 0
    else 2 * Or(a / 2, b / 2) + (if a % 2 == 0 && b % 2 == 0 then 0 else 1)
  }

  /** The `n` lowest bits of `v`, lowest first: the order in which a serial line sends them. */
  function BitsOf(v: nat, n: nat): (bits: seq<bool>)
    ensures |bits| == n
  {
    if n == 0 then [] else [v % 2 == 1] + BitsOf(v / 2, n - 1)
  }

  function Numeral(b: bool): nat {
    if b then 1 else 0
  }

  /** Position by position exclusive-or of two equally long bit strings. */
  function XorBits(x: seq<bool>, y: seq<bool>): (z: seq<bool>)
    requires |x| == |y|
    ensures |z| == |x|
  {
    seq(|x|, k requires 0 <= k < |x| => x[k] != y[k])
  }

  // ---- algebra of exclusive-or ----

  lemma XorHalves(a: nat, b: nat)
    ensures Xor(a, b) / 2 == Xor(a / 2, b / 2)
    ensures Xor(a, b) % 2 == if a % 2 == b % 2 then 0 else 1
  {
  }

  lemma XorIdentity(a: nat)
    ensures Xor(a, 0) == a && Xor(0, a) == a
  {
  }

  lemma {:induction false} XorCommutes(a: nat, b: nat)
    ensures Xor(a, b) == Xor(b, a)
    decreases a + b
  {
    if a != 0 || b != 0 {
      XorCommutes(a / 2, b / 2);
    }
  }

  lemma {:induction false} XorAssociates(a: nat, b: nat, c: nat)
    ensures Xor(Xor(a, b), c) == Xor(a, Xor(b, c))
    decreases a + b + c
  {
    if a != 0 || b != 0 || c != 0 {
      XorHalves(a, b);
      XorHalves(b, c);
      XorHalves(Xor(a, b), c);
      XorHalves(a, Xor(b, c));
      XorAssociates(a / 2, b / 2, c / 2);
    }
  }

  /** Exchange of the two middle operands, the form linearity proofs need. */
  lemma XorExchange(a: nat, b: nat, c: nat, d: nat)
    ensures Xor(Xor(a, b), Xor(c, d)) == Xor(Xor(a, c), Xor(b, d))
  {
    hide Xor;
    XorAssociates(a, b, Xor(c, d));
    XorAssociates(b, c, d);
    XorCommutes(b, c);
    XorAssociates(c, b, d);
    XorAssociates(a, c, Xor(b, d));
  }

  lemma {:induction false} XorZero(a: nat, b: nat)
    ensures Xor(a, b) == 0 <==> a == b
    decreases a + b
  {
    if a != 0 || b != 0 {
      XorZero(a / 2, b / 2);
    }
  }

  lemma {:induction false} XorBounded(a: nat, b: nat, k: nat)
    requires a < Pow2(k) && b < Pow2(k)
    ensures Xor(a, b) < Pow2(k)
    decreases k
  {
    if k > 0 {
      XorBounded(a / 2, b / 2, k - 1);
    }
  }

  function Pow2(k: nat): nat {
    if k == 0 then 1 else 2 * Pow2(k - 1)
  }

  lemma XorWord(a: u16, b: u16)
    ensures Xor(a, b) < 0x1_0000
  {
    hide Xor;
    Pow2Values();
    XorBounded(a, b, 16);
  }

  lemma XorByte(a: byte, b: byte)
    ensures Xor(a, b) < 0x100
  {
    hide Xor;
    Pow2Values();
    XorBounded(a, b, 8);
  }

  lemma {:induction false} OrBounded(a: nat, b: nat, k: nat)
    requires a < Pow2(k) && b < Pow2(k)
    ensures Or(a, b) < Pow2(k)
    decreases k
  {
    if k > 0 {
      OrBounded(a / 2, b / 2, k - 1);
    }
  }

  lemma {:induction false} BitsOfXor(a: nat, b: nat, n: nat)
    ensures BitsOf(Xor(a, b), n) == XorBits(BitsOf(a, n), BitsOf(b, n))
    decreases n
  {
    hide Xor;
    if n > 0 {
      XorHalves(a, b);
      BitsOfXor(a / 2, b / 2, n - 1);
    }
  }

  /** `v << k`. */
  function Shl(v: nat, k: nat): nat
    decreases k
  {
    if k == 0 then v else 2 * Shl(v, k - 1)
  }

  lemma OrHalves(a: nat, b: nat)
    ensures Or(a, b) / 2 == Or(a / 2, b / 2)
    ensures Or(a, b) % 2 == if a % 2 == 0 && b % 2 == 0 then 0 else 1
  {
  }

  /** `(a << k) | v`: the low bits are those of `v`, the others those of `a` and `v` together. */
  lemma {:induction false} OrShifted(a: nat, v: nat, k: nat)
    ensures Or(Shl(a, k), v) == Shl(Or(a, Shr(v, k)), k) + LowBits(v, k)
    decreases k
  {
    hide Or;
    if k > 0 {
      OrHalves(Shl(a, k), v);
      OrShifted(a, v / 2, k - 1);
    }
  }

  lemma OrZero(a: nat)
    ensures Or(a, 0) == a
  {
  }

  /** Bits below `2^k` and a value shifted left by `k` do not overlap, so `|` adds them. */
  lemma {:induction false} OrDisjoint(a: nat, b: nat, k: nat)
    requires b < Pow2(k)
    ensures Or(Shl(a, k), b) == Shl(a, k) + b
    decreases k
  {
    if k == 0 {
      OrZero(a);
    } else {
      OrDisjoint(a, b / 2, k - 1);
    }
  }

  lemma {:induction false} XorDisjoint(b: nat, a: nat, k: nat)
    requires b < Pow2(k)
    ensures Xor(b, Shl(a, k)) == b + Shl(a, k)
    decreases k
  {
    hide Xor;
    XorIdentity(Shl(a, k));
    if k > 0 {
      XorHalves(b, Shl(a, k));
      XorDisjoint(b / 2, a, k - 1);
    }
  }

  /** `(hi << 8) | lo`. */
  lemma WordIsOr(hi: byte, lo: byte)
    ensures Word(hi, lo) == Or(Shl(hi, 8), lo)
  {
    hide Or, Shl;
    Pow2Values();
    ShlByte(hi);
    OrDisjoint(hi, lo, 8);
  }

  /** `b | 0x80`. */
  lemma WithHighBitIsOr(b: byte)
    ensures WithHighBit(b) == Or(b, 0x80)
  {
    OrTop(b, 7);
    Pow2Values();
  }

  /** Setting bit `k` of a value of at most `k + 1` bits. */
  lemma {:induction false} OrTop(v: nat, k: nat)
    requires v < 2 * Pow2(k)
    ensures Or(v, Pow2(k)) == if v < Pow2(k) then v + Pow2(k) else v
    decreases k
  {
    if k > 0 {
      OrTop(v / 2, k - 1);
    }
  }

  lemma ShlByte(v: nat)
    ensures Shl(v, 8) == 0x100 * v
  {
    assert Shl(v, 2) == 4 * v;
    assert Shl(v, 4) == 0x10 * v;
    assert Shl(v, 6) == 0x40 * v;
  }

  lemma Pow2Values()
    ensures Pow2(3) == 8 && Pow2(7) == 0x80 && Pow2(8) == 0x100 && Pow2(15) == 0x8000 && Pow2(16) == 0x1_0000
  {
    assert Pow2(5) == 0x20;
    assert Pow2(9) == 0x200;
    assert Pow2(11) == 0x800;
    assert Pow2(13) == 0x2000;
  }
}
