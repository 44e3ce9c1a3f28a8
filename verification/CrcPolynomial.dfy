/** The mathematical definition of the CRC: a remainder of polynomials over GF(2).

    A polynomial is the list of its coefficients, highest power first, which is the order of the
    bits on the line: each byte goes out low bit first, and the register holds the coefficient of
    x^15 in its low bit. */
module CrcPolynomial {
  import opened Bits
  import opened Crc
  import opened CrcErrors
  import opened CrcOrder

  /** The coefficient of `x^i`. */
  function Coefficient(p: seq<bool>, i: int): bool {
    0 <= i < |p| && p[|p| - 1 - i]
  }

  /** The coefficient of `x^i` in the product of `q` and `g`. */
  function ProductCoefficient(q: seq<bool>, g: seq<bool>, i: int): bool
    decreases |q|
  {
    if q == [] then false
    else ProductCoefficient(q[..|q| - 1], g, i - 1) != (q[|q| - 1] && Coefficient(g, i))
  }

  /** x^16 + x^15 + x^2 + 1. */
  function Generator(): (g: seq<bool>)
    ensures forall i: int :: Coefficient(g, i) <==> i == 16 || i == 15 || i == 2 || i == 0
  {
    [true, true, false, false, false, false, false, false, false, false, false, false, false, false, true, false, true]
  }

  function Ones(n: nat): (z: seq<bool>)
    ensures |z| == n
  {
    seq(n, _ => true)
  }

  /** The coefficients of the polynomial that is divided: the message times x^16, plus the sixteen
      initial ones times x^m, where m is the length of the message. */
  function DividendCoefficient(message: seq<bool>, i: int): bool {
    Coefficient(message + Zeros(16), i) != Coefficient(Ones(16) + Zeros(|message|), i)
  }

  /** `r`, of degree below 16, is a remainder of the dividend modulo the generator. */
  ghost predicate IsRemainder(message: seq<bool>, r: seq<bool>) {
    |r| == 16 && exists q: seq<bool> :: Divides(message, q, r)
  }

  ghost predicate Divides(message: seq<bool>, q: seq<bool>, r: seq<bool>) {
    forall i: int :: DividendCoefficient(message, i) == (ProductCoefficient(q, Generator(), i) != Coefficient(r, i))
  }

  /** The register as a polynomial: bit k holds the coefficient of x^(15 - k). */
  function Register(r: nat): (p: seq<bool>)
    ensures |p| == 16
  {
    BitsOf(r, 16)
  }

  lemma {:induction false} DoubledBits(w: nat, k: nat, n: nat)
    requires k <= n
    ensures BitsOf(Shl(w, k), n) == Zeros(k) + BitsOf(w, n - k)
    decreases k
  {
    if k > 0 {
      DoubledBits(w, k - 1, n - 1);
    }
  }

  lemma PolynomialBits()
    ensures forall i | 0 <= i < 16 :: Register(POLYNOMIAL)[i] <==> i == 0 || i == 13 || i == 15
  {
    hide Xor, Pow2;
    FiveShifted();
    DoubledBits(5, 12, 15);
    assert BitsOf(0, 0) == [];
    assert BitsOf(1, 1) == [true] + BitsOf(0, 0);
    assert BitsOf(2, 2) == [false] + BitsOf(1, 1);
    assert BitsOf(5, 3) == [true] + BitsOf(2, 2);
    assert Register(POLYNOMIAL) == [true] + Zeros(12) + [true, false, true];
  }

  /** One turn of the register: the low bit leaves, and the generator is added if it and the
      message bit differ. */
  lemma StepBits(r: u16, b: bool, k: nat)
    requires k < 16
    ensures Register(Shift(Xor(r, Numeral(b))))[k]
         == ((k < 15 && Register(r)[k + 1]) != (Register(r)[0] != b && (k == 0 || k == 13 || k == 15)))
  {
    hide Xor, Parity;
    var v := Xor(r, Numeral(b));
    XorHalves(r, Numeral(b));
    XorIdentity(r / 2);
    assert v / 2 == r / 2;
    Pow2Values();
    TopBitClear(r / 2, 15);
    assert Register(r) == [r % 2 == 1] + BitsOf(r / 2, 15);
    assert BitsOf(r / 2, 16) == Register(r)[1..] + [false];
    PolynomialBits();
    var a := BitsOf(r / 2, 16);
    if v % 2 == 1 {
      BitsOfXor(r / 2, POLYNOMIAL, 16);
      assert Register(Shift(v)) == XorBits(a, Register(POLYNOMIAL));
    } else {
      assert Register(Shift(v)) == a;
    }
    assert a[k] == (k < 15 && Register(r)[k + 1]);
    assert v % 2 == 1 <==> Register(r)[0] != b;
  }

  /** The same as polynomials: multiply the register by x, bring the message bit in at x^16, and
      take the generator away if that coefficient is set. */
  lemma StepCoefficients(r: u16, b: bool, i: int)
    ensures var top := Coefficient(Register(r), 15) != b;
      Coefficient(Register(Shift(Xor(r, Numeral(b)))), i)
        == ((Coefficient(Register(r), i - 1) != (b && i == 16)) != (top && Coefficient(Generator(), i)))
  {
    hide Xor, Shift, BitsOf, Generator;
    var before, after := Register(r), Register(Shift(Xor(r, Numeral(b))));
    var top := before[0] != b;
    assert Coefficient(before, 15) == before[0];
    if 0 <= i < 16 {
      var k := 15 - i;
      StepBits(r, b, k);
      assert after[k] == ((k < 15 && before[k + 1]) != (top && (k == 0 || k == 13 || k == 15)));
      assert Coefficient(before, i - 1) == (k < 15 && before[k + 1]);
      assert Coefficient(Generator(), i) == (k == 0 || k == 13 || k == 15);
      assert Coefficient(after, i) == after[k];
    } else if i == 16 {
      assert Coefficient(Generator(), i);
      assert !Coefficient(after, i);
    } else {
      assert !Coefficient(Generator(), i) && !Coefficient(after, i) && !Coefficient(before, i - 1);
    }
  }

  lemma {:induction false} TopBitClear(v: nat, n: nat)
    requires v < Pow2(n)
    ensures BitsOf(v, n + 1) == BitsOf(v, n) + [false]
    decreases n
  {
    if n > 0 {
      TopBitClear(v / 2, n - 1);
    }
  }

  // ---- the quotient, one bit of message at a time ----

  function Quotient(r: nat, bits: seq<bool>): (q: seq<bool>)
    decreases |bits|
  {
    if bits == [] then []
    else
      var before := bits[..|bits| - 1];
      Quotient(r, before) + [Coefficient(Register(FeedBits(r, before)), 15) != bits[|bits| - 1]]
  }

  lemma {:induction false} FeedBitsIsWord(r: u16, bits: seq<bool>)
    ensures FeedBits(r, bits) < 0x1_0000
    decreases |bits|
  {
    hide Xor, Shift;
    if bits != [] {
      var v := Xor(r, Numeral(bits[0]));
      XorWord(r, Numeral(bits[0]));
      ShiftIsWord(v);
      FeedBitsIsWord(Shift(v), bits[1..]);
    }
  }

  lemma InitialRegister()
    ensures Register(INITIAL) == Ones(16)
  {
    hide Pow2;
    AllOnes(16);
    Pow2Values();
  }

  lemma {:induction false} AllOnes(n: nat)
    ensures Pow2(n) >= 1 && BitsOf(Pow2(n) - 1, n) == Ones(n)
    decreases n
  {
    if n > 0 {
      AllOnes(n - 1);
      assert (Pow2(n) - 1) / 2 == Pow2(n - 1) - 1;
    }
  }

  /** The division identity, coefficient by coefficient. */
  lemma {:induction false} DivisionIdentity(message: seq<bool>, i: int)
    ensures DividendCoefficient(message, i)
         == (ProductCoefficient(Quotient(INITIAL, message), Generator(), i)
             != Coefficient(Register(FeedBits(INITIAL, message)), i))
    decreases |message|
  {
    hide Xor, Shift, FeedBits, BitsOf, Generator, Quotient, ProductCoefficient, Register;
    if message == [] {
      EmptyMessage(message, i);
    } else {
      var before, b := message[..|message| - 1], message[|message| - 1];
      assert message == before + [b];
      DivisionIdentity(before, i - 1);
      DividendGrows(before, b, i);
      QuotientGrows(before, b, i);
      FeedBitsIsWord(INITIAL, before);
      StepCoefficients(FeedBits(INITIAL, before), b, i);
      FeedOneMore(INITIAL, before, b);
    }
  }

  lemma EmptyMessage(message: seq<bool>, i: int)
    requires message == []
    ensures DividendCoefficient(message, i) == Coefficient(Register(FeedBits(INITIAL, message)), i)
    ensures !ProductCoefficient(Quotient(INITIAL, message), Generator(), i)
  {
    InitialRegister();
    hide Register, Generator;
    assert message + Zeros(16) == Zeros(16);
    assert Ones(16) + Zeros(0) == Ones(16);
  }

  lemma FeedOneMore(r: nat, before: seq<bool>, b: bool)
    ensures FeedBits(r, before + [b]) == Shift(Xor(FeedBits(r, before), Numeral(b)))
  {
    hide Xor, Shift;
    FeedBitsConcat(r, before, [b]);
    assert [b][1..] == [];
    var w := Shift(Xor(FeedBits(r, before), Numeral(b)));
    assert FeedBits(w, []) == w;
  }

  lemma QuotientGrows(before: seq<bool>, b: bool, i: int)
    ensures var top := Coefficient(Register(FeedBits(INITIAL, before)), 15) != b;
      ProductCoefficient(Quotient(INITIAL, before + [b]), Generator(), i)
        == (ProductCoefficient(Quotient(INITIAL, before), Generator(), i - 1) != (top && Coefficient(Generator(), i)))
  {
    hide Xor, Shift, FeedBits, BitsOf, Generator, Register;
    assert (before + [b])[..|before|] == before;
    var q := Quotient(INITIAL, before);
    var t := Coefficient(Register(FeedBits(INITIAL, before)), 15) != b;
    assert (q + [t])[..|q|] == q;
  }

  lemma DividendGrows(message: seq<bool>, b: bool, i: int)
    ensures DividendCoefficient(message + [b], i)
         == (DividendCoefficient(message, i - 1) != (b && i == 16))
  {
  }

  // ---- uniqueness ----

  /** A non-zero multiple of the generator has degree 16 or more. */
  lemma {:induction false} MultipleHasHighPower(q: seq<bool>) returns (i: int)
    requires exists k | 0 <= k < |q| :: q[k]
    ensures i >= 16 && ProductCoefficient(q, Generator(), i)
    decreases |q|
  {
    hide Generator;
    var before, t := q[..|q| - 1], q[|q| - 1];
    if j :| 0 <= j < |before| && before[j] {
      i := MultipleHasHighPower(before);
      i := i + 1;
    } else {
      ZeroProduct(before, 15);
      i := 16;
    }
  }

  lemma {:induction false} ZeroProduct(q: seq<bool>, i: int)
    requires forall k | 0 <= k < |q| :: !q[k]
    ensures !ProductCoefficient(q, Generator(), i)
    decreases |q|
  {
    hide Generator;
    if q != [] {
      ZeroProduct(q[..|q| - 1], i - 1);
    }
  }

  lemma {:induction false} PaddedProduct(k: nat, q: seq<bool>, g: seq<bool>, i: int)
    ensures ProductCoefficient(Zeros(k) + q, g, i) == ProductCoefficient(q, g, i)
    decreases k + |q|
  {
    var p := Zeros(k) + q;
    if q != [] {
      assert p[..|p| - 1] == Zeros(k) + q[..|q| - 1];
      PaddedProduct(k, q[..|q| - 1], g, i - 1);
    } else if k > 0 {
      assert p[..|p| - 1] == Zeros(k - 1) + q;
      PaddedProduct(k - 1, q, g, i - 1);
    }
  }

  lemma {:induction false} ProductLinear(p: seq<bool>, q: seq<bool>, g: seq<bool>, i: int)
    requires |p| == |q|
    ensures ProductCoefficient(XorBits(p, q), g, i) == (ProductCoefficient(p, g, i) != ProductCoefficient(q, g, i))
    decreases |p|
  {
    if p != [] {
      var n := |p| - 1;
      assert XorBits(p, q)[..n] == XorBits(p[..n], q[..n]);
      ProductLinear(p[..n], q[..n], g, i - 1);
    }
  }

  lemma EquallyLongQuotients(message: seq<bool>, q: seq<bool>, r: seq<bool>, q': seq<bool>, r': seq<bool>)
    requires |r| == |r'| == 16 && |q| == |q'|
    requires Divides(message, q, r) && Divides(message, q', r')
    ensures r == r'
  {
    hide Generator, ProductCoefficient, DividendCoefficient;
    var d := XorBits(q, q');
    if exists k | 0 <= k < |d| :: d[k] {
      var i := MultipleHasHighPower(d);
      ProductLinear(q, q', Generator(), i);
      assert false;
    }
    forall k | 0 <= k < 16 ensures r[k] == r'[k] {
      var i := 15 - k;
      ZeroProduct(d, i);
      ProductLinear(q, q', Generator(), i);
      assert Coefficient(r, i) == r[k] && Coefficient(r', i) == r'[k];
      assert DividendCoefficient(message, i) == DividendCoefficient(message, i);
    }
  }

  lemma PaddedDivides(k: nat, message: seq<bool>, q: seq<bool>, r: seq<bool>)
    requires Divides(message, q, r)
    ensures Divides(message, Zeros(k) + q, r)
  {
    hide Generator, ProductCoefficient, DividendCoefficient;
    forall i: int ensures
      DividendCoefficient(message, i) == (ProductCoefficient(Zeros(k) + q, Generator(), i) != Coefficient(r, i))
    {
      PaddedProduct(k, q, Generator(), i);
    }
  }

  /** A message has at most one remainder. */
  lemma RemainderUnique(message: seq<bool>, r: seq<bool>, r': seq<bool>)
    requires IsRemainder(message, r) && IsRemainder(message, r')
    ensures r == r'
  {
    hide Divides;
    var q: seq<bool> :| Divides(message, q, r);
    var q': seq<bool> :| Divides(message, q', r');
    PaddedDivides(|q'|, message, q, r);
    PaddedDivides(|q|, message, q', r');
    EquallyLongQuotients(message, Zeros(|q'|) + q, r, Zeros(|q|) + q', r');
  }

  /** `mb_crc16` computes the remainder: the bits of its result, low bit first, are the one
      polynomial of degree below 16 that is congruent to the dividend. */
  lemma CrcIsRemainder(buf: seq<byte>, r: seq<bool>)
    ensures IsRemainder(StreamBits(buf), r) <==> r == BitsOf(Crc16(buf), 16)
  {
    hide Generator, FeedBits, StreamBits, Feed, ProductCoefficient, DividendCoefficient, Coefficient, BitsOf,
         Quotient;
    var message := StreamBits(buf);
    FeedIsFeedBits(INITIAL, buf);
    assert Divides(message, Quotient(INITIAL, message), Register(Crc16(buf))) by {
      forall i: int ensures
        DividendCoefficient(message, i)
          == (ProductCoefficient(Quotient(INITIAL, message), Generator(), i) != Coefficient(Register(Crc16(buf)), i))
      {
        DivisionIdentity(message, i);
      }
    }
    if IsRemainder(message, r) {
      RemainderUnique(message, r, Register(Crc16(buf)));
    }
  }
}
