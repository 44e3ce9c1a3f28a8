/** Two flipped bits: the order of the shift step, and with it the exact reach of the CRC.

    x^16 + x^15 + x^2 + 1 = (x + 1)(x^15 + x + 1), and the second factor is primitive. The proof
    follows one state of even parity along its orbit and looks only at the low bits, a sequence
    with s(e + 15) = s(e + 1) + s(e) in which shifting by a power of two is a sum of four terms. */
module CrcOrder {
  import opened Bits
  import opened Crc
  import opened CrcErrors

  /** The period of the shift step on the state 1. */
  const ORDER: nat := 32767

  /** S(1) + 1, where S is the shift step: a state whose low thirteen bits are clear. */
  const START: u16 := 0xA000

  function Orbit(e: nat): nat {
    ShiftN(START, e)
  }

  function LowBit(e: nat): bool {
    Orbit(e) % 2 == 1
  }

  lemma OrbitAdds(e: nat, n: nat)
    ensures Orbit(e + n) == ShiftN(Orbit(e), n)
  {
    hide Xor, Shift;
    ShiftNAdds(START, e, n);
  }

  lemma FirstStates(e: nat)
    requires e <= 13
    ensures Orbit(e) == Shl(5, 13 - e)
  {
    hide Xor, Shift, ShiftN;
    FiveShifted();
    EvenShifts(5, 13, e);
  }

  lemma FiveShifted()
    ensures Shl(5, 11) == 0x2800 && Shl(5, 12) == 0x5000 && Shl(5, 13) == START
  {
    assert Shl(5, 3) == 0x28;
    assert Shl(5, 5) == 0xA0;
    assert Shl(5, 7) == 0x280;
    assert Shl(5, 9) == 0xA00;
  }

  lemma OrbitStep(e: nat)
    ensures Orbit(e + 1) == Shift(Orbit(e))
  {
    hide Xor, Shift;
    OrbitAdds(e, 1);
  }

  lemma OrbitIsWord(e: nat)
    ensures Orbit(e) < 0x1_0000
  {
    hide ShiftN;
    ShiftNIsWord(START, e);
  }

  lemma NextStates()
    ensures Orbit(13) == 5
    ensures Orbit(14) == Xor(2, POLYNOMIAL)
    ensures Orbit(15) == Xor(1, Xor(0x5000, POLYNOMIAL))
    ensures Orbit(16) == Xor(0x2800, 0x5000)
  {
    hide Xor, Orbit, ShiftN;
    var p: nat := POLYNOMIAL;
    FirstStates(13);
    OrbitStep(13);
    OrbitStep(14);
    OrbitStep(15);
    ShiftLinear(2, p);
    ShiftLinear(1, Xor(0x5000, p));
    ShiftLinear(0x5000, p);
    XorIdentity(p);
    XorIdentity(Xor(0x2800, 0x5000));
    assert Orbit(16) == Xor(p, Xor(0x2800, Xor(0x5000, p)));
    XorAssociates(0x2800, 0x5000, p);
    XorCommutes(p, Xor(Xor(0x2800, 0x5000), p));
    XorAssociates(Xor(0x2800, 0x5000), p, p);
    XorZero(p, p);
  }

  lemma FirstBits()
    ensures forall e | 0 <= e < 16 :: LowBit(e) <==> e == 13 || e == 14
  {
    hide Xor, Shift, ShiftN, Orbit;
    forall e | 0 <= e < 16 ensures LowBit(e) <==> e == 13 || e == 14 {
      if e < 13 {
        FirstStates(e);
      } else {
        NextStates();
        var p: nat := POLYNOMIAL;
        XorHalves(2, p);
        XorHalves(0x5000, p);
        XorHalves(1, Xor(0x5000, p));
      }
    }
  }

  lemma SixteenthState()
    ensures Orbit(16) == Xor(Orbit(1), Orbit(2))
  {
    hide Xor, Shift, ShiftN, Orbit, Shl;
    NextStates();
    FirstStates(1);
    FirstStates(2);
    FiveShifted();
    XorCommutes(0x2800, 0x5000);
  }

  lemma Recurrence(e: nat)
    ensures LowBit(e + 16) == (LowBit(e + 1) != LowBit(e + 2))
  {
    hide Xor, Shift, ShiftN, Orbit;
    SixteenthState();
    OrbitAdds(16, e);
    OrbitAdds(1, e);
    OrbitAdds(2, e);
    ShiftNLinear(Orbit(1), Orbit(2), e);
    XorHalves(Orbit(1 + e), Orbit(2 + e));
  }

  // ---- long strides ----

  /** `c1` s(e+1) + `c2` s(e+2) + `c4` s(e+4) + `c8` s(e+8). */
  datatype Stride = Stride(c1: bool, c2: bool, c4: bool, c8: bool) {

    function Sum(e: nat): bool {
      ((c1 && LowBit(e + 1)) != (c2 && LowBit(e + 2))) != ((c4 && LowBit(e + 4)) != (c8 && LowBit(e + 8)))
    }
  }

  /** The stride of length `2^k`: squaring doubles every exponent, and 16 stands for 1 and 2. */
  function PowerStride(k: nat): Stride {
    if k == 0 then Stride(true, false, false, false) else Squared(PowerStride(k - 1))
  }

  function Squared(c: Stride): Stride {
    Stride(c.c8, c.c1 != c.c8, c.c2, c.c4)
  }

  /** Squaring over GF(2): the cross terms cancel. */
  lemma SquaredStride(c: Stride, e: nat)
    ensures Squared(c).Sum(e)
         == (((c.c1 && c.Sum(e + 1)) != (c.c2 && c.Sum(e + 2))) != ((c.c4 && c.Sum(e + 4)) != (c.c8 && c.Sum(e + 8))))
  {
    hide Orbit, LowBit;
    Recurrence(e);
  }

  lemma {:induction false} PowerStrides(k: nat, e: nat)
    ensures LowBit(e + Pow2(k)) == PowerStride(k).Sum(e)
    decreases k
  {
    hide Orbit, LowBit;
    if k > 0 {
      var n := Pow2(k - 1);
      var c := PowerStride(k - 1);
      PowerStrides(k - 1, e + n);
      PowerStrides(k - 1, e + 1);
      PowerStrides(k - 1, e + 2);
      PowerStrides(k - 1, e + 4);
      PowerStrides(k - 1, e + 8);
      assert LowBit(e + n + n) == c.Sum(e + n);
      assert e + n + n == e + Pow2(k);
      assert e + n + 1 == e + 1 + n && e + n + 2 == e + 2 + n;
      assert e + n + 4 == e + 4 + n && e + n + 8 == e + 8 + n;
      SquaredStride(c, e);
    }
  }

  lemma Strides(e: nat)
    ensures LowBit(e + 64) == (LowBit(e + 4) != LowBit(e + 8))
    ensures LowBit(e + 128) == ((LowBit(e + 1) != LowBit(e + 2)) != LowBit(e + 8))
    ensures LowBit(e + 512) == (LowBit(e + 2) != LowBit(e + 8))
    ensures LowBit(e + 1024) == ((LowBit(e + 1) != LowBit(e + 2)) != LowBit(e + 4))
    ensures LowBit(e + 4096) == ((LowBit(e + 1) != LowBit(e + 2)) != (LowBit(e + 4) != LowBit(e + 8)))
    ensures LowBit(e + 32768) == LowBit(e + 1)
  {
    hide Orbit, LowBit;
    assert PowerStride(3) == Stride(false, false, false, true);
    assert PowerStride(6) == Stride(false, false, true, true);
    assert PowerStride(7) == Stride(true, true, false, true);
    assert PowerStride(9) == Stride(false, true, false, true);
    assert PowerStride(10) == Stride(true, true, true, false);
    assert PowerStride(12) == Stride(true, true, true, true);
    assert PowerStride(15) == Stride(true, false, false, false);
    assert Pow2(6) == 64 && Pow2(9) == 512 && Pow2(12) == 4096 && Pow2(15) == 32768;
    PowerStrides(6, e);
    PowerStrides(7, e);
    PowerStrides(9, e);
    PowerStrides(10, e);
    PowerStrides(12, e);
    PowerStrides(15, e);
  }

  lemma LowBitTable()
    ensures forall e | 0 <= e < 42 :: LowBit(e) <==> e == 13 || e == 14 || e == 27 || e == 29 || e == 41
  {
    hide Orbit, LowBit;
    FirstBits();
    forall e | 16 <= e < 27 ensures !LowBit(e) {
      Recurrence(e - 16);
    }
    forall e | 27 <= e < 31 ensures LowBit(e) <==> e == 27 || e == 29 {
      Recurrence(e - 16);
    }
    forall e | 31 <= e < 42 ensures LowBit(e) <==> e == 41 {
      Recurrence(e - 16);
    }
  }

  // ---- periods ----

  ghost predicate Period(d: nat) {
    ShiftN(1, d) == 1
  }

  lemma ShiftOne()
    ensures Shift(1) == POLYNOMIAL && START == Xor(POLYNOMIAL, 1)
  {
    hide Xor;
    XorIdentity(POLYNOMIAL);
    XorHalves(POLYNOMIAL, 1);
    XorIdentity(0x5000);
  }

  lemma PeriodOfOrbit(d: nat, e: nat)
    requires Period(d)
    ensures LowBit(d + e) == LowBit(e)
  {
    hide Xor, Shift;
    var p: nat := POLYNOMIAL;
    ShiftOne();
    ShiftNLinear(p, 1, d);
    ShiftNAdds(1, 1, d);
    ShiftNAdds(1, d, 1);
    assert Orbit(d) == START;
    OrbitAdds(d, e);
  }

  // The three largest proper divisors of the order are no periods.

  lemma NoPeriod217()
    ensures !Period(217)
  {
    hide Orbit, LowBit, Period;
    LowBitTable();
    Strides(89);
    Strides(33);
    Strides(27);
    Strides(26);
    assert LowBit(217 + 0) != LowBit(0);
    if Period(217) {
      PeriodOfOrbit(217, 0);
    }
  }

  lemma NoPeriod1057()
    ensures !Period(1057)
  {
    hide Orbit, LowBit, Period;
    LowBitTable();
    Strides(37);
    assert LowBit(1057 + 4) != LowBit(4);
    if Period(1057) {
      PeriodOfOrbit(1057, 4);
    }
  }

  lemma NoPeriod4681()
    ensures !Period(4681)
  {
    hide Orbit, LowBit, Period;
    LowBitTable();
    Strides(586);
    Strides(75);
    Strides(76);
    Strides(78);
    Strides(82);
    Strides(13);
    Strides(14);
    Strides(16);
    Strides(19);
    Strides(22);
    Strides(26);
    assert LowBit(4681 + 1) != LowBit(1);
    if Period(4681) {
      PeriodOfOrbit(4681, 1);
    }
  }

  lemma {:induction false} LowBitsDetermine(z: nat, n: nat)
    requires forall e | 0 <= e < n :: ShiftN(z, e) % 2 == 0
    ensures z == Shl(ShiftN(z, n), n)
    decreases n
  {
    hide Xor;
    if n > 0 {
      assert ShiftN(z, 0) % 2 == 0;
      forall e | 0 <= e < n - 1 ensures ShiftN(Shift(z), e) % 2 == 0 {
        assert ShiftN(z, e + 1) == ShiftN(Shift(z), e);
      }
      LowBitsDetermine(Shift(z), n - 1);
      assert z == 2 * Shift(z);
    }
  }

  lemma {:induction false} XorShifted(a: nat, b: nat, k: nat)
    ensures Xor(Shl(a, k), Shl(b, k)) == Shl(Xor(a, b), k)
    decreases k
  {
    hide Xor;
    if k > 0 {
      XorDoubled(Shl(a, k - 1), Shl(b, k - 1));
      XorShifted(a, b, k - 1);
    }
  }

  lemma XorDoubled(x: nat, y: nat)
    ensures Xor(2 * x, 2 * y) == 2 * Xor(x, y)
  {
    hide Xor;
    XorHalves(2 * x, 2 * y);
  }

  /** The one odd state that the shift step leaves alone, and its parity. */
  lemma OddFixedPoint()
    ensures Shift(0xC001) == 0xC001 && Parity(0xC001)
  {
    hide Xor, Parity;
    var p: nat := POLYNOMIAL;
    FiveShifted();
    ThreeShifted();
    XorDisjoint(1, 5, 13);
    XorShifted(3, 5, 13);
    XorDisjoint(1, 6, 13);
    XorCommutes(0x6000, p);
    XorAssociates(1, 0xA000, 0x6000);
    XorCommutes(0xA000, 0x6000);
    ParityXor(1, 0xC000);
    ParityOfShl(3, 14);
  }

  lemma ThreeShifted()
    ensures Shl(3, 13) == 0x6000 && Shl(3, 14) == 0xC000 && Shl(6, 13) == 0xC000
    ensures Xor(3, 5) == 6 && 1 < Pow2(13)
    ensures Parity(1) && !Parity(3)
  {
  }

  lemma {:induction false} ParityOfShl(v: nat, k: nat)
    ensures Parity(Shl(v, k)) == Parity(v)
    decreases k
  {
    if k > 0 {
      ParityOfShl(v, k - 1);
    }
  }

  lemma FixedPoint(z: nat)
    requires Shift(z) == z && !Parity(z)
    ensures z == 0
  {
    hide Xor;
    if z % 2 == 1 {
      OddFixedPoint();
      ShiftLinear(z, 0xC001);
      XorHalves(z, 0xC001);
      XorZero(z, 0xC001);
    }
  }

  lemma {:induction false} ShiftNKeepsParity(r: nat, n: nat)
    ensures Parity(ShiftN(r, n)) == Parity(r)
    decreases n
  {
    hide Shift, Parity;
    if n > 0 {
      ShiftKeepsParity(r);
      ShiftNKeepsParity(Shift(r), n - 1);
    }
  }

  /** After 32768 shifts every low bit of the orbit is one step behind, so the states agree. */
  lemma OrbitReturns()
    ensures Orbit(32768) == Orbit(1)
  {
    hide Xor, Shift, ShiftN, Orbit;
    var a, b := Orbit(32768), Orbit(1);
    var z := Xor(a, b);
    forall e | 0 <= e < 16 ensures ShiftN(z, e) % 2 == 0 {
      Strides(e);
      OrbitAdds(32768, e);
      OrbitAdds(1, e);
      ShiftNLinear(a, b, e);
      XorHalves(ShiftN(a, e), ShiftN(b, e));
    }
    OrbitIsWord(32768);
    OrbitIsWord(1);
    XorWord(a, b);
    NoLowBits(z);
    XorZero(a, b);
  }

  lemma NoLowBits(z: u16)
    requires forall e | 0 <= e < 16 :: ShiftN(z, e) % 2 == 0
    ensures z == 0
  {
    hide Shift, ShiftN, Shl, Pow2;
    LowBitsDetermine(z, 16);
    ShlLarge(ShiftN(z, 16), 16);
    Pow2Values();
  }

  lemma {:induction false} ShlLarge(v: nat, k: nat)
    ensures if v == 0 then Shl(v, k) == 0 else Shl(v, k) >= Pow2(k)
    decreases k
  {
    if k > 0 {
      ShlLarge(v, k - 1);
    }
  }

  lemma OrderIsPeriod()
    ensures Period(ORDER)
  {
    hide Xor, Shift, ShiftN, Orbit;
    var w, p := ShiftN(1, ORDER), POLYNOMIAL as nat;
    var z := Xor(w, 1);
    // z is fixed: S^n (S(1) + 1) = S(1) + 1, by cancelling one shift from OrbitReturns.
    OrbitEndsWhereItStarts();
    StartIsSum(ORDER);
    ShiftLinear(w, 1);
    ShiftOne();
    // S(w) + w == p + 1, hence S(w) + p == w + 1.
    assert Shift(z) == z by {
      Rearrange(Shift(w), w, p, 1);
    }
    ShiftNKeepsParity(1, ORDER);
    ParityXor(w, 1);
    FixedPoint(z);
    XorZero(w, 1);
  }

  lemma OrbitEndsWhereItStarts()
    ensures Orbit(ORDER) == START
  {
    hide Xor, Shift, ShiftN, Orbit;
    var a, b := Orbit(ORDER), Orbit(0);
    OrbitReturns();
    OrbitStep(ORDER);
    OrbitStep(0);
    ShiftLinear(a, b);
    XorZero(Shift(a), Shift(b));
    OrbitIsWord(ORDER);
    OrbitIsWord(0);
    XorWord(a, b);
    ShiftKeepsNonZero(Xor(a, b));
    XorZero(a, b);
    OrbitBegins();
  }

  lemma OrbitBegins()
    ensures Orbit(0) == START
  {
  }

  lemma ShiftKeepsNonZero(r: u16)
    ensures Shift(r) == 0 <==> r == 0
  {
    hide Xor, Shift;
    ShiftNKeepsNonZero(r, 1);
  }

  lemma StartIsSum(n: nat)
    ensures Orbit(n) == Xor(Shift(ShiftN(1, n)), ShiftN(1, n))
    ensures START == Xor(POLYNOMIAL, 1)
  {
    hide Xor, Shift;
    var p: nat := POLYNOMIAL;
    ShiftOne();
    ShiftNLinear(p, 1, n);
    ShiftNAdds(1, 1, n);
    ShiftNAdds(1, n, 1);
  }

  lemma Rearrange(a: nat, b: nat, c: nat, d: nat)
    requires Xor(a, b) == Xor(c, d)
    ensures Xor(a, c) == Xor(b, d)
  {
    hide Xor;
    XorExchange(a, b, c, d);
    XorZero(Xor(a, b), Xor(c, d));
    XorZero(Xor(a, c), Xor(b, d));
  }

  // ---- exactly the multiples of the order are periods ----

  lemma PeriodsSubtract(a: nat, b: nat)
    requires Period(a) && Period(b) && b <= a
    ensures Period(a - b)
  {
    hide Xor, Shift;
    ShiftNAdds(1, a - b, b);
    var w := ShiftN(1, a - b);
    ShiftNIsWord(1, a - b);
    ShiftNLinear(w, 1, b);
    XorZero(ShiftN(w, b), ShiftN(1, b));
    XorWord(w, 1);
    ShiftNKeepsNonZero(Xor(w, 1), b);
    XorZero(w, 1);
  }

  lemma {:induction false} MultiplesArePeriods(n: nat, k: nat, m: nat)
    requires Period(n) && m == k * n
    ensures Period(m)
    decreases k
  {
    hide Period;
    if k > 0 {
      var rest := OneLess(n, k, m);
      MultiplesArePeriods(n, k - 1, rest);
      PeriodsAdd(rest, n, m);
    } else {
      ZeroIsPeriod();
    }
  }

  lemma ZeroIsPeriod()
    ensures Period(0)
  {
  }

  lemma OneLess(n: nat, k: nat, m: nat) returns (rest: nat)
    requires k > 0 && m == k * n
    ensures rest == (k - 1) * n && m == rest + n
  {
    rest := (k - 1) * n;
  }

  lemma PeriodsAdd(a: nat, b: nat, c: nat)
    requires Period(a) && Period(b) && c == a + b
    ensures Period(c)
  {
    hide Xor, Shift;
    ShiftNAdds(1, a, b);
  }

  /** The greatest common divisor of two periods is a period. */
  lemma {:induction false} CommonPeriod(a: nat, b: nat) returns (g: nat, p: nat, q: nat)
    requires a > 0 && b > 0 && Period(a) && Period(b)
    ensures g > 0 && Period(g) && a == p * g && b == q * g
    decreases a + b
  {
    hide Period;
    if a == b {
      g, p, q := a, 1, 1;
    } else if a > b {
      PeriodsSubtract(a, b);
      g, p, q := CommonPeriod(a - b, b);
      p := p + q;
    } else {
      PeriodsSubtract(b, a);
      g, p, q := CommonPeriod(a, b - a);
      q := p + q;
    }
  }

  lemma SmallDivisor(n: nat, k: nat)
    requires 1 <= n <= 181 && n * k == ORDER
    ensures n == 1 || n == 7 || n == 31 || n == 151
  {
  }

  lemma OneIsSmall(n: nat, k: nat)
    requires n > 181 && n * k == ORDER
    ensures 1 <= k <= 181 && k * n == ORDER
  {
  }

  /** A proper divisor of the order divides one of its three largest proper divisors. */
  lemma ProperDivisor(n: nat, k: nat) returns (m: nat)
    requires n * k == ORDER && n != ORDER
    ensures m * n == 217 || m * n == 1057 || m * n == 4681
  {
    if n <= 181 {
      SmallDivisor(n, k);
      m := if n == 1 then 217 else if n == 7 then 31 else if n == 31 then 7 else 7;
    } else {
      OneIsSmall(n, k);
      SmallDivisor(k, n);
      m := 1;
    }
  }

  lemma ProperDivisorIsNoPeriod(n: nat, k: nat)
    requires n * k == ORDER && n != ORDER
    ensures !Period(n)
  {
    hide Period;
    if Period(n) {
      var m := ProperDivisor(n, k);
      MultiplesArePeriods(n, m, m * n);
      NoPeriod217();
      NoPeriod1057();
      NoPeriod4681();
    }
  }

  lemma MultipleLeavesNothing(p: nat, d: nat)
    requires d == p * ORDER
    ensures d % ORDER == 0
  {
  }

  lemma PeriodsDivideOrder(d: nat)
    requires d > 0 && Period(d)
    ensures d % ORDER == 0
  {
    hide Period;
    OrderIsPeriod();
    var g, p, q := CommonPeriod(d, ORDER);
    assert g == ORDER by {
      if g != ORDER {
        ProperDivisorIsNoPeriod(g, q);
      }
    }
    MultipleLeavesNothing(p, d);
  }

  /** The shift step returns the state 1 to itself after `d` turns exactly when `d` is a multiple
      of 32767. */
  lemma PeriodIff(d: nat)
    ensures Period(d) <==> d % ORDER == 0
  {
    hide Period;
    if d > 0 && Period(d) {
      PeriodsDivideOrder(d);
    }
    if d % ORDER == 0 {
      OrderIsPeriod();
      MultiplesArePeriods(ORDER, d / ORDER, d);
    }
  }

  // ---- two flipped bits ----

  /** Exactly the bits at `i` and `j` are set. */
  ghost predicate OnlyAt(d: seq<bool>, i: nat, j: nat) {
    i < j < |d| && forall k | 0 <= k < |d| :: d[k] <==> k == i || k == j
  }

  lemma TwoOnesVanishIff(d: seq<bool>, i: nat, j: nat)
    requires OnlyAt(d, i, j)
    ensures FeedBits(0, d) == 0 <==> (j - i) % ORDER == 0
  {
    hide Xor, Shift, FeedBits;
    var gap, tail := j - i - 1, |d| - j - 1;
    var head := Zeros(i) + [true] + Zeros(gap) + [true];
    assert d == head + Zeros(tail);
    FeedBitsConcat(0, head, Zeros(tail));
    FeedBitsConcat(0, Zeros(i) + [true] + Zeros(gap), [true]);
    FeedBitsConcat(0, Zeros(i) + [true], Zeros(gap));
    FeedBitsConcat(0, Zeros(i), [true]);
    FeedZeros(0, i);
    ShiftZero(i);
    OneBit(0);
    XorIdentity(1);
    FeedZeros(Shift(1), gap);
    var w := ShiftN(1, gap + 1);
    assert ShiftN(Shift(1), gap) == w;
    OneBit(w);
    FeedZeros(Shift(Xor(w, 1)), tail);
    ShiftNIsWord(1, gap + 1);
    XorWord(w, 1);
    ShiftNKeepsNonZero(Xor(w, 1), tail + 1);
    XorZero(w, 1);
    PeriodIff(gap + 1);
  }

  lemma OneBit(r: nat)
    ensures FeedBits(r, [true]) == Shift(Xor(r, 1))
  {
    hide Xor, Shift;
    assert [true][1..] == [];
    assert FeedBits(Shift(Xor(r, 1)), []) == Shift(Xor(r, 1));
  }

  /** Two flipped bits escape the CRC exactly when their distance is a multiple of 32767 bits,
      at any frame length. */
  lemma DoubleErrorDetectedIff(sent: seq<byte>, got: seq<byte>, i: nat, j: nat)
    requires |sent| == |got| && Crc16(sent) == 0
    requires OnlyAt(Flips(sent, got), i, j)
    ensures Crc16(got) != 0 <==> (j - i) % ORDER != 0
  {
    hide Flips, FeedBits, Crc16;
    AcceptedIffPatternVanishes(sent, got);
    TwoOnesVanishIff(Flips(sent, got), i, j);
  }

  lemma {:induction false} FirstOne(d: seq<bool>) returns (i: nat)
    requires Weight(d) > 0
    ensures i < |d| && d[i] && Weight(d[i + 1..]) == Weight(d) - 1
    ensures forall k | 0 <= k < i :: !d[k]
    decreases |d|
  {
    if d[0] {
      i := 0;
    } else {
      i := FirstOne(d[1..]);
      assert d[1..][i + 1..] == d[i + 2..];
      assert forall k | 1 <= k < i + 1 :: d[k] == d[1..][k - 1];
      i := i + 1;
    }
  }

  lemma TwoOnes(d: seq<bool>) returns (i: nat, j: nat)
    requires Weight(d) == 2
    ensures OnlyAt(d, i, j)
  {
    i := FirstOne(d);
    var rest := d[i + 1..];
    var e := FirstOne(rest);
    j := i + 1 + e;
    WeightZero(rest[e + 1..]);
    forall k | 0 <= k < |d| ensures d[k] <==> k == i || k == j {
      if k > j {
        assert d[k] == rest[k - i - 1] == rest[e + 1..][k - j - 1];
      } else if k > i {
        assert d[k] == rest[k - i - 1];
      }
    }
  }

  /** One, two or three flipped bits in a valid frame of at most 4095 bytes are always detected;
      RTU frames have at most 256. */
  lemma UpToThreeFlipsDetected(sent: seq<byte>, got: seq<byte>)
    requires |sent| == |got| <= 4095 && Crc16(sent) == 0
    requires 1 <= Weight(Flips(sent, got)) <= 3
    ensures Crc16(got) != 0
  {
    if Weight(Flips(sent, got)) == 2 {
      var i, j := TwoOnes(Flips(sent, got));
      DoubleErrorDetectedIff(sent, got, i, j);
    } else {
      OddErrorDetected(sent, got);
    }
  }
}
