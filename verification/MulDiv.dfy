/** The 64-bit multiply-divide of src/BaseClasses/arithutil.cpp: (a * b + d) / c on
    128-bit and 96-bit limbs. Machine words are subset types and every wrap-around is
    written out; both routines are proved equal to one line of exact integer arithmetic. */
module MulDiv {
  import opened Words

  // ----- machine words

  function LowPart(q: QWord): DWord { q % TWO_TO_THE_32 }

  function HighPart(q: QWord): DWord { q / TWO_TO_THE_32 }

  function QuadPart(high: DWord, low: DWord): QWord { high * TWO_TO_THE_32 + low }

  function ToQWord(x: int): QWord { x % TWO_TO_THE_64 }

  function ToDWord(x: int): DWord { x % TWO_TO_THE_32 }

  /** Reading a 64-bit word as a signed one. */
  function AsLongLong(q: QWord): LongLong {
    if q < TWO_TO_THE_63 then q else q - TWO_TO_THE_64
  }

  /** Two's complement negation of a signed 64-bit word; the minimum is its own negation. */
  function Negate(x: LongLong): LongLong {
    if x == -TWO_TO_THE_63 then x else -x
  }

  // ----- the specification

  /** The sign the code carries: that of the exact value over the divisor, and when the
      exact value is zero the sign of the product's operands. */
  predicate IsNegative(a: int, b: int, c: int, d: int) {
    var n := a * b + d;
    (if n != 0 then n < 0 else (a < 0) != (b < 0)) != (c < 0)
  }

  /** Reading an integer modulo 2^64 as a signed word. */
  function WrapSigned(x: int): LongLong { AsLongLong(ToQWord(x)) }

  function Signed(negative: bool, u: nat): int { if negative then 0 - u else u }

  function Quotient(magnitude: nat, divisor: nat): nat
    requires divisor > 0
  {
    magnitude / divisor
  }

  /** A magnitude divided: the signed extreme from 2^64 up (and for divisor 0), and
      otherwise the signed quotient as a 64-bit word. */
  function Divided(negative: bool, magnitude: nat, divisor: nat): LongLong {
    if divisor == 0 || Quotient(magnitude, divisor) >= TWO_TO_THE_64 then
      if negative then -TWO_TO_THE_63 else TWO_TO_THE_63 - 1
    else
      WrapSigned(Signed(negative, Quotient(magnitude, divisor)))
  }

  function MulDivResult(a: int, b: int, c: int, d: int): LongLong {
    Divided(IsNegative(a, b, c, d), Abs(a * b + d), Abs(c))
  }

  /** C's division: the quotient rounded toward zero. */
  function TruncatedQuotient(n: int, c: int): int
    requires c != 0
  {
    Signed((n < 0) != (c < 0), Quotient(Abs(n), Abs(c)))
  }

  /** The result is the exact truncated quotient precisely when that quotient is a
      64-bit value. A quotient of magnitude in [2^63, 2^64) is NOT saturated: it wraps. */
  lemma ExactIffQuotientFits(a: int, b: int, c: int, d: int)
    requires c != 0
    ensures var q := TruncatedQuotient(a * b + d, c);
            var r := MulDivResult(a, b, c, d);
            && (r == q <==> -TWO_TO_THE_63 <= q < TWO_TO_THE_63)
            && (TWO_TO_THE_63 <= q < TWO_TO_THE_64 ==> r == q - TWO_TO_THE_64)
            && (-TWO_TO_THE_64 < q < -TWO_TO_THE_63 ==> r == q + TWO_TO_THE_64)
            && (q >= TWO_TO_THE_64 ==> r == TWO_TO_THE_63 - 1)
            && (q <= -TWO_TO_THE_64 ==> r == -TWO_TO_THE_63)
  {
    var n := a * b + d;
    ZeroDividend(Abs(c));
    DividedCases(IsNegative(a, b, c, d), Abs(n), Abs(c));
  }

  /** A zero divisor gives the signed extreme. */
  lemma DivisorZero(a: int, b: int, d: int)
    ensures a * b + d > 0 ==> MulDivResult(a, b, 0, d) == TWO_TO_THE_63 - 1
    ensures a * b + d < 0 ==> MulDivResult(a, b, 0, d) == -TWO_TO_THE_63
    ensures a * b + d == 0 ==>
              MulDivResult(a, b, 0, d) == if (a < 0) != (b < 0) then -TWO_TO_THE_63 else TWO_TO_THE_63 - 1
  {
  }

  lemma ZeroDividend(c: nat)
    requires c > 0
    ensures 0 / c == 0
  {
  }

  lemma DividedCases(negative: bool, magnitude: nat, divisor: nat)
    requires divisor > 0
    ensures var q := Signed(negative, Quotient(magnitude, divisor));
            var r := Divided(negative, magnitude, divisor);
            && (r == q <==> -TWO_TO_THE_63 <= q < TWO_TO_THE_63)
            && (TWO_TO_THE_63 <= q < TWO_TO_THE_64 ==> r == q - TWO_TO_THE_64)
            && (-TWO_TO_THE_64 < q < -TWO_TO_THE_63 ==> r == q + TWO_TO_THE_64)
            && (q >= TWO_TO_THE_64 ==> r == TWO_TO_THE_63 - 1)
            && (q <= -TWO_TO_THE_64 ==> r == -TWO_TO_THE_63)
  {
    hide Quotient;
  }

  /** A positive quotient of 2^63 comes back as the most negative value. */
  lemma QuotientGapWraps()
    ensures TruncatedQuotient(0x4000_0000_0000_0000 * 2 + 0, 1) == TWO_TO_THE_63
    ensures MulDivResult(0x4000_0000_0000_0000, 2, 1, 0) == -TWO_TO_THE_63
  {
  }

  // ----- limb lemmas

  lemma ProductBound(x: int, y: int, m: nat, n: nat)
    requires 0 <= x <= m && 0 <= y <= n
    ensures 0 <= x * y <= m * n
  {
    assert x * y <= m * y <= m * n;
  }

  lemma MultiplyMonotonic(x: int, y: int, c: nat)
    ensures x <= y ==> x * c <= y * c
  {
  }

  /** A quotient lies below n exactly when the dividend lies below n divisors. */
  lemma QuotientBelow(v: nat, c: nat, n: nat)
    requires c > 0
    ensures v / c < n <==> v < n * c
  {
    var q := v / c;
    assert v == q * c + v % c;
    MultiplyMonotonic(q + 1, n, c);
    MultiplyMonotonic(n, q, c);
    assert (q + 1) * c == q * c + c;
  }

  /** The quotient by c reaches 2^64 exactly when the top limb reaches c. */
  lemma OverflowTest(high: QWord, low: QWord, c: nat)
    ensures c <= high <==> c == 0 || Quotient(Value(high, low), c) >= TWO_TO_THE_64
  {
    if c != 0 {
      QuotientBelow(Value(high, low), c, TWO_TO_THE_64);
    }
  }

  lemma QuotientUnique(v: int, q: int, c: int, r: int)
    requires c > 0 && 0 <= r < c && v == q * c + r
    ensures v / c == q && v % c == r
  {
    var q', r' := v / c, v % c;
    assert v == q' * c + r';
    MultiplyMonotonic(q + 1, q', c);
    MultiplyMonotonic(q' + 1, q, c);
    assert (q + 1) * c == q * c + c && (q' + 1) * c == q' * c + c;
  }

  /** Schoolbook division of two digits below the top one: high < c. */
  lemma TwoDigitDivision(high: nat, mid: DWord, low: DWord, c: nat)
    requires high < c <= TWO_TO_THE_32
    ensures var dividend := high * TWO_TO_THE_32 + mid;
            var rest := (dividend % c) * TWO_TO_THE_32 + low;
            && 0 <= dividend / c < TWO_TO_THE_32
            && 0 <= rest / c < TWO_TO_THE_32
            && (high * TWO_TO_THE_64 + mid * TWO_TO_THE_32 + low) / c
               == (dividend / c) * TWO_TO_THE_32 + rest / c
  {
    var dividend := high * TWO_TO_THE_32 + mid;
    var r := dividend % c;
    DigitBelow(high, mid, c);
    DigitBelow(r, low, c);
    JoinDigits(dividend, low, c);
  }

  lemma DigitBelow(high: nat, low: DWord, c: nat)
    requires high < c
    ensures 0 <= (high * TWO_TO_THE_32 + low) / c < TWO_TO_THE_32
  {
    QuotientBelow(high * TWO_TO_THE_32 + low, c, TWO_TO_THE_32);
  }

  lemma JoinDigits(dividend: nat, low: DWord, c: nat)
    requires c > 0
    ensures (dividend * TWO_TO_THE_32 + low) / c
            == (dividend / c) * TWO_TO_THE_32 + ((dividend % c) * TWO_TO_THE_32 + low) / c
  {
    var q1, r1 := dividend / c, dividend % c;
    var rest := r1 * TWO_TO_THE_32 + low;
    var q0, r0 := rest / c, rest % c;
    calc {
      dividend * TWO_TO_THE_32 + low;
      (q1 * c + r1) * TWO_TO_THE_32 + low;
      { Regroup(q1, c, TWO_TO_THE_32); }
      (q1 * TWO_TO_THE_32) * c + rest;
      (q1 * TWO_TO_THE_32) * c + q0 * c + r0;
      { Distribute(q1 * TWO_TO_THE_32, q0, c); }
      (q1 * TWO_TO_THE_32 + q0) * c + r0;
    }
    QuotientUnique(dividend * TWO_TO_THE_32 + low, q1 * TWO_TO_THE_32 + q0, c, r0);
  }

  lemma Regroup(x: int, y: int, z: int)
    ensures (x * y) * z == (x * z) * y
  {
  }

  lemma Distribute(x: int, y: int, z: int)
    ensures (x + y) * z == x * z + y * z
  {
  }

  // ----- the shared steps on limbs

  /** The value of the limbs p[1]:p[0]. */
  function Value(p1: QWord, p0: QWord): nat { p1 * TWO_TO_THE_64 + p0 }

  lemma ExpandProduct(ah: int, al: int, bh: int, bl: int)
    ensures (ah * TWO_TO_THE_32 + al) * (bh * TWO_TO_THE_32 + bl)
            == ah * bh * TWO_TO_THE_64 + (al * bh + ah * bl) * TWO_TO_THE_32 + al * bl
  {
    var k := TWO_TO_THE_32;
    calc {
      (ah * k + al) * (bh * k + bl);
      { Distribute(ah * k, al, bh * k + bl); }
      (ah * k) * (bh * k + bl) + al * (bh * k + bl);
      { Distribute(bh * k, bl, ah * k); Distribute(bh * k, bl, al); }
      (ah * k) * (bh * k) + (ah * k) * bl + al * (bh * k) + al * bl;
      { Regroup(ah, k, bl); Regroup(al, bh, k); Regroup(ah, k, bh); }
      ah * bh * TWO_TO_THE_64 + (al * bh + ah * bl) * k + al * bl;
    }
  }

  /** Long multiplication of two absolute values. */
  method LongMultiply(ua: QWord, ub: QWord) returns (p1: QWord, p0: QWord)
    requires ua <= TWO_TO_THE_63 && ub <= TWO_TO_THE_63
    ensures Value(p1, p0) == ua * ub
  {
    ghost var al, ah, bl, bh := LowPart(ua), HighPart(ua), LowPart(ub), HighPart(ub);
    ProductBound(al, bl, TWO_TO_THE_32 - 1, TWO_TO_THE_32 - 1);
    ProductBound(al, bh, TWO_TO_THE_32 - 1, TWO_TO_THE_31);
    ProductBound(ah, bl, TWO_TO_THE_31, TWO_TO_THE_32 - 1);
    ProductBound(ah, bh, TWO_TO_THE_31, TWO_TO_THE_31);
    ExpandProduct(ah, al, bh, bl);

    p0 := LowPart(ua) * LowPart(ub);
    var x: QWord := LowPart(ua) * HighPart(ub) + HighPart(ua) * LowPart(ub) + HighPart(p0);
    p0 := QuadPart(LowPart(x), LowPart(p0));
    p1 := HighPart(ua) * HighPart(ub) + HighPart(x);
  }

  /** The low 64 bits of a sum, 32 bits at a time, and the carry out of them. */
  method AddLowLimbs(ud0: QWord, p0: QWord) returns (carry: DWord, sum: QWord)
    ensures carry * TWO_TO_THE_64 + sum == ud0 + p0
  {
    var total: QWord := LowPart(ud0) + LowPart(p0);
    sum := QuadPart(HighPart(p0), LowPart(total));
    total := QuadPart(0, HighPart(total));
    total := total + HighPart(ud0) + HighPart(sum);
    sum := QuadPart(LowPart(total), LowPart(sum));
    carry := HighPart(total);
  }

  // ----- llMulDiv

  const TWO_TO_THE_128: int := TWO_TO_THE_64 * TWO_TO_THE_64

  /** x, or -x for a negative product: the exact value in the product's sign. */
  function Oriented(negative: bool, x: int): int { if negative then 0 - x else x }

  /** The two's complement representation of x in 128 bits. */
  function Extended(x: int): int { if x < 0 then x + TWO_TO_THE_128 else x }

  /** d or -d extended to 128 bits. */
  method ExtendAddend(d: LongLong, negate: bool) returns (ud1: QWord, ud0: QWord)
    ensures Value(ud1, ud0) == Extended(Oriented(negate, d))
  {
    if negate {
      ud0 := ToQWord(Negate(d));
      ud1 := if d > 0 then TWO_TO_THE_64 - 1 else 0;
    } else {
      ud0 := ToQWord(d);
      ud1 := if d < 0 then TWO_TO_THE_64 - 1 else 0;
    }
  }

  /** Two's complement negation across the two limbs. */
  method NegateLimbs(q1: QWord, q0: QWord) returns (p1: QWord, p0: QWord)
    requires Value(q1, q0) != 0
    ensures Value(p1, p0) == TWO_TO_THE_128 - Value(q1, q0)
  {
    p0 := TWO_TO_THE_64 - 1 - q0;
    p1 := TWO_TO_THE_64 - 1 - q1;
    p0 := ToQWord(p0 + 1);
    p1 := ToQWord(p1 + (if p0 == 0 then 1 else 0));
  }

  lemma PowersOfTwo()
    ensures PowerOfTwo(63) == TWO_TO_THE_63
    ensures PowerOfTwo(64) == TWO_TO_THE_64
  {
    assert PowerOfTwo(8) == 0x100;
    assert PowerOfTwo(16) == 0x1_0000;
    assert PowerOfTwo(24) == 0x100_0000;
    assert PowerOfTwo(32) == 0x1_0000_0000;
    assert PowerOfTwo(40) == 0x100_0000_0000;
    assert PowerOfTwo(48) == 0x1_0000_0000_0000;
    assert PowerOfTwo(56) == 0x100_0000_0000_0000;
    assert PowerOfTwo(64) == 0x1_0000_0000_0000_0000;
  }

  lemma {:induction false} PowerOfTwoBound(n: nat)
    requires n <= 63
    ensures PowerOfTwo(n) <= TWO_TO_THE_63
    decreases 63 - n
  {
    if n == 63 {
      PowersOfTwo();
    } else {
      PowerOfTwoBound(n + 1);
    }
  }

  /** What the loop keeps: after k == 2^i the dividend times k is the quotient so far
      times the divisor in the top limb, plus the limbs as shifted. */
  predicate Shifted(v: nat, k: nat, r: nat, uc: nat, p1: nat, p0: nat) {
    v * k == (r * uc + p1) * TWO_TO_THE_64 + p0
  }

  lemma ShiftKeeps(v: nat, k: nat, r: nat, uc: nat, p1: nat, p0: QWord)
    requires Shifted(v, k, r, uc, p1, p0)
    ensures var top := if p0 >= TWO_TO_THE_63 then 1 else 0;
            Shifted(v, 2 * k, 2 * r, uc, 2 * p1 + top, (2 * p0) % TWO_TO_THE_64)
  {
    Regroup(2, k, v);
    Regroup(2, r, uc);
  }

  lemma SubtractKeeps(v: nat, k: nat, r: nat, uc: nat, p1: nat, p0: nat)
    requires uc <= p1 && Shifted(v, k, r, uc, p1, p0)
    ensures Shifted(v, k, r + 1, uc, p1 - uc, p0)
  {
    Distribute(r, 1, uc);
  }

  /** One turn of the loop's shift: the top limb has room for the carried bit. */
  method ShiftLeft(q1: QWord, q0: QWord) returns (p1: QWord, p0: QWord)
    requires q1 < TWO_TO_THE_63
    ensures p1 == 2 * q1 + (if q0 >= TWO_TO_THE_63 then 1 else 0)
    ensures p0 == (2 * q0) % TWO_TO_THE_64
  {
    p1 := ToQWord(q1 * 2);
    if HighPart(q0) >= TWO_TO_THE_31 {
      p1 := QuadPart(HighPart(p1), ToDWord(LowPart(p1) + 1));
    }
    p0 := ToQWord(q0 * 2);
  }

  lemma NoWrap(x: nat)
    requires x < TWO_TO_THE_64
    ensures ToQWord(x) == x
  {
  }

  /** One bit of the quotient. */
  method DivisionStep(ghost v: nat, ghost i: nat, r: QWord, q1: QWord, q0: QWord, uc: QWord)
    returns (r': QWord, p1: QWord, p0: QWord)
    requires i < 64 && q1 < uc <= TWO_TO_THE_63 && r < PowerOfTwo(i)
    requires Shifted(v, PowerOfTwo(i), r, uc, q1, q0)
    ensures p1 < uc && r' < PowerOfTwo(i + 1)
    ensures Shifted(v, PowerOfTwo(i + 1), r', uc, p1, p0)
  {
    hide Shifted, ToQWord;
    ghost var k := PowerOfTwo(i);
    PowerOfTwoBound(i);
    NoWrap(2 * r);
    ShiftKeeps(v, k, r, uc, q1, q0);
    r' := ToQWord(r * 2);
    p1, p0 := ShiftLeft(q1, q0);
    assert Shifted(v, 2 * k, r', uc, p1, p0);
    if uc <= p1 {
      SubtractKeeps(v, 2 * k, r', uc, p1, p0);
      p1 := p1 - uc;
      r' := r' + 1;
    }
  }

  lemma LastRemainder(v: nat, r: nat, uc: nat, p1: nat, p0: QWord)
    requires p1 < uc && Shifted(v, TWO_TO_THE_64, r, uc, p1, p0)
    ensures r == Quotient(v, uc)
  {
    assert v == r * uc + p1;
    QuotientUnique(v, r, uc, p1);
  }

  /** The 64-step shift-subtract loop. The top limb stays below the divisor, so shifting
      it left never loses a bit. */
  method LongDivision(q1: QWord, q0: QWord, uc: QWord) returns (r: QWord)
    requires q1 < uc <= TWO_TO_THE_63
    ensures r == Quotient(Value(q1, q0), uc)
  {
    ghost var v := Value(q1, q0);
    var p1: QWord, p0: QWord := q1, q0;
    r := 0;
    for i := 0 to 64
      invariant p1 < uc
      invariant r < PowerOfTwo(i)
      invariant Shifted(v, PowerOfTwo(i), r, uc, p1, p0)
    {
      r, p1, p0 := DivisionStep(v, i, r, p1, p0, uc);
    }
    PowersOfTwo();
    LastRemainder(v, r, uc, p1, p0);
  }

  /** Division by a 32-bit divisor: two digits, the top one already below the divisor. */
  method ShortDivision(q1: QWord, q0: QWord, uc: QWord) returns (r: QWord)
    requires q1 < uc < TWO_TO_THE_32
    ensures r == Quotient(Value(q1, q0), uc)
  {
    hide Quotient, Remainder;
    TwoDigitQuotient(q1, HighPart(q0), LowPart(q0), uc);
    ghost var mid, tail := HighPart(q0), LowPart(q0);
    var dividend := QuadPart(LowPart(q1), HighPart(q0));
    assert dividend == QuadPart(q1, mid);
    var high, rest := Divide(dividend, ToDWord(uc));
    var p0 := QuadPart(ToDWord(rest), LowPart(q0));
    var low, _ := Divide(p0, ToDWord(uc));
    r := low + QuadPart(ToDWord(high), 0);
    assert q0 == QuadPart(mid, tail);
  }

  function Remainder(dividend: nat, divisor: nat): (r: nat)
    requires divisor > 0
    ensures r < divisor
  {
    dividend % divisor
  }

  lemma TwoDigitQuotient(high: nat, mid: DWord, low: DWord, c: nat)
    requires high < c < TWO_TO_THE_32
    ensures var dividend := QuadPart(high, mid);
            var rest := QuadPart(Remainder(dividend, c), low);
            && Quotient(dividend, c) < TWO_TO_THE_32
            && Quotient(rest, c) < TWO_TO_THE_32
            && Quotient(Value(high, QuadPart(mid, low)), c)
               == Quotient(dividend, c) * TWO_TO_THE_32 + Quotient(rest, c)
  {
    TwoDigitDivision(high, mid, low, c);
  }

  method Divide(dividend: QWord, divisor: QWord) returns (quotient: QWord, remainder: QWord)
    requires divisor > 0
    ensures quotient == Quotient(dividend, divisor) && remainder == Remainder(dividend, divisor)
  {
    QuotientBelow(dividend, divisor, TWO_TO_THE_64);
    MultiplyMonotonic(1, divisor, TWO_TO_THE_64);
    quotient, remainder := dividend / divisor, dividend % divisor;
  }

  /** The cast negation gives 2^63 for the minimum. */
  function Absolute(x: LongLong): (u: QWord)
    ensures u == Abs(x) && u <= TWO_TO_THE_63
  {
    ToQWord(if x >= 0 then x else Negate(x))
  }

  method SignedResult(negative: bool, r: QWord) returns (result: LongLong)
    ensures result == WrapSigned(Signed(negative, r))
  {
    result := if negative then Negate(AsLongLong(r)) else AsLongLong(r);
  }

  lemma SumOfLimbs(q1: QWord, q0: QWord, ud1: QWord, ud0: QWord, carry: DWord, low: QWord, e: int)
    requires carry * TWO_TO_THE_64 + low == ud0 + q0
    requires Value(ud1, ud0) == Extended(e) && -TWO_TO_THE_63 <= e <= TWO_TO_THE_63
    requires Value(q1, q0) <= TWO_TO_THE_63 * TWO_TO_THE_63
    ensures Value(ToQWord(q1 + ToQWord(ud1 + carry)), low) == Extended(Value(q1, q0) + e)
  {
  }

  /** Adding d in the product's sign; the sign flips when the sum crosses zero. */
  method AddAddend(negative: bool, q1: QWord, q0: QWord, d: LongLong)
    returns (sign: bool, p1: QWord, p0: QWord)
    requires Value(q1, q0) <= TWO_TO_THE_63 * TWO_TO_THE_63
    ensures var s := Value(q1, q0) + Oriented(negative, d);
            && Value(p1, p0) == Abs(s)
            && sign == if s < 0 then !negative else negative
  {
    var ud1, ud0 := ExtendAddend(d, negative);
    var carry, low := AddLowLimbs(ud0, q0);
    SumOfLimbs(q1, q0, ud1, ud0, carry, low, Oriented(negative, d));
    p0 := low;
    p1 := ToQWord(q1 + ToQWord(ud1 + carry));
    sign := negative;
    if HighPart(p1) >= TWO_TO_THE_31 {
      sign := !sign;
      p1, p0 := NegateLimbs(p1, p0);
    }
  }

  lemma SignedProduct(a: int, b: int)
    ensures a * b == Oriented((a < 0) != (b < 0), Abs(a) * Abs(b))
    ensures Abs(a) * Abs(b) >= 0
  {
  }

  /** In the product's sign the exact value is a sum of magnitudes; crossing zero there
      is what flips the sign. */
  lemma OrientedSum(a: int, b: int, c: int, d: int)
    ensures var negative := (a < 0) != (b < 0);
            var s := Abs(a) * Abs(b) + Oriented(negative, d);
            && Abs(s) == Abs(a * b + d)
            && IsNegative(a, b, c, d) == ((if s < 0 then !negative else negative) != (c < 0))
  {
    SignedProduct(a, b);
  }

  /** The dividend the code carries is the magnitude of the exact value, in its sign. */
  method Dividend(a: LongLong, b: LongLong, c: LongLong, d: LongLong) returns (sign: bool, p1: QWord, p0: QWord)
    ensures Value(p1, p0) == Abs(a * b + d)
    ensures sign == IsNegative(a, b, c, d)
  {
    OrientedSum(a, b, c, d);
    hide Absolute, Abs, Oriented, Value, IsNegative;
    sign, p1, p0 := MultiplyAdd((a < 0) != (b < 0), Absolute(a), Absolute(b), d);
    if c < 0 {
      sign := !sign;
    }
  }

  method MultiplyAdd(negative: bool, ua: QWord, ub: QWord, d: LongLong) returns (sign: bool, p1: QWord, p0: QWord)
    requires ua <= TWO_TO_THE_63 && ub <= TWO_TO_THE_63
    ensures var s := ua * ub + Oriented(negative, d);
            && Value(p1, p0) == Abs(s)
            && sign == if s < 0 then !negative else negative
  {
    ProductBound(ua, ub, TWO_TO_THE_63, TWO_TO_THE_63);
    hide Value;
    sign := negative;
    p1, p0 := LongMultiply(ua, ub);
    if d != 0 {
      sign, p1, p0 := AddAddend(sign, p1, p0, d);
    }
  }

  /** The last part of the routine: saturation, one of the three divisions, the sign. */
  method DivideSigned(sign: bool, p1: QWord, p0: QWord, uc: QWord) returns (result: LongLong)
    requires uc <= TWO_TO_THE_63
    ensures result == Divided(sign, Value(p1, p0), uc)
  {
    hide Quotient;
    OverflowTest(p1, p0, uc);
    if uc <= p1 {
      return if sign then -TWO_TO_THE_63 else TWO_TO_THE_63 - 1;
    }
    var r: QWord;
    if p1 == 0 {
      var rest;
      r, rest := Divide(p0, uc);
    } else if HighPart(uc) == 0 {
      r := ShortDivision(p1, p0, uc);
    } else {
      r := LongDivision(p1, p0, uc);
    }
    result := SignedResult(sign, r);
  }

  method LlMulDiv(a: LongLong, b: LongLong, c: LongLong, d: LongLong) returns (result: LongLong)
    ensures result == MulDivResult(a, b, c, d)
  {
    hide Divided;
    var sign, p1, p0 := Dividend(a, b, c, d);
    result := DivideSigned(sign, p1, p0, Absolute(c));
  }

  // ----- Int64x32Div32

  const TWO_TO_THE_96: int := TWO_TO_THE_64 * TWO_TO_THE_32

  /** The quotient fits 32 bits exactly when the high half is below the divisor. */
  lemma FitsWord(dividend: QWord, divisor: DWord)
    requires divisor > 0
    ensures Quotient(dividend, divisor) < TWO_TO_THE_32 <==> HighPart(dividend) < divisor
  {
    QuotientBelow(dividend, divisor, TWO_TO_THE_32);
    MultiplyMonotonic(HighPart(dividend) + 1, divisor, TWO_TO_THE_32);
    MultiplyMonotonic(divisor, HighPart(dividend), TWO_TO_THE_32);
  }

  /** 64 by 32 bits; what the quotient has above 32 bits is cut off. */
  method EnlargedUnsignedDivide(dividend: QWord, divisor: DWord) returns (quotient: DWord, remainder: DWord)
    requires divisor > 0
    ensures quotient == Quotient(dividend, divisor) % TWO_TO_THE_32 && remainder == Remainder(dividend, divisor)
    ensures quotient == Quotient(dividend, divisor) <==> HighPart(dividend) < divisor
  {
    FitsWord(dividend, divisor);
    var q, r := Divide(dividend, divisor);
    quotient, remainder := ToDWord(q), ToDWord(r);
  }

  /** Long multiplication of a 64-bit by a 32-bit absolute value. */
  method LongMultiply32(ua: QWord, ub: DWord) returns (p1: DWord, p0: QWord)
    requires ua <= TWO_TO_THE_63 && ub <= TWO_TO_THE_31
    ensures Value(p1, p0) == ua * ub
  {
    ghost var al, ah := LowPart(ua), HighPart(ua);
    ProductBound(al, ub, TWO_TO_THE_32 - 1, TWO_TO_THE_31);
    ProductBound(ah, ub, TWO_TO_THE_31, TWO_TO_THE_31);
    ExpandProduct(ah, al, 0, ub);

    p0 := LowPart(ua) * ub;
    if HighPart(ua) != 0 {
      var x: QWord := HighPart(ua) * ub + HighPart(p0);
      p0 := QuadPart(LowPart(x), LowPart(p0));
      p1 := HighPart(x);
    } else {
      p1 := 0;
    }
  }

  /** The two's complement representation of x in 96 bits. */
  function Extended96(x: int): int { if x < 0 then x + TWO_TO_THE_96 else x }

  method ExtendAddend96(d: Long, negate: bool) returns (ud1: DWord, ud0: QWord)
    ensures Value(ud1, ud0) == Extended96(Oriented(negate, d))
  {
    if negate {
      ud0 := ToQWord(0 - d as int);
      ud1 := if d > 0 then TWO_TO_THE_32 - 1 else 0;
    } else {
      ud0 := ToQWord(d);
      ud1 := if d < 0 then TWO_TO_THE_32 - 1 else 0;
    }
  }

  method NegateLimbs96(q1: DWord, q0: QWord) returns (p1: DWord, p0: QWord)
    requires Value(q1, q0) != 0
    ensures Value(p1, p0) == TWO_TO_THE_96 - Value(q1, q0)
  {
    p0 := TWO_TO_THE_64 - 1 - q0;
    p1 := TWO_TO_THE_32 - 1 - q1;
    p0 := ToQWord(p0 + 1);
    p1 := ToDWord(p1 + (if p0 == 0 then 1 else 0));
  }

  lemma SumOfLimbs96(q1: DWord, q0: QWord, ud1: DWord, ud0: QWord, carry: DWord, low: QWord, e: int)
    requires carry * TWO_TO_THE_64 + low == ud0 + q0
    requires Value(ud1, ud0) == Extended96(e) && -TWO_TO_THE_31 <= e <= TWO_TO_THE_31
    requires Value(q1, q0) <= TWO_TO_THE_63 * TWO_TO_THE_31
    ensures Value(ToDWord(q1 as int + ToDWord(ud1 as int + carry)), low) == Extended96(Value(q1, q0) + e)
  {
  }

  method AddAddend96(negative: bool, q1: DWord, q0: QWord, d: Long)
    returns (sign: bool, p1: DWord, p0: QWord)
    requires Value(q1, q0) <= TWO_TO_THE_63 * TWO_TO_THE_31
    ensures var s := Value(q1, q0) + Oriented(negative, d);
            && Value(p1, p0) == Abs(s)
            && sign == if s < 0 then !negative else negative
  {
    var ud1, ud0 := ExtendAddend96(d, negative);
    var carry, low := AddLowLimbs(ud0, q0);
    SumOfLimbs96(q1, q0, ud1, ud0, carry, low, Oriented(negative, d));
    p0 := low;
    p1 := ToDWord(q1 as int + ToDWord(ud1 as int + carry));
    sign := negative;
    if p1 >= TWO_TO_THE_31 {
      sign := !sign;
      p1, p0 := NegateLimbs96(p1, p0);
    }
  }

  function Absolute32(x: Long): (u: DWord)
    ensures u == Abs(x) && u <= TWO_TO_THE_31
  {
    ToDWord(if x >= 0 then x else 0 - x as int)
  }

  method Dividend96(a: LongLong, b: Long, c: Long, d: Long) returns (sign: bool, p1: DWord, p0: QWord)
    ensures Value(p1, p0) == Abs(a * b + d)
    ensures sign == IsNegative(a, b, c, d)
  {
    OrientedSum(a, b, c, d);
    hide Absolute, Absolute32, Abs, Oriented, Value, IsNegative;
    sign, p1, p0 := MultiplyAdd96((a < 0) != (b < 0), Absolute(a), Absolute32(b), d);
    if c < 0 {
      sign := !sign;
    }
  }

  method MultiplyAdd96(negative: bool, ua: QWord, ub: DWord, d: Long) returns (sign: bool, p1: DWord, p0: QWord)
    requires ua <= TWO_TO_THE_63 && ub <= TWO_TO_THE_31
    ensures var s := ua * ub + Oriented(negative, d);
            && Value(p1, p0) == Abs(s)
            && sign == if s < 0 then !negative else negative
  {
    ProductBound(ua, ub, TWO_TO_THE_63, TWO_TO_THE_31);
    hide Value;
    sign := negative;
    p1, p0 := LongMultiply32(ua, ub);
    if d != 0 {
      sign, p1, p0 := AddAddend96(sign, p1, p0, d);
    }
  }

  lemma QuotientOfSmall(v: nat, c: nat)
    requires v < c
    ensures Quotient(v, c) == 0 && Remainder(v, c) == v
  {
  }

  /** Schoolbook division with the top digit skipped when it would be zero. */
  method TwoDigitDivide(q1: DWord, q0: QWord, uc: DWord) returns (r: QWord)
    requires q1 < uc
    ensures r == Quotient(Value(q1, q0), uc)
  {
    hide Quotient, Remainder;
    TwoDigitQuotient(q1, HighPart(q0), LowPart(q0), uc);
    var dividend := QuadPart(q1, HighPart(q0));
    var p0 := q0;
    var high: DWord := 0;
    if dividend >= uc {
      var rest;
      high, rest := EnlargedUnsignedDivide(dividend, uc);
      p0 := QuadPart(rest, LowPart(p0));
    } else {
      QuotientOfSmall(dividend, uc);
    }
    var low, _ := EnlargedUnsignedDivide(p0, uc);
    r := QuadPart(high, low);
  }

  method DivideSigned96(sign: bool, p1: DWord, p0: QWord, uc: DWord) returns (result: LongLong)
    ensures result == Divided(sign, Value(p1, p0), uc)
  {
    hide Quotient;
    OverflowTest(p1, p0, uc);
    if uc <= p1 {
      return if sign then -TWO_TO_THE_63 else TWO_TO_THE_63 - 1;
    }
    var r := TwoDigitDivide(p1, p0, uc);
    result := SignedResult(sign, r);
  }

  /** Same result as llMulDiv on the same values, saturation and zero divisors included. */
  method Int64x32Div32(a: LongLong, b: Long, c: Long, d: Long) returns (result: LongLong)
    ensures result == MulDivResult(a, b, c, d)
  {
    hide Divided;
    var sign, p1, p0 := Dividend96(a, b, c, d);
    result := DivideSigned96(sign, p1, p0, Absolute32(c));
  }
}
