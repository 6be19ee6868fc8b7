/** Conversions and arithmetic on stored decimals (pkg/utils/decimal_utils.go).

    A stored Decimal128 is an integer count of 1e-8 units: every decimal the wallet writes
    comes out of the `%.8f` format.  Its text form is exact, so parsing it rounds once. */
module DecimalUtils {
  import opened Binary64

  type Decimal = int

  const SCALE: real := 100000000.0

  /** The real a decimal denotes. */
  function Value(d: Decimal): real {
    d as real / SCALE
  }

  function ConvertDecimal128ToFloat(d: Decimal): real {
    Fl(Value(d))
  }

  /** `%.8f` prints the decimal with eight places nearest to the float. */
  function ConvertFloatToDecimal128(f: real): Decimal {
    RoundEven(f * SCALE)
  }

  function SumDecimal128(a: Decimal, b: Decimal): Decimal {
    ConvertFloatToDecimal128(Fl(ConvertDecimal128ToFloat(a) + ConvertDecimal128ToFloat(b)))
  }

  predicate CompareDecimal128(a: Decimal, b: Decimal) {
    Abs(Fl(ConvertDecimal128ToFloat(a) - ConvertDecimal128ToFloat(b))) < Fl(0.00000001)
  }

  // ----- sign and order, at every magnitude -----

  lemma ToFloatSign(d: Decimal)
    ensures ConvertDecimal128ToFloat(d) < 0.0 <==> d < 0
    ensures ConvertDecimal128ToFloat(d) == 0.0 <==> d == 0
  {
    FlSign(Value(d));
  }

  lemma FromFloatMonotone(x: real, y: real)
    requires x <= y
    ensures ConvertFloatToDecimal128(x) <= ConvertFloatToDecimal128(y)
  {
    RoundEvenMonotone(x * SCALE, y * SCALE);
  }

  lemma FromFloatZero()
    ensures ConvertFloatToDecimal128(0.0) == 0
  {
    PrintsAs(0.0, 0);
  }

  lemma FromFloatOdd(x: real)
    ensures ConvertFloatToDecimal128(-x) == -ConvertFloatToDecimal128(x)
  {
    RoundEvenOdd(x * SCALE);
    assert (-x) * SCALE == -(x * SCALE);
  }

  lemma ToFloatOdd(d: Decimal)
    ensures ConvertDecimal128ToFloat(-d) == -ConvertDecimal128ToFloat(d)
  {
    FlOdd(Value(d));
  }

  lemma SumNonNegative(a: Decimal, b: Decimal)
    requires a >= 0 && b >= 0
    ensures SumDecimal128(a, b) >= 0
  {
    var s := ConvertDecimal128ToFloat(a) + ConvertDecimal128ToFloat(b);
    ToFloatSign(a);
    ToFloatSign(b);
    FlSign(s);
    FromFloatMonotone(0.0, Fl(s));
  }

  lemma SumNegates(a: Decimal, b: Decimal)
    ensures SumDecimal128(-a, -b) == -SumDecimal128(a, b)
  {
    var s := ConvertDecimal128ToFloat(a) + ConvertDecimal128ToFloat(b);
    ToFloatOdd(a);
    ToFloatOdd(b);
    FlOdd(s);
    FromFloatOdd(Fl(s));
  }

  // ----- where the float detour is exact -----

  /** 2^24 currency units, a little over sixteen million. */
  const TWO24_UNITS: Decimal := 1677721600000000

  const EXACT_LIMIT: Decimal := TWO24_UNITS + 1

  predicate InRange(d: Decimal) {
    -EXACT_LIMIT <= d <= EXACT_LIMIT
  }

  /** A value this close to a decimal prints as that decimal. */
  lemma PrintsAs(f: real, d: Decimal)
    requires Abs(f - Value(d)) < 0.000000005
    ensures ConvertFloatToDecimal128(f) == d
  {
    RoundEvenUnique(f * SCALE, d);
  }

  lemma ConversionError(d: Decimal)
    requires -TWO24_UNITS <= d <= TWO24_UNITS
    ensures Abs(ConvertDecimal128ToFloat(d) - Value(d)) < 0.00000000094
    ensures Abs(ConvertDecimal128ToFloat(d)) <= 16777216.0
  {
    Pow2Values();
    HalfUlp(Value(d), 24);
  }

  lemma SumExactBelow(a: Decimal, b: Decimal)
    requires -TWO24_UNITS <= a <= TWO24_UNITS && -TWO24_UNITS <= b <= TWO24_UNITS
    ensures SumDecimal128(a, b) == a + b
  {
    hide RoundEven, FlPos, Fl, ConvertDecimal128ToFloat, ConvertFloatToDecimal128;
    var fa, fb := ConvertDecimal128ToFloat(a), ConvertDecimal128ToFloat(b);
    ConversionError(a);
    ConversionError(b);
    Pow2Values();
    HalfUlp(fa + fb, 25);
    PrintsAs(Fl(fa + fb), a + b);
  }

  // The doubles next to 2^24: below it they are 2^-29 apart, above it 2^-28.

  const ULP29: real := 1.0 / 536870912.0

  /** Reads off the double of a decimal above 2^24. */
  lemma FloatReads(d: Decimal, f: real, m: int)
    requires TWO52 <= Value(d) * 268435456.0 < TWO53
    requires RoundEven(Value(d) * 268435456.0) == m && f * 268435456.0 == m as real
    ensures ConvertDecimal128ToFloat(d) == f
  {
    hide RoundEven, Fl;
    assert Pow2(28) == 268435456 by {
      Pow2Values();
    }
    FlReads(Value(d), f, 28, 268435456, m);
  }

  lemma FloatBelowLimit()
    ensures ConvertDecimal128ToFloat(TWO24_UNITS - 1) == 16777216.0 - 5.0 * ULP29
  {
    hide Fl;
    assert Pow2(29) == 536870912 by {
      Pow2Values();
    }
    FlReads(Value(TWO24_UNITS - 1), 16777216.0 - 5.0 * ULP29, 29, 536870912, 9007199254740987);
  }

  lemma FloatsAtLimit()
    ensures ConvertDecimal128ToFloat(TWO24_UNITS - 1) == 16777216.0 - 5.0 * ULP29
    ensures ConvertDecimal128ToFloat(TWO24_UNITS) == 16777216.0
    ensures ConvertDecimal128ToFloat(TWO24_UNITS + 1) == 16777216.0 + 6.0 * ULP29
    ensures ConvertDecimal128ToFloat(TWO24_UNITS + 2) == 16777216.0 + 10.0 * ULP29
  {
    hide ConvertDecimal128ToFloat;
    FloatBelowLimit();
    FloatReads(TWO24_UNITS, 16777216.0, 4503599627370496);
    FloatReads(TWO24_UNITS + 1, 16777216.0 + 6.0 * ULP29, 4503599627370499);
    FloatReads(TWO24_UNITS + 2, 16777216.0 + 10.0 * ULP29, 4503599627370501);
  }

  /** Reads off a sum near 2^25, where doubles are 4 of these steps apart. */
  lemma SumReads(a: Decimal, b: Decimal, s: real, f: real, m: int, d: Decimal)
    requires ConvertDecimal128ToFloat(a) + ConvertDecimal128ToFloat(b) == s
    requires TWO52 <= s * 134217728.0 < TWO53
    requires RoundEven(s * 134217728.0) == m && f * 134217728.0 == m as real
    requires Abs(f - Value(d)) < 0.000000005
    ensures SumDecimal128(a, b) == d
  {
    hide RoundEven, Fl, ConvertDecimal128ToFloat, ConvertFloatToDecimal128;
    assert Pow2(27) == 134217728 by {
      Pow2Values();
    }
    FlReads(s, f, 27, 134217728, m);
    PrintsAs(f, d);
  }

  lemma SumsAtLimit()
    ensures SumDecimal128(TWO24_UNITS - 1, TWO24_UNITS + 1) == 2 * TWO24_UNITS
    ensures SumDecimal128(TWO24_UNITS, TWO24_UNITS + 1) == 2 * TWO24_UNITS + 1
    ensures SumDecimal128(TWO24_UNITS + 1, TWO24_UNITS + 1) == 2 * TWO24_UNITS + 2
    ensures SumDecimal128(TWO24_UNITS, TWO24_UNITS + 2) == 2 * TWO24_UNITS + 1
  {
    hide Fl, ConvertDecimal128ToFloat, ConvertFloatToDecimal128, SumDecimal128;
    FloatsAtLimit();
    var t := TWO24_UNITS;
    SumReads(t - 1, t + 1, 33554432.0 + ULP29, 33554432.0, 4503599627370496, 2 * t);
    SumReads(t, t + 1, 33554432.0 + 6.0 * ULP29, 33554432.0 + 8.0 * ULP29, 4503599627370498, 2 * t + 1);
    SumReads(t + 1, t + 1, 33554432.0 + 12.0 * ULP29, 33554432.0 + 12.0 * ULP29, 4503599627370499, 2 * t + 2);
    SumReads(t, t + 2, 33554432.0 + 10.0 * ULP29, 33554432.0 + 8.0 * ULP29, 4503599627370498, 2 * t + 1);
  }

  lemma SumCommutes(a: Decimal, b: Decimal)
    ensures SumDecimal128(a, b) == SumDecimal128(b, a)
  {}

  lemma SumWithLimit(a: Decimal)
    requires InRange(a)
    ensures SumDecimal128(a, EXACT_LIMIT) == a + EXACT_LIMIT
  {
    hide RoundEven, FlPos, Fl, ConvertDecimal128ToFloat, ConvertFloatToDecimal128;
    SumsAtLimit();
    FloatsAtLimit();
    if -EXACT_LIMIT == a {
      ToFloatOdd(EXACT_LIMIT);
      FlSign(0.0);
      PrintsAs(0.0, 0);
    } else if a < TWO24_UNITS - 1 {
      var fa, fb := ConvertDecimal128ToFloat(a), ConvertDecimal128ToFloat(EXACT_LIMIT);
      ConversionError(a);
      Pow2Values();
      HalfUlp(fa + fb, 25);
      PrintsAs(Fl(fa + fb), a + EXACT_LIMIT);
    }
  }

  /** Within range, adding two decimals through float64 is exact. */
  lemma SumExact(a: Decimal, b: Decimal)
    requires InRange(a) && InRange(b)
    ensures SumDecimal128(a, b) == a + b
  {
    if b == EXACT_LIMIT {
      SumWithLimit(a);
    } else if a == EXACT_LIMIT {
      SumWithLimit(b);
      SumCommutes(a, b);
    } else if a == -EXACT_LIMIT || b == -EXACT_LIMIT {
      SumNegates(a, b);
      if a == -EXACT_LIMIT {
        SumWithLimit(-b);
        SumCommutes(-a, -b);
      } else {
        SumWithLimit(-a);
      }
    } else {
      SumExactBelow(a, b);
    }
  }

  ghost predicate ExactUpTo(bound: Decimal) {
    forall a: Decimal, b: Decimal | -bound <= a <= bound && -bound <= b <= bound ::
      SumDecimal128(a, b) == a + b
  }

  /** The largest bound under which no addition drifts: one unit over 2^24 and no more. */
  lemma ExactThreshold(bound: Decimal)
    ensures ExactUpTo(bound) <==> bound <= EXACT_LIMIT
  {
    if bound <= EXACT_LIMIT {
      forall a: Decimal, b: Decimal | -bound <= a <= bound && -bound <= b <= bound
        ensures SumDecimal128(a, b) == a + b
      {
        SumExact(a, b);
      }
    } else {
      SumsAtLimit();
      assert SumDecimal128(TWO24_UNITS, TWO24_UNITS + 2) != TWO24_UNITS + (TWO24_UNITS + 2);
    }
  }

  /** 2^26 currency units. */
  const TWO26_UNITS: Decimal := 6710886400000000

  lemma RoundTrip(d: Decimal)
    requires -TWO26_UNITS - 1 <= d <= TWO26_UNITS + 1
    ensures ConvertFloatToDecimal128(ConvertDecimal128ToFloat(d)) == d
  {
    Pow2Values();
    if d == TWO26_UNITS + 1 || d == -TWO26_UNITS - 1 {
      RoundTripAt26();
      ToFloatOdd(TWO26_UNITS + 1);
      FromFloatOdd(ConvertDecimal128ToFloat(TWO26_UNITS + 1));
    } else {
      HalfUlp(Value(d), 26);
      PrintsAs(ConvertDecimal128ToFloat(d), d);
    }
  }

  lemma RoundTripAt26()
    ensures ConvertFloatToDecimal128(ConvertDecimal128ToFloat(TWO26_UNITS + 1)) == TWO26_UNITS + 1
    ensures ConvertFloatToDecimal128(ConvertDecimal128ToFloat(TWO26_UNITS + 2)) == TWO26_UNITS + 1
  {
    hide Fl;
    var next := 67108864.0 + 1.0 / 67108864.0;
    Pow2Values();
    FlReads(Value(TWO26_UNITS + 1), next, 26, 67108864, 4503599627370497);
    FlReads(Value(TWO26_UNITS + 2), next, 26, 67108864, 4503599627370497);
    PrintsAs(next, TWO26_UNITS + 1);
  }

  ghost predicate RoundTripsUpTo(bound: Decimal) {
    forall d: Decimal | -bound <= d <= bound ::
      ConvertFloatToDecimal128(ConvertDecimal128ToFloat(d)) == d
  }

  /** The largest bound under which a decimal survives the trip through float64. */
  lemma RoundTripThreshold(bound: Decimal)
    ensures RoundTripsUpTo(bound) <==> bound <= TWO26_UNITS + 1
  {
    if bound <= TWO26_UNITS + 1 {
      forall d: Decimal | -bound <= d <= bound
        ensures ConvertFloatToDecimal128(ConvertDecimal128ToFloat(d)) == d
      {
        RoundTrip(d);
      }
    } else {
      RoundTripAt26();
      assert ConvertFloatToDecimal128(ConvertDecimal128ToFloat(TWO26_UNITS + 2)) != TWO26_UNITS + 2;
    }
  }

  lemma ToFloatMonotone(a: Decimal, b: Decimal)
    requires a <= b
    ensures ConvertDecimal128ToFloat(a) <= ConvertDecimal128ToFloat(b)
  {
    FlMonotone(Value(a), Value(b));
  }

  /** From 2^26 on doubles are further apart than decimals: a double survives being stored. */
  lemma {:induction false} LargeFloatSurvives(f: real, k: nat)
    requires 26 <= k <= 52 && Representable(f) && Pow2(k) as real <= f
    ensures ConvertDecimal128ToFloat(ConvertFloatToDecimal128(f)) == f
    decreases 52 - k
  {
    hide RoundEven, FlPos, Fl;
    Pow2Values();
    var low, high := Pow2(k), 2 * Pow2(k);
    Pow2AtLeast(k);
    var d := ConvertFloatToDecimal128(f);
    RoundEvenClose(f * SCALE);
    if f < high as real {
      WholePrints(low);
      WholePrints(high);
      FromFloatMonotone(low as real, f);
      FromFloatMonotone(f, high as real);
      FlNearDouble(Value(d), f, k);
    } else if k < 52 {
      LargeFloatSurvives(f, k + 1);
    } else {
      RepresentableAbove52(f);
      WholePrints(f.Floor);
      FlExact(f);
    }
  }

  lemma {:induction false} Pow2AtLeast(k: nat)
    requires k >= 26
    ensures Pow2(k) >= 67108864
    decreases k
  {
    Pow2Values();
    if k > 26 {
      Pow2AtLeast(k - 1);
    }
  }

  lemma WholePrints(n: int)
    ensures ConvertFloatToDecimal128(n as real) == n * 100000000
    ensures Value(n * 100000000) == n as real
  {
    PrintsAs(n as real, n * 100000000);
  }

  /** A float no larger than a stored balance, once stored, still reads no larger than it. */
  lemma StoredFloatNoLarger(f: real, d: Decimal)
    requires 0.0 <= f <= ConvertDecimal128ToFloat(d)
    ensures ConvertDecimal128ToFloat(ConvertFloatToDecimal128(f)) <= ConvertDecimal128ToFloat(d)
  {
    var top := ConvertDecimal128ToFloat(d);
    FromFloatMonotone(f, top);
    ToFloatMonotone(ConvertFloatToDecimal128(f), ConvertFloatToDecimal128(top));
    Pow2Values();
    if top < 67108864.0 {
      if d >= TWO26_UNITS {
        ToFloatMonotone(TWO26_UNITS, d);
        FlReads(Value(TWO26_UNITS), 67108864.0, 26, 67108864, 4503599627370496);
      }
      ToFloatSign(d);
      RoundTrip(d);
    } else {
      FlIsRepresentable(Value(d));
      LargeFloatSurvives(top, 26);
    }
  }

  // ----- the epsilon comparison -----

  lemma EpsilonSize()
    ensures 0.0000000099 < Fl(0.00000001) < 0.0000000101
  {
    RelativeError(0.00000001);
  }

  /** Equal decimals always compare equal, at any magnitude. */
  lemma CompareAcceptsEqual(a: Decimal)
    ensures CompareDecimal128(a, a)
  {
    EpsilonSize();
  }

  /** Within range, decimals two or more units apart never compare equal. */
  lemma CompareRejectsApart(a: Decimal, b: Decimal)
    requires InRange(a) && InRange(b) && (a - b >= 2 || b - a >= 2)
    ensures !CompareDecimal128(a, b)
  {
    var d := ConvertDecimal128ToFloat(a) - ConvertDecimal128ToFloat(b);
    EpsilonSize();
    NearLimit(a);
    NearLimit(b);
    RelativeError(d);
  }

  lemma NearLimit(d: Decimal)
    requires InRange(d)
    ensures Abs(ConvertDecimal128ToFloat(d) - Value(d)) < 0.000000002
    ensures Abs(ConvertDecimal128ToFloat(d)) < 16777217.0
  {
    if -TWO24_UNITS <= d <= TWO24_UNITS {
      ConversionError(d);
    } else {
      FloatsAtLimit();
      ToFloatOdd(EXACT_LIMIT);
    }
  }

  lemma CompareSymmetric(a: Decimal, b: Decimal)
    ensures CompareDecimal128(a, b) == CompareDecimal128(b, a)
  {
    FlOdd(ConvertDecimal128ToFloat(a) - ConvertDecimal128ToFloat(b));
  }

  lemma CompareNegates(a: Decimal, b: Decimal)
    ensures CompareDecimal128(-a, -b) == CompareDecimal128(a, b)
  {
    ToFloatOdd(a);
    ToFloatOdd(b);
    FlOdd(ConvertDecimal128ToFloat(a) - ConvertDecimal128ToFloat(b));
  }

  const FLOAT_OF_1: real := 6044629098073146.0 / 604462909807314587353088.0
  const FLOAT_OF_3: real := 4533471823554859.0 / 151115727451828646838272.0

  /** The doubles of one, two and three units. */
  lemma SmallFloats()
    ensures ConvertDecimal128ToFloat(0) == 0.0
    ensures ConvertDecimal128ToFloat(1) == Fl(0.00000001) == FLOAT_OF_1
    ensures ConvertDecimal128ToFloat(2) == 2.0 * FLOAT_OF_1
    ensures ConvertDecimal128ToFloat(3) == FLOAT_OF_3
  {
    hide RoundEven, FlPos, Fl;
    Pow2At77();
    FlSign(0.0);
    RoundEvenUnique(Value(1) * 604462909807314587353088.0, 6044629098073146);
    FlReads(Value(1), FLOAT_OF_1, 79, 604462909807314587353088, 6044629098073146);
    FlDouble(Value(1));
    RoundEvenUnique(Value(3) * 151115727451828646838272.0, 4533471823554859);
    FlReads(Value(3), FLOAT_OF_3, 77, 151115727451828646838272, 4533471823554859);
  }

  lemma Pow2At77()
    ensures Pow2(77) == 151115727451828646838272
    ensures Pow2(79) == 604462909807314587353088
  {
    Pow2Values();
    Pow2Sum(52, 25);
    assert Pow2(79) == 2 * Pow2(78) && Pow2(78) == 2 * Pow2(77);
  }

  lemma SmallComparisons()
    ensures !CompareDecimal128(0, 1) && !CompareDecimal128(1, 2)
    ensures CompareDecimal128(3, 2)
  {
    hide RoundEven, FlPos, Fl;
    SmallFloats();
    FlIdempotent(0.00000001);
    FlOdd(FLOAT_OF_1);
    var gap := FLOAT_OF_3 - 2.0 * FLOAT_OF_1;
    Pow2At77();
    assert gap * 604462909807314587353088.0 == 6044629098073144.0;
    assert Significand(gap, 6044629098073144, 79);
    FlExact(gap);
  }

  ghost predicate RejectsUnequalUpTo(bound: Decimal) {
    forall a: Decimal, b: Decimal | -bound <= a <= bound && -bound <= b <= bound && a != b ::
      !CompareDecimal128(a, b)
  }

  lemma RejectsSmall(a: Decimal, b: Decimal)
    requires -2 <= a <= 2 && -2 <= b <= 2 && a < b
    ensures !CompareDecimal128(a, b)
  {
    hide CompareDecimal128;
    if b - a >= 2 {
      CompareRejectsApart(a, b);
    } else {
      SmallComparisons();
      if a < 0 {
        CompareNegates(a, b);
        CompareSymmetric(-b, -a);
      }
    }
  }

  /** The comparison tells unequal decimals apart up to two units and no further: three and
      two units already compare equal. */
  lemma UnequalThreshold(bound: Decimal)
    ensures RejectsUnequalUpTo(bound) <==> bound <= 2
  {
    hide CompareDecimal128;
    if bound <= 2 {
      forall a: Decimal, b: Decimal | -bound <= a <= bound && -bound <= b <= bound && a != b
        ensures !CompareDecimal128(a, b)
      {
        if a < b {
          RejectsSmall(a, b);
        } else {
          RejectsSmall(b, a);
          CompareSymmetric(a, b);
        }
      }
    } else {
      SmallComparisons();
      assert CompareDecimal128(3, 2);
    }
  }

  // ----- when adding something leaves a mark -----

  /** 2^25 currency units. */
  const TWO25_UNITS: Decimal := 3355443200000000

  lemma SumMonotone(a: Decimal, b: Decimal, c: Decimal)
    requires b <= c
    ensures SumDecimal128(a, b) <= SumDecimal128(a, c)
  {
    hide RoundEven, FlPos, Fl, ConvertDecimal128ToFloat, ConvertFloatToDecimal128;
    var fa, fb, fc := ConvertDecimal128ToFloat(a), ConvertDecimal128ToFloat(b), ConvertDecimal128ToFloat(c);
    ToFloatMonotone(b, c);
    FlMonotone(fa + fb, fa + fc);
    FromFloatMonotone(Fl(fa + fb), Fl(fa + fc));
  }

  /** The doubles around 2^25: below it they are 2^-28 apart, above it 2^-27. */
  lemma FloatsAt25()
    ensures ConvertDecimal128ToFloat(TWO25_UNITS - 1) == 33554432.0 - 3.0 / 268435456.0
    ensures ConvertDecimal128ToFloat(TWO25_UNITS) == 33554432.0
    ensures ConvertDecimal128ToFloat(TWO25_UNITS + 1) == 33554432.0 + 1.0 / 134217728.0
  {
    hide Fl;
    Pow2Values();
    FlReads(Value(TWO25_UNITS - 1), 33554432.0 - 3.0 / 268435456.0, 28, 268435456, 9007199254740989);
    FlReads(Value(TWO25_UNITS), 33554432.0, 27, 134217728, 4503599627370496);
    FlReads(Value(TWO25_UNITS + 1), 33554432.0 + 1.0 / 134217728.0, 27, 134217728, 4503599627370497);
  }

  lemma OneUnitAt25()
    ensures SumDecimal128(TWO25_UNITS, 1) == TWO25_UNITS + 1
    ensures SumDecimal128(TWO25_UNITS + 1, 1) == TWO25_UNITS + 1
  {
    hide RoundEven, FlPos, Fl, ConvertDecimal128ToFloat;
    FloatsAt25();
    SmallFloats();
    EpsilonSize();
    var low, high := 33554432.0 + 1.0 / 134217728.0, 33554432.0 + 2.0 / 134217728.0;
    var atLow, atHigh := 33554432.0 + FLOAT_OF_1, low + FLOAT_OF_1;
    RoundEvenUnique(atLow * 134217728.0, 4503599627370497);
    SumReads(TWO25_UNITS, 1, atLow, low, 4503599627370497, TWO25_UNITS + 1);
    RoundEvenUnique(atHigh * 134217728.0, 4503599627370498);
    SumReads(TWO25_UNITS + 1, 1, atHigh, high, 4503599627370498, TWO25_UNITS + 1);
  }

  /** Up to 2^25 one more unit is never lost. */
  lemma OneUnitCounts(b: Decimal)
    requires 0 <= b <= TWO25_UNITS
    ensures SumDecimal128(b, 1) == b + 1
  {
    hide RoundEven, FlPos, Fl, ConvertDecimal128ToFloat, ConvertFloatToDecimal128;
    if b <= TWO24_UNITS {
      SumExact(b, 1);
    } else if b == TWO25_UNITS {
      OneUnitAt25();
    } else {
      var fb, one := ConvertDecimal128ToFloat(b), ConvertDecimal128ToFloat(1);
      SmallFloats();
      EpsilonSize();
      ToFloatSign(b);
      ToFloatMonotone(b, TWO25_UNITS - 1);
      FloatsAt25();
      Pow2Values();
      FloatError25(b);
      assert 0.0 <= fb + one <= 33554432.0;
      HalfUlp(fb + one, 25);
      RelativeError(0.00000001);
      PrintsAs(Fl(fb + one), b + 1);
    }
  }

  lemma FloatError25(d: Decimal)
    requires 0 <= d <= TWO25_UNITS
    ensures Abs(ConvertDecimal128ToFloat(d) - Value(d)) <= 33554432.0 / (2.0 * TWO53)
  {
    Pow2Values();
    HalfUlp(Value(d), 25);
  }

  ghost predicate RaisesUpTo(bound: Decimal) {
    forall b: Decimal, d: Decimal | 0 <= b <= bound && d >= 1 :: SumDecimal128(b, d) > b
  }

  /** The largest bound up to which adding a positive decimal always raises a balance. */
  lemma RaiseThreshold(bound: Decimal)
    ensures RaisesUpTo(bound) <==> bound <= TWO25_UNITS
  {
    hide SumDecimal128;
    if bound <= TWO25_UNITS {
      forall b: Decimal, d: Decimal | 0 <= b <= bound && d >= 1
        ensures SumDecimal128(b, d) > b
      {
        OneUnitCounts(b);
        SumMonotone(b, 1, d);
      }
    } else {
      OneUnitAt25();
      assert !(SumDecimal128(TWO25_UNITS + 1, 1) > TWO25_UNITS + 1);
    }
  }

  /** A positive amount is stored as nothing exactly when it is half a unit or less. */
  lemma StoresNothing(f: real)
    requires f > 0.0
    ensures ConvertFloatToDecimal128(f) >= 0
    ensures ConvertFloatToDecimal128(f) == 0 <==> f <= 0.000000005
  {
    var x := f * SCALE;
    RoundEvenClose(x);
    if x <= 0.5 {
      assert x.Floor == 0;
    } else if x < 1.5 {
      assert RoundEven(x) >= 1;
    }
  }
}
