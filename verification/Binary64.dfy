/** The double-precision numbers the wallet computes with, as the reals they denote.

    `Fl` rounds a real to the nearest number with a 53-bit significand, ties to even: the
    roundTiesToEven attribute of section 4.3.1 of IEEE 754-2019, which section 5.12 also
    requires of conversions from decimal text.  The exponent is unbounded, so overflow and
    subnormal numbers are not part of this model. */
module Binary64 {

  const TWO52: real := 4503599627370496.0
  const TWO53: real := 9007199254740992.0

  function Abs(x: real): real {
    if x < 0.0 then -x else x
  }

  /** The nearest integer; a tie goes to the even neighbour. */
  function RoundEven(x: real): int {
    var f := x.Floor;
    var d := x - f as real;
    if d < 0.5 || (d == 0.5 && f % 2 == 0) then f else f + 1
  }

  lemma RoundEvenClose(x: real)
    ensures Abs(RoundEven(x) as real - x) <= 0.5
  {}

  /** Halfway between two integers the even one is the rounded value. */
  lemma TieGoesEven(n: int)
    ensures RoundEven(n as real + 0.5) == if n % 2 == 0 then n else n + 1
  {}

  /** An integer less than half a unit away is the rounded value. */
  lemma RoundEvenUnique(x: real, n: int)
    requires Abs(n as real - x) < 0.5
    ensures RoundEven(x) == n
  {
    RoundEvenClose(x);
  }

  lemma RoundEvenMonotone(x: real, y: real)
    requires x <= y
    ensures RoundEven(x) <= RoundEven(y)
  {
    RoundEvenClose(x);
    RoundEvenClose(y);
  }

  lemma RoundEvenOdd(x: real)
    ensures RoundEven(-x) == -RoundEven(x)
  {
    var f := x.Floor;
    if x == f as real {
      RoundEvenUnique(x, f);
      RoundEvenUnique(-x, -f);
    } else {
      assert (-x).Floor == -f - 1;
    }
  }

  /** Rounding of a positive number: scale it by two until it has 53 integer digits, round
      those, scale back. */
  function FlPos(x: real): (r: real)
    requires x > 0.0
    ensures r > 0.0
    decreases x < TWO52, if x < TWO52 then (TWO53 / x).Floor else x.Floor
  {
    if x >= TWO53 then
      assert (x / 2.0).Floor < x.Floor;
      2.0 * FlPos(x / 2.0)
    else if x < TWO52 then
      HalvingDecreases(x);
      FlPos(2.0 * x) / 2.0
    else
      RoundEven(x) as real
  }

  lemma HalvingDecreases(x: real)
    requires 0.0 < x < TWO52
    ensures (TWO53 / x).Floor > (TWO53 / (2.0 * x)).Floor >= 0
  {
    var y := TWO53 / x;
    assert y > 2.0 by {
      assert y * x == TWO53;
    }
    assert TWO53 / (2.0 * x) == y / 2.0;
  }

  /** Correct rounding of any real. */
  function Fl(x: real): real {
    if x == 0.0 then 0.0 else if x > 0.0 then FlPos(x) else -FlPos(-x)
  }

  lemma FlOdd(x: real)
    ensures Fl(-x) == -Fl(x)
  {}

  lemma FlSign(x: real)
    ensures Fl(x) < 0.0 <==> x < 0.0
    ensures Fl(x) == 0.0 <==> x == 0.0
  {}

  lemma FlDouble(x: real)
    ensures Fl(2.0 * x) == 2.0 * Fl(x)
  {}

  /** `x` doubled `k` times. */
  function Grow(x: real, k: nat): (r: real)
    decreases k
  {
    if k == 0 then x else Grow(2.0 * x, k - 1)
  }

  /** Rounding commutes with scaling by a power of two. */
  lemma {:induction false} FlGrow(x: real, k: nat)
    ensures Fl(Grow(x, k)) == Grow(Fl(x), k)
    decreases k
  {
    if k > 0 {
      FlGrow(2.0 * x, k - 1);
      FlDouble(x);
    }
  }

  lemma {:induction false} GrowInjective(x: real, y: real, k: nat)
    requires Grow(x, k) == Grow(y, k)
    ensures x == y
    decreases k
  {
    if k > 0 {
      GrowInjective(2.0 * x, 2.0 * y, k - 1);
    }
  }

  lemma {:induction false} GrowIsScaling(x: real, k: nat, p: int)
    requires p == Pow2(k)
    ensures Grow(x, k) == x * p as real
    decreases k
  {
    if k > 0 {
      GrowIsScaling(2.0 * x, k - 1, Pow2(k - 1));
    }
  }

  /** Reads off a rounding: scaled to 53 integer digits, `x` is next to the integer `m`. */
  lemma {:induction false} FlReads(x: real, y: real, k: nat, p: int, m: int)
    requires p == Pow2(k)
    requires TWO52 <= x * p as real < TWO53
    requires RoundEven(x * p as real) == m && y * p as real == m as real
    ensures Fl(x) == y
  {
    GrowIsScaling(x, k, p);
    GrowIsScaling(y, k, p);
    FlGrow(x, k);
    GrowInjective(Fl(x), y, k);
  }

  /** One rounding changes a number by at most the fraction 2^-53 of it. */
  lemma {:induction false} RelativeErrorPos(x: real)
    requires x > 0.0
    ensures Abs(FlPos(x) - x) <= x / TWO53
    decreases x < TWO52, if x < TWO52 then (TWO53 / x).Floor else x.Floor
  {
    if x >= TWO53 {
      assert (x / 2.0).Floor < x.Floor;
      RelativeErrorPos(x / 2.0);
    } else if x < TWO52 {
      HalvingDecreases(x);
      RelativeErrorPos(2.0 * x);
    } else {
      RoundEvenClose(x);
    }
  }

  lemma RelativeError(x: real)
    ensures Abs(Fl(x) - x) <= Abs(x) / TWO53
  {
    if x > 0.0 {
      RelativeErrorPos(x);
    } else if x < 0.0 {
      RelativeErrorPos(-x);
    }
  }

  /** Below 2^53 the error is at most one half. */
  lemma {:induction false} HalfUnitPos(x: real)
    requires 0.0 < x <= TWO53
    ensures Abs(FlPos(x) - x) <= 0.5 && FlPos(x) <= TWO53
    decreases x < TWO52, if x < TWO52 then (TWO53 / x).Floor else x.Floor
  {
    if x == TWO53 {
      RoundEvenUnique(TWO52, 4503599627370496);
      assert FlPos(TWO52) == TWO52;
    } else if x < TWO52 {
      HalvingDecreases(x);
      HalfUnitPos(2.0 * x);
    } else {
      RoundEvenClose(x);
      RoundEvenMonotone(x, TWO53);
    }
  }

  lemma HalfUnit(x: real)
    requires Abs(x) <= TWO53
    ensures Abs(Fl(x) - x) <= 0.5 && Abs(Fl(x)) <= TWO53
  {
    if x > 0.0 {
      HalfUnitPos(x);
    } else if x < 0.0 {
      HalfUnitPos(-x);
    }
  }

  function Pow2(n: nat): (p: int)
    ensures p >= 1
  {
    if n == 0 then 1 else 2 * Pow2(n - 1)
  }

  lemma {:induction false} Pow2Sum(m: nat, n: nat)
    ensures Pow2(m + n) == Pow2(m) * Pow2(n)
    decreases n
  {
    if n > 0 {
      Pow2Sum(m, n - 1);
    }
  }

  lemma Pow2Values()
    ensures Pow2(24) == 16777216
    ensures Pow2(25) == 33554432
    ensures Pow2(26) == 67108864
    ensures Pow2(27) == 134217728
    ensures Pow2(28) == 268435456
    ensures Pow2(29) == 536870912
    ensures Pow2(52) == 4503599627370496
    ensures Pow2(53) == 9007199254740992
  {
    assert Pow2(3) == 8;
    Pow2Sum(3, 3);
    assert Pow2(6) == 64;
    Pow2Sum(6, 6);
    assert Pow2(12) == 4096;
    Pow2Sum(12, 12);
    assert Pow2(24) == 16777216;
    assert Pow2(26) == 67108864 && Pow2(28) == 268435456;
    Pow2Sum(26, 26);
    assert Pow2(52) == 4503599627370496;
  }

  /** Up to 2^e the error is at most 2^(e-54), half a unit in the last place, and rounding
      does not cross 2^e. */
  lemma {:induction false} HalfUlp(x: real, e: nat)
    requires e <= 53 && Abs(x) <= Pow2(e) as real
    ensures Abs(Fl(x) - x) <= Pow2(e) as real / (2.0 * TWO53)
    ensures Abs(Fl(x)) <= Pow2(e) as real
    decreases 53 - e
  {
    if e == 53 {
      Pow2Values();
      HalfUnit(x);
    } else {
      HalfUlp(2.0 * x, e + 1);
      FlDouble(x);
    }
  }

  // ----- the reference definition -----

  /** `g` is a significand of at most 53 bits times a power of two (section 3.3 of
      IEEE 754-2019, without the exponent range). */
  ghost predicate Representable(g: real) {
    exists m: int, n: nat :: Significand(g, m, n)
  }

  ghost predicate Significand(g: real, m: int, n: nat) {
    && -9007199254740992 < m < 9007199254740992
    && (g == m as real * Pow2(n) as real || g * Pow2(n) as real == m as real)
  }

  lemma RepresentableDouble(g: real)
    requires Representable(g)
    ensures Representable(2.0 * g)
  {
    var m: int, n: nat :| Significand(g, m, n);
    if g == m as real * Pow2(n) as real {
      assert 2.0 * g == m as real * Pow2(n + 1) as real;
      assert Significand(2.0 * g, m, n + 1);
    } else if n > 0 {
      assert Pow2(n) == 2 * Pow2(n - 1);
      assert (2.0 * g) * Pow2(n - 1) as real == m as real;
      assert Significand(2.0 * g, m, n - 1);
    }
  }

  lemma RepresentableHalf(g: real)
    requires Representable(g)
    ensures Representable(g / 2.0)
  {
    var m: int, n: nat :| Significand(g, m, n);
    if g * Pow2(n) as real == m as real {
      assert (g / 2.0) * Pow2(n + 1) as real == m as real;
      assert Significand(g / 2.0, m, n + 1);
    } else {
      assert n > 0;
      assert Pow2(n) == 2 * Pow2(n - 1);
      assert g / 2.0 == m as real * Pow2(n - 1) as real;
      assert Significand(g / 2.0, m, n - 1);
    }
  }

  lemma RepresentableInteger(m: int)
    requires -9007199254740992 < m < 9007199254740992
    ensures Representable(m as real)
  {
    assert Significand(m as real, m, 0);
  }

  lemma SignificandAbove52(g: real, m: int, p: int)
    requires TWO52 <= g && -9007199254740992 < m < 9007199254740992 && p >= 1
    requires g == m as real * p as real || g * p as real == m as real
    ensures g == g.Floor as real
  {
    IntegerProduct(m, p);
    if p > 1 {
      ProductAtLeast(g, TWO52, p as real);
    }
  }

  lemma IntegerProduct(m: int, p: int)
    ensures (m * p) as real == m as real * p as real
  {}

  lemma ProductAtLeast(g: real, bound: real, p: real)
    requires g >= bound >= 0.0 && p >= 2.0
    ensures g * p >= 2.0 * bound
  {}

  /** With 53 integer digits taken, no room is left for a fraction. */
  lemma RepresentableAbove52(g: real)
    requires Representable(g) && TWO52 <= g
    ensures g == g.Floor as real
  {
    var m: int, n: nat :| Significand(g, m, n);
    SignificandAbove52(g, m, Pow2(n));
  }

  lemma {:induction false} FlPosNearest(x: real, g: real)
    requires x > 0.0 && Representable(g)
    ensures Representable(FlPos(x))
    ensures Abs(FlPos(x) - x) <= Abs(g - x)
    decreases x < TWO52, if x < TWO52 then (TWO53 / x).Floor else x.Floor
  {
    if x >= TWO53 {
      assert (x / 2.0).Floor < x.Floor;
      RepresentableHalf(g);
      FlPosNearest(x / 2.0, g / 2.0);
      RepresentableDouble(FlPos(x / 2.0));
    } else if x < TWO52 {
      HalvingDecreases(x);
      RepresentableDouble(g);
      FlPosNearest(2.0 * x, 2.0 * g);
      RepresentableHalf(FlPos(2.0 * x));
    } else {
      NearestInteger(x, g);
    }
  }

  lemma RoundEvenInRange(x: real)
    requires TWO52 <= x < TWO53
    ensures 4503599627370496 <= RoundEven(x) <= 9007199254740992
  {
    RoundEvenMonotone(TWO52, x);
    RoundEvenMonotone(x, TWO53);
  }

  lemma IntegerIsNoCloser(x: real, n: int)
    ensures Abs(RoundEven(x) as real - x) <= Abs(n as real - x)
  {
    RoundEvenClose(x);
    if Abs(n as real - x) < 0.5 {
      RoundEvenUnique(x, n);
    }
  }

  lemma NearestInteger(x: real, g: real)
    requires TWO52 <= x < TWO53 && Representable(g)
    ensures Representable(RoundEven(x) as real)
    ensures Abs(RoundEven(x) as real - x) <= Abs(g - x)
  {
    var r := RoundEven(x);
    RoundEvenClose(x);
    RoundEvenInRange(x);
    if r == 9007199254740992 {
      RepresentableInteger(4503599627370496);
      RepresentableDouble(TWO52);
    } else {
      RepresentableInteger(r);
    }
    if g >= TWO52 {
      RepresentableAbove52(g);
      IntegerIsNoCloser(x, g.Floor);
    }
  }

  /** `Fl(x)` is a double, and no double is closer to `x`. */
  lemma FlNearest(x: real, g: real)
    requires Representable(g)
    ensures Representable(Fl(x))
    ensures Abs(Fl(x) - x) <= Abs(g - x)
  {
    if x == 0.0 {
      RepresentableInteger(0);
    } else if x > 0.0 {
      FlPosNearest(x, g);
    } else {
      RepresentableNegate(g);
      FlPosNearest(-x, -g);
      RepresentableNegate(FlPos(-x));
    }
  }

  lemma RepresentableNegate(g: real)
    requires Representable(g)
    ensures Representable(-g)
  {
    var m: int, n: nat :| Significand(g, m, n);
    assert Significand(-g, -m, n);
  }

  /** Rounding moves no double, so it never rounds twice. */
  lemma FlExact(g: real)
    requires Representable(g)
    ensures Fl(g) == g
  {
    FlNearest(g, g);
  }

  lemma FlIdempotent(x: real)
    ensures Fl(Fl(x)) == Fl(x)
  {
    FlIsRepresentable(x);
    FlExact(Fl(x));
  }

  lemma FlIsRepresentable(x: real)
    ensures Representable(Fl(x))
  {
    RepresentableInteger(0);
    FlNearest(x, 0.0);
  }

  lemma FlMonotone(x: real, y: real)
    requires x <= y
    ensures Fl(x) <= Fl(y)
  {
    FlIsRepresentable(x);
    FlIsRepresentable(y);
    FlNearest(x, Fl(y));
    FlNearest(y, Fl(x));
  }

  lemma FlNearInteger(x: real, n: int)
    requires TWO52 <= n as real < TWO53 && TWO52 <= x
    requires Abs(x - n as real) < 0.5
    ensures Fl(x) == n as real
  {
    RoundEvenUnique(x, n);
  }

  /** Between two powers of two from 2^k on, a number less than half a step of 2^(k-52) away
      from a double rounds to that double. */
  lemma {:induction false} FlNearDouble(x: real, g: real, k: nat)
    requires k <= 52 && Representable(g)
    requires Pow2(k) as real <= g < 2.0 * Pow2(k) as real
    requires Pow2(k) as real <= x <= 2.0 * Pow2(k) as real
    requires Abs(x - g) < Pow2(k) as real / TWO53
    ensures Fl(x) == g
    decreases 52 - k
  {
    if k == 52 {
      Pow2Values();
      RepresentableAbove52(g);
      FlNearInteger(x, g.Floor);
    } else {
      RepresentableDouble(g);
      FlNearDouble(2.0 * x, 2.0 * g, k + 1);
      FlDouble(x);
    }
  }
}
