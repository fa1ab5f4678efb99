/** randof (include/czmq_prelude.h): a random number below num, computed in binary32 with binary64
    constants, as the macro is written.  The draws of random() are arguments. */
module Randof {
  import opened Floats

  const FLOAT: nat := 24
  const DOUBLE: nat := 53

  lemma Float24()
    ensures IPow2(24) == 16777216 && IPow2(23) == 8388608
    ensures IPow2(24) <= IPow2(53)
  {
    assert IPow2(12) == 4096;
    assert IPow2(18) == 262144;
    assert IPow2(23) == 8388608;
    IPow2Monotone(24, 53);
  }

  /** A cast of a non-negative integer to float. */
  function Cast(n: nat): (r: real)
    ensures r >= 0.0
  {
    RoundNonNegative(FLOAT, n as real);
    Round(FLOAT, n as real)
  }

  lemma CastPositive(n: nat)
    requires n >= 1
    ensures Cast(n) >= 1.0
  {
    Float24();
    assert Units(1, Pow2(0)) == 1.0;
    RoundAbove(FLOAT, n as real, 1, 0);
  }

  lemma CastExact(n: nat)
    requires n <= 16777216
    ensures Cast(n) == n as real
  {
    Float24();
    UnitsIsProduct(n, Pow2(0));
    assert Pow2(0) == 1.0;
    assert Units(n, Pow2(0)) == n as real;
    RoundExact(FLOAT, n, 0);
  }

  /** s_randof_factor for ZSYS_RANDOF_MAX == max and the draw r. */
  function Factor(max: nat, r: nat): (f: real)
    requires max >= 2
    ensures f >= 0.0
  {
    CastPositive(max);
    OverNonNegative(Cast(r % (max - 1)), Cast(max));
    RoundNonNegative(FLOAT, Over(Cast(r % (max - 1)), Cast(max)));
    Round(FLOAT, Over(Cast(r % (max - 1)), Cast(max)))
  }

  /** (float) num times a sum of factors: the dividend all four variants share. */
  function Product(num: nat, f: real): (p: real)
    requires f >= 0.0
    ensures p >= 0.0
  {
    TimesAtMost(Cast(num), f, f);
    RoundNonNegative(FLOAT, Times(Cast(num), f));
    Round(FLOAT, Times(Cast(num), f))
  }

  /** The divisor, a whole number plus some fuzz, in double. */
  function Divisor(whole: nat, fuzz: real): (d: real)
    requires 1 <= whole <= 6 && fuzz >= 0.0
    ensures d >= whole as real
  {
    DivisorAtLeast(whole, fuzz);
    Round(DOUBLE, whole as real + fuzz)
  }

  /** The division in double and the cast to int. */
  function Divide(p: real, d: real): int
    requires p >= 0.0 && d >= 1.0
  {
    OverNonNegative(p, d);
    Round(DOUBLE, Over(p, d)).Floor
  }

  lemma DivisorAtLeast(whole: nat, fuzz: real)
    requires 1 <= whole <= 6 && fuzz >= 0.0
    ensures Round(DOUBLE, whole as real + fuzz) >= whole as real
  {
    Float24();
    IPow2Monotone(23, 53);
    UnitsIsProduct(whole, Pow2(0));
    assert Pow2(0) == 1.0;
    assert Units(whole, Pow2(0)) == whole as real;
    RoundAbove(DOUBLE, whole as real + fuzz, whole, 0);
  }

  /** The part of the divisor that a second draw makes up. */
  function Hundredth(f: real): (fuzz: real)
    requires f >= 0.0
    ensures fuzz >= 0.0
  {
    RoundNonNegative(DOUBLE, f / 100.0);
    Round(DOUBLE, f / 100.0)
  }

  /** randof for ZSYS_RANDOF_MAX > UINT16_MAX. */
  function RandofLarge(max: nat, num: nat, r1: nat, r2: nat): int
    requires max >= 2
  {
    Divide(Product(num, Factor(max, r1)), Divisor(1, Hundredth(Factor(max, r2))))
  }

  // ----- A product by less than one stays below -----

  /** p is 24; kept symbolic where the value would only invite unrolling. */
  predicate Is24(p: nat) {
    p >= 1 && IPow2(p) == 16777216 && IPow2(p - 1) == 8388608
  }

  /** In the interior of a binade, less than half a unit below n units rounds to n - 1 units or less. */
  lemma InteriorBelow(p: nat, num: real, x: real, n: nat)
    requires Is24(p) && num > 0.0 && x >= 0.0 && 8388608 < n <= 16777216
    requires 2.0 * x < 2.0 * Units(n - 1, Unit(p, num)) + Unit(p, num)
    ensures Round(p, x) <= Units(n - 1, Unit(p, num))
  {
    var b, u := Binade(num), Unit(p, num);
    if x <= Units(n - 1, u) {
      RoundBelow(p, x, n - 1, b - p + 1);
    } else {
      Pow2InUnits(b, p - 1);
      UnitsMonotone(8388608, n - 1, u);
      Pow2InUnits(b + 1, p);
      UnitsMonotone(n, 16777216, u);
      Pow2Positive(b);
      BinadeIs(x, b);
      NearestBelow(x, u, n - 1);
      UnitsMonotone(Nearest(x, u), n - 1, u);
    }
  }

  /** At the bottom of a binade the next number below is half a unit away. */
  lemma BottomBelow(p: nat, num: real, x: real)
    requires Is24(p) && num > 0.0 && x >= 0.0
    requires 16777216.0 * x <= 16777215.0 * Units(8388608, Unit(p, num))
    ensures Round(p, x) < num
  {
    var b, u := Binade(num), Unit(p, num);
    BinadeBounds(num);
    Pow2InUnits(b, p - 1);
    UnitsIsProduct(8388608, u);
    Pow2Next(b - p);
    UnitsIsProduct(16777215, Pow2(b - p));
    RoundBelow(p, x, 16777215, b - p);
  }

  /** A 24-bit number times at most 1 - 2^-24, rounded, is below what the number was rounded from. */
  lemma ProductStaysBelow(p: nat, num: real, x: real)
    requires Is24(p) && num > 0.0 && 0.0 <= x && 16777216.0 * x <= 16777215.0 * Round(p, num)
    ensures Round(p, x) < num
  {
    var u := Unit(p, num);
    var n := RoundShape(p, num);
    if n == 8388608 {
      BottomBelow(p, num, x);
    } else {
      UnitsMonotone(8388608, n, u);
      UnitsIsProduct(8388608, u);
      assert Units(n, u) == Units(n - 1, u) + u;
      InteriorBelow(p, num, x, n);
    }
  }

  // ----- When the factor is below one -----

  lemma GapAtPower(p: nat, a: real, b: int)
    requires Is24(p) && 0.0 <= a < Units(8388608, Pow2(b - p + 1)) && Round(p, a) == a
    ensures 16777216.0 * a <= 16777215.0 * Units(8388608, Pow2(b - p + 1))
  {
    var u, v := Pow2(b - p + 1), Pow2(b - p);
    Pow2Next(b - p);
    UnitsIsProduct(8388608, u);
    UnitsIsProduct(16777215, v);
    assert Units(16777215 + 1, v) == Units(16777215, v) + v;
    NoneBetween(p, a, b - 1, 16777215);
  }

  lemma GapInside(p: nat, a: real, b: int, n: nat)
    requires Is24(p) && 8388608 < n <= 16777216
    requires 0.0 <= a < Units(n, Pow2(b - p + 1)) && Round(p, a) == a
    ensures 16777216.0 * a <= 16777215.0 * Units(n, Pow2(b - p + 1))
  {
    var u := Pow2(b - p + 1);
    assert Units(n, u) == Units(n - 1, u) + u;
    NoneBetween(p, a, b, n - 1);
    Pow2Positive(b - p + 1);
    UnitsMonotone(n, 16777216, u);
    UnitsIsProduct(16777216, u);
  }

  /** Of two different 24-bit numbers the smaller is at most 1 - 2^-24 times the larger. */
  lemma GapBelow(p: nat, a: real, x: real)
    requires Is24(p) && x > 0.0 && 0.0 <= a < Round(p, x) && Round(p, a) == a
    ensures 16777216.0 * a <= 16777215.0 * Round(p, x)
  {
    var b := Binade(x);
    var n := RoundShape(p, x);
    if n == 8388608 {
      GapAtPower(p, a, b);
    } else {
      GapInside(p, a, b, n);
    }
  }

  lemma Pow2Minus24()
    ensures Pow2(-24) == 1.0 / 16777216.0
  {
    assert Pow2(-8) == 1.0 / 256.0;
    assert Pow2(-16) == 1.0 / 65536.0;
  }

  lemma RoundTwice(x: real)
    requires x >= 0.0
    ensures Round(FLOAT, x) >= 0.0 && Round(FLOAT, Round(FLOAT, x)) == Round(FLOAT, x)
  {
    var n, e := RoundIsFloat(FLOAT, x);
    RoundExact(FLOAT, n, e);
  }

  /** The largest draw decides: if max - 2 and max are different floats, then no factor exceeds
      1 - 2^-24. */
  lemma FactorBelowOne(max: nat, r: nat)
    requires max >= 2 && Cast(max - 2) < Cast(max)
    ensures 16777216.0 * Factor(max, r) <= 16777215.0
  {
    Float24();
    var d := r % (max - 1);
    RoundMonotone(FLOAT, d as real, (max - 2) as real);
    RoundTwice(d as real);
    CastPositive(max);
    GapBelow(FLOAT, Cast(d), max as real);
    OverAtMost(Cast(d), Cast(max), 16777215.0 / 16777216.0);
    Pow2Minus24();
    UnitsIsProduct(16777215, Pow2(-24));
    RoundBelow(FLOAT, Over(Cast(d), Cast(max)), 16777215, -24);
  }

  // ----- The whole expression -----

  lemma ScaleBound(y: real, f: real)
    requires y >= 0.0 && 0.0 <= f && 16777216.0 * f <= 16777215.0
    ensures 0.0 <= Times(y, f) && 16777216.0 * Times(y, f) <= 16777215.0 * y
  {
    assert y * (16777215.0 - 16777216.0 * f) >= 0.0;
  }

  lemma ProductInRange(num: nat, f: real)
    requires num >= 1 && f >= 0.0 && 16777216.0 * f <= 16777215.0
    ensures Product(num, f) < num as real
  {
    FloatIs24();
    ScaleBound(Cast(num), f);
    ProductStaysBelow(FLOAT, num as real, Times(Cast(num), f));
  }

  lemma FloatIs24()
    ensures Is24(FLOAT)
  {
    Float24();
  }

  /** Dividing by at least one, in double, does not raise a float. */
  lemma DivideKeepsBelow(num: nat, f: real, d: real)
    requires f >= 0.0 && d >= 1.0
    ensures Divide(Product(num, f), d) >= 0
    ensures Divide(Product(num, f), d) as real <= Product(num, f)
  {
    var p := Product(num, f);
    TimesAtMost(Cast(num), f, f);
    var n, e := RoundIsFloat(FLOAT, Times(Cast(num), f));
    AtLeastOne(p, d);
    RoundBelowDouble(Over(p, d), n, e);
    RoundNonNegative(DOUBLE, Over(p, d));
  }

  lemma RoundBelowDouble(x: real, n: nat, e: int)
    requires n <= IPow2(24) && 0.0 <= x <= Units(n, Pow2(e))
    ensures Round(DOUBLE, x) <= Units(n, Pow2(e))
  {
    IPow2Monotone(24, 53);
    RoundBelow(DOUBLE, x, n, e);
  }

  lemma AtLeastOne(p: real, d: real)
    requires p >= 0.0 && d >= 1.0
    ensures 0.0 <= Over(p, d) <= p
  {
    assert p * (d - 1.0) >= 0.0;
    OverAtMost(p, d, p);
  }

  lemma QuotientInRange(num: nat, f: real, d: real)
    requires num >= 1 && f >= 0.0 && 16777216.0 * f <= 16777215.0 && d >= 1.0
    ensures 0 <= Divide(Product(num, f), d) < num
  {
    ProductInRange(num, f);
    DivideKeepsBelow(num, f, d);
  }

  lemma LargeInRange(max: nat, num: nat, r1: nat, r2: nat)
    requires max >= 2 && num >= 1 && Cast(max - 2) < Cast(max)
    ensures 0 <= RandofLarge(max, num, r1, r2) < num
  {
    FactorBelowOne(max, r1);
    QuotientInRange(num, Factor(max, r1), Divisor(1, Hundredth(Factor(max, r2))));
  }

  lemma RoundOfOne(p: nat)
    requires p >= 1
    ensures Round(p, 1.0) == 1.0
  {
    IPow2Monotone(0, p);
    assert Units(1, Pow2(0)) == 1.0;
    RoundExact(p, 1, 0);
  }

  lemma LeastFactor(max: nat)
    requires max >= 2
    ensures Factor(max, 0) == 0.0
  {
    CastPositive(max);
    OverIs(0.0, Cast(max), 0.0);
  }

  lemma LargestFactor(max: nat)
    requires max >= 3 && Cast(max - 2) == Cast(max)
    ensures Factor(max, max - 2) == 1.0
  {
    ModSmall(max - 2, max - 1);
    CastPositive(max);
    OverIs(Cast(max), Cast(max), 1.0);
    RoundOfOne(FLOAT);
  }

  lemma ModSmall(a: nat, m: nat)
    requires a < m
    ensures a % m == a
  {
  }

  lemma OneTimesOne()
    ensures Product(1, 1.0) == 1.0 && Divisor(1, 0.0) == 1.0 && Divide(1.0, 1.0) == 1
  {
    RoundOfOne(FLOAT);
    RoundOfOne(DOUBLE);
  }

  /** If max - 2 and max are cast to the same float, the draw max - 2 gives the factor one, and
      randof (1) can be 1. */
  lemma CollapsedCastsFail(max: nat)
    requires max >= 3 && Cast(max - 2) == Cast(max)
    ensures RandofLarge(max, 1, max - 2, 0) == 1
  {
    LeastFactor(max);
    LargestFactor(max);
    OneTimesOne();
  }

  /** randof (num) lies in 0..num-1 for every num and all draws, not only for num under 50 million, if
      and only if the casts of ZSYS_RANDOF_MAX and ZSYS_RANDOF_MAX - 2 to float differ. */
  lemma LargeInRangeIff(max: nat)
    requires max >= 3
    ensures
      (forall num: nat, r1: nat, r2: nat :: num >= 1 ==> 0 <= RandofLarge(max, num, r1, r2) < num)
      <==> Cast(max - 2) != Cast(max)
  {
    RoundMonotone(FLOAT, (max - 2) as real, max as real);
    if Cast(max - 2) == Cast(max) {
      CollapsedCastsFail(max);
    } else {
      forall num: nat, r1: nat, r2: nat | num >= 1
        ensures 0 <= RandofLarge(max, num, r1, r2) < num
      {
        LargeInRange(max, num, r1, r2);
      }
    }
  }

  // ----- The default limit -----

  const DEFAULT_MAX: nat := 0xFFFF_FFFF / 64     // UINT32_MAX >> 6

  lemma Pow2Of26()
    ensures Pow2(25) == 33554432.0 && Pow2(26) == 67108864.0
  {
    assert Pow2(8) == 256.0;
    assert Pow2(16) == 65536.0;
    assert Pow2(24) == 16777216.0;
  }

  /** The cast of a number between 2^25 and 2^26: the nearest multiple of 4, the even one of two. */
  lemma CastNear(n: nat, q: nat)
    requires 33554432 <= n < 67108864
    requires 4 * q - 2 <= n <= 4 * q + 2
    requires n == 4 * q - 2 || n == 4 * q + 2 ==> q % 2 == 0
    ensures Cast(n) == (4 * q) as real
  {
    Pow2Of26();
    BinadeIs(n as real, 25);
    UnitOfFour(n as real);
    NearestQuarter(n, q);
  }

  lemma NearestQuarter(n: nat, q: nat)
    requires 4 * q - 2 <= n <= 4 * q + 2
    requires n == 4 * q - 2 || n == 4 * q + 2 ==> q % 2 == 0
    ensures Units(q, 4.0) == (4 * q) as real && Nearest(n as real, 4.0) == q
  {
    UnitsIsProduct(q, 4.0);
    NearestIs(n as real, 4.0, q);
  }

  lemma UnitOfFour(x: real)
    requires x > 0.0 && Binade(x) == 25
    ensures Unit(FLOAT, x) == 4.0
  {
    assert Pow2(2) == 4.0;
  }

  /** Which limits between 2^25 and 2^26 work: those congruent to 3, 4, 6 or 7 modulo 8.  The default
      limit, congruent to 7, does. */
  lemma WorkingLimits(max: nat)
    requires 33554434 <= max < 67108864
    ensures Cast(max - 2) != Cast(max) <==> max % 8 == 3 || max % 8 == 4 || max % 8 == 6 || max % 8 == 7
  {
    CastNear(max, Quarter(max));
    CastNear(max - 2, Quarter(max - 2));
    QuartersDiffer(max);
  }

  lemma QuartersDiffer(max: nat)
    requires max >= 2
    ensures Quarter(max - 2) != Quarter(max) <==> max % 8 == 3 || max % 8 == 4 || max % 8 == 6 || max % 8 == 7
  {
  }

  /** The multiple of 4 nearest to n, in quarters. */
  function Quarter(n: nat): nat {
    match n % 8
    case 3 => n / 8 * 2 + 1
    case 4 => n / 8 * 2 + 1
    case 5 => n / 8 * 2 + 1
    case 6 => n / 8 * 2 + 2
    case 7 => n / 8 * 2 + 2
    case _ => n / 8 * 2
  }

  /** With the default limit, randof is in range for every num and all draws. */
  lemma DefaultInRange(num: nat, r1: nat, r2: nat)
    requires num >= 1
    ensures 0 <= RandofLarge(DEFAULT_MAX, num, r1, r2) < num
  {
    WorkingLimits(DEFAULT_MAX);
    RoundMonotone(FLOAT, (DEFAULT_MAX - 2) as real, DEFAULT_MAX as real);
    LargeInRange(DEFAULT_MAX, num, r1, r2);
  }

  /** Why the modulus is ZSYS_RANDOF_MAX - 1: the next draw would be cast to the same float as the
      limit, and the factor would be one. */
  lemma NextDrawWouldFail()
    ensures Cast(DEFAULT_MAX - 1) == Cast(DEFAULT_MAX) == 67108864.0
    ensures Cast(DEFAULT_MAX - 2) == 67108860.0
  {
    CastNear(DEFAULT_MAX - 1, 16777216);
    CastNear(DEFAULT_MAX, 16777216);
    CastNear(DEFAULT_MAX - 2, 16777215);
  }

  // ----- The variants for small limits -----

  /** Factors added from left to right, in float. */
  function Sum(max: nat, draws: seq<nat>): (f: real)
    requires max >= 2 && draws != []
    ensures f >= 0.0
  {
    var last := Factor(max, draws[|draws| - 1]);
    if |draws| == 1 then last
    else
      RoundNonNegative(FLOAT, Sum(max, draws[..|draws| - 1]) + last);
      Round(FLOAT, Sum(max, draws[..|draws| - 1]) + last)
  }

  /** The fuzz the three variants add to their divisors 2.0, 4.0 and 6.0. */
  function Fuzz(whole: nat, f: real): (r: real)
    requires f >= 0.0
    ensures r >= 0.0
  {
    var x := if whole == 2 then f / 2.0 else if whole == 4 then f * 10.0 else f * 100.0;
    RoundNonNegative(DOUBLE, x);
    Round(DOUBLE, x)
  }

  /** randof for ZSYS_RANDOF_MAX <= UINT16_MAX: two factors and 2.0 above INT16_MAX, four and 4.0 above
      UINT8_MAX, six and 6.0 otherwise. */
  function RandofSmall(max: nat, num: nat, draws: seq<nat>, extra: nat): int
    requires 2 <= max <= 65535 && |draws| == Terms(max)
  {
    Divide(Product(num, Sum(max, draws)), Divisor(Terms(max), Fuzz(Terms(max), Factor(max, extra))))
  }

  function Terms(max: nat): nat {
    if max > 32767 then 2 else if max > 255 then 4 else 6
  }

  lemma SmallFactor(max: nat, r: nat)
    requires 2 <= max <= 65535
    ensures 32768.0 * Factor(max, r) <= 32767.0
  {
    var d := r % (max - 1);
    CastExact(d);
    CastExact(max);
    OverAtMost(d as real, max as real, 32767.0 / 32768.0);
    Pow2Minus15();
    UnitsIsProduct(32767, Pow2(-15));
    Float24();
    RoundBelow(FLOAT, Over(Cast(d), Cast(max)), 32767, -15);
  }

  lemma Pow2Minus15()
    ensures Pow2(-15) == 1.0 / 32768.0
  {
    assert Pow2(-8) == 1.0 / 256.0;
  }

  lemma {:induction false} SmallSum(max: nat, draws: seq<nat>)
    requires 2 <= max <= 65535 && 1 <= |draws| <= 6
    ensures 32768.0 * Sum(max, draws) <= 32767.0 * |draws| as real
  {
    SmallFactor(max, draws[|draws| - 1]);
    if |draws| > 1 {
      var before := draws[..|draws| - 1];
      SmallSum(max, before);
      var x := Sum(max, before) + Factor(max, draws[|draws| - 1]);
      Pow2Minus15();
      var m := 32767 * |draws|;
      UnitsIsProduct(m, Pow2(-15));
      Float24();
      RoundBelow(FLOAT, x, m, -15);
    }
  }

  /** Rounding to 24 bits or more raises a number by at most one part in 2^24. */
  lemma RelativeError(p: nat, x: real)
    requires p >= 1 && IPow2(p - 1) >= 8388608 && x >= 0.0
    ensures 16777216.0 * Round(p, x) <= 16777217.0 * x
  {
    if x > 0.0 {
      var u := Unit(p, x);
      var n := RoundShape(p, x);
      BinadeBounds(x);
      Pow2InUnits(Binade(x), p - 1);
      UnitsMonotone(8388608, IPow2(p - 1), u);
      UnitsIsProduct(8388608, u);
    }
  }

  /** A product with s < k of which the k-th part is taken. */
  lemma QuotientOfProduct(y: real, s: real, k: real, p: real, d: real)
    requires y >= 0.0 && s >= 0.0 && 32768.0 * s <= 32767.0 * k && d >= k >= 1.0
    requires 0.0 <= p && 16777216.0 * p <= 16777217.0 * Times(y, s)
    ensures 0.0 <= Over(p, d)
    ensures 32768.0 * 16777216.0 * Over(p, d) <= 32767.0 * 16777217.0 * y
  {
    assert y * (32767.0 * d - 32768.0 * s) >= 0.0;
    var c := (32767.0 * 16777217.0) / (32768.0 * 16777216.0) * y;
    assert Times(c, d) == (32767.0 * 16777217.0) / (32768.0 * 16777216.0) * (y * d);
    OverAtMost(p, d, c);
  }

  lemma DoubleIsFiner()
    ensures IPow2(DOUBLE - 1) >= 8388608 && IPow2(FLOAT - 1) >= 8388608
  {
    Float24();
    IPow2Monotone(23, 52);
  }

  /** For every limit of at most UINT16_MAX, every num and all draws, randof (num) lies in 0..num-1. */
  lemma SmallInRange(max: nat, num: nat, draws: seq<nat>, extra: nat)
    requires 2 <= max <= 65535 && num >= 1 && |draws| == Terms(max)
    ensures 0 <= RandofSmall(max, num, draws, extra) < num
  {
    var k := Terms(max);
    var s, d := Sum(max, draws), Divisor(k, Fuzz(k, Factor(max, extra)));
    var y, p := Cast(num), Product(num, s);
    DoubleIsFiner();
    SmallSum(max, draws);
    TimesAtMost(y, s, s);
    RelativeError(FLOAT, num as real);
    RelativeError(FLOAT, Times(y, s));
    QuotientOfProduct(y, s, k as real, p, d);
    RelativeError(DOUBLE, Over(p, d));
    RoundNonNegative(DOUBLE, Over(p, d));
  }
}
