/** Which number randof gives (include/czmq_prelude.h): the one its formula gives in exact arithmetic, up to
    a stated number of parts in 2^24, for every limit, every num and all draws. */
module RandofValue {
  import opened Floats
  import opened Randof

  const M: real := 16777216.0

  /** x differs from y by at most k parts in 2^24. */
  predicate Near(x: real, y: real, k: real) {
    Times(M - k, y) <= M * x <= Times(M + k, y)
  }

  /** The number r is x, up to k parts in 2^24, rounded down. */
  predicate About(r: int, x: real, k: real) {
    M * r as real <= Times(M + k, x) && Times(M - k, x) < M * (r + 1) as real
  }

  // ----- Arithmetic on numbers that are near -----

  lemma Expand(a: real, b: real, y: real)
    ensures Times(a + b, y) == Times(a, y) + Times(b, y) && Times(a - b, y) == Times(a, y) - Times(b, y)
  {
  }

  lemma TimesTimes(a: real, b: real, c: real)
    ensures Times(a, Times(b, c)) == Times(a * b, c) == Times(b, Times(a, c))
  {
  }

  lemma TimesMonotone(a: real, x: real, y: real)
    requires a >= 0.0 && x <= y
    ensures Times(a, x) <= Times(a, y)
  {
    ProductNonNegative(a, y - x);
    ProductOfDifference(a, y, x);
  }

  lemma TimesSmaller(a: real, b: real, y: real)
    requires a <= b && y >= 0.0
    ensures Times(a, y) <= Times(b, y)
  {
    ProductNonNegative(b - a, y);
    Expand(b, a, y);
  }

  lemma NearMore(x: real, y: real, j: real, k: real)
    requires Near(x, y, j) && y >= 0.0 && j <= k
    ensures Near(x, y, k)
  {
    TimesSmaller(M + j, M + k, y);
    TimesSmaller(M - k, M - j, y);
  }

  lemma SquareOfM(j: real, k: real)
    requires 0.0 <= j <= 64.0 && 0.0 <= k <= 64.0
    ensures (M + j) * (M + k) <= M * (M + (j + k + 1.0))
    ensures M * (M - (j + k + 1.0)) <= (M - j) * (M - k)
  {
    assert 0.0 <= j * k <= 64.0 * 64.0 by {
      ProductNonNegative(j, k);
      ProductNonNegative(j, 64.0 - k);
      ProductNonNegative(64.0 - j, 64.0);
    }
    assert (M + j) * (M + k) == M * M + M * (j + k) + j * k;
    assert (M - j) * (M - k) == M * M - M * (j + k) + j * k;
    assert M * (M + (j + k + 1.0)) == M * M + M * (j + k) + M;
    assert M * (M - (j + k + 1.0)) == M * M - M * (j + k) - M;
  }

  lemma Cancel(x: real, y: real)
    requires M * x <= M * y
    ensures x <= y
  {
  }

  lemma NearAbove(x: real, y: real, z: real, j: real, k: real)
    requires M * x <= Times(M + j, y) && M * y <= Times(M + k, z) && z >= 0.0
    requires 0.0 <= j <= 64.0 && 0.0 <= k <= 64.0
    ensures M * x <= Times(M + (j + k + 1.0), z)
  {
    TimesMonotone(M + j, M * y, Times(M + k, z));
    TimesTimes(M + j, M, y);
    TimesTimes(M + j, M + k, z);
    SquareOfM(j, k);
    TimesSmaller((M + j) * (M + k), M * (M + (j + k + 1.0)), z);
    TimesTimes(M, M + (j + k + 1.0), z);
    Cancel(M * x, Times(M + (j + k + 1.0), z));
  }

  lemma NearBelow(x: real, y: real, z: real, j: real, k: real)
    requires Times(M - j, y) <= M * x && Times(M - k, z) <= M * y && z >= 0.0
    requires 0.0 <= j <= 64.0 && 0.0 <= k <= 64.0
    ensures Times(M - (j + k + 1.0), z) <= M * x
  {
    TimesMonotone(M - j, Times(M - k, z), M * y);
    TimesTimes(M - j, M, y);
    TimesTimes(M - j, M - k, z);
    SquareOfM(j, k);
    TimesSmaller(M * (M - (j + k + 1.0)), (M - j) * (M - k), z);
    TimesTimes(M, M - (j + k + 1.0), z);
    Cancel(Times(M - (j + k + 1.0), z), M * x);
  }

  lemma NearTwice(x: real, y: real, z: real, j: real, k: real)
    requires Near(x, y, j) && Near(y, z, k) && z >= 0.0 && 0.0 <= j <= 64.0 && 0.0 <= k <= 64.0
    ensures Near(x, z, j + k + 1.0)
  {
    NearAbove(x, y, z, j, k);
    NearBelow(x, y, z, j, k);
  }

  lemma NearScaled(x: real, y: real, u: real, k: real)
    requires Near(x, y, k) && u >= 0.0
    ensures Near(Times(u, x), Times(u, y), k)
  {
    TimesMonotone(u, M * x, Times(M + k, y));
    TimesMonotone(u, Times(M - k, y), M * x);
    TimesTimes(u, M, x);
    TimesTimes(u, M + k, y);
    TimesTimes(u, M - k, y);
  }

  lemma NearSum(a: real, b: real, x: real, y: real, k: real)
    requires Near(a, x, k) && Near(b, y, k)
    ensures Near(a + b, x + y, k)
  {
    assert Times(M + k, x + y) == Times(M + k, x) + Times(M + k, y);
    assert Times(M - k, x + y) == Times(M - k, x) + Times(M - k, y);
  }

  lemma NearSelf(x: real, k: real)
    requires x >= 0.0 && k >= 0.0
    ensures Near(x, x, k)
  {
    TimesSmaller(M, M + k, x);
    TimesSmaller(M - k, M, x);
  }

  lemma NearProduct(x: real, y: real, u: real, v: real, j: real, k: real)
    requires Near(x, y, j) && Near(u, v, k) && u >= 0.0 && y >= 0.0 && v >= 0.0
    requires 0.0 <= j <= 64.0 && 0.0 <= k <= 64.0
    ensures Near(Times(x, u), Times(y, v), j + k + 1.0)
  {
    NearScaled(x, y, u, j);
    assert Times(u, x) == Times(x, u) && Times(u, y) == Times(y, u);
    NearScaled(u, v, y, k);
    ProductNonNegative(y, v);
    NearTwice(Times(x, u), Times(y, u), Times(y, v), j, k);
  }

  lemma OverTimes(a: real, b: real)
    requires b > 0.0
    ensures Times(b, Over(a, b)) == a
  {
    var q := a / b;
    assert q * b == a;
  }

  lemma ProductPositive(a: real, b: real)
    requires a > 0.0 && b > 0.0
    ensures a * b > 0.0
  {
  }

  lemma CancelPositive(d: real, x: real, y: real)
    requires d > 0.0 && Times(d, x) <= Times(d, y)
    ensures x <= y
  {
    if x > y {
      ProductPositive(d, x - y);
    }
  }

  /** Dividends that are near, by one divisor. */
  lemma NearOverSame(a: real, c: real, b: real, k: real)
    requires Near(a, c, k) && b > 0.0
    ensures Near(Over(a, b), Over(c, b), k)
  {
    var x, y := Over(a, b), Over(c, b);
    OverTimes(a, b);
    OverTimes(c, b);
    TimesTimes(b, M, x);
    TimesTimes(b, M + k, y);
    TimesTimes(b, M - k, y);
    CancelPositive(b, M * x, Times(M + k, y));
    CancelPositive(b, Times(M - k, y), M * x);
  }

  lemma Inverse(k: real)
    requires 0.0 <= k <= 64.0
    ensures M * M <= (M - k) * (M + (k + 1.0)) && (M + k) * (M - (k + 1.0)) <= M * M
  {
    assert 0.0 <= k * k <= 64.0 * 64.0 by {
      ProductNonNegative(k, k);
      ProductNonNegative(k, 64.0 - k);
    }
    assert (M - k) * (M + (k + 1.0)) == M * M + M - k * k - k;
    assert (M + k) * (M - (k + 1.0)) == M * M - M - k * k - k;
  }

  /** d q and b q are p d: what divisors that are near make of one dividend. */
  lemma NearOverOther(c: real, b: real, d: real, k: real)
    requires Near(b, d, k) && c >= 0.0 && b > 0.0 && d > 0.0 && 0.0 <= k <= 64.0
    ensures Near(Over(c, b), Over(c, d), k + 1.0)
  {
    var q, p := Over(c, b), Over(c, d);
    OverTimes(c, b);
    OverTimes(c, d);
    OverNonNegative(c, b);
    OverNonNegative(c, d);
    QuotientAbove(q, p, b, d, k);
    QuotientBelow(q, p, b, d, k);
  }

  lemma QuotientAbove(q: real, p: real, b: real, d: real, k: real)
    requires Times(M - k, d) <= M * b && Times(b, q) == Times(d, p) && q >= 0.0 && p >= 0.0 && d > 0.0
    requires 0.0 <= k <= 64.0
    ensures M * q <= Times(M + (k + 1.0), p)
  {
    TimesMonotone(q, Times(M - k, d), M * b);
    assert Times(q, Times(M - k, d)) == Times(d, Times(M - k, q));
    assert Times(q, M * b) == M * Times(b, q) == Times(d, M * p);
    CancelPositive(d, Times(M - k, q), M * p);
    Inverse(k);
    TimesMonotone(M + (k + 1.0), Times(M - k, q), M * p);
    TimesTimes(M + (k + 1.0), M - k, q);
    TimesTimes(M + (k + 1.0), M, p);
    TimesSmaller(M * M, (M - k) * (M + (k + 1.0)), q);
    assert Times(M * M, q) == M * (M * q);
    Cancel(M * q, Times(M + (k + 1.0), p));
  }

  lemma QuotientBelow(q: real, p: real, b: real, d: real, k: real)
    requires M * b <= Times(M + k, d) && Times(b, q) == Times(d, p) && q >= 0.0 && p >= 0.0 && d > 0.0
    requires 0.0 <= k <= 64.0
    ensures Times(M - (k + 1.0), p) <= M * q
  {
    TimesMonotone(q, M * b, Times(M + k, d));
    assert Times(q, Times(M + k, d)) == Times(d, Times(M + k, q));
    assert Times(q, M * b) == M * Times(b, q) == Times(d, M * p);
    CancelPositive(d, M * p, Times(M + k, q));
    Inverse(k);
    TimesMonotone(M - (k + 1.0), M * p, Times(M + k, q));
    TimesTimes(M - (k + 1.0), M + k, q);
    TimesTimes(M - (k + 1.0), M, p);
    TimesSmaller((M + k) * (M - (k + 1.0)), M * M, q);
    assert Times(M * M, q) == M * (M * q);
    Cancel(Times(M - (k + 1.0), p), M * q);
  }

  lemma NearQuotient(a: real, c: real, b: real, d: real, j: real, k: real)
    requires Near(a, c, j) && Near(b, d, k) && c >= 0.0 && b > 0.0 && d > 0.0
    requires 0.0 <= j <= 60.0 && 0.0 <= k <= 60.0
    ensures Near(Over(a, b), Over(c, d), j + k + 2.0)
  {
    NearOverSame(a, c, b, j);
    NearOverOther(c, b, d, k);
    OverNonNegative(c, d);
    NearTwice(Over(a, b), Over(c, b), Over(c, d), j, k + 1.0);
  }

  // ----- Rounding -----

  lemma RoundIsNear(p: nat, x: real)
    requires p == FLOAT || p == DOUBLE
    requires x >= 0.0
    ensures Near(Round(p, x), x, 1.0)
  {
    DoubleIsFiner();
    RelativeError(p, x);
    if x > 0.0 {
      var u := Unit(p, x);
      var n := RoundShape(p, x);
      BinadeBounds(x);
      Pow2InUnits(Binade(x), p - 1);
      UnitsMonotone(8388608, IPow2(p - 1), u);
      UnitsIsProduct(8388608, u);
    }
  }

  lemma RoundedIsNear(p: nat, x: real, y: real, k: real)
    requires p == FLOAT || p == DOUBLE
    requires x >= 0.0 && y >= 0.0 && Near(x, y, k) && 0.0 <= k <= 62.0
    ensures Near(Round(p, x), y, k + 2.0)
  {
    RoundIsNear(p, x);
    NearTwice(Round(p, x), x, y, 1.0, k);
  }

  // ----- The parts of the formula -----

  /** What a draw counts for. */
  function Draw(max: nat, r: nat): (d: nat)
    requires max >= 2
  {
    r % (max - 1)
  }

  /** A draw as a share of the limit. */
  function Share(max: nat, r: nat): (f: real)
    requires max >= 2
    ensures f >= 0.0
  {
    OverNonNegative(Draw(max, r) as real, max as real);
    Over(Draw(max, r) as real, max as real)
  }

  lemma FactorIsNear(max: nat, r: nat)
    requires max >= 2
    ensures Near(Factor(max, r), Share(max, r), 6.0)
  {
    var d := r % (max - 1);
    CastPositive(max);
    RoundIsNear(FLOAT, d as real);
    RoundIsNear(FLOAT, max as real);
    NearQuotient(Cast(d), d as real, Cast(max), max as real, 1.0, 1.0);
    OverNonNegative(Cast(d), Cast(max));
    RoundedIsNear(FLOAT, Over(Cast(d), Cast(max)), Share(max, r), 4.0);
  }

  lemma ProductIsNear(num: nat, f: real, g: real, k: real)
    requires f >= 0.0 && g >= 0.0 && Near(f, g, k) && 0.0 <= k <= 60.0
    ensures Near(Product(num, f), Times(num as real, g), k + 4.0)
  {
    RoundIsNear(FLOAT, num as real);
    NearProduct(Cast(num), num as real, f, g, 1.0, k);
    TimesAtMost(Cast(num), f, f);
    TimesAtMost(num as real, g, g);
    RoundedIsNear(FLOAT, Times(Cast(num), f), Times(num as real, g), k + 2.0);
  }

  lemma DivisorIsNear(whole: nat, fuzz: real, e: real, k: real)
    requires 1 <= whole <= 6 && fuzz >= 0.0 && e >= 0.0 && Near(fuzz, e, k) && 0.0 <= k <= 60.0
    ensures Near(Divisor(whole, fuzz), whole as real + e, k + 2.0)
  {
    NearSelf(whole as real, k);
    NearSum(whole as real, fuzz, whole as real, e, k);
    RoundedIsNear(DOUBLE, whole as real + fuzz, whole as real + e, k);
  }

  /** The whole part of a quotient of numbers that are near. */
  lemma DivideIsNear(p: real, y: real, d: real, e: real, j: real, k: real)
    requires p >= 0.0 && y >= 0.0 && d >= 1.0 && e >= 1.0 && Near(p, y, j) && Near(d, e, k)
    requires 0.0 <= j <= 30.0 && 0.0 <= k <= 30.0
    ensures About(Divide(p, d), Over(y, e), j + k + 4.0)
  {
    NearQuotient(p, y, d, e, j, k);
    OverNonNegative(p, d);
    OverNonNegative(y, e);
    RoundedIsNear(DOUBLE, Over(p, d), Over(y, e), j + k + 2.0);
    FloorOf(Round(DOUBLE, Over(p, d)));
  }

  lemma FloorOf(x: real)
    ensures x.Floor as real <= x < (x.Floor + 1) as real
  {
  }

  lemma HundredthIsNear(f: real, g: real)
    requires f >= 0.0 && g >= 0.0 && Near(f, g, 6.0)
    ensures Near(Hundredth(f), g / 100.0, 8.0)
  {
    NearScaled(f, g, 0.01, 6.0);
    assert Times(0.01, f) == f / 100.0 && Times(0.01, g) == g / 100.0;
    RoundedIsNear(DOUBLE, f / 100.0, g / 100.0, 6.0);
  }

  // ----- The large variant -----

  /** What randof is to give for a limit above UINT16_MAX, in exact arithmetic. */
  function ExactLarge(max: nat, num: nat, r1: nat, r2: nat): real
    requires max >= 2
  {
    Over(Times(num as real, Share(max, r1)), 1.0 + Share(max, r2) / 100.0)
  }

  /** The number is the exact one, 24 parts in 2^24 up or down, rounded down. */
  lemma LargeIsNear(max: nat, num: nat, r1: nat, r2: nat)
    requires max >= 2
    ensures About(RandofLarge(max, num, r1, r2), ExactLarge(max, num, r1, r2), 24.0)
  {
    var f, g, d := Factor(max, r1), Share(max, r1), Divisor(1, Hundredth(Factor(max, r2)));
    FactorIsNear(max, r1);
    ProductIsNear(num, f, g, 6.0);
    TimesAtMost(num as real, g, g);
    LargeDivisorIsNear(max, r2);
    DivideIsNear(Product(num, f), Times(num as real, g), d, 1.0 + Share(max, r2) / 100.0, 10.0, 10.0);
    LargeIs(max, num, r1, r2, f, d);
  }

  lemma LargeIs(max: nat, num: nat, r1: nat, r2: nat, f: real, d: real)
    requires max >= 2 && f == Factor(max, r1) && d == Divisor(1, Hundredth(Factor(max, r2)))
    ensures RandofLarge(max, num, r1, r2) == Divide(Product(num, f), d)
  {
  }

  lemma LargeDivisorIsNear(max: nat, r: nat)
    requires max >= 2
    ensures
      var d, e := Divisor(1, Hundredth(Factor(max, r))), 1.0 + Share(max, r) / 100.0;
      d >= 1.0 && e >= 1.0 && Near(d, e, 10.0)
  {
    FactorIsNear(max, r);
    HundredthIsNear(Factor(max, r), Share(max, r));
    DivisorIsNear(1, Hundredth(Factor(max, r)), Share(max, r) / 100.0, 8.0);
  }

  // ----- The variants that add factors -----

  function ShareSum(max: nat, draws: seq<nat>): (s: real)
    requires max >= 2
    ensures s >= 0.0
  {
    if draws == [] then 0.0 else ShareSum(max, draws[..|draws| - 1]) + Share(max, draws[|draws| - 1])
  }

  /** The parts in 2^24 that a sum of n factors may be off. */
  function SumSlack(n: nat): real {
    4.0 + 2.0 * n as real
  }

  lemma {:induction false} SumIsNear(max: nat, draws: seq<nat>)
    requires max >= 2 && 1 <= |draws| <= 6
    ensures Near(Sum(max, draws), ShareSum(max, draws), SumSlack(|draws|))
    decreases |draws|
  {
    var last := draws[|draws| - 1];
    FactorIsNear(max, last);
    var most := draws[..|draws| - 1];
    if |draws| == 1 {
      assert ShareSum(max, most) == 0.0;
    } else {
      SumIsNear(max, most);
      SumGoesOn(Sum(max, most), ShareSum(max, most), Factor(max, last), Share(max, last), SumSlack(|most|));
    }
  }

  lemma SumGoesOn(s: real, t: real, f: real, g: real, k: real)
    requires s >= 0.0 && t >= 0.0 && f >= 0.0 && g >= 0.0 && Near(s, t, k) && Near(f, g, 6.0) && 6.0 <= k <= 62.0
    ensures Near(Round(FLOAT, s + f), t + g, k + 2.0)
  {
    NearMore(f, g, 6.0, k);
    NearSum(s, f, t, g, k);
    RoundedIsNear(FLOAT, s + f, t + g, k);
  }

  /** What randof is to give for a limit of at most UINT16_MAX, in exact arithmetic: the sum of two draws and
      a divisor between 2 and 2.5 above INT16_MAX, of four and one between 4 and 14 above UINT8_MAX, of six
      and one between 6 and 106 otherwise. */
  function ExactSmall(max: nat, num: nat, draws: seq<nat>, extra: nat): real
    requires max >= 2
  {
    var y, f := Times(num as real, ShareSum(max, draws)), Share(max, extra);
    if max > 32767 then Over(y, 2.0 + f / 2.0)
    else if max > 255 then Over(y, 4.0 + 10.0 * f)
    else Over(y, 6.0 + 100.0 * f)
  }

  lemma FuzzIs(whole: nat, f: real, scale: real)
    requires f >= 0.0 && Times(scale, f) >= 0.0
    requires (whole == 2 && scale == 0.5) || (whole == 4 && scale == 10.0) || (whole == 6 && scale == 100.0)
    ensures Fuzz(whole, f) == Round(DOUBLE, Times(scale, f))
  {
    assert f / 2.0 == Times(0.5, f);
  }

  lemma FuzzIsNear(whole: nat, f: real, g: real, scale: real)
    requires f >= 0.0 && g >= 0.0 && Near(f, g, 6.0)
    requires (whole == 2 && scale == 0.5) || (whole == 4 && scale == 10.0) || (whole == 6 && scale == 100.0)
    ensures Near(Fuzz(whole, f), Times(scale, g), 8.0)
  {
    NearScaled(f, g, scale, 6.0);
    TimesAtMost(scale, f, f);
    TimesAtMost(scale, g, g);
    RoundedIsNear(DOUBLE, Times(scale, f), Times(scale, g), 6.0);
    FuzzIs(whole, f, scale);
  }

  lemma FuzzyDivisorIsNear(whole: nat, f: real, g: real, scale: real)
    requires f >= 0.0 && g >= 0.0 && Near(f, g, 6.0)
    requires (whole == 2 && scale == 0.5) || (whole == 4 && scale == 10.0) || (whole == 6 && scale == 100.0)
    ensures
      var d, e := Divisor(whole, Fuzz(whole, f)), whole as real + Times(scale, g);
      d >= 1.0 && e >= 1.0 && Near(d, e, 10.0)
  {
    FuzzIsNear(whole, f, g, scale);
    TimesAtMost(scale, g, g);
    DivisorIsNear(whole, Fuzz(whole, f), Times(scale, g), 8.0);
  }

  /** The factors stand for the shares t and g. */
  lemma QuotientIsNear(num: nat, whole: nat, s: real, t: real, f: real, g: real, scale: real)
    requires s >= 0.0 && t >= 0.0 && f >= 0.0 && g >= 0.0 && Near(s, t, 16.0) && Near(f, g, 6.0)
    requires (whole == 2 && scale == 0.5) || (whole == 4 && scale == 10.0) || (whole == 6 && scale == 100.0)
    ensures
      var y, e := Times(num as real, t), whole as real + Times(scale, g);
      e >= 1.0 && About(Divide(Product(num, s), Divisor(whole, Fuzz(whole, f))), Over(y, e), 34.0)
  {
    var d := Divisor(whole, Fuzz(whole, f));
    ProductIsNear(num, s, t, 16.0);
    FuzzyDivisorIsNear(whole, f, g, scale);
    TimesAtMost(num as real, t, t);
    DivideIsNear(Product(num, s), Times(num as real, t), d, whole as real + Times(scale, g), 20.0, 10.0);
  }

  lemma SumIsNearEnough(max: nat, draws: seq<nat>)
    requires max >= 2 && 1 <= |draws| <= 6
    ensures Near(Sum(max, draws), ShareSum(max, draws), 16.0)
  {
    SumIsNear(max, draws);
    NearMore(Sum(max, draws), ShareSum(max, draws), SumSlack(|draws|), 16.0);
  }

  /** One of the three variants, with `whole` draws and a divisor between whole and whole + scale. */
  lemma SmallQuotient(max: nat, num: nat, draws: seq<nat>, extra: nat, whole: nat, scale: real)
    requires 2 <= max <= 65535 && |draws| == Terms(max) == whole
    requires (whole == 2 && scale == 0.5) || (whole == 4 && scale == 10.0) || (whole == 6 && scale == 100.0)
    ensures
      var y, e := Times(num as real, ShareSum(max, draws)), whole as real + Times(scale, Share(max, extra));
      e >= 1.0 && About(RandofSmall(max, num, draws, extra), Over(y, e), 34.0)
  {
    var s, t, f, g := Sum(max, draws), ShareSum(max, draws), Factor(max, extra), Share(max, extra);
    SumIsNearEnough(max, draws);
    FactorIsNear(max, extra);
    QuotientIsNear(num, whole, s, t, f, g, scale);
    SmallIs(max, num, draws, extra, s, f);
  }

  lemma SmallIs(max: nat, num: nat, draws: seq<nat>, extra: nat, s: real, f: real)
    requires 2 <= max <= 65535 && |draws| == Terms(max) && s == Sum(max, draws) && f == Factor(max, extra)
    ensures RandofSmall(max, num, draws, extra) == Divide(Product(num, s), Divisor(Terms(max), Fuzz(Terms(max), f)))
  {
  }

  lemma ExactIs(max: nat, num: nat, draws: seq<nat>, extra: nat, y: real, g: real)
    requires max >= 2 && y == Times(num as real, ShareSum(max, draws)) && g == Share(max, extra)
    ensures max > 32767 ==> ExactSmall(max, num, draws, extra) == Over(y, 2.0 + Times(0.5, g))
    ensures 255 < max <= 32767 ==> ExactSmall(max, num, draws, extra) == Over(y, 4.0 + Times(10.0, g))
    ensures max <= 255 ==> ExactSmall(max, num, draws, extra) == Over(y, 6.0 + Times(100.0, g))
  {
    assert Times(0.5, g) == g / 2.0;
  }

  /** The number is the exact one, 34 parts in 2^24 up or down, rounded down, for as many draws as the limit
      asks for: two above INT16_MAX, four above UINT8_MAX, six otherwise. */
  lemma SmallIsNear(max: nat, num: nat, draws: seq<nat>, extra: nat)
    requires 2 <= max <= 65535 && |draws| == if max > 32767 then 2 else if max > 255 then 4 else 6
    ensures About(RandofSmall(max, num, draws, extra), ExactSmall(max, num, draws, extra), 34.0)
  {
    ExactIs(max, num, draws, extra, Times(num as real, ShareSum(max, draws)), Share(max, extra));
    if max > 32767 {
      SmallQuotient(max, num, draws, extra, 2, 0.5);
    } else if max > 255 {
      SmallQuotient(max, num, draws, extra, 4, 10.0);
    } else {
      SmallQuotient(max, num, draws, extra, 6, 100.0);
    }
  }

  // ----- The precision of each step -----

  /** No number of p bits is nearer to x than r, which is one. */
  ghost predicate Closest(p: nat, r: real, x: real) {
    && r >= 0.0 && Round(p, r) == r
    && forall z: real :: z >= 0.0 && Round(p, z) == z ==> Distance(r, x) <= Distance(z, x)
  }

  function Distance(a: real, b: real): real {
    if a <= b then b - a else a - b
  }

  lemma RoundIsClosest(p: nat, x: real)
    requires p >= 1 && x >= 0.0
    ensures Closest(p, Round(p, x), x)
  {
    var n, e := RoundIsFloat(p, x);
    RoundExact(p, n, e);
    RoundNonNegative(p, x);
    forall z: real | z >= 0.0 && Round(p, z) == z
      ensures Distance(Round(p, x), x) <= Distance(z, x)
    {
      RoundIsNearest(p, x, z);
    }
  }

  /** The draw and the limit are cast to 24 bits, and their quotient and the product with num, itself cast, are
      taken to 24 bits; the divisor is taken to 53. */
  lemma PrecisionOfSteps(max: nat, num: nat, r: nat, f: real, whole: nat, fuzz: real)
    requires max >= 2 && f >= 0.0 && 1 <= whole <= 6 && fuzz >= 0.0
    ensures Closest(24, Cast(num), num as real) && Cast(max) > 0.0
    ensures Closest(24, Factor(max, r), Over(Cast(Draw(max, r)), Cast(max)))
    ensures Closest(24, Product(num, f), Times(Cast(num), f))
    ensures Closest(53, Hundredth(f), f / 100.0) && Closest(53, Divisor(whole, fuzz), whole as real + fuzz)
  {
    CastPositive(max);
    RoundIsClosest(24, num as real);
    OverNonNegative(Cast(Draw(max, r)), Cast(max));
    RoundIsClosest(24, Over(Cast(Draw(max, r)), Cast(max)));
    TimesAtMost(Cast(num), f, f);
    RoundIsClosest(24, Times(Cast(num), f));
    RoundIsClosest(53, f / 100.0);
    RoundIsClosest(53, whole as real + fuzz);
  }
}
