/** Binary floating point, as far as randof needs it: non-negative numbers, round to nearest with
    ties to even (section 4.3.1 of IEEE 754-2008), p significant bits.  All the values concerned lie
    far inside the exponent range of binary32, so the exponent is not bounded here. */
module Floats {

  // ----- Powers of two -----

  function Pow2(e: int): real
    decreases if e < 0 then -e else e
  {
    if e == 0 then 1.0 else if e > 0 then 2.0 * Pow2(e - 1) else Pow2(e + 1) / 2.0
  }

  function IPow2(n: nat): nat {
    if n == 0 then 1 else 2 * IPow2(n - 1)
  }

  lemma {:induction false} Pow2Positive(e: int)
    ensures Pow2(e) > 0.0
    decreases if e < 0 then -e else e
  {
    if e > 0 {
      Pow2Positive(e - 1);
    } else if e < 0 {
      Pow2Positive(e + 1);
    }
  }

  lemma Pow2Next(e: int)
    ensures Pow2(e + 1) == 2.0 * Pow2(e)
  {
  }

  lemma {:induction false} Pow2Monotone(a: int, b: int)
    requires a <= b
    ensures Pow2(a) <= Pow2(b)
    decreases b - a
  {
    if a < b {
      Pow2Monotone(a, b - 1);
      Pow2Next(b - 1);
      Pow2Positive(b - 1);
    }
  }

  // ----- Whole numbers of units -----

  /** n times u. */
  function Units(n: nat, u: real): real {
    if n == 0 then 0.0 else Units(n - 1, u) + u
  }

  lemma {:induction false} UnitsIsProduct(n: nat, u: real)
    ensures Units(n, u) == n as real * u
  {
    if n > 0 {
      UnitsIsProduct(n - 1, u);
      Distribute((n - 1) as real, u);
    }
  }

  lemma Distribute(a: real, u: real)
    ensures (a + 1.0) * u == a * u + u
  {
  }

  lemma {:induction false} UnitsMonotone(n: nat, m: nat, u: real)
    requires u >= 0.0 && n <= m
    ensures Units(n, u) <= Units(m, u)
    ensures n < m ==> Units(n, u) + u <= Units(m, u)
    decreases m
  {
    if n < m {
      UnitsMonotone(n, m - 1, u);
    }
  }

  lemma {:induction false} UnitsOfDouble(n: nat, u: real)
    ensures Units(2 * n, u) == Units(n, 2.0 * u)
  {
    if n > 0 {
      UnitsOfDouble(n - 1, u);
      assert Units(2 * n, u) == Units(2 * n - 1, u) + u;
      assert Units(2 * n - 1, u) == Units(2 * (n - 1), u) + u;
    }
  }

  /** The same number in smaller units. */
  lemma {:induction false} Rescale(m: nat, e: int, f: int) returns (n: nat)
    requires e >= f
    ensures n == m * IPow2(e - f) && Units(m, Pow2(e)) == Units(n, Pow2(f))
    decreases e - f
  {
    if e == f {
      n := m;
    } else {
      n := Rescale(2 * m, e - 1, f);
      Pow2Next(e - 1);
      UnitsOfDouble(m, Pow2(e - 1));
      assert 2 * m * IPow2(e - 1 - f) == m * IPow2(e - f) by {
        var k := IPow2(e - 1 - f);
        assert IPow2(e - f) == 2 * k;
        assert (2 * m) * k == m * (2 * k);
      }
    }
  }

  lemma Pow2InUnits(b: int, p: nat)
    ensures Pow2(b) == Units(IPow2(p), Pow2(b - p))
  {
    var n := Rescale(1, b, b - p);
  }

  // ----- The binade of a positive number -----

  function Binade(x: real): int
    requires x > 0.0
    decreases if x >= 1.0 then x.Floor else (1.0 / x).Floor + 2
  {
    if x >= 2.0 then Binade(x / 2.0) + 1
    else if x < 1.0 then HalvesFloor(x); Binade(2.0 * x) - 1
    else 0
  }

  lemma HalvesFloor(x: real)
    requires 0.0 < x < 1.0
    ensures 1.0 / x > 1.0
    ensures 2.0 * x < 1.0 ==> (1.0 / (2.0 * x)).Floor < (1.0 / x).Floor
  {
    var y := 1.0 / x;
    assert y * x == 1.0;
    assert y > 1.0;
    assert 1.0 / (2.0 * x) == y / 2.0;
  }

  lemma {:induction false} BinadeBounds(x: real)
    requires x > 0.0
    ensures Pow2(Binade(x)) <= x < Pow2(Binade(x) + 1)
    decreases if x >= 1.0 then x.Floor else (1.0 / x).Floor + 2
  {
    if x >= 2.0 {
      BinadeBounds(x / 2.0);
      Pow2Next(Binade(x / 2.0));
      Pow2Next(Binade(x / 2.0) + 1);
    } else if x < 1.0 {
      HalvesFloor(x);
      BinadeBounds(2.0 * x);
      Pow2Next(Binade(2.0 * x) - 1);
      Pow2Next(Binade(2.0 * x));
    }
  }

  lemma BinadeIs(x: real, b: int)
    requires x > 0.0 && Pow2(b) <= x < Pow2(b + 1)
    ensures Binade(x) == b
  {
    BinadeBounds(x);
    if Binade(x) < b {
      Pow2Monotone(Binade(x) + 1, b);
    } else if Binade(x) > b {
      Pow2Monotone(b + 1, Binade(x));
    }
  }

  // ----- Rounding -----

  /** The largest number of units not above x. */
  function WholeUnits(x: real, u: real): nat
    requires x >= 0.0 && u > 0.0
    decreases (x / u).Floor
  {
    if x < u then 0 else OneUnitLess(x, u); WholeUnits(x - u, u) + 1
  }

  lemma OneUnitLess(x: real, u: real)
    requires x >= u > 0.0
    ensures (x - u) / u == x / u - 1.0 && x / u >= 1.0
  {
    var q := x / u;
    assert q * u == x;
    assert (q - 1.0) * u == x - u;
    QuotientIs(x - u, u, q - 1.0);
    assert q >= 1.0;
  }

  lemma QuotientIs(x: real, u: real, q: real)
    requires u > 0.0 && q * u == x
    ensures x / u == q
  {
    var r := x / u;
    assert r * u == x;
    assert (r - q) * u == 0.0;
  }

  lemma {:induction false} WholeUnitsBounds(x: real, u: real)
    requires x >= 0.0 && u > 0.0
    ensures Units(WholeUnits(x, u), u) <= x < Units(WholeUnits(x, u), u) + u
    decreases (x / u).Floor
  {
    if x >= u {
      OneUnitLess(x, u);
      WholeUnitsBounds(x - u, u);
    }
  }

  /** The number of units nearest to x, the even one of two equally near. */
  function Nearest(x: real, u: real): nat
    requires x >= 0.0 && u > 0.0
  {
    var n := WholeUnits(x, u);
    var rest := x - Units(n, u);
    if 2.0 * rest < u || (2.0 * rest == u && n % 2 == 0) then n else n + 1
  }

  lemma NearestIsNear(x: real, u: real)
    requires x >= 0.0 && u > 0.0
    ensures 2.0 * Units(Nearest(x, u), u) - u <= 2.0 * x <= 2.0 * Units(Nearest(x, u), u) + u
  {
    WholeUnitsBounds(x, u);
  }

  lemma NearestBelow(x: real, u: real, n: nat)
    requires x >= 0.0 && u > 0.0 && 2.0 * x < 2.0 * Units(n, u) + u
    ensures Nearest(x, u) <= n
  {
    WholeUnitsBounds(x, u);
    var w := WholeUnits(x, u);
    if w > n {
      UnitsMonotone(n, w, u);
    }
  }

  lemma NearestAbove(x: real, u: real, n: nat)
    requires x >= 0.0 && u > 0.0 && Units(n, u) <= x
    ensures n <= Nearest(x, u)
  {
    WholeUnitsBounds(x, u);
    var w := WholeUnits(x, u);
    if w < n {
      UnitsMonotone(w, n, u);
    }
  }

  lemma NearestIs(x: real, u: real, n: nat)
    requires x >= 0.0 && u > 0.0
    requires 2.0 * Units(n, u) - u <= 2.0 * x <= 2.0 * Units(n, u) + u
    requires 2.0 * x == 2.0 * Units(n, u) - u || 2.0 * x == 2.0 * Units(n, u) + u ==> n % 2 == 0
    ensures Nearest(x, u) == n
  {
    WholeUnitsBounds(x, u);
    var w := WholeUnits(x, u);
    if w > n {
      UnitsMonotone(n, w, u);
    } else if w < n {
      UnitsMonotone(w, n, u);
      if w < n - 1 {
        UnitsMonotone(w, n - 1, u);
      }
      assert w == n - 1;
    }
  }

  /** The unit in the last place of a p-bit number in the binade of x. */
  function Unit(p: nat, x: real): (u: real)
    requires x > 0.0
    ensures u > 0.0
  {
    Pow2Positive(Binade(x) - p + 1);
    Pow2(Binade(x) - p + 1)
  }

  /** x rounded to p bits. */
  function Round(p: nat, x: real): real
    requires x >= 0.0
  {
    if x == 0.0 then 0.0 else Units(Nearest(x, Unit(p, x)), Unit(p, x))
  }

  lemma RoundNonNegative(p: nat, x: real)
    requires x >= 0.0
    ensures Round(p, x) >= 0.0
  {
    if x > 0.0 {
      UnitsMonotone(0, Nearest(x, Unit(p, x)), Unit(p, x));
    }
  }

  /** A p-bit number: m units of 2^e with m <= 2^p.  If it is not below the binade of x, then it is a
      whole number of units of x, or the binade's least number. */
  lemma InUnitsOf(p: nat, x: real, m: nat, e: int) returns (n: nat)
    requires p >= 1 && x > 0.0 && m <= IPow2(p) && Pow2(Binade(x)) <= Units(m, Pow2(e))
    ensures Units(m, Pow2(e)) == Units(n, Unit(p, x))
  {
    var b := Binade(x);
    var f := b - p + 1;
    if e >= f {
      n := Rescale(m, e, f);
    } else {
      SmallUnits(p, m, e, b);
      Pow2InUnits(b, p - 1);
      n := IPow2(p - 1);
    }
  }

  lemma SmallUnits(p: nat, m: nat, e: int, b: int)
    requires m <= IPow2(p) && e + p <= b
    ensures Units(m, Pow2(e)) <= Pow2(b)
  {
    Pow2Positive(e);
    UnitsMonotone(m, IPow2(p), Pow2(e));
    Pow2InUnits(e + p, p);
    Pow2Monotone(e + p, b);
  }

  /** Rounding does not pass a p-bit number from below. */
  lemma RoundBelow(p: nat, x: real, m: nat, e: int)
    requires p >= 1 && m <= IPow2(p) && 0.0 <= x <= Units(m, Pow2(e))
    ensures Round(p, x) <= Units(m, Pow2(e))
  {
    if x > 0.0 {
      BinadeBounds(x);
      var n := InUnitsOf(p, x, m, e);
      NearestBelow(x, Unit(p, x), n);
      UnitsMonotone(Nearest(x, Unit(p, x)), n, Unit(p, x));
    }
  }

  /** Nor from above. */
  lemma RoundAbove(p: nat, x: real, m: nat, e: int)
    requires p >= 1 && m <= IPow2(p) && 0.0 <= x && Units(m, Pow2(e)) <= x
    ensures Units(m, Pow2(e)) <= Round(p, x)
  {
    if x > 0.0 {
      var b, u := Binade(x), Unit(p, x);
      BinadeBounds(x);
      var n: nat;
      if Pow2(b) <= Units(m, Pow2(e)) {
        n := InUnitsOf(p, x, m, e);
      } else {
        Pow2InUnits(b, p - 1);
        n := IPow2(p - 1);
      }
      NearestAbove(x, u, n);
      UnitsMonotone(n, Nearest(x, u), u);
    }
  }

  lemma RoundExact(p: nat, m: nat, e: int)
    requires p >= 1 && m <= IPow2(p)
    ensures Units(m, Pow2(e)) >= 0.0 && Round(p, Units(m, Pow2(e))) == Units(m, Pow2(e))
  {
    Pow2Positive(e);
    UnitsMonotone(0, m, Pow2(e));
    RoundBelow(p, Units(m, Pow2(e)), m, e);
    RoundAbove(p, Units(m, Pow2(e)), m, e);
  }

  // ----- The shape of rounded numbers -----

  lemma {:induction false} IPow2Monotone(a: nat, b: nat)
    requires a <= b
    ensures IPow2(a) <= IPow2(b)
    decreases b
  {
    if a < b {
      IPow2Monotone(a, b - 1);
    }
  }

  /** A rounded number is n units of the last place, and these fill p bits. */
  lemma RoundShape(p: nat, x: real) returns (n: nat)
    requires p >= 1 && x > 0.0
    ensures n == Nearest(x, Unit(p, x)) && IPow2(p - 1) <= n <= IPow2(p)
    ensures Round(p, x) == Units(n, Unit(p, x))
    ensures 2.0 * Round(p, x) - Unit(p, x) <= 2.0 * x <= 2.0 * Round(p, x) + Unit(p, x)
  {
    var u, b := Unit(p, x), Binade(x);
    n := Nearest(x, u);
    BinadeBounds(x);
    NearestIsNear(x, u);
    Pow2InUnits(b + 1, p);
    NearestBelow(x, u, IPow2(p));
    Pow2InUnits(b, p - 1);
    NearestAbove(x, u, IPow2(p - 1));
  }

  /** Every rounded number is some number of units, at most 2^p of them. */
  lemma RoundIsFloat(p: nat, x: real) returns (n: nat, e: int)
    requires p >= 1 && x >= 0.0
    ensures n <= IPow2(p) && Round(p, x) == Units(n, Pow2(e))
  {
    if x == 0.0 {
      n, e := 0, 0;
    } else {
      n := RoundShape(p, x);
      e := Binade(x) - p + 1;
    }
  }

  lemma RoundMonotone(p: nat, x: real, y: real)
    requires p >= 1 && 0.0 <= x <= y
    ensures Round(p, x) <= Round(p, y)
  {
    var n, e := RoundIsFloat(p, y);
    if x <= Round(p, y) {
      RoundBelow(p, x, n, e);
    } else {
      var u := Unit(p, y);
      var m := RoundShape(p, y);
      BinadeBounds(y);
      Pow2InUnits(Binade(y), p - 1);
      UnitsMonotone(IPow2(p - 1), m, u);
      BinadeIs(x, Binade(y));
      if x < y {
        NearestBelow(x, u, m);
        UnitsMonotone(Nearest(x, u), m, u);
      }
    }
  }

  /** No p-bit number lies strictly between two neighbours in a binade. */
  lemma BinadeBetween(p: nat, a: real, b: int, n: nat)
    requires p >= 1 && IPow2(p - 1) <= n < IPow2(p)
    requires Units(n, Pow2(b - p + 1)) < a < Units(n + 1, Pow2(b - p + 1))
    ensures a > 0.0 && Binade(a) == b
  {
    var u := Pow2(b - p + 1);
    Pow2Positive(b - p + 1);
    Pow2InUnits(b, p - 1);
    UnitsMonotone(IPow2(p - 1), n, u);
    Pow2InUnits(b + 1, p);
    UnitsMonotone(n + 1, IPow2(p), u);
    Pow2Positive(b);
    BinadeIs(a, b);
  }

  lemma NoneBetween(p: nat, a: real, b: int, n: nat)
    requires p >= 1 && IPow2(p - 1) <= n < IPow2(p) && 0.0 <= a && Round(p, a) == a
    ensures
      var u := Pow2(b - p + 1);
      a < Units(n + 1, u) ==> a <= Units(n, u)
  {
    var u := Pow2(b - p + 1);
    if Units(n, u) < a < Units(n + 1, u) {
      Pow2Positive(b - p + 1);
      BinadeBetween(p, a, b, n);
      var m := Nearest(a, u);
      if m <= n {
        UnitsMonotone(m, n, u);
      } else {
        UnitsMonotone(n + 1, m, u);
      }
      assert false;
    }
  }

  lemma NotNearerBelow(p: nat, x: real, z: real)
    requires p >= 1 && 0.0 <= z <= x && 0.0 < x && Round(p, z) == z
    ensures Round(p, x) - x <= x - z && x - Round(p, x) <= x - z
  {
    RoundMonotone(p, z, x);
    if Round(p, x) > x {
      var b, u := Binade(x), Unit(p, x);
      var n := RoundShape(p, x);
      BinadeBounds(x);
      Pow2InUnits(b, p - 1);
      assert Units(n, u) == Units(n - 1, u) + u;
      NoneBetween(p, z, b, n - 1);
    }
  }

  lemma NotNearerAbove(p: nat, x: real, z: real)
    requires p >= 1 && 0.0 < x <= z && Round(p, z) == z
    ensures Round(p, x) - x <= z - x && x - Round(p, x) <= z - x
  {
    RoundMonotone(p, x, z);
    if Round(p, x) < x {
      var b, u := Binade(x), Unit(p, x);
      var n := RoundShape(p, x);
      BinadeBounds(x);
      Pow2InUnits(b + 1, p);
      assert Units(n + 1, u) == Units(n, u) + u;
      NoneBetween(p, z, b, n);
    }
  }

  /** The standard's definition: no number of p bits is nearer to x than Round(p, x). */
  lemma RoundIsNearest(p: nat, x: real, z: real)
    requires p >= 1 && x >= 0.0 && z >= 0.0 && Round(p, z) == z
    ensures
      var r := Round(p, x);
      (if r <= x then x - r else r - x) <= if z <= x then x - z else z - x
  {
    if x > 0.0 {
      if z <= x {
        NotNearerBelow(p, x, z);
      } else {
        NotNearerAbove(p, x, z);
      }
    }
  }

  /** Of two numbers of p bits equally near to x, the even one: r is an even number of units in the last place
      of the binade of x. */
  lemma RoundTiesToEven(p: nat, x: real, z: real) returns (n: nat)
    requires p >= 2 && x > 0.0 && z >= 0.0 && Round(p, z) == z && z != Round(p, x)
    requires x - z == Round(p, x) - x
    ensures n % 2 == 0 && IPow2(p - 1) <= n <= IPow2(p) && Round(p, x) == Units(n, Pow2(Binade(x) - p + 1))
  {
    n := RoundShape(p, x);
    TieIsHalfway(p, x, z, n);
    HalfwayIsEven(x, Unit(p, x), n);
  }

  lemma HalfwayIsEven(x: real, u: real, n: nat)
    requires x >= 0.0 && u > 0.0 && n == Nearest(x, u)
    requires 2.0 * x == 2.0 * Units(n, u) - u || 2.0 * x == 2.0 * Units(n, u) + u
    ensures n % 2 == 0
  {
    var w := WholeUnits(x, u);
    WholeUnitsBounds(x, u);
    assert n == w + 1 ==> Units(n, u) == Units(w, u) + u;
  }

  lemma TieIsHalfway(p: nat, x: real, z: real, n: nat)
    requires p >= 2 && x > 0.0 && z >= 0.0 && Round(p, z) == z && z != Round(p, x)
    requires x - z == Round(p, x) - x && n == Nearest(x, Unit(p, x))
    ensures 2.0 * x == 2.0 * Units(n, Unit(p, x)) - Unit(p, x) || 2.0 * x == 2.0 * Units(n, Unit(p, x)) + Unit(p, x)
  {
    if z < x {
      TieFromBelow(p, x, z, n);
    } else {
      TieFromAbove(p, x, z, n);
    }
  }

  lemma TieFromBelow(p: nat, x: real, z: real, n: nat)
    requires p >= 2 && 0.0 <= z < x && Round(p, z) == z && x - z == Round(p, x) - x && n == Nearest(x, Unit(p, x))
    ensures 2.0 * x == 2.0 * Units(n, Unit(p, x)) - Unit(p, x)
  {
    var b, u := Binade(x), Unit(p, x);
    var m := RoundShape(p, x);
    BinadeBounds(x);
    Pow2InUnits(b, p - 1);
    assert Units(n, u) == Units(n - 1, u) + u;
    NoneBetween(p, z, b, n - 1);
  }

  lemma TieFromAbove(p: nat, x: real, z: real, n: nat)
    requires p >= 2 && 0.0 < x < z && Round(p, z) == z && x - z == Round(p, x) - x && n == Nearest(x, Unit(p, x))
    ensures 2.0 * x == 2.0 * Units(n, Unit(p, x)) + Unit(p, x)
  {
    var b, u := Binade(x), Unit(p, x);
    var m := RoundShape(p, x);
    BinadeBounds(x);
    Pow2InUnits(b + 1, p);
    assert Units(n + 1, u) == Units(n, u) + u;
    NoneBetween(p, z, b, n);
  }

  // ----- Products and quotients of reals, one at a time -----

  function Times(a: real, b: real): real {
    a * b
  }

  function Over(a: real, b: real): real
    requires b > 0.0
  {
    a / b
  }

  lemma ProductNonNegative(a: real, b: real)
    requires a >= 0.0 && b >= 0.0
    ensures a * b >= 0.0
  {
  }

  lemma ProductOfDifference(y: real, c: real, f: real)
    ensures y * (c - f) == y * c - y * f
  {
  }

  lemma TimesAtMost(y: real, f: real, c: real)
    requires y >= 0.0 && 0.0 <= f <= c
    ensures 0.0 <= Times(y, f) <= Times(y, c)
  {
    ProductNonNegative(y, f);
    ProductNonNegative(y, c - f);
    ProductOfDifference(y, c, f);
  }

  lemma OverAtMost(a: real, b: real, c: real)
    requires a >= 0.0 && b > 0.0 && a <= Times(c, b)
    ensures 0.0 <= Over(a, b) <= c
  {
    var q := a / b;
    assert q * b == a;
  }

  lemma OverNonNegative(a: real, b: real)
    requires a >= 0.0 && b > 0.0
    ensures Over(a, b) >= 0.0
  {
    var q := a / b;
    assert q * b == a;
  }

  lemma OverIs(a: real, b: real, q: real)
    requires b > 0.0 && Times(q, b) == a
    ensures Over(a, b) == q
  {
    QuotientIs(a, b, q);
  }
}
