/**
 * java.math.BigDecimal as an unscaled integer and a scale: the number
 * unscaled * 10^(-scale). Two decimals are compared by writing both at a
 * common scale, where each is an integer count of units of 10^(-scale).
 * Arithmetic is exact; the only rounding is the explicit HALF_UP rounding of
 * setScale and divide.
 */
module Decimals {

  /** A BigDecimal. As in Java, 1.0 and 1.00 denote the same number but are different values. */
  datatype Decimal = Decimal(unscaled: int, scale: int)

  /** BigDecimal.ZERO */
  const Zero: Decimal := Decimal(0, 0)

  function Pow10(n: nat): (r: nat)
    ensures r >= 1
  {
    if n == 0 then 1 else 10 * Pow10(n - 1)
  }

  function Max(a: int, b: int): int {
    if a >= b then a else b
  }

  function Abs(n: int): nat {
    if n >= 0 then n else -n
  }

  /** Euclidean division of a natural number, with only the defining equation exposed. */
  function DivMod(m: nat, p: nat): (r: (nat, nat))
    requires p > 0
    ensures r.0 * p + r.1 == m && r.1 < p
  {
    (m / p, m % p)
  }

  /** The unscaled value of d written at the finer scale s (exact, since s >= d.scale). */
  function AtScale(d: Decimal, s: int): int
    requires s >= d.scale
  {
    d.unscaled * Pow10(s - d.scale)
  }

  lemma {:induction false} Pow10Add(a: nat, b: nat)
    ensures Pow10(a + b) == Pow10(a) * Pow10(b)
  {
    if b > 0 {
      Pow10Add(a, b - 1);
      calc {
        Pow10(a + b);
        10 * Pow10(a + b - 1);
        10 * (Pow10(a) * Pow10(b - 1));
        Pow10(a) * (10 * Pow10(b - 1));
        Pow10(a) * Pow10(b);
      }
    }
  }

  /** Writing a decimal at a finer scale multiplies its unscaled value by the extra power of ten. */
  lemma AtScaleFiner(d: Decimal, s: int, t: int)
    requires d.scale <= s <= t
    ensures AtScale(d, t) == AtScale(d, s) * Pow10(t - s)
  {
    Pow10Add(s - d.scale, t - s);
    assert s - d.scale + (t - s) == t - d.scale;
    var u, p, q := d.unscaled, Pow10(s - d.scale), Pow10(t - s);
    assert u * (p * q) == (u * p) * q;
  }

  lemma Monotone(x: int, y: int, p: int)
    requires p > 0
    ensures x < y <==> x * p < y * p
    ensures x == y <==> x * p == y * p
  {
    if x < y {
      assert (y - x) * p > 0;
    }
    if y < x {
      assert (x - y) * p > 0;
    }
  }

  /** Comparing at the coarsest common scale agrees with comparing at any finer one. */
  lemma OrderAtFinerScales(a: Decimal, b: Decimal, s: int)
    requires s == Max(a.scale, b.scale)
    ensures forall t :: t >= s ==>
      && (AtScale(a, t) < AtScale(b, t) <==> AtScale(a, s) < AtScale(b, s))
      && (AtScale(a, t) == AtScale(b, t) <==> AtScale(a, s) == AtScale(b, s))
  {
    forall t | t >= s
      ensures AtScale(a, t) < AtScale(b, t) <==> AtScale(a, s) < AtScale(b, s)
      ensures AtScale(a, t) == AtScale(b, t) <==> AtScale(a, s) == AtScale(b, s)
    {
      AtScaleFiner(a, s, t);
      AtScaleFiner(b, s, t);
      Monotone(AtScale(a, s), AtScale(b, s), Pow10(t - s));
    }
  }

  /** BigDecimal.compareTo: the sign of a - b, whatever the two scales. */
  function Compare(a: Decimal, b: Decimal): (r: int)
    ensures -1 <= r <= 1
    ensures forall t :: t >= a.scale && t >= b.scale ==>
      && (r < 0 <==> AtScale(a, t) < AtScale(b, t))
      && (r == 0 <==> AtScale(a, t) == AtScale(b, t))
  {
    var s := Max(a.scale, b.scale);
    OrderAtFinerScales(a, b, s);
    var x, y := AtScale(a, s), AtScale(b, s);
    if x < y then -1 else if x == y then 0 else 1
  }

  /** Against zero, compareTo reads the sign of the unscaled value. */
  lemma CompareWithZero(d: Decimal)
    ensures Compare(d, Zero) < 0 <==> d.unscaled < 0
    ensures Compare(d, Zero) == 0 <==> d.unscaled == 0
  {
    var s := Max(d.scale, 0);
    assert AtScale(Zero, s) == 0;
    Monotone(d.unscaled, 0, Pow10(s - d.scale));
  }

  /** Rewriting at a finer scale keeps the sign. */
  lemma SignAtScale(d: Decimal, t: int)
    requires t >= d.scale
    ensures AtScale(d, t) > 0 <==> d.unscaled > 0
    ensures AtScale(d, t) < 0 <==> d.unscaled < 0
  {
    Monotone(0, d.unscaled, Pow10(t - d.scale));
    Monotone(d.unscaled, 0, Pow10(t - d.scale));
  }

  lemma CompareAntisymmetric(a: Decimal, b: Decimal)
    ensures Compare(a, b) == -Compare(b, a)
  {
    var s := Max(a.scale, b.scale);
    assert AtScale(a, s) < AtScale(b, s) || AtScale(a, s) == AtScale(b, s) || AtScale(a, s) > AtScale(b, s);
  }

  /** At most then at most is at most, and strictly below when either step is. */
  lemma CompareTransitive(a: Decimal, b: Decimal, c: Decimal)
    requires Compare(a, b) <= 0 && Compare(b, c) <= 0
    ensures Compare(a, c) <= 0
    ensures Compare(a, b) < 0 || Compare(b, c) < 0 ==> Compare(a, c) < 0
  {
    var t := Max(Max(a.scale, b.scale), c.scale);
    assert AtScale(a, t) <= AtScale(b, t) <= AtScale(c, t);
  }

  /** BigDecimal.add: exact, at the larger of the two scales. */
  function Add(a: Decimal, b: Decimal): (r: Decimal)
    ensures r.scale == Max(a.scale, b.scale)
    ensures forall t :: t >= r.scale ==> AtScale(r, t) == AtScale(a, t) + AtScale(b, t)
  {
    var s := Max(a.scale, b.scale);
    var r := Decimal(AtScale(a, s) + AtScale(b, s), s);
    AddAtFinerScales(a, b, r);
    r
  }

  lemma AddAtFinerScales(a: Decimal, b: Decimal, r: Decimal)
    requires r.scale == Max(a.scale, b.scale)
    requires r.unscaled == AtScale(a, r.scale) + AtScale(b, r.scale)
    ensures forall t :: t >= r.scale ==> AtScale(r, t) == AtScale(a, t) + AtScale(b, t)
  {
    forall t | t >= r.scale
      ensures AtScale(r, t) == AtScale(a, t) + AtScale(b, t)
    {
      var s := r.scale;
      AtScaleFiner(a, s, t);
      AtScaleFiner(b, s, t);
      var x, y, p := AtScale(a, s), AtScale(b, s), Pow10(t - s);
      assert (x + y) * p == x * p + y * p;
    }
  }

  /** BigDecimal.subtract: exact, at the larger of the two scales. */
  function Subtract(a: Decimal, b: Decimal): (r: Decimal)
    ensures r.scale == Max(a.scale, b.scale)
    ensures forall t :: t >= r.scale ==> AtScale(r, t) == AtScale(a, t) - AtScale(b, t)
  {
    var s := Max(a.scale, b.scale);
    var r := Decimal(AtScale(a, s) - AtScale(b, s), s);
    SubtractAtFinerScales(a, b, r);
    r
  }

  lemma SubtractAtFinerScales(a: Decimal, b: Decimal, r: Decimal)
    requires r.scale == Max(a.scale, b.scale)
    requires r.unscaled == AtScale(a, r.scale) - AtScale(b, r.scale)
    ensures forall t :: t >= r.scale ==> AtScale(r, t) == AtScale(a, t) - AtScale(b, t)
  {
    forall t | t >= r.scale
      ensures AtScale(r, t) == AtScale(a, t) - AtScale(b, t)
    {
      var s := r.scale;
      AtScaleFiner(a, s, t);
      AtScaleFiner(b, s, t);
      var x, y, p := AtScale(a, s), AtScale(b, s), Pow10(t - s);
      assert (x - y) * p == x * p - y * p;
    }
  }

  /** BigDecimal.multiply: exact, at the sum of the two scales. */
  function Multiply(a: Decimal, b: Decimal): (r: Decimal)
    ensures r.scale == a.scale + b.scale
    ensures forall s, t :: s >= a.scale && t >= b.scale ==> AtScale(r, s + t) == AtScale(a, s) * AtScale(b, t)
  {
    var r := Decimal(a.unscaled * b.unscaled, a.scale + b.scale);
    MultiplyAtFinerScales(a, b, r);
    r
  }

  lemma MultiplyAtFinerScales(a: Decimal, b: Decimal, r: Decimal)
    requires r == Decimal(a.unscaled * b.unscaled, a.scale + b.scale)
    ensures forall s, t :: s >= a.scale && t >= b.scale ==> AtScale(r, s + t) == AtScale(a, s) * AtScale(b, t)
  {
    forall s, t | s >= a.scale && t >= b.scale
      ensures AtScale(r, s + t) == AtScale(a, s) * AtScale(b, t)
    {
      var m, n := s - a.scale, t - b.scale;
      Pow10Add(m, n);
      assert s + t - r.scale == m + n;
      var x, y, p, q := a.unscaled, b.unscaled, Pow10(m), Pow10(n);
      assert (x * y) * (p * q) == (x * p) * (y * q);
    }
  }

  /**
   * q is n / m rounded to an integer by RoundingMode.HALF_UP: the nearest
   * integer, and on a tie the one farther from zero.
   */
  predicate NearestHalfUp(n: int, m: int, q: int)
    requires m > 0
  {
    var e := 2 * (n - q * m);
    && -m <= e <= m
    && (e == m ==> n < 0)
    && (e == -m ==> n > 0)
  }

  /** The quotient n / m (m of either sign) rounded HALF_UP. */
  predicate RoundsQuotient(n: int, m: int, q: int)
    requires m != 0
  {
    if m > 0 then NearestHalfUp(n, m, q) else NearestHalfUp(-n, -m, q)
  }

  lemma NearestHalfUpOfNatural(a: nat, m: int, t: int)
    requires m > 0
    requires t == if 2 * (a % m) >= m then a / m + 1 else a / m
    ensures NearestHalfUp(a, m, t)
  {
    var q, r := a / m, a % m;
    assert a == q * m + r;
    if 2 * r >= m {
      assert t * m == q * m + m;
    }
  }

  lemma NearestHalfUpNegate(n: int, m: int, q: int)
    requires m > 0 && NearestHalfUp(n, m, q)
    ensures NearestHalfUp(-n, m, -q)
  {
    assert 2 * (-n - (-q) * m) == -(2 * (n - q * m));
  }

  /** Integer division rounded HALF_UP: the rounding step of setScale and divide. */
  function DivHalfUp(n: int, m: int): (q: int)
    requires m > 0
    ensures NearestHalfUp(n, m, q)
  {
    var a := Abs(n);
    var t := if 2 * (a % m) >= m then a / m + 1 else a / m;
    NearestHalfUpOfNatural(a, m, t);
    if n >= 0 then t
    else
      NearestHalfUpNegate(a, m, t);
      -t
  }

  /** The HALF_UP rounding of a quotient is unique, so NearestHalfUp specifies DivHalfUp completely. */
  lemma NearestHalfUpUnique(n: int, m: int, q1: int, q2: int)
    requires m > 0 && NearestHalfUp(n, m, q1) && NearestHalfUp(n, m, q2)
    ensures q1 == q2
  {
    var e1, e2 := 2 * (n - q1 * m), 2 * (n - q2 * m);
    assert e1 - e2 == 2 * ((q2 - q1) * m);
    ProductGap(q2 - q1, m);
  }

  lemma ProductGap(d: int, m: int)
    requires m > 0
    ensures d >= 1 ==> d * m >= m
    ensures d <= -1 ==> d * m <= -m
  {
    if d >= 1 {
      assert d * m == m + (d - 1) * m;
    } else if d <= -1 {
      assert d * m == -m + (d + 1) * m;
    }
  }

  /** Scaling numerator and denominator together does not change the rounded quotient. */
  lemma NearestHalfUpScaled(n: int, m: int, q: int, p: int)
    requires m > 0 && p > 0
    ensures NearestHalfUp(n * p, m * p, q) <==> NearestHalfUp(n, m, q)
  {
    var e := 2 * (n - q * m);
    ScaledError(n, m, q, p);
    ScaledComparisons(n, m, e, p);
  }

  lemma ScaledError(n: int, m: int, q: int, p: int)
    ensures 2 * (n * p - q * (m * p)) == 2 * (n - q * m) * p
  {
    assert q * (m * p) == (q * m) * p;
    assert n * p - (q * m) * p == (n - q * m) * p;
  }

  lemma ScaledComparisons(n: int, m: int, e: int, p: int)
    requires p > 0
    ensures -(m * p) <= e * p <==> -m <= e
    ensures e * p <= m * p <==> e <= m
    ensures e * p == m * p <==> e == m
    ensures e * p == -(m * p) <==> e == -m
    ensures n * p < 0 <==> n < 0
    ensures n * p > 0 <==> n > 0
  {
    assert -(m * p) == (-m) * p;
    Monotone(-m, e, p);
    Monotone(e, m, p);
    Monotone(n, 0, p);
    Monotone(0, n, p);
  }

  /** r is x rounded HALF_UP to k fraction digits: both written at the finer of the two scales. */
  predicate RoundedTo(x: Decimal, k: int, r: Decimal) {
    var s := Max(x.scale, k);
    r.scale == k && NearestHalfUp(AtScale(x, s), Pow10(s - k), r.unscaled)
  }

  /** A decimal has one rounding to a given scale. */
  lemma RoundedToUnique(x: Decimal, k: int, r1: Decimal, r2: Decimal)
    requires RoundedTo(x, k, r1) && RoundedTo(x, k, r2)
    ensures r1 == r2
  {
    var s := Max(x.scale, k);
    NearestHalfUpUnique(AtScale(x, s), Pow10(s - k), r1.unscaled, r2.unscaled);
  }

  /** BigDecimal.setScale(k, RoundingMode.HALF_UP); exact when k does not drop digits. */
  function SetScaleHalfUp(d: Decimal, k: int): (r: Decimal)
    ensures RoundedTo(d, k, r)
    ensures k >= d.scale ==> r.unscaled == AtScale(d, k)
  {
    if k >= d.scale then
      var n := AtScale(d, k);
      assert Pow10(0) == 1 && NearestHalfUp(n, 1, n);
      Decimal(n, k)
    else
      assert AtScale(d, d.scale) == d.unscaled;
      Decimal(DivHalfUp(d.unscaled, Pow10(d.scale - k)), k)
  }

  /** a.divide(b, k, RoundingMode.HALF_UP); Java throws ArithmeticException on a zero divisor. */
  function DivideHalfUp(a: Decimal, b: Decimal, k: nat): (r: Decimal)
    requires b.unscaled != 0
    ensures r.scale == k
    ensures forall t :: t >= a.scale && t >= b.scale ==>
      AtScale(b, t) != 0 && RoundsQuotient(AtScale(a, t) * Pow10(k), AtScale(b, t), r.unscaled)
  {
    var s := Max(a.scale, b.scale);
    var n, m := AtScale(a, s) * Pow10(k), AtScale(b, s);
    Monotone(0, b.unscaled, Pow10(s - b.scale));
    Monotone(b.unscaled, 0, Pow10(s - b.scale));
    var q := if m > 0 then DivHalfUp(n, m) else DivHalfUp(-n, -m);
    QuotientAtFinerScales(a, b, k, s, q);
    Decimal(q, k)
  }

  lemma QuotientAtFinerScales(a: Decimal, b: Decimal, k: nat, s: int, q: int)
    requires s == Max(a.scale, b.scale) && AtScale(b, s) != 0
    requires RoundsQuotient(AtScale(a, s) * Pow10(k), AtScale(b, s), q)
    ensures forall t :: t >= a.scale && t >= b.scale ==>
      AtScale(b, t) != 0 && RoundsQuotient(AtScale(a, t) * Pow10(k), AtScale(b, t), q)
  {
    forall t | t >= a.scale && t >= b.scale
      ensures AtScale(b, t) != 0 && RoundsQuotient(AtScale(a, t) * Pow10(k), AtScale(b, t), q)
    {
      AtScaleFiner(a, s, t);
      AtScaleFiner(b, s, t);
      RoundsQuotientScaled(AtScale(a, s), AtScale(b, s), Pow10(k), Pow10(t - s), q);
    }
  }

  /** Multiplying the dividend and the divisor by the same power keeps the rounded quotient. */
  lemma RoundsQuotientScaled(x: int, y: int, w: int, p: int, q: int)
    requires y != 0 && p > 0
    requires RoundsQuotient(x * w, y, q)
    ensures y * p != 0 && RoundsQuotient((x * p) * w, y * p, q)
  {
    var n := x * w;
    Regroup(x, p, w);
    Monotone(0, y, p);
    Monotone(y, 0, p);
    if y > 0 {
      NearestHalfUpScaled(n, y, q, p);
    } else {
      Negation(n, p);
      Negation(y, p);
      NearestHalfUpScaled(-n, -y, q, p);
    }
  }

  lemma Regroup(x: int, p: int, w: int)
    ensures (x * p) * w == (x * w) * p
  {
  }

  lemma Negation(a: int, p: int)
    ensures (-a) * p == -(a * p)
  {
  }

  /** Number of decimal digits of n (1 for zero): BigDecimal.precision of an unscaled value. */
  function NumDigits(n: nat): (r: nat)
    ensures r >= 1
    ensures n < Pow10(r)
    ensures r > 1 ==> Pow10(r - 1) <= n
  {
    if n < 10 then 1
    else
      var (q, _) := DivMod(n, 10);
      1 + NumDigits(q)
  }

  /** BigDecimal.precision */
  function Precision(d: Decimal): nat {
    NumDigits(Abs(d.unscaled))
  }

  /** A non-zero number has at most k digits exactly when it is below 10^k. */
  lemma DigitsBelow(n: nat, k: int)
    ensures n >= 1 && k >= 0 ==> (NumDigits(n) <= k <==> n < Pow10(k))
  {
    if n >= 1 && k >= 0 {
      var p := NumDigits(n);
      if p <= k {
        Pow10Add(p, k - p);
      } else if p > 1 {
        Pow10Add(k, p - 1 - k);
      }
    }
  }
}
