/** The plain mathematical meaning of the graph operators the schedules use:
    `floor`, `ceil`, `elementwise_min` and a power with a natural exponent. */
module RealMath {

  /** `layers.floor`: the greatest integer not above `x`. */
  function Floor(x: real): (k: int)
    ensures k as real <= x < k as real + 1.0
  {
    x.Floor
  }

  /** `layers.ceil`: the least integer not below `x`. */
  function Ceil(x: real): (k: int)
    ensures k as real - 1.0 < x <= k as real
  {
    -((-x).Floor)
  }

  /** `layers.elementwise_min` on two scalars. */
  function Min(a: int, b: int): (m: int)
    ensures m <= a && m <= b
    ensures m == a || m == b
  {
    if a <= b then a else b
  }

  /** `x ** n` for a natural exponent `n` (with `0 ** 0 == 1`, as `pow` does). */
  function Pow(x: real, n: nat): real
  {
    if n == 0 then 1.0 else x * Pow(x, n - 1)
  }

  /** An integer is the floor of `x` exactly when it lies in `(x - 1, x]`. */
  lemma FloorUnique(x: real, k: int)
    requires k as real <= x < k as real + 1.0
    ensures Floor(x) == k
  {
  }

  /** An integer is the ceiling of `x` exactly when it lies in `[x, x + 1)`. */
  lemma CeilUnique(x: real, k: int)
    requires k as real - 1.0 < x <= k as real
    ensures Ceil(x) == k
  {
  }

  /** Flooring never reverses the order of two reals. */
  lemma FloorMonotone(x: real, y: real)
    requires x <= y
    ensures Floor(x) <= Floor(y)
  {
  }

  lemma {:induction false} PowOne(n: nat)
    ensures Pow(1.0, n) == 1.0
  {
    if n > 0 {
      PowOne(n - 1);
    }
  }

  lemma {:induction false} PowZero(n: nat)
    requires n >= 1
    ensures Pow(0.0, n) == 0.0
  {
    if n > 1 {
      PowZero(n - 1);
    }
  }

  /** Powers of a number in the unit interval stay in the unit interval. */
  lemma {:induction false} PowUnitInterval(x: real, n: nat)
    requires 0.0 <= x <= 1.0
    ensures 0.0 <= Pow(x, n) <= 1.0
  {
    if n > 0 {
      PowUnitInterval(x, n - 1);
      var p := Pow(x, n - 1);
      assert Pow(x, n) == x * p;
      assert 0.0 <= x * p by {
        assert x >= 0.0 && p >= 0.0;
      }
      assert x * p <= 1.0 * p by {
        assert (1.0 - x) * p >= 0.0;
      }
    }
  }

  /** Powers of a positive number are positive. */
  lemma {:induction false} PowPositive(x: real, n: nat)
    requires x > 0.0
    ensures Pow(x, n) > 0.0
  {
    if n > 0 {
      PowPositive(x, n - 1);
    }
  }

  /** On the non-negative reals, `x ** n` grows with `x`. */
  lemma {:induction false} PowMonotone(x: real, y: real, n: nat)
    requires 0.0 <= x <= y
    ensures 0.0 <= Pow(x, n) <= Pow(y, n)
  {
    if n > 0 {
      PowMonotone(x, y, n - 1);
      var px, py := Pow(x, n - 1), Pow(y, n - 1);
      assert x * px <= y * px by {
        assert (y - x) * px >= 0.0;
      }
      assert y * px <= y * py by {
        assert y * (py - px) >= 0.0;
      }
    }
  }

  /** The point a share `x` of the way from `a` to `b`. */
  function Lerp(a: real, b: real, x: real): real
  {
    (b - a) * x + a
  }

  /** A share `x` in the unit interval of the way from `a` to `b` lies
      between `a` and `b`. */
  lemma Interpolate(a: real, b: real, x: real)
    requires 0.0 <= x <= 1.0
    ensures a <= b ==> a <= Lerp(a, b, x) <= b
    ensures b <= a ==> b <= Lerp(a, b, x) <= a
  {
    var span := b - a;
    assert span * x + span * (1.0 - x) == span;
    if span >= 0.0 {
      MulNonNegativeReal(span, x);
      MulNonNegativeReal(span, 1.0 - x);
    } else {
      MulNonNegativeReal(-span, x);
      MulNonNegativeReal(-span, 1.0 - x);
    }
  }

  /** Scaling by a non-negative factor keeps order. */
  lemma MulMonotoneReal(c: real, a: real, b: real)
    requires c >= 0.0 && a <= b
    ensures c * a <= c * b
  {
    MulNonNegativeReal(c, b - a);
  }

  lemma MulNonNegativeReal(a: real, b: real)
    requires a >= 0.0 && b >= 0.0
    ensures a * b >= 0.0
  {
  }

  /** Comparing a quotient with a bound is comparing the dividend with the
      scaled bound, for a positive divisor. */
  lemma DivCompare(y: real, d: real, x: real)
    requires d > 0.0
    ensures x <= y / d <==> x * d <= y
    ensures y / d < x <==> y < x * d
    ensures y / d <= x <==> y <= x * d
  {
    var q := y / d;
    assert q * d == y;
    assert (q - x) * d == y - x * d;
    if q >= x {
      assert (q - x) * d >= 0.0;
    } else {
      assert (x - q) * d > 0.0;
    }
  }

  /** Quotients by the same positive divisor keep the order of the dividends. */
  lemma DivMonotone(y1: real, y2: real, d: real)
    requires d > 0.0
    requires y1 <= y2
    ensures y1 / d <= y2 / d
  {
    DivCompare(y2, d, y1 / d);
    assert (y1 / d) * d == y1;
  }

  /** Euclidean division is determined by any quotient/remainder pair with the
      remainder in range. */
  lemma DivModUnique(a: int, d: int, q: int, r: int)
    requires d > 0
    requires 0 <= r < d
    requires a == q * d + r
    ensures a / d == q && a % d == r
  {
    var q', r' := a / d, a % d;
    assert a == q' * d + r';
    var t := q - q';
    assert t * d == r' - r;
    assert -d < t * d < d;
    if t != 0 {
      MulMagnitude(t, d);
      assert false;
    }
  }

  /** A non-zero multiple of a positive `d` is at least `d` away from zero. */
  lemma MulMagnitude(t: int, d: int)
    requires d > 0
    requires t != 0
    ensures t * d >= d || t * d <= -d
  {
    if t > 0 {
      MulNonNegative(t - 1, d);
      Distribute(t - 1, 1, d);
    } else {
      MulNonNegative(-t - 1, d);
      Distribute(-t - 1, 1, d);
      Distribute(t, -t, d);
    }
  }

  lemma MulNonNegative(a: int, b: int)
    requires a >= 0 && b >= 0
    ensures a * b >= 0
  {
  }

  lemma Distribute(a: int, b: int, c: int)
    ensures (a + b) * c == a * c + b * c
  {
  }
}
