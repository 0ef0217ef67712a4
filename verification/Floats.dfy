/** Which integer a single-precision float of IEEE 754 holds, if any. */
module Floats {
  import opened Table
  import opened Points

  function Exponent(f: Float): nat {
    f / 0x80_0000 % 0x100
  }

  predicate IsNegative(f: Float) {
    f >= 0x8000_0000
  }

  /** The significand, with its hidden bit unless the float is subnormal. */
  function Significand(f: Float): nat {
    f % 0x80_0000 + if Exponent(f) == 0 then 0 else 0x80_0000
  }

  function Scale(f: Float): nat {
    if Exponent(f) == 0 then 1 else Exponent(f)
  }

  function Signed(f: Float, n: int): int {
    if IsNegative(f) then -n else n
  }

  /** A finite float is its significand times two to its scale, divided by two to the 150. */
  ghost predicate Denotes(f: Float, n: int) {
    IsFinite(f) && Signed(f, Significand(f) * Pow2(Scale(f))) == n * Pow2(150)
  }

  lemma {:induction false} Pow2Sum(a: nat, b: nat)
    ensures Pow2(a + b) == Pow2(a) * Pow2(b)
  {
    if a > 0 {
      Pow2Sum(a - 1, b);
      Product(Pow2(a - 1), Pow2(b));
    }
  }

  lemma Product(x: nat, y: nat)
    ensures 2 * (x * y) == (2 * x) * y
  {
  }

  lemma {:induction false} Pow2Positive(a: nat)
    ensures Pow2(a) > 0
  {
    if a > 0 {
      Pow2Positive(a - 1);
    }
  }

  lemma Cancel(x: int, y: int, p: nat)
    requires p > 0
    ensures x * p == y * p <==> x == y
  {
    if x != y {
      assert (x - y) * p != 0;
    }
  }

  lemma Regroup(m: int, a: nat, b: nat)
    ensures m * (a * b) == (m * a) * b
  {
  }

  /** `significand * 2^scale` as a multiple of `2^150`, when it is one. */
  function Magnitude(significand: nat, scale: nat): Option<nat> {
    if scale >= 150 then Some(significand * Pow2(scale - 150))
    else
      Pow2Positive(150 - scale);
      if significand % Pow2(150 - scale) == 0 then Some(significand / Pow2(150 - scale)) else None
  }

  lemma Multiples(d: nat, k: int)
    ensures k >= 1 ==> d * k >= d
    ensures k <= -1 ==> d * k + d <= 0
  {
  }

  lemma Divides(s: nat, d: nat, m: nat)
    requires d > 0
    ensures s % d == 0 && s / d == m <==> s == m * d
  {
    var k := m - s / d;
    assert s == d * (s / d) + s % d;
    assert d * k == d * m - d * (s / d);
    Multiples(d, k);
  }

  lemma MagnitudeIsExact(significand: nat, scale: nat, m: nat)
    ensures Magnitude(significand, scale) == Some(m) <==> significand * Pow2(scale) == m * Pow2(150)
  {
    hide Pow2;
    Pow2Positive(150);
    if scale >= 150 {
      Pow2Sum(scale - 150, 150);
      Regroup(significand, Pow2(scale - 150), Pow2(150));
      Cancel(significand * Pow2(scale - 150), m, Pow2(150));
    } else {
      var d := Pow2(150 - scale);
      Pow2Positive(150 - scale);
      Pow2Positive(scale);
      Pow2Sum(150 - scale, scale);
      Regroup(m, d, Pow2(scale));
      Cancel(significand, m * d, Pow2(scale));
      Divides(significand, d, m);
    }
  }

  /** The integer that rounding the float gives, when converting it back gives the same float. */
  function IntegerValue(f: Float): Option<int> {
    if !IsFinite(f) then None
    else
      match Magnitude(Significand(f), Scale(f))
      case None => None
      case Some(m) => Some(Signed(f, m))
  }

  lemma IntegerValueIsExact(f: Float, n: int)
    ensures IntegerValue(f) == Some(n) <==> Denotes(f, n)
  {
    hide Magnitude, Pow2, Significand, Scale;
    var s, e := Significand(f), Scale(f);
    Pow2Positive(150);
    Pow2Positive(e);
    if IsFinite(f) {
      var m := if IsNegative(f) then -n else n;
      if m >= 0 {
        MagnitudeIsExact(s, e, m);
        assert -(m * Pow2(150)) == (-m) * Pow2(150);
      } else {
        assert m * Pow2(150) < 0 by { Cancel(m, 0, Pow2(150)); }
        assert s * Pow2(e) >= 0;
        assert (-m) * Pow2(150) == -(m * Pow2(150));
      }
    }
  }

  // ---------- An integer determines the float that holds it ----------

  lemma Fields(f: Float, g: Float)
    requires Exponent(f) == Exponent(g) && Significand(f) == Significand(g) && IsNegative(f) == IsNegative(g)
    ensures f == g
  {
    assert f == (if IsNegative(f) then 0x8000_0000 else 0) + Exponent(f) * 0x80_0000 + f % 0x80_0000;
    assert g == (if IsNegative(g) then 0x8000_0000 else 0) + Exponent(g) * 0x80_0000 + g % 0x80_0000;
  }

  /** A larger scale cannot be made up for by a smaller significand. */
  lemma ScalesAgree(s: nat, a: nat, t: nat, b: nat)
    requires s < 0x100_0000 && t >= 0x80_0000 && a < b
    ensures s * Pow2(a) < t * Pow2(b)
  {
    hide Pow2;
    Pow2Positive(a);
    Pow2Monotone(a + 1, b);
    Pow2Sum(1, a);
    PowerOfOne();
    assert t * Pow2(b) >= 0x80_0000 * Pow2(b) by { Scaling(0x80_0000, t, Pow2(b)); }
    assert s * Pow2(a) < 0x100_0000 * Pow2(a) by { Cancel(s, 0x100_0000, Pow2(a)); Scaling(s, 0x100_0000, Pow2(a)); }
  }

  lemma PowerOfOne()
    ensures Pow2(1) == 2
  {
  }

  lemma Scaling(a: nat, b: nat, p: nat)
    requires a <= b
    ensures a * p <= b * p
  {
  }

  lemma EqualNumbers(f: Float, g: Float)
    requires Significand(f) * Pow2(Scale(f)) == Significand(g) * Pow2(Scale(g))
    ensures Exponent(f) == Exponent(g) && Significand(f) == Significand(g)
  {
    hide Pow2;
    if Scale(f) < Scale(g) {
      ScalesAgree(Significand(f), Scale(f), Significand(g), Scale(g));
    } else if Scale(g) < Scale(f) {
      ScalesAgree(Significand(g), Scale(g), Significand(f), Scale(f));
    } else {
      Pow2Positive(Scale(f));
      Cancel(Significand(f), Significand(g), Pow2(Scale(f)));
    }
  }

  /** Two floats that hold the same integer are the same, or the two zeros. */
  lemma IntegerDeterminesFloat(f: Float, g: Float, n: int)
    requires Denotes(f, n) && Denotes(g, n)
    ensures f == g || (n == 0 && f % 0x8000_0000 == 0 && g % 0x8000_0000 == 0)
  {
    hide Pow2, Significand, Scale;
    Pow2Positive(150);
    Pow2Positive(Scale(f));
    Pow2Positive(Scale(g));
    var a, b := Significand(f) * Pow2(Scale(f)), Significand(g) * Pow2(Scale(g));
    assert a == b;
    EqualNumbers(f, g);
    if IsNegative(f) == IsNegative(g) {
      Fields(f, g);
    } else {
      assert a == 0 && n * Pow2(150) == 0;
      Cancel(n, 0, Pow2(150));
      Cancel(Significand(f), 0, Pow2(Scale(f)));
      Cancel(Significand(g), 0, Pow2(Scale(g)));
      ZeroSignificand(f);
      ZeroSignificand(g);
    }
  }

  lemma ZeroSignificand(f: Float)
    requires Significand(f) == 0
    ensures f % 0x8000_0000 == 0
  {
  }
}
