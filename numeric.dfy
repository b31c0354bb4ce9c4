/** Numeric helpers shared by the models: powers of two, sums, the value of
    Math.PI, and the contract that stands for Math.sqrt / p5's sqrt. */
module Numeric {

  /** The double nearest to pi, as Math.PI holds it. */
  const PI: real := 3.141592653589793

  function Pow2(n: nat): (r: nat)
    ensures r >= 1
  {
    if n == 0 then 1 else 2 * Pow2(n - 1)
  }

  /** Square roots are left abstract: a caller-supplied function of which only
      `s >= 0 && s * s == x` is known for every `x >= 0`. */
  ghost predicate IsSqrt(sqrt: real -> real) {
    forall x: real {:trigger sqrt(x)} :: x >= 0.0 ==> sqrt(x) >= 0.0 && sqrt(x) * sqrt(x) == x
  }

  /** Sine and cosine are left abstract too; only the Pythagorean identity is known. */
  ghost predicate IsSinCos(sin: real -> real, cos: real -> real) {
    forall t: real {:trigger sin(t)} {:trigger cos(t)} :: sin(t) * sin(t) + cos(t) * cos(t) == 1.0
  }

  lemma SqrtPositive(sqrt: real -> real, x: real)
    requires IsSqrt(sqrt) && x > 0.0
    ensures sqrt(x) > 0.0 && sqrt(x) * sqrt(x) == x
  {
    assert sqrt(x) >= 0.0 && sqrt(x) * sqrt(x) == x;
  }

  function Sum(s: seq<real>): real {
    if s == [] then 0.0 else Sum(s[..|s| - 1]) + s[|s| - 1]
  }

  function SumInts(s: seq<int>): int {
    if s == [] then 0 else SumInts(s[..|s| - 1]) + s[|s| - 1]
  }

  function Abs(x: real): real {
    if x < 0.0 then -x else x
  }

  /** Replacing one entry changes the sum by the difference. */
  lemma {:induction false} SumUpdate(s: seq<real>, k: nat, v: real)
    requires k < |s|
    ensures Sum(s[k := v]) == Sum(s) - s[k] + v
  {
    var n := |s|;
    if k == n - 1 {
      assert s[k := v][..n - 1] == s[..n - 1];
    } else {
      SumUpdate(s[..n - 1], k, v);
      assert s[k := v][..n - 1] == s[..n - 1][k := v];
    }
  }

  lemma {:induction false} SumZeros(n: nat)
    ensures Sum(seq(n, _ => 0.0)) == 0.0
  {
    if n > 0 {
      SumZeros(n - 1);
      assert seq(n, _ => 0.0)[..n - 1] == seq(n - 1, _ => 0.0);
    }
  }

  /** A sum dominates another entry by entry, so it dominates it in total. */
  lemma {:induction false} SumDominates(ws: seq<real>, ds: seq<real>)
    requires |ws| == |ds| && forall j :: 0 <= j < |ws| ==> ws[j] >= ds[j]
    ensures Sum(ws) >= Sum(ds)
  {
    var n := |ws|;
    if n > 0 {
      SumDominates(ws[..n - 1], ds[..n - 1]);
    }
  }

  /** With non-negative entries every prefix sum lies between 0 and the total. */
  lemma {:induction false} SumPrefixBounds(ws: seq<real>, k: nat)
    requires k <= |ws| && forall j :: 0 <= j < |ws| ==> ws[j] >= 0.0
    ensures 0.0 <= Sum(ws[..k]) <= Sum(ws)
  {
    var n := |ws|;
    if k == n {
      assert ws[..k] == ws;
      if n > 0 {
        SumPrefixBounds(ws[..n - 1], n - 1);
        assert ws[..n - 1][..n - 1] == ws[..n - 1];
      }
    } else {
      SumPrefixBounds(ws[..n - 1], k);
      assert ws[..n - 1][..k] == ws[..k];
    }
  }

  /** The quotient `n / d`, given by what it means (`r * d == n`) rather than
      by division, so that the solver meets a product, not a division, where
      the quotient is only carried along. */
  ghost function Ratio(n: real, d: real): (r: real)
    requires d != 0.0
    ensures r * d == n
  {
    assert IsRatio(n / d, n, d);
    var r :| IsRatio(r, n, d); r
  }

  ghost predicate IsRatio(r: real, n: real, d: real) {
    r * d == n
  }

  lemma RatioIsQuotient(n: real, d: real)
    requires d != 0.0
    ensures Ratio(n, d) == n / d
  {
    var r := Ratio(n, d);
    assert (r - n / d) * d == r * d - (n / d) * d;
  }

  lemma RatioAdd(m: real, n: real, d: real)
    requires d != 0.0
    ensures Ratio(m + n, d) == Ratio(m, d) + Ratio(n, d)
  {
    RatioIsQuotient(m + n, d);
    RatioIsQuotient(m, d);
    RatioIsQuotient(n, d);
    assert (m + n) / d == m / d + n / d;
  }

  /** Each entry divided by `d` and multiplied by `a`. */
  ghost function Fractions(xs: seq<real>, d: real, a: real): (fs: seq<real>)
    requires d != 0.0
    ensures |fs| == |xs|
  {
    seq(|xs|, j requires 0 <= j < |xs| => Ratio(xs[j], d) * a)
  }

  /** Shares of a whole add up to the share of the sum. */
  lemma {:induction false} SumFractions(xs: seq<real>, d: real, a: real)
    requires d != 0.0
    ensures Sum(Fractions(xs, d, a)) == Ratio(Sum(xs), d) * a
  {
    var n := |xs|;
    if n == 0 {
      RatioIsQuotient(0.0, d);
    } else {
      var p := xs[..n - 1];
      SumFractions(p, d, a);
      assert forall j :: 0 <= j < n - 1 ==> Fractions(xs, d, a)[j] == Fractions(p, d, a)[j];
      assert Fractions(xs, d, a)[..n - 1] == Fractions(p, d, a);
      var s := Sum(p);
      var x := xs[n - 1];
      RatioAdd(s, x, d);
      assert (Ratio(s, d) + Ratio(x, d)) * a == Ratio(s, d) * a + Ratio(x, d) * a;
    }
  }

  /** A part over a positive whole is a fraction in [0, 1]. */
  lemma UnitFraction(n: real, d: real)
    requires 0.0 <= n <= d && d > 0.0
    ensures 0.0 <= n / d <= 1.0
  {
  }

  lemma MulNonneg(a: real, b: real)
    requires a >= 0.0 && b >= 0.0
    ensures a * b >= 0.0
  {
  }

  lemma DivSelf(d: real)
    requires d != 0.0
    ensures d / d == 1.0
  {
  }

  /** p5's `map` and three.js's `MathUtils.mapLinear`: the linear map taking
      `a1` to `b1` and `a2` to `b2`, without clamping. */
  function MapLinear(v: real, a1: real, a2: real, b1: real, b2: real): (r: real)
    requires a1 != a2
    ensures v == a1 ==> r == b1
    ensures v == a2 ==> r == b2
    ensures a1 < a2 && a1 <= v <= a2 && b1 <= b2 ==> b1 <= r <= b2
  {
    var t := (v - a1) / (a2 - a1);
    FractionFacts(v, a1, a2);
    Lerp(t, b1, b2);
    b1 + t * (b2 - b1)
  }

  /** Where `v` lies between `a1` and `a2`, as a fraction of the way. */
  lemma FractionFacts(v: real, a1: real, a2: real)
    requires a1 != a2
    ensures v == a1 ==> (v - a1) / (a2 - a1) == 0.0
    ensures v == a2 ==> (v - a1) / (a2 - a1) == 1.0
    ensures a1 < a2 && a1 <= v <= a2 ==> 0.0 <= (v - a1) / (a2 - a1) <= 1.0
  {
    if v == a2 {
      DivSelf(a2 - a1);
    }
    if a1 < a2 && a1 <= v <= a2 {
      UnitFraction(v - a1, a2 - a1);
    }
  }

  /** Going a fraction `t` of the way from `b1` to `b2`. */
  lemma Lerp(t: real, b1: real, b2: real)
    ensures t == 0.0 ==> b1 + t * (b2 - b1) == b1
    ensures t == 1.0 ==> b1 + t * (b2 - b1) == b2
    ensures 0.0 <= t <= 1.0 && b1 <= b2 ==> b1 <= b1 + t * (b2 - b1) <= b2
  {
    if 0.0 <= t <= 1.0 && b1 <= b2 {
      var w := b2 - b1;
      MulNonneg(t, w);
      MulNonneg(1.0 - t, w);
      assert (1.0 - t) * w == w - t * w;
    }
  }
}
