/** `fibonacciSpherePositions(count, radius)`: `count` points on the sphere
    of the given radius, their heights running evenly from the top to the
    bottom while the golden angle turns them around the axis. */
module SphereSampler {
  import opened Wrappers
  import opened Numeric
  import opened Vectors

  /** `y = 1 - (i / (count - 1)) * 2` as written; `None` stands for the NaN
      that `0 / 0` gives when `count` is 1. */
  function AsWrittenHeight(i: nat, count: nat): (y: Option<real>)
    requires i < count
    ensures y.None? <==> count == 1
  {
    if count == 1 then None else Some(1.0 - (i as real / (count - 1) as real) * 2.0)
  }

  /** A single point has no height at all as written. */
  lemma SinglePointIsNaN()
    ensures AsWrittenHeight(0, 1) == None
  {
  }

  /** The unit-sphere height of point `i`, with a single point put at the
      top of the sweep. */
  function Height(i: nat, count: nat): real
    requires i < count
  {
    if count == 1 then 1.0 else 1.0 - (i as real / (count - 1) as real) * 2.0
  }

  /** The correction changes nothing once there are two points or more. */
  lemma HeightAsWritten(i: nat, count: nat)
    requires i < count && count >= 2
    ensures AsWrittenHeight(i, count) == Some(Height(i, count))
  {
  }

  lemma HeightWithin(i: nat, count: nat)
    requires i < count
    ensures -1.0 <= Height(i, count) <= 1.0
  {
    if count > 1 {
      UnitFraction(i as real, (count - 1) as real);
    }
  }

  /** The sweep starts at the top and, with two points or more, ends at the
      bottom. */
  lemma HeightEnds(count: nat)
    requires count >= 1
    ensures Height(0, count) == 1.0
    ensures count >= 2 ==> Height(count - 1, count) == -1.0
  {
    if count >= 2 {
      DivSelf((count - 1) as real);
    }
  }

  /** Consecutive heights are evenly spaced, each `2 / (count - 1)` below
      the one before. */
  lemma HeightSteps(i: nat, count: nat)
    requires i + 1 < count
    ensures Height(i, count) - Height(i + 1, count) == 2.0 / (count - 1) as real
  {
    var d := (count - 1) as real;
    RatioIsQuotient(i as real, d);
    RatioIsQuotient((i + 1) as real, d);
    RatioIsQuotient(1.0, d);
    RatioAdd(i as real, 1.0, d);
    RatioIsQuotient(2.0, d);
    RatioAdd(1.0, 1.0, d);
  }

  /** The golden angle `Math.PI * (3 - Math.sqrt(5))`. */
  function GoldenAngle(sqrt: real -> real): real {
    PI * (3.0 - sqrt(5.0))
  }

  /** The radius `sqrt(1 - y*y)` of the circle at height `y`. */
  function Ring(y: real, sqrt: real -> real): real {
    sqrt(RingSq(y))
  }

  /** `1 - y*y`. */
  function RingSq(y: real): real {
    1.0 - y * y
  }

  /** Point `i` on the unit sphere: height `y`, on the ring at that height,
      turned by `i` golden angles. */
  function UnitPoint(i: nat, count: nat, sqrt: real -> real, sin: real -> real, cos: real -> real): Vec
    requires i < count
  {
    var y := Height(i, count);
    var theta := GoldenAngle(sqrt) * i as real;
    Vec(cos(theta) * Ring(y, sqrt), y, sin(theta) * Ring(y, sqrt))
  }

  /** Point `i`, scaled by `radius`. */
  function Point(i: nat, count: nat, radius: real, sqrt: real -> real,
                 sin: real -> real, cos: real -> real): Vec
    requires i < count
  {
    Scaled(UnitPoint(i, count, sqrt, sin, cos), radius)
  }

  /** Every point lies on the sphere. */
  lemma PointOnSphere(i: nat, count: nat, radius: real, sqrt: real -> real,
                      sin: real -> real, cos: real -> real)
    requires i < count && IsSqrt(sqrt) && IsSinCos(sin, cos)
    ensures NormSq(Point(i, count, radius, sqrt, sin, cos)) == radius * radius
  {
    var y := Height(i, count);
    HeightWithin(i, count);
    SquareAtMostOne(y);
    var r := Ring(y, sqrt);
    assert r * r == 1.0 - y * y;
    var theta := GoldenAngle(sqrt) * i as real;
    var c, s := cos(theta), sin(theta);
    assert s * s + c * c == 1.0;
    UnitComponents(c, s, r, y);
    assert UnitPoint(i, count, sqrt, sin, cos) == Vec(c * r, y, s * r);
    NormSqScaled(UnitPoint(i, count, sqrt, sin, cos), radius);
  }

  lemma SquareAtMostOne(y: real)
    requires -1.0 <= y <= 1.0
    ensures y * y <= 1.0
  {
    if y >= 0.0 {
      assert y * y <= y * 1.0;
    } else {
      assert y * y <= (-y) * 1.0;
    }
  }

  /** A unit circle point scaled by the ring radius, with the height, is a
      unit vector. */
  lemma UnitComponents(c: real, s: real, r: real, y: real)
    requires s * s + c * c == 1.0 && r * r == 1.0 - y * y
    ensures NormSq(Vec(c * r, y, s * r)) == 1.0
  {
    assert NormSq(Vec(c * r, y, s * r)) == (c * c + s * s) * (r * r) + y * y;
  }

  /** The loop pushing one point per index. */
  method FibonacciSpherePositions(count: nat, radius: real, sqrt: real -> real,
                                  sin: real -> real, cos: real -> real)
    returns (pts: seq<Vec>)
    ensures |pts| == count
    ensures forall i :: 0 <= i < count ==> pts[i] == Point(i, count, radius, sqrt, sin, cos)
    ensures forall i :: 0 <= i < count ==> pts[i].y == Height(i, count) * radius
    ensures IsSqrt(sqrt) && IsSinCos(sin, cos) ==>
      forall i :: 0 <= i < count ==> NormSq(pts[i]) == radius * radius
  {
    pts := [];
    var phi := GoldenAngle(sqrt);
    for i := 0 to count
      invariant |pts| == i
      invariant forall j :: 0 <= j < i ==> pts[j] == Point(j, count, radius, sqrt, sin, cos)
    {
      var x, y, z := UnitPointAt(i, count, phi, sqrt, sin, cos);
      assert Vec(x * radius, y * radius, z * radius) == Scaled(Vec(x, y, z), radius);
      pts := pts + [Vec(x * radius, y * radius, z * radius)];
    }
    PointsOnSphere(pts, count, radius, sqrt, sin, cos);
  }

  /** What holds of every point follows for the whole sequence. */
  lemma PointsOnSphere(pts: seq<Vec>, count: nat, radius: real, sqrt: real -> real,
                       sin: real -> real, cos: real -> real)
    requires |pts| == count
    requires forall i :: 0 <= i < count ==> pts[i] == Point(i, count, radius, sqrt, sin, cos)
    ensures forall i :: 0 <= i < count ==> pts[i].y == Height(i, count) * radius
    ensures IsSqrt(sqrt) && IsSinCos(sin, cos) ==>
      forall i :: 0 <= i < count ==> NormSq(pts[i]) == radius * radius
  {
    if IsSqrt(sqrt) && IsSinCos(sin, cos) {
      forall i | 0 <= i < count
        ensures NormSq(pts[i]) == radius * radius
      {
        PointOnSphere(i, count, radius, sqrt, sin, cos);
      }
    }
  }

  /** One iteration's unit-sphere coordinates, with `phi` the golden angle
      computed before the loop. */
  method UnitPointAt(i: nat, count: nat, phi: real, sqrt: real -> real,
                     sin: real -> real, cos: real -> real)
    returns (x: real, y: real, z: real)
    requires i < count && phi == GoldenAngle(sqrt)
    ensures Vec(x, y, z) == UnitPoint(i, count, sqrt, sin, cos)
  {
    y := Height(i, count);
    var r := sqrt(RingSq(y));
    var theta := phi * i as real;
    x := cos(theta) * r;
    z := sin(theta) * r;
    assert r == Ring(y, sqrt) && theta == GoldenAngle(sqrt) * i as real;
    assert cos(theta) == cos(GoldenAngle(sqrt) * i as real);
    assert sin(theta) == sin(GoldenAngle(sqrt) * i as real);
  }
}
