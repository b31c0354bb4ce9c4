/** The dragon curve behind the /projects background: a lattice path unfolded
    by repeated 90-degree rotations, its bounding box, and the segments that
    are later wrapped onto a sphere. Starting from (0,0),(1,0) every
    coordinate is an integer, so `int` models the source's numbers exactly. */
module DragonCurve {
  import opened Numeric

  datatype Point = Point(x: int, y: int)

  /** The quarter turn about `pivot` that the unfolding applies:
      (dx, dy) relative to the pivot becomes (-dy, dx). */
  function RotateAbout(pivot: Point, p: Point): Point {
    Point(pivot.x - (p.y - pivot.y), pivot.y + (p.x - pivot.x))
  }

  function Dist2(a: Point, b: Point): int {
    (a.x - b.x) * (a.x - b.x) + (a.y - b.y) * (a.y - b.y)
  }

  /** Points `i` and `i + 1` are one lattice step apart. */
  predicate UnitStepAt(path: seq<Point>, i: nat)
    requires i + 1 < |path|
  {
    Dist2(path[i], path[i + 1]) == 1
  }

  /** Consecutive points are one lattice step apart. */
  predicate UnitSteps(path: seq<Point>) {
    forall i: nat :: i + 1 < |path| ==> UnitStepAt(path, i)
  }

  /** A quarter turn about any pivot keeps every distance. */
  lemma RotationIsRigid(pivot: Point, a: Point, b: Point)
    ensures Dist2(RotateAbout(pivot, a), RotateAbout(pivot, b)) == Dist2(a, b)
    ensures RotateAbout(pivot, pivot) == pivot
  {
  }

  /** The second half of an unfolded path is the first half traversed
      backwards and turned a quarter turn about the pivot. */
  predicate IsUnfolding(path: seq<Point>, newPath: seq<Point>)
    requires |path| > 0
  {
    && |newPath| == 2 * |path| - 1
    && newPath[..|path|] == path
    && forall j :: |path| <= j < |newPath| ==>
         newPath[j] == RotateAbout(path[|path| - 1], path[2 * |path| - 2 - j])
  }

  /** Unfolding keeps every point's distance to the pivot and keeps the
      path a chain of unit lattice steps. */
  lemma {:induction false} UnfoldingKeepsSteps(path: seq<Point>, newPath: seq<Point>)
    requires |path| > 0 && IsUnfolding(path, newPath)
    ensures forall j :: |path| <= j < |newPath| ==>
      Dist2(newPath[j], path[|path| - 1]) == Dist2(path[2 * |path| - 2 - j], path[|path| - 1])
    ensures UnitSteps(path) ==> UnitSteps(newPath)
  {
    var n := |path|;
    var pivot := path[n - 1];
    forall j | n <= j < |newPath|
      ensures Dist2(newPath[j], pivot) == Dist2(path[2 * n - 2 - j], pivot)
    {
      RotationIsRigid(pivot, pivot, path[2 * n - 2 - j]);
    }
    if UnitSteps(path) {
      forall j: nat | j + 1 < |newPath|
        ensures UnitStepAt(newPath, j)
      {
        if j < n - 1 {
          assert newPath[j] == path[j] && newPath[j + 1] == path[j + 1];
          assert UnitStepAt(path, j);
        } else if j == n - 1 {
          assert newPath[j] == pivot;
          RotationIsRigid(pivot, pivot, path[n - 2]);
          assert UnitStepAt(path, n - 2);
        } else {
          RotationIsRigid(pivot, path[2 * n - 2 - j], path[2 * n - 3 - j]);
          assert UnitStepAt(path, 2 * n - 3 - j);
        }
      }
    }
  }

  /** The unfolding of a non-empty path, as a value. */
  function Unfold(path: seq<Point>): (r: seq<Point>)
    requires |path| > 0
    ensures |r| == 2 * |path| - 1
  {
    var n := |path|;
    path + seq(n - 1, k requires 0 <= k < n - 1 => RotateAbout(path[n - 1], path[n - 2 - k]))
  }

  /** An unfolding of a path is unique: it is `Unfold(path)`. */
  lemma UnfoldingIsUnfold(path: seq<Point>, newPath: seq<Point>)
    requires |path| > 0 && IsUnfolding(path, newPath)
    ensures newPath == Unfold(path)
  {
    var u := Unfold(path);
    forall j | 0 <= j < |u|
      ensures newPath[j] == u[j]
    {
      if j < |path| {
        assert newPath[j] == newPath[..|path|][j];
      }
    }
  }

  /** The curve after `k` unfoldings of the unit segment (0,0)-(1,0). */
  function Unfolded(k: nat): (r: seq<Point>)
    ensures |r| == Pow2(k) + 1
  {
    if k == 0 then [Point(0, 0), Point(1, 0)]
    else
      assert Pow2(k) == 2 * Pow2(k - 1);
      Unfold(Unfolded(k - 1))
  }

  /** One unfolding: the path followed by its own reversal turned a quarter
      turn about the last point. */
  method IterateDragon(path: seq<Point>) returns (newPath: seq<Point>)
    ensures |path| == 0 ==> newPath == []
    ensures |path| > 0 ==> IsUnfolding(path, newPath)
  {
    newPath := path;
    if |path| == 0 {
      return;
    }
    var n := |path|;
    var pivot := path[n - 1];
    var i := n - 2;
    while i >= 0
      invariant -1 <= i <= n - 2
      invariant |newPath| == 2 * n - 2 - i
      invariant newPath[..n] == path
      invariant forall j :: n <= j < |newPath| ==> newPath[j] == RotateAbout(pivot, path[2 * n - 2 - j])
    {
      var dx := path[i].x - pivot.x;
      var dy := path[i].y - pivot.y;
      var rx := -dy;
      var ry := dx;
      newPath := newPath + [Point(pivot.x + rx, pivot.y + ry)];
      i := i - 1;
    }
  }

  /** The curve after `iters` unfoldings of the unit segment (0,0)-(1,0). */
  method GenerateDragonCurve(iters: nat) returns (path: seq<Point>)
    ensures path == Unfolded(iters)
    ensures |path| == Pow2(iters) + 1
    ensures path[0] == Point(0, 0) && path[1] == Point(1, 0)
    ensures iters >= 1 ==> |path| >= 3 && path[2] == Point(1, -1)
    ensures UnitSteps(path)
  {
    path := [Point(0, 0), Point(1, 0)];
    var i := 0;
    while i < iters
      invariant 0 <= i <= iters
      invariant path == Unfolded(i)
      invariant |path| == Pow2(i) + 1
      invariant path[0] == Point(0, 0) && path[1] == Point(1, 0)
      invariant i >= 1 ==> |path| >= 3 && path[2] == Point(1, -1)
      invariant UnitSteps(path)
    {
      var previous := path;
      path := IterateDragon(path);
      UnfoldingIsUnfold(previous, path);
      assert path == Unfolded(i + 1);
      UnfoldingKeepsSteps(previous, path);
      assert Pow2(i + 1) == 2 * Pow2(i);
      assert |path| == Pow2(i + 1) + 1 >= 3;
      assert path[..|previous|] == previous;
      assert path[0] == previous[0] && path[1] == previous[1];
      if i == 0 {
        assert |previous| == 2;
        assert path[2] == RotateAbout(previous[1], previous[2 * 2 - 2 - 2]);
      } else {
        assert path[2] == previous[2];
      }
      i := i + 1;
    }
  }

  /** A coordinate bound: the accumulators start at plus and minus Infinity. */
  datatype Bound = NegInf | Fin(v: int) | PosInf

  datatype Box = Box(minX: Bound, maxX: Bound, minY: Bound, maxY: Bound)

  function BoundMin(b: Bound, v: int): Bound {
    match b
    case Fin(w) => if v < w then Fin(v) else Fin(w)
    case _ => if b == PosInf then Fin(v) else NegInf
  }

  function BoundMax(b: Bound, v: int): Bound {
    match b
    case Fin(w) => if v > w then Fin(v) else Fin(w)
    case _ => if b == NegInf then Fin(v) else PosInf
  }

  /** The bounding box as a fold of Math.min / Math.max over the points. */
  function Bounds(pts: seq<Point>): Box {
    if pts == [] then Box(PosInf, NegInf, PosInf, NegInf)
    else
      var b := Bounds(pts[..|pts| - 1]);
      var p := pts[|pts| - 1];
      Box(BoundMin(b.minX, p.x), BoundMax(b.maxX, p.x), BoundMin(b.minY, p.y), BoundMax(b.maxY, p.y))
  }

  predicate Encloses(b: Box, pts: seq<Point>) {
    && b.minX.Fin? && b.maxX.Fin? && b.minY.Fin? && b.maxY.Fin?
    && (forall i :: 0 <= i < |pts| ==>
          b.minX.v <= pts[i].x <= b.maxX.v && b.minY.v <= pts[i].y <= b.maxY.v)
  }

  predicate Attained(b: Box, pts: seq<Point>)
    requires b.minX.Fin? && b.maxX.Fin? && b.minY.Fin? && b.maxY.Fin?
  {
    && (exists i :: 0 <= i < |pts| && pts[i].x == b.minX.v)
    && (exists i :: 0 <= i < |pts| && pts[i].x == b.maxX.v)
    && (exists i :: 0 <= i < |pts| && pts[i].y == b.minY.v)
    && (exists i :: 0 <= i < |pts| && pts[i].y == b.maxY.v)
  }

  /** For a non-empty list the box encloses every point and each of its four
      bounds is attained by some point; an empty list keeps the infinities. */
  lemma {:induction false} BoundsAreTight(pts: seq<Point>)
    ensures pts == [] ==> Bounds(pts) == Box(PosInf, NegInf, PosInf, NegInf)
    ensures pts != [] ==> Encloses(Bounds(pts), pts) && Attained(Bounds(pts), pts)
  {
    if |pts| > 1 {
      var init := pts[..|pts| - 1];
      var last := |pts| - 1;
      BoundsAreTight(init);
      var b := Bounds(init);
      var b' := Bounds(pts);
      forall i | 0 <= i < |pts|
        ensures b'.minX.v <= pts[i].x <= b'.maxX.v && b'.minY.v <= pts[i].y <= b'.maxY.v
      {
        if i < last { assert pts[i] == init[i]; }
      }
      var i1 :| 0 <= i1 < |init| && init[i1].x == b.minX.v;
      var i2 :| 0 <= i2 < |init| && init[i2].x == b.maxX.v;
      var i3 :| 0 <= i3 < |init| && init[i3].y == b.minY.v;
      var i4 :| 0 <= i4 < |init| && init[i4].y == b.maxY.v;
      assert pts[i1] == init[i1] && pts[i2] == init[i2] && pts[i3] == init[i3] && pts[i4] == init[i4];
      assert pts[last].x == b'.minX.v || pts[i1].x == b'.minX.v;
      assert pts[last].x == b'.maxX.v || pts[i2].x == b'.maxX.v;
      assert pts[last].y == b'.minY.v || pts[i3].y == b'.minY.v;
      assert pts[last].y == b'.maxY.v || pts[i4].y == b'.maxY.v;
    } else if |pts| == 1 {
      assert pts[..0] == [];
    }
  }

  /** The accumulator loop of the sketch version (`if (v.x < minX) minX = v.x`). */
  method Find2DMinMax(pts: seq<Point>) returns (box: Box)
    ensures box == Bounds(pts)
    ensures pts == [] ==> box == Box(PosInf, NegInf, PosInf, NegInf)
    ensures pts != [] ==> Encloses(box, pts) && Attained(box, pts)
  {
    var minX, maxX, minY, maxY := PosInf, NegInf, PosInf, NegInf;
    var k := 0;
    while k < |pts|
      invariant 0 <= k <= |pts|
      invariant Box(minX, maxX, minY, maxY) == Bounds(pts[..k])
    {
      var v := pts[k];
      assert pts[..k + 1][..k] == pts[..k] && pts[..k + 1][k] == v;
      ghost var next := Box(BoundMin(minX, v.x), BoundMax(maxX, v.x), BoundMin(minY, v.y), BoundMax(maxY, v.y));
      assert Bounds(pts[..k + 1]) == next;
      if minX == PosInf || (minX.Fin? && v.x < minX.v) { minX := Fin(v.x); }
      if maxX == NegInf || (maxX.Fin? && v.x > maxX.v) { maxX := Fin(v.x); }
      if minY == PosInf || (minY.Fin? && v.y < minY.v) { minY := Fin(v.y); }
      if maxY == NegInf || (maxY.Fin? && v.y > maxY.v) { maxY := Fin(v.y); }
      assert Box(minX, maxX, minY, maxY) == next;
      k := k + 1;
    }
    assert pts[..|pts|] == pts;
    box := Box(minX, maxX, minY, maxY);
    BoundsAreTight(pts);
  }
}

module DragonSphere {
  import opened Numeric
  import opened DragonCurve

  /** Polar angle `theta` and azimuth `phi` of a curve point wrapped onto the
      sphere; the conversion to Cartesian coordinates is trigonometry and is
      not modelled. */
  datatype SphereAngles = SphereAngles(theta: real, phi: real)

  datatype Segment = Segment(a: SphereAngles, b: SphereAngles)

  /** A box whose four bounds are finite and which has width and height. */
  predicate Spans(box: Box) {
    box.minX.Fin? && box.maxX.Fin? && box.minY.Fin? && box.maxY.Fin?
    && box.minX.v < box.maxX.v && box.minY.v < box.maxY.v
  }

  /** Normalise to [-1, 1] against the box, then to theta in [0, pi] from y and
      phi in [-pi, pi] from x. */
  function Wrap(p: Point, box: Box): SphereAngles
    requires Spans(box)
  {
    var x := MapLinear(p.x as real, box.minX.v as real, box.maxX.v as real, -1.0, 1.0);
    var y := MapLinear(p.y as real, box.minY.v as real, box.maxY.v as real, -1.0, 1.0);
    SphereAngles(MapLinear(y, -1.0, 1.0, 0.0, PI), MapLinear(x, -1.0, 1.0, -PI, PI))
  }

  predicate OnSphereChart(a: SphereAngles) {
    0.0 <= a.theta <= PI && -PI <= a.phi <= PI
  }

  /** A point inside the box lands inside the chart [0, pi] x [-pi, pi]. */
  lemma WrapStaysInChart(p: Point, box: Box)
    requires Spans(box)
    requires box.minX.v <= p.x <= box.maxX.v && box.minY.v <= p.y <= box.maxY.v
    ensures OnSphereChart(Wrap(p, box))
  {
  }

  /** The sketch's `setup` loop: one segment per consecutive pair of points. */
  method BuildSegments(curve: seq<Point>, box: Box) returns (segs: seq<Segment>)
    requires Spans(box)
    ensures |segs| == if |curve| == 0 then 0 else |curve| - 1
    ensures forall i :: 0 <= i < |segs| ==>
      segs[i] == Segment(Wrap(curve[i], box), Wrap(curve[i + 1], box))
    ensures forall i :: 0 <= i < |segs| - 1 ==> segs[i].b == segs[i + 1].a
    ensures Encloses(box, curve) ==>
      forall i :: 0 <= i < |segs| ==> OnSphereChart(segs[i].a) && OnSphereChart(segs[i].b)
  {
    segs := [];
    var i := 0;
    while i < |curve| - 1
      invariant 0 <= i <= if |curve| == 0 then 0 else |curve| - 1
      invariant |segs| == i
      invariant forall k :: 0 <= k < i ==> segs[k] == Segment(Wrap(curve[k], box), Wrap(curve[k + 1], box))
    {
      segs := segs + [Segment(Wrap(curve[i], box), Wrap(curve[i + 1], box))];
      i := i + 1;
    }
    forall k | 0 <= k < |segs| - 1
      ensures segs[k].b == segs[k + 1].a
    {
      assert segs[k + 1] == Segment(Wrap(curve[k + 1], box), Wrap(curve[k + 2], box));
    }
    if Encloses(box, curve) {
      forall k | 0 <= k < |segs|
        ensures OnSphereChart(segs[k].a) && OnSphereChart(segs[k].b)
      {
        WrapStaysInChart(curve[k], box);
        WrapStaysInChart(curve[k + 1], box);
      }
    }
  }

  /** The component's loop: both end points of every segment pushed, so a
      pair of points per consecutive pair of curve points. */
  method BuildLinePoints(curve: seq<Point>, box: Box) returns (linePoints: seq<SphereAngles>)
    requires Spans(box)
    ensures |linePoints| == if |curve| == 0 then 0 else 2 * (|curve| - 1)
    ensures forall i :: 0 <= i < |curve| - 1 ==>
      linePoints[2 * i] == Wrap(curve[i], box) && linePoints[2 * i + 1] == Wrap(curve[i + 1], box)
    ensures Encloses(box, curve) ==> forall i :: 0 <= i < |linePoints| ==> OnSphereChart(linePoints[i])
  {
    linePoints := [];
    var i := 0;
    while i < |curve| - 1
      invariant 0 <= i <= if |curve| == 0 then 0 else |curve| - 1
      invariant |linePoints| == 2 * i
      invariant forall k :: 0 <= k < i ==>
        linePoints[2 * k] == Wrap(curve[k], box) && linePoints[2 * k + 1] == Wrap(curve[k + 1], box)
    {
      linePoints := linePoints + [Wrap(curve[i], box), Wrap(curve[i + 1], box)];
      i := i + 1;
    }
    if Encloses(box, curve) {
      forall j | 0 <= j < |linePoints|
        ensures OnSphereChart(linePoints[j])
      {
        var k := j / 2;
        if j % 2 == 0 {
          assert linePoints[2 * k] == Wrap(curve[k], box);
          WrapStaysInChart(curve[k], box);
        } else {
          assert linePoints[2 * k + 1] == Wrap(curve[k + 1], box);
          WrapStaysInChart(curve[k + 1], box);
        }
      }
    }
  }

  /** After at least one unfolding the curve spans a box with width and height,
      so the normalisation never divides by zero. */
  lemma {:induction false} UnfoldedCurveSpans(curve: seq<Point>)
    requires |curve| >= 3 && curve[0] == Point(0, 0) && curve[1] == Point(1, 0) && curve[2] == Point(1, -1)
    ensures Spans(Bounds(curve))
  {
    BoundsAreTight(curve);
  }

  /** The sketch's `setup`: curve, box, then the segments (2^iterations of them). */
  method SetupDragonLines(iterations: nat) returns (segs: seq<Segment>)
    requires iterations >= 1
    ensures |segs| == Pow2(iterations)
    ensures forall i :: 0 <= i < |segs| ==> OnSphereChart(segs[i].a) && OnSphereChart(segs[i].b)
    ensures forall i :: 0 <= i < |segs| - 1 ==> segs[i].b == segs[i + 1].a
  {
    var dragon2D := GenerateDragonCurve(iterations);
    var box := Find2DMinMax(dragon2D);
    UnfoldedCurveSpans(dragon2D);
    segs := BuildSegments(dragon2D, box);
  }

  /** The component's `createDragonCurveOnSphere`: two points per segment. */
  method CreateDragonCurveOnSphere(iterations: nat) returns (linePoints: seq<SphereAngles>)
    requires iterations >= 1
    ensures |linePoints| == 2 * Pow2(iterations)
    ensures forall i :: 0 <= i < |linePoints| ==> OnSphereChart(linePoints[i])
  {
    var dragon2D := GenerateDragonCurve(iterations);
    var box := Find2DMinMax(dragon2D);
    UnfoldedCurveSpans(dragon2D);
    linePoints := BuildLinePoints(dragon2D, box);
  }
}
