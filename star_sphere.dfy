/** The golden star-polygon sphere drawn behind most pages: the index walk of
    the {sides/step} star polygon, the count of orbs placed on the sphere, the
    clamped range map used for the fog fade, and the linking of each orb to
    its nearest tie groups of neighbours. Positions themselves come from
    cos/sin and float distances and are inputs here. */
module StarSphere {
  import opened Wrappers
  import opened Numeric
  import opened Sorting

  const STAR_SIDES: nat := 7
  const STAR_STEP: nat := 2
  const RING_COUNT: nat := 10

  // ---------------------------------------------------------------------------
  // generateStarPolygon: the index walk

  /** Euclidean division is unique: a quotient and a remainder in [0, n)
      are `/` and `%`. */
  lemma DivModUnique(x: int, p: int, r: int, n: int)
    requires n > 0 && 0 <= r < n && x == p * n + r
    ensures x % n == r
  {
    var p', r' := x / n, x % n;
    assert x == p' * n + r';
    assert (p - p') * n == r' - r;
    MulBound(p - p', n);
  }

  /** A non-zero multiple of `n` is at least `n` away from 0. */
  lemma MulBound(c: int, n: int)
    requires n > 0
    ensures c >= 1 ==> c * n >= n
    ensures c <= -1 ==> c * n <= -n
  {
  }

  lemma ModAddStep(a: int, s: int, n: int)
    requires n > 0
    ensures (a % n + s) % n == (a + s) % n
  {
    var q, r := (a + s) / n, (a + s) % n;
    assert a + s == q * n + r;
    assert a % n + s == (q - a / n) * n + r;
    DivModUnique(a % n + s, q - a / n, r, n);
  }

  /** Walking `sides` steps always comes back to 0. */
  lemma FullTurn(n: int, s: int)
    requires n > 0
    ensures (n * s) % n == 0
  {
    DivModUnique(n * s, s, 0, n);
  }

  /** Two equal positions of the walk are a whole number of turns apart. */
  lemma EqualPositions(a: int, b: int, s: int, n: int)
    requires n > 0
    ensures (a * s) % n == (b * s) % n ==> ((b - a) * s) % n == 0
  {
    var qa, qb := (a * s) / n, (b * s) / n;
    assert a * s == qa * n + (a * s) % n;
    assert b * s == qb * n + (b * s) % n;
    if (a * s) % n == (b * s) % n {
      assert (b - a) * s == (qb - qa) * n;
      DivModUnique((b - a) * s, qb - qa, 0, n);
    }
  }

  /** What the walk produces: position k is k * step mod sides, and the walk
      stops at the first positive number of steps that is back at 0. */
  predicate IsStarWalk(sides: nat, step: nat, idx: seq<nat>)
    requires sides > 0
  {
    && |idx| >= 1
    && (forall k :: 0 <= k < |idx| ==> idx[k] == (k * step) % sides)
    && (|idx| * step) % sides == 0
    && (forall m :: 1 <= m < |idx| ==> (m * step) % sides != 0)
  }

  /** The `while (true)` loop of `generateStarPolygon`: push `current`, step,
      stop on returning to 0. With `sides == 0` the source's `% 0` is NaN and
      the loop never ends, so `sides > 0` is required. */
  method StarWalk(sides: nat, step: nat) returns (idx: seq<nat>)
    requires sides > 0
    ensures IsStarWalk(sides, step, idx)
  {
    idx := [];
    var current: nat := 0;
    while true
      invariant |idx| < sides
      invariant current == (|idx| * step) % sides
      invariant forall k :: 0 <= k < |idx| ==> idx[k] == (k * step) % sides
      invariant forall m :: 1 <= m <= |idx| ==> (m * step) % sides != 0
      decreases sides - |idx|
    {
      ModAddStep(|idx| * step, step, sides);
      assert |idx| * step + step == (|idx| + 1) * step;
      FullTurn(sides, step);
      idx := idx + [current];
      current := (current + step) % sides;
      if current == 0 {
        break;
      }
    }
  }

  /** Every index names a vertex of the polygon, no vertex is visited twice,
      and so the walk has at most `sides` points. */
  lemma {:induction false} StarWalkDistinct(sides: nat, step: nat, idx: seq<nat>)
    requires sides > 0 && IsStarWalk(sides, step, idx)
    ensures |idx| <= sides
    ensures forall k :: 0 <= k < |idx| ==> idx[k] < sides
    ensures forall a, b :: 0 <= a < b < |idx| ==> idx[a] != idx[b]
  {
    FullTurn(sides, step);
    forall a, b | 0 <= a < b < |idx|
      ensures idx[a] != idx[b]
    {
      EqualPositions(a, b, step, sides);
      assert 1 <= b - a < |idx|;
    }
  }

  /** The walk is determined by `sides` and `step`. */
  lemma {:induction false} StarWalkUnique(sides: nat, step: nat, x: seq<nat>, y: seq<nat>)
    requires sides > 0 && IsStarWalk(sides, step, x) && IsStarWalk(sides, step, y)
    ensures x == y
  {
    assert |x| == |y| by {
      assert (|x| * step) % sides == 0 && (|y| * step) % sides == 0;
    }
  }

  /** Euclid's greatest common divisor. */
  function Gcd(a: nat, b: nat): (g: nat)
    ensures a > 0 || b > 0 ==> g > 0
    decreases b
  {
    if b == 0 then a else Gcd(b, a % b)
  }

  /** A multiple of `c` minus a multiple of `c` is one too. */
  lemma MultipleCombination(x: int, y: int, q: int, c: int)
    requires c > 0 && x % c == 0 && y % c == 0
    ensures (x - q * y) % c == 0
  {
    assert x == (x / c) * c && y == (y / c) * c;
    assert x - q * y == (x / c - q * (y / c)) * c;
    DivModUnique(x - q * y, x / c - q * (y / c), 0, c);
  }

  /** `Gcd` divides both arguments and every common divisor divides it. */
  lemma {:induction false} GcdIsGreatest(a: nat, b: nat)
    requires a > 0 || b > 0
    ensures Gcd(a, b) > 0 && a % Gcd(a, b) == 0 && b % Gcd(a, b) == 0
    ensures forall c: nat :: c > 0 && a % c == 0 && b % c == 0 ==> Gcd(a, b) % c == 0
    decreases b
  {
    if b == 0 {
      DivModUnique(0, 0, 0, a);
      DivModUnique(a, 1, 0, a);
    } else {
      GcdIsGreatest(b, a % b);
      var g := Gcd(b, a % b);
      assert a % b == a - (a / b) * b;
      MultipleCombination(a % b, b, -(a / b), g);
      assert a % b - (-(a / b)) * b == a;
      forall c: nat | c > 0 && a % c == 0 && b % c == 0
        ensures g % c == 0
      {
        MultipleCombination(a, b, a / b, c);
      }
    }
  }

  /** The walk's length divides `sides`: otherwise the remainder would be a
      shorter positive number of steps back at 0. */
  lemma StarWalkDividesSides(sides: nat, step: nat, idx: seq<nat>)
    requires sides > 0 && IsStarWalk(sides, step, idx)
    ensures sides % |idx| == 0
  {
    var len := |idx|;
    var r := sides % len;
    assert sides == (sides / len) * len + r;
    FullTurn(sides, step);
    MultipleCombination(sides * step, len * step, sides / len, sides);
    assert sides * step - (sides / len) * (len * step) == r * step;
  }

  /** `sides / |walk|` divides `step`. */
  lemma StarWalkQuotient(sides: nat, step: nat, idx: seq<nat>)
    requires sides > 0 && IsStarWalk(sides, step, idx) && sides % |idx| == 0
    ensures sides / |idx| > 0 && step % (sides / |idx|) == 0
  {
    var len := |idx|;
    var d := sides / len;
    assert sides == d * len;
    var k := (len * step) / sides;
    assert len * step == k * sides;
    assert len * step == len * (k * d);
    assert step == k * d;
    DivModUnique(step, k, 0, d);
  }

  /** A positive number of steps that comes back to 0 is no shorter than
      the walk. */
  lemma StarWalkStopsBy(sides: nat, step: nat, idx: seq<nat>, q: nat)
    requires sides > 0 && IsStarWalk(sides, step, idx)
    requires q >= 1 && (q * step) % sides == 0
    ensures |idx| <= q
  {
  }

  lemma DivisorAtMost(g: nat, d: nat)
    requires g > 0 && d > 0 && g % d == 0
    ensures d <= g
  {
    assert g == (g / d) * d;
    MulBound(g / d, d);
  }

  lemma ProductOrder(q: nat, g: nat, d: nat, len: nat)
    requires g > 0 && q * g == d * len && d <= g
    ensures q <= len
  {
    assert d * len <= g * len;
  }

  /** `sides / g` steps of a multiple of `g` make whole turns. */
  lemma WholeTurns(sides: nat, step: nat, g: nat)
    requires sides > 0 && g > 0 && sides % g == 0 && step % g == 0
    ensures sides / g >= 1 && ((sides / g) * step) % sides == 0
  {
    var q := sides / g;
    assert sides == q * g;
    assert step == (step / g) * g;
    assert q * step == (step / g) * sides;
    DivModUnique(q * step, step / g, 0, sides);
  }

  /** The walk visits `sides / gcd(sides, step)` vertices: the first return
      to 0 comes after the smallest number of steps whose total is a
      multiple of `sides`. */
  lemma StarWalkLength(sides: nat, step: nat, idx: seq<nat>)
    requires sides > 0 && IsStarWalk(sides, step, idx)
    ensures |idx| == sides / Gcd(sides, step)
  {
    GcdIsGreatest(sides, step);
    var g := Gcd(sides, step);
    WholeTurns(sides, step, g);
    StarWalkStopsBy(sides, step, idx, sides / g);
    StarWalkDividesSides(sides, step, idx);
    StarWalkQuotient(sides, step, idx);
    LengthFromDivisors(sides, step, |idx|, g);
  }

  /** A length `len <= sides / g` for which `sides / len` divides both
      `sides` and `step` is `sides / g`, because `sides / len` is then at
      most the greatest common divisor `g`. */
  lemma LengthFromDivisors(sides: nat, step: nat, len: nat, g: nat)
    requires sides > 0 && g > 0 && sides % g == 0 && len >= 1 && len <= sides / g
    requires sides % len == 0 && step % (sides / len) == 0
    requires forall c: nat :: c > 0 && sides % c == 0 && step % c == 0 ==> g % c == 0
    ensures len == sides / g
  {
    var d := sides / len;
    DivideOut(sides, len);
    DivisorAtMost(g, d);
    assert sides == (sides / g) * g;
    ProductOrder(sides / g, g, d, len);
  }

  /** Dividing out an exact divisor leaves one too. */
  lemma DivideOut(a: nat, b: nat)
    requires b > 0 && a > 0 && a % b == 0
    ensures a / b > 0 && a == (a / b) * b && a % (a / b) == 0
  {
    DivModUnique(a, b, 0, a / b);
  }

  /** The sphere's star, {7/2}: all seven vertices, in the order 0 2 4 6 1 3 5. */
  lemma {:induction false} HeptagramWalk(idx: seq<nat>)
    requires IsStarWalk(STAR_SIDES, STAR_STEP, idx)
    ensures idx == [0, 2, 4, 6, 1, 3, 5]
  {
    var w: seq<nat> := [0, 2, 4, 6, 1, 3, 5];
    assert forall k :: 0 <= k < |w| ==> w[k] == (k * 2) % 7;
    assert forall m :: 1 <= m < 7 ==> (m * 2) % 7 != 0;
    assert IsStarWalk(STAR_SIDES, STAR_STEP, w);
    StarWalkUnique(STAR_SIDES, STAR_STEP, idx, w);
  }

  // ---------------------------------------------------------------------------
  // buildStarSphere: one orb per (ring, turn, star point)

  /** The orb at star point `point` rotated by `ring` steps about the x axis
      and `turn` steps about the z axis; its coordinates are trigonometry. */
  datatype OrbSlot = OrbSlot(ring: nat, turn: nat, point: nat)

  method BuildStarSphere(ringCount: nat, star: seq<nat>) returns (orbs: seq<OrbSlot>)
    ensures |orbs| == ringCount * ringCount * |star|
    ensures forall n :: 0 <= n < |orbs| ==>
      orbs[n].ring < ringCount && orbs[n].turn < ringCount && orbs[n].point < |star|
    ensures forall i, j, k :: 0 <= i < ringCount && 0 <= j < ringCount && 0 <= k < |star| ==>
      OrbSlot(i, j, k) in orbs
  {
    orbs := [];
    for i := 0 to ringCount
      invariant |orbs| == i * (ringCount * |star|)
      invariant forall n :: 0 <= n < |orbs| ==>
        orbs[n].ring < i && orbs[n].turn < ringCount && orbs[n].point < |star|
      invariant forall i', j, k :: 0 <= i' < i && 0 <= j < ringCount && 0 <= k < |star| ==>
        OrbSlot(i', j, k) in orbs
    {
      var ring := RingOrbs(i, ringCount, |star|);
      orbs := orbs + ring;
    }
    assert ringCount * (ringCount * |star|) == ringCount * ringCount * |star|;
  }

  /** The orbs of ring `i`: every turn of every star point. */
  method RingOrbs(i: nat, ringCount: nat, points: nat) returns (ring: seq<OrbSlot>)
    ensures |ring| == ringCount * points
    ensures forall n :: 0 <= n < |ring| ==>
      ring[n].ring == i && ring[n].turn < ringCount && ring[n].point < points
    ensures forall j, k :: 0 <= j < ringCount && 0 <= k < points ==> OrbSlot(i, j, k) in ring
  {
    ring := [];
    for j := 0 to ringCount
      invariant |ring| == j * points
      invariant forall n :: 0 <= n < |ring| ==>
        ring[n].ring == i && ring[n].turn < j && ring[n].point < points
      invariant forall j', k :: 0 <= j' < j && 0 <= k < points ==> OrbSlot(i, j', k) in ring
    {
      var turn := TurnOrbs(i, j, points);
      ring := ring + turn;
    }
  }

  /** The orbs of ring `i` and turn `j`: one per star point, in order. */
  method TurnOrbs(i: nat, j: nat, points: nat) returns (turn: seq<OrbSlot>)
    ensures |turn| == points
    ensures forall k :: 0 <= k < points ==> turn[k] == OrbSlot(i, j, k)
  {
    turn := [];
    for p := 0 to points
      invariant |turn| == p
      invariant forall k :: 0 <= k < p ==> turn[k] == OrbSlot(i, j, k)
    {
      turn := turn + [OrbSlot(i, j, p)];
    }
  }

  /** The sphere as the component builds it: 10 x 10 rotations of the
      seven-point star, 700 orbs. */
  method BuildDefaultStarSphere() returns (orbs: seq<OrbSlot>)
    ensures |orbs| == 700
  {
    var star := StarWalk(STAR_SIDES, STAR_STEP);
    HeptagramWalk(star);
    orbs := BuildStarSphere(RING_COUNT, star);
  }

  // ---------------------------------------------------------------------------
  // mapRange: a linear map with its parameter clamped to [0, 1]

  function Clamp01(q: real): (t: real)
    ensures 0.0 <= t <= 1.0
    ensures 0.0 <= q <= 1.0 ==> t == q
  {
    if q < 0.0 then 0.0 else if q > 1.0 then 1.0 else q
  }

  predicate Between(r: real, a: real, b: real) {
    if a <= b then a <= r <= b else b <= r <= a
  }

  /** `mapRange(value, inMin, inMax, outMin, outMax)`; the source divides by
      `inMax - inMin`, so the two must differ (the component always passes
      5 and 25). */
  function MapRange(value: real, inMin: real, inMax: real, outMin: real, outMax: real): (r: real)
    requires inMin != inMax
    ensures Between(r, outMin, outMax)
    ensures inMin < inMax && value <= inMin ==> r == outMin
    ensures inMin < inMax && value >= inMax ==> r == outMax
    ensures (inMin <= value <= inMax || inMax <= value <= inMin) ==>
      r == MapLinear(value, inMin, inMax, outMin, outMax)
  {
    var q := (value - inMin) / (inMax - inMin);
    var t := Clamp01(q);
    ScaleBetween(t, outMin, outMax);
    FractionBounds(value - inMin, inMax - inMin);
    FractionBounds(inMin - value, inMin - inMax);
    assert (inMin - value) / (inMin - inMax) == q;
    outMin + t * (outMax - outMin)
  }

  lemma ScaleBetween(t: real, a: real, b: real)
    requires 0.0 <= t <= 1.0
    ensures Between(a + t * (b - a), a, b)
  {
    if a <= b {
      var w := b - a;
      MulNonneg(t, w);
      MulNonneg(1.0 - t, w);
      assert (1.0 - t) * w == w - t * w;
    } else {
      var u := a - b;
      MulNonneg(t, u);
      MulNonneg(1.0 - t, u);
      assert (1.0 - t) * u == u - t * u;
      assert t * (b - a) == -(t * u);
    }
  }

  /** Where a quotient over a positive denominator falls. */
  lemma FractionBounds(n: real, d: real)
    requires d != 0.0
    ensures d > 0.0 && n <= 0.0 ==> n / d <= 0.0
    ensures d > 0.0 && n >= d ==> n / d >= 1.0
    ensures d > 0.0 && 0.0 <= n <= d ==> 0.0 <= n / d <= 1.0
  {
    var q := n / d;
    assert q * d == n;
    if d > 0.0 && 0.0 <= n <= d {
      UnitFraction(n, d);
    }
    if d > 0.0 && n <= 0.0 {
      SignOfProduct(q, d);
    }
    if d > 0.0 && n >= d {
      QuotientAtLeastOne(n, d);
    }
  }

  lemma QuotientAtLeastOne(n: real, d: real)
    requires d > 0.0 && n >= d
    ensures n / d >= 1.0
  {
    var r := n / d - 1.0;
    assert r * d == n - d;
    SignOfProduct(r, d);
  }

  lemma SignOfProduct(a: real, d: real)
    requires d > 0.0
    ensures a * d > 0.0 <==> a > 0.0
    ensures a * d < 0.0 <==> a < 0.0
  {
  }

  // ---------------------------------------------------------------------------
  // connectNearestNeighbors: tie groups and de-duplicated links

  /** Another orb's index and its distance from the orb being linked. */
  datatype Neighbour = Neighbour(index: nat, dist: real)

  /** Distances closer than this to a group's first distance are ties. */
  const TIE_TOLERANCE: real := 0.000000000001

  /** Only the first this many tie groups are linked. */
  const LINKED_GROUPS: nat := 5

  function Flatten<T>(gs: seq<seq<T>>): seq<T> {
    if gs == [] then [] else gs[0] + Flatten(gs[1..])
  }

  lemma {:induction false} FlattenAppend<T>(gs: seq<seq<T>>, g: seq<T>)
    ensures Flatten(gs + [g]) == Flatten(gs) + g
  {
    if gs == [] {
      assert gs + [g] == [g];
    } else {
      assert (gs + [g])[1..] == gs[1..] + [g];
      FlattenAppend(gs[1..], g);
    }
  }

  lemma {:induction false} FlattenSplit<T>(gs: seq<seq<T>>, m: nat)
    requires m <= |gs|
    ensures Flatten(gs) == Flatten(gs[..m]) + Flatten(gs[m..])
  {
    if m > 0 {
      FlattenSplit(gs[1..], m - 1);
      assert gs[1..][..m - 1] == gs[..m][1..];
      assert gs[1..][m - 1..] == gs[m..];
    } else {
      assert gs[m..] == gs;
    }
  }

  predicate WithinTie(a: Neighbour, first: Neighbour) {
    Abs(a.dist - first.dist) < TIE_TOLERANCE
  }

  /** Group `g + 1` was opened because its first distance is not a tie with
      group `g`'s first distance. */
  predicate OpensNewGroup(groups: seq<seq<Neighbour>>, g: nat) {
    g + 1 < |groups| && groups[g] != [] && groups[g + 1] != []
    && !WithinTie(groups[g + 1][0], groups[g][0])
  }

  /** `groups` cuts `ds` in order into non-empty runs, every member a tie with
      its run's first element, and each run starting where a tie breaks. */
  predicate IsTieGrouping(ds: seq<Neighbour>, groups: seq<seq<Neighbour>>) {
    && Flatten(groups) == ds
    && (forall g :: 0 <= g < |groups| ==> groups[g] != [])
    && (forall g, k :: 0 <= g < |groups| && 0 <= k < |groups[g]| ==> WithinTie(groups[g][k], groups[g][0]))
    && (forall g: nat :: g < |groups| - 1 ==> OpensNewGroup(groups, g))
  }

  /** The grouping loop. `None` stands for the TypeError the source raises
      when there is no other orb (`distances[0].dist` on an empty list). */
  method GroupByDistance(ds: seq<Neighbour>) returns (r: Option<seq<seq<Neighbour>>>)
    ensures r.None? <==> ds == []
    ensures r.Some? ==> IsTieGrouping(ds, r.value)
  {
    if ds == [] {
      return None;
    }
    var groups: seq<seq<Neighbour>> := [];
    var current := [ds[0]];
    var currentDist := ds[0].dist;
    for d := 1 to |ds|
      invariant Flatten(groups) + current == ds[..d]
      invariant current != [] && currentDist == current[0].dist
      invariant forall g :: 0 <= g < |groups| ==> groups[g] != []
      invariant forall g, k :: 0 <= g < |groups| && 0 <= k < |groups[g]| ==> WithinTie(groups[g][k], groups[g][0])
      invariant forall k :: 0 <= k < |current| ==> WithinTie(current[k], current[0])
      invariant forall g: nat :: g < |groups| - 1 ==> OpensNewGroup(groups, g)
      invariant groups != [] ==> !WithinTie(current[0], groups[|groups| - 1][0])
    {
      assert ds[..d + 1] == ds[..d] + [ds[d]];
      if Abs(ds[d].dist - currentDist) < TIE_TOLERANCE {
        current := current + [ds[d]];
      } else {
        FlattenAppend(groups, current);
        ghost var before := groups;
        groups := groups + [current];
        forall g: nat | g < |groups| - 1
          ensures OpensNewGroup(groups, g)
        {
          if g < |before| - 1 {
            assert OpensNewGroup(before, g);
          }
        }
        current := [ds[d]];
        currentDist := ds[d].dist;
      }
    }
    if |current| > 0 {
      FlattenAppend(groups, current);
      ghost var before := groups;
      groups := groups + [current];
      forall g: nat | g < |groups| - 1
        ensures OpensNewGroup(groups, g)
      {
        if g < |before| - 1 {
          assert OpensNewGroup(before, g);
        }
      }
    }
    assert ds[..|ds|] == ds;
    return Some(groups);
  }

  /** `j` is where the first tie run of `ds` ends. */
  predicate IsFirstBreak(ds: seq<Neighbour>, j: nat) {
    && 1 <= j <= |ds|
    && (forall k :: 1 <= k < j ==> WithinTie(ds[k], ds[0]))
    && (j == |ds| || !WithinTie(ds[j], ds[0]))
  }

  lemma FirstBreakUnique(ds: seq<Neighbour>, i: nat, j: nat)
    requires IsFirstBreak(ds, i) && IsFirstBreak(ds, j)
    ensures i == j
  {
  }

  lemma {:induction false} TieGroupingEmpty(ds: seq<Neighbour>, groups: seq<seq<Neighbour>>)
    requires IsTieGrouping(ds, groups)
    ensures groups == [] <==> ds == []
  {
    if groups != [] {
      assert ds == groups[0] + Flatten(groups[1..]);
      assert groups[0] != [];
    }
  }

  /** The first group of any tie grouping ends at the first break. */
  lemma {:induction false} TieGroupingHead(ds: seq<Neighbour>, groups: seq<seq<Neighbour>>)
    requires IsTieGrouping(ds, groups) && groups != []
    ensures IsFirstBreak(ds, |groups[0]|)
  {
    var a := groups[0];
    assert ds == a + Flatten(groups[1..]);
    assert a != [];
    forall k | 1 <= k < |a|
      ensures WithinTie(ds[k], ds[0])
    {
      assert WithinTie(a[k], a[0]);
    }
    if |groups| > 1 {
      assert OpensNewGroup(groups, 0);
      assert Flatten(groups[1..]) == groups[1] + Flatten(groups[2..]);
      assert ds[|a|] == groups[1][0];
    } else {
      assert groups[1..] == [];
    }
  }

  lemma {:induction false} TieGroupingTail(ds: seq<Neighbour>, groups: seq<seq<Neighbour>>)
    requires IsTieGrouping(ds, groups) && groups != []
    ensures |groups[0]| <= |ds| && ds[..|groups[0]|] == groups[0]
    ensures IsTieGrouping(ds[|groups[0]|..], groups[1..])
  {
    assert ds == groups[0] + Flatten(groups[1..]);
    var tail := groups[1..];
    forall g: nat | g < |tail| - 1
      ensures OpensNewGroup(tail, g)
    {
      assert OpensNewGroup(groups, g + 1);
    }
  }

  /** The tie grouping of a list is unique, so the loop computes the only
      possible answer. */
  lemma {:induction false} TieGroupingUnique(ds: seq<Neighbour>, x: seq<seq<Neighbour>>, y: seq<seq<Neighbour>>)
    requires IsTieGrouping(ds, x) && IsTieGrouping(ds, y)
    ensures x == y
    decreases |ds|
  {
    TieGroupingEmpty(ds, x);
    TieGroupingEmpty(ds, y);
    if ds != [] {
      TieGroupingHead(ds, x);
      TieGroupingHead(ds, y);
      FirstBreakUnique(ds, |x[0]|, |y[0]|);
      TieGroupingTail(ds, x);
      TieGroupingTail(ds, y);
      TieGroupingUnique(ds[|x[0]|..], x[1..], y[1..]);
      assert x == [x[0]] + x[1..] && y == [y[0]] + y[1..];
    }
  }

  /** The end of the tie run of `ds` that has no break before `j`. */
  function FirstRun(ds: seq<Neighbour>, j: nat): (r: nat)
    requires 1 <= j <= |ds|
    ensures j <= r <= |ds|
    ensures (forall k :: 1 <= k < j ==> WithinTie(ds[k], ds[0])) ==> IsFirstBreak(ds, r)
    decreases |ds| - j
  {
    if j == |ds| || !WithinTie(ds[j], ds[0]) then j else FirstRun(ds, j + 1)
  }

  /** The tie grouping of `ds`, run by run. */
  ghost function TieGroups(ds: seq<Neighbour>): seq<seq<Neighbour>>
    decreases |ds|
  {
    if ds == [] then []
    else
      var j := FirstRun(ds, 1);
      [ds[..j]] + TieGroups(ds[j..])
  }

  /** `TieGroups` is a tie grouping, so by uniqueness it is what the grouping
      loop returns. */
  lemma {:induction false} TieGroupsIsGrouping(ds: seq<Neighbour>)
    ensures IsTieGrouping(ds, TieGroups(ds))
    decreases |ds|
  {
    if ds != [] {
      var j := FirstRun(ds, 1);
      var head := ds[..j];
      var rest := TieGroups(ds[j..]);
      var gs := TieGroups(ds);
      TieGroupsIsGrouping(ds[j..]);
      assert gs == [head] + rest;
      assert gs[1..] == rest;
      assert Flatten(gs) == head + Flatten(rest);
      assert ds == head + ds[j..];
      forall g, k | 0 <= g < |gs| && 0 <= k < |gs[g]|
        ensures WithinTie(gs[g][k], gs[g][0])
      {
        if g == 0 {
          assert gs[0][k] == ds[k] && gs[0][0] == ds[0];
        } else {
          assert gs[g] == rest[g - 1];
        }
      }
      forall g: nat | g < |gs| - 1
        ensures OpensNewGroup(gs, g)
      {
        if g == 0 {
          TieGroupingEmpty(ds[j..], rest);
          var j2 := FirstRun(ds[j..], 1);
          assert rest[0] == ds[j..][..j2];
          assert gs[1][0] == ds[j];
        } else {
          assert OpensNewGroup(rest, g - 1);
        }
      }
    }
  }

  /** The unordered-pair key `min-max` of the source's `connections` set. The
      source writes it as the string `${lo}-${hi}`, which is one-to-one on
      pairs of non-negative integers. */
  function PairKey(i: nat, j: nat): (k: (nat, nat))
    ensures k.0 <= k.1
    ensures {k.0, k.1} == {i, j}
  {
    if i < j then (i, j) else (j, i)
  }

  predicate NoDuplicates<T(==)>(s: seq<T>) {
    forall a, b :: 0 <= a < b < |s| ==> s[a] != s[b]
  }

  function Min(a: nat, b: nat): nat {
    if a < b then a else b
  }

  /** The keys of `i`'s links to the neighbours `nbs`. */
  ghost function KeysTo(i: nat, nbs: seq<Neighbour>): set<(nat, nat)> {
    set m | 0 <= m < |nbs| :: PairKey(i, nbs[m].index)
  }

  lemma KeysToAppend(i: nat, nbs: seq<Neighbour>, more: seq<Neighbour>)
    ensures KeysTo(i, nbs + more) == KeysTo(i, nbs) + KeysTo(i, more)
  {
    var all := nbs + more;
    forall key | key in KeysTo(i, all)
      ensures key in KeysTo(i, nbs) + KeysTo(i, more)
    {
      var m :| 0 <= m < |all| && key == PairKey(i, all[m].index);
      if m >= |nbs| {
        assert all[m] == more[m - |nbs|];
      }
    }
    forall key | key in KeysTo(i, more)
      ensures key in KeysTo(i, all)
    {
      var m :| 0 <= m < |more| && key == PairKey(i, more[m].index);
      assert all[|nbs| + m] == more[m];
    }
    forall key | key in KeysTo(i, nbs)
      ensures key in KeysTo(i, all)
    {
      var m :| 0 <= m < |nbs| && key == PairKey(i, nbs[m].index);
      assert all[m] == nbs[m];
    }
  }

  lemma KeysToSingle(i: nat, nb: Neighbour)
    ensures KeysTo(i, [nb]) == {PairKey(i, nb.index)}
  {
    assert [nb][0] == nb;
  }

  /** Every entry is another orb among the first `n`. */
  ghost predicate OthersBelow(i: nat, n: nat, nbs: seq<Neighbour>) {
    forall m :: 0 <= m < |nbs| ==> nbs[m].index != i && nbs[m].index < n
  }

  lemma KeysToBounded(i: nat, n: nat, nbs: seq<Neighbour>)
    requires i < n && OthersBelow(i, n, nbs)
    ensures forall key :: key in KeysTo(i, nbs) ==> key.0 < key.1 < n
  {
  }

  /** The `connections` set and the lines added to the `edges` group. */
  class Web {
    var connections: set<(nat, nat)>
    var lines: seq<(nat, nat)>

    /** Each unordered pair has at most one line, and a pair is in the set
        exactly when its line was drawn. */
    ghost predicate Valid()
      reads this
    {
      NoDuplicates(lines) && (forall l :: l in lines <==> l in connections)
    }

    constructor ()
      ensures Valid() && connections == {} && lines == []
    {
      connections := {};
      lines := [];
    }

    /** Link orb `i` to one neighbour, unless that pair is already linked. */
    method Link(i: nat, nb: Neighbour)
      requires Valid()
      modifies this
      ensures Valid()
      ensures connections == old(connections) + {PairKey(i, nb.index)}
      ensures lines == old(lines) + (if PairKey(i, nb.index) in old(connections) then [] else [PairKey(i, nb.index)])
    {
      var key := PairKey(i, nb.index);
      if key !in connections {
        connections := connections + {key};
        lines := lines + [key];
      }
    }

    /** The loop over the first min(5, #groups) groups for orb `i`. (The
        source's comment says six groups; the bound is 5.) */
    method LinkGroups(i: nat, groups: seq<seq<Neighbour>>)
      requires Valid()
      modifies this
      ensures Valid()
      ensures connections == old(connections) + KeysTo(i, Flatten(groups[..Min(LINKED_GROUPS, |groups|)]))
      ensures |lines| >= |old(lines)| && lines[..|old(lines)|] == old(lines)
    {
      var limit := Min(LINKED_GROUPS, |groups|);
      ghost var lines0 := lines;
      ghost var connections0 := connections;
      for g := 0 to limit
        invariant Valid()
        invariant connections == connections0 + KeysTo(i, Flatten(groups[..g]))
        invariant |lines| >= |lines0| && lines[..|lines0|] == lines0
      {
        var group := groups[g];
        assert Flatten(groups[..g]) + group[..0] == Flatten(groups[..g]);
        for k := 0 to |group|
          invariant Valid()
          invariant connections == connections0 + KeysTo(i, Flatten(groups[..g]) + group[..k])
          invariant |lines| >= |lines0| && lines[..|lines0|] == lines0
        {
          KeysToAppend(i, Flatten(groups[..g]) + group[..k], [group[k]]);
          assert Flatten(groups[..g]) + group[..k + 1] == Flatten(groups[..g]) + group[..k] + [group[k]];
          KeysToSingle(i, group[k]);
          Link(i, group[k]);
        }
        assert groups[..g + 1] == groups[..g] + [group];
        FlattenAppend(groups[..g], group);
        assert group[..|group|] == group;
      }
    }

    /** One pass of the outer loop: orb `i`'s neighbours sorted by distance,
        grouped by ties, and the first groups linked. `false` is the
        TypeError of an orb with no neighbour. */
    method LinkOrb(i: nat, n: nat, dist: (nat, nat) -> real) returns (ok: bool)
      requires Valid() && i < n
      modifies this
      ensures Valid()
      ensures ok <==> n != 1
      ensures ok ==> connections == old(connections) + KeysTo(i, NearestOf(i, n, dist))
      ensures ok ==> forall key :: key in KeysTo(i, NearestOf(i, n, dist)) ==> key.0 < key.1 < n
    {
      var distances := NeighbourList(i, n, dist);
      var sorted := SortBy(distances, ByDist);
      SortedNeighbours(i, n, distances, sorted);
      assert |sorted| == |multiset(sorted)| == |distances|;
      var grouped := GroupByDistance(sorted);
      if grouped.None? {
        return false;
      }
      var groups := grouped.value;
      TieGroupsIsGrouping(sorted);
      TieGroupingUnique(sorted, groups, TieGroups(sorted));
      assert Flatten(groups[..Min(LINKED_GROUPS, |groups|)]) == NearestOf(i, n, dist);
      LinkedNeighbours(i, n, groups, Min(LINKED_GROUPS, |groups|));
      KeysToBounded(i, n, NearestOf(i, n, dist));
      LinkGroups(i, groups);
      return true;
    }

    /** `connectNearestNeighbors` over `n` orbs whose pairwise distances are
        `dist`. `false` stands for the TypeError of a single orb, which has no
        neighbour; otherwise the linked pairs are `Links(n, n, dist)` and
        every line joins two different orbs. */
    method ConnectNearestNeighbors(n: nat, dist: (nat, nat) -> real) returns (ok: bool)
      requires Valid() && connections == {}
      modifies this
      ensures Valid()
      ensures ok <==> n != 1
      ensures ok ==> connections == Links(n, n, dist)
      ensures ok ==> forall l :: l in lines ==> l.0 < l.1 < n
    {
      for i := 0 to n
        invariant Valid()
        invariant connections == Links(i, n, dist)
        invariant forall l :: l in connections ==> l.0 < l.1 < n
      {
        var linked := LinkOrb(i, n, dist);
        if !linked {
          return false;
        }
        assert OrbKeys(n, dist)(i) == KeysTo(i, NearestOf(i, n, dist));
      }
      return n != 1;
    }
  }

  lemma SortedNeighbours(i: nat, n: nat, distances: seq<Neighbour>, sorted: seq<Neighbour>)
    requires OthersBelow(i, n, distances) && multiset(sorted) == multiset(distances)
    ensures OthersBelow(i, n, sorted)
  {
    forall m | 0 <= m < |sorted|
      ensures sorted[m].index != i && sorted[m].index < n
    {
      assert sorted[m] in multiset(distances);
    }
  }

  lemma LinkedNeighbours(i: nat, n: nat, groups: seq<seq<Neighbour>>, limit: nat)
    requires limit <= |groups| && OthersBelow(i, n, Flatten(groups))
    ensures OthersBelow(i, n, Flatten(groups[..limit]))
  {
    FlattenSplit(groups, limit);
    var head := Flatten(groups[..limit]);
    forall m | 0 <= m < |head|
      ensures head[m].index != i && head[m].index < n
    {
      assert head[m] == Flatten(groups)[m];
    }
  }

  function ByDist(nb: Neighbour): real {
    nb.dist
  }

  /** Orb `i`'s neighbours among the first `n`, in index order. */
  function Neighbours(i: nat, n: nat, dist: (nat, nat) -> real): seq<Neighbour>
    requires i < n
  {
    seq(n - 1, m requires 0 <= m < n - 1 => Neighbour(if m < i then m else m + 1, dist(i, if m < i then m else m + 1)))
  }

  /** The neighbours orb `i` links to: the first `LINKED_GROUPS` tie groups
      of its neighbours sorted by distance. */
  ghost function NearestOf(i: nat, n: nat, dist: (nat, nat) -> real): seq<Neighbour>
    requires i < n
  {
    var gs := TieGroups(SortBy(Neighbours(i, n, dist), ByDist));
    Flatten(gs[..Min(LINKED_GROUPS, |gs|)])
  }

  /** The keys orb `i` links to its nearest neighbours. */
  ghost function OrbKeys(n: nat, dist: (nat, nat) -> real): nat -> set<(nat, nat)> {
    (i: nat) => if i < n then KeysTo(i, NearestOf(i, n, dist)) else {}
  }

  /** The union of `f(0) .. f(k - 1)`. */
  ghost function UnionBelow<T>(k: nat, f: nat -> set<T>): set<T> {
    if k == 0 then {} else UnionBelow(k - 1, f) + f(k - 1)
  }

  lemma {:induction false} UnionBelowInclude<T>(i: nat, k: nat, f: nat -> set<T>)
    requires i < k
    ensures f(i) <= UnionBelow(k, f)
  {
    if i < k - 1 {
      UnionBelowInclude(i, k - 1, f);
    }
  }

  /** The pair keys linked once orbs `0 .. k - 1` have been processed. */
  ghost function Links(k: nat, n: nat, dist: (nat, nat) -> real): set<(nat, nat)>
    requires k <= n
  {
    UnionBelow(k, OrbKeys(n, dist))
  }

  lemma LinksInclude(i: nat, k: nat, n: nat, dist: (nat, nat) -> real)
    requires i < k <= n
    ensures KeysTo(i, NearestOf(i, n, dist)) <= Links(k, n, dist)
  {
    UnionBelowInclude(i, k, OrbKeys(n, dist));
    assert OrbKeys(n, dist)(i) == KeysTo(i, NearestOf(i, n, dist));
  }

  /** In a sorted list whose entry `p` holds the smallest distance, entries
      `0 .. p` all tie with the first. */
  lemma SmallestRun(sorted: seq<Neighbour>, p: nat)
    requires SortedBy(sorted, ByDist) && p < |sorted|
    requires forall k :: 0 <= k < |sorted| ==> sorted[p].dist <= sorted[k].dist
    ensures forall k :: 1 <= k <= p ==> WithinTie(sorted[k], sorted[0])
  {
    forall k | 1 <= k <= p
      ensures WithinTie(sorted[k], sorted[0])
    {
      assert ByDist(sorted[0]) <= ByDist(sorted[k]) <= ByDist(sorted[p]);
    }
  }

  /** Entry `p` of `ds` before its first tie break is linked. */
  lemma FirstRunLinked(i: nat, ds: seq<Neighbour>, p: nat)
    requires p < |ds| && forall k :: 1 <= k <= p ==> WithinTie(ds[k], ds[0])
    ensures var gs := TieGroups(ds);
      PairKey(i, ds[p].index) in KeysTo(i, Flatten(gs[..Min(LINKED_GROUPS, |gs|)]))
  {
    var gs := TieGroups(ds);
    var r := FirstRun(ds, 1);
    assert gs[0] == ds[..r];
    assert p < r;
    var limit := Min(LINKED_GROUPS, |gs|);
    assert gs[..limit] == [gs[0]] + gs[1..limit];
    assert Flatten(gs[..limit]) == gs[0] + Flatten(gs[1..limit]);
    assert Flatten(gs[..limit])[p] == ds[p];
  }

  /** A smallest entry of `ds` keeps its place among the smallest after any
      permutation. */
  lemma SmallestAfterPermutation(ds: seq<Neighbour>, sorted: seq<Neighbour>, e: Neighbour) returns (p: nat)
    requires multiset(sorted) == multiset(ds) && e in ds
    requires forall k :: 0 <= k < |ds| ==> e.dist <= ds[k].dist
    ensures p < |sorted| && sorted[p] == e
    ensures forall k :: 0 <= k < |sorted| ==> e.dist <= sorted[k].dist
  {
    assert e in multiset(sorted);
    p :| 0 <= p < |sorted| && sorted[p] == e;
    forall k | 0 <= k < |sorted|
      ensures e.dist <= sorted[k].dist
    {
      assert sorted[k] in multiset(ds);
    }
  }

  /** The entry for orb `j` in `i`'s sorted neighbour list holds the
      smallest distance when `j` is nearest to `i`. */
  lemma NearestPosition(i: nat, j: nat, n: nat, dist: (nat, nat) -> real) returns (p: nat)
    requires i < n && j < n && i != j
    requires forall m: nat :: m < n && m != i ==> dist(i, j) <= dist(i, m)
    ensures var sorted := SortBy(Neighbours(i, n, dist), ByDist);
      && p < |sorted| && sorted[p].index == j
      && forall k :: 0 <= k < |sorted| ==> sorted[p].dist <= sorted[k].dist
  {
    var ds := Neighbours(i, n, dist);
    var e := Neighbour(j, dist(i, j));
    assert ds[if j < i then j else j - 1] == e;
    forall k | 0 <= k < |ds|
      ensures e.dist <= ds[k].dist
    {
      var m: nat := if k < i then k else k + 1;
      assert ds[k] == Neighbour(m, dist(i, m));
    }
    p := SmallestAfterPermutation(ds, SortBy(ds, ByDist), e);
  }

  /** Every orb is linked to each orb at its smallest distance: those form
      (part of) its first tie group, which is always linked. */
  lemma NearestIsLinked(i: nat, j: nat, n: nat, dist: (nat, nat) -> real)
    requires i < n && j < n && i != j
    requires forall m: nat :: m < n && m != i ==> dist(i, j) <= dist(i, m)
    ensures PairKey(i, j) in Links(n, n, dist)
  {
    var sorted := SortBy(Neighbours(i, n, dist), ByDist);
    var p := NearestPosition(i, j, n, dist);
    SortByIsSorted(Neighbours(i, n, dist), ByDist);
    SmallestRun(sorted, p);
    FirstRunLinked(i, sorted, p);
    LinksInclude(i, n, n, dist);
  }

  /** The distances from orb `i` to every other orb, in index order. */
  method NeighbourList(i: nat, n: nat, dist: (nat, nat) -> real) returns (distances: seq<Neighbour>)
    requires i < n
    ensures distances == Neighbours(i, n, dist)
    ensures |distances| == n - 1
    ensures OthersBelow(i, n, distances)
    ensures forall m :: 0 <= m < |distances| ==>
      distances[m] == Neighbour(if m < i then m else m + 1, dist(i, if m < i then m else m + 1))
  {
    distances := [];
    for j := 0 to n
      invariant |distances| == if j <= i then j else j - 1
      invariant forall m :: 0 <= m < |distances| ==>
        distances[m] == Neighbour(if m < i then m else m + 1, dist(i, if m < i then m else m + 1))
    {
      if i == j {
        continue;
      }
      distances := distances + [Neighbour(j, dist(i, j))];
    }
  }
}
