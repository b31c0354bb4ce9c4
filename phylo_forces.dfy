/** The force-directed layout step of the phylogenetic-sphere sketches, on
    values: pairwise repulsion and edge springs as transfers that take from one
    node exactly what they give the other, the damped Euler update with the
    root pinned, and the constraint that keeps leaves on the sphere and
    internal nodes inside it. */
module PhyloForces {
  import opened Numeric
  import opened Vectors
  import opened PhyloTree

  const SPRING_REST_LEN: real := 40.0
  const SPRING_STRENGTH: real := 0.01
  const REPULSION_STRENGTH: real := 4000.0
  const DAMPING: real := 0.9
  const TIME_STEP: real := 0.2
  /** Added to the squared distance before repulsion divides by it. */
  const REPULSION_SOFTENING: real := 0.0001
  /** Added to the spring length before it is divided by. */
  const SPRING_SOFTENING: real := 0.00001
  /** Below this radius a leaf counts as collapsed onto the centre. */
  const COLLAPSE_RADIUS: real := 0.0001

  // ---------------------------------------------------------------------------
  // Accumulating forces: every contribution is a transfer

  /** `f[from] -= v; f[to] += v`, one line of the pair loops per axis. */
  datatype Transfer = Transfer(from: nat, to: nat, v: Vec)

  predicate InRange(ts: seq<Transfer>, n: nat) {
    forall k :: 0 <= k < |ts| ==> ts[k].from < n && ts[k].to < n
  }

  lemma InRangeConcat(a: seq<Transfer>, b: seq<Transfer>, n: nat)
    requires InRange(a, n) && InRange(b, n)
    ensures InRange(a + b, n)
  {
    forall k | 0 <= k < |a + b|
      ensures (a + b)[k].from < n && (a + b)[k].to < n
    {
      if k >= |a| {
        assert (a + b)[k] == b[k - |a|];
      }
    }
  }

  function Exchange(f: seq<Vec>, t: Transfer): (g: seq<Vec>)
    requires t.from < |f| && t.to < |f|
    ensures |g| == |f|
  {
    var f1 := f[t.from := Sub(f[t.from], t.v)];
    f1[t.to := Add(f1[t.to], t.v)]
  }

  /** The transfers applied in order. */
  function Apply(f: seq<Vec>, ts: seq<Transfer>): (g: seq<Vec>)
    requires InRange(ts, |f|)
    ensures |g| == |f|
  {
    if ts == [] then f
    else
      assert InRange(ts[..|ts| - 1], |f|);
      Exchange(Apply(f, ts[..|ts| - 1]), ts[|ts| - 1])
  }

  lemma ApplySnoc(f: seq<Vec>, ts: seq<Transfer>, t: Transfer)
    requires InRange(ts, |f|) && t.from < |f| && t.to < |f|
    ensures InRange(ts + [t], |f|)
    ensures Apply(f, ts + [t]) == Exchange(Apply(f, ts), t)
  {
    InRangeConcat(ts, [t], |f|);
    assert (ts + [t])[..|ts|] == ts;
  }

  lemma {:induction false} ApplyConcat(f: seq<Vec>, a: seq<Transfer>, b: seq<Transfer>)
    requires InRange(a, |f|) && InRange(b, |f|)
    ensures InRange(a + b, |f|)
    ensures Apply(f, a + b) == Apply(Apply(f, a), b)
    decreases |b|
  {
    InRangeConcat(a, b, |f|);
    if b == [] {
      assert a + b == a;
    } else {
      var b' := b[..|b| - 1];
      assert InRange(b', |f|);
      ApplyConcat(f, a, b');
      assert a + b == (a + b') + [b[|b| - 1]];
      ApplySnoc(f, a + b', b[|b| - 1]);
      ApplySnoc(Apply(f, a), b', b[|b| - 1]);
      assert b' + [b[|b| - 1]] == b;
    }
  }

  /** The sum of a sequence of vectors. */
  function Total(f: seq<Vec>): Vec {
    if f == [] then Zero else Add(Total(f[..|f| - 1]), f[|f| - 1])
  }

  lemma {:induction false} TotalUpdate(f: seq<Vec>, k: nat, v: Vec)
    requires k < |f|
    ensures Total(f[k := v]) == Add(Sub(Total(f), f[k]), v)
  {
    var n := |f|;
    if k == n - 1 {
      assert f[k := v][..n - 1] == f[..n - 1];
    } else {
      TotalUpdate(f[..n - 1], k, v);
      assert f[k := v][..n - 1] == f[..n - 1][k := v];
    }
  }

  /** A transfer takes `v` from one entry and gives it to the other. */
  lemma ExchangeMoves(f: seq<Vec>, t: Transfer)
    requires t.from < |f| && t.to < |f| && t.from != t.to
    ensures Exchange(f, t)[t.from] == Sub(f[t.from], t.v)
    ensures Exchange(f, t)[t.to] == Add(f[t.to], t.v)
    ensures forall k :: 0 <= k < |f| && k != t.from && k != t.to ==> Exchange(f, t)[k] == f[k]
  {
  }

  /** What one entry loses the other gains, so the total stays (also when
      both ends are the same node). */
  lemma ExchangeConserves(f: seq<Vec>, t: Transfer)
    requires t.from < |f| && t.to < |f|
    ensures Total(Exchange(f, t)) == Total(f)
  {
    var a := Sub(f[t.from], t.v);
    var f1 := f[t.from := a];
    TotalUpdate(f, t.from, a);
    TotalUpdate(f1, t.to, Add(f1[t.to], t.v));
    TakeThenGive(Total(f), f[t.from], f1[t.to], t.v);
  }

  lemma TakeThenGive(total: Vec, x: Vec, y: Vec, v: Vec)
    ensures Add(Sub(Add(Sub(total, x), Sub(x, v)), y), Add(y, v)) == total
  {
  }

  /** However many transfers are applied, the total force stays what it was. */
  lemma {:induction false} ApplyConserves(f: seq<Vec>, ts: seq<Transfer>)
    requires InRange(ts, |f|)
    ensures Total(Apply(f, ts)) == Total(f)
  {
    if ts != [] {
      assert InRange(ts[..|ts| - 1], |f|);
      ApplyConserves(f, ts[..|ts| - 1]);
      ExchangeConserves(Apply(f, ts[..|ts| - 1]), ts[|ts| - 1]);
    }
  }

  /** `new Array(nCount).fill(0)` for the three axes. */
  function Zeros(n: nat): (f: seq<Vec>)
    ensures |f| == n
  {
    seq(n, _ => Zero)
  }

  lemma {:induction false} TotalZeros(n: nat)
    ensures Total(Zeros(n)) == Zero
  {
    if n > 0 {
      TotalZeros(n - 1);
      assert Zeros(n)[..n - 1] == Zeros(n - 1);
    }
  }

  // ---------------------------------------------------------------------------
  // The two kinds of force

  /** The repulsion between nodes at `a` and `b`: `rep * (dx/dist, ...)`,
      which the node at `b` gains and the one at `a` loses. */
  function Repulsion(a: Vec, b: Vec, sqrt: real -> real): Vec
    requires IsSqrt(sqrt)
  {
    var d := Sub(b, a);
    var distSq := NormSq(d) + REPULSION_SOFTENING;
    NormSqNonneg(d);
    SqrtPositive(sqrt, distSq);
    var dist := sqrt(distSq);
    var rep := REPULSION_STRENGTH / distSq;
    Vec(rep * (d.x / dist), rep * (d.y / dist), rep * (d.z / dist))
  }

  /** The spring along an edge: `force * (dx/dist, ...)`, which the node at
      `a` gains and the one at `b` loses. */
  function Spring(a: Vec, b: Vec, sqrt: real -> real): Vec
    requires IsSqrt(sqrt)
  {
    var d := Sub(b, a);
    NormSqNonneg(d);
    var dist := sqrt(NormSq(d)) + SPRING_SOFTENING;
    var force := SPRING_STRENGTH * (dist - SPRING_REST_LEN);
    Vec(force * (d.x / dist), force * (d.y / dist), force * (d.z / dist))
  }

  function Neg(v: Vec): Vec {
    Vec(-v.x, -v.y, -v.z)
  }

  /** A vector `c * (dx/q, dy/q, dz/q)` points along `d` when `c / q` is
      non-negative and against it when non-positive. */
  lemma AlongDirection(d: Vec, c: real, q: real)
    requires q > 0.0
    ensures var u := Vec(c * (d.x / q), c * (d.y / q), c * (d.z / q));
      && (c >= 0.0 ==> Dot(u, d) >= 0.0)
      && (c <= 0.0 ==> Dot(u, d) <= 0.0)
  {
    var s := c / q;
    assert c * (d.x / q) == s * d.x && c * (d.y / q) == s * d.y && c * (d.z / q) == s * d.z;
    var u := Vec(s * d.x, s * d.y, s * d.z);
    assert Dot(u, d) == s * NormSq(d);
    NormSqNonneg(d);
    if c >= 0.0 {
      MulNonneg(s, NormSq(d));
    } else {
      MulNonneg(-s, NormSq(d));
    }
  }

  /** Repulsion pushes the node at `b` away from the one at `a`. */
  lemma RepulsionPushesApart(a: Vec, b: Vec, sqrt: real -> real)
    requires IsSqrt(sqrt)
    ensures Dot(Repulsion(a, b, sqrt), Sub(b, a)) >= 0.0
  {
    var d := Sub(b, a);
    var distSq := NormSq(d) + REPULSION_SOFTENING;
    NormSqNonneg(d);
    SqrtPositive(sqrt, distSq);
    AlongDirection(d, REPULSION_STRENGTH / distSq, sqrt(distSq));
  }

  /** A spring longer than its rest length pulls the node at `a` towards
      the one at `b`; a shorter one pushes it away. */
  lemma SpringTowardsRest(a: Vec, b: Vec, sqrt: real -> real)
    requires IsSqrt(sqrt)
    ensures var dist := sqrt(NormSq(Sub(b, a))) + SPRING_SOFTENING;
      && (dist >= SPRING_REST_LEN ==> Dot(Spring(a, b, sqrt), Sub(b, a)) >= 0.0)
      && (dist <= SPRING_REST_LEN ==> Dot(Spring(a, b, sqrt), Sub(b, a)) <= 0.0)
  {
    var d := Sub(b, a);
    NormSqNonneg(d);
    var dist := sqrt(NormSq(d)) + SPRING_SOFTENING;
    AlongDirection(d, SPRING_STRENGTH * (dist - SPRING_REST_LEN), dist);
  }

  // ---------------------------------------------------------------------------
  // The transfers of the two pair loops, in loop order

  /** Row `i` of the repulsion loop, for `j` from `i + 1` to `i + m`. */
  function RepulsionRow(nodes: seq<Node>, i: nat, m: nat, sqrt: real -> real): (ts: seq<Transfer>)
    requires IsSqrt(sqrt) && i + m < |nodes|
    ensures |ts| == m && InRange(ts, |nodes|)
  {
    if m == 0 then []
    else
      var ts := RepulsionRow(nodes, i, m - 1, sqrt);
      var t := Transfer(i, i + m, Repulsion(nodes[i].pos, nodes[i + m].pos, sqrt));
      InRangeConcat(ts, [t], |nodes|);
      ts + [t]
  }

  /** The first `i` rows of the repulsion loop. */
  function RepulsionRows(nodes: seq<Node>, i: nat, sqrt: real -> real): (ts: seq<Transfer>)
    requires IsSqrt(sqrt) && i <= |nodes|
    ensures InRange(ts, |nodes|)
  {
    if i == 0 then []
    else
      var ts := RepulsionRows(nodes, i - 1, sqrt);
      var row := RepulsionRow(nodes, i - 1, |nodes| - i, sqrt);
      InRangeConcat(ts, row, |nodes|);
      ts + row
  }

  /** The spring transfers of node `i` for its first `m` edges, those above `i`. */
  function SpringRow(nodes: seq<Node>, i: nat, m: nat, sqrt: real -> real): (ts: seq<Transfer>)
    requires IsSqrt(sqrt) && EdgesInRange(nodes) && i < |nodes| && m <= |nodes[i].edges|
    ensures InRange(ts, |nodes|)
  {
    if m == 0 then []
    else
      var ts := SpringRow(nodes, i, m - 1, sqrt);
      var j := nodes[i].edges[m - 1];
      if j > i then
        var t := Transfer(i, j, Neg(Spring(nodes[i].pos, nodes[j].pos, sqrt)));
        InRangeConcat(ts, [t], |nodes|);
        ts + [t]
      else ts
  }

  /** The spring transfers of the first `i` nodes. */
  function SpringRows(nodes: seq<Node>, i: nat, sqrt: real -> real): (ts: seq<Transfer>)
    requires IsSqrt(sqrt) && EdgesInRange(nodes) && i <= |nodes|
    ensures InRange(ts, |nodes|)
  {
    if i == 0 then []
    else
      var ts := SpringRows(nodes, i - 1, sqrt);
      var row := SpringRow(nodes, i - 1, |nodes[i - 1].edges|, sqrt);
      InRangeConcat(ts, row, |nodes|);
      ts + row
  }

  /** One more pair of a repulsion row is one more exchange. */
  lemma RepulsionRowStep(f: seq<Vec>, nodes: seq<Node>, i: nat, j: nat, sqrt: real -> real)
    requires IsSqrt(sqrt) && i < j < |nodes| == |f|
    ensures Apply(f, RepulsionRow(nodes, i, j - i, sqrt))
         == Exchange(Apply(f, RepulsionRow(nodes, i, j - i - 1, sqrt)),
                     Transfer(i, j, Repulsion(nodes[i].pos, nodes[j].pos, sqrt)))
  {
    ApplySnoc(f, RepulsionRow(nodes, i, j - i - 1, sqrt),
              Transfer(i, j, Repulsion(nodes[i].pos, nodes[j].pos, sqrt)));
  }

  /** An edge of a spring row that leads to a later node `j` is one more
      exchange. */
  lemma SpringRowTaken(f: seq<Vec>, nodes: seq<Node>, i: nat, k: nat, j: nat, sqrt: real -> real)
    requires IsSqrt(sqrt) && EdgesInRange(nodes) && i < |nodes| == |f| && k < |nodes[i].edges|
    requires j == nodes[i].edges[k] && j > i
    ensures Apply(f, SpringRow(nodes, i, k + 1, sqrt))
         == Exchange(Apply(f, SpringRow(nodes, i, k, sqrt)),
                     Transfer(i, j, Neg(Spring(nodes[i].pos, nodes[j].pos, sqrt))))
  {
    ApplySnoc(f, SpringRow(nodes, i, k, sqrt), Transfer(i, j, Neg(Spring(nodes[i].pos, nodes[j].pos, sqrt))));
  }

  /** An edge of a spring row back to an earlier node (or itself) adds
      nothing: that pair was handled from the other end. */
  lemma SpringRowSkipped(nodes: seq<Node>, i: nat, k: nat, sqrt: real -> real)
    requires IsSqrt(sqrt) && EdgesInRange(nodes) && i < |nodes| && k < |nodes[i].edges|
    requires nodes[i].edges[k] <= i
    ensures SpringRow(nodes, i, k + 1, sqrt) == SpringRow(nodes, i, k, sqrt)
  {
  }

  /** One more row of the repulsion loop is one more row of transfers. */
  lemma RepulsionRowsStep(f: seq<Vec>, nodes: seq<Node>, i: nat, sqrt: real -> real)
    requires IsSqrt(sqrt) && i < |nodes| == |f|
    ensures Apply(f, RepulsionRows(nodes, i + 1, sqrt))
         == Apply(Apply(f, RepulsionRows(nodes, i, sqrt)), RepulsionRow(nodes, i, |nodes| - i - 1, sqrt))
  {
    ApplyConcat(f, RepulsionRows(nodes, i, sqrt), RepulsionRow(nodes, i, |nodes| - i - 1, sqrt));
  }

  /** One more node of the spring loop is one more row of transfers. */
  lemma SpringRowsStep(f: seq<Vec>, nodes: seq<Node>, i: nat, sqrt: real -> real)
    requires IsSqrt(sqrt) && EdgesInRange(nodes) && i < |nodes| == |f|
    ensures Apply(f, SpringRows(nodes, i + 1, sqrt))
         == Apply(Apply(f, SpringRows(nodes, i, sqrt)), SpringRow(nodes, i, |nodes[i].edges|, sqrt))
  {
    ApplyConcat(f, SpringRows(nodes, i, sqrt), SpringRow(nodes, i, |nodes[i].edges|, sqrt));
  }

  /** `fx`, `fy`, `fz` after both pair loops. */
  function Forces(nodes: seq<Node>, sqrt: real -> real): (f: seq<Vec>)
    requires IsSqrt(sqrt) && EdgesInRange(nodes)
    ensures |f| == |nodes|
  {
    Apply(Apply(Zeros(|nodes|), RepulsionRows(nodes, |nodes|, sqrt)), SpringRows(nodes, |nodes|, sqrt))
  }

  /** Action and reaction: the forces sum to zero on each axis. */
  lemma ForcesBalance(nodes: seq<Node>, sqrt: real -> real)
    requires IsSqrt(sqrt) && EdgesInRange(nodes)
    ensures Total(Forces(nodes, sqrt)) == Zero
  {
    var n := |nodes|;
    var rep := RepulsionRows(nodes, n, sqrt);
    ApplyConserves(Zeros(n), rep);
    ApplyConserves(Apply(Zeros(n), rep), SpringRows(nodes, n, sqrt));
    TotalZeros(n);
  }

  // ---------------------------------------------------------------------------
  // Integration and constraints, node by node

  /** The Euler step: the root is put back at the centre at rest; any other
      node gains `f * TIME_STEP` in velocity, is damped, then moves by
      `v * TIME_STEP`. */
  /** `b` is `a` moved: only position and velocity may differ. */
  predicate Moved(a: Node, b: Node) {
    a.(pos := b.pos, vel := b.vel) == b
  }

  function Integrated(nd: Node, f: Vec): (r: Node)
    ensures Moved(nd, r)
    ensures nd.isRoot ==> r.pos == Zero && r.vel == Zero
  {
    if nd.isRoot then nd.(pos := Zero, vel := Zero)
    else
      var v := Scaled(Add(nd.vel, Scaled(f, TIME_STEP)), DAMPING);
      nd.(vel := v, pos := Add(nd.pos, Scaled(v, TIME_STEP)))
  }

  /** Without force a node's speed falls by the damping factor each step. */
  lemma FreeDriftDamped(nd: Node)
    requires !nd.isRoot
    ensures NormSq(Integrated(nd, Zero).vel) == DAMPING * DAMPING * NormSq(nd.vel)
  {
    var v := Integrated(nd, Zero).vel;
    assert Scaled(Zero, TIME_STEP) == Zero;
    assert v == Scaled(nd.vel, DAMPING);
    NormSqScaled(nd.vel, DAMPING);
  }

  /** Scaled onto the sphere of radius `radius` (`ratio = R / r`), then the
      velocity's component along the outward normal `pos / R` removed. */
  function Projected(nd: Node, radius: real, r: real): (projected: Node)
    requires r > 0.0 && radius > 0.0
    ensures Moved(nd, projected)
  {
    var p := Scaled(nd.pos, radius / r);
    var n := Vec(p.x / radius, p.y / radius, p.z / radius);
    var vrad := Dot(nd.vel, n);
    nd.(pos := p, vel := Vec(nd.vel.x - vrad * n.x, nd.vel.y - vrad * n.y, nd.vel.z - vrad * n.z))
  }

  lemma ScaledToRadius(p: Vec, radius: real, r: real)
    requires r > 0.0 && radius > 0.0 && r * r == NormSq(p)
    ensures NormSq(Scaled(p, radius / r)) == radius * radius
  {
    var k := radius / r;
    NormSqScaled(p, k);
    assert k * r == radius;
    assert k * k * (r * r) == (k * r) * (k * r);
  }

  lemma UnitNormal(p: Vec, radius: real)
    requires radius > 0.0 && NormSq(p) == radius * radius
    ensures NormSq(Vec(p.x / radius, p.y / radius, p.z / radius)) == 1.0
  {
    var m := 1.0 / radius;
    assert Vec(p.x / radius, p.y / radius, p.z / radius) == Scaled(p, m);
    NormSqScaled(p, m);
    assert m * m * (radius * radius) == (m * radius) * (m * radius);
  }

  lemma RemoveComponent(v: Vec, n: Vec)
    requires NormSq(n) == 1.0
    ensures var c := Dot(v, n);
      Dot(Vec(v.x - c * n.x, v.y - c * n.y, v.z - c * n.z), n) == 0.0
  {
    var c := Dot(v, n);
    assert (v.x - c * n.x) * n.x == v.x * n.x - c * (n.x * n.x);
    assert (v.y - c * n.y) * n.y == v.y * n.y - c * (n.y * n.y);
    assert (v.z - c * n.z) * n.z == v.z * n.z - c * (n.z * n.z);
    assert c * (n.x * n.x) + c * (n.y * n.y) + c * (n.z * n.z) == c * NormSq(n);
  }

  /** A projected node lies on the sphere and moves only tangentially. */
  lemma ProjectedOnSphere(nd: Node, radius: real, r: real)
    requires r > 0.0 && radius > 0.0 && r * r == NormSq(nd.pos)
    ensures NormSq(Projected(nd, radius, r).pos) == radius * radius
    ensures Dot(Projected(nd, radius, r).vel, Projected(nd, radius, r).pos) == 0.0
  {
    var p := Scaled(nd.pos, radius / r);
    ScaledToRadius(nd.pos, radius, r);
    var n := Vec(p.x / radius, p.y / radius, p.z / radius);
    UnitNormal(p, radius);
    RemoveComponent(nd.vel, n);
    var w := Projected(nd, radius, r).vel;
    assert p == Scaled(n, radius);
    DotScaled(w, n, radius);
  }

  /** A leaf so close to the centre that it cannot be projected. */
  predicate Collapsed(nd: Node, sqrt: real -> real) {
    nd.isLeaf && sqrt(NormSq(nd.pos)) < COLLAPSE_RADIUS
  }

  /** The constraint pass for one node: a leaf is re-seeded at `pick` with no
      velocity when it has collapsed onto the centre and projected onto the
      sphere otherwise; an internal node outside the sphere is projected
      onto it; anything else is left as it is. */
  function Constrained(nd: Node, pick: Vec, radius: real, sqrt: real -> real): (c: Node)
    requires IsSqrt(sqrt) && radius > 0.0
    ensures Moved(nd, c)
    ensures nd.isRoot && !nd.isLeaf ==> c == nd
  {
    if nd.isLeaf then
      if Collapsed(nd, sqrt) then nd.(pos := pick, vel := Zero)
      else Projected(nd, radius, sqrt(NormSq(nd.pos)))
    else if !nd.isRoot && NormSq(nd.pos) > radius * radius then
      SqrtPositive(sqrt, NormSq(nd.pos));
      Projected(nd, radius, sqrt(NormSq(nd.pos)))
    else nd
  }

  /** Where a node may be once a step is over: the root at the centre at
      rest, a leaf on the sphere moving tangentially, an internal node in the
      closed ball. */
  predicate SettledNode(nd: Node, radius: real) {
    && (nd.isRoot ==> nd.pos == Zero && nd.vel == Zero)
    && (nd.isLeaf ==> NormSq(nd.pos) == radius * radius && Dot(nd.vel, nd.pos) == 0.0)
    && (!nd.isRoot && !nd.isLeaf ==> NormSq(nd.pos) <= radius * radius)
  }

  /** Every non-collapsed leaf ends on the sphere with no radial velocity, a
      collapsed one at a re-seeding position (on the sphere too) at rest, an
      internal node outside the sphere on it, and an internal node inside it
      is untouched. */
  lemma ConstrainedSettles(nd: Node, pick: Vec, radius: real, sqrt: real -> real)
    requires IsSqrt(sqrt) && radius > 0.0 && !(nd.isRoot && nd.isLeaf)
    requires Collapsed(nd, sqrt) ==> NormSq(pick) == radius * radius
    ensures var c := Constrained(nd, pick, radius, sqrt);
      && c.depth == nd.depth && c.isRoot == nd.isRoot && c.isLeaf == nd.isLeaf && c.edges == nd.edges
      && (nd.isRoot ==> c == nd)
      && (!nd.isLeaf && NormSq(nd.pos) <= radius * radius ==> c == nd)
      && (!nd.isRoot ==> SettledNode(c, radius))
    ensures var c := Constrained(nd, pick, radius, sqrt);
      !nd.isRoot && !nd.isLeaf && NormSq(nd.pos) > radius * radius ==>
        NormSq(c.pos) == radius * radius && Dot(c.vel, c.pos) == 0.0
    ensures var c := Constrained(nd, pick, radius, sqrt);
      Collapsed(nd, sqrt) ==> c.pos == pick && c.vel == Zero
  {
    NormSqNonneg(nd.pos);
    var r := sqrt(NormSq(nd.pos));
    assert r >= 0.0 && r * r == NormSq(nd.pos);
    if nd.isLeaf && r >= COLLAPSE_RADIUS {
      ProjectedOnSphere(nd, radius, r);
    } else if !nd.isLeaf && !nd.isRoot && NormSq(nd.pos) > radius * radius {
      SqrtPositive(sqrt, NormSq(nd.pos));
      ProjectedOnSphere(nd, radius, r);
    }
  }

  /** Integration then the constraint leave every node settled. */
  lemma StepSettles(nd: Node, f: Vec, pick: Vec, radius: real, sqrt: real -> real)
    requires IsSqrt(sqrt) && radius > 0.0 && !(nd.isRoot && nd.isLeaf)
    requires Collapsed(Integrated(nd, f), sqrt) ==> NormSq(pick) == radius * radius
    ensures SettledNode(Constrained(Integrated(nd, f), pick, radius, sqrt), radius)
  {
    ConstrainedSettles(Integrated(nd, f), pick, radius, sqrt);
  }

  /** `after` is `before` with every node integrated under its force. */
  predicate IntegratedAll(before: seq<Node>, force: seq<Vec>, after: seq<Node>) {
    && |after| == |before| == |force|
    && forall i :: 0 <= i < |before| ==> after[i] == Integrated(before[i], force[i])
  }

  /** `after` is `before` with every node constrained, a collapsed leaf
      moving to its pick, which lies on the sphere. */
  predicate ConstrainedAll(before: seq<Node>, picks: seq<Vec>, after: seq<Node>, radius: real, sqrt: real -> real)
    requires IsSqrt(sqrt) && radius > 0.0
  {
    && |after| == |before| == |picks|
    && forall i :: 0 <= i < |before| ==>
         && (Collapsed(before[i], sqrt) ==> NormSq(picks[i]) == radius * radius)
         && after[i] == Constrained(before[i], picks[i], radius, sqrt)
  }

  predicate AllSettled(nodes: seq<Node>, radius: real) {
    forall i :: 0 <= i < |nodes| ==> SettledNode(nodes[i], radius)
  }

  /** One whole step, node by node: forces applied, then constraints, and
      every node of a tree ends settled. */
  lemma StepSettlesAll(before: seq<Node>, force: seq<Vec>, middle: seq<Node>, picks: seq<Vec>,
                       after: seq<Node>, radius: real, sqrt: real -> real, maxDepth: nat)
    requires IsSqrt(sqrt) && radius > 0.0 && WellLinked(before, maxDepth)
    requires IntegratedAll(before, force, middle)
    requires ConstrainedAll(middle, picks, after, radius, sqrt)
    ensures AllSettled(after, radius)
  {
    forall i | 0 <= i < |after|
      ensures SettledNode(after[i], radius)
    {
      assert LinkedAt(before, i, maxDepth);
      StepSettles(before[i], force[i], picks[i], radius, sqrt);
    }
  }
}
