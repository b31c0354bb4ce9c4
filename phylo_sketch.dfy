/** The phylogenetic-sphere sketch as the page runs it: global `nodes`,
    `leafPositions` and `leafIndex`, the tree builder that pushes onto them,
    the four-pass `physicsStep` that rewrites every node in place, the
    warm-up in `setup` and the edge loop of `draw`. p5's `random` is a
    stream of draws in [0, 1) that the sketch consumes one at a time. */
module PhyloSketch {
  import opened Numeric
  import opened Vectors
  import opened PhyloTree
  import opened PhyloForces
  import SphereSampler

  /** `physicsStep` calls made by `setup` before the first frame. */
  const WARM_UP_STEPS: nat := 200
  /** The half-width of the jitter added to an internal node's start. */
  const JITTER: real := 5.0

  /** p5's `random(lo, hi)` for the draw `u` in [0, 1). */
  function RandomIn(u: real, lo: real, hi: real): real {
    lo + u * (hi - lo)
  }

  /** `random(n)` lies in [0, n): a valid index once floored. */
  lemma RandomBelow(u: real, n: real)
    requires 0.0 <= u < 1.0 && n > 0.0
    ensures 0.0 <= RandomIn(u, 0.0, n) < n
  {
    FractionBelow(u, n);
  }

  lemma FractionBelow(u: real, d: real)
    requires 0.0 <= u < 1.0 && d > 0.0
    ensures 0.0 <= u * d < d
  {
    MulNonneg(u, d);
    MulPositive(1.0 - u, d);
    assert (1.0 - u) * d == d - u * d;
  }

  lemma MulPositive(a: real, b: real)
    requires a > 0.0 && b > 0.0
    ensures a * b > 0.0
  {
  }

  /** Two leaves taken in order from `xs[k..]` extend the prefix used so far
      by two; no leaves leave it as it was. */
  lemma LeavesTaken<T>(xs: seq<T>, k: nat, used: seq<T>, a: T, b: T, leaves: bool)
    requires k + (if leaves then 2 else 0) <= |xs| && used == xs[..k]
    requires leaves ==> a == xs[k] && b == xs[k + 1]
    ensures used + (if leaves then [a, b] else []) == xs[..k + (if leaves then 2 else 0)]
  {
    if leaves {
      assert xs[..k + 2] == xs[..k] + [xs[k], xs[k + 1]];
    }
  }

  /** The spherical coordinates of an internal node before the jitter. */
  function Spherical(r: real, theta: real, phi: real, sin: real -> real, cos: real -> real): Vec {
    Vec(r * sin(phi) * cos(theta), r * sin(phi) * sin(theta), r * cos(phi))
  }

  /** An internal node starts at radius exactly `r` before the jitter. */
  lemma SphericalRadius(r: real, theta: real, phi: real, sin: real -> real, cos: real -> real)
    requires IsSinCos(sin, cos)
    ensures NormSq(Spherical(r, theta, phi, sin, cos)) == r * r
  {
    var s, c := sin(phi), cos(phi);
    var st, ct := sin(theta), cos(theta);
    assert s * s + c * c == 1.0 && st * st + ct * ct == 1.0;
    calc {
      NormSq(Spherical(r, theta, phi, sin, cos));
      (r * s * ct) * (r * s * ct) + (r * s * st) * (r * s * st) + (r * c) * (r * c);
      { assert (r * s * ct) * (r * s * ct) + (r * s * st) * (r * s * st) == (r * s) * (r * s) * (ct * ct + st * st); }
      (r * s) * (r * s) + (r * c) * (r * c);
      { assert (r * s) * (r * s) + (r * c) * (r * c) == r * r * (s * s + c * c); }
      r * r;
    }
  }

  /** `depth / MAX_DEPTH * SPHERE_RADIUS` lies strictly inside the sphere for
      every internal depth. */
  lemma InteriorRadiusInside(depth: nat, maxDepth: nat, radius: real)
    requires 1 <= depth < maxDepth && radius > 0.0
    ensures 0.0 < depth as real / maxDepth as real * radius < radius
  {
    var q := depth as real / maxDepth as real;
    assert q * maxDepth as real == depth as real;
    assert 0.0 < q < 1.0;
  }

  class Sketch {
    const maxDepth: nat
    const sphereRadius: real
    const sqrt: real -> real
    const sin: real -> real
    const cos: real -> real
    /** `uniform(k)` is the k-th draw of p5's random generator. */
    const uniform: nat -> real

    /** How many draws have been taken. */
    var draws: nat
    var nodes: seq<Node>
    var leafPositions: seq<Vec>
    var leafIndex: nat

    /** What holds of the constants and of the leaf positions whatever the
        state of the tree. */
    ghost predicate Sound()
      reads this`leafPositions
    {
      && sphereRadius > 0.0
      && IsSqrt(sqrt) && IsSinCos(sin, cos)
      && (forall k :: 0.0 <= uniform(k) < 1.0)
      && (forall k :: 0 <= k < |leafPositions| ==> NormSq(leafPositions[k]) == sphereRadius * sphereRadius)
    }

    /** Between calls: the nodes form a well-linked tree, and the leaves have
        used up `leafIndex` of the positions. */
    ghost predicate Valid()
      reads this`nodes, this`leafPositions, this`leafIndex
    {
      && Sound()
      && WellLinked(nodes, maxDepth) && EdgesInRange(nodes)
      && NumLeaves(nodes) == leafIndex <= |leafPositions|
    }

    constructor(maxDepth: nat, sphereRadius: real, sqrt: real -> real, sin: real -> real,
                cos: real -> real, uniform: nat -> real)
      requires sphereRadius > 0.0 && IsSqrt(sqrt) && IsSinCos(sin, cos)
      requires forall k :: 0.0 <= uniform(k) < 1.0
      ensures Valid()
      ensures this.maxDepth == maxDepth && this.sphereRadius == sphereRadius
      ensures this.sqrt == sqrt && this.sin == sin && this.cos == cos && this.uniform == uniform
      ensures nodes == [] && leafPositions == [] && leafIndex == 0 && draws == 0
    {
      this.maxDepth := maxDepth;
      this.sphereRadius := sphereRadius;
      this.sqrt := sqrt;
      this.sin := sin;
      this.cos := cos;
      this.uniform := uniform;
      draws := 0;
      nodes := [];
      leafPositions := [];
      leafIndex := 0;
    }

    /** p5's `random(lo, hi)`; `random(hi)` is `random(0, hi)`. */
    method Random(lo: real, hi: real) returns (x: real)
      modifies this`draws
      ensures draws == old(draws) + 1
      ensures x == RandomIn(uniform(old(draws)), lo, hi)
    {
      x := lo + uniform(draws) * (hi - lo);
      draws := draws + 1;
    }

    /** Pushes `es` on the edges of node `i`, as `nodes[i].edges.push(...)`. */
    method PushEdges(i: nat, es: seq<nat>)
      requires i < |nodes|
      modifies this`nodes
      ensures nodes == EdgesPushed(old(nodes), i, es)
    {
      nodes := nodes[i := nodes[i].(edges := nodes[i].edges + es)];
    }

    /** The three pushes of `buildSubtree` that link two new children to
        their parent, both ways. */
    method LinkToParent(parentIndex: nat, leftIdx: nat, rightIdx: nat)
      requires parentIndex < |nodes| && leftIdx < |nodes| && rightIdx < |nodes|
      modifies this`nodes
      ensures nodes == EdgesPushed(EdgesPushed(EdgesPushed(old(nodes), parentIndex, [leftIdx, rightIdx]),
                                               leftIdx, [parentIndex]), rightIdx, [parentIndex])
    {
      PushEdges(parentIndex, [leftIdx, rightIdx]);
      PushEdges(leftIdx, [parentIndex]);
      PushEdges(rightIdx, [parentIndex]);
    }

    /** Where an internal node at `depth` starts when the next draw is the
        `k`-th: a random direction on the shell of radius
        `depth / maxDepth * sphereRadius`, plus a jitter of up to `JITTER`
        on each axis, five draws in all. */
    function InteriorStart(depth: nat, k: nat): (p: Vec)
      requires 0 < maxDepth
    {
      Add(Spherical(ShellRadius(depth),
                    RandomIn(uniform(k), 0.0, 2.0 * PI),
                    RandomIn(uniform(k + 1), 0.0, PI), sin, cos),
          Jitter(k + 2))
    }

    /** `depth / MAX_DEPTH * SPHERE_RADIUS`: the radius an internal node at
        `depth` starts on before the jitter. */
    function ShellRadius(depth: nat): real
      requires 0 < maxDepth
    {
      depth as real / maxDepth as real * sphereRadius
    }

    /** The jitter of an internal node whose first jitter draw is the `k`-th. */
    function Jitter(k: nat): (j: Vec) {
      Vec(RandomIn(uniform(k), -JITTER, JITTER),
          RandomIn(uniform(k + 1), -JITTER, JITTER),
          RandomIn(uniform(k + 2), -JITTER, JITTER))
    }

    /** The draws of `createNodeAtDepth` for an internal node: the two
        angles, then the jitter on each axis. */
    method InteriorPosition(depth: nat) returns (p: Vec)
      requires 0 < maxDepth
      modifies this`draws
      ensures draws == old(draws) + 5 && p == InteriorStart(depth, old(draws))
    {
      var r := ShellRadius(depth);
      var theta := Random(0.0, 2.0 * PI);
      var phi := Random(0.0, PI);
      var j := RandomJitter();
      p := Add(Spherical(r, theta, phi, sin, cos), j);
    }

    /** The three jitter draws, one per axis. */
    method RandomJitter() returns (j: Vec)
      modifies this`draws
      ensures draws == old(draws) + 3 && j == Jitter(old(draws))
    {
      var jx := Random(-JITTER, JITTER);
      var jy := Random(-JITTER, JITTER);
      var jz := Random(-JITTER, JITTER);
      j := Vec(jx, jy, jz);
    }

    /** `createNodeAtDepth`: appends a node at rest with no edges. A leaf takes
        the next of `leafPositions`; an internal node draws two angles and a
        jitter per axis and starts near radius `depth / maxDepth * R`. */
    method CreateNodeAtDepth(depth: nat, isLeaf: bool) returns (idx: nat)
      requires 1 <= depth <= maxDepth && (isLeaf <==> depth == maxDepth)
      requires isLeaf ==> leafIndex < |leafPositions|
      modifies this`nodes, this`leafIndex, this`draws
      ensures idx == |old(nodes)| && |nodes| == idx + 1 && nodes == old(nodes) + [nodes[idx]]
      ensures nodes[idx].depth == depth && nodes[idx].isLeaf == isLeaf && !nodes[idx].isRoot
      ensures nodes[idx].vel == Zero && nodes[idx].edges == []
      ensures leafIndex == old(leafIndex) + (if isLeaf then 1 else 0)
      ensures isLeaf ==> nodes[idx].pos == leafPositions[old(leafIndex)] && draws == old(draws)
      ensures !isLeaf ==> nodes[idx].pos == InteriorStart(depth, old(draws)) && draws == old(draws) + 5
    {
      idx := |nodes|;
      var nd := Node(Zero, Zero, depth, false, isLeaf, []);
      if isLeaf {
        nd := nd.(pos := leafPositions[leafIndex]);
        leafIndex := leafIndex + 1;
      } else {
        var p := InteriorPosition(depth);
        nd := nd.(pos := p);
      }
      nodes := nodes + [nd];
    }

    /** The first half of `buildSubtree`: two new nodes at depth `d`, pushed
        on the parent's edges, each with the parent as its one edge. */
    method AddChildren(parentIndex: nat, d: nat) returns (leftIdx: nat, rightIdx: nat)
      requires parentIndex < |nodes| && 1 <= d <= maxDepth
      requires leafIndex + (if d == maxDepth then 2 else 0) <= |leafPositions|
      requires LeafSeq(nodes) == leafPositions[..leafIndex]
      modifies this`nodes, this`leafIndex, this`draws
      ensures leftIdx == |old(nodes)| && rightIdx == leftIdx + 1
      ensures ChildrenAdded(old(nodes), nodes, parentIndex, d, maxDepth)
      ensures leafIndex == old(leafIndex) + (if d == maxDepth then 2 else 0)
      ensures LeafSeq(nodes) == leafPositions[..leafIndex]
    {
      ghost var s0 := nodes;
      leftIdx := CreateNodeAtDepth(d, d == maxDepth);
      ghost var left := nodes[leftIdx];
      rightIdx := CreateNodeAtDepth(d, d == maxDepth);
      ghost var s := nodes;
      LinkToParent(parentIndex, leftIdx, rightIdx);
      LinkChildren(s0, left, s[rightIdx], s, nodes, parentIndex, d, maxDepth);
      LeavesTaken(leafPositions, old(leafIndex), LeafSeq(s0), left.pos, s[rightIdx].pos, d == maxDepth);
    }

    /** `buildSubtree(parentIndex, d, maxDepth)`: below the deepest level,
        two children at depth `d`, linked both ways to the parent, and then
        a subtree under each. */
    method BuildSubtree(parentIndex: nat, d: nat)
      requires parentIndex < |nodes| && 1 <= d && nodes[parentIndex].depth + 1 == d
      requires leafIndex + LeavesBelow(d, maxDepth) <= |leafPositions|
      requires LeafSeq(nodes) == leafPositions[..leafIndex]
      modifies this`nodes, this`leafIndex, this`draws
      decreases maxDepth + 1 - d
      ensures SubtreeAppended(old(nodes), nodes, parentIndex, d, maxDepth)
      ensures leafIndex == old(leafIndex) + LeavesBelow(d, maxDepth)
      ensures LeafSeq(nodes) == leafPositions[..leafIndex]
    {
      if d > maxDepth {
        return;
      }
      ghost var s0 := nodes;
      var leftIdx, rightIdx := AddChildren(parentIndex, d);
      ghost var s1 := nodes;
      if d < maxDepth {
        BuildSubtree(leftIdx, d + 1);
        ghost var s2 := nodes;
        BuildSubtree(rightIdx, d + 1);
        AssembleInner(s0, s1, s2, nodes, parentIndex, d, maxDepth);
      } else {
        AssembleLeaves(s0, s1, parentIndex, maxDepth);
      }
    }

    /** `buildBinaryTree(maxDepth)`: the root at index 0, at the centre, then
        the subtrees under it. The leaves take the first positions in order. */
    method BuildBinaryTree()
      requires Valid() && nodes == [] && leafIndex == 0
      requires LeavesBelow(1, maxDepth) <= |leafPositions|
      modifies this`nodes, this`leafIndex, this`draws
      ensures Valid()
      ensures |nodes| == Pow2(maxDepth + 1) - 1
      ensures leafIndex == NumLeaves(nodes) == if maxDepth == 0 then 0 else Pow2(maxDepth)
      ensures LeafSeq(nodes) == leafPositions[..leafIndex]
      ensures nodes[0].pos == Zero && nodes[0].vel == Zero && nodes[0].isRoot
    {
      var root := Node(Zero, Zero, 0, true, false, []);
      nodes := [root];
      BuildSubtree(0, 1);
      NewRootLinked(root, nodes, maxDepth);
      assert WellLinked(nodes, maxDepth);
      WellLinkedInRange(nodes, maxDepth);
      LeafSeqLength(nodes);
      TreeCounts(maxDepth);
    }

    /** The Euler pass, node by node in place. */
    method Integrate(force: seq<Vec>)
      requires Valid() && |force| == |nodes|
      modifies this`nodes
      ensures Valid() && SameShape(old(nodes), nodes)
      ensures IntegratedAll(old(nodes), force, nodes)
    {
      var i := 0;
      while i < |nodes|
        invariant 0 <= i <= |nodes| == |old(nodes)|
        invariant forall k :: 0 <= k < i ==> nodes[k] == Integrated(old(nodes)[k], force[k])
        invariant forall k :: i <= k < |nodes| ==> nodes[k] == old(nodes)[k]
      {
        nodes := nodes[i := Integrated(nodes[i], force[i])];
        i := i + 1;
      }
      ShapeKeepsLinks(old(nodes), nodes, maxDepth);
    }

    /** The constraint pass, node by node in place. A collapsed leaf draws
        `floor(random(leafPositions.length))` and moves to that position;
        `picks[i]` is what node `i` would move to. */
    method Constrain() returns (ghost picks: seq<Vec>)
      requires Valid()
      modifies this`nodes, this`draws
      ensures Valid() && SameShape(old(nodes), nodes)
      ensures ConstrainedAll(old(nodes), picks, nodes, sphereRadius, sqrt)
      ensures forall i :: 0 <= i < |nodes| && Collapsed(old(nodes)[i], sqrt) ==> picks[i] in leafPositions
    {
      picks := [];
      var i := 0;
      while i < |nodes|
        invariant 0 <= i <= |nodes| == |old(nodes)| && |picks| == i
        invariant forall k :: 0 <= k < i ==>
          && (Collapsed(old(nodes)[k], sqrt) ==>
                picks[k] in leafPositions && NormSq(picks[k]) == sphereRadius * sphereRadius)
          && nodes[k] == Constrained(old(nodes)[k], picks[k], sphereRadius, sqrt)
        invariant forall k :: i <= k < |nodes| ==> nodes[k] == old(nodes)[k]
      {
        var nd := nodes[i];
        var pick := Zero;
        if nd.isLeaf && sqrt(NormSq(nd.pos)) < COLLAPSE_RADIUS {
          LeafCounted(old(nodes), i);
          var n := |leafPositions|;
          RandomBelow(uniform(draws), n as real);
          var u := Random(0.0, n as real);
          pick := leafPositions[u.Floor];
        }
        nodes := nodes[i := Constrained(nd, pick, sphereRadius, sqrt)];
        picks := picks + [pick];
        i := i + 1;
      }
      ConstrainKeepsShape(old(nodes), nodes, picks, sphereRadius, sqrt);
      ShapeKeepsLinks(old(nodes), nodes, maxDepth);
    }

    /** One `physicsStep`: forces, integration, constraints. The tree keeps
        its shape, and every node ends settled: the root at the centre at
        rest, the leaves on the sphere moving tangentially, internal nodes
        in the ball. */
    method PhysicsStep() returns (ghost middle: seq<Node>, ghost picks: seq<Vec>)
      requires Valid()
      modifies this`nodes, this`draws
      ensures Valid() && SameShape(old(nodes), nodes)
      ensures IntegratedAll(old(nodes), Forces(old(nodes), sqrt), middle)
      ensures ConstrainedAll(middle, picks, nodes, sphereRadius, sqrt)
      ensures AllSettled(nodes, sphereRadius)
    {
      var forceArray := ComputeForces(nodes, sqrt);
      var force := forceArray[..];
      ghost var before := nodes;
      Integrate(force);
      middle := nodes;
      picks := Constrain();
      StepSettlesAll(before, force, middle, picks, nodes, sphereRadius, sqrt, maxDepth);
    }

    /** `setup`: the Fibonacci leaf positions (one per leaf), the tree, and
        the warm-up steps. */
    method Setup()
      requires Valid() && nodes == [] && leafIndex == 0
      modifies this`nodes, this`leafIndex, this`draws, this`leafPositions
      ensures Valid()
      ensures |leafPositions| == Pow2(maxDepth)
      ensures |nodes| == Pow2(maxDepth + 1) - 1
      ensures NumLeaves(nodes) == if maxDepth == 0 then 0 else Pow2(maxDepth)
      ensures AllSettled(nodes, sphereRadius)
    {
      var totalLeaves := Pow2(maxDepth);
      PlaceLeaves(totalLeaves);
      TreeCounts(maxDepth);
      BuildBinaryTree();
      ghost var built := nodes;
      WarmUp(WARM_UP_STEPS);
      NumLeavesShape(built, nodes);
    }

    /** The leaf positions of `setup`: `count` Fibonacci points on the
        sphere, none of them used yet. */
    method PlaceLeaves(count: nat)
      requires Valid() && nodes == [] && leafIndex == 0
      modifies this`leafPositions
      ensures Valid() && |leafPositions| == count
    {
      var pts := SphereSampler.FibonacciSpherePositions(count, sphereRadius, sqrt, sin, cos);
      assert forall k :: 0 <= k < |pts| ==> NormSq(pts[k]) == sphereRadius * sphereRadius;
      leafPositions := pts;
    }

    /** The warm-up loop of `setup`: `steps` layout steps before the first
        frame. The shape of the tree stays as it was, and after at least one
        step every node is settled. */
    method WarmUp(steps: nat)
      requires Valid()
      modifies this`nodes, this`draws
      ensures Valid() && SameShape(old(nodes), nodes)
      ensures steps > 0 ==> AllSettled(nodes, sphereRadius)
    {
      var step := 0;
      while step < steps
        invariant 0 <= step <= steps
        invariant Valid() && SameShape(old(nodes), nodes)
        invariant step > 0 ==> AllSettled(nodes, sphereRadius)
      {
        ghost var middle, picks := PhysicsStep();
        step := step + 1;
      }
    }

    /** The edge loop of `draw`: for each node, each edge to a later node, a
        line between the two positions. */
    method EdgeSegments() returns (pairs: seq<(nat, nat)>, segments: seq<(Vec, Vec)>)
      requires Valid()
      ensures pairs == EdgePairs(nodes) && Joins(pairs, segments, nodes)
    {
      var ns := nodes;
      pairs, segments := [], [];
      var i := 0;
      while i < |ns|
        invariant 0 <= i <= |ns|
        invariant pairs == EdgePairs(ns[..i]) && Joins(pairs, segments, ns)
      {
        var more, lines := ForwardSegments(ns, i);
        JoinsConcat(pairs, segments, more, lines, ns);
        pairs, segments := pairs + more, segments + lines;
        assert ns[..i + 1][..i] == ns[..i];
        i := i + 1;
      }
      assert ns[..|ns|] == ns;
    }

    /** `draw`: one layout step, then the lines. */
    method Draw() returns (pairs: seq<(nat, nat)>, segments: seq<(Vec, Vec)>)
      requires Valid()
      modifies this`nodes, this`draws
      ensures Valid() && SameShape(old(nodes), nodes)
      ensures pairs == EdgePairs(nodes) && Joins(pairs, segments, nodes)
    {
      ghost var middle, picks := PhysicsStep();
      pairs, segments := EdgeSegments();
    }
  }

  /** One line per pair, from the position of its first node to the
      position of its second. */
  ghost predicate Joins(pairs: seq<(nat, nat)>, segments: seq<(Vec, Vec)>, nodes: seq<Node>) {
    && |segments| == |pairs|
    && forall k :: 0 <= k < |pairs| ==>
         && pairs[k].0 < |nodes| && pairs[k].1 < |nodes|
         && segments[k] == (nodes[pairs[k].0].pos, nodes[pairs[k].1].pos)
  }

  /** The inner edge loop of `draw` for node `i`: a line to each later
      neighbour, in the order of its edges. */
  method ForwardSegments(ns: seq<Node>, i: nat) returns (pairs: seq<(nat, nat)>, segments: seq<(Vec, Vec)>)
    requires i < |ns| && EdgesInRange(ns)
    ensures pairs == Forward(i, ns[i].edges) && Joins(pairs, segments, ns)
  {
    var es := ns[i].edges;
    pairs, segments := [], [];
    var k := 0;
    while k < |es|
      invariant 0 <= k <= |es|
      invariant pairs == Forward(i, es[..k]) && Joins(pairs, segments, ns)
    {
      var j := es[k];
      assert es[..k + 1][..k] == es[..k];
      if j > i {
        JoinsSnoc(pairs, segments, ns, i, j);
        pairs := pairs + [(i, j)];
        segments := segments + [(ns[i].pos, ns[j].pos)];
      }
      k := k + 1;
    }
    assert es[..|es|] == es;
  }

  lemma JoinsConcat(pairs: seq<(nat, nat)>, segments: seq<(Vec, Vec)>,
                    more: seq<(nat, nat)>, lines: seq<(Vec, Vec)>, nodes: seq<Node>)
    requires Joins(pairs, segments, nodes) && Joins(more, lines, nodes)
    ensures Joins(pairs + more, segments + lines, nodes)
  {
  }

  lemma JoinsSnoc(pairs: seq<(nat, nat)>, segments: seq<(Vec, Vec)>, nodes: seq<Node>,
                  i: nat, j: nat)
    requires Joins(pairs, segments, nodes) && i < |nodes| && j < |nodes|
    ensures Joins(pairs + [(i, j)], segments + [(nodes[i].pos, nodes[j].pos)], nodes)
  {
  }

  /** The first two passes of `physicsStep`: `fx`, `fy`, `fz` as both pair
      loops leave them. */
  method ComputeForces(nodes: seq<Node>, sqrt: real -> real) returns (force: array<Vec>)
    requires IsSqrt(sqrt) && EdgesInRange(nodes)
    ensures fresh(force) && force[..] == Forces(nodes, sqrt)
  {
    force := ZeroForces(|nodes|);
    Repulse(nodes, sqrt, force);
    Springs(nodes, sqrt, force);
  }

  /** The repulsion loop over all pairs `i < j`. */
  method Repulse(nodes: seq<Node>, sqrt: real -> real, force: array<Vec>)
    requires IsSqrt(sqrt) && force.Length == |nodes|
    modifies force
    ensures force[..] == Apply(old(force[..]), RepulsionRows(nodes, |nodes|, sqrt))
  {
    ghost var start := force[..];
    var i := 0;
    while i < |nodes|
      invariant 0 <= i <= |nodes|
      invariant force[..] == Apply(start, RepulsionRows(nodes, i, sqrt))
    {
      RepulseRow(nodes, sqrt, i, force);
      RepulsionRowsStep(start, nodes, i, sqrt);
      i := i + 1;
    }
  }

  /** `new Array(nCount).fill(0)`: one zero vector per node. */
  method ZeroForces(n: nat) returns (force: array<Vec>)
    ensures fresh(force) && force[..] == Zeros(n)
  {
    force := new Vec[n](_ => Zero);
  }

  /** Row `i` of the repulsion loop: every `j` above `i`. */
  method RepulseRow(nodes: seq<Node>, sqrt: real -> real, i: nat, force: array<Vec>)
    requires IsSqrt(sqrt) && i < |nodes| == force.Length
    modifies force
    ensures force[..] == Apply(old(force[..]), RepulsionRow(nodes, i, |nodes| - i - 1, sqrt))
  {
    ghost var start := force[..];
    var j := i + 1;
    while j < |nodes|
      invariant i < j <= |nodes|
      invariant force[..] == Apply(start, RepulsionRow(nodes, i, j - i - 1, sqrt))
    {
      var t := Transfer(i, j, Repulsion(nodes[i].pos, nodes[j].pos, sqrt));
      ApplyTransfer(force, t);
      RepulsionRowStep(start, nodes, i, j, sqrt);
      j := j + 1;
    }
  }

  /** The spring loop: for each node, each edge to a later node. */
  method Springs(nodes: seq<Node>, sqrt: real -> real, force: array<Vec>)
    requires IsSqrt(sqrt) && EdgesInRange(nodes) && force.Length == |nodes|
    modifies force
    ensures force[..] == Apply(old(force[..]), SpringRows(nodes, |nodes|, sqrt))
  {
    ghost var start := force[..];
    var i := 0;
    while i < |nodes|
      invariant 0 <= i <= |nodes|
      invariant force[..] == Apply(start, SpringRows(nodes, i, sqrt))
    {
      SpringRowPass(nodes, sqrt, i, force);
      SpringRowsStep(start, nodes, i, sqrt);
      i := i + 1;
    }
  }

  /** The springs of node `i`: each edge to a later node. */
  method SpringRowPass(nodes: seq<Node>, sqrt: real -> real, i: nat, force: array<Vec>)
    requires IsSqrt(sqrt) && EdgesInRange(nodes) && i < |nodes| == force.Length
    modifies force
    ensures force[..] == Apply(old(force[..]), SpringRow(nodes, i, |nodes[i].edges|, sqrt))
  {
    ghost var start := force[..];
    var k := 0;
    while k < |nodes[i].edges|
      invariant 0 <= k <= |nodes[i].edges|
      invariant force[..] == Apply(start, SpringRow(nodes, i, k, sqrt))
    {
      var j := nodes[i].edges[k];
      if j > i {
        var t := Transfer(i, j, Neg(Spring(nodes[i].pos, nodes[j].pos, sqrt)));
        ApplyTransfer(force, t);
        SpringRowTaken(start, nodes, i, k, j, sqrt);
      } else {
        SpringRowSkipped(nodes, i, k, sqrt);
      }
      k := k + 1;
    }
  }

  /** `fx[i] -= v; fx[j] += v` and the same on the other two axes. */
  method ApplyTransfer(f: array<Vec>, t: Transfer)
    requires t.from < f.Length && t.to < f.Length
    modifies f
    ensures f[..] == Exchange(old(f[..]), t)
  {
    f[t.from] := Sub(f[t.from], t.v);
    f[t.to] := Add(f[t.to], t.v);
  }

  /** The root alone, before any subtree: complete once the subtree under it
      has been appended. */
  lemma NewRootLinked(root: Node, nodes: seq<Node>, maxDepth: nat)
    requires root.isRoot && root.depth == 0 && !root.isLeaf && root.edges == []
    requires SubtreeAppended([root], nodes, 0, 1, maxDepth)
    ensures WellLinked(nodes, maxDepth)
    ensures nodes[0] == root.(edges := if 1 <= maxDepth then [1, 2] else [])
  {
    assert nodes[0] == root.(edges := nodes[0].edges);
    assert LinkedAt(nodes, 0, maxDepth);
  }

  /** The constraint pass changes positions and velocities only. */
  lemma ConstrainKeepsShape(a: seq<Node>, b: seq<Node>, picks: seq<Vec>, radius: real, sqrt: real -> real)
    requires IsSqrt(sqrt) && radius > 0.0 && |a| == |b| == |picks|
    requires forall i :: 0 <= i < |a| ==> b[i] == Constrained(a[i], picks[i], radius, sqrt)
    ensures SameShape(a, b)
  {
  }
}
