/** The layout half of the Newick tree background: `computeLeafCounts`,
    `getMaxDepth` and `assignAngles`, which give every node a polar angle
    from its depth and an azimuth from a wedge of its parent's interval, and
    the `createPhyloTree` pipeline that runs them after the parser. The
    source writes `_leafCount`, `_theta` and `_phi` into the parsed objects;
    here each pass returns the annotated tree. */
module NewickLayout {
  import opened Wrappers
  import opened Numeric
  import opened Newick

  /** Three degrees: the narrowest wedge a child is given before scaling. */
  const MIN_WEDGE: real := 3.0 * PI / 180.0

  /** The angles `assignAngles` writes. `theta` is `None` where the source
      computes NaN (`mapLinear` over the empty range when the tree is a
      single node). */
  datatype Angles = Unplaced | Placed(theta: Option<real>, phi: real)

  /** A parsed node with the fields the layout adds. `leafCount == 0` means
      `_leafCount` is not set. */
  datatype Tree = Tree(name: Option<string>, length: Option<string>, children: seq<Tree>,
                       leafCount: nat, angles: Angles)

  /** The object tree that the parser's arena stands for, from node `i` down. */
  function ToTree(nodes: seq<NNode>, i: nat): (t: Tree)
    requires i < |nodes| && ChildrenAfterParent(Shape(nodes))
    ensures t.name == nodes[i].name && t.length == nodes[i].length
    ensures |t.children| == |nodes[i].children|
    ensures t.leafCount == 0 && t.angles == Unplaced
    decreases |nodes| - i
  {
    var n := nodes[i];
    assert Shape(nodes)[i] == n.children;
    Tree(n.name, n.length,
         seq(|n.children|, j requires 0 <= j < |n.children| => ToTree(nodes, n.children[j])),
         0, Unplaced)
  }

  // ---------------------------------------------------------------------------
  // computeLeafCounts

  function Total(s: seq<nat>): nat {
    if s == [] then 0 else Total(s[..|s| - 1]) + s[|s| - 1]
  }

  /** The number of leaves (nodes without children) in a subtree. */
  function Leaves(t: Tree): (n: nat)
    ensures n >= 1
    decreases t, 1
  {
    if t.children == [] then 1 else Total(ChildLeaves(t))
  }

  function ChildLeaves(t: Tree): (s: seq<nat>)
    ensures |s| == |t.children|
    decreases t, 0
  {
    seq(|t.children|, j requires 0 <= j < |t.children| => Leaves(t.children[j]))
  }

  /** The tree with every `_leafCount` set to its subtree's leaf count. */
  function WithCounts(t: Tree): (r: Tree)
    ensures r.name == t.name && r.length == t.length && r.angles == t.angles
    ensures |r.children| == |t.children|
    decreases t
  {
    t.(children := seq(|t.children|, j requires 0 <= j < |t.children| => WithCounts(t.children[j])),
       leafCount := Leaves(t))
  }

  /** The stored counts of a node's children. */
  function ChildCounts(t: Tree): (s: seq<nat>)
    ensures |s| == |t.children|
  {
    seq(|t.children|, j requires 0 <= j < |t.children| => t.children[j].leafCount)
  }

  /** Every stored count is 1 at a leaf and the sum of the children's stored
      counts elsewhere: the relation `computeLeafCounts` establishes. */
  predicate Counted(t: Tree)
    decreases t
  {
    && t.leafCount == (if t.children == [] then 1 else Total(ChildCounts(t)))
    && forall j :: 0 <= j < |t.children| ==> Counted(t.children[j])
  }

  /** Locally consistent counts are the leaf counts. */
  lemma {:induction false} CountedIsLeaves(t: Tree)
    requires Counted(t)
    ensures t.leafCount == Leaves(t)
    decreases t
  {
    if t.children != [] {
      forall j | 0 <= j < |t.children|
        ensures t.children[j].leafCount == Leaves(t.children[j])
      {
        CountedIsLeaves(t.children[j]);
      }
      assert ChildCounts(t) == ChildLeaves(t);
    }
  }

  /** `WithCounts` leaves the stored counts consistent and counting leaves. */
  lemma {:induction false} WithCountsCounted(t: Tree)
    ensures Counted(WithCounts(t)) && WithCounts(t).leafCount == Leaves(t)
    decreases t
  {
    var r := WithCounts(t);
    forall j | 0 <= j < |t.children|
      ensures Counted(r.children[j]) && r.children[j].leafCount == Leaves(t.children[j])
    {
      WithCountsCounted(t.children[j]);
    }
    if t.children != [] {
      assert ChildCounts(r) == ChildLeaves(t);
    }
  }

  /** `computeLeafCounts`: sets `_leafCount` throughout and returns the root's. */
  method ComputeLeafCounts(t: Tree) returns (r: Tree, count: nat)
    ensures r == WithCounts(t) && count == Leaves(t) && count >= 1
    decreases t
  {
    if t.children == [] {
      r := t.(leafCount := 1);
      count := 1;
      return;
    }
    var sum: nat := 0;
    var kids: seq<Tree> := [];
    for k := 0 to |t.children|
      invariant |kids| == k
      invariant forall j :: 0 <= j < k ==> kids[j] == WithCounts(t.children[j])
      invariant sum == Total(ChildLeaves(t)[..k])
    {
      var c, n := ComputeLeafCounts(t.children[k]);
      assert ChildLeaves(t)[..k + 1][..k] == ChildLeaves(t)[..k];
      kids := kids + [c];
      sum := sum + n;
    }
    assert ChildLeaves(t)[..|t.children|] == ChildLeaves(t);
    r := t.(children := kids, leafCount := sum);
    count := sum;
  }

  // ---------------------------------------------------------------------------
  // getMaxDepth

  /** The largest entry of a non-empty sequence. */
  function MaxOf(s: seq<nat>): (m: nat)
    requires s != []
    ensures forall i :: 0 <= i < |s| ==> s[i] <= m
    ensures exists i :: 0 <= i < |s| && s[i] == m
  {
    if |s| == 1 then s[0]
    else
      var p := MaxOf(s[..|s| - 1]);
      if s[|s| - 1] > p then s[|s| - 1] else p
  }

  /** The number of edges on the longest path from the node down to a leaf. */
  function Height(t: Tree): (h: nat)
    decreases t, 1
  {
    if t.children == [] then 0 else 1 + MaxOf(ChildHeights(t))
  }

  function ChildHeights(t: Tree): (s: seq<nat>)
    ensures |s| == |t.children|
    decreases t, 0
  {
    seq(|t.children|, j requires 0 <= j < |t.children| => Height(t.children[j]))
  }

  /** Every node of `t`, which sits at depth `d`, is at depth at most `bound`. */
  predicate DepthsWithin(t: Tree, d: nat, bound: nat)
    decreases t
  {
    d <= bound && forall j :: 0 <= j < |t.children| ==> DepthsWithin(t.children[j], d + 1, bound)
  }

  /** A child is at least one level lower than its parent. */
  lemma ChildHeight(t: Tree, j: nat)
    requires j < |t.children|
    ensures Height(t.children[j]) + 1 <= Height(t)
  {
    assert ChildHeights(t)[j] == Height(t.children[j]);
  }

  /** No node lies deeper than the depth plus the height. */
  lemma {:induction false} HeightBoundsDepths(t: Tree, d: nat, bound: nat)
    requires d + Height(t) <= bound
    ensures DepthsWithin(t, d, bound)
    decreases t
  {
    forall j | 0 <= j < |t.children|
      ensures DepthsWithin(t.children[j], d + 1, bound)
    {
      ChildHeight(t, j);
      HeightBoundsDepths(t.children[j], d + 1, bound);
    }
  }

  /** `getMaxDepth(node, depth)`: the depth of the deepest node below. */
  method GetMaxDepth(t: Tree, depth: nat) returns (best: nat)
    ensures best == depth + Height(t)
    ensures t.children == [] ==> best == depth
    decreases t
  {
    if t.children == [] {
      return depth;
    }
    best := depth;
    for k := 0 to |t.children|
      invariant k == 0 ==> best == depth
      invariant k > 0 ==> best == depth + 1 + MaxOf(ChildHeights(t)[..k])
    {
      var d := GetMaxDepth(t.children[k], depth + 1);
      assert ChildHeights(t)[..k + 1][..k] == ChildHeights(t)[..k];
      if d > best {
        best := d;
      }
    }
    assert ChildHeights(t)[..|t.children|] == ChildHeights(t);
  }

  // ---------------------------------------------------------------------------
  // assignAngles

  /** `node._leafCount || 1`. */
  function Tips(t: Tree): (r: real)
    ensures r >= 1.0
  {
    if t.leafCount == 0 then 1.0 else t.leafCount as real
  }

  /** `mapLinear(depth, 0, maxDepth, 0, PI)`, NaN (`None`) when `maxDepth` is 0. */
  function Theta(depth: nat, maxDepth: nat): (r: Option<real>)
    ensures r.Some? <==> maxDepth > 0
    ensures maxDepth > 0 && depth <= maxDepth ==> 0.0 <= r.value <= PI
    ensures maxDepth > 0 && depth == 0 ==> r.value == 0.0
    ensures maxDepth > 0 && depth == maxDepth ==> r.value == PI
  {
    if maxDepth == 0 then None
    else Some(MapLinear(depth as real, 0.0, maxDepth as real, 0.0, PI))
  }

  /** A child's wedge: its leaf share of the available angle, at least
      `MIN_WEDGE` (`Math.max`). */
  ghost function Wedge(child: Tree, totalTips: real, available: real): (w: real)
    requires totalTips != 0.0
    ensures w >= MIN_WEDGE
  {
    var desired := Ratio(Tips(child), totalTips) * available;
    if MIN_WEDGE > desired then MIN_WEDGE else desired
  }

  /** A wedge is the larger of `MIN_WEDGE` and the child's share. */
  lemma WedgeIsMax(child: Tree, totalTips: real, available: real)
    requires totalTips != 0.0
    ensures var desired := Ratio(Tips(child), totalTips) * available;
            var w := Wedge(child, totalTips, available);
            w >= MIN_WEDGE && w >= desired && (w == MIN_WEDGE || w == desired)
  {
  }

  ghost function Wedges(t: Tree, available: real): (ws: seq<real>)
    ensures |ws| == |t.children|
    ensures forall j :: 0 <= j < |ws| ==> ws[j] >= MIN_WEDGE
  {
    seq(|t.children|, j requires 0 <= j < |t.children| => Wedge(t.children[j], Tips(t), available))
  }

  /** Every wedge is positive, so the wedges of a node with children have a
      positive sum. */
  lemma WedgesPositive(t: Tree, available: real)
    requires t.children != []
    ensures Sum(Wedges(t, available)) > 0.0
  {
    var ws := Wedges(t, available);
    var n := |ws|;
    SumPrefixBounds(ws, n - 1);
  }

  /** The factor the wedges are shrunk by when together they exceed the
      available angle. */
  ghost function Scale(sumWedges: real, available: real): real
    requires sumWedges > 0.0
  {
    if sumWedges > available then Ratio(available, sumWedges) else 1.0
  }

  /** For a non-negative available angle the scale is in [0, 1]. */
  lemma ScaleWithinUnit(sumWedges: real, available: real)
    requires sumWedges > 0.0 && available >= 0.0
    ensures 0.0 <= Scale(sumWedges, available) <= 1.0
  {
    if sumWedges > available {
      RatioIsQuotient(available, sumWedges);
      UnitFraction(available, sumWedges);
    }
  }

  /** Wedges that reach the available angle are scaled to fill it exactly;
      wedges that fall short keep scale 1. */
  lemma ScaleFills(sumWedges: real, available: real)
    requires sumWedges > 0.0
    ensures sumWedges >= available ==> sumWedges * Scale(sumWedges, available) == available
    ensures sumWedges <= available ==> Scale(sumWedges, available) == 1.0
  {
  }

  /** Where the `k`-th child's interval starts: `currentAngle` after `k`
      scaled wedges. */
  ghost function Cut(start: real, ws: seq<real>, scale: real, k: nat): real
    requires k <= |ws|
  {
    start + Sum(ws[..k]) * scale
  }

  /** `assignAngles(node, start, end, depth)` with the closure's `maxDepth`. */
  ghost function Place(t: Tree, start: real, end: real, depth: nat, maxDepth: nat): (r: Tree)
    ensures r.angles == Placed(Theta(depth, maxDepth), 0.5 * (start + end))
    ensures r.name == t.name && r.length == t.length && r.leafCount == t.leafCount
    ensures |r.children| == |t.children|
    decreases t
  {
    var node := t.(angles := Placed(Theta(depth, maxDepth), 0.5 * (start + end)));
    node.(children := seq(|t.children|, j requires 0 <= j < |t.children| =>
      Place(t.children[j], ChildStart(t, start, end, j), ChildEnd(t, start, end, j), depth + 1, maxDepth)))
  }

  /** The scale applied to the wedges of `t`'s children. */
  ghost function ScaleOf(t: Tree, start: real, end: real): real
    requires t.children != []
  {
    WedgesPositive(t, end - start);
    Scale(Sum(Wedges(t, end - start)), end - start)
  }

  /** `childStart` of the `j`-th child. */
  ghost function ChildStart(t: Tree, start: real, end: real, j: nat): real
    requires j < |t.children|
  {
    Cut(start, Wedges(t, end - start), ScaleOf(t, start, end), j)
  }

  /** `childEnd` of the `j`-th child: `currentAngle` after `j + 1` scaled
      wedges, which is `childStart + w` (`ChildEndAddsWedge`). */
  ghost function ChildEnd(t: Tree, start: real, end: real, j: nat): real
    requires j < |t.children|
  {
    Cut(start, Wedges(t, end - start), ScaleOf(t, start, end), j + 1)
  }

  /** Each child's interval ends where the next one starts. */
  lemma CutStep(start: real, ws: seq<real>, scale: real, k: nat)
    requires k < |ws|
    ensures Cut(start, ws, scale, k + 1) == Cut(start, ws, scale, k) + ws[k] * scale
  {
    assert ws[..k + 1][..k] == ws[..k];
    var s := Sum(ws[..k]);
    assert (s + ws[k]) * scale == s * scale + ws[k] * scale;
  }

  /** `child._leafCount || 1` for each child. */
  function ChildTips(t: Tree): (s: seq<real>)
    ensures |s| == |t.children|
  {
    seq(|t.children|, j requires 0 <= j < |t.children| => Tips(t.children[j]))
  }

  /** With consistent counts the children's tips add up to the parent's. */
  lemma TipsAddUp(t: Tree)
    requires Counted(t) && t.children != []
    ensures Sum(ChildTips(t)) == Tips(t)
  {
    forall j | 0 <= j < |t.children|
      ensures ChildTips(t)[j] == AsReals(ChildCounts(t))[j]
    {
      CountedIsLeaves(t.children[j]);
    }
    assert ChildTips(t) == AsReals(ChildCounts(t));
    TotalAsReal(ChildCounts(t));
    CountedIsLeaves(t);
  }

  /** Every wedge is at least the child's share of the available angle. */
  lemma WedgesDominate(t: Tree, available: real)
    ensures forall j :: 0 <= j < |t.children| ==>
      Wedges(t, available)[j] >= Fractions(ChildTips(t), Tips(t), available)[j]
  {
    forall j | 0 <= j < |t.children|
      ensures Wedges(t, available)[j] >= Fractions(ChildTips(t), Tips(t), available)[j]
    {
      WedgeIsMax(t.children[j], Tips(t), available);
    }
  }

  /** The children's desired shares add up to the available angle when the
      stored counts are consistent, so the wedges cover it. */
  lemma SharesFill(t: Tree, available: real)
    requires Counted(t) && t.children != []
    ensures Sum(Wedges(t, available)) >= available
  {
    WedgesDominate(t, available);
    SumDominates(Wedges(t, available), Fractions(ChildTips(t), Tips(t), available));
    TipsAddUp(t);
    SumFractions(ChildTips(t), Tips(t), available);
    RatioIsQuotient(Tips(t), Tips(t));
    DivSelf(Tips(t));
  }

  function AsReals(s: seq<nat>): (r: seq<real>)
    ensures |r| == |s|
  {
    seq(|s|, j requires 0 <= j < |s| => s[j] as real)
  }

  lemma {:induction false} TotalAsReal(s: seq<nat>)
    ensures Total(s) as real == Sum(AsReals(s))
  {
    var n := |s|;
    if n > 0 {
      TotalAsReal(s[..n - 1]);
      assert AsReals(s)[..n - 1] == AsReals(s[..n - 1]);
    }
  }

  /** A child's interval is its scaled wedge, starting where the previous
      one ended. */
  lemma ChildEndAddsWedge(t: Tree, start: real, end: real, j: nat)
    requires j < |t.children|
    ensures ChildEnd(t, start, end, j)
         == ChildStart(t, start, end, j) + Wedges(t, end - start)[j] * ScaleOf(t, start, end)
    ensures j + 1 < |t.children| ==> ChildEnd(t, start, end, j) == ChildStart(t, start, end, j + 1)
  {
    CutStep(start, Wedges(t, end - start), ScaleOf(t, start, end), j);
  }

  /** When the wedges cover the available angle (which consistent counts
      guarantee, see `SharesFill`) and `start <= end`, the scale is at most 1
      and the scaled child intervals tile `[start, end]`: the first starts at
      `start`, the last ends at `end`, and each lies inside. */
  lemma ChildrenTile(t: Tree, start: real, end: real)
    requires t.children != [] && start <= end && Sum(Wedges(t, end - start)) >= end - start
    ensures 0.0 <= ScaleOf(t, start, end) <= 1.0
    ensures ChildStart(t, start, end, 0) == start
    ensures ChildEnd(t, start, end, |t.children| - 1) == end
    ensures forall j :: 0 <= j < |t.children| ==>
      start <= ChildStart(t, start, end, j) <= ChildEnd(t, start, end, j) <= end
  {
    var ws := Wedges(t, end - start);
    var sc := ScaleOf(t, start, end);
    WedgesPositive(t, end - start);
    ScaleWithinUnit(Sum(ws), end - start);
    ScaleFills(Sum(ws), end - start);
    assert sc == Scale(Sum(ws), end - start);
    CutsTile(start, end, ws, sc);
    forall j | 0 <= j < |t.children|
      ensures start <= ChildStart(t, start, end, j) <= ChildEnd(t, start, end, j) <= end
    {
      CutInterval(start, end, ws, sc, j);
    }
  }

  /** Wedges scaled to fill `[start, end]` start the cuts at `start` and
      end them at `end`. */
  lemma CutsTile(start: real, end: real, ws: seq<real>, sc: real)
    requires ws != [] && forall j :: 0 <= j < |ws| ==> ws[j] >= 0.0
    requires sc >= 0.0 && Sum(ws) * sc == end - start
    ensures Cut(start, ws, sc, 0) == start
    ensures Cut(start, ws, sc, |ws|) == end
  {
    assert ws[..0] == [];
    assert Sum(ws[..0]) * sc == 0.0;
    assert ws[..|ws|] == ws;
  }

  lemma CutInterval(start: real, end: real, ws: seq<real>, sc: real, j: nat)
    requires j < |ws| && forall k :: 0 <= k < |ws| ==> ws[k] >= 0.0
    requires sc >= 0.0 && Sum(ws) * sc == end - start
    ensures start <= Cut(start, ws, sc, j) <= Cut(start, ws, sc, j + 1) <= end
  {
    CutStep(start, ws, sc, j);
    CutWithin(start, end, ws, sc, j);
    CutWithin(start, end, ws, sc, j + 1);
    MulNonneg(ws[j], sc);
  }

  /** Cuts of non-negative wedges scaled to fill `[start, end]` stay inside it. */
  lemma CutWithin(start: real, end: real, ws: seq<real>, sc: real, k: nat)
    requires k <= |ws| && forall j :: 0 <= j < |ws| ==> ws[j] >= 0.0
    requires sc >= 0.0 && Sum(ws) * sc == end - start
    ensures start <= Cut(start, ws, sc, k) <= end
  {
    SumPrefixBounds(ws, k);
    var p := Sum(ws[..k]);
    MulNonneg(p, sc);
    MulNonneg(Sum(ws) - p, sc);
    assert (Sum(ws) - p) * sc == Sum(ws) * sc - p * sc;
  }

  /** Every node's azimuth lies in `[lo, hi]`. */
  predicate PhiWithin(t: Tree, lo: real, hi: real)
    decreases t
  {
    && t.angles.Placed? && lo <= t.angles.phi <= hi
    && forall j :: 0 <= j < |t.children| ==> PhiWithin(t.children[j], lo, hi)
  }

  lemma {:induction false} PhiWiden(t: Tree, lo: real, hi: real, lo': real, hi': real)
    requires PhiWithin(t, lo, hi) && lo' <= lo && hi <= hi'
    ensures PhiWithin(t, lo', hi')
    decreases t
  {
    forall j | 0 <= j < |t.children|
      ensures PhiWithin(t.children[j], lo', hi')
    {
      PhiWiden(t.children[j], lo, hi, lo', hi');
    }
  }

  /** Every node lands inside the interval its root was given, so a subtree
      never strays out of its parent's wedge. */
  lemma {:induction false} PlacedWithin(t: Tree, start: real, end: real, depth: nat, maxDepth: nat)
    requires Counted(t) && start <= end
    ensures PhiWithin(Place(t, start, end, depth, maxDepth), start, end)
    decreases t, 1
  {
    var r := Place(t, start, end, depth, maxDepth);
    forall j | 0 <= j < |t.children|
      ensures PhiWithin(r.children[j], start, end)
    {
      PlacedChildWithin(t, start, end, depth, maxDepth, j);
    }
  }

  /** The `j`-th child's subtree stays inside its own wedge, which lies
      inside the parent's interval. */
  lemma {:induction false} PlacedChildWithin(t: Tree, start: real, end: real, depth: nat, maxDepth: nat, j: nat)
    requires Counted(t) && start <= end && j < |t.children|
    ensures PhiWithin(Place(t, start, end, depth, maxDepth).children[j], start, end)
    decreases t, 0
  {
    SharesFill(t, end - start);
    ChildrenTile(t, start, end);
    var a := ChildStart(t, start, end, j);
    var b := ChildEnd(t, start, end, j);
    PlacedWithin(t.children[j], a, b, depth + 1, maxDepth);
    PhiWiden(Place(t, start, end, depth, maxDepth).children[j], a, b, start, end);
  }

  /** Every node has a polar angle in `[0, PI]`. */
  predicate ThetaWithin(t: Tree)
    decreases t
  {
    && t.angles.Placed? && t.angles.theta.Some? && 0.0 <= t.angles.theta.value <= PI
    && forall j :: 0 <= j < |t.children| ==> ThetaWithin(t.children[j])
  }

  /** When `maxDepth` bounds every depth and is positive, every polar angle
      is a number in `[0, PI]`. */
  lemma {:induction false} PlacedThetaWithin(t: Tree, start: real, end: real, depth: nat, maxDepth: nat)
    requires maxDepth > 0 && depth + Height(t) <= maxDepth
    ensures ThetaWithin(Place(t, start, end, depth, maxDepth))
    decreases t, 1
  {
    var r := Place(t, start, end, depth, maxDepth);
    forall j | 0 <= j < |t.children|
      ensures ThetaWithin(r.children[j])
    {
      PlacedChildThetaWithin(t, start, end, depth, maxDepth, j);
    }
  }

  lemma {:induction false} PlacedChildThetaWithin(t: Tree, start: real, end: real, depth: nat, maxDepth: nat, j: nat)
    requires maxDepth > 0 && depth + Height(t) <= maxDepth && j < |t.children|
    ensures ThetaWithin(Place(t, start, end, depth, maxDepth).children[j])
    decreases t, 0
  {
    ChildHeight(t, j);
    PlacedThetaWithin(t.children[j], ChildStart(t, start, end, j), ChildEnd(t, start, end, j),
                      depth + 1, maxDepth);
  }

  /** `assignAngles`: two passes over the children, one collecting the
      wedges and their sum, one handing out consecutive scaled intervals. */
  method AssignAngles(t: Tree, start: real, end: real, depth: nat, maxDepth: nat) returns (r: Tree)
    ensures r == Place(t, start, end, depth, maxDepth)
    decreases t, 1
  {
    var node := t.(angles := Placed(Theta(depth, maxDepth), 0.5 * (start + end)));
    if t.children == [] {
      return node;
    }
    var available := end - start;
    var wedges, sumWedges := CollectWedges(t, available);
    WedgesPositive(t, available);
    var scale := 1.0;
    if sumWedges > available {
      scale := available / sumWedges;
      RatioIsQuotient(available, sumWedges);
    }
    assert scale == ScaleOf(t, start, end);
    var kids;
    kids := PlaceChildren(t, start, wedges, scale, depth, maxDepth);
    PlaceFromCuts(t, start, end, depth, maxDepth, kids);
    r := node.(children := kids);
  }

  /** The first pass of `assignAngles`: each child's wedge and their sum. */
  method CollectWedges(t: Tree, available: real) returns (wedges: seq<real>, sumWedges: real)
    ensures wedges == Wedges(t, available)
    ensures sumWedges == Sum(wedges)
  {
    var totalTips := Tips(t);
    wedges := [];
    sumWedges := 0.0;
    for k := 0 to |t.children|
      invariant wedges == Wedges(t, available)[..k]
      invariant sumWedges == Sum(wedges)
    {
      var fraction := Tips(t.children[k]) / totalTips;
      var desired := fraction * available;
      var w := if MIN_WEDGE > desired then MIN_WEDGE else desired;
      RatioIsQuotient(Tips(t.children[k]), totalTips);
      assert w == Wedges(t, available)[k];
      assert (wedges + [w])[..k] == wedges;
      wedges := wedges + [w];
      sumWedges := sumWedges + w;
    }
    assert wedges == Wedges(t, available)[..|t.children|];
  }

  /** The second pass of `assignAngles`: each child in turn gets the next
      scaled wedge, starting where the previous one ended. */
  method PlaceChildren(t: Tree, start: real, wedges: seq<real>, scale: real, depth: nat, maxDepth: nat)
    returns (kids: seq<Tree>)
    requires |wedges| == |t.children|
    ensures |kids| == |t.children|
    ensures forall j :: 0 <= j < |kids| ==>
      kids[j] == Place(t.children[j], Cut(start, wedges, scale, j), Cut(start, wedges, scale, j + 1),
                       depth + 1, maxDepth)
    decreases t, 0
  {
    kids := [];
    var current := start;
    for i := 0 to |t.children|
      invariant |kids| == i
      invariant current == Cut(start, wedges, scale, i)
      invariant forall j :: 0 <= j < i ==>
        kids[j] == Place(t.children[j], Cut(start, wedges, scale, j), Cut(start, wedges, scale, j + 1),
                         depth + 1, maxDepth)
    {
      var w := wedges[i] * scale;
      CutStep(start, wedges, scale, i);
      var c := AssignAngles(t.children[i], current, current + w, depth + 1, maxDepth);
      assert current + w == Cut(start, wedges, scale, i + 1);
      kids := kids + [c];
      current := current + w;
    }
  }

  /** Children placed at the cuts of `t`'s own wedges and scale are the
      children `Place` gives `t`. */
  lemma PlaceFromCuts(t: Tree, start: real, end: real, depth: nat, maxDepth: nat, kids: seq<Tree>)
    requires t.children != []
    requires |kids| == |t.children|
    requires forall j :: 0 <= j < |kids| ==>
      kids[j] == Place(t.children[j], Cut(start, Wedges(t, end - start), ScaleOf(t, start, end), j),
                       Cut(start, Wedges(t, end - start), ScaleOf(t, start, end), j + 1), depth + 1, maxDepth)
    ensures t.(angles := Placed(Theta(depth, maxDepth), 0.5 * (start + end)), children := kids)
         == Place(t, start, end, depth, maxDepth)
  {
  }

  // ---------------------------------------------------------------------------
  // createPhyloTree

  /** The tree `createPhyloTree` lays out for `tokens`: the parsed arena as
      a tree, with leaf counts, placed over the full circle with its own
      height as `maxDepth`; the parse error when there is one. */
  ghost function LaidOut(tokens: seq<Token>, corrected: bool): Result<Tree, ParseError> {
    ParseIsTree(tokens, corrected);
    match Parse(tokens, corrected)
    case Err(e) => Err(e)
    case Ok(nodes) =>
      var counted := WithCounts(ToTree(nodes, 0));
      Ok(Place(counted, 0.0, 2.0 * PI, 0, Height(counted)))
  }

  /** Parse (with branch lengths after `:` kept as lengths), count leaves,
      measure the depth and lay the tree out over the full circle. */
  method CreatePhyloTree(tokens: seq<Token>) returns (r: Result<Tree, ParseError>, maxDepth: nat)
    ensures r == LaidOut(tokens, true)
    ensures r.Err? ==> r == Err(Parse(tokens, true).error)
    ensures r.Ok? <==> Parse(tokens, true).Ok?
    ensures r.Ok? ==> && Counted(r.value)
                      && maxDepth == Height(r.value)
                      && PhiWithin(r.value, 0.0, 2.0 * PI)
                      && r.value.angles.phi == PI
                      && (maxDepth > 0 ==> ThetaWithin(r.value))
  {
    var parsed := ParseNewick(tokens, true);
    if parsed.Err? {
      return Err(parsed.error), 0;
    }
    ParseIsTree(tokens, true);
    var root := ToTree(parsed.value, 0);
    var counted, _ := ComputeLeafCounts(root);
    WithCountsCounted(root);
    maxDepth := GetMaxDepth(counted, 0);
    var placed := AssignAngles(counted, 0.0, 2.0 * PI, 0, maxDepth);
    PlacedWithin(counted, 0.0, 2.0 * PI, 0, maxDepth);
    if maxDepth > 0 {
      PlacedThetaWithin(counted, 0.0, 2.0 * PI, 0, maxDepth);
    }
    PlaceKeepsHeight(counted, 0.0, 2.0 * PI, 0, maxDepth);
    PlaceKeepsCounted(counted, 0.0, 2.0 * PI, 0, maxDepth);
    r := Ok(placed);
  }

  /** Placing a tree changes only its angles: heights stay. */
  lemma {:induction false} PlaceKeepsHeight(t: Tree, start: real, end: real, depth: nat, maxDepth: nat)
    ensures Height(Place(t, start, end, depth, maxDepth)) == Height(t)
    decreases t, 1
  {
    var r := Place(t, start, end, depth, maxDepth);
    forall j | 0 <= j < |t.children|
      ensures Height(r.children[j]) == Height(t.children[j])
    {
      PlaceChildKeepsHeight(t, start, end, depth, maxDepth, j);
    }
    assert ChildHeights(r) == ChildHeights(t);
  }

  lemma {:induction false} PlaceChildKeepsHeight(t: Tree, start: real, end: real, depth: nat, maxDepth: nat, j: nat)
    requires j < |t.children|
    ensures Height(Place(t, start, end, depth, maxDepth).children[j]) == Height(t.children[j])
    decreases t, 0
  {
    PlaceKeepsHeight(t.children[j], ChildStart(t, start, end, j), ChildEnd(t, start, end, j),
                     depth + 1, maxDepth);
  }

  /** Placing a tree changes only its angles: stored counts stay consistent. */
  lemma {:induction false} PlaceKeepsCounted(t: Tree, start: real, end: real, depth: nat, maxDepth: nat)
    requires Counted(t)
    ensures Counted(Place(t, start, end, depth, maxDepth))
    decreases t, 1
  {
    var r := Place(t, start, end, depth, maxDepth);
    forall j | 0 <= j < |t.children|
      ensures Counted(r.children[j]) && r.children[j].leafCount == t.children[j].leafCount
    {
      PlaceChildKeepsCounted(t, start, end, depth, maxDepth, j);
    }
    assert ChildCounts(r) == ChildCounts(t);
  }

  lemma {:induction false} PlaceChildKeepsCounted(t: Tree, start: real, end: real, depth: nat, maxDepth: nat, j: nat)
    requires Counted(t) && j < |t.children|
    ensures Counted(Place(t, start, end, depth, maxDepth).children[j])
    decreases t, 0
  {
    PlaceKeepsCounted(t.children[j], ChildStart(t, start, end, j), ChildEnd(t, start, end, j),
                      depth + 1, maxDepth);
  }
}
