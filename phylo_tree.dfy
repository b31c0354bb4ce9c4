/** The node records of the phylogenetic-sphere sketches and the shape
    `buildBinaryTree` gives them: a full binary tree stored in creation
    order, each node listing the indices of the nodes it is joined to. */
module PhyloTree {
  import opened Numeric
  import opened Vectors

  /** One entry of `nodes`: position, velocity, tree depth, the two flags and
      the indices of the nodes joined to it. */
  datatype Node = Node(pos: Vec, vel: Vec, depth: nat, isRoot: bool, isLeaf: bool, edges: seq<nat>)

  // ---------------------------------------------------------------------------
  // How many nodes and leaves `buildSubtree` creates

  /** Nodes created by `buildSubtree(parent, d, maxDepth)`: two at depth `d`
      and, above the deepest level, the subtrees under each. */
  function SubtreeSize(d: nat, maxDepth: nat): nat
    decreases maxDepth + 1 - d
  {
    if d > maxDepth then 0 else 2 + 2 * SubtreeSize(d + 1, maxDepth)
  }

  /** The leaves among them. */
  function LeavesBelow(d: nat, maxDepth: nat): nat
    decreases maxDepth + 1 - d
  {
    if d > maxDepth then 0 else if d == maxDepth then 2 else 2 * LeavesBelow(d + 1, maxDepth)
  }

  lemma {:induction false} SubtreeSizeIs(d: nat, maxDepth: nat)
    requires 1 <= d <= maxDepth + 1
    ensures SubtreeSize(d, maxDepth) == Pow2(maxDepth + 2 - d) - 2
    decreases maxDepth + 1 - d
  {
    if d <= maxDepth {
      SubtreeSizeIs(d + 1, maxDepth);
    }
  }

  lemma {:induction false} LeavesBelowIs(d: nat, maxDepth: nat)
    requires 1 <= d <= maxDepth
    ensures LeavesBelow(d, maxDepth) == Pow2(maxDepth + 1 - d)
    decreases maxDepth - d
  {
    if d < maxDepth {
      LeavesBelowIs(d + 1, maxDepth);
    }
  }

  /** The root and the subtrees under it: 2^(D+1) - 1 nodes, of which 2^D are
      leaves; with D = 0 the root alone, which is not a leaf. */
  lemma TreeCounts(maxDepth: nat)
    ensures 1 + SubtreeSize(1, maxDepth) == Pow2(maxDepth + 1) - 1
    ensures LeavesBelow(1, maxDepth) == if maxDepth == 0 then 0 else Pow2(maxDepth)
  {
    SubtreeSizeIs(1, maxDepth);
    if maxDepth >= 1 {
      LeavesBelowIs(1, maxDepth);
    }
  }

  // ---------------------------------------------------------------------------
  // The links every node of a finished tree has

  /** 1 for every node but the root: its parent's index comes first in `edges`. */
  function Up(nd: Node): nat {
    if nd.isRoot then 0 else 1
  }

  /** The two children a node above the deepest level gets. */
  function Kids(nd: Node, maxDepth: nat): nat {
    if nd.depth < maxDepth then 2 else 0
  }

  /** `c` was created as a child of `i`: after it, one level deeper, and its
      first edge leads back to `i`. */
  predicate ChildOf(nodes: seq<Node>, i: nat, c: nat) {
    && i < c < |nodes|
    && !nodes[c].isRoot && nodes[c].edges != [] && nodes[c].edges[0] == i
    && nodes[c].depth == nodes[i].depth + 1
  }

  /** Node `i` is complete: the root sits at index 0, leaves are exactly the
      non-root nodes at the deepest level, a non-root node lists its parent
      (which lists it back) and then its two children in creation order. */
  predicate LinkedAt(nodes: seq<Node>, i: nat, maxDepth: nat)
    requires i < |nodes|
  {
    var nd := nodes[i];
    && (nd.isRoot <==> i == 0)
    && (nd.isRoot ==> nd.depth == 0)
    && nd.depth <= maxDepth
    && nd.isLeaf == (!nd.isRoot && nd.depth == maxDepth)
    && |nd.edges| == Up(nd) + Kids(nd, maxDepth)
    && (!nd.isRoot ==> nd.edges[0] < i && i in nodes[nd.edges[0]].edges)
    && (forall k :: Up(nd) <= k < |nd.edges| ==> ChildOf(nodes, i, nd.edges[k]))
    && (Kids(nd, maxDepth) == 2 ==> nd.edges[Up(nd)] < nd.edges[Up(nd) + 1])
  }

  predicate LinkedRange(nodes: seq<Node>, lo: nat, hi: nat, maxDepth: nat)
    requires hi <= |nodes|
  {
    forall i :: lo <= i < hi ==> LinkedAt(nodes, i, maxDepth)
  }

  predicate WellLinked(nodes: seq<Node>, maxDepth: nat) {
    LinkedRange(nodes, 0, |nodes|, maxDepth)
  }

  /** Edges are reciprocal: a node is listed by every node it lists. */
  lemma Reciprocal(nodes: seq<Node>, maxDepth: nat, i: nat, j: nat)
    requires WellLinked(nodes, maxDepth) && i < |nodes| && j in nodes[i].edges
    ensures j < |nodes| && i in nodes[j].edges
  {
    assert LinkedAt(nodes, i, maxDepth);
    var es := nodes[i].edges;
    var k :| 0 <= k < |es| && es[k] == j;
    if k >= Up(nodes[i]) {
      assert ChildOf(nodes, i, es[k]);
      assert nodes[j].edges[0] == i;
    }
  }

  /** A leaf has one edge, an internal node three and the root two (none
      when the tree is the root alone). */
  lemma Degree(nodes: seq<Node>, maxDepth: nat, i: nat)
    requires WellLinked(nodes, maxDepth) && i < |nodes|
    ensures |nodes[i].edges|
         == if nodes[i].isLeaf then 1
            else if nodes[i].isRoot then (if maxDepth == 0 then 0 else 2)
            else 3
  {
    assert LinkedAt(nodes, i, maxDepth);
  }

  /** The parent's index is below a node's and its children's above, so the
      `j > i` test keeps exactly the child edges. */
  lemma ParentBeforeChildren(nodes: seq<Node>, maxDepth: nat, i: nat)
    requires WellLinked(nodes, maxDepth) && i < |nodes|
    ensures forall k :: 0 <= k < |nodes[i].edges| ==>
      nodes[i].edges[k] < |nodes| && (nodes[i].edges[k] > i <==> k >= Up(nodes[i]))
  {
    assert LinkedAt(nodes, i, maxDepth);
    forall k | 0 <= k < |nodes[i].edges|
      ensures nodes[i].edges[k] < |nodes| && (nodes[i].edges[k] > i <==> k >= Up(nodes[i]))
    {
      if k >= Up(nodes[i]) {
        assert ChildOf(nodes, i, nodes[i].edges[k]);
      }
    }
  }

  /** Without a parent-and-children list repeating an index. */
  lemma EdgesDistinct(nodes: seq<Node>, maxDepth: nat, i: nat)
    requires WellLinked(nodes, maxDepth) && i < |nodes|
    ensures forall k, k' :: 0 <= k < k' < |nodes[i].edges| ==> nodes[i].edges[k] != nodes[i].edges[k']
  {
    ParentBeforeChildren(nodes, maxDepth, i);
    assert LinkedAt(nodes, i, maxDepth);
  }

  /** Depth 0 is the root, the deepest level holds the leaves, and the levels
      between hold the internal nodes. */
  lemma DepthOfKind(nodes: seq<Node>, maxDepth: nat, i: nat)
    requires WellLinked(nodes, maxDepth) && i < |nodes|
    ensures nodes[i].isRoot ==> i == 0 && nodes[i].depth == 0
    ensures nodes[i].isLeaf ==> nodes[i].depth == maxDepth
    ensures !nodes[i].isRoot && !nodes[i].isLeaf ==> 1 <= nodes[i].depth < maxDepth
  {
    assert LinkedAt(nodes, i, maxDepth);
    if !nodes[i].isRoot {
      var p := nodes[i].edges[0];
      assert LinkedAt(nodes, p, maxDepth);
      ParentBeforeChildren(nodes, maxDepth, p);
      var k :| 0 <= k < |nodes[p].edges| && nodes[p].edges[k] == i;
      assert ChildOf(nodes, p, i);
    }
  }

  // ---------------------------------------------------------------------------
  // Growing a tree: nodes are appended and edges pushed, nothing else changes

  /** `b` extends `a`: possibly more nodes, and the old ones differ only by
      edges pushed at the end of their lists. */
  predicate Grows(a: seq<Node>, b: seq<Node>) {
    && |a| <= |b|
    && forall i :: 0 <= i < |a| ==> b[i] == a[i].(edges := b[i].edges) && a[i].edges <= b[i].edges
  }

  lemma GrowsTrans(a: seq<Node>, b: seq<Node>, c: seq<Node>)
    requires Grows(a, b) && Grows(b, c)
    ensures Grows(a, c)
  {
    forall i | 0 <= i < |a|
      ensures c[i] == a[i].(edges := c[i].edges) && a[i].edges <= c[i].edges
    {
      assert b[i] == a[i].(edges := b[i].edges);
    }
  }

  /** A complete node stays complete when the tree grows around it. */
  lemma LinkedPreserved(a: seq<Node>, b: seq<Node>, i: nat, maxDepth: nat)
    requires Grows(a, b) && i < |a| && LinkedAt(a, i, maxDepth) && b[i] == a[i]
    ensures LinkedAt(b, i, maxDepth)
  {
    var nd := a[i];
    if !nd.isRoot {
      var p := nd.edges[0];
      assert a[p].edges <= b[p].edges;
      var k :| 0 <= k < |a[p].edges| && a[p].edges[k] == i;
      assert b[p].edges[k] == i;
    }
    forall k | Up(nd) <= k < |nd.edges|
      ensures ChildOf(b, i, nd.edges[k])
    {
      var c := nd.edges[k];
      assert ChildOf(a, i, c);
      assert a[c].edges <= b[c].edges;
      assert b[c].edges[0] == a[c].edges[0];
    }
  }

  lemma RangePreserved(a: seq<Node>, b: seq<Node>, lo: nat, hi: nat, maxDepth: nat)
    requires Grows(a, b) && hi <= |a| && LinkedRange(a, lo, hi, maxDepth)
    requires forall i :: lo <= i < hi ==> b[i] == a[i]
    ensures LinkedRange(b, lo, hi, maxDepth)
  {
    forall i | lo <= i < hi
      ensures LinkedAt(b, i, maxDepth)
    {
      LinkedPreserved(a, b, i, maxDepth);
    }
  }

  // ---------------------------------------------------------------------------
  // Leaves in creation order

  /** The positions of the leaves, in index order. */
  function LeafSeq(nodes: seq<Node>): (ps: seq<Vec>)
    ensures |ps| <= |nodes|
  {
    if nodes == [] then []
    else LeafSeq(nodes[..|nodes| - 1]) + (if nodes[|nodes| - 1].isLeaf then [nodes[|nodes| - 1].pos] else [])
  }

  /** The number of nodes flagged `isLeaf`. */
  function NumLeaves(nodes: seq<Node>): nat {
    if nodes == [] then 0
    else NumLeaves(nodes[..|nodes| - 1]) + (if nodes[|nodes| - 1].isLeaf then 1 else 0)
  }

  lemma {:induction false} LeafSeqLength(nodes: seq<Node>)
    ensures |LeafSeq(nodes)| == NumLeaves(nodes)
  {
    if nodes != [] {
      LeafSeqLength(nodes[..|nodes| - 1]);
    }
  }

  /** Appending one node adds its position when it is a leaf. */
  lemma LeafSeqSnoc(nodes: seq<Node>, nd: Node)
    ensures LeafSeq(nodes + [nd]) == LeafSeq(nodes) + (if nd.isLeaf then [nd.pos] else [])
  {
    assert (nodes + [nd])[..|nodes|] == nodes;
  }

  /** Pushing edges leaves the leaf positions alone. */
  lemma {:induction false} LeafSeqGrows(a: seq<Node>, b: seq<Node>)
    requires Grows(a, b) && |a| == |b|
    ensures LeafSeq(b) == LeafSeq(a)
  {
    if a != [] {
      var n := |a|;
      var a', b' := a[..n - 1], b[..n - 1];
      forall i | 0 <= i < n - 1
        ensures b'[i] == a'[i].(edges := b'[i].edges) && a'[i].edges <= b'[i].edges
      {
        assert b'[i] == b[i] && a'[i] == a[i];
      }
      LeafSeqGrows(a', b');
      assert b[n - 1] == a[n - 1].(edges := b[n - 1].edges);
    }
  }

  // ---------------------------------------------------------------------------
  // The edges the drawing loop visits

  /** `(i, j)` for each `j` of `es` above `i`, in the order `es` lists them. */
  function Forward(i: nat, es: seq<nat>): (ps: seq<(nat, nat)>)
    ensures |ps| <= |es|
  {
    if es == [] then []
    else Forward(i, es[..|es| - 1]) + (if es[|es| - 1] > i then [(i, es[|es| - 1])] else [])
  }

  /** `for (i ...) for (j of nodes[i].edges) if (j > i)`: the pairs joined by
      a line, in drawing order. */
  function EdgePairs(nodes: seq<Node>): seq<(nat, nat)> {
    if nodes == [] then []
    else EdgePairs(nodes[..|nodes| - 1]) + Forward(|nodes| - 1, nodes[|nodes| - 1].edges)
  }

  lemma {:induction false} ForwardMembers(i: nat, es: seq<nat>)
    ensures forall a: nat, b: nat :: (a, b) in Forward(i, es) <==> a == i && b in es && b > i
  {
    if es != [] {
      ForwardMembers(i, es[..|es| - 1]);
      assert es == es[..|es| - 1] + [es[|es| - 1]];
    }
  }

  /** A pair is drawn exactly when the lower index lists the higher one. */
  lemma {:induction false} EdgePairsMembers(nodes: seq<Node>)
    ensures forall a: nat, b: nat :: (a, b) in EdgePairs(nodes) <==> a < |nodes| && b > a && b in nodes[a].edges
  {
    if nodes != [] {
      var n := |nodes|;
      EdgePairsMembers(nodes[..n - 1]);
      ForwardMembers(n - 1, nodes[n - 1].edges);
    }
  }

  /** When the entries above `i` are exactly those from position `u` on,
      `Forward` keeps `|es| - u` of them. */
  lemma {:induction false} ForwardCount(i: nat, es: seq<nat>, u: nat)
    requires u <= |es| && forall k :: 0 <= k < |es| ==> (es[k] > i <==> k >= u)
    ensures |Forward(i, es)| == |es| - u
  {
    if es != [] && |es| > u {
      ForwardCount(i, es[..|es| - 1], u);
    } else if es != [] {
      ForwardNone(i, es);
    }
  }

  lemma {:induction false} ForwardNone(i: nat, es: seq<nat>)
    requires forall k :: 0 <= k < |es| ==> es[k] <= i
    ensures Forward(i, es) == []
  {
    if es != [] {
      ForwardNone(i, es[..|es| - 1]);
    }
  }

  /** Twice the number of nodes above the deepest level. */
  function SumKids(nodes: seq<Node>, maxDepth: nat): nat {
    if nodes == [] then 0
    else SumKids(nodes[..|nodes| - 1], maxDepth) + Kids(nodes[|nodes| - 1], maxDepth)
  }

  /** Each node contributes one drawn line per child. */
  lemma {:induction false} EdgePairsCount(nodes: seq<Node>, maxDepth: nat, m: nat)
    requires WellLinked(nodes, maxDepth) && m <= |nodes|
    ensures |EdgePairs(nodes[..m])| == SumKids(nodes[..m], maxDepth)
  {
    if m > 0 {
      EdgePairsCount(nodes, maxDepth, m - 1);
      assert nodes[..m][..m - 1] == nodes[..m - 1];
      var nd := nodes[m - 1];
      ParentBeforeChildren(nodes, maxDepth, m - 1);
      assert LinkedAt(nodes, m - 1, maxDepth);
      ForwardCount(m - 1, nd.edges, Up(nd));
    }
  }

  /** Once the tree has levels below the root, every non-leaf has two children. */
  lemma {:induction false} SumKidsLeaves(nodes: seq<Node>, maxDepth: nat, m: nat)
    requires WellLinked(nodes, maxDepth) && m <= |nodes|
    ensures SumKids(nodes[..m], maxDepth) == if maxDepth == 0 then 0 else 2 * (m - NumLeaves(nodes[..m]))
  {
    if m > 0 {
      SumKidsLeaves(nodes, maxDepth, m - 1);
      assert nodes[..m][..m - 1] == nodes[..m - 1];
      assert LinkedAt(nodes, m - 1, maxDepth);
    }
  }

  /** In a tree of 2^(D+1) - 1 nodes and its 2^D leaves the drawing loop
      draws one line per non-root node. */
  lemma TreeEdgeCount(nodes: seq<Node>, maxDepth: nat)
    requires WellLinked(nodes, maxDepth)
    requires |nodes| == Pow2(maxDepth + 1) - 1
    requires NumLeaves(nodes) == if maxDepth == 0 then 0 else Pow2(maxDepth)
    ensures |EdgePairs(nodes)| == |nodes| - 1
  {
    assert nodes[..|nodes|] == nodes;
    EdgePairsCount(nodes, maxDepth, |nodes|);
    SumKidsLeaves(nodes, maxDepth, |nodes|);
  }

  /** Every drawn pair starts below the number of nodes. */
  lemma {:induction false} ForwardDistinct(i: nat, es: seq<nat>)
    requires forall k, k' :: 0 <= k < k' < |es| ==> es[k] != es[k']
    ensures forall a, b :: 0 <= a < b < |Forward(i, es)| ==> Forward(i, es)[a] != Forward(i, es)[b]
  {
    if es != [] {
      var front := es[..|es| - 1];
      ForwardDistinct(i, front);
      ForwardMembers(i, front);
      var last := es[|es| - 1];
      assert last !in front;
    }
  }

  /** No line is drawn twice. */
  lemma {:induction false} EdgePairsDistinct(nodes: seq<Node>, maxDepth: nat, m: nat)
    requires WellLinked(nodes, maxDepth) && m <= |nodes|
    ensures forall a, b :: 0 <= a < b < |EdgePairs(nodes[..m])| ==> EdgePairs(nodes[..m])[a] != EdgePairs(nodes[..m])[b]
  {
    if m > 0 {
      EdgePairsDistinct(nodes, maxDepth, m - 1);
      assert nodes[..m][..m - 1] == nodes[..m - 1];
      var before := EdgePairs(nodes[..m - 1]);
      var more := Forward(m - 1, nodes[m - 1].edges);
      EdgesDistinct(nodes, maxDepth, m - 1);
      ForwardDistinct(m - 1, nodes[m - 1].edges);
      ForwardMembers(m - 1, nodes[m - 1].edges);
      EdgePairsMembers(nodes[..m - 1]);
      var all := before + more;
      forall a, b | 0 <= a < b < |all|
        ensures all[a] != all[b]
      {
        if a < |before| <= b {
          assert all[a] in before && all[b] in more;
          assert all[a].0 < m - 1 && all[b].0 == m - 1;
        }
      }
    }
  }

  // ---------------------------------------------------------------------------
  // What the layout step may not change

  /** Every edge index names a node. */
  predicate EdgesInRange(nodes: seq<Node>) {
    forall i, k :: 0 <= i < |nodes| && 0 <= k < |nodes[i].edges| ==> nodes[i].edges[k] < |nodes|
  }

  lemma WellLinkedInRange(nodes: seq<Node>, maxDepth: nat)
    requires WellLinked(nodes, maxDepth)
    ensures EdgesInRange(nodes)
  {
    forall i | 0 <= i < |nodes|
      ensures forall k :: 0 <= k < |nodes[i].edges| ==> nodes[i].edges[k] < |nodes|
    {
      ParentBeforeChildren(nodes, maxDepth, i);
    }
  }

  /** Same nodes, same depths, flags and edges; positions and velocities
      may differ. */
  predicate SameShape(a: seq<Node>, b: seq<Node>) {
    && |a| == |b|
    && forall i :: 0 <= i < |a| ==>
         && b[i].depth == a[i].depth && b[i].isRoot == a[i].isRoot
         && b[i].isLeaf == a[i].isLeaf && b[i].edges == a[i].edges
  }

  lemma {:induction false} NumLeavesShape(a: seq<Node>, b: seq<Node>)
    requires SameShape(a, b)
    ensures NumLeaves(b) == NumLeaves(a)
  {
    if a != [] {
      var n := |a|;
      assert SameShape(a[..n - 1], b[..n - 1]);
      NumLeavesShape(a[..n - 1], b[..n - 1]);
    }
  }

  /** Moving nodes around keeps the tree a tree, with as many leaves. */
  lemma ShapeKeepsLinks(a: seq<Node>, b: seq<Node>, maxDepth: nat)
    requires SameShape(a, b) && WellLinked(a, maxDepth)
    ensures WellLinked(b, maxDepth) && EdgesInRange(b)
    ensures NumLeaves(b) == NumLeaves(a)
  {
    forall i | 0 <= i < |b|
      ensures LinkedAt(b, i, maxDepth)
    {
      assert LinkedAt(a, i, maxDepth);
      var nd := a[i];
      forall k | Up(nd) <= k < |nd.edges|
        ensures ChildOf(b, i, nd.edges[k])
      {
        assert ChildOf(a, i, nd.edges[k]);
      }
      if !nd.isRoot {
        assert b[nd.edges[0]].edges == a[nd.edges[0]].edges;
      }
    }
    WellLinkedInRange(b, maxDepth);
    NumLeavesShape(a, b);
  }

  /** A leaf anywhere means at least one leaf is counted. */
  lemma {:induction false} LeafCounted(nodes: seq<Node>, i: nat)
    requires i < |nodes| && nodes[i].isLeaf
    ensures NumLeaves(nodes) >= 1
  {
    if i < |nodes| - 1 {
      LeafCounted(nodes[..|nodes| - 1], i);
    }
  }

  // ---------------------------------------------------------------------------
  // One call of `buildSubtree`

  /** What `buildSubtree(p, d, maxDepth)` does to `nodes`: it appends
      `SubtreeSize(d, maxDepth)` complete nodes, pushes the first two (the
      new children) on `p`'s edges, and changes nothing else. */
  predicate SubtreeAppended(a: seq<Node>, b: seq<Node>, p: nat, d: nat, maxDepth: nat) {
    && p < |a|
    && |b| == |a| + SubtreeSize(d, maxDepth)
    && Grows(a, b)
    && (forall i :: 0 <= i < |a| && i != p ==> b[i] == a[i])
    && b[p].edges == a[p].edges + (if d <= maxDepth then [|a|, |a| + 1] else [])
    && (d <= maxDepth ==> ChildOf(b, p, |a|) && ChildOf(b, p, |a| + 1))
    && LinkedRange(b, |a|, |b|, maxDepth)
  }

  /** A child stays a child when the tree grows. */
  lemma ChildOfGrows(a: seq<Node>, b: seq<Node>, i: nat, c: nat)
    requires Grows(a, b) && ChildOf(a, i, c)
    ensures ChildOf(b, i, c)
  {
    assert a[c].edges <= b[c].edges;
  }

  /** A new node whose parent is `p` and whose children (if any) come from
      one `buildSubtree` call is complete. */
  lemma NewNodeLinked(s: seq<Node>, n: nat, p: nat, kids: seq<nat>, maxDepth: nat)
    requires p < n < |s| && !s[n].isRoot && s[n].depth <= maxDepth
    requires s[n].isLeaf == (s[n].depth == maxDepth)
    requires s[n].edges == [p] + kids && n in s[p].edges
    requires |kids| == Kids(s[n], maxDepth)
    requires |kids| == 2 ==> kids[0] < kids[1] && ChildOf(s, n, kids[0]) && ChildOf(s, n, kids[1])
    ensures LinkedAt(s, n, maxDepth)
  {
    var nd := s[n];
    forall k | Up(nd) <= k < |nd.edges|
      ensures ChildOf(s, n, nd.edges[k])
    {
      assert nd.edges[k] == kids[k - 1];
    }
  }

  /** The two fresh children of `p` at `|s0|` and `|s0| + 1`, each with
      only its parent edge, and `p` with the pair pushed. */
  predicate ChildrenAdded(s0: seq<Node>, s1: seq<Node>, p: nat, d: nat, maxDepth: nat) {
    && p < |s0| && |s1| == |s0| + 2
    && s1[p] == s0[p].(edges := s0[p].edges + [|s0|, |s0| + 1])
    && (forall i :: 0 <= i < |s0| && i != p ==> s1[i] == s0[i])
    && (forall c :: |s0| <= c < |s1| ==>
         && !s1[c].isRoot && s1[c].depth == d && s1[c].isLeaf == (d == maxDepth) && s1[c].edges == [p])
  }

  lemma ChildrenGrow(s0: seq<Node>, s1: seq<Node>, p: nat, d: nat, maxDepth: nat)
    requires ChildrenAdded(s0, s1, p, d, maxDepth)
    ensures Grows(s0, s1)
  {
  }

  /** `nodes[p].edges.push(left, right)`, `nodes[left].edges.push(p)`,
      `nodes[right].edges.push(p)` on two freshly appended nodes. */
  /** `nodes[i].edges.push(...es)`. */
  function EdgesPushed(s: seq<Node>, i: nat, es: seq<nat>): (t: seq<Node>)
    requires i < |s|
    ensures |t| == |s|
  {
    s[i := s[i].(edges := s[i].edges + es)]
  }

  /** A push changes the edges of one node and nothing else. */
  lemma EdgesPushedGrows(s: seq<Node>, i: nat, es: seq<nat>)
    requires i < |s|
    ensures Grows(s, EdgesPushed(s, i, es))
    ensures EdgesPushed(s, i, es)[i].edges == s[i].edges + es
    ensures forall k :: 0 <= k < |s| && k != i ==> EdgesPushed(s, i, es)[k] == s[k]
  {
  }

  lemma LinkChildren(s0: seq<Node>, left: Node, right: Node, s: seq<Node>,
                     t3: seq<Node>, p: nat, d: nat, maxDepth: nat)
    requires p < |s0| && s == s0 + [left] + [right]
    requires !left.isRoot && left.depth == d && left.isLeaf == (d == maxDepth) && left.edges == []
    requires !right.isRoot && right.depth == d && right.isLeaf == (d == maxDepth) && right.edges == []
    requires t3 == EdgesPushed(EdgesPushed(EdgesPushed(s, p, [|s0|, |s0| + 1]), |s0|, [p]), |s0| + 1, [p])
    ensures ChildrenAdded(s0, t3, p, d, maxDepth)
    ensures LeafSeq(t3) == LeafSeq(s0) + (if d == maxDepth then [left.pos, right.pos] else [])
  {
    var n0 := |s0|;
    var t1 := EdgesPushed(s, p, [n0, n0 + 1]);
    var t2 := EdgesPushed(t1, n0, [p]);
    EdgesPushedGrows(s, p, [n0, n0 + 1]);
    EdgesPushedGrows(t1, n0, [p]);
    EdgesPushedGrows(t2, n0 + 1, [p]);
    assert t3[p] == t1[p] && t3[n0] == t2[n0] && t2[n0 + 1] == t1[n0 + 1];
    assert s[p] == s0[p] && s[n0] == left && s[n0 + 1] == right;
    forall i | 0 <= i < n0 && i != p
      ensures t3[i] == s0[i]
    {
      assert t3[i] == t2[i] == t1[i] == s[i];
    }
    assert t3[n0].edges == t2[n0].edges == t1[n0].edges + [p] == [] + [p] == [p];
    assert t3[n0 + 1].edges == t2[n0 + 1].edges + [p] == t1[n0 + 1].edges + [p] == [] + [p] == [p];
    forall c | n0 <= c < |t3|
      ensures && !t3[c].isRoot && t3[c].depth == d && t3[c].isLeaf == (d == maxDepth)
              && t3[c].edges == [p]
    {
      if c == n0 {
        assert t3[c] == left.(edges := [p]);
      } else {
        assert t3[c] == right.(edges := [p]);
      }
    }
    GrowsTrans(s, t1, t2);
    GrowsTrans(s, t2, t3);
    LinkLeaves(s0, left, right, s, t3, d == maxDepth);
  }

  /** The pushes leave the leaf positions as the two new nodes made them. */
  lemma LinkLeaves(s0: seq<Node>, left: Node, right: Node, s: seq<Node>, t3: seq<Node>, leaves: bool)
    requires s == s0 + [left] + [right] && Grows(s, t3) && |t3| == |s|
    requires left.isLeaf == leaves && right.isLeaf == leaves
    ensures LeafSeq(t3) == LeafSeq(s0) + (if leaves then [left.pos, right.pos] else [])
  {
    LeafSeqSnoc(s0, left);
    LeafSeqSnoc(s0 + [left], right);
    LeafSeqGrows(s, t3);
    if leaves {
      assert LeafSeq(s0) + [left.pos] + [right.pos] == LeafSeq(s0) + [left.pos, right.pos];
    } else {
      assert LeafSeq(s0) + [] + [] == LeafSeq(s0);
    }
  }

  /** At the deepest level the two children are leaves and the call ends. */
  lemma AssembleLeaves(s0: seq<Node>, s1: seq<Node>, p: nat, maxDepth: nat)
    requires ChildrenAdded(s0, s1, p, maxDepth, maxDepth)
    requires 1 <= maxDepth && s0[p].depth + 1 == maxDepth
    ensures SubtreeAppended(s0, s1, p, maxDepth, maxDepth)
  {
    var n0 := |s0|;
    NewNodeLinked(s1, n0, p, [], maxDepth);
    NewNodeLinked(s1, n0 + 1, p, [], maxDepth);
    ChildrenGrow(s0, s1, p, maxDepth, maxDepth);
  }

  /** Above it, the two children each get a subtree, the left one first. */
  lemma AssembleInner(s0: seq<Node>, s1: seq<Node>, s2: seq<Node>, s3: seq<Node>,
                      p: nat, d: nat, maxDepth: nat)
    requires ChildrenAdded(s0, s1, p, d, maxDepth)
    requires 1 <= d < maxDepth && s0[p].depth + 1 == d
    requires SubtreeAppended(s1, s2, |s0|, d + 1, maxDepth)
    requires SubtreeAppended(s2, s3, |s0| + 1, d + 1, maxDepth)
    ensures SubtreeAppended(s0, s3, p, d, maxDepth)
  {
    var n0, m1, m2 := |s0|, |s1|, |s2|;
    ChildrenGrow(s0, s1, p, d, maxDepth);
    GrowsTrans(s1, s2, s3);
    GrowsTrans(s0, s1, s3);
    InnerLinked(s1, s2, s3, p, n0, d, maxDepth);
    assert ChildOf(s3, p, n0) && ChildOf(s3, p, n0 + 1);
  }

  lemma InnerLinked(s1: seq<Node>, s2: seq<Node>, s3: seq<Node>, p: nat, n0: nat, d: nat, maxDepth: nat)
    requires p < n0 && n0 + 2 == |s1| && d < maxDepth
    requires n0 in s1[p].edges && n0 + 1 in s1[p].edges
    requires forall c :: n0 <= c < |s1| ==>
      && !s1[c].isRoot && s1[c].depth == d && !s1[c].isLeaf && s1[c].edges == [p]
    requires SubtreeAppended(s1, s2, n0, d + 1, maxDepth)
    requires SubtreeAppended(s2, s3, n0 + 1, d + 1, maxDepth)
    ensures LinkedRange(s3, n0, |s3|, maxDepth)
  {
    var m1, m2 := |s1|, |s2|;
    assert SubtreeSize(d + 1, maxDepth) >= 2;
    assert s3[n0] == s2[n0] && s3[p] == s1[p];
    ChildOfGrows(s2, s3, n0, m1);
    ChildOfGrows(s2, s3, n0, m1 + 1);
    NewNodeLinked(s3, n0, p, [m1, m1 + 1], maxDepth);
    NewNodeLinked(s3, n0 + 1, p, [m2, m2 + 1], maxDepth);
    RangePreserved(s2, s3, m1, m2, maxDepth);
  }
}
