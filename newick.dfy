/** `parseNewick` of the Newick tree background. The source splits the text
    with a capturing `split` on `;`, `(`, `)`, `,` and `:` (eating white space
    around them); the parser here starts from that token sequence. Nodes live
    in an arena: a node's children are indices of later nodes, the root is
    node 0. */
module Newick {
  import opened Wrappers

  /** One piece of the split text. Adjacent delimiters leave an empty
      `Text("")` between them, as `split` does. */
  datatype Token = Open | Close | Comma | Colon | Semi | Text(text: string)

  /** A parsed node. `length` keeps the token handed to `parseFloat`, whose
      conversion is not modelled. */
  datatype NNode = NNode(name: Option<string>, length: Option<string>, children: seq<nat>)

  /** The two ways the source throws a TypeError. */
  datatype ParseError =
    | NoOpenGroup(at: nat)       // `,` with an empty stack: `stack[-1].children`
    | NoCurrentNode(at: nat)     // a node token after `)` popped an empty stack

  /** Parser state: the arena, the stack of open parents, and `current`
      (`None` once `stack.pop()` of an empty stack made it `undefined`). */
  datatype State = State(nodes: seq<NNode>, stack: seq<nat>, current: Option<nat>)

  const Leaf := NNode(None, None, [])

  const Start := State([Leaf], [], Some(0))

  /** JavaScript truthiness of `node.name`: unset and `""` are both false. */
  predicate HasName(n: NNode) {
    n.name.Some? && n.name.value != []
  }

  /** Indices stay inside the arena. */
  predicate InArena(st: State) {
    && st.nodes != []
    && (forall k :: 0 <= k < |st.stack| ==> st.stack[k] < |st.nodes|)
    && (st.current.Some? ==> st.current.value < |st.nodes|)
  }

  /** Append a fresh node as the last child of `p`. */
  function AddChild(nodes: seq<NNode>, p: nat): (r: seq<NNode>)
    requires p < |nodes|
    ensures |r| == |nodes| + 1 && r[|nodes|] == Leaf
    ensures r[p].children == nodes[p].children + [|nodes|]
    ensures forall k :: 0 <= k < |nodes| && k != p ==> r[k] == nodes[k]
    ensures r[p].name == nodes[p].name && r[p].length == nodes[p].length
  {
    nodes[p := nodes[p].(children := nodes[p].children + [|nodes|])] + [Leaf]
  }

  /** What a name-or-length token does to `current`. As written, a token
      before `:` is a name, otherwise it is a name if the node has no
      (truthy) name yet and a branch length if it has one. With `corrected`,
      a token right after `:` is always the branch length. */
  function SetText(n: NNode, s: string, prev: Option<Token>, next: Option<Token>, corrected: bool): (r: NNode)
    ensures r.children == n.children
  {
    if next == Some(Colon) then n.(name := Some(s))
    else if corrected && prev == Some(Colon) then n.(length := Some(s))
    else if !HasName(n) then n.(name := Some(s))
    else n.(length := Some(s))
  }

  function TokenAt(tokens: seq<Token>, i: int): Option<Token> {
    if 0 <= i < |tokens| then Some(tokens[i]) else None
  }

  /** One iteration of the loop on token `i` (never `;`, which ends it). */
  function Step(tokens: seq<Token>, i: nat, st: State, corrected: bool): (r: Result<State, ParseError>)
    requires i < |tokens| && InArena(st)
    ensures r.Ok? ==> InArena(r.value)
    ensures r.Err? ==> r.error.at == i
  {
    match tokens[i]
    case Open =>
      if st.current.None? then Err(NoCurrentNode(i))
      else
        var c := st.current.value;
        Ok(State(AddChild(st.nodes, c), st.stack + [c], Some(|st.nodes|)))
    case Comma =>
      if st.stack == [] then Err(NoOpenGroup(i))
      else Ok(State(AddChild(st.nodes, st.stack[|st.stack| - 1]), st.stack, Some(|st.nodes|)))
    case Close =>
      if st.stack == [] then Ok(State(st.nodes, [], None))
      else Ok(State(st.nodes, st.stack[..|st.stack| - 1], Some(st.stack[|st.stack| - 1])))
    case Colon => Ok(st)
    case Semi => Ok(st)
    case Text(s) =>
      if st.current.None? then Err(NoCurrentNode(i))
      else
        var c := st.current.value;
        var n := SetText(st.nodes[c], s, TokenAt(tokens, i - 1), TokenAt(tokens, i + 1), corrected);
        Ok(st.(nodes := st.nodes[c := n]))
  }

  /** The loop from token `i` on, stopping at `;` or the end. */
  function Run(tokens: seq<Token>, i: nat, st: State, corrected: bool): (r: Result<State, ParseError>)
    requires i <= |tokens| && InArena(st)
    ensures r.Ok? ==> InArena(r.value)
    ensures r.Err? ==> i <= r.error.at < |tokens|
    decreases |tokens| - i
  {
    if i == |tokens| || tokens[i] == Semi then Ok(st)
    else
      match Step(tokens, i, st, corrected)
      case Err(e) => Err(e)
      case Ok(next) => Run(tokens, i + 1, next, corrected)
  }

  /** The arena the loop builds from `Start`, or the error it throws at a
      token. */
  function Parse(tokens: seq<Token>, corrected: bool): (r: Result<seq<NNode>, ParseError>)
    ensures r.Ok? ==> r.value != []
    ensures r.Err? ==> r.error.at < |tokens|
  {
    match Run(tokens, 0, Start, corrected)
    case Err(e) => Err(e)
    case Ok(st) => Ok(st.nodes)
  }

  /** The source's loop: a `current` reference, a stack of open parents, and
      nodes whose `children`, `name` and `length` it updates in place. */
  method ParseNewick(tokens: seq<Token>, corrected: bool) returns (r: Result<seq<NNode>, ParseError>)
    ensures r == Parse(tokens, corrected)
  {
    var nodes: seq<NNode> := [Leaf];
    var stack: seq<nat> := [];
    var current: Option<nat> := Some(0);
    var i := 0;
    while i < |tokens|
      invariant i <= |tokens| && InArena(State(nodes, stack, current))
      invariant Run(tokens, 0, Start, corrected) == Run(tokens, i, State(nodes, stack, current), corrected)
      decreases |tokens| - i
    {
      var token := tokens[i];
      if token == Open {
        if current.None? {
          return Err(NoCurrentNode(i));
        }
        var c := current.value;
        var child := |nodes|;
        nodes := nodes[c := nodes[c].(children := nodes[c].children + [child])] + [Leaf];
        stack := stack + [c];
        current := Some(child);
      } else if token == Comma {
        if stack == [] {
          return Err(NoOpenGroup(i));
        }
        var p := stack[|stack| - 1];
        var sibling := |nodes|;
        nodes := nodes[p := nodes[p].(children := nodes[p].children + [sibling])] + [Leaf];
        current := Some(sibling);
      } else if token == Close {
        if stack == [] {
          current := None;
        } else {
          current := Some(stack[|stack| - 1]);
          stack := stack[..|stack| - 1];
        }
      } else if token == Colon {
        // the branch length is the next token
      } else if token == Semi {
        break;
      } else {
        if current.None? {
          return Err(NoCurrentNode(i));
        }
        var c := current.value;
        var nextToken := if i + 1 < |tokens| then Some(tokens[i + 1]) else None;
        var prevToken := if i > 0 then Some(tokens[i - 1]) else None;
        if nextToken == Some(Colon) {
          nodes := nodes[c := nodes[c].(name := Some(token.text))];
        } else if corrected && prevToken == Some(Colon) {
          nodes := nodes[c := nodes[c].(length := Some(token.text))];
        } else if !HasName(nodes[c]) {
          nodes := nodes[c := nodes[c].(name := Some(token.text))];
        } else {
          nodes := nodes[c := nodes[c].(length := Some(token.text))];
        }
      }
      i := i + 1;
    }
    return Ok(nodes);
  }

  // ---------------------------------------------------------------------------
  // What the parse produces

  /** The tokens the loop looks at: everything before the first `;`. */
  function BeforeSemi(tokens: seq<Token>): (r: seq<Token>)
    ensures |r| <= |tokens| && r == tokens[..|r|]
    ensures Semi !in r
    ensures |r| < |tokens| ==> tokens[|r|] == Semi
  {
    if tokens == [] || tokens[0] == Semi then []
    else
      var rest := BeforeSemi(tokens[1..]);
      assert tokens[1..][..|rest|] == tokens[1..|rest| + 1];
      [tokens[0]] + rest
  }

  /** The tokens that create a node: `(` a first child, `,` a sibling. */
  function CountNodeTokens(ts: seq<Token>): nat {
    if ts == [] then 0
    else (if ts[0] == Open || ts[0] == Comma then 1 else 0) + CountNodeTokens(ts[1..])
  }

  lemma {:induction false} RunCount(tokens: seq<Token>, i: nat, st: State, corrected: bool)
    requires i <= |tokens| && InArena(st)
    ensures Run(tokens, i, st, corrected).Ok? ==>
      |Run(tokens, i, st, corrected).value.nodes| == |st.nodes| + CountNodeTokens(BeforeSemi(tokens[i..]))
    decreases |tokens| - i
  {
    if i < |tokens| && tokens[i] != Semi {
      assert tokens[i..][1..] == tokens[i + 1..];
      match Step(tokens, i, st, corrected)
      case Err(_) =>
      case Ok(next) =>
        RunCount(tokens, i + 1, next, corrected);
    }
  }

  /** One node for the root and one for every `(` and `,` before the `;`. */
  lemma NodeCount(tokens: seq<Token>, corrected: bool)
    ensures Parse(tokens, corrected).Ok? ==>
      |Parse(tokens, corrected).value| == 1 + CountNodeTokens(BeforeSemi(tokens))
  {
    RunCount(tokens, 0, Start, corrected);
    assert tokens[0..] == tokens;
  }

  lemma {:induction false} RunIgnoresTail(tokens: seq<Token>, rest: seq<Token>, i: nat, st: State, corrected: bool)
    requires i <= |tokens| && InArena(st) && Semi in tokens[i..]
    ensures Run(tokens + rest, i, st, corrected) == Run(tokens, i, st, corrected)
    decreases |tokens| - i
  {
    var all := tokens + rest;
    assert i < |tokens|;
    assert all[i] == tokens[i];
    if tokens[i] != Semi {
      assert tokens[i..] == [tokens[i]] + tokens[i + 1..];
      assert Semi in tokens[i + 1..];
      assert i + 1 < |tokens|;
      assert TokenAt(all, i - 1) == TokenAt(tokens, i - 1);
      assert TokenAt(all, i + 1) == TokenAt(tokens, i + 1);
      assert Step(all, i, st, corrected) == Step(tokens, i, st, corrected);
      match Step(tokens, i, st, corrected)
      case Err(_) =>
      case Ok(next) =>
        RunIgnoresTail(tokens, rest, i + 1, next, corrected);
    }
  }

  /** `;` ends parsing: whatever follows it is never looked at. */
  lemma IgnoresAfterSemi(before: seq<Token>, rest: seq<Token>, corrected: bool)
    ensures Parse(before + [Semi] + rest, corrected) == Parse(before + [Semi], corrected)
  {
    assert Semi in (before + [Semi])[0..] by {
      assert (before + [Semi])[0..][|before|] == Semi;
    }
    RunIgnoresTail(before + [Semi], rest, 0, Start, corrected);
  }

  // ---------------------------------------------------------------------------
  // The arena is a tree rooted at node 0

  /** The children lists of an arena, which is all its shape. */
  function Shape(nodes: seq<NNode>): (kids: seq<seq<nat>>)
    ensures |kids| == |nodes| && forall k :: 0 <= k < |nodes| ==> kids[k] == nodes[k].children
  {
    seq(|nodes|, k requires 0 <= k < |nodes| => nodes[k].children)
  }

  /** Every child index points past its parent and into the arena. */
  predicate ChildrenAfterParent(kids: seq<seq<nat>>) {
    forall p, j :: 0 <= p < |kids| && 0 <= j < |kids[p]| ==> p < kids[p][j] < |kids|
  }

  /** Children are listed in creation order. */
  predicate ChildrenInOrder(kids: seq<seq<nat>>) {
    forall p, i, j :: 0 <= p < |kids| && 0 <= i < j < |kids[p]| ==> kids[p][i] < kids[p][j]
  }

  /** No node is listed twice, under one parent or two. */
  predicate OneParent(kids: seq<seq<nat>>) {
    forall p, q, i, j ::
      (0 <= p < |kids| && 0 <= q < |kids| && 0 <= i < |kids[p]| && 0 <= j < |kids[q]|
       && kids[p][i] == kids[q][j]) ==> p == q && i == j
  }

  predicate HasParent(kids: seq<seq<nat>>, k: nat) {
    exists p :: 0 <= p < k && p < |kids| && k in kids[p]
  }

  /** Every node but the root is somebody's child. */
  predicate Connected(kids: seq<seq<nat>>) {
    forall k: nat :: 1 <= k < |kids| ==> HasParent(kids, k)
  }

  predicate IsTree(kids: seq<seq<nat>>) {
    kids != [] && ChildrenAfterParent(kids) && ChildrenInOrder(kids) && OneParent(kids) && Connected(kids)
  }

  predicate ArenaTree(nodes: seq<NNode>) {
    IsTree(Shape(nodes))
  }

  /** The shape after `AddChild`: one more child of `c`, one more leaf. */
  function AddKid(kids: seq<seq<nat>>, c: nat): seq<seq<nat>>
    requires c < |kids|
  {
    kids[c := kids[c] + [|kids|]] + [[]]
  }

  lemma AddChildShape(nodes: seq<NNode>, c: nat)
    requires c < |nodes|
    ensures Shape(AddChild(nodes, c)) == AddKid(Shape(nodes), c)
  {
  }

  lemma AddKidAfterParent(kids: seq<seq<nat>>, c: nat)
    requires c < |kids| && ChildrenAfterParent(kids)
    ensures ChildrenAfterParent(AddKid(kids, c))
  {
    var r := AddKid(kids, c);
    forall p, j | 0 <= p < |r| && 0 <= j < |r[p]|
      ensures p < r[p][j] < |r|
    {
      if p < |kids| && j < |kids[p]| {
        assert r[p][j] == kids[p][j];
      }
    }
  }

  lemma AddKidInOrder(kids: seq<seq<nat>>, c: nat)
    requires c < |kids| && ChildrenAfterParent(kids) && ChildrenInOrder(kids)
    ensures ChildrenInOrder(AddKid(kids, c))
  {
    var r := AddKid(kids, c);
    forall p, i, j | 0 <= p < |r| && 0 <= i < j < |r[p]|
      ensures r[p][i] < r[p][j]
    {
      assert r[p][i] == kids[p][i];
    }
  }

  lemma AddKidOneParent(kids: seq<seq<nat>>, c: nat)
    requires c < |kids| && ChildrenAfterParent(kids) && OneParent(kids)
    ensures OneParent(AddKid(kids, c))
  {
    var r := AddKid(kids, c);
    var n := |kids|;
    forall p, q, i, j | 0 <= p < |r| && 0 <= q < |r| && 0 <= i < |r[p]| && 0 <= j < |r[q]| && r[p][i] == r[q][j]
      ensures p == q && i == j
    {
      if p < n && i < |kids[p]| {
        assert r[p][i] == kids[p][i] < n;
      }
      if q < n && j < |kids[q]| {
        assert r[q][j] == kids[q][j] < n;
      }
    }
  }

  lemma AddKidConnected(kids: seq<seq<nat>>, c: nat)
    requires c < |kids| && Connected(kids)
    ensures Connected(AddKid(kids, c))
  {
    var r := AddKid(kids, c);
    forall k: nat | 1 <= k < |r|
      ensures HasParent(r, k)
    {
      if k == |kids| {
        assert k in r[c];
      } else {
        assert HasParent(kids, k);
        var p :| 0 <= p < k && p < |kids| && k in kids[p];
        assert k in r[p];
      }
    }
  }

  lemma AddChildKeepsTree(nodes: seq<NNode>, c: nat)
    requires ArenaTree(nodes) && c < |nodes|
    ensures ArenaTree(AddChild(nodes, c))
  {
    var kids := Shape(nodes);
    AddChildShape(nodes, c);
    AddKidAfterParent(kids, c);
    AddKidInOrder(kids, c);
    AddKidOneParent(kids, c);
    AddKidConnected(kids, c);
  }

  lemma SetTextKeepsShape(nodes: seq<NNode>, c: nat, n: NNode)
    requires c < |nodes| && n.children == nodes[c].children
    ensures Shape(nodes[c := n]) == Shape(nodes)
  {
  }

  lemma StepKeepsTree(tokens: seq<Token>, i: nat, st: State, corrected: bool)
    requires i < |tokens| && InArena(st) && ArenaTree(st.nodes)
    ensures Step(tokens, i, st, corrected).Ok? ==> ArenaTree(Step(tokens, i, st, corrected).value.nodes)
  {
    match tokens[i]
    case Open =>
      if st.current.Some? {
        AddChildKeepsTree(st.nodes, st.current.value);
      }
    case Comma =>
      if st.stack != [] {
        AddChildKeepsTree(st.nodes, st.stack[|st.stack| - 1]);
      }
    case Close =>
    case Colon =>
    case Semi =>
    case Text(s) =>
      if st.current.Some? {
        var c := st.current.value;
        SetTextKeepsShape(st.nodes, c, SetText(st.nodes[c], s, TokenAt(tokens, i - 1), TokenAt(tokens, i + 1), corrected));
      }
  }

  lemma {:induction false} RunKeepsTree(tokens: seq<Token>, i: nat, st: State, corrected: bool)
    requires i <= |tokens| && InArena(st) && ArenaTree(st.nodes)
    ensures Run(tokens, i, st, corrected).Ok? ==> ArenaTree(Run(tokens, i, st, corrected).value.nodes)
    decreases |tokens| - i
  {
    if i < |tokens| && tokens[i] != Semi {
      StepKeepsTree(tokens, i, st, corrected);
      match Step(tokens, i, st, corrected)
      case Err(_) =>
      case Ok(next) =>
        RunKeepsTree(tokens, i + 1, next, corrected);
    }
  }

  /** A successful parse is a tree rooted at node 0: each other node has
      exactly one parent, which was created before it. */
  lemma ParseIsTree(tokens: seq<Token>, corrected: bool)
    ensures Parse(tokens, corrected).Ok? ==> ArenaTree(Parse(tokens, corrected).value)
  {
    RunKeepsTree(tokens, 0, Start, corrected);
  }

  // ---------------------------------------------------------------------------
  // Branch lengths of unnamed nodes

  /** Two arenas with the same shape; names and lengths may differ. */
  predicate SameShape(a: seq<NNode>, b: seq<NNode>) {
    Shape(a) == Shape(b)
  }

  lemma {:induction false} RunShape(tokens: seq<Token>, i: nat, a: State, b: State)
    requires i <= |tokens| && InArena(a) && InArena(b)
    requires a.stack == b.stack && a.current == b.current && SameShape(a.nodes, b.nodes)
    ensures Run(tokens, i, a, false).Ok? <==> Run(tokens, i, b, true).Ok?
    ensures Run(tokens, i, a, false).Err? ==> Run(tokens, i, a, false) == Run(tokens, i, b, true)
    ensures Run(tokens, i, a, false).Ok? ==>
      SameShape(Run(tokens, i, a, false).value.nodes, Run(tokens, i, b, true).value.nodes)
    decreases |tokens| - i
  {
    if i < |tokens| && tokens[i] != Semi {
      var sa, sb := Step(tokens, i, a, false), Step(tokens, i, b, true);
      assert sa.Ok? <==> sb.Ok?;
      if sa.Ok? {
        assert sa.value.stack == sb.value.stack && sa.value.current == sb.value.current;
        assert SameShape(sa.value.nodes, sb.value.nodes);
        RunShape(tokens, i + 1, sa.value, sb.value);
      } else {
        assert sa == sb;
      }
    }
  }

  /** Reading a token after `:` as a length instead of as a name changes no
      tree shape and no error, so the layout drawn from it is the same. */
  lemma CorrectionKeepsShape(tokens: seq<Token>)
    ensures Parse(tokens, false).Ok? <==> Parse(tokens, true).Ok?
    ensures Parse(tokens, false).Err? ==> Parse(tokens, false) == Parse(tokens, true)
    ensures Parse(tokens, false).Ok? ==> SameShape(Parse(tokens, false).value, Parse(tokens, true).value)
  {
    RunShape(tokens, 0, Start, Start);
  }

  /** The tokens of `:3;` (an unnamed root with branch length 3) as the
      source's `split` produces them. */
  const UnnamedWithLength: seq<Token> := [Text(""), Colon, Text("3"), Semi, Text("")]

  /** As written, a node whose name token is empty takes the branch length
      after `:` as its name: the empty name set before `:` is falsy. */
  lemma LengthBecomesName(tokens: seq<Token>, i: nat, st: State)
    requires 0 < i && i + 1 < |tokens| && InArena(st) && st.current.Some?
    requires tokens[i - 1] == Colon && tokens[i].Text? && tokens[i + 1] != Colon
    requires st.nodes[st.current.value].name == Some("")
    ensures Step(tokens, i, st, false).Ok?
    ensures var c := st.current.value;
      Step(tokens, i, st, false).value.nodes[c]
        == st.nodes[c].(name := Some(tokens[i].text))
  {
  }

  /** So `:3;` parses to a root named "3" with no branch length. */
  lemma UnnamedRootNamedByLength()
    ensures Parse(UnnamedWithLength, false) == Ok([NNode(Some("3"), None, [])])
  {
    var t := UnnamedWithLength;
    var n0 := NNode(Some(""), None, []);
    var n2 := NNode(Some("3"), None, []);
    assert t[0].text == "" && t[2].text == "3";
    assert Start.nodes[0 := n0] == [n0];
    var s1 := Start.(nodes := [n0]);
    assert Step(t, 0, Start, false) == Ok(s1);
    assert Step(t, 1, s1, false) == Ok(s1);
    assert s1.nodes[0 := n2] == [n2];
    var s3 := Start.(nodes := [n2]);
    assert Step(t, 2, s1, false) == Ok(s3);
    assert Run(t, 3, s3, false) == Ok(s3);
  }

  /** With the correction the same tokens give an unnamed root of length 3. */
  lemma CorrectedRootKeepsLength()
    ensures Parse(UnnamedWithLength, true) == Ok([NNode(Some(""), Some("3"), [])])
  {
    var t := UnnamedWithLength;
    var n0 := NNode(Some(""), None, []);
    var n2 := NNode(Some(""), Some("3"), []);
    assert t[0].text == "" && t[2].text == "3";
    assert Start.nodes[0 := n0] == [n0];
    var s1 := Start.(nodes := [n0]);
    assert Step(t, 0, Start, true) == Ok(s1);
    assert Step(t, 1, s1, true) == Ok(s1);
    assert s1.nodes[0 := n2] == [n2];
    var s3 := Start.(nodes := [n2]);
    assert Step(t, 2, s1, true) == Ok(s3);
    assert Run(t, 3, s3, true) == Ok(s3);
  }

  /** With the correction, a token after `:` is recorded as the branch length
      of the node it follows and leaves its name alone. */
  lemma LengthAfterColon(tokens: seq<Token>, i: nat, st: State)
    requires 0 < i && i + 1 < |tokens| && InArena(st) && st.current.Some?
    requires tokens[i - 1] == Colon && tokens[i].Text? && tokens[i + 1] != Colon
    ensures Step(tokens, i, st, true).Ok?
    ensures var c := st.current.value;
      Step(tokens, i, st, true).value.nodes[c]
        == st.nodes[c].(length := Some(tokens[i].text))
  {
  }
}
