/** `parseFrontmatter` of the posts utilities: the `---` block at the head
    of a markdown post, read line by line into a dictionary of text values
    and lists. */
module FrontMatter {
  import opened Wrappers
  import opened JsStrings

  /** A front-matter value: a scalar string or a list of strings. */
  datatype Value = Text(text: string) | Items(items: seq<string>)

  // ---------------------------------------------------------------------------
  // The block regular expression `^---[\r\n]([\s\S]*?)[\r\n]---`

  predicate IsBreak(c: char) {
    c == '\r' || c == '\n'
  }

  /** The content opens with `---` and one line-break character. */
  predicate Opens(content: string) {
    4 <= |content| && content[..3] == "---" && IsBreak(content[3])
  }

  /** A body of length `m` can be closed: a line-break character and `---`
      follow it. */
  predicate ClosesAt(content: string, m: nat) {
    8 + m <= |content| && IsBreak(content[4 + m]) && content[5 + m..8 + m] == "---"
  }

  /** The lazy `*?`: the shortest body length from `m` on that closes. */
  function FirstClose(content: string, m: nat): (r: Option<nat>)
    ensures r.Some? ==> m <= r.value && ClosesAt(content, r.value)
    ensures r.Some? ==> forall k :: m <= k < r.value ==> !ClosesAt(content, k)
    ensures r.None? ==> forall k :: m <= k ==> !ClosesAt(content, k)
    decreases |content| - m
  {
    if |content| < 8 + m then None
    else if ClosesAt(content, m) then Some(m)
    else FirstClose(content, m + 1)
  }

  /** The captured front matter, or `None` when the regex does not match. */
  function Block(content: string): (r: Option<string>)
    ensures r.Some? <==> Opens(content) && exists m :: ClosesAt(content, m)
    ensures r.Some? ==> && ClosesAt(content, |r.value|)
                        && r.value == content[4..4 + |r.value|]
                        && forall k: nat :: k < |r.value| ==> !ClosesAt(content, k)
  {
    if !Opens(content) then None
    else
      match FirstClose(content, 0)
      case None => None
      case Some(m) =>
        assert ClosesAt(content, m);
        Some(content[4..4 + m])
  }

  /** `content.replace(/^---[\r\n][\s\S]*?[\r\n]---[\r\n]?/, '')`: the block
      and at most one line-break character after it are removed. */
  function StripBlock(content: string): (r: string)
    ensures Block(content).None? ==> r == content
    ensures Block(content).Some? ==>
      var e := 8 + |Block(content).value|;
      || (e <= |content| && r == content[e..] && (r == [] || !IsBreak(r[0])))
      || (e < |content| && IsBreak(content[e]) && r == content[e + 1..])
  {
    match Block(content)
    case None => content
    case Some(b) =>
      var e := 8 + |b|;
      if e < |content| && IsBreak(content[e]) then content[e + 1..] else content[e..]
  }

  // ---------------------------------------------------------------------------
  // `frontmatter.split(/\r?\n/)`

  /** The pieces joined back with line feeds. */
  function Join(ps: seq<string>): string
    requires |ps| >= 1
  {
    if |ps| == 1 then ps[0] else ps[0] + "\n" + Join(ps[1..])
  }

  /** `s.split('\n')`: the text before the first line feed, then the
      pieces of the rest. */
  function Pieces(s: string): (ps: seq<string>)
    ensures |ps| >= 1
    decreases |s|
  {
    var i := IndexOf(s, '\n');
    if i == -1 then [s] else [s[..i]] + Pieces(s[i + 1..])
  }

  /** The pieces join back to the text. */
  lemma {:induction false} PiecesJoin(s: string)
    ensures Join(Pieces(s)) == s
    decreases |s|
  {
    var i := IndexOf(s, '\n');
    if i != -1 {
      var tail := s[i + 1..];
      PiecesJoin(tail);
      JoinFirstPiece(s, i);
      SplitAround(s, i);
    }
  }

  lemma SplitAround(s: string, i: int)
    requires 0 <= i < |s| && s[i] == '\n'
    ensures s == s[..i] + "\n" + s[i + 1..]
  {
    assert s[..i] + [s[i]] + s[i + 1..] == s;
  }

  /** Unfolds the join of the pieces at the first line feed. */
  lemma JoinFirstPiece(s: string, i: int)
    requires i == IndexOf(s, '\n') && i != -1
    ensures Join(Pieces(s)) == s[..i] + "\n" + Join(Pieces(s[i + 1..]))
  {
    var ps := Pieces(s);
    var rest := Pieces(s[i + 1..]);
    assert ps == [s[..i]] + rest;
    assert ps[0] == s[..i] && ps[1..] == rest;
  }

  /** No piece holds a line feed. */
  lemma {:induction false} PiecesHaveNoBreak(s: string)
    ensures forall j :: 0 <= j < |Pieces(s)| ==> '\n' !in Pieces(s)[j]
    decreases |s|
  {
    var i := IndexOf(s, '\n');
    if i != -1 {
      var rest := Pieces(s[i + 1..]);
      PiecesHaveNoBreak(s[i + 1..]);
      forall j | 1 <= j < |Pieces(s)|
        ensures '\n' !in Pieces(s)[j]
      {
        assert Pieces(s)[j] == rest[j - 1];
      }
    }
  }

  /** Drops the carriage return a piece ends with, unless it is the last. */
  function DropCr(ps: seq<string>, i: nat): (line: string)
    requires i < |ps|
    ensures line == ps[i] || (i < |ps| - 1 && ps[i] == line + "\r")
  {
    if i < |ps| - 1 && EndsWith(ps[i], "\r") then
      var line := ps[i][..|ps[i]| - 1];
      assert ps[i] == line + "\r";
      line
    else ps[i]
  }

  /** `s.split(/\r?\n/)`: a carriage return right before a line feed belongs
      to the separator. */
  function Lines(s: string): (ls: seq<string>)
    ensures |ls| == |Pieces(s)| >= 1
  {
    var ps := Pieces(s);
    seq(|ps|, i requires 0 <= i < |ps| => DropCr(ps, i))
  }

  /** No line holds a line feed. */
  lemma LinesHaveNoBreak(s: string)
    ensures forall i :: 0 <= i < |Lines(s)| ==> '\n' !in Lines(s)[i]
  {
    var ps := Pieces(s);
    var ls := Lines(s);
    PiecesHaveNoBreak(s);
    forall i | 0 <= i < |ls|
      ensures '\n' !in ls[i]
    {
      if ls[i] != ps[i] {
        assert ps[i] == ls[i] + "\r";
        assert forall k :: 0 <= k < |ls[i]| ==> ls[i][k] == ps[i][k];
      }
    }
  }

  // ---------------------------------------------------------------------------
  // One line

  predicate IsQuote(c: char) {
    c == '\'' || c == '"'
  }

  /** The characters the regular-expression `.` does not match. */
  predicate IsLineTerminator(c: char) {
    c == '\n' || c == '\r' || c == '\U{2028}' || c == '\U{2029}'
  }

  /** `v.replace(/^['"](.*)['"]$/, '$1')`: one pair of quotes, either kind
      and not necessarily matching, is removed when nothing between them
      ends a line. */
  function Unquote(v: string): (r: string)
    ensures |r| == |v| || |r| == |v| - 2
    ensures |r| == |v| - 2 <==>
      && |v| >= 2 && IsQuote(v[0]) && IsQuote(v[|v| - 1])
      && forall i :: 1 <= i < |v| - 1 ==> !IsLineTerminator(v[i])
    ensures |r| == |v| ==> r == v
    ensures |r| == |v| - 2 ==> r == v[1..|v| - 1]
  {
    if |v| >= 2 && IsQuote(v[0]) && IsQuote(v[|v| - 1])
       && forall i :: 1 <= i < |v| - 1 ==> !IsLineTerminator(v[i])
    then v[1..|v| - 1]
    else v
  }

  /** How the callback reads one line. */
  datatype LineKind =
    | Blank                              // empty once trimmed: skipped
    | Item(item: string)                 // starts with `-`: the rest, trimmed
    | Pair(key: string, value: string)   // `key: value`, both trimmed
    | Plain                              // anything else: ignored

  /** The kind of a line, from the line trimmed. */
  function KindOfTrimmed(t: string): LineKind {
    if t == [] then Blank
    else if t[0] == '-' then Item(Trim(t[1..]))
    else
      var c := IndexOf(t, ':');
      if c == -1 then Plain else Pair(Trim(t[..c]), Trim(t[c + 1..]))
  }

  function Classify(line: string): LineKind {
    KindOfTrimmed(Trim(line))
  }

  /** A line is blank once trimmed, an item when it then starts with `-`,
      a pair split at its first colon, or else ignored. */
  lemma ClassifyMeaning(line: string)
    ensures Classify(line).Blank? <==> Trim(line) == []
    ensures Classify(line).Item? <==> Trim(line) != [] && Trim(line)[0] == '-'
    ensures Classify(line).Item? ==> Classify(line).item == Trim(Trim(line)[1..])
    ensures Classify(line).Pair? <==> Trim(line) != [] && Trim(line)[0] != '-' && ':' in Trim(line)
    ensures Classify(line).Pair? ==>
      var t := Trim(line);
      exists c :: && 0 <= c < |t| && t[c] == ':' && ':' !in t[..c]
                  && Classify(line).key == Trim(t[..c]) && Classify(line).value == Trim(t[c + 1..])
  {
    var t := Trim(line);
    if t != [] && t[0] != '-' && ':' in t {
      var c := IndexOf(t, ':');
      assert t[c] == ':' && ':' !in t[..c];
    }
  }

  // ---------------------------------------------------------------------------
  // The line-by-line state machine

  /** `data`, `currentKey` (`None` for `null`) and `inArray`. */
  datatype State = State(data: map<string, Value>, currentKey: Option<string>, inArray: bool)

  const Initial := State(map[], None, false)

  /** JavaScript truthiness of `currentKey`: neither `null` nor `""`. */
  predicate HasKey(st: State) {
    st.currentKey.Some? && st.currentKey.value != []
  }

  /** List mode always has a key whose value is a list. */
  predicate Inv(st: State) {
    st.inArray ==> HasKey(st) && st.currentKey.value in st.data && st.data[st.currentKey.value].Items?
  }

  /** The body of the `forEach` callback for one classified line. */
  function Step(st: State, k: LineKind): (r: State)
    requires Inv(st)
    ensures Inv(r)
    ensures st.data.Keys <= r.data.Keys
  {
    match k
    case Blank => st
    case Plain => st
    case Item(item) =>
      var st' := if HasKey(st) && !st.inArray
                 then st.(data := st.data[st.currentKey.value := Items([])], inArray := true)
                 else st;
      if st'.inArray && item != [] then
        var key := st'.currentKey.value;
        st'.(data := st'.data[key := Items(st'.data[key].items + [Unquote(item)])])
      else st'
    case Pair(key, value) =>
      State(if value != [] then st.data[key := Text(Unquote(value))] else st.data, Some(key), false)
  }

  /** The state after a sequence of classified lines. */
  function Run(ks: seq<LineKind>): (r: State)
    ensures Inv(r)
  {
    if ks == [] then Initial else Step(Run(ks[..|ks| - 1]), ks[|ks| - 1])
  }

  function Kinds(lines: seq<string>): (ks: seq<LineKind>)
    ensures |ks| == |lines|
  {
    if lines == [] then [] else Kinds(lines[..|lines| - 1]) + [Classify(lines[|lines| - 1])]
  }

  /** What `parseFrontmatter(content).data` holds. */
  function FrontmatterData(content: string): map<string, Value> {
    match Block(content)
    case None => map[]
    case Some(b) => Run(Kinds(Lines(b))).data
  }

  /** `parseFrontmatter`: match the block, split it into lines and run the
      callback over each. */
  method ParseFrontmatter(content: string) returns (data: map<string, Value>)
    ensures data == FrontmatterData(content)
    ensures Block(content).None? ==> data == map[]
  {
    var block := Block(content);
    if block.None? {
      return map[];
    }
    var lines := Lines(block.value);
    data := ForEachLine(lines);
  }

  /** The run over one more line is one more step. */
  lemma KindsSnoc(lines: seq<string>, i: nat)
    requires i < |lines|
    ensures Run(Kinds(lines[..i + 1])) == Step(Run(Kinds(lines[..i])), Classify(lines[i]))
  {
    assert lines[..i + 1][..i] == lines[..i];
    var ks := Kinds(lines[..i + 1]);
    assert ks == Kinds(lines[..i]) + [Classify(lines[i])];
    assert ks[..|ks| - 1] == Kinds(lines[..i]);
  }

  /** `lines.forEach(...)`: the callback updates `data`, `currentKey` and
      `inArray` line after line. */
  method ForEachLine(lines: seq<string>) returns (data: map<string, Value>)
    ensures data == Run(Kinds(lines)).data
  {
    data := map[];
    var currentKey: Option<string> := None;
    var inArray := false;
    for i := 0 to |lines|
      invariant State(data, currentKey, inArray) == Run(Kinds(lines[..i]))
    {
      KindsSnoc(lines, i);
      data, currentKey, inArray := HandleLine(lines[i], data, currentKey, inArray);
    }
    assert lines[..|lines|] == lines;
  }

  /** The `forEach` callback: one line read against the closure's `data`,
      `currentKey` and `inArray`. */
  method HandleLine(line: string, data: map<string, Value>, currentKey: Option<string>, inArray: bool)
    returns (data': map<string, Value>, currentKey': Option<string>, inArray': bool)
    requires Inv(State(data, currentKey, inArray))
    ensures State(data', currentKey', inArray') == Step(State(data, currentKey, inArray), Classify(line))
  {
    if line == [] {
      assert Trim(line) == [];
      return data, currentKey, inArray;
    }
    var trimmed := Trim(line);
    data', currentKey', inArray' := HandleTrimmed(trimmed, data, currentKey, inArray);
  }

  /** The callback after `line.trim()`. */
  method HandleTrimmed(trimmed: string, data: map<string, Value>, currentKey: Option<string>, inArray: bool)
    returns (data': map<string, Value>, currentKey': Option<string>, inArray': bool)
    requires Inv(State(data, currentKey, inArray))
    ensures State(data', currentKey', inArray') == Step(State(data, currentKey, inArray), KindOfTrimmed(trimmed))
  {
    if trimmed == [] {
      assert KindOfTrimmed(trimmed) == Blank;
      return data, currentKey, inArray;
    }
    if trimmed[0] == '-' {
      data', inArray' := HandleItem(trimmed, data, currentKey, inArray);
      return data', currentKey, inArray';
    }
    var colon := IndexOf(trimmed, ':');
    if colon == -1 {
      assert KindOfTrimmed(trimmed) == Plain;
      return data, currentKey, inArray;
    }
    var key := Trim(trimmed[..colon]);
    var value := Trim(trimmed[colon + 1..]);
    PairKind(trimmed, colon);
    data', currentKey', inArray' := HandlePair(key, value, data, State(data, currentKey, inArray));
  }

  lemma PairKind(trimmed: string, colon: int)
    requires trimmed != [] && trimmed[0] != '-' && colon == IndexOf(trimmed, ':') && colon != -1
    ensures KindOfTrimmed(trimmed) == Pair(Trim(trimmed[..colon]), Trim(trimmed[colon + 1..]))
  {
  }

  /** A trimmed line starting with `-`: open the current key's list if need
      be, then append the quoted-stripped item when list mode is on. */
  method HandleItem(trimmed: string, data: map<string, Value>, currentKey: Option<string>, inArray: bool)
    returns (data': map<string, Value>, inArray': bool)
    requires trimmed != [] && trimmed[0] == '-' && Inv(State(data, currentKey, inArray))
    ensures State(data', currentKey, inArray') == Step(State(data, currentKey, inArray), KindOfTrimmed(trimmed))
  {
    assert KindOfTrimmed(trimmed) == Item(Trim(trimmed[1..]));
    data', inArray' := data, inArray;
    if currentKey.Some? && currentKey.value != [] && !inArray' {
      data' := data'[currentKey.value := Items([])];
      inArray' := true;
    }
    if inArray' {
      var value := Trim(trimmed[1..]);
      if value != [] {
        var clean := Unquote(value);
        data' := data'[currentKey.value := Items(data'[currentKey.value].items + [clean])];
      }
    }
  }

  /** A line `key: value`: the key becomes current, list mode ends, and a
      non-empty value is stored with its quotes stripped. */
  method HandlePair(key: string, value: string, data: map<string, Value>, ghost st: State)
    returns (data': map<string, Value>, currentKey': Option<string>, inArray': bool)
    requires Inv(st) && st.data == data
    ensures State(data', currentKey', inArray') == Step(st, Pair(key, value))
  {
    data' := data;
    currentKey' := Some(key);
    inArray' := false;
    if value != [] {
      var clean := Unquote(value);
      data' := data'[key := Text(clean)];
    }
  }

  // ---------------------------------------------------------------------------
  // Properties of the state machine

  /** Blank lines and lines that are neither items nor pairs change nothing,
      wherever they are. */
  lemma {:induction false} IgnoredLine(a: seq<LineKind>, k: LineKind, b: seq<LineKind>)
    requires k.Blank? || k.Plain?
    ensures Run(a + [k] + b) == Run(a + b)
    decreases |b|
  {
    if b == [] {
      assert (a + [k] + b)[..|a|] == a;
      assert a + b == a;
    } else {
      var b' := b[..|b| - 1];
      assert (a + [k] + b)[..|a + [k] + b| - 1] == a + [k] + b';
      assert (a + b)[..|a + b| - 1] == a + b';
      IgnoredLine(a, k, b');
    }
  }

  /** `-` lines before any key line are dropped. */
  lemma {:induction false} ItemsBeforeAnyKey(ks: seq<LineKind>)
    requires forall i :: 0 <= i < |ks| ==> ks[i].Item?
    ensures Run(ks) == Initial
  {
    if ks != [] {
      ItemsBeforeAnyKey(ks[..|ks| - 1]);
    }
  }

  /** The unquoted, non-empty items of a run of `-` lines. */
  function ItemsOf(ks: seq<LineKind>): seq<string>
    requires forall i :: 0 <= i < |ks| ==> ks[i].Item?
  {
    if ks == [] then []
    else
      var item := ks[|ks| - 1].item;
      ItemsOf(ks[..|ks| - 1]) + (if item != [] then [Unquote(item)] else [])
  }

  /** A key line followed by `-` lines makes the key's value the list of
      those items, replacing whatever scalar the key line stored. */
  lemma {:induction false} ItemsAfterKey(before: seq<LineKind>, key: string, value: string, items: seq<LineKind>)
    requires key != []
    requires |items| >= 1
    requires forall i :: 0 <= i < |items| ==> items[i].Item?
    ensures var r := Run(before + [Pair(key, value)] + items);
            && r.currentKey == Some(key) && r.inArray
            && key in r.data && r.data[key] == Items(ItemsOf(items))
    decreases |items|
  {
    var all := before + [Pair(key, value)] + items;
    var n := |items|;
    assert all[..|all| - 1] == before + [Pair(key, value)] + items[..n - 1];
    assert all[|all| - 1] == items[n - 1];
    if n == 1 {
      var head := before + [Pair(key, value)];
      assert head + items[..0] == head;
      assert head[..|head| - 1] == before;
      assert ItemsOf(items) == ItemsOf(items[..0]) + ItemsOf(items)[|ItemsOf(items[..0])|..];
    } else {
      ItemsAfterKey(before, key, value, items[..n - 1]);
    }
  }

  /** A `key: value` line with a non-empty value stores the value, unquoted,
      under the key, and leaves list mode. */
  lemma KeyLineStores(before: seq<LineKind>, key: string, value: string)
    ensures var r := Run(before + [Pair(key, value)]);
            && r.currentKey == Some(key) && !r.inArray
            && (value != [] ==> key in r.data && r.data[key] == Text(Unquote(value)))
            && (value == [] ==> r.data == Run(before).data)
  {
    assert (before + [Pair(key, value)])[..|before|] == before;
  }

  /** The current key, when there is one, was named by some pair line. */
  lemma {:induction false} CurrentKeyNamed(ks: seq<LineKind>)
    ensures Run(ks).currentKey.Some? ==>
      exists i :: 0 <= i < |ks| && ks[i].Pair? && Some(ks[i].key) == Run(ks).currentKey
  {
    if ks != [] {
      var n := |ks|;
      var front := ks[..n - 1];
      CurrentKeyNamed(front);
      if Run(ks).currentKey.Some? && !ks[n - 1].Pair? {
        var i :| 0 <= i < n - 1 && front[i].Pair? && Some(front[i].key) == Run(front).currentKey;
        assert ks[i] == front[i];
      }
    }
  }

  /** Every key of the result was named by some pair line. */
  lemma {:induction false} KeysFromPairs(ks: seq<LineKind>)
    ensures forall k :: k in Run(ks).data ==>
      exists i :: 0 <= i < |ks| && ks[i].Pair? && ks[i].key == k
  {
    if ks != [] {
      var n := |ks|;
      var front := ks[..n - 1];
      KeysFromPairs(front);
      CurrentKeyNamed(front);
      forall k | k in Run(ks).data
        ensures exists i :: 0 <= i < n && ks[i].Pair? && ks[i].key == k
      {
        if k in Run(front).data {
          var i :| 0 <= i < n - 1 && front[i].Pair? && front[i].key == k;
          assert ks[i] == front[i];
        } else if ks[n - 1].Item? {
          var i :| 0 <= i < n - 1 && front[i].Pair? && Some(front[i].key) == Run(front).currentKey;
          assert ks[i] == front[i];
        } else {
          assert ks[n - 1].Pair? && ks[n - 1].key == k;
        }
      }
    }
  }

  /** Keys are never removed by later lines. */
  lemma {:induction false} KeysPersist(a: seq<LineKind>, b: seq<LineKind>)
    ensures Run(a).data.Keys <= Run(a + b).data.Keys
    decreases |b|
  {
    if b == [] {
      assert a + b == a;
    } else {
      var b' := b[..|b| - 1];
      assert (a + b)[..|a + b| - 1] == a + b';
      KeysPersist(a, b');
    }
  }
}
