/** `getPostsByProject` of the posts utilities: every markdown post is read
    into a summary, the project's posts are kept, their front matter is cut
    off the content, and they are ordered by the `Week N` in their titles. */
module Posts {
  import opened Wrappers
  import opened JsStrings
  import opened FrontMatter
  import opened Sorting

  /** One globbed file: its path and raw text. */
  datatype Entry = Entry(path: string, content: string)

  /** A post object; a front-matter field that is absent is `None`
      (`undefined`). */
  datatype Post = Post(slug: string, title: Option<Value>, date: Option<Value>,
                       excerpt: Option<Value>, project: Option<Value>, path: string,
                       content: string)

  /** The error `title.match` throws when a title is not a string. */
  datatype PostError = TitleNotString(path: string)

  function Lookup(data: map<string, Value>, key: string): (r: Option<Value>)
    ensures r.Some? <==> key in data
    ensures r.Some? ==> r.value == data[key]
  {
    if key in data then Some(data[key]) else None
  }

  // ---------------------------------------------------------------------------
  // Slug

  /** `path.split('/').pop().replace(/\.md$/, '')`. */
  function Slug(path: string): (s: string)
    ensures '/' !in s
    ensures AfterLast(path, '/') == s || AfterLast(path, '/') == s + ".md"
    ensures EndsWith(AfterLast(path, '/'), ".md") <==> AfterLast(path, '/') == s + ".md"
  {
    var name := AfterLast(path, '/');
    if EndsWith(name, ".md") then
      var s := name[..|name| - 3];
      assert name == s + ".md";
      s
    else name
  }

  // ---------------------------------------------------------------------------
  // `Week N`

  predicate IsDigit(c: char) {
    '0' <= c <= '9'
  }

  predicate AllDigits(s: string) {
    forall i :: 0 <= i < |s| ==> IsDigit(s[i])
  }

  /** `c` equals the lower-case letter `lower` ignoring case. */
  predicate SameLetter(c: char, lower: char)
    requires 'a' <= lower <= 'z'
  {
    c == lower || c as int == lower as int - 32
  }

  /** `/Week (\d+)/i` can start at position `p`. */
  predicate WeekAt(s: string, p: nat) {
    && p + 6 <= |s|
    && SameLetter(s[p], 'w') && SameLetter(s[p + 1], 'e') && SameLetter(s[p + 2], 'e')
    && SameLetter(s[p + 3], 'k') && s[p + 4] == ' ' && IsDigit(s[p + 5])
  }

  /** The leftmost match position from `p` on. */
  function FirstWeek(s: string, p: nat): (r: Option<nat>)
    ensures r.Some? ==> p <= r.value && WeekAt(s, r.value)
    ensures r.Some? ==> forall q :: p <= q < r.value ==> !WeekAt(s, q)
    ensures r.None? ==> forall q :: p <= q ==> !WeekAt(s, q)
    decreases |s| - p
  {
    if |s| < p + 6 then None
    else if WeekAt(s, p) then Some(p)
    else FirstWeek(s, p + 1)
  }

  /** The greedy `\d+`: the digits from `p` on. */
  function DigitsFrom(s: string, p: nat): (d: string)
    requires p <= |s|
    ensures AllDigits(d) && p + |d| <= |s| && d == s[p..p + |d|]
    ensures p + |d| == |s| || !IsDigit(s[p + |d|])
    decreases |s| - p
  {
    if p < |s| && IsDigit(s[p]) then
      var rest := DigitsFrom(s, p + 1);
      assert [s[p]] + rest == s[p..p + 1 + |rest|];
      [s[p]] + rest
    else []
  }

  /** `parseInt` of a run of decimal digits. */
  function DecimalValue(d: string): nat
    requires AllDigits(d)
  {
    if d == [] then 0
    else DecimalValue(d[..|d| - 1]) * 10 + (d[|d| - 1] as int - '0' as int)
  }

  /** The decimal numeral of `n`, as `String(n)` writes it. */
  function DecimalString(n: nat): (d: string)
    ensures AllDigits(d) && d != []
    ensures |d| > 1 ==> d[0] != '0'
  {
    var last := ['0' + (n % 10) as char];
    if n < 10 then last
    else
      var front := DecimalString(n / 10);
      assert (front + last)[0] == front[0];
      front + last
  }

  /** `getWeekNumber`: the number after the first `Week ` (any case), or 0. */
  function WeekNumber(title: string): nat {
    match FirstWeek(title, 0)
    case None => 0
    case Some(p) => DecimalValue(DigitsFrom(title, p + 5))
  }

  /** Reading a numeral back gives the number. */
  lemma {:induction false} DecimalRoundTrip(n: nat)
    ensures DecimalValue(DecimalString(n)) == n
  {
    var d := DecimalString(n);
    if n >= 10 {
      DecimalRoundTrip(n / 10);
      assert d[..|d| - 1] == DecimalString(n / 10);
    }
  }

  /** A title that begins `Week N` sorts under `N`, whatever follows
      except a further digit. */
  lemma WeekTitle(n: nat, rest: string)
    requires rest == [] || !IsDigit(rest[0])
    ensures WeekNumber("Week " + DecimalString(n) + rest) == n
  {
    var d := DecimalString(n);
    var title := "Week " + d + rest;
    assert WeekAt(title, 0);
    var got := DigitsFrom(title, 5);
    assert title[5..5 + |d|] == d;
    DigitsPrefix(title, 5, d);
    DecimalRoundTrip(n);
  }

  /** The digit run from `p` is exactly `d` when `d` is all digits and no
      digit follows it. */
  lemma {:induction false} DigitsPrefix(s: string, p: nat, d: string)
    requires AllDigits(d) && p + |d| <= |s| && s[p..p + |d|] == d
    requires p + |d| == |s| || !IsDigit(s[p + |d|])
    ensures DigitsFrom(s, p) == d
    decreases |d|
  {
    if d != [] {
      assert s[p + 1..p + 1 + |d[1..]|] == d[1..];
      DigitsPrefix(s, p + 1, d[1..]);
    }
  }

  /** A title with no `Week ` followed by a digit sorts as week 0. */
  lemma NoWeekIsZero(title: string)
    requires forall q: nat :: !WeekAt(title, q)
    ensures WeekNumber(title) == 0
  {
  }

  // ---------------------------------------------------------------------------
  // The pipeline

  /** The post object built from one entry, before the content is added. */
  function Summary(e: Entry): (p: Post)
    ensures p.path == e.path && p.slug == Slug(e.path)
    ensures p.project == Lookup(FrontmatterData(e.content), "project")
  {
    var data := FrontmatterData(e.content);
    Post(Slug(e.path), Lookup(data, "title"), Lookup(data, "date"), Lookup(data, "excerpt"),
         Lookup(data, "project"), e.path, [])
  }

  /** `post.project === projectName`: only a string value can be equal. */
  predicate InProject(e: Entry, projectName: string) {
    Summary(e).project == Some(Text(projectName))
  }

  /** The post object with its content, as the second `map` returns it. */
  function Full(e: Entry): (p: Post)
    ensures p.path == e.path && p.slug == Slug(e.path) && p.content == StripBlock(e.content)
    ensures p.project == Lookup(FrontmatterData(e.content), "project")
  {
    Summary(e).(content := StripBlock(e.content))
  }

  /** `xs.filter(keep).map(f)`. */
  function FilterMap<T, U>(xs: seq<T>, keep: T -> bool, f: T -> U): (ys: seq<U>)
    ensures |ys| <= |xs|
  {
    if xs == [] then []
    else
      var x := xs[|xs| - 1];
      FilterMap(xs[..|xs| - 1], keep, f) + (if keep(x) then [f(x)] else [])
  }

  /** The `filter` and the second `map`: the project's entries, each with
      the front matter removed from its content. */
  function ProjectPosts(entries: seq<Entry>, projectName: string): (ps: seq<Post>)
    ensures |ps| <= |entries|
    ensures forall i :: 0 <= i < |ps| ==> ps[i].project == Some(Text(projectName))
  {
    FilterMapAll(entries, e => InProject(e, projectName), Full, (p: Post) => p.project == Some(Text(projectName)));
    FilterMap(entries, e => InProject(e, projectName), Full)
  }

  predicate HasTextTitle(p: Post) {
    p.title.Some? && p.title.value.Text?
  }

  /** The sort key, `getWeekNumber(post.title)` for a string title. */
  function WeekKey(p: Post): real {
    if HasTextTitle(p) then WeekNumber(p.title.value.text) as real else 0.0
  }

  /** `getPostsByProject(projectName)` over the globbed entries, in their
      order. Sorting two or more posts compares every one of them, so any
      post whose title is not a string makes the call throw. */
  function GetPostsByProject(entries: seq<Entry>, projectName: string): (r: Result<seq<Post>, PostError>)
    ensures r.Err? <==> var ps := ProjectPosts(entries, projectName);
                        |ps| >= 2 && exists i :: 0 <= i < |ps| && !HasTextTitle(ps[i])
    ensures r.Ok? ==> && multiset(r.value) == multiset(ProjectPosts(entries, projectName))
                      && SortedBy(r.value, WeekKey)
  {
    var ps := ProjectPosts(entries, projectName);
    var untitled := Untitled(ps);
    if |ps| >= 2 && untitled.Some? then
      Err(TitleNotString(ps[untitled.value].path))
    else
      SortByIsSorted(ps, WeekKey);
      Ok(SortBy(ps, WeekKey))
  }

  /** The first post whose title is not a string, if any. */
  function Untitled(ps: seq<Post>): (r: Option<nat>)
    ensures r.Some? ==> r.value < |ps| && !HasTextTitle(ps[r.value])
    ensures r.None? ==> forall i :: 0 <= i < |ps| ==> HasTextTitle(ps[i])
  {
    if ps == [] then None
    else if !HasTextTitle(ps[0]) then Some(0)
    else
      match Untitled(ps[1..])
      case None => None
      case Some(i) => Some(i + 1)
  }

  // ---------------------------------------------------------------------------
  // Properties

  /** An element is kept exactly when it is the image of a kept input. */
  lemma {:induction false} FilterMapMembers<T, U>(xs: seq<T>, keep: T -> bool, f: T -> U, y: U)
    ensures y in FilterMap(xs, keep, f) <==> exists i :: 0 <= i < |xs| && keep(xs[i]) && y == f(xs[i])
  {
    if xs != [] {
      var n := |xs|;
      var front := xs[..n - 1];
      FilterMapMembers(front, keep, f, y);
      if y in FilterMap(xs, keep, f) && y !in FilterMap(front, keep, f) {
        assert keep(xs[n - 1]) && y == f(xs[n - 1]);
      }
      if y in FilterMap(front, keep, f) {
        var i :| 0 <= i < n - 1 && keep(front[i]) && y == f(front[i]);
        assert xs[i] == front[i];
      }
      if exists i :: 0 <= i < n && keep(xs[i]) && y == f(xs[i]) {
        var i :| 0 <= i < n && keep(xs[i]) && y == f(xs[i]);
        if i < n - 1 {
          assert front[i] == xs[i];
        }
      }
    }
  }

  /** Every output satisfies `q` when every kept input's image does. */
  lemma {:induction false} FilterMapAll<T, U>(xs: seq<T>, keep: T -> bool, f: T -> U, q: U -> bool)
    requires forall x :: keep(x) ==> q(f(x))
    ensures forall i :: 0 <= i < |FilterMap(xs, keep, f)| ==> q(FilterMap(xs, keep, f)[i])
  {
    if xs != [] {
      FilterMapAll(xs[..|xs| - 1], keep, f, q);
    }
  }

  /** The number of inputs kept. */
  function CountKept<T>(xs: seq<T>, keep: T -> bool): nat {
    if xs == [] then 0
    else CountKept(xs[..|xs| - 1], keep) + (if keep(xs[|xs| - 1]) then 1 else 0)
  }

  lemma {:induction false} FilterMapCount<T, U>(xs: seq<T>, keep: T -> bool, f: T -> U)
    ensures |FilterMap(xs, keep, f)| == CountKept(xs, keep)
  {
    if xs != [] {
      FilterMapCount(xs[..|xs| - 1], keep, f);
    }
  }

  /** A post is kept exactly when its entry belongs to the project. */
  lemma ProjectPostsMembers(entries: seq<Entry>, projectName: string, p: Post)
    ensures p in ProjectPosts(entries, projectName) <==>
      exists i :: 0 <= i < |entries| && InProject(entries[i], projectName) && p == Full(entries[i])
  {
    FilterMapMembers(entries, e => InProject(e, projectName), Full, p);
  }

  /** One post per entry of the project. */
  lemma ProjectPostsCount(entries: seq<Entry>, projectName: string)
    ensures |ProjectPosts(entries, projectName)| == CountKept(entries, e => InProject(e, projectName))
  {
    FilterMapCount(entries, e => InProject(e, projectName), Full);
  }

  /** Posts with the same week number come out in the order of their
      entries: the sort is stable. */
  lemma SameWeekKeepsOrder(entries: seq<Entry>, projectName: string, v: real)
    requires GetPostsByProject(entries, projectName).Ok?
    ensures WithKey(GetPostsByProject(entries, projectName).value, WeekKey, v)
         == WithKey(ProjectPosts(entries, projectName), WeekKey, v)
  {
    SortByIsStable(ProjectPosts(entries, projectName), WeekKey, v);
  }
}
