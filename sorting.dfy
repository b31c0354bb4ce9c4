/** `Array.prototype.sort` with a numeric comparator `(a, b) => key(a) - key(b)`.
    Since ES2019 the sort is stable, and a stable sort by key has exactly one
    possible outcome; it is written here as an insertion sort on sequences. */
module Sorting {

  predicate SortedBy<T>(s: seq<T>, key: T -> real) {
    forall i, j :: 0 <= i < j < |s| ==> key(s[i]) <= key(s[j])
  }

  /** Puts `x` in front of the first element whose key is not smaller. */
  function Insert<T>(x: T, s: seq<T>, key: T -> real): (r: seq<T>)
    ensures multiset(r) == multiset(s) + multiset{x}
  {
    if s == [] || key(x) <= key(s[0]) then [x] + s
    else
      assert s == [s[0]] + s[1..];
      [s[0]] + Insert(x, s[1..], key)
  }

  function SortBy<T>(s: seq<T>, key: T -> real): (r: seq<T>)
    ensures multiset(r) == multiset(s)
  {
    if s == [] then []
    else
      assert s == [s[0]] + s[1..];
      Insert(s[0], SortBy(s[1..], key), key)
  }

  /** The elements whose key is `v`, in order. */
  function WithKey<T>(s: seq<T>, key: T -> real, v: real): seq<T> {
    if s == [] then []
    else (if key(s[0]) == v then [s[0]] else []) + WithKey(s[1..], key, v)
  }

  lemma {:induction false} InsertKeepsSorted<T>(x: T, s: seq<T>, key: T -> real)
    requires SortedBy(s, key)
    ensures SortedBy(Insert(x, s, key), key)
  {
    if s != [] && key(x) > key(s[0]) {
      InsertKeepsSorted(x, s[1..], key);
      var t := Insert(x, s[1..], key);
      assert multiset(t) == multiset(s[1..]) + multiset{x};
      forall j | 0 < j < |t| + 1
        ensures key(s[0]) <= key(([s[0]] + t)[j])
      {
        var e := t[j - 1];
        assert e in multiset(t);
        if e == x {
        } else {
          assert e in multiset(s[1..]);
          var k :| 0 <= k < |s[1..]| && s[1..][k] == e;
          assert s[k + 1] == e;
        }
      }
    }
  }

  lemma {:induction false} SortByIsSorted<T>(s: seq<T>, key: T -> real)
    ensures SortedBy(SortBy(s, key), key)
  {
    if s != [] {
      SortByIsSorted(s[1..], key);
      InsertKeepsSorted(s[0], SortBy(s[1..], key), key);
    }
  }

  /** Inserting `x` adds it in front of the elements with the same key and
      leaves every other key's elements alone. */
  lemma {:induction false} InsertWithKey<T>(x: T, s: seq<T>, key: T -> real, v: real)
    requires SortedBy(s, key)
    ensures WithKey(Insert(x, s, key), key, v)
         == (if key(x) == v then [x] else []) + WithKey(s, key, v)
  {
    if s == [] || key(x) <= key(s[0]) {
      assert ([x] + s)[1..] == s;
    } else {
      InsertWithKey(x, s[1..], key, v);
      assert ([s[0]] + Insert(x, s[1..], key))[1..] == Insert(x, s[1..], key);
      assert key(s[0]) != v || key(x) != v;
    }
  }

  /** Stability: among equal keys the input order is kept. */
  lemma {:induction false} SortByIsStable<T>(s: seq<T>, key: T -> real, v: real)
    ensures WithKey(SortBy(s, key), key, v) == WithKey(s, key, v)
  {
    if s != [] {
      SortByIsStable(s[1..], key, v);
      SortByIsSorted(s[1..], key);
      InsertWithKey(s[0], SortBy(s[1..], key), key, v);
    }
  }
}
