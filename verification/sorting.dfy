/** Python's `sorted(xs, key=k)`: a stable sort by an integer key.
    `sorted(xs, key=k, reverse=True)` is the same stable sort by `-k`
    (Python keeps equal elements in their original order either way). */
module Sorting {

  /** Keys never decrease along `s`. */
  ghost predicate SortedBy<T>(s: seq<T>, key: T -> int) {
    forall i, j :: 0 <= i < j < |s| ==> key(s[i]) <= key(s[j])
  }

  /** The elements of `s` whose key is `k`, in their order in `s`. */
  function WithKey<T>(s: seq<T>, key: T -> int, k: int): seq<T> {
    if s == [] then []
    else (if key(s[0]) == k then [s[0]] else []) + WithKey(s[1..], key, k)
  }

  /** Inserts `x` into the sorted `t` before the first element whose key is
      not smaller, so that `x` precedes the elements of equal key. */
  function Insert<T>(x: T, t: seq<T>, key: T -> int): (r: seq<T>)
    requires SortedBy(t, key)
    ensures |r| == |t| + 1
    ensures SortedBy(r, key)
    ensures multiset(r) == multiset(t) + multiset{x}
    ensures r[0] == x || (t != [] && r[0] == t[0])
  {
    if t == [] || key(x) <= key(t[0]) then [x] + t
    else
      assert t == [t[0]] + t[1..];
      var rest := Insert(x, t[1..], key);
      ConsSorted(t[0], rest, key);
      [t[0]] + rest
  }

  lemma ConsSorted<T>(a: T, s: seq<T>, key: T -> int)
    requires SortedBy(s, key) && (s == [] || key(a) <= key(s[0]))
    ensures SortedBy([a] + s, key)
  {
    var r := [a] + s;
    forall i, j | 0 <= i < j < |r| ensures key(r[i]) <= key(r[j]) {
      if i == 0 && j > 1 {
        assert key(s[0]) <= key(s[j - 1]);
      }
    }
  }

  /** Stable insertion sort. */
  function SortBy<T>(s: seq<T>, key: T -> int): (r: seq<T>)
    ensures |r| == |s|
    ensures SortedBy(r, key)
    ensures multiset(r) == multiset(s)
  {
    if s == [] then []
    else
      assert s == [s[0]] + s[1..];
      Insert(s[0], SortBy(s[1..], key), key)
  }

  lemma {:induction false} InsertStable<T>(x: T, t: seq<T>, key: T -> int, k: int)
    requires SortedBy(t, key)
    ensures WithKey(Insert(x, t, key), key, k) == WithKey([x] + t, key, k)
  {
    if t == [] || key(x) <= key(t[0]) {
    } else {
      InsertStable(x, t[1..], key, k);
      assert ([x] + t)[1..] == t;
      assert ([x] + t[1..])[1..] == t[1..];
      assert ([t[0]] + Insert(x, t[1..], key))[1..] == Insert(x, t[1..], key);
    }
  }

  /** Sorting is stable: for every key, the elements with that key appear
      in the result in the same order as in the input. */
  lemma {:induction false} SortStable<T>(s: seq<T>, key: T -> int, k: int)
    ensures WithKey(SortBy(s, key), key, k) == WithKey(s, key, k)
  {
    if s != [] {
      SortStable(s[1..], key, k);
      InsertStable(s[0], SortBy(s[1..], key), key, k);
      assert ([s[0]] + SortBy(s[1..], key))[1..] == SortBy(s[1..], key);
    }
  }

  /** The last element of an ascending sort has the largest key of all. */
  lemma SortedLastIsMax<T>(s: seq<T>, key: T -> int)
    requires s != []
    ensures forall y :: y in s ==> key(y) <= key(SortBy(s, key)[|s| - 1])
  {
    var r := SortBy(s, key);
    forall y | y in s ensures key(y) <= key(r[|s| - 1]) {
      assert y in multiset(s);
      assert y in multiset(r);
      var i :| 0 <= i < |r| && r[i] == y;
      if i < |r| - 1 {
        assert key(r[i]) <= key(r[|r| - 1]);
      }
    }
  }
}
