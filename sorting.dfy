/**
 * A stable insertion sort by an integer key, standing for Python's
 * `list.sort(key=...)` (itself stable) with an int-valued key.
 */
module Sorting {

  ghost predicate SortedByKey<T>(s: seq<T>, key: T -> int) {
    forall i, j :: 0 <= i < j < |s| ==> key(s[i]) <= key(s[j])
  }

  /** No element of `s` has a key below `b`. */
  ghost predicate KeysAtLeast<T>(b: int, s: seq<T>, key: T -> int) {
    forall k :: 0 <= k < |s| ==> b <= key(s[k])
  }

  /** Puts `x` in front of the first element whose key is not below its own. */
  function InsertByKey<T>(x: T, s: seq<T>, key: T -> int): (r: seq<T>)
    ensures multiset(r) == multiset(s) + multiset{x}
    ensures |r| == |s| + 1
  {
    if s == [] || key(x) <= key(s[0]) then [x] + s
    else
      assert s == [s[0]] + s[1..];
      [s[0]] + InsertByKey(x, s[1..], key)
  }

  lemma {:induction false} InsertKeysAtLeast<T>(b: int, x: T, s: seq<T>, key: T -> int)
    requires b <= key(x) && KeysAtLeast(b, s, key)
    ensures KeysAtLeast(b, InsertByKey(x, s, key), key)
  {
    if s != [] && key(s[0]) < key(x) {
      InsertKeysAtLeast(b, x, s[1..], key);
    }
  }

  lemma {:induction false} InsertSorted<T>(x: T, s: seq<T>, key: T -> int)
    requires SortedByKey(s, key)
    ensures SortedByKey(InsertByKey(x, s, key), key)
  {
    var r := InsertByKey(x, s, key);
    if s == [] || key(x) <= key(s[0]) {
      assert forall j :: 0 < j < |r| ==> r[j] == s[j - 1];
    } else {
      var u := InsertByKey(x, s[1..], key);
      InsertSorted(x, s[1..], key);
      InsertKeysAtLeast(key(s[0]), x, s[1..], key);
      assert r == [s[0]] + u;
      assert forall j :: 0 < j < |r| ==> r[j] == u[j - 1];
    }
  }

  /**
   * The stable sort of `s` by `key`: a permutation of `s` in which the keys
   * never decrease.
   */
  function SortByKey<T>(s: seq<T>, key: T -> int): (r: seq<T>)
    ensures multiset(r) == multiset(s)
    ensures SortedByKey(r, key)
  {
    if s == [] then []
    else
      assert s == [s[0]] + s[1..];
      var t := SortByKey(s[1..], key);
      InsertSorted(s[0], t, key);
      InsertByKey(s[0], t, key)
  }

  /** The elements of `s` whose key is `k`, in their order in `s`. */
  function WithKey<T>(s: seq<T>, key: T -> int, k: int): seq<T> {
    if s == [] then [] else (if key(s[0]) == k then [s[0]] else []) + WithKey(s[1..], key, k)
  }

  /** Inserting `x` adds it in front of the elements with its key, and leaves the others with any key in order. */
  lemma {:induction false} InsertWithKey<T>(x: T, s: seq<T>, key: T -> int, k: int)
    ensures WithKey(InsertByKey(x, s, key), key, k) == (if key(x) == k then [x] else []) + WithKey(s, key, k)
  {
    var r := InsertByKey(x, s, key);
    if s == [] || key(x) <= key(s[0]) {
      assert r == [x] + s && r[1..] == s;
    } else {
      var u := InsertByKey(x, s[1..], key);
      assert r == [s[0]] + u && r[1..] == u;
      InsertWithKey(x, s[1..], key, k);
      var h0 := if key(s[0]) == k then [s[0]] else [];
      assert WithKey(r, key, k) == h0 + WithKey(u, key, k);
      assert WithKey(s, key, k) == h0 + WithKey(s[1..], key, k);
      if key(x) == k {
        assert h0 == [];
      }
    }
  }

  /**
   * The sort is stable: the elements with any one key come out in the
   * order they went in.
   */
  lemma {:induction false} SortStable<T>(s: seq<T>, key: T -> int, k: int)
    ensures WithKey(SortByKey(s, key), key, k) == WithKey(s, key, k)
  {
    if s != [] {
      SortStable(s[1..], key, k);
      InsertWithKey(s[0], SortByKey(s[1..], key), key, k);
    }
  }
}
