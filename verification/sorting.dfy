/**
  Python's `list.sort(key=...)` as a value: a stable sort by a real-valued key.
  The outline engine sorts font sizes, first-page blocks by vertical position,
  the outline by (page, level) and scored sentences by descending score; all
  four are this one function with different keys.
*/
module Sorting {

  ghost predicate SortedBy<T>(s: seq<T>, key: T -> real) {
    forall i, j :: 0 <= i < j < |s| ==> key(s[i]) <= key(s[j])
  }

  /** The elements of `s` whose key is `v`, in their order in `s`. */
  function WithKey<T>(s: seq<T>, key: T -> real, v: real): seq<T>
    decreases |s|
  {
    if s == [] then [] else (if key(s[0]) == v then [s[0]] else []) + WithKey(s[1..], key, v)
  }

  /** Places `x` in front of the first element whose key is not smaller than its own. */
  function Insert<T>(x: T, s: seq<T>, key: T -> real): seq<T>
    decreases |s|
  {
    if s == [] || key(x) <= key(s[0]) then [x] + s else [s[0]] + Insert(x, s[1..], key)
  }

  lemma {:induction false} InsertPermutes<T>(x: T, s: seq<T>, key: T -> real)
    ensures multiset(Insert(x, s, key)) == multiset(s) + multiset{x}
    decreases |s|
  {
    if s != [] && key(s[0]) < key(x) {
      InsertPermutes(x, s[1..], key);
      assert s == [s[0]] + s[1..];
    }
  }

  lemma {:induction false} InsertSorted<T>(x: T, s: seq<T>, key: T -> real)
    requires SortedBy(s, key)
    ensures SortedBy(Insert(x, s, key), key)
    decreases |s|
  {
    if s != [] && key(s[0]) < key(x) {
      var t := Insert(x, s[1..], key);
      InsertSorted(x, s[1..], key);
      InsertPermutes(x, s[1..], key);
      forall j | 0 <= j < |t| ensures key(s[0]) <= key(t[j]) {
        assert t[j] in multiset(t);
        if t[j] != x {
          assert t[j] in multiset(s[1..]);
          var k :| 0 <= k < |s[1..]| && s[1..][k] == t[j];
          assert s[k + 1] == t[j];
        }
      }
      var r := [s[0]] + t;
      assert r == Insert(x, s, key);
      forall i, j | 0 <= i < j < |r| ensures key(r[i]) <= key(r[j]) {
        if i > 0 { assert r[i] == t[i - 1] && r[j] == t[j - 1]; } else { assert r[j] == t[j - 1]; }
      }
    }
  }

  lemma WithKeyCons<T>(y: T, r: seq<T>, key: T -> real, v: real)
    ensures WithKey([y] + r, key, v) == (if key(y) == v then [y] else []) + WithKey(r, key, v)
  {
    assert ([y] + r)[1..] == r;
  }

  lemma {:induction false} InsertStable<T>(x: T, s: seq<T>, key: T -> real, v: real)
    ensures WithKey(Insert(x, s, key), key, v) == (if key(x) == v then [x] else []) + WithKey(s, key, v)
    decreases |s|
  {
    if s == [] || key(x) <= key(s[0]) {
      WithKeyCons(x, s, key, v);
    } else {
      var t := Insert(x, s[1..], key);
      InsertStable(x, s[1..], key, v);
      WithKeyCons(s[0], t, key, v);
      WithKeyCons(s[0], s[1..], key, v);
      assert [s[0]] + s[1..] == s;
      var xs: seq<T> := if key(x) == v then [x] else [];
      var ys: seq<T> := if key(s[0]) == v then [s[0]] else [];
      assert xs == [] || ys == [];
      assert ys + (xs + WithKey(s[1..], key, v)) == xs + (ys + WithKey(s[1..], key, v));
    }
  }

  /** Stable sort: the result is ordered by `key`, is a permutation of `s`, and
      keeps the input order among elements with equal keys. */
  function SortBy<T(==)>(s: seq<T>, key: T -> real): (r: seq<T>)
    ensures SortedBy(r, key)
    ensures multiset(r) == multiset(s) && |r| == |s|
    ensures forall v :: WithKey(r, key, v) == WithKey(s, key, v)
    decreases |s|
  {
    if s == [] then []
    else
      var rest := SortBy(s[1..], key);
      InsertKeepsSort(s[0], rest, s[1..], key);
      assert s == [s[0]] + s[1..];
      Insert(s[0], rest, key)
  }

  /** Inserting `x` into a sorted arrangement of `s` gives a sorted arrangement of `[x] + s`. */
  lemma InsertKeepsSort<T>(x: T, r: seq<T>, s: seq<T>, key: T -> real)
    requires SortedBy(r, key) && multiset(r) == multiset(s) && |r| == |s|
    requires forall v :: WithKey(r, key, v) == WithKey(s, key, v)
    ensures SortedBy(Insert(x, r, key), key)
    ensures multiset(Insert(x, r, key)) == multiset([x] + s) && |Insert(x, r, key)| == |[x] + s|
    ensures forall v :: WithKey(Insert(x, r, key), key, v) == WithKey([x] + s, key, v)
  {
    InsertPermutes(x, r, key);
    InsertSorted(x, r, key);
    forall v
      ensures WithKey(Insert(x, r, key), key, v) == WithKey([x] + s, key, v)
    {
      InsertStable(x, r, key, v);
      WithKeyCons(x, s, key, v);
    }
    assert |Insert(x, r, key)| == |multiset(Insert(x, r, key))|;
  }

  lemma SortedElementsFromInput<T>(s: seq<T>, key: T -> real, i: nat)
    requires i < |SortBy(s, key)|
    ensures SortBy(s, key)[i] in s
  {
    var r := SortBy(s, key);
    assert r[i] in multiset(r);
  }
}
