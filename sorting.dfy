/** Python's `list.sort(key=...)` and `sorted(..., key=...)` for integer keys:
    a stable sort, modelled as insertion sort on a sequence. */
module Sorting {

  /** Non-decreasing by key. */
  ghost predicate SortedBy<T>(s: seq<T>, key: T -> int)
  {
    forall i, j :: 0 <= i < j < |s| ==> key(s[i]) <= key(s[j])
  }

  /** The elements of `s` whose key is `k`, in their order in `s`. */
  function WithKey<T>(s: seq<T>, key: T -> int, k: int): seq<T>
  {
    if s == [] then []
    else (if key(s[0]) == k then [s[0]] else []) + WithKey(s[1..], key, k)
  }

  /** `x` placed after every leading element whose key is at most its own. */
  function Insert<T>(s: seq<T>, x: T, key: T -> int): seq<T>
  {
    if s == [] then [x]
    else if key(x) < key(s[0]) then [x] + s
    else [s[0]] + Insert(s[1..], x, key)
  }

  /** `sorted(s, key=key)`. */
  function SortBy<T>(s: seq<T>, key: T -> int): seq<T>
  {
    if s == [] then [] else Insert(SortBy(s[..|s| - 1], key), s[|s| - 1], key)
  }

  lemma WithKeyCons<T>(y: T, s: seq<T>, key: T -> int, k: int)
    ensures WithKey([y] + s, key, k) == (if key(y) == k then [y] else []) + WithKey(s, key, k)
  {
    assert ([y] + s)[0] == y && ([y] + s)[1..] == s;
  }

  lemma {:induction false} WithKeyAppend<T>(a: seq<T>, b: seq<T>, key: T -> int, k: int)
    ensures WithKey(a + b, key, k) == WithKey(a, key, k) + WithKey(b, key, k)
    decreases |a|
  {
    if a == [] {
      assert a + b == b;
    } else {
      var c := if key(a[0]) == k then [a[0]] else [];
      assert a + b == [a[0]] + (a[1..] + b);
      WithKeyCons(a[0], a[1..] + b, key, k);
      WithKeyAppend(a[1..], b, key, k);
      assert WithKey(a, key, k) == c + WithKey(a[1..], key, k);
      assert c + (WithKey(a[1..], key, k) + WithKey(b, key, k))
          == (c + WithKey(a[1..], key, k)) + WithKey(b, key, k);
    }
  }

  lemma {:induction false} WithKeyAbove<T>(s: seq<T>, key: T -> int, k: int)
    requires forall i :: 0 <= i < |s| ==> k < key(s[i])
    ensures WithKey(s, key, k) == []
    decreases |s|
  {
    if s != [] {
      WithKeyAbove(s[1..], key, k);
    }
  }

  lemma {:induction false} InsertPermutes<T>(s: seq<T>, x: T, key: T -> int)
    ensures multiset(Insert(s, x, key)) == multiset(s) + multiset{x}
    decreases |s|
  {
    if s != [] && key(x) >= key(s[0]) {
      InsertPermutes(s[1..], x, key);
      assert s == [s[0]] + s[1..];
    }
  }

  /** A lower bound on every key of `s` and on `x` bounds every key of the
      result. */
  lemma {:induction false} InsertAbove<T>(s: seq<T>, x: T, key: T -> int, b: int)
    requires b <= key(x) && forall i :: 0 <= i < |s| ==> b <= key(s[i])
    ensures forall i :: 0 <= i < |Insert(s, x, key)| ==> b <= key(Insert(s, x, key)[i])
    decreases |s|
  {
    if s != [] && key(x) >= key(s[0]) {
      InsertAbove(s[1..], x, key, b);
      var r := Insert(s[1..], x, key);
      assert forall i :: 0 < i < |[s[0]] + r| ==> ([s[0]] + r)[i] == r[i - 1];
    }
  }

  lemma {:induction false} InsertSorted<T>(s: seq<T>, x: T, key: T -> int)
    requires SortedBy(s, key)
    ensures SortedBy(Insert(s, x, key), key)
    decreases |s|
  {
    if s != [] && key(x) >= key(s[0]) {
      var r := Insert(s[1..], x, key);
      InsertSorted(s[1..], x, key);
      InsertAbove(s[1..], x, key, key(s[0]));
      var t := [s[0]] + r;
      forall i, j | 0 <= i < j < |t|
        ensures key(t[i]) <= key(t[j])
      {
        assert t[j] == r[j - 1];
        if i > 0 {
          assert t[i] == r[i - 1];
        }
      }
    }
  }

  lemma {:induction false} InsertKeepsOrder<T>(s: seq<T>, x: T, key: T -> int, k: int)
    requires SortedBy(s, key)
    ensures WithKey(Insert(s, x, key), key, k)
            == WithKey(s, key, k) + (if key(x) == k then [x] else [])
    decreases |s|
  {
    if s == [] {
    } else if key(x) < key(s[0]) {
      assert ([x] + s)[1..] == s;
      if key(x) == k {
        WithKeyAbove(s, key, k);
      }
    } else {
      var r := Insert(s[1..], x, key);
      var c := if key(s[0]) == k then [s[0]] else [];
      var d := if key(x) == k then [x] else [];
      InsertKeepsOrder(s[1..], x, key, k);
      WithKeyCons(s[0], r, key, k);
      assert s == [s[0]] + s[1..];
      WithKeyCons(s[0], s[1..], key, k);
      assert c + (WithKey(s[1..], key, k) + d) == (c + WithKey(s[1..], key, k)) + d;
    }
  }

  /** The sort returns a permutation of its input, ordered by key, and keeps
      equal-key elements in their input order (stability). */
  lemma {:induction false} SortByFacts<T>(s: seq<T>, key: T -> int)
    ensures SortedBy(SortBy(s, key), key)
    ensures multiset(SortBy(s, key)) == multiset(s)
    ensures forall k :: WithKey(SortBy(s, key), key, k) == WithKey(s, key, k)
    decreases |s|
  {
    if s != [] {
      var p, x := s[..|s| - 1], s[|s| - 1];
      SortByFacts(p, key);
      InsertSorted(SortBy(p, key), x, key);
      InsertPermutes(SortBy(p, key), x, key);
      assert s == p + [x];
      forall k
        ensures WithKey(SortBy(s, key), key, k) == WithKey(s, key, k)
      {
        InsertKeepsOrder(SortBy(p, key), x, key, k);
        WithKeyAppend(p, [x], key, k);
      }
    }
  }

  /** The first element after sorting has the least key. */
  lemma SortByFirstIsLeast<T>(s: seq<T>, key: T -> int)
    requires s != []
    ensures |SortBy(s, key)| == |s|
    ensures forall i :: 0 <= i < |s| ==> key(SortBy(s, key)[0]) <= key(s[i])
  {
    SortByFacts(s, key);
    var r := SortBy(s, key);
    assert |r| == |multiset(r)| == |multiset(s)| == |s|;
    forall i | 0 <= i < |s|
      ensures key(r[0]) <= key(s[i])
    {
      assert s[i] in multiset(r);
      var m :| 0 <= m < |r| && r[m] == s[i];
    }
  }

  /** The position of the first element with the least key. */
  function FirstLeast<T>(s: seq<T>, key: T -> int): (m: nat)
    requires s != []
    ensures m < |s|
    ensures forall n :: 0 <= n < |s| ==> key(s[m]) <= key(s[n])
    ensures forall n :: 0 <= n < m ==> key(s[m]) < key(s[n])
    decreases |s|
  {
    if |s| == 1 then 0
    else
      var m := FirstLeast(s[1..], key);
      if key(s[0]) <= key(s[1..][m]) then 0 else m + 1
  }

  /** The elements with key `k` start with the first element that has it. */
  lemma WithKeyFirst<T>(s: seq<T>, key: T -> int, m: nat)
    requires m < |s| && forall n :: 0 <= n < m ==> key(s[m]) < key(s[n])
    ensures WithKey(s, key, key(s[m])) != [] && WithKey(s, key, key(s[m]))[0] == s[m]
  {
    var k := key(s[m]);
    assert s == s[..m] + ([s[m]] + s[m + 1..]);
    WithKeyAppend(s[..m], [s[m]] + s[m + 1..], key, k);
    WithKeyAbove(s[..m], key, k);
    WithKeyCons(s[m], s[m + 1..], key, k);
  }

  /** Since the sort is stable, the first element after sorting is the
      first element of least key in the input. */
  lemma SortByFirst<T>(s: seq<T>, key: T -> int)
    requires s != []
    ensures |SortBy(s, key)| == |s| && SortBy(s, key)[0] == s[FirstLeast(s, key)]
  {
    var r := SortBy(s, key);
    var m := FirstLeast(s, key);
    var k := key(s[m]);
    SortByFacts(s, key);
    SortByFirstIsLeast(s, key);
    assert r[0] in multiset(s);
    var i :| 0 <= i < |s| && s[i] == r[0];
    assert key(r[0]) == k;
    WithKeyFirst(s, key, m);
    WithKeyFirst(r, key, 0);
  }
}
