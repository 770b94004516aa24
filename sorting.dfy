/**
 * A stable sort by an integer key, in non-increasing key order, as Python's
 * `sorted(..., key=..., reverse=True)` behaves: elements with equal keys keep
 * their original relative order. Ascending order is obtained with a negated key.
 */
module Sorting {

  /** s is ordered by non-increasing key. */
  predicate SortedDesc<T>(s: seq<T>, key: T -> int)
  {
    forall i, j :: 0 <= i < j < |s| ==> key(s[i]) >= key(s[j])
  }

  /** The elements of s whose key is k, in the order they have in s. */
  function WithKey<T>(s: seq<T>, key: T -> int, k: int): seq<T>
  {
    if s == [] then []
    else (if key(s[0]) == k then [s[0]] else []) + WithKey(s[1..], key, k)
  }

  /** Puts x after every leading element whose key is at least key(x). */
  function Insert<T>(x: T, t: seq<T>, key: T -> int): seq<T>
  {
    if t == [] then [x]
    else if key(t[0]) >= key(x) then [t[0]] + Insert(x, t[1..], key)
    else [x] + t
  }

  /** Insertion sort: each element, taken left to right, goes after the elements already placed with an equal key. */
  function SortDesc<T>(s: seq<T>, key: T -> int): seq<T>
  {
    if s == [] then [] else Insert(s[|s| - 1], SortDesc(s[..|s| - 1], key), key)
  }

  lemma {:induction false} WithKeyAppend<T>(a: seq<T>, b: seq<T>, key: T -> int, k: int)
    ensures WithKey(a + b, key, k) == WithKey(a, key, k) + WithKey(b, key, k)
  {
    if a == [] {
      assert a + b == b;
    } else {
      var head := if key(a[0]) == k then [a[0]] else [];
      assert (a + b)[0] == a[0] && (a + b)[1..] == a[1..] + b;
      WithKeyAppend(a[1..], b, key, k);
      assert WithKey(a + b, key, k) == head + WithKey(a[1..] + b, key, k);
      assert WithKey(a, key, k) == head + WithKey(a[1..], key, k);
    }
  }

  /** A sorted sequence whose keys are all below k holds no element with key k. */
  lemma {:induction false} WithKeyBelow<T>(t: seq<T>, key: T -> int, k: int)
    requires forall i :: 0 <= i < |t| ==> key(t[i]) < k
    ensures WithKey(t, key, k) == []
  {
    if t != [] {
      WithKeyBelow(t[1..], key, k);
    }
  }

  lemma {:induction false} InsertPermutes<T>(x: T, t: seq<T>, key: T -> int)
    ensures multiset(Insert(x, t, key)) == multiset(t) + multiset{x}
    ensures |Insert(x, t, key)| == |t| + 1
  {
    if t != [] && key(t[0]) >= key(x) {
      InsertPermutes(x, t[1..], key);
      assert t == [t[0]] + t[1..];
    }
  }

  /** Inserting below a bound keeps every key below it. */
  lemma {:induction false} InsertBounded<T>(x: T, t: seq<T>, key: T -> int, b: int)
    requires key(x) <= b && forall i :: 0 <= i < |t| ==> key(t[i]) <= b
    ensures forall i :: 0 <= i < |Insert(x, t, key)| ==> key(Insert(x, t, key)[i]) <= b
  {
    if t != [] && key(t[0]) >= key(x) {
      InsertBounded(x, t[1..], key, b);
      var r := [t[0]] + Insert(x, t[1..], key);
      assert Insert(x, t, key) == r;
      forall i | 0 <= i < |r| ensures key(r[i]) <= b {
        if i > 0 {
          assert r[i] == Insert(x, t[1..], key)[i - 1];
        }
      }
    } else if t != [] {
      var r := [x] + t;
      forall i | 0 <= i < |r| ensures key(r[i]) <= b {
        if i > 0 {
          assert r[i] == t[i - 1];
        }
      }
    }
  }

  lemma {:induction false} InsertSorted<T>(x: T, t: seq<T>, key: T -> int)
    requires SortedDesc(t, key)
    ensures SortedDesc(Insert(x, t, key), key)
  {
    if t != [] && key(t[0]) >= key(x) {
      var rest := Insert(x, t[1..], key);
      assert SortedDesc(t[1..], key);
      InsertSorted(x, t[1..], key);
      assert forall i :: 0 <= i < |t[1..]| ==> key(t[1..][i]) <= key(t[0]);
      InsertBounded(x, t[1..], key, key(t[0]));
      var r := [t[0]] + rest;
      assert Insert(x, t, key) == r;
      forall i, j | 0 <= i < j < |r| ensures key(r[i]) >= key(r[j]) {
        assert r[j] == rest[j - 1];
        if i > 0 {
          assert r[i] == rest[i - 1];
        }
      }
    }
  }

  lemma {:induction false} InsertKeepsKeyOrder<T>(x: T, t: seq<T>, key: T -> int, k: int)
    requires SortedDesc(t, key)
    ensures WithKey(Insert(x, t, key), key, k) == WithKey(t, key, k) + (if key(x) == k then [x] else [])
  {
    var own := if key(x) == k then [x] else [];
    if t == [] {
      assert Insert(x, t, key) == [x];
      assert [x][1..] == [];
    } else if key(t[0]) >= key(x) {
      var head := if key(t[0]) == k then [t[0]] else [];
      var rest := Insert(x, t[1..], key);
      assert SortedDesc(t[1..], key);
      InsertKeepsKeyOrder(x, t[1..], key, k);
      assert ([t[0]] + rest)[1..] == rest;
      calc {
        WithKey(Insert(x, t, key), key, k);
        WithKey([t[0]] + rest, key, k);
        head + WithKey(rest, key, k);
        head + (WithKey(t[1..], key, k) + own);
        (head + WithKey(t[1..], key, k)) + own;
        WithKey(t, key, k) + own;
      }
    } else {
      assert ([x] + t)[1..] == t;
      assert WithKey([x] + t, key, k) == own + WithKey(t, key, k);
      if key(x) == k {
        WithKeyBelow(t, key, k);
      }
    }
  }

  lemma {:induction false} SortDescPermutes<T>(s: seq<T>, key: T -> int)
    ensures multiset(SortDesc(s, key)) == multiset(s)
    ensures |SortDesc(s, key)| == |s|
  {
    if s != [] {
      var init, last := s[..|s| - 1], s[|s| - 1];
      SortDescPermutes(init, key);
      InsertPermutes(last, SortDesc(init, key), key);
      assert s == init + [last];
    }
  }

  lemma {:induction false} SortDescSorted<T>(s: seq<T>, key: T -> int)
    ensures SortedDesc(SortDesc(s, key), key)
  {
    if s != [] {
      SortDescSorted(s[..|s| - 1], key);
      InsertSorted(s[|s| - 1], SortDesc(s[..|s| - 1], key), key);
    }
  }

  lemma {:induction false} SortDescStable<T>(s: seq<T>, key: T -> int, k: int)
    ensures WithKey(SortDesc(s, key), key, k) == WithKey(s, key, k)
  {
    if s != [] {
      var init, last := s[..|s| - 1], s[|s| - 1];
      var sorted := SortDesc(init, key);
      var own := if key(last) == k then [last] else [];
      assert SortDesc(s, key) == Insert(last, sorted, key);
      SortDescStable(init, key, k);
      SortDescSorted(init, key);
      InsertKeepsKeyOrder(last, sorted, key, k);
      assert WithKey(SortDesc(s, key), key, k) == WithKey(init, key, k) + own;
      assert [last][1..] == [];
      assert WithKey([last], key, k) == own;
      WithKeyAppend(init, [last], key, k);
      assert s == init + [last];
    }
  }

  /** The sort orders by non-increasing key, permutes its input, and keeps equal keys in input order. */
  lemma SortDescCorrect<T>(s: seq<T>, key: T -> int)
    ensures SortedDesc(SortDesc(s, key), key)
    ensures multiset(SortDesc(s, key)) == multiset(s)
    ensures |SortDesc(s, key)| == |s|
    ensures forall k :: WithKey(SortDesc(s, key), key, k) == WithKey(s, key, k)
  {
    SortDescSorted(s, key);
    SortDescPermutes(s, key);
    forall k ensures WithKey(SortDesc(s, key), key, k) == WithKey(s, key, k) {
      SortDescStable(s, key, k);
    }
  }

  /** The first n elements of the sort: taken from s, in order, and none has a smaller key than an element left out. */
  lemma TopOfSorted<T>(s: seq<T>, key: T -> int, n: nat)
    requires n <= |s|
    ensures |SortDesc(s, key)| == |s|
    ensures forall x :: x in SortDesc(s, key)[..n] ==> x in s
    ensures SortedDesc(SortDesc(s, key)[..n], key)
    ensures forall i, x :: 0 <= i < n && x in s && x !in SortDesc(s, key)[..n] ==> key(SortDesc(s, key)[i]) >= key(x)
  {
    var t := SortDesc(s, key);
    SortDescCorrect(s, key);
    forall x | x in t[..n] ensures x in s {
      assert x in multiset(t);
    }
    forall i, x | 0 <= i < n && x in s && x !in t[..n] ensures key(t[i]) >= key(x) {
      assert x in multiset(s);
      var k :| 0 <= k < |t| && t[k] == x;
    }
  }
}
