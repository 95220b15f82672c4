// The source sorts with Rust's `sort_by_key`, `sort_by` and `sort`, all of which
// are stable. A stable sort is determined by its two properties (ascending keys,
// equal keys in input order), so it is modelled by stable insertion sort.

module Sorting {

  import opened Common

  predicate SortedBy<T>(s: seq<T>, key: T -> int) {
    forall i, j :: 0 <= i < j < |s| ==> key(s[i]) <= key(s[j])
  }

  /** Inserts `x` after every element of the sorted `s` whose key is not larger. */
  function Insert<T>(x: T, s: seq<T>, key: T -> int): (r: seq<T>)
    ensures |r| == |s| + 1
  {
    if s == [] || key(x) < key(s[0]) then [x] + s
    else
      assert s == [s[0]] + s[1..];
      [s[0]] + Insert(x, s[1..], key)
  }

  /** Stable ascending sort of `s` by `key`. */
  function SortBy<T>(s: seq<T>, key: T -> int): (r: seq<T>)
    ensures |r| == |s|
  {
    if s == [] then []
    else Insert(Last(s), SortBy(s[..|s| - 1], key), key)
  }

  lemma {:induction false} InsertMultiset<T>(x: T, s: seq<T>, key: T -> int)
    ensures multiset(Insert(x, s, key)) == multiset(s) + multiset{x}
  {
    if s != [] && key(x) >= key(s[0]) {
      assert s == [s[0]] + s[1..];
      InsertMultiset(x, s[1..], key);
    }
  }

  /** Sorting only rearranges. */
  lemma {:induction false} SortByMultiset<T>(s: seq<T>, key: T -> int)
    ensures multiset(SortBy(s, key)) == multiset(s)
  {
    if s != [] {
      var p := s[..|s| - 1];
      assert s == p + [Last(s)];
      SortByMultiset(p, key);
      InsertMultiset(Last(s), SortBy(p, key), key);
    }
  }

  /** The elements of `s` whose key is `k`, in their order in `s`. */
  function WithKey<T>(s: seq<T>, key: T -> int, k: int): (r: seq<T>)
    ensures |r| <= |s|
  {
    if s == [] then []
    else (if key(s[0]) == k then [s[0]] else []) + WithKey(s[1..], key, k)
  }

  lemma {:induction false} WithKeyAppend<T>(s: seq<T>, x: T, key: T -> int, k: int)
    ensures WithKey(s + [x], key, k) == WithKey(s, key, k) + (if key(x) == k then [x] else [])
  {
    if s != [] {
      assert (s + [x])[1..] == s[1..] + [x];
      WithKeyAppend(s[1..], x, key, k);
    }
  }

  lemma {:induction false} WithKeyAbove<T>(s: seq<T>, key: T -> int, k: int)
    requires forall i :: 0 <= i < |s| ==> key(s[i]) > k
    ensures WithKey(s, key, k) == []
  {
    if s != [] {
      WithKeyAbove(s[1..], key, k);
    }
  }

  lemma {:induction false} InsertSorted<T>(x: T, s: seq<T>, key: T -> int)
    requires SortedBy(s, key)
    ensures SortedBy(Insert(x, s, key), key)
  {
    if s != [] && key(x) >= key(s[0]) {
      InsertSorted(x, s[1..], key);
      var r := Insert(x, s, key);
      var t := Insert(x, s[1..], key);
      assert r == [s[0]] + t;
      InsertMultiset(x, s[1..], key);
      forall j | 0 < j < |r| ensures key(r[0]) <= key(r[j]) {
        assert r[j] in multiset(t);
        assert r[j] == x || r[j] in multiset(s[1..]);
        if r[j] != x {
          var m :| 0 <= m < |s[1..]| && s[1..][m] == r[j];
          assert s[1..][m] == s[m + 1];
        }
      }
    }
  }

  /** The result of `SortBy` is in ascending key order. */
  lemma {:induction false} SortBySorted<T>(s: seq<T>, key: T -> int)
    ensures SortedBy(SortBy(s, key), key)
  {
    if s != [] {
      SortBySorted(s[..|s| - 1], key);
      InsertSorted(Last(s), SortBy(s[..|s| - 1], key), key);
    }
  }

  lemma {:induction false} InsertWithKey<T>(x: T, s: seq<T>, key: T -> int, k: int)
    requires SortedBy(s, key)
    ensures WithKey(Insert(x, s, key), key, k) == WithKey(s, key, k) + (if key(x) == k then [x] else [])
  {
    var own := if key(x) == k then [x] else [];
    if s == [] {
      assert Insert(x, s, key) == [x];
    } else if key(x) < key(s[0]) {
      var r := [x] + s;
      assert Insert(x, s, key) == r;
      assert r[1..] == s;
      assert WithKey(r, key, k) == own + WithKey(s, key, k);
      if key(x) == k {
        WithKeyAbove(s, key, k);
      }
    } else {
      var t := Insert(x, s[1..], key);
      var r := [s[0]] + t;
      assert Insert(x, s, key) == r;
      assert r[1..] == t;
      var head := if key(s[0]) == k then [s[0]] else [];
      assert SortedBy(s[1..], key) by {
        forall i, j | 0 <= i < j < |s[1..]| ensures key(s[1..][i]) <= key(s[1..][j]) {
          assert s[1..][i] == s[i + 1] && s[1..][j] == s[j + 1];
        }
      }
      InsertWithKey(x, s[1..], key, k);
      assert WithKey(r, key, k) == head + (WithKey(s[1..], key, k) + own);
      assert WithKey(s, key, k) == head + WithKey(s[1..], key, k);
    }
  }

  /**
   * Stability: the elements sharing a key keep their relative order.
   * Together with SortBySorted this determines the result uniquely.
   */
  lemma {:induction false} SortByStable<T>(s: seq<T>, key: T -> int, k: int)
    ensures WithKey(SortBy(s, key), key, k) == WithKey(s, key, k)
  {
    if s != [] {
      var p := s[..|s| - 1];
      SortByStable(p, key, k);
      SortBySorted(p, key);
      InsertWithKey(Last(s), SortBy(p, key), key, k);
      assert s == p + [Last(s)];
      WithKeyAppend(p, Last(s), key, k);
    }
  }

  /** Ascending by `key`, and by `rank` among equal keys. */
  predicate LexSorted<T>(s: seq<T>, key: T -> int, rank: T -> int) {
    forall i, j :: 0 <= i < j < |s| ==>
      key(s[i]) < key(s[j]) || (key(s[i]) == key(s[j]) && rank(s[i]) < rank(s[j]))
  }

  lemma {:induction false} InsertLex<T>(x: T, s: seq<T>, key: T -> int, rank: T -> int)
    requires LexSorted(s, key, rank)
    requires forall i :: 0 <= i < |s| ==> rank(s[i]) < rank(x)
    ensures LexSorted(Insert(x, s, key), key, rank)
  {
    var r := Insert(x, s, key);
    if s == [] {
    } else if key(x) < key(s[0]) {
      assert r == [x] + s;
      forall j | 0 < j < |r| ensures key(x) < key(r[j]) {
        assert r[j] == s[j - 1];
        if j > 1 {
          assert key(s[0]) <= key(s[j - 1]);
        }
      }
    } else {
      var t := Insert(x, s[1..], key);
      assert r == [s[0]] + t;
      assert LexSorted(s[1..], key, rank) by {
        forall i, j | 0 <= i < j < |s[1..]| ensures s[1..][i] == s[i + 1] && s[1..][j] == s[j + 1] {
        }
      }
      InsertLex(x, s[1..], key, rank);
      InsertMultiset(x, s[1..], key);
      forall j | 0 < j < |r|
        ensures key(r[0]) < key(r[j]) || (key(r[0]) == key(r[j]) && rank(r[0]) < rank(r[j]))
      {
        assert r[j] in multiset(t);
        if r[j] != x {
          assert r[j] in multiset(s[1..]);
          var m :| 0 <= m < |s[1..]| && s[1..][m] == r[j];
          assert s[1..][m] == s[m + 1];
        }
      }
    }
  }

  /**
   * Sorting a sequence already ascending in `rank` by `key` leaves it ascending
   * in `(key, rank)`: stability breaks ties by original position.
   */
  lemma {:induction false} SortByLex<T>(s: seq<T>, key: T -> int, rank: T -> int)
    requires forall i, j :: 0 <= i < j < |s| ==> rank(s[i]) < rank(s[j])
    ensures LexSorted(SortBy(s, key), key, rank)
  {
    if s != [] {
      var p := s[..|s| - 1];
      SortByLex(p, key, rank);
      var q := SortBy(p, key);
      SortByMultiset(p, key);
      forall i | 0 <= i < |q| ensures rank(q[i]) < rank(Last(s)) {
        assert q[i] in multiset(p);
        var m :| 0 <= m < |p| && p[m] == q[i];
      }
      InsertLex(Last(s), q, key, rank);
    }
  }
}
