// Shared vocabulary: the u32 limit used as a sentinel throughout the source,
// job permutations, and small facts about sequences.

module Common {

  /** `u32::MAX`, used by the source as "no value yet" and as a filler. */
  const U32_MAX: nat := 4294967295

  /** `Option<T>`: a value that may be absent. */
  datatype Option<T> = None | Some(value: T)

  function Last<T>(s: seq<T>): T
    requires |s| > 0
  {
    s[|s| - 1]
  }

  /** `Vec::pop` / `remove(len - 1)`: the sequence is its front followed by its last element. */
  lemma PopLast<T>(s: seq<T>)
    requires |s| > 0
    ensures s == s[..|s| - 1] + [Last(s)]
    ensures multiset(s) == multiset(s[..|s| - 1]) + multiset{Last(s)}
  {
    assert s == s[..|s| - 1] + [Last(s)];
  }

  function Max(a: nat, b: nat): (r: nat)
    ensures r >= a && r >= b && (r == a || r == b)
  {
    if a >= b then a else b
  }

  predicate Distinct<T(==)>(s: seq<T>) {
    forall i, j :: 0 <= i < j < |s| ==> s[i] != s[j]
  }

  /** The ids `0, 1, ..., n - 1` in ascending order: `(0..n).collect()`. */
  function Range(n: nat): (r: seq<nat>)
    ensures |r| == n && forall i :: 0 <= i < n ==> r[i] == i
  {
    seq(n, i => i)
  }

  /** `s` holds every job id of `0..n` exactly once. */
  predicate IsPermutation(s: seq<nat>, n: nat) {
    multiset(s) == multiset(Range(n))
  }

  /** Every element is a job id below `n` and no id repeats: a (partial) schedule. */
  predicate DistinctBelow(s: seq<nat>, n: nat) {
    Distinct(s) && forall i :: 0 <= i < |s| ==> s[i] < n
  }

  lemma DistinctBelowPrefix(s: seq<nat>, n: nat, i: nat)
    requires DistinctBelow(s, n) && i <= |s|
    ensures DistinctBelow(s[..i], n)
  {
    assert forall k :: 0 <= k < i ==> s[..i][k] == s[k];
  }

  function RemoveAt<T>(s: seq<T>, i: nat): (r: seq<T>)
    requires i < |s|
    ensures |r| == |s| - 1
    ensures forall j :: 0 <= j < |r| ==> r[j] == s[if j < i then j else j + 1]
  {
    s[..i] + s[i + 1..]
  }

  function InsertAt<T>(s: seq<T>, i: nat, x: T): (r: seq<T>)
    requires i <= |s|
    ensures |r| == |s| + 1 && r[i] == x
    ensures forall j :: 0 <= j < i ==> r[j] == s[j]
    ensures forall j :: i < j < |r| ==> r[j] == s[j - 1]
  {
    s[..i] + [x] + s[i..]
  }

  lemma RemoveAtMultiset<T>(s: seq<T>, i: nat)
    requires i < |s|
    ensures multiset(RemoveAt(s, i)) + multiset{s[i]} == multiset(s)
  {
    assert s == s[..i] + [s[i]] + s[i + 1..];
  }

  lemma InsertAtMultiset<T>(s: seq<T>, i: nat, x: T)
    requires i <= |s|
    ensures multiset(InsertAt(s, i, x)) == multiset(s) + multiset{x}
  {
    assert s == s[..i] + s[i..];
  }

  lemma {:induction false} RangeCount(n: nat, x: nat)
    ensures multiset(Range(n))[x] == if x < n then 1 else 0
  {
    if n > 0 {
      assert Range(n) == Range(n - 1) + [n - 1];
      RangeCount(n - 1, x);
    }
  }

  /** A permutation of `0..n` has length `n`, holds only ids below `n` and repeats none. */
  lemma PermutationFacts(s: seq<nat>, n: nat)
    requires IsPermutation(s, n)
    ensures |s| == n && DistinctBelow(s, n)
  {
    assert |multiset(s)| == |multiset(Range(n))|;
    forall i | 0 <= i < |s| ensures s[i] < n {
      assert s[i] in multiset(s);
      RangeCount(n, s[i]);
    }
    forall i, j | 0 <= i < j < |s| ensures s[i] != s[j] {
      if s[i] == s[j] {
        TwiceCounted(s, i, j);
        RangeCount(n, s[i]);
      }
    }
  }

  /** Part of a permutation of `0..n` holds only ids below `n`, each at most once. */
  lemma WithinRange(s: seq<nat>, n: nat)
    requires multiset(s) <= multiset(Range(n))
    ensures DistinctBelow(s, n)
  {
    forall i | 0 <= i < |s| ensures s[i] < n {
      assert s[i] in multiset(s);
      RangeCount(n, s[i]);
    }
    forall i, j | 0 <= i < j < |s| ensures s[i] != s[j] {
      if s[i] == s[j] {
        TwiceCounted(s, i, j);
        RangeCount(n, s[i]);
      }
    }
  }

  /** The number of occurrences of `x` in `s`. */
  function Count<T(==)>(s: seq<T>, x: T): nat {
    if s == [] then 0 else Count(s[..|s| - 1], x) + (if Last(s) == x then 1 else 0)
  }

  lemma {:induction false} CountAbsent<T>(s: seq<T>, x: T)
    requires x !in s
    ensures Count(s, x) == 0
  {
    if s != [] {
      CountAbsent(s[..|s| - 1], x);
    }
  }

  /** Counting from the front: the first element, then the rest. */
  lemma CountFront<T>(s: seq<T>, x: T)
    requires s != []
    ensures Count(s, x) == (if s[0] == x then 1 else 0) + Count(s[1..], x)
  {
    assert s == [s[0]] + s[1..];
    assert [s[0]][..0] == [];
    CountAppend([s[0]], s[1..], x);
  }

  lemma {:induction false} CountAppend<T>(s: seq<T>, t: seq<T>, x: T)
    ensures Count(s + t, x) == Count(s, x) + Count(t, x)
  {
    if t == [] {
      assert s + t == s;
    } else {
      assert (s + t)[..|s + t| - 1] == s + t[..|t| - 1];
      CountAppend(s, t[..|t| - 1], x);
    }
  }

  function Elements<T>(s: seq<T>): set<T> {
    set x | x in s
  }

  lemma {:induction false} DistinctCard<T>(s: seq<T>)
    requires Distinct(s)
    ensures |Elements(s)| == |s|
  {
    if s != [] {
      var p := s[..|s| - 1];
      DistinctCard(p);
      assert Elements(s) == Elements(p) + {Last(s)};
      assert Last(s) !in p;
    }
  }

  /** A schedule of distinct ids below `n` has at most `n` jobs. */
  lemma DistinctBelowLength(s: seq<nat>, n: nat)
    requires DistinctBelow(s, n)
    ensures |s| <= n
  {
    DistinctCard(s);
    DistinctCard(Range(n));
    var elems, below := Elements(s), Elements(Range(n));
    forall x | x in elems ensures x in below {
      var i :| 0 <= i < |s| && s[i] == x;
      assert Range(n)[x] == x;
    }
    SubsetCard(elems, below);
  }

  lemma SubsetCard<T>(a: set<T>, b: set<T>)
    requires a <= b
    ensures |a| <= |b|
  {
    assert b == a + (b - a);
  }

  /** Two permutations of each other hold the same elements. */
  lemma SameElements<T>(a: seq<T>, b: seq<T>, x: T)
    requires multiset(a) == multiset(b)
    ensures x in a <==> x in b
  {
    assert x in a <==> x in multiset(a);
    assert x in b <==> x in multiset(b);
  }

  lemma {:induction false} DistinctCount<T>(a: seq<T>, v: T)
    requires Distinct(a)
    ensures multiset(a)[v] <= 1
  {
    if a != [] {
      var p := a[..|a| - 1];
      assert a == p + [Last(a)];
      DistinctCount(p, v);
      if v == Last(a) {
        assert v !in p;
      }
    }
  }

  /** Two sequences without repetitions holding the same elements are rearrangements of each other. */
  lemma SameDistinct<T>(a: seq<T>, b: seq<T>)
    requires Distinct(a) && Distinct(b) && forall x :: x in a <==> x in b
    ensures multiset(a) == multiset(b)
  {
    forall x ensures multiset(a)[x] == multiset(b)[x] {
      DistinctCount(a, x);
      DistinctCount(b, x);
      assert x in a <==> x in multiset(a);
      assert x in b <==> x in multiset(b);
    }
  }

  /** The slice up to the end is the whole sequence. */
  lemma WholeSlice<T>(s: seq<T>)
    ensures multiset(s[..|s|]) == multiset(s)
  {
    assert s[..|s|] == s;
  }

  /** Dropping the last element of a sequence without repetitions leaves one, without that element. */
  lemma DistinctPop<T>(s: seq<T>)
    requires Distinct(s) && |s| > 0
    ensures Distinct(s[..|s| - 1]) && Last(s) !in s[..|s| - 1]
  {
    var p := s[..|s| - 1];
    assert forall i :: 0 <= i < |p| ==> p[i] == s[i];
  }

  /** A sequence holding some value at two positions counts it at least twice. */
  lemma TwiceCounted<T>(b: seq<T>, i: nat, j: nat)
    requires i < j < |b| && b[i] == b[j]
    ensures multiset(b)[b[i]] >= 2
  {
    assert b == b[..j] + b[j..];
    assert b[i] in multiset(b[..j]) && b[j] in multiset(b[j..]);
  }

  /** A rearrangement of a sequence without repetitions has none either. */
  lemma DistinctMultiset<T>(a: seq<T>, b: seq<T>)
    requires multiset(a) == multiset(b) && Distinct(a)
    ensures Distinct(b)
  {
    forall i, j | 0 <= i < j < |b| ensures b[i] != b[j] {
      if b[i] == b[j] {
        TwiceCounted(b, i, j);
        DistinctCount(a, b[i]);
      }
    }
  }

  /** `n` distinct ids below `n` are a permutation of `0..n`. */
  lemma DistinctPermutation(s: seq<nat>, n: nat)
    requires DistinctBelow(s, n) && |s| == n
    ensures IsPermutation(s, n)
  {
    forall x: nat ensures multiset(s)[x] == multiset(Range(n))[x] {
      RangeCount(n, x);
      DistinctCount(s, x);
      if x < n && x !in s {
        var all := Elements(Range(n));
        assert Range(n)[x] == x;
        forall y | y in Elements(s) ensures y in all - {x} {
          assert Range(n)[y] == y;
        }
        DistinctCard(s);
        DistinctCard(Range(n));
        SubsetCard(Elements(s), all - {x});
        assert false;
      }
    }
    assert multiset(s) == multiset(Range(n));
  }

  /** `Vec::reverse`: the sequence read back to front. */
  function Reversed<T>(s: seq<T>): (r: seq<T>)
    ensures |r| == |s| && forall i :: 0 <= i < |s| ==> r[i] == s[|s| - 1 - i]
  {
    seq(|s|, i requires 0 <= i < |s| => s[|s| - 1 - i])
  }

  lemma ReversedMultiset<T>(s: seq<T>)
    ensures multiset(Reversed(s)) == multiset(s)
  {
    if s != [] {
      assert Reversed(s) == [Last(s)] + Reversed(s[..|s| - 1]);
      ReversedMultiset(s[..|s| - 1]);
      assert s == s[..|s| - 1] + [Last(s)];
    }
  }
}
