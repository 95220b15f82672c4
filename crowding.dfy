// Distance metrics and deterministic crowding
// (src/genetic_algorithm/operators/crowding.rs). Chromosomes are compared
// for selection by their cached makespan only, so `&winner == c` is a
// comparison of makespans. Only the deterministic tournament (scale 0) is
// modelled; the coin that breaks a tie is a parameter.

module Crowding {

  import opened Common
  import opened Sorting
  import opened Chromosomes

  /** `DTYPE`: the distance metric crowding uses. */
  datatype DType = ExactMatch | DeviationDistance

  // ---- ExactMatch ----

  /**
   * `ExactMatch::distance`: the number of positions, over the common length
   * (`zip`), at which the two job lists hold the same job.
   */
  function Matches(a: seq<nat>, b: seq<nat>): (r: nat)
    ensures r <= |a| && r <= |b|
  {
    if a == [] || b == [] then 0
    else (if a[0] == b[0] then 1 else 0) + Matches(a[1..], b[1..])
  }

  /** The count does not depend on the order of the arguments. */
  lemma {:induction false} MatchesSymmetric(a: seq<nat>, b: seq<nat>)
    ensures Matches(a, b) == Matches(b, a)
  {
    if a != [] && b != [] {
      MatchesSymmetric(a[1..], b[1..]);
    }
  }

  /** A list agrees with itself everywhere. */
  lemma {:induction false} MatchesSelf(a: seq<nat>)
    ensures Matches(a, a) == |a|
  {
    if a != [] {
      MatchesSelf(a[1..]);
    }
  }

  /** Lists that disagree at some common position do not match everywhere. */
  lemma {:induction false} MatchesBelow(a: seq<nat>, b: seq<nat>, i: nat)
    requires i < |a| && i < |b| && a[i] != b[i]
    ensures Matches(a, b) < |a| && Matches(a, b) < |b|
  {
    if i > 0 {
      MatchesBelow(a[1..], b[1..], i - 1);
    }
  }

  // ---- DeviationDistance ----

  /**
   * The index array `DeviationDistance` builds for `s`: `n` zeros, then
   * `idx[s[i]] = i` for each `i` below `m`, in order.
   */
  function Positions(s: seq<nat>, n: nat, m: nat): (r: seq<nat>)
    requires m <= |s| && forall i :: 0 <= i < m ==> s[i] < n
    ensures |r| == n
  {
    if m == 0 then seq(n, _ => 0) else Positions(s, n, m - 1)[s[m - 1] := m - 1]
  }

  /** For distinct jobs the index array records each job's position, and 0 for the others. */
  lemma {:induction false} PositionsOfDistinct(s: seq<nat>, n: nat, m: nat)
    requires m <= |s| && DistinctBelow(s[..m], n)
    ensures forall i :: 0 <= i < m ==> s[i] < n && Positions(s, n, m)[s[i]] == i
    ensures forall j :: 0 <= j < n && j !in s[..m] ==> Positions(s, n, m)[j] == 0
  {
    assert forall i :: 0 <= i < m ==> s[..m][i] == s[i];
    if m > 0 {
      assert s[..m - 1] == s[..m][..m - 1];
      DistinctBelowPrefix(s[..m], n, m - 1);
      PositionsOfDistinct(s, n, m - 1);
      assert s[..m] == s[..m - 1] + [s[m - 1]];
    }
  }

  function Diff(x: nat, y: nat): nat {
    if x >= y then x - y else y - x
  }

  /** The fold of `|i1 - i2|` over two index arrays of equal length. */
  function Deviation(xs: seq<nat>, ys: seq<nat>): nat
    requires |xs| == |ys|
  {
    if xs == [] then 0
    else Deviation(xs[..|xs| - 1], ys[..|ys| - 1]) + Diff(Last(xs), Last(ys))
  }

  /** The jobs `DeviationDistance` indexes by are below the length of the first list. */
  predicate DeviationReady(a: seq<nat>, b: seq<nat>) {
    forall i :: 0 <= i < |a| && i < |b| ==> a[i] < |a| && b[i] < |a|
  }

  function Shared(a: seq<nat>, b: seq<nat>): nat {
    if |a| <= |b| then |a| else |b|
  }

  /** `DeviationDistance::distance`: the sum over jobs of the difference of their positions. */
  function DeviationOf(a: seq<nat>, b: seq<nat>): nat
    requires DeviationReady(a, b)
  {
    Deviation(Positions(a, |a|, Shared(a, b)), Positions(b, |a|, Shared(a, b)))
  }

  lemma {:induction false} DeviationSymmetric(xs: seq<nat>, ys: seq<nat>)
    requires |xs| == |ys|
    ensures Deviation(xs, ys) == Deviation(ys, xs)
  {
    if xs != [] {
      DeviationSymmetric(xs[..|xs| - 1], ys[..|ys| - 1]);
    }
  }

  lemma {:induction false} DeviationZero(xs: seq<nat>)
    ensures Deviation(xs, xs) == 0
  {
    if xs != [] {
      DeviationZero(xs[..|xs| - 1]);
    }
  }

  /** The deviation distance is 0 between identical lists and symmetric between lists of one length. */
  lemma DeviationFacts(a: seq<nat>, b: seq<nat>)
    requires DeviationReady(a, a) && DeviationReady(a, b)
    ensures DeviationOf(a, a) == 0
    ensures |a| == |b| ==> DeviationReady(b, a) && DeviationOf(a, b) == DeviationOf(b, a)
  {
    var n := Shared(a, a);
    DeviationZero(Positions(a, |a|, n));
    if |a| == |b| {
      DeviationSymmetric(Positions(a, |a|, |a|), Positions(b, |a|, |a|));
    }
  }

  /** A difference at any position makes the deviation positive. */
  lemma {:induction false} DeviationPositive(xs: seq<nat>, ys: seq<nat>, j: nat)
    requires |xs| == |ys| && j < |xs| && xs[j] != ys[j]
    ensures Deviation(xs, ys) > 0
    decreases |xs|
  {
    if j < |xs| - 1 {
      DeviationPositive(xs[..|xs| - 1], ys[..|ys| - 1], j);
    }
  }

  /**
   * Between two permutations of the same jobs the deviation distance is 0
   * exactly when they are the same sequence.
   */
  lemma DeviationIdentifies(a: seq<nat>, b: seq<nat>, n: nat)
    requires IsPermutation(a, n) && IsPermutation(b, n)
    ensures DeviationReady(a, b) && (DeviationOf(a, b) == 0 <==> a == b)
  {
    PermutationFacts(a, n);
    PermutationFacts(b, n);
    assert a[..n] == a && b[..n] == b;
    var xs, ys := Positions(a, n, n), Positions(b, n, n);
    PositionsOfDistinct(a, n, n);
    PositionsOfDistinct(b, n, n);
    if a == b {
      DeviationZero(xs);
    } else {
      var i :| 0 <= i < n && a[i] != b[i];
      assert a[i] in multiset(b);
      var y :| 0 <= y < n && b[y] == a[i];
      assert xs[a[i]] == i && ys[a[i]] == y;
      DeviationPositive(xs, ys, a[i]);
    }
  }

  /** The index-array loop of `DeviationDistance`. */
  method IndexArrays(a: seq<nat>, b: seq<nat>) returns (aIdx: array<nat>, bIdx: array<nat>)
    requires DeviationReady(a, b)
    ensures fresh(aIdx) && fresh(bIdx)
    ensures aIdx[..] == Positions(a, |a|, Shared(a, b)) && bIdx[..] == Positions(b, |a|, Shared(a, b))
  {
    var n := |a|;
    aIdx := new nat[n](_ => 0);
    bIdx := new nat[n](_ => 0);
    assert aIdx[..] == seq(n, _ => 0) && bIdx[..] == seq(n, _ => 0);
    var i := 0;
    while i < |a| && i < |b|
      invariant i <= Shared(a, b)
      invariant aIdx[..] == Positions(a, n, i) && bIdx[..] == Positions(b, n, i)
    {
      aIdx[a[i]] := i;
      bIdx[b[i]] := i;
      i := i + 1;
    }
  }

  /**
   * `DeviationDistance::distance`: the positions of every job in each list,
   * then the sum of their differences. Every job must index into the first
   * list's length.
   */
  method Deviations(c1: Chromosome, c2: Chromosome) returns (d: nat)
    requires DeviationReady(c1.jobs, c2.jobs)
    ensures d == DeviationOf(c1.jobs, c2.jobs)
  {
    var aIdx, bIdx := IndexArrays(c1.jobs, c2.jobs);
    ghost var xs, ys := aIdx[..], bIdx[..];
    d := 0;
    for j := 0 to aIdx.Length
      invariant d == Deviation(xs[..j], ys[..j])
    {
      assert xs[..j + 1][..j] == xs[..j] && ys[..j + 1][..j] == ys[..j];
      d := d + Diff(aIdx[j], bIdx[j]);
    }
    assert xs[..aIdx.Length] == xs && ys[..aIdx.Length] == ys;
  }

  /** The crate's ExactMatch example: 4 positions agree. */
  lemma ExactMatchExample()
    ensures Matches([0, 1, 2, 3, 4, 5], [0, 1, 2, 4, 3, 5]) == 4
  {
    var a: seq<nat>, b: seq<nat> := [0, 1, 2, 3, 4, 5], [0, 1, 2, 4, 3, 5];
    assert Matches(a[6..], b[6..]) == 0;
    assert Matches(a[5..], b[5..]) == 1 by { assert a[5..][1..] == a[6..] && b[5..][1..] == b[6..]; }
    assert Matches(a[4..], b[4..]) == 1 by { assert a[4..][1..] == a[5..] && b[4..][1..] == b[5..]; }
    assert Matches(a[3..], b[3..]) == 1 by { assert a[3..][1..] == a[4..] && b[3..][1..] == b[4..]; }
    assert Matches(a[2..], b[2..]) == 2 by { assert a[2..][1..] == a[3..] && b[2..][1..] == b[3..]; }
    assert Matches(a[1..], b[1..]) == 3 by { assert a[1..][1..] == a[2..] && b[1..][1..] == b[2..]; }
    assert a == a[0..] && b == b[0..];
  }

  lemma FirstExamplePositions()
    ensures Positions([5, 1, 2, 3, 4, 0], 6, 6) == [5, 1, 2, 3, 4, 0]
  {
    var a: seq<nat> := [5, 1, 2, 3, 4, 0];
    assert Positions(a, 6, 0) == [0, 0, 0, 0, 0, 0];
    assert Positions(a, 6, 2) == [0, 1, 0, 0, 0, 0];
    assert Positions(a, 6, 4) == [0, 1, 2, 3, 0, 0];
  }

  lemma SecondExamplePositions()
    ensures Positions([0, 1, 2, 4, 3, 5], 6, 6) == [0, 1, 2, 4, 3, 5]
  {
    var b: seq<nat> := [0, 1, 2, 4, 3, 5];
    assert Positions(b, 6, 0) == [0, 0, 0, 0, 0, 0];
    assert Positions(b, 6, 2) == [0, 1, 0, 0, 0, 0];
    assert Positions(b, 6, 4) == [0, 1, 2, 0, 3, 0];
  }

  lemma ExampleDeviationSum()
    ensures Deviation([5, 1, 2, 3, 4, 0], [0, 1, 2, 4, 3, 5]) == 12
  {
    var xs: seq<nat>, ys: seq<nat> := [5, 1, 2, 3, 4, 0], [0, 1, 2, 4, 3, 5];
    assert Deviation(xs[..1], ys[..1]) == 5;
    assert Deviation(xs[..2], ys[..2]) == 5 by { assert xs[..2][..1] == xs[..1] && ys[..2][..1] == ys[..1]; }
    assert Deviation(xs[..3], ys[..3]) == 5 by { assert xs[..3][..2] == xs[..2] && ys[..3][..2] == ys[..2]; }
    assert Deviation(xs[..4], ys[..4]) == 6 by { assert xs[..4][..3] == xs[..3] && ys[..4][..3] == ys[..3]; }
    assert Deviation(xs[..5], ys[..5]) == 7 by { assert xs[..5][..4] == xs[..4] && ys[..5][..4] == ys[..4]; }
    assert xs[..5] == xs[..|xs| - 1] && ys[..5] == ys[..|ys| - 1];
  }

  /** The crate's DeviationDistance example: the positions deviate by 12 in total. */
  lemma DeviationExample()
    ensures DeviationReady([5, 1, 2, 3, 4, 0], [0, 1, 2, 4, 3, 5])
    ensures DeviationOf([5, 1, 2, 3, 4, 0], [0, 1, 2, 4, 3, 5]) == 12
  {
    FirstExamplePositions();
    SecondExamplePositions();
    ExampleDeviationSum();
  }

  /** `Deviation` over prefixes one position longer adds that position's difference. */
  lemma DeviationNext(xs: seq<nat>, ys: seq<nat>, n: nat)
    requires |xs| == |ys| && n < |xs|
    ensures Deviation(xs[..n + 1], ys[..n + 1]) == Deviation(xs[..n], ys[..n]) + Diff(xs[n], ys[n])
  {
    assert xs[..n + 1][..n] == xs[..n] && ys[..n + 1][..n] == ys[..n];
  }

  /** `Deviation` read off the table `sums` of its running totals. */
  lemma DeviationByTable(xs: seq<nat>, ys: seq<nat>, sums: seq<nat>)
    requires RunningTotals(xs, ys, sums)
    ensures Deviation(xs, ys) == sums[|xs|]
  {
    assert xs[..0] == [] && ys[..0] == [];
    for n := 0 to |xs|
      invariant Deviation(xs[..n], ys[..n]) == sums[n]
    {
      DeviationNext(xs, ys, n);
    }
    assert xs[..|xs|] == xs && ys[..|ys|] == ys;
  }

  /** `inv` is the inverse of `s`, an order of all the jobs `0..|s|`. */
  predicate InverseOf(s: seq<nat>, inv: seq<nat>) {
    DistinctBelow(s, |s|) && |inv| == |s| && forall i :: 0 <= i < |s| ==> inv[s[i]] == i
  }

  /** `sums` holds the running totals of the differences of `xs` and `ys`. */
  predicate RunningTotals(xs: seq<nat>, ys: seq<nat>, sums: seq<nat>) {
    && |xs| == |ys| && |sums| == |xs| + 1 && sums[0] == 0
    && forall n :: 0 <= n < |xs| ==> sums[n + 1] == sums[n] + Diff(xs[n], ys[n])
  }

  /** The index array of an order of all the jobs `0..n` is its inverse. */
  lemma PositionsInverse(s: seq<nat>, inv: seq<nat>)
    requires InverseOf(s, inv)
    ensures Positions(s, |s|, |s|) == inv
  {
    assert s[..|s|] == s;
    PositionsOfDistinct(s, |s|, |s|);
    DistinctPermutation(s, |s|);
    forall j | 0 <= j < |s| ensures Positions(s, |s|, |s|)[j] == inv[j] {
      RangeCount(|s|, j);
      assert j in multiset(s);
    }
  }

  /**
   * The deviation distance of two orders of all the jobs, from their
   * inverses and the running totals of the differences of the inverses.
   */
  lemma DeviationOfOrders(a: seq<nat>, b: seq<nat>, ia: seq<nat>, ib: seq<nat>, sums: seq<nat>)
    requires InverseOf(a, ia) && InverseOf(b, ib) && |b| == |a| && RunningTotals(ia, ib, sums)
    ensures DeviationReady(a, b) && DeviationOf(a, b) == sums[|a|]
  {
    PositionsInverse(a, ia);
    PositionsInverse(b, ib);
    DeviationByTable(ia, ib, sums);
  }

  // ---- The metric ----

  predicate DistanceReady(dtype: DType, a: seq<nat>, b: seq<nat>) {
    dtype.DeviationDistance? ==> DeviationReady(a, b)
  }

  /** The distance the chosen metric gives. */
  function Distance(dtype: DType, a: seq<nat>, b: seq<nat>): nat
    requires DistanceReady(dtype, a, b)
  {
    match dtype
    case ExactMatch => Matches(a, b)
    case DeviationDistance => DeviationOf(a, b)
  }

  /** The closure `d` of `survivor_selection` and `dist` of `k_nearest_replacement`. */
  method Measure(dtype: DType, c1: Chromosome, c2: Chromosome) returns (d: nat)
    requires DistanceReady(dtype, c1.jobs, c2.jobs)
    ensures d == Distance(dtype, c1.jobs, c2.jobs)
  {
    match dtype
    case ExactMatch =>
      d := Matches(c1.jobs, c2.jobs);
    case DeviationDistance =>
      d := Deviations(c1, c2);
  }

  // ---- Tournaments ----

  predicate Evaluated(c: Chromosome) {
    c.makespan.Some?
  }

  /**
   * `find_winner` with scale 0: the one of `parent` and `child` with the
   * strictly lower makespan, and on equal makespans the child when `coin`
   * (the uniform pick) says so, else the parent.
   */
  function FindWinner(parent: Chromosome, child: Chromosome, coin: bool): (r: Chromosome)
    requires Evaluated(parent) && Evaluated(child)
    ensures r == parent || r == child
    ensures r.makespan.value <= parent.makespan.value && r.makespan.value <= child.makespan.value
    ensures parent.makespan.value == child.makespan.value ==> r == (if coin then child else parent)
  {
    if parent.makespan.value < child.makespan.value then parent
    else if child.makespan.value < parent.makespan.value then child
    else if coin then child
    else parent
  }

  /** The pairs `survivor_selection` can compare: two parents and two children, evaluated and measurable. */
  predicate Pairable(dtype: DType, children: seq<Chromosome>, parents: seq<Chromosome>) {
    && |children| >= 2 && |parents| >= 2
    && (forall i :: 0 <= i < 2 ==> Evaluated(children[i]) && Evaluated(parents[i]))
    && forall i, j :: 0 <= i < 2 && 0 <= j < 2 ==> DistanceReady(dtype, parents[i].jobs, children[j].jobs)
  }

  /** `d(p1, c1) + d(p2, c2) < d(p1, c2) + d(p2, c1)`: pair each parent with the child of the same index. */
  predicate Straight(dtype: DType, children: seq<Chromosome>, parents: seq<Chromosome>)
    requires Pairable(dtype, children, parents)
  {
    Distance(dtype, parents[0].jobs, children[0].jobs) + Distance(dtype, parents[1].jobs, children[1].jobs)
      < Distance(dtype, parents[0].jobs, children[1].jobs) + Distance(dtype, parents[1].jobs, children[0].jobs)
  }

  /**
   * `survivor_selection`: the pairing of parents with children of least
   * total distance (the crossed pairing when the two are equal), then one
   * tournament per pair; the winners come back in parent order.
   */
  method SurvivorSelection(children: seq<Chromosome>, parents: seq<Chromosome>, dtype: DType, coin0: bool, coin1: bool)
    returns (r: seq<Chromosome>)
    requires Pairable(dtype, children, parents)
    ensures Survivors(dtype, children, parents, coin0, coin1, r)
  {
    var d00 := Measure(dtype, parents[0], children[0]);
    var d11 := Measure(dtype, parents[1], children[1]);
    var d01 := Measure(dtype, parents[0], children[1]);
    var d10 := Measure(dtype, parents[1], children[0]);
    var p1, p2;
    if d00 + d11 < d01 + d10 {
      p1 := FindWinner(parents[0], children[0], coin0);
      p2 := FindWinner(parents[1], children[1], coin1);
    } else {
      p1 := FindWinner(parents[0], children[1], coin0);
      p2 := FindWinner(parents[1], children[0], coin1);
    }
    r := [p1, p2];
  }

  /** The winners of the tournaments of the nearer pairing, in parent order. */
  predicate Survivors(dtype: DType, children: seq<Chromosome>, parents: seq<Chromosome>, coin0: bool, coin1: bool,
                      r: seq<Chromosome>)
    requires Pairable(dtype, children, parents)
  {
    var straight := Straight(dtype, children, parents);
    && |r| == 2
    && r[0] == FindWinner(parents[0], if straight then children[0] else children[1], coin0)
    && r[1] == FindWinner(parents[1], if straight then children[1] else children[0], coin1)
  }

  /** Survivor `i` is the winner of parent `i` against child `i` xor `j`, and that pairing is the nearer one. */
  predicate Paired(dtype: DType, children: seq<Chromosome>, parents: seq<Chromosome>, r: seq<Chromosome>, j: nat)
    requires Pairable(dtype, children, parents) && |r| == 2 && j < 2
  {
    var c0, c1 := children[j], children[1 - j];
    && (r[0] == parents[0] || r[0] == c0)
    && r[0].makespan.value <= parents[0].makespan.value && r[0].makespan.value <= c0.makespan.value
    && (r[1] == parents[1] || r[1] == c1)
    && r[1].makespan.value <= parents[1].makespan.value && r[1].makespan.value <= c1.makespan.value
    && Distance(dtype, parents[0].jobs, c0.jobs) + Distance(dtype, parents[1].jobs, c1.jobs)
       <= Distance(dtype, parents[0].jobs, c1.jobs) + Distance(dtype, parents[1].jobs, c0.jobs)
  }

  /**
   * What the selection guarantees: each parent meets a different child, the
   * pairing taken is never farther in total than the other one, and each
   * survivor is no worse than the parent it replaces nor than that parent's
   * opponent.
   */
  lemma SurvivorsFacts(dtype: DType, children: seq<Chromosome>, parents: seq<Chromosome>, coin0: bool, coin1: bool,
                       r: seq<Chromosome>)
    requires Pairable(dtype, children, parents) && Survivors(dtype, children, parents, coin0, coin1, r)
    ensures |r| == 2 && exists j :: 0 <= j < 2 && Paired(dtype, children, parents, r, j)
  {
    var j := if Straight(dtype, children, parents) then 0 else 1;
    assert Paired(dtype, children, parents, r, j);
  }

  // ---- The crate's survivor selection examples ----

  /** The inverses of the orders of the crate's crowding examples. */
  lemma DescendingInverse()
    ensures InverseOf([5, 4, 3, 2, 1, 0], [5, 4, 3, 2, 1, 0])
  {
  }

  lemma AscendingInverse()
    ensures InverseOf([0, 1, 2, 3, 4, 5], [0, 1, 2, 3, 4, 5])
  {
  }

  lemma A1Inverse()
    ensures InverseOf([5, 4, 3, 1, 2, 0], [5, 3, 4, 2, 1, 0])
  {
  }

  lemma A2Inverse()
    ensures InverseOf([1, 0, 2, 3, 4, 5], [1, 0, 2, 3, 4, 5])
  {
  }

  lemma B1Inverse()
    ensures InverseOf([1, 0, 3, 2, 4, 5], [1, 0, 3, 2, 4, 5])
  {
  }

  lemma B2Inverse()
    ensures InverseOf([4, 5, 3, 1, 2, 0], [5, 3, 4, 2, 0, 1])
  {
  }

  lemma NewcomerInverse()
    ensures InverseOf([4, 5, 3, 2, 1, 0], [5, 4, 3, 2, 0, 1])
  {
  }

  lemma MiddleInverse()
    ensures InverseOf([0, 1, 3, 2, 4, 5], [0, 1, 3, 2, 4, 5])
  {
  }

  /**
   * The deviation distances of the survivor selection examples: the
   * parents `Descending` [5, 4, 3, 2, 1, 0] and `Ascending` [0, 1, 2, 3, 4, 5]
   * against the children `A1` [5, 4, 3, 1, 2, 0] and `A2` [1, 0, 2, 3, 4, 5]
   * of the first example and `B1` [1, 0, 3, 2, 4, 5] and `B2`
   * [4, 5, 3, 1, 2, 0] of the second.
   */
  lemma DistanceDescendingA1()
    ensures DeviationReady([5, 4, 3, 2, 1, 0], [5, 4, 3, 1, 2, 0]) && DeviationOf([5, 4, 3, 2, 1, 0], [5, 4, 3, 1, 2, 0]) == 2
  {
    DescendingInverse();
    A1Inverse();
    var xs: seq<nat>, ys: seq<nat>, sums: seq<nat> := [5, 4, 3, 2, 1, 0], [5, 3, 4, 2, 1, 0], [0, 0, 1, 2, 2, 2, 2];
    assert forall n :: 0 <= n < 6 ==> sums[n + 1] == sums[n] + Diff(xs[n], ys[n]) by {
      assert sums[1] == sums[0] + Diff(xs[0], ys[0]);
      assert sums[2] == sums[1] + Diff(xs[1], ys[1]);
      assert sums[3] == sums[2] + Diff(xs[2], ys[2]);
      assert sums[4] == sums[3] + Diff(xs[3], ys[3]);
      assert sums[5] == sums[4] + Diff(xs[4], ys[4]);
      assert sums[6] == sums[5] + Diff(xs[5], ys[5]);
    }
    DeviationOfOrders([5, 4, 3, 2, 1, 0], [5, 4, 3, 1, 2, 0], xs, ys, sums);
  }

  lemma DistanceAscendingA2()
    ensures DeviationReady([0, 1, 2, 3, 4, 5], [1, 0, 2, 3, 4, 5]) && DeviationOf([0, 1, 2, 3, 4, 5], [1, 0, 2, 3, 4, 5]) == 2
  {
    AscendingInverse();
    A2Inverse();
    var xs: seq<nat>, ys: seq<nat>, sums: seq<nat> := [0, 1, 2, 3, 4, 5], [1, 0, 2, 3, 4, 5], [0, 1, 2, 2, 2, 2, 2];
    assert forall n :: 0 <= n < 6 ==> sums[n + 1] == sums[n] + Diff(xs[n], ys[n]) by {
      assert sums[1] == sums[0] + Diff(xs[0], ys[0]);
      assert sums[2] == sums[1] + Diff(xs[1], ys[1]);
      assert sums[3] == sums[2] + Diff(xs[2], ys[2]);
      assert sums[4] == sums[3] + Diff(xs[3], ys[3]);
      assert sums[5] == sums[4] + Diff(xs[4], ys[4]);
      assert sums[6] == sums[5] + Diff(xs[5], ys[5]);
    }
    DeviationOfOrders([0, 1, 2, 3, 4, 5], [1, 0, 2, 3, 4, 5], xs, ys, sums);
  }

  lemma DistanceDescendingA2()
    ensures DeviationReady([5, 4, 3, 2, 1, 0], [1, 0, 2, 3, 4, 5]) && DeviationOf([5, 4, 3, 2, 1, 0], [1, 0, 2, 3, 4, 5]) == 18
  {
    DescendingInverse();
    A2Inverse();
    var xs: seq<nat>, ys: seq<nat>, sums: seq<nat> := [5, 4, 3, 2, 1, 0], [1, 0, 2, 3, 4, 5], [0, 4, 8, 9, 10, 13, 18];
    assert forall n :: 0 <= n < 6 ==> sums[n + 1] == sums[n] + Diff(xs[n], ys[n]) by {
      assert sums[1] == sums[0] + Diff(xs[0], ys[0]);
      assert sums[2] == sums[1] + Diff(xs[1], ys[1]);
      assert sums[3] == sums[2] + Diff(xs[2], ys[2]);
      assert sums[4] == sums[3] + Diff(xs[3], ys[3]);
      assert sums[5] == sums[4] + Diff(xs[4], ys[4]);
      assert sums[6] == sums[5] + Diff(xs[5], ys[5]);
    }
    DeviationOfOrders([5, 4, 3, 2, 1, 0], [1, 0, 2, 3, 4, 5], xs, ys, sums);
  }

  lemma DistanceAscendingA1()
    ensures DeviationReady([0, 1, 2, 3, 4, 5], [5, 4, 3, 1, 2, 0]) && DeviationOf([0, 1, 2, 3, 4, 5], [5, 4, 3, 1, 2, 0]) == 18
  {
    AscendingInverse();
    A1Inverse();
    var xs: seq<nat>, ys: seq<nat>, sums: seq<nat> := [0, 1, 2, 3, 4, 5], [5, 3, 4, 2, 1, 0], [0, 5, 7, 9, 10, 13, 18];
    assert forall n :: 0 <= n < 6 ==> sums[n + 1] == sums[n] + Diff(xs[n], ys[n]) by {
      assert sums[1] == sums[0] + Diff(xs[0], ys[0]);
      assert sums[2] == sums[1] + Diff(xs[1], ys[1]);
      assert sums[3] == sums[2] + Diff(xs[2], ys[2]);
      assert sums[4] == sums[3] + Diff(xs[3], ys[3]);
      assert sums[5] == sums[4] + Diff(xs[4], ys[4]);
      assert sums[6] == sums[5] + Diff(xs[5], ys[5]);
    }
    DeviationOfOrders([0, 1, 2, 3, 4, 5], [5, 4, 3, 1, 2, 0], xs, ys, sums);
  }

  /**
   * The crate's first survivor selection example: parents of makespans 10 and 20, children of
   * makespans 15 and 5; whatever the coins, the survivors are the first parent and the second child.
   */
  lemma StraightSurvivorsExample(coin0: bool, coin1: bool, r: seq<Chromosome>)
    requires Survivors(DeviationDistance, [From([5, 4, 3, 1, 2, 0]).(makespan := Some(15)), From([1, 0, 2, 3, 4, 5]).(makespan := Some(5))],
                       [From([5, 4, 3, 2, 1, 0]).(makespan := Some(10)), From([0, 1, 2, 3, 4, 5]).(makespan := Some(20))], coin0, coin1, r)
    ensures Pairable(DeviationDistance, [From([5, 4, 3, 1, 2, 0]).(makespan := Some(15)), From([1, 0, 2, 3, 4, 5]).(makespan := Some(5))],
                     [From([5, 4, 3, 2, 1, 0]).(makespan := Some(10)), From([0, 1, 2, 3, 4, 5]).(makespan := Some(20))])
    ensures r == [From([5, 4, 3, 2, 1, 0]).(makespan := Some(10)), From([1, 0, 2, 3, 4, 5]).(makespan := Some(5))]
  {
    DistanceDescendingA1();
    DistanceAscendingA2();
    DistanceDescendingA2();
    DistanceAscendingA1();
  }

  lemma DistanceDescendingB1()
    ensures DeviationReady([5, 4, 3, 2, 1, 0], [1, 0, 3, 2, 4, 5]) && DeviationOf([5, 4, 3, 2, 1, 0], [1, 0, 3, 2, 4, 5]) == 16
  {
    DescendingInverse();
    B1Inverse();
    var xs: seq<nat>, ys: seq<nat>, sums: seq<nat> := [5, 4, 3, 2, 1, 0], [1, 0, 3, 2, 4, 5], [0, 4, 8, 8, 8, 11, 16];
    assert forall n :: 0 <= n < 6 ==> sums[n + 1] == sums[n] + Diff(xs[n], ys[n]) by {
      assert sums[1] == sums[0] + Diff(xs[0], ys[0]);
      assert sums[2] == sums[1] + Diff(xs[1], ys[1]);
      assert sums[3] == sums[2] + Diff(xs[2], ys[2]);
      assert sums[4] == sums[3] + Diff(xs[3], ys[3]);
      assert sums[5] == sums[4] + Diff(xs[4], ys[4]);
      assert sums[6] == sums[5] + Diff(xs[5], ys[5]);
    }
    DeviationOfOrders([5, 4, 3, 2, 1, 0], [1, 0, 3, 2, 4, 5], xs, ys, sums);
  }

  lemma DistanceAscendingB2()
    ensures DeviationReady([0, 1, 2, 3, 4, 5], [4, 5, 3, 1, 2, 0]) && DeviationOf([0, 1, 2, 3, 4, 5], [4, 5, 3, 1, 2, 0]) == 18
  {
    AscendingInverse();
    B2Inverse();
    var xs: seq<nat>, ys: seq<nat>, sums: seq<nat> := [0, 1, 2, 3, 4, 5], [5, 3, 4, 2, 0, 1], [0, 5, 7, 9, 10, 14, 18];
    assert forall n :: 0 <= n < 6 ==> sums[n + 1] == sums[n] + Diff(xs[n], ys[n]) by {
      assert sums[1] == sums[0] + Diff(xs[0], ys[0]);
      assert sums[2] == sums[1] + Diff(xs[1], ys[1]);
      assert sums[3] == sums[2] + Diff(xs[2], ys[2]);
      assert sums[4] == sums[3] + Diff(xs[3], ys[3]);
      assert sums[5] == sums[4] + Diff(xs[4], ys[4]);
      assert sums[6] == sums[5] + Diff(xs[5], ys[5]);
    }
    DeviationOfOrders([0, 1, 2, 3, 4, 5], [4, 5, 3, 1, 2, 0], xs, ys, sums);
  }

  lemma DistanceDescendingB2()
    ensures DeviationReady([5, 4, 3, 2, 1, 0], [4, 5, 3, 1, 2, 0]) && DeviationOf([5, 4, 3, 2, 1, 0], [4, 5, 3, 1, 2, 0]) == 4
  {
    DescendingInverse();
    B2Inverse();
    var xs: seq<nat>, ys: seq<nat>, sums: seq<nat> := [5, 4, 3, 2, 1, 0], [5, 3, 4, 2, 0, 1], [0, 0, 1, 2, 2, 3, 4];
    assert forall n :: 0 <= n < 6 ==> sums[n + 1] == sums[n] + Diff(xs[n], ys[n]) by {
      assert sums[1] == sums[0] + Diff(xs[0], ys[0]);
      assert sums[2] == sums[1] + Diff(xs[1], ys[1]);
      assert sums[3] == sums[2] + Diff(xs[2], ys[2]);
      assert sums[4] == sums[3] + Diff(xs[3], ys[3]);
      assert sums[5] == sums[4] + Diff(xs[4], ys[4]);
      assert sums[6] == sums[5] + Diff(xs[5], ys[5]);
    }
    DeviationOfOrders([5, 4, 3, 2, 1, 0], [4, 5, 3, 1, 2, 0], xs, ys, sums);
  }

  lemma DistanceAscendingB1()
    ensures DeviationReady([0, 1, 2, 3, 4, 5], [1, 0, 3, 2, 4, 5]) && DeviationOf([0, 1, 2, 3, 4, 5], [1, 0, 3, 2, 4, 5]) == 4
  {
    AscendingInverse();
    B1Inverse();
    var xs: seq<nat>, ys: seq<nat>, sums: seq<nat> := [0, 1, 2, 3, 4, 5], [1, 0, 3, 2, 4, 5], [0, 1, 2, 3, 4, 4, 4];
    assert forall n :: 0 <= n < 6 ==> sums[n + 1] == sums[n] + Diff(xs[n], ys[n]) by {
      assert sums[1] == sums[0] + Diff(xs[0], ys[0]);
      assert sums[2] == sums[1] + Diff(xs[1], ys[1]);
      assert sums[3] == sums[2] + Diff(xs[2], ys[2]);
      assert sums[4] == sums[3] + Diff(xs[3], ys[3]);
      assert sums[5] == sums[4] + Diff(xs[4], ys[4]);
      assert sums[6] == sums[5] + Diff(xs[5], ys[5]);
    }
    DeviationOfOrders([0, 1, 2, 3, 4, 5], [1, 0, 3, 2, 4, 5], xs, ys, sums);
  }

  /**
   * The crate's second survivor selection example: parents of makespans 10 and 20, children of
   * makespans 15 and 5; whatever the coins, the survivors are the second child and the first child.
   */
  lemma CrossedSurvivorsExample(coin0: bool, coin1: bool, r: seq<Chromosome>)
    requires Survivors(DeviationDistance, [From([1, 0, 3, 2, 4, 5]).(makespan := Some(15)), From([4, 5, 3, 1, 2, 0]).(makespan := Some(5))],
                       [From([5, 4, 3, 2, 1, 0]).(makespan := Some(10)), From([0, 1, 2, 3, 4, 5]).(makespan := Some(20))], coin0, coin1, r)
    ensures Pairable(DeviationDistance, [From([1, 0, 3, 2, 4, 5]).(makespan := Some(15)), From([4, 5, 3, 1, 2, 0]).(makespan := Some(5))],
                     [From([5, 4, 3, 2, 1, 0]).(makespan := Some(10)), From([0, 1, 2, 3, 4, 5]).(makespan := Some(20))])
    ensures r == [From([4, 5, 3, 1, 2, 0]).(makespan := Some(5)), From([1, 0, 3, 2, 4, 5]).(makespan := Some(15))]
  {
    DistanceDescendingB1();
    DistanceAscendingB2();
    DistanceDescendingB2();
    DistanceAscendingB1();
  }

  // ---- k-nearest replacement ----

  /** `(index, distance)` as `k_nearest_replacement` collects it. */
  datatype Ranked = Ranked(index: nat, distance: nat)

  function Dist(x: Ranked): int { x.distance }

  function Index(x: Ranked): int { x.index }

  /** Every individual evaluated, and measurable against `c`. */
  predicate Comparable(dtype: DType, c: Chromosome, pop: seq<Chromosome>) {
    && Evaluated(c)
    && forall i :: 0 <= i < |pop| ==> Evaluated(pop[i]) && DistanceReady(dtype, c.jobs, pop[i].jobs)
  }

  /** The distances from `c` to every individual, in population order. */
  function Ranking(dtype: DType, c: Chromosome, pop: seq<Chromosome>): (r: seq<Ranked>)
    requires Comparable(dtype, c, pop)
    ensures |r| == |pop| && forall i :: 0 <= i < |pop| ==> r[i] == Ranked(i, Distance(dtype, c.jobs, pop[i].jobs))
  {
    seq(|pop|, i requires 0 <= i < |pop| => Ranked(i, Distance(dtype, c.jobs, pop[i].jobs)))
  }

  /** The first `k` of the distances sorted stably in ascending order. */
  function Nearest(dtype: DType, c: Chromosome, pop: seq<Chromosome>, k: nat): (r: seq<Ranked>)
    requires Comparable(dtype, c, pop) && k <= |pop|
    ensures |r| == k
  {
    SortBy(Ranking(dtype, c, pop), Dist)[..k]
  }

  /** Every entry refers to an individual of `pop`. */
  predicate Indexed(pop: seq<Chromosome>, near: seq<Ranked>) {
    forall i :: 0 <= i < |near| ==> near[i].index < |pop| && Evaluated(pop[near[i].index])
  }

  function Fitness(pop: seq<Chromosome>, x: Ranked): nat
    requires x.index < |pop| && Evaluated(pop[x.index])
  {
    pop[x.index].makespan.value
  }

  /**
   * `max_by_key` on the makespans of the entries: the position of the
   * largest, the last one among equals.
   */
  function LeastFit(pop: seq<Chromosome>, near: seq<Ranked>): (r: nat)
    requires |near| > 0 && Indexed(pop, near)
    ensures r < |near|
    ensures forall j :: 0 <= j < |near| ==> Fitness(pop, near[j]) <= Fitness(pop, near[r])
    ensures forall j :: r < j < |near| ==> Fitness(pop, near[j]) < Fitness(pop, near[r])
  {
    if |near| == 1 then 0
    else
      var p := near[..|near| - 1];
      assert Indexed(pop, p);
      var b := LeastFit(pop, p);
      assert forall j :: 0 <= j < |p| ==> p[j] == near[j];
      if Fitness(pop, Last(near)) >= Fitness(pop, near[b]) then |near| - 1 else b
  }

  /**
   * Sorting entries numbered by their own position: every sorted entry is
   * the entry of its index, every entry appears, and equal distances keep
   * index order.
   */
  lemma SortedRanking(ranking: seq<Ranked>)
    requires forall i :: 0 <= i < |ranking| ==> ranking[i].index == i
    ensures var sorted := SortBy(ranking, Dist);
      && |sorted| == |ranking| && LexSorted(sorted, Dist, Index)
      && (forall i :: 0 <= i < |sorted| ==> sorted[i].index < |ranking| && sorted[i] == ranking[sorted[i].index])
      && forall x :: 0 <= x < |ranking| ==> ranking[x] in sorted
  {
    var sorted := SortBy(ranking, Dist);
    SortByLex(ranking, Dist, Index);
    SortByMultiset(ranking, Dist);
    assert |multiset(sorted)| == |multiset(ranking)|;
    forall i | 0 <= i < |sorted|
      ensures sorted[i].index < |ranking| && sorted[i] == ranking[sorted[i].index]
    {
      assert sorted[i] in multiset(ranking);
    }
    forall x | 0 <= x < |ranking|
      ensures ranking[x] in sorted
    {
      assert ranking[x] in multiset(sorted);
    }
  }

  /** In a lexicographically sorted list the first `k` precede every later entry. */
  lemma LexPrefix(sorted: seq<Ranked>, k: nat, y: nat)
    requires LexSorted(sorted, Dist, Index) && k <= y < |sorted|
    ensures forall i :: 0 <= i < k ==>
      sorted[i].distance < sorted[y].distance
      || (sorted[i].distance == sorted[y].distance && sorted[i].index < sorted[y].index)
  {
  }

  /** `a` is nearer than `b`, or as near with a lower index. */
  predicate Ahead(a: Ranked, b: Ranked) {
    a.distance < b.distance || (a.distance == b.distance && a.index < b.index)
  }

  /** The first `k` of a position-numbered list sorted by distance, stated on the entries alone. */
  lemma NearestEntries(ranking: seq<Ranked>, k: nat)
    requires forall i :: 0 <= i < |ranking| ==> ranking[i].index == i
    requires k <= |ranking|
    ensures var near := SortBy(ranking, Dist)[..k];
      && (forall i :: 0 <= i < k ==> near[i].index < |ranking| && near[i] == ranking[near[i].index])
      && (forall i, j :: 0 <= i < j < k ==> near[i].index != near[j].index)
      && forall x :: 0 <= x < |ranking| && ranking[x] !in near ==> forall i :: 0 <= i < k ==> Ahead(near[i], ranking[x])
  {
    var sorted := SortBy(ranking, Dist);
    var near := sorted[..k];
    SortedRanking(ranking);
    assert forall i :: 0 <= i < k ==> near[i] == sorted[i];
    forall x | 0 <= x < |ranking| && ranking[x] !in near
      ensures forall i :: 0 <= i < k ==> Ahead(near[i], ranking[x])
    {
      var y :| 0 <= y < |sorted| && sorted[y] == ranking[x];
      LexPrefix(sorted, k, y);
    }
  }

  /**
   * The stable sort ranks the individuals by distance, and by population
   * index among equal distances; so the `k` nearest are distinct
   * individuals at their own distances, and no individual left out is
   * nearer, nor as near with a lower index.
   */
  lemma NearestFacts(dtype: DType, c: Chromosome, pop: seq<Chromosome>, k: nat)
    requires Comparable(dtype, c, pop) && k <= |pop|
    ensures var near := Nearest(dtype, c, pop, k);
      && Indexed(pop, near)
      && (forall i :: 0 <= i < k ==> near[i].distance == Distance(dtype, c.jobs, pop[near[i].index].jobs))
      && (forall i, j :: 0 <= i < j < k ==> near[i].index != near[j].index)
      && forall x :: 0 <= x < |pop| && (forall j :: 0 <= j < k ==> near[j].index != x) ==>
           forall i :: 0 <= i < k ==> Ahead(near[i], Ranked(x, Distance(dtype, c.jobs, pop[x].jobs)))
  {
    var ranking := Ranking(dtype, c, pop);
    var near := Nearest(dtype, c, pop, k);
    NearestEntries(ranking, k);
    forall x | 0 <= x < |pop| && (forall j :: 0 <= j < k ==> near[j].index != x)
      ensures ranking[x] !in near
    {
    }
  }

  /**
   * The index `k_nearest_replacement` returns: the least fit of the `k`
   * nearest individuals, when `c` is no worse than it.
   */
  function ReplacementOf(dtype: DType, c: Chromosome, pop: seq<Chromosome>, k: nat): Option<nat>
    requires Comparable(dtype, c, pop) && 1 <= k <= |pop|
  {
    var near := Nearest(dtype, c, pop, k);
    NearestFacts(dtype, c, pop, k);
    var least := near[LeastFit(pop, near)].index;
    if c.makespan.value <= pop[least].makespan.value then Some(least) else None
  }

  /**
   * `k_nearest_replacement` with scale 0: the individual of largest
   * makespan among the `k` nearest to `c` (the last such on ties) meets `c`
   * in a tournament with `c` as the parent; its index is returned when the
   * winner has `c`'s makespan. Requires `1 <= k <= pop.len()`.
   */
  method KNearestReplacement(c: Chromosome, pop: seq<Chromosome>, k: nat, dtype: DType, coin: bool)
    returns (r: Option<nat>)
    requires Comparable(dtype, c, pop) && 1 <= k <= |pop|
    ensures r == ReplacementOf(dtype, c, pop, k)
    ensures var near := Nearest(dtype, c, pop, k);
      && Indexed(pop, near)
      // `None` exactly when every one of the `k` nearest is strictly fitter than `c`
      && (r.None? <==> forall i :: 0 <= i < k ==> Fitness(pop, near[i]) < c.makespan.value)
      // otherwise one of them, no fitter than `c` nor than any other of them
      && (r.Some? ==> exists i :: 0 <= i < k && near[i].index == r.value)
      && (r.Some? ==> forall i :: 0 <= i < k ==> Fitness(pop, near[i]) <= pop[r.value].makespan.value)
  {
    var distances: seq<Ranked> := [];
    for i := 0 to |pop|
      invariant distances == Ranking(dtype, c, pop)[..i]
    {
      var d := Measure(dtype, c, pop[i]);
      distances := distances + [Ranked(i, d)];
    }
    ghost var ranking := Ranking(dtype, c, pop);
    assert distances == ranking;
    distances := SortBy(distances, Dist);
    var kNearest := distances[..k];
    NearestFacts(dtype, c, pop, k);
    var pos := MaxByFitness(pop, kNearest);
    var leastFit := kNearest[pos].index;
    var winner := FindWinner(c, pop[leastFit], coin);
    if winner.makespan == c.makespan {
      r := Some(leastFit);
    } else {
      r := None;
    }
  }

  /** The `max_by_key` loop over the `k` nearest. */
  method MaxByFitness(pop: seq<Chromosome>, near: seq<Ranked>) returns (pos: nat)
    requires |near| > 0 && Indexed(pop, near)
    ensures pos == LeastFit(pop, near)
  {
    pos := 0;
    for i := 1 to |near|
      invariant Indexed(pop, near[..i]) && pos == LeastFit(pop, near[..i])
    {
      assert near[..i + 1][..i] == near[..i];
      if Fitness(pop, near[i]) >= Fitness(pop, near[pos]) {
        pos := i;
      }
    }
    assert near[..|near|] == near;
  }

  // ---- The crate's k-nearest replacement examples ----

  /** The population of the crate's k-nearest examples, with the given makespans. */
  function ExamplePopulation(m0: nat, m1: nat, m2: nat): seq<Chromosome> {
    [From([0, 1, 2, 3, 4, 5]).(makespan := Some(m0)), From([0, 1, 3, 2, 4, 5]).(makespan := Some(m1)), From([5, 4, 3, 2, 1, 0]).(makespan := Some(m2))]
  }

  /** The newcomer of the crate's k-nearest examples, of makespan 15. */
  function ExampleNewcomer(): Chromosome {
    From([4, 5, 3, 2, 1, 0]).(makespan := Some(15))
  }

  /** The deviation distances from the newcomer to the three individuals. */
  lemma DistanceNewcomerAscending()
    ensures DeviationReady([4, 5, 3, 2, 1, 0], [0, 1, 2, 3, 4, 5]) && DeviationOf([4, 5, 3, 2, 1, 0], [0, 1, 2, 3, 4, 5]) == 18
  {
    NewcomerInverse();
    AscendingInverse();
    var xs: seq<nat>, ys: seq<nat>, sums: seq<nat> := [5, 4, 3, 2, 0, 1], [0, 1, 2, 3, 4, 5], [0, 5, 8, 9, 10, 14, 18];
    assert forall n :: 0 <= n < 6 ==> sums[n + 1] == sums[n] + Diff(xs[n], ys[n]) by {
      assert sums[1] == sums[0] + Diff(xs[0], ys[0]);
      assert sums[2] == sums[1] + Diff(xs[1], ys[1]);
      assert sums[3] == sums[2] + Diff(xs[2], ys[2]);
      assert sums[4] == sums[3] + Diff(xs[3], ys[3]);
      assert sums[5] == sums[4] + Diff(xs[4], ys[4]);
      assert sums[6] == sums[5] + Diff(xs[5], ys[5]);
    }
    DeviationOfOrders([4, 5, 3, 2, 1, 0], [0, 1, 2, 3, 4, 5], xs, ys, sums);
  }

  lemma DistanceNewcomerMiddle()
    ensures DeviationReady([4, 5, 3, 2, 1, 0], [0, 1, 3, 2, 4, 5]) && DeviationOf([4, 5, 3, 2, 1, 0], [0, 1, 3, 2, 4, 5]) == 16
  {
    NewcomerInverse();
    MiddleInverse();
    var xs: seq<nat>, ys: seq<nat>, sums: seq<nat> := [5, 4, 3, 2, 0, 1], [0, 1, 3, 2, 4, 5], [0, 5, 8, 8, 8, 12, 16];
    assert forall n :: 0 <= n < 6 ==> sums[n + 1] == sums[n] + Diff(xs[n], ys[n]) by {
      assert sums[1] == sums[0] + Diff(xs[0], ys[0]);
      assert sums[2] == sums[1] + Diff(xs[1], ys[1]);
      assert sums[3] == sums[2] + Diff(xs[2], ys[2]);
      assert sums[4] == sums[3] + Diff(xs[3], ys[3]);
      assert sums[5] == sums[4] + Diff(xs[4], ys[4]);
      assert sums[6] == sums[5] + Diff(xs[5], ys[5]);
    }
    DeviationOfOrders([4, 5, 3, 2, 1, 0], [0, 1, 3, 2, 4, 5], xs, ys, sums);
  }

  lemma DistanceNewcomerDescending()
    ensures DeviationReady([4, 5, 3, 2, 1, 0], [5, 4, 3, 2, 1, 0]) && DeviationOf([4, 5, 3, 2, 1, 0], [5, 4, 3, 2, 1, 0]) == 2
  {
    NewcomerInverse();
    DescendingInverse();
    var xs: seq<nat>, ys: seq<nat>, sums: seq<nat> := [5, 4, 3, 2, 0, 1], [5, 4, 3, 2, 1, 0], [0, 0, 0, 0, 0, 1, 2];
    assert forall n :: 0 <= n < 6 ==> sums[n + 1] == sums[n] + Diff(xs[n], ys[n]) by {
      assert sums[1] == sums[0] + Diff(xs[0], ys[0]);
      assert sums[2] == sums[1] + Diff(xs[1], ys[1]);
      assert sums[3] == sums[2] + Diff(xs[2], ys[2]);
      assert sums[4] == sums[3] + Diff(xs[3], ys[3]);
      assert sums[5] == sums[4] + Diff(xs[4], ys[4]);
      assert sums[6] == sums[5] + Diff(xs[5], ys[5]);
    }
    DeviationOfOrders([4, 5, 3, 2, 1, 0], [5, 4, 3, 2, 1, 0], xs, ys, sums);
  }

  /** The individuals ranked by distance from the newcomer, whatever their makespans: the third, the second, the first. */
  lemma ExampleRanking(m0: nat, m1: nat, m2: nat)
    ensures Comparable(DeviationDistance, ExampleNewcomer(), ExamplePopulation(m0, m1, m2))
    ensures SortBy(Ranking(DeviationDistance, ExampleNewcomer(), ExamplePopulation(m0, m1, m2)), Dist)
      == [Ranked(2, 2), Ranked(1, 16), Ranked(0, 18)]
  {
    DistanceNewcomerAscending();
    DistanceNewcomerMiddle();
    DistanceNewcomerDescending();
    var ranking := Ranking(DeviationDistance, ExampleNewcomer(), ExamplePopulation(m0, m1, m2));
    assert ranking == [Ranked(0, 18), Ranked(1, 16), Ranked(2, 2)];
    assert ranking[..1] == [Ranked(0, 18)] && ranking[..1][..0] == [];
    assert ranking[..2] == [Ranked(0, 18), Ranked(1, 16)] && ranking[..2][..1] == ranking[..1];
    assert SortBy(ranking[..1], Dist) == [Ranked(0, 18)];
    assert SortBy(ranking[..2], Dist) == [Ranked(1, 16), Ranked(0, 18)];
  }

  /** `knn_replacement_k1`: the nearest individual (index 2, makespan 20) is no fitter than the newcomer. */
  lemma NearestReplacedExample()
    ensures Comparable(DeviationDistance, ExampleNewcomer(), ExamplePopulation(10, 12, 20))
    ensures ReplacementOf(DeviationDistance, ExampleNewcomer(), ExamplePopulation(10, 12, 20), 1) == Some(2)
  {
    ExampleRanking(10, 12, 20);
  }

  /** `knn_replacement_k2`: of the two nearest, the least fit (index 1, makespan 20) is replaced. */
  lemma LeastFitReplacedExample()
    ensures Comparable(DeviationDistance, ExampleNewcomer(), ExamplePopulation(20, 20, 10))
    ensures ReplacementOf(DeviationDistance, ExampleNewcomer(), ExamplePopulation(20, 20, 10), 2) == Some(1)
  {
    ExampleRanking(20, 20, 10);
  }

  /** `knn_no_replacement`: both of the two nearest (makespans 10 and 12) are fitter than the newcomer. */
  lemma NoReplacementExample()
    ensures Comparable(DeviationDistance, ExampleNewcomer(), ExamplePopulation(20, 12, 10))
    ensures ReplacementOf(DeviationDistance, ExampleNewcomer(), ExamplePopulation(20, 12, 10), 2) == None
  {
    ExampleRanking(20, 12, 10);
  }
}
