// Inserting a block of jobs at its best position by successive rotations
// (src/common/best_insertion.rs).

module BestInsertion {

  import opened Common
  import opened Instances
  import opened MakespanEngine

  /**
   * A block and a partial schedule that can be combined: together they are
   * distinct job ids of the instance, and not both empty, so every candidate
   * can be evaluated.
   */
  predicate Insertable(inst: Instance, block: seq<nat>, jobs: seq<nat>) {
    inst.Valid() && |block| + |jobs| > 0 && DistinctBelow(block + jobs, inst.jobs)
  }

  /** A rearrangement of a non-empty partial schedule splits into an insertable block and rest. */
  lemma RearrangedInsertable(inst: Instance, block: seq<nat>, jobs: seq<nat>, whole: seq<nat>)
    requires inst.Valid() && DistinctBelow(whole, inst.jobs) && |whole| > 0
    requires multiset(block + jobs) == multiset(whole)
    ensures Insertable(inst, block, jobs)
  {
    var s := block + jobs;
    DistinctMultiset(whole, s);
    forall i | 0 <= i < |s| ensures s[i] < inst.jobs {
      assert s[i] in multiset(whole);
    }
  }

  /** The candidate with the block placed just before `jobs[i]` (after all of `jobs` when `i == |jobs|`). */
  function Placement(block: seq<nat>, jobs: seq<nat>, i: nat): (r: seq<nat>)
    requires i <= |jobs|
    ensures |r| == |block| + |jobs|
  {
    jobs[..i] + block + jobs[i..]
  }

  /** Every candidate is a rearrangement of `block ++ jobs`. */
  lemma PlacementMultiset(block: seq<nat>, jobs: seq<nat>, i: nat)
    requires i <= |jobs|
    ensures multiset(Placement(block, jobs, i)) == multiset(block + jobs)
  {
    assert jobs == jobs[..i] + jobs[i..];
  }

  /** `slice[lo..hi].rotate_right(1)`: the last element of the window moves to its front. */
  function RotatedRight(s: seq<nat>, lo: nat, hi: nat): (r: seq<nat>)
    requires lo < hi <= |s|
  {
    s[..lo] + [s[hi - 1]] + s[lo..hi - 1] + s[hi..]
  }

  /**
   * Rotating the window `i..i+k+1` of the candidate with the block at `i`
   * moves the whole block one place right: the block keeps its internal order
   * and every other job keeps its relative order.
   */
  lemma RotatePlacement(block: seq<nat>, jobs: seq<nat>, i: nat)
    requires i < |jobs|
    ensures RotatedRight(Placement(block, jobs, i), i, i + |block| + 1) == Placement(block, jobs, i + 1)
  {
    var p := Placement(block, jobs, i);
    var k := |block|;
    assert p[..i] == jobs[..i];
    assert p[i..i + k] == block;
    assert p[i + k] == jobs[i];
    assert p[i + k + 1..] == jobs[i + 1..];
    assert jobs[..i + 1] == jobs[..i] + [jobs[i]];
  }

  /** Every candidate is something the engine can evaluate. */
  lemma PlacementSchedulable(inst: Instance, block: seq<nat>, jobs: seq<nat>, i: nat)
    requires Insertable(inst, block, jobs) && i <= |jobs|
    ensures Schedulable(inst, Placement(block, jobs, i))
  {
    var p := Placement(block, jobs, i);
    PlacementMultiset(block, jobs, i);
    DistinctMultiset(block + jobs, p);
    forall j | 0 <= j < |p| ensures p[j] < inst.jobs {
      assert p[j] in multiset(p);
      SameElements(p, block + jobs, p[j]);
    }
  }

  /** The `|jobs| + 1` candidates in rotation order. */
  function Placements(block: seq<nat>, jobs: seq<nat>): (r: seq<seq<nat>>)
    ensures |r| == |jobs| + 1 && forall i :: 0 <= i <= |jobs| ==> r[i] == Placement(block, jobs, i)
  {
    seq(|jobs| + 1, i requires 0 <= i <= |jobs| => Placement(block, jobs, i))
  }

  /** The makespans of the candidates `0..=n`, in rotation order. */
  function SpansUpTo(inst: Instance, block: seq<nat>, jobs: seq<nat>, n: nat): (r: seq<nat>)
    requires Insertable(inst, block, jobs) && n <= |jobs|
    ensures |r| == n + 1
  {
    PlacementSchedulable(inst, block, jobs, n);
    var here := MakespanOf(inst, Placement(block, jobs, n));
    if n == 0 then [here] else SpansUpTo(inst, block, jobs, n - 1) + [here]
  }

  /** The makespan of every candidate, in rotation order. */
  function Spans(inst: Instance, block: seq<nat>, jobs: seq<nat>): (r: seq<nat>)
    requires Insertable(inst, block, jobs)
    ensures |r| == |jobs| + 1
  {
    SpansUpTo(inst, block, jobs, |jobs|)
  }

  /** Entry `i` of `Spans` is the engine's makespan of candidate `i`. */
  lemma SpanIs(inst: Instance, block: seq<nat>, jobs: seq<nat>, i: nat)
    requires Insertable(inst, block, jobs) && i <= |jobs|
    ensures Schedulable(inst, Placement(block, jobs, i))
    ensures Spans(inst, block, jobs)[i] == MakespanOf(inst, Placement(block, jobs, i))
  {
    PlacementSchedulable(inst, block, jobs, i);
    SpanUpToIs(inst, block, jobs, i, |jobs|);
  }

  lemma {:induction false} SpanUpToIs(inst: Instance, block: seq<nat>, jobs: seq<nat>, i: nat, n: nat)
    requires Insertable(inst, block, jobs) && i <= n <= |jobs|
    ensures Schedulable(inst, Placement(block, jobs, i))
    ensures SpansUpTo(inst, block, jobs, n)[i] == MakespanOf(inst, Placement(block, jobs, i))
  {
    PlacementSchedulable(inst, block, jobs, i);
    if i < n {
      SpanUpToIs(inst, block, jobs, i, n - 1);
      SpansUpToKeeps(inst, block, jobs, i, n);
    } else {
      SpansUpToLast(inst, block, jobs, n);
    }
  }

  lemma SpansUpToKeeps(inst: Instance, block: seq<nat>, jobs: seq<nat>, i: nat, n: nat)
    requires Insertable(inst, block, jobs) && i < n <= |jobs|
    ensures SpansUpTo(inst, block, jobs, n)[i] == SpansUpTo(inst, block, jobs, n - 1)[i]
  {
  }

  lemma SpansUpToLast(inst: Instance, block: seq<nat>, jobs: seq<nat>, n: nat)
    requires Insertable(inst, block, jobs) && n <= |jobs|
    ensures Schedulable(inst, Placement(block, jobs, n))
    ensures SpansUpTo(inst, block, jobs, n)[n] == MakespanOf(inst, Placement(block, jobs, n))
  {
    PlacementSchedulable(inst, block, jobs, n);
  }

  /** The running minimum of `spans[0..=i]`, as the strict `<` of the loop keeps it. */
  function MinPrefix(spans: seq<nat>, i: nat): nat
    requires i < |spans|
  {
    if i == 0 then spans[0]
    else
      var before := MinPrefix(spans, i - 1);
      if spans[i] < before then spans[i] else before
  }

  /** The running minimum is the least of `spans[0..=i]` and is attained there. */
  lemma {:induction false} MinPrefixLeast(spans: seq<nat>, i: nat)
    requires i < |spans|
    ensures forall j :: 0 <= j <= i ==> MinPrefix(spans, i) <= spans[j]
    ensures exists j :: 0 <= j <= i && MinPrefix(spans, i) == spans[j]
  {
    if i > 0 {
      MinPrefixLeast(spans, i - 1);
    }
  }

  /** The candidates among `0..=i` whose makespan is `v`, in order. */
  function Attaining(cands: seq<seq<nat>>, spans: seq<nat>, i: nat, v: nat): seq<seq<nat>>
    requires |cands| == |spans| && i < |spans|
  {
    var rest := if i == 0 then [] else Attaining(cands, spans, i - 1, v);
    if spans[i] == v then rest + [cands[i]] else rest
  }

  /** `best_jobs` after candidate `i`: every candidate so far attaining the smallest makespan so far. */
  function Ties(cands: seq<seq<nat>>, spans: seq<nat>, i: nat): seq<seq<nat>>
    requires |cands| == |spans| && i < |spans|
  {
    Attaining(cands, spans, i, MinPrefix(spans, i))
  }

  /** A value below every makespan so far is attained by no candidate. */
  lemma {:induction false} AttainingNone(cands: seq<seq<nat>>, spans: seq<nat>, i: nat, v: nat)
    requires |cands| == |spans| && i < |spans|
    requires forall j :: 0 <= j <= i ==> v < spans[j]
    ensures Attaining(cands, spans, i, v) == []
  {
    if i > 0 {
      AttainingNone(cands, spans, i - 1, v);
    }
  }

  /**
   * One iteration of the `best_jobs` update: a strictly smaller makespan
   * restarts the list, an equal one is appended, a larger one is ignored.
   */
  lemma TiesStep(cands: seq<seq<nat>>, spans: seq<nat>, i: nat)
    requires |cands| == |spans| && i + 1 < |spans|
    ensures var best := MinPrefix(spans, i);
      var here := spans[i + 1];
      && MinPrefix(spans, i + 1) == (if here < best then here else best)
      && Ties(cands, spans, i + 1) ==
           if here < best then [cands[i + 1]]
           else if here == best then Ties(cands, spans, i) + [cands[i + 1]]
           else Ties(cands, spans, i)
  {
    if spans[i + 1] < MinPrefix(spans, i) {
      MinPrefixLeast(spans, i);
      AttainingNone(cands, spans, i, spans[i + 1]);
    }
  }

  /** The list holds exactly the candidates attaining `v`. */
  lemma {:induction false} AttainingExactly(cands: seq<seq<nat>>, spans: seq<nat>, i: nat, v: nat)
    requires |cands| == |spans| && i < |spans|
    ensures forall t :: t in Attaining(cands, spans, i, v) <==>
              exists j :: 0 <= j <= i && t == cands[j] && spans[j] == v
  {
    if i > 0 {
      AttainingExactly(cands, spans, i - 1, v);
    }
  }

  /** `best_jobs` is never empty, so `choose` always succeeds. */
  lemma TiesNonEmpty(cands: seq<seq<nat>>, spans: seq<nat>, i: nat)
    requires |cands| == |spans| && i < |spans|
    ensures |Ties(cands, spans, i)| > 0
  {
    TiesExactly(cands, spans, i);
    MinPrefixLeast(spans, i);
    var j :| 0 <= j <= i && spans[j] == MinPrefix(spans, i);
    assert cands[j] in Ties(cands, spans, i);
  }

  /** `best_jobs` holds exactly the candidates with the smallest makespan. */
  lemma TiesExactly(cands: seq<seq<nat>>, spans: seq<nat>, i: nat)
    requires |cands| == |spans| && i < |spans|
    ensures forall t :: t in Ties(cands, spans, i) <==>
              exists j :: 0 <= j <= i && t == cands[j] && spans[j] == MinPrefix(spans, i)
  {
    AttainingExactly(cands, spans, i, MinPrefix(spans, i));
  }

  /** The first candidate is `block ++ jobs`. */
  lemma PlacementFirst(block: seq<nat>, jobs: seq<nat>)
    ensures Placement(block, jobs, 0) == block + jobs
  {
    assert jobs[..0] + block + jobs[0..] == block + jobs;
  }

  /** A fresh vector holding `s` (`collect()`). */
  method Load(s: seq<nat>) returns (a: array<nat>)
    ensures fresh(a) && a[..] == s
  {
    a := new nat[|s|](i requires 0 <= i < |s| => s[i]);
  }

  /** `rotate_right(1)` on `a[lo..hi]`, in place. */
  method RotateRight(a: array<nat>, lo: nat, hi: nat)
    requires lo < hi <= a.Length
    modifies a
    ensures a[..] == RotatedRight(old(a[..]), lo, hi)
  {
    var last := a[hi - 1];
    forall j | lo < j < hi {
      a[j] := a[j - 1];
    }
    a[lo] := last;
  }

  /** One iteration's `rotate_right`: the block moves from before `jobs[i]` to after it. */
  method ShiftBlock(a: array<nat>, block: seq<nat>, jobs: seq<nat>, i: nat)
    requires i < |jobs| && a[..] == Placement(block, jobs, i)
    modifies a
    ensures a[..] == Placement(block, jobs, i + 1)
  {
    RotateRight(a, i, i + |block| + 1);
    RotatePlacement(block, jobs, i);
  }

  /** `makespan.makespan(&jobs)` on the candidate currently held by `a`. */
  method EvaluatePlacement(m: Makespan, order: seq<nat>, block: seq<nat>, jobs: seq<nat>, i: nat) returns (span: nat)
    requires Insertable(m.instance, block, jobs) && i <= |jobs| && order == Placement(block, jobs, i)
    modifies m
    ensures m.count == old(m.count) + 1
    ensures span == Spans(m.instance, block, jobs)[i]
  {
    SpanIs(m.instance, block, jobs, i);
    var machineCompletions;
    span, machineCompletions := m.Evaluate(order);
  }

  /** The vector `block ++ jobs` and its makespan, the first candidate. */
  method FirstCandidate(m: Makespan, block: seq<nat>, jobs: seq<nat>) returns (a: array<nat>, span: nat)
    requires Insertable(m.instance, block, jobs)
    modifies m
    ensures fresh(a) && a[..] == Placement(block, jobs, 0) && a[..] == block + jobs
    ensures m.count == old(m.count) + 1
    ensures span == Spans(m.instance, block, jobs)[0]
  {
    a := Load(block + jobs);
    PlacementFirst(block, jobs);
    span := EvaluatePlacement(m, a[..], block, jobs, 0);
  }

  /** One loop iteration's rotation and evaluation: the block moves past `jobs[i]`. */
  method NextCandidate(m: Makespan, a: array<nat>, block: seq<nat>, jobs: seq<nat>, i: nat) returns (current: seq<nat>, span: nat)
    requires Insertable(m.instance, block, jobs) && i < |jobs| && a[..] == Placement(block, jobs, i)
    modifies m, a
    ensures a[..] == current && current == Placement(block, jobs, i + 1)
    ensures m.count == old(m.count) + 1
    ensures span == Spans(m.instance, block, jobs)[i + 1]
  {
    ShiftBlock(a, block, jobs, i);
    current := a[..];
    span := EvaluatePlacement(m, current, block, jobs, i + 1);
  }

  /**
   * The loop state of `find_best_insertion` after candidate `i`: the least
   * makespan so far with every candidate attaining it, and the candidate of
   * rotation step `randomIdx` once it has been seen.
   */
  predicate Searched(cands: seq<seq<nat>>, spans: seq<nat>, i: nat, allowRnd: bool, randomIdx: nat,
                     bestSpan: nat, bestJobs: seq<seq<nat>>, randomJobs: seq<nat>, randomSpan: nat)
    requires |cands| == |spans| && i < |spans|
  {
    && bestSpan == MinPrefix(spans, i) && bestJobs == Ties(cands, spans, i)
    && (allowRnd && randomIdx < i ==> randomJobs == cands[randomIdx + 1] && randomSpan == spans[randomIdx + 1])
  }

  lemma SearchedFirst(cands: seq<seq<nat>>, spans: seq<nat>, allowRnd: bool, randomIdx: nat)
    requires |cands| == |spans| > 0
    ensures Searched(cands, spans, 0, allowRnd, randomIdx, spans[0], [cands[0]], cands[0], U32_MAX)
  {
  }

  /** One iteration: the strict `<` restarts `best_jobs`, equality appends, and step `randomIdx` is remembered. */
  lemma SearchedStep(cands: seq<seq<nat>>, spans: seq<nat>, i: nat, allowRnd: bool, randomIdx: nat,
                     bestSpan: nat, bestJobs: seq<seq<nat>>, randomJobs: seq<nat>, randomSpan: nat,
                     bestSpan': nat, bestJobs': seq<seq<nat>>, randomJobs': seq<nat>, randomSpan': nat)
    requires |cands| == |spans| && i + 1 < |spans|
    requires Searched(cands, spans, i, allowRnd, randomIdx, bestSpan, bestJobs, randomJobs, randomSpan)
    requires var current, newSpan := cands[i + 1], spans[i + 1];
      && (if newSpan < bestSpan then bestSpan' == newSpan && bestJobs' == [current]
          else if newSpan == bestSpan then bestSpan' == bestSpan && bestJobs' == bestJobs + [current]
          else bestSpan' == bestSpan && bestJobs' == bestJobs)
      && (if allowRnd && i == randomIdx then randomJobs' == current && randomSpan' == newSpan
          else randomJobs' == randomJobs && randomSpan' == randomSpan)
    ensures Searched(cands, spans, i + 1, allowRnd, randomIdx, bestSpan', bestJobs', randomJobs', randomSpan')
  {
    TiesStep(cands, spans, i);
  }

  /** The bookkeeping of one iteration of `find_best_insertion` after evaluating candidate `i + 1`. */
  method Record(ghost cands: seq<seq<nat>>, ghost spans: seq<nat>, i: nat, allowRnd: bool, randomIdx: nat,
                current: seq<nat>, newSpan: nat,
                bestSpan: nat, bestJobs: seq<seq<nat>>, randomJobs: seq<nat>, randomSpan: nat)
    returns (bestSpan': nat, bestJobs': seq<seq<nat>>, randomJobs': seq<nat>, randomSpan': nat)
    requires |cands| == |spans| && i + 1 < |spans| && current == cands[i + 1] && newSpan == spans[i + 1]
    requires Searched(cands, spans, i, allowRnd, randomIdx, bestSpan, bestJobs, randomJobs, randomSpan)
    ensures Searched(cands, spans, i + 1, allowRnd, randomIdx, bestSpan', bestJobs', randomJobs', randomSpan')
  {
    bestSpan', bestJobs', randomJobs', randomSpan' := bestSpan, bestJobs, randomJobs, randomSpan;
    if allowRnd && i == randomIdx {
      randomJobs' := current;
      randomSpan' := newSpan;
    }
    if newSpan < bestSpan {
      bestSpan' := newSpan;
      bestJobs' := [current];
    } else if newSpan == bestSpan {
      bestJobs' := bestJobs + [current];
    }
    SearchedStep(cands, spans, i, allowRnd, randomIdx, bestSpan, bestJobs, randomJobs, randomSpan,
                 bestSpan', bestJobs', randomJobs', randomSpan');
  }

  /** The rotation loop of `find_best_insertion`, from the first candidate to the last. */
  method ScanRotations(m: Makespan, a: array<nat>, block: seq<nat>, jobs: seq<nat>, allowRnd: bool, randomIdx: nat,
                       bestSpan0: nat, bestJobs0: seq<seq<nat>>, randomJobs0: seq<nat>, randomSpan0: nat)
    returns (bestSpan: nat, bestJobs: seq<seq<nat>>, randomJobs: seq<nat>, randomSpan: nat)
    requires Insertable(m.instance, block, jobs) && a[..] == Placement(block, jobs, 0)
    requires Searched(Placements(block, jobs), Spans(m.instance, block, jobs), 0, allowRnd, randomIdx,
                      bestSpan0, bestJobs0, randomJobs0, randomSpan0)
    modifies m, a
    ensures m.count == old(m.count) + |jobs|
    ensures Searched(Placements(block, jobs), Spans(m.instance, block, jobs), |jobs|, allowRnd, randomIdx,
                     bestSpan, bestJobs, randomJobs, randomSpan)
  {
    ghost var cands, spans := Placements(block, jobs), Spans(m.instance, block, jobs);
    bestSpan, bestJobs, randomJobs, randomSpan := bestSpan0, bestJobs0, randomJobs0, randomSpan0;
    for i := 0 to |jobs|
      invariant a[..] == Placement(block, jobs, i)
      invariant m.count == old(m.count) + i
      invariant Searched(cands, spans, i, allowRnd, randomIdx, bestSpan, bestJobs, randomJobs, randomSpan)
    {
      var current, newSpan := NextCandidate(m, a, block, jobs, i);
      assert current == cands[i + 1];
      bestSpan, bestJobs, randomJobs, randomSpan :=
        Record(cands, spans, i, allowRnd, randomIdx, current, newSpan, bestSpan, bestJobs, randomJobs, randomSpan);
    }
  }

  /**
   * `find_best_insertion`: evaluates the block in front of `jobs` and after
   * each of the `|jobs|` rotations; returns the candidate at rotation step
   * `randomIdx` when a random result is allowed and drawn (`takeRandom`),
   * otherwise any one candidate of least makespan.
   */
  method FindBestInsertion(m: Makespan, jobs: seq<nat>, block: seq<nat>, allowRnd: bool, randomIdx: nat, takeRandom: bool)
    returns (schedule: seq<nat>, span: nat)
    requires Insertable(m.instance, block, jobs) && randomIdx < |jobs|
    modifies m
    ensures m.count == old(m.count) + |jobs| + 1
    ensures var cands, spans := Placements(block, jobs), Spans(m.instance, block, jobs);
      if allowRnd && takeRandom then schedule == cands[randomIdx + 1] && span == spans[randomIdx + 1]
      else schedule in Ties(cands, spans, |jobs|) && span == MinPrefix(spans, |jobs|)
  {
    var inst := m.instance;
    var n := |jobs|;
    ghost var cands, spans := Placements(block, jobs), Spans(inst, block, jobs);
    var a, firstSpan := FirstCandidate(m, block, jobs);
    SearchedFirst(cands, spans, allowRnd, randomIdx);
    var bestSpan, bestJobs, randomJobs, randomSpan :=
      ScanRotations(m, a, block, jobs, allowRnd, randomIdx, firstSpan, [block + jobs], block + jobs, U32_MAX);
    if allowRnd && takeRandom {
      schedule, span := randomJobs, randomSpan;
    } else {
      TiesNonEmpty(cands, spans, n);
      var pick :| 0 <= pick < |bestJobs|;
      schedule, span := bestJobs[pick], bestSpan;
    }
  }

  /**
   * Whatever `find_best_insertion` returns is a candidate: a permutation of
   * `block ++ jobs` the engine can evaluate, returned with its own makespan.
   */
  lemma InsertionResult(inst: Instance, block: seq<nat>, jobs: seq<nat>, randomIdx: nat, random: bool,
                        schedule: seq<nat>, span: nat)
    requires Insertable(inst, block, jobs) && randomIdx < |jobs|
    requires var cands, spans := Placements(block, jobs), Spans(inst, block, jobs);
      if random then schedule == cands[randomIdx + 1] && span == spans[randomIdx + 1]
      else schedule in Ties(cands, spans, |jobs|) && span == MinPrefix(spans, |jobs|)
    ensures multiset(schedule) == multiset(block + jobs) && |schedule| == |block| + |jobs|
    ensures Schedulable(inst, schedule) && span == MakespanOf(inst, schedule)
  {
    var cands, spans := Placements(block, jobs), Spans(inst, block, jobs);
    var j := randomIdx + 1;
    if !random {
      TiesExactly(cands, spans, |jobs|);
      j :| 0 <= j <= |jobs| && schedule == cands[j] && spans[j] == MinPrefix(spans, |jobs|);
    }
    SpanIs(inst, block, jobs, j);
    PlacementMultiset(block, jobs, j);
  }

  /** The makespan returned on the non-random path is no larger than that of any candidate. */
  lemma BestSpanLeast(inst: Instance, block: seq<nat>, jobs: seq<nat>, k: nat)
    requires Insertable(inst, block, jobs) && k <= |jobs|
    ensures Schedulable(inst, Placement(block, jobs, k))
    ensures MinPrefix(Spans(inst, block, jobs), |jobs|) <= MakespanOf(inst, Placement(block, jobs, k))
  {
    MinPrefixLeast(Spans(inst, block, jobs), |jobs|);
    SpanIs(inst, block, jobs, k);
  }
}
