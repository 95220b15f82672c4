// The Greedy Construction Heuristic (src/common/construction/gch.rs): the
// jobs in a random order, each inserted where it gives the least makespan.

module Gch {

  import opened Common
  import opened Instances
  import opened MakespanEngine
  import opened BestInsertion
  import opened NEH
  import opened Chromosomes

  /**
   * One round of `create`: `next` is a least-makespan insertion of `job`
   * into the non-empty schedule `prev`, as `find_best_insertion` returns it
   * when no random candidate is allowed.
   */
  ghost predicate GreedyStep(inst: Instance, job: nat, prev: seq<nat>, next: seq<nat>) {
    && Insertable(inst, [job], prev) && |prev| > 0
    && next in Ties(Placements([job], prev), Spans(inst, [job], prev), |prev|)
  }

  /**
   * The history of `create` on the shuffled list `jobs`, down to position
   * `lo`: `trail[j]` is the schedule once `jobs[j]` has been inserted. The
   * last job starts the schedule alone, and the jobs are popped from the
   * back, each inserted greedily into the schedule left by the one after it.
   */
  ghost predicate Greedy(inst: Instance, jobs: seq<nat>, trail: seq<seq<nat>>, lo: nat) {
    && |trail| == |jobs| > lo
    && trail[|jobs| - 1] == [jobs[|jobs| - 1]]
    && forall j :: lo <= j < |jobs| - 1 ==> GreedyStep(inst, jobs[j], trail[j + 1], trail[j])
  }

  /**
   * `GCH`: a constructor holding the makespan evaluator (the random number
   * generator it also holds is replaced by the draws passed to each call).
   */
  class Constructor {
    const makespan: Makespan

    constructor(makespan: Makespan)
      ensures this.makespan == makespan
    {
      this.makespan := makespan;
    }

    /**
     * `create`: shuffles `0..n` with `draws` and builds greedily from the
     * shuffled list; the result carries the makespan of the last insertion,
     * which is its own makespan (`u32::MAX` when there was a single job),
     * and is marked evaluated. The instance must have a job.
     */
    method Create(draws: seq<nat>) returns (c: Chromosome, ghost shuffled: seq<nat>, ghost trail: seq<seq<nat>>)
      requires makespan.instance.Valid() && makespan.instance.jobs > 0
      requires ShuffleDraws(draws, makespan.instance.jobs)
      modifies makespan
      ensures IsPermutation(shuffled, makespan.instance.jobs)
      ensures Greedy(makespan.instance, shuffled, trail, 0) && c.jobs == trail[0]
      ensures IsPermutation(c.jobs, makespan.instance.jobs) && c.makespan.Some? && !c.updated
      ensures makespan.instance.jobs == 1 ==> c.makespan.value == U32_MAX
      ensures makespan.instance.jobs > 1 ==>
        Schedulable(makespan.instance, c.jobs) && c.makespan.value == MakespanOf(makespan.instance, c.jobs)
      ensures makespan.count == old(makespan.count) + Triangle(makespan.instance.jobs) - 1
    {
      var n := makespan.instance.jobs;
      var jobs := ShuffledRange(n, draws);
      shuffled := jobs;
      PermutationFacts(jobs, n);
      var order, span;
      order, span, trail := InsertFromBack(makespan, jobs);
      assert jobs[0..] == jobs;
      c := Chromosome(order, Some(span), false);
    }

    /** `Iterator::next`: never exhausted, it always yields a fresh construction. */
    method Next(draws: seq<nat>) returns (r: Option<Chromosome>)
      requires makespan.instance.Valid() && makespan.instance.jobs > 0
      requires ShuffleDraws(draws, makespan.instance.jobs)
      modifies makespan
      ensures r.Some? && IsPermutation(r.value.jobs, makespan.instance.jobs)
      ensures r.value.makespan.Some? && !r.value.updated
      ensures makespan.count == old(makespan.count) + Triangle(makespan.instance.jobs) - 1
    {
      var c, _, _ := Create(draws);
      r := Some(c);
    }
  }

  /**
   * The state of `create` once the jobs from `lo` on are placed: `order` is
   * the schedule they were built into, with the makespan of the last
   * insertion (`u32::MAX` while the schedule holds one job).
   */
  ghost predicate Progress(inst: Instance, jobs: seq<nat>, lo: nat, order: seq<nat>, span: nat, trail: seq<seq<nat>>) {
    && Greedy(inst, jobs, trail, lo) && order == trail[lo]
    && multiset(order) == multiset(jobs[lo..]) && |order| == |jobs| - lo
    && if lo == |jobs| - 1 then span == U32_MAX else Schedulable(inst, order) && span == MakespanOf(inst, order)
  }

  /**
   * The loop of `create`: the last job of `jobs` starts the schedule, then
   * the others are popped from the back and inserted greedily one by one.
   */
  method InsertFromBack(m: Makespan, jobs: seq<nat>) returns (order: seq<nat>, span: nat, ghost trail: seq<seq<nat>>)
    requires m.instance.Valid() && |jobs| > 0 && DistinctBelow(jobs, m.instance.jobs)
    modifies m
    ensures Progress(m.instance, jobs, 0, order, span, trail)
    ensures m.count == old(m.count) + Triangle(|jobs|) - 1
  {
    var lo := |jobs| - 1;
    order := [jobs[lo]];
    span := U32_MAX;
    trail := seq(|jobs|, _ => order);
    ProgressStart(m.instance, jobs, trail);
    ghost var placed := 1;
    while lo > 0
      invariant lo < |jobs| && placed == |jobs| - lo
      invariant Progress(m.instance, jobs, lo, order, span, trail)
      invariant m.count + 1 == old(m.count) + Triangle(placed)
    {
      order, span, trail := Round(m, jobs, lo, order, span, trail);
      lo, placed := lo - 1, placed + 1;
    }
  }

  /** The last job alone is where `create` starts. */
  lemma ProgressStart(inst: Instance, jobs: seq<nat>, trail: seq<seq<nat>>)
    requires |jobs| > 0 && trail == seq(|jobs|, _ => [jobs[|jobs| - 1]])
    ensures Progress(inst, jobs, |jobs| - 1, [jobs[|jobs| - 1]], U32_MAX, trail)
  {
    assert jobs[|jobs| - 1..] == [jobs[|jobs| - 1]];
  }

  /** One pass of the loop: the job before `lo` is popped and inserted greedily. */
  method Round(m: Makespan, jobs: seq<nat>, lo: nat, order: seq<nat>, ghost span: nat, ghost trail: seq<seq<nat>>)
    returns (order': seq<nat>, span': nat, ghost trail': seq<seq<nat>>)
    requires m.instance.Valid() && DistinctBelow(jobs, m.instance.jobs) && 0 < lo < |jobs|
    requires Progress(m.instance, jobs, lo, order, span, trail)
    modifies m
    ensures Progress(m.instance, jobs, lo - 1, order', span', trail')
    ensures m.count == old(m.count) + |order| + 1
  {
    Popped(m.instance, jobs, lo - 1, order);
    order', span' := InsertGreedily(m, order, jobs[lo - 1]);
    trail' := trail[lo - 1 := order'];
    GreedyExtend(m.instance, jobs, trail, lo, order');
  }

  /** A greedy insertion of the job before `lo` extends the history by one round. */
  lemma GreedyExtend(inst: Instance, jobs: seq<nat>, trail: seq<seq<nat>>, lo: nat, next: seq<nat>)
    requires 0 < lo && Greedy(inst, jobs, trail, lo) && GreedyStep(inst, jobs[lo - 1], trail[lo], next)
    ensures Greedy(inst, jobs, trail[lo - 1 := next], lo - 1)
  {
    var trail' := trail[lo - 1 := next];
    forall j | lo - 1 <= j < |jobs| - 1
      ensures GreedyStep(inst, jobs[j], trail'[j + 1], trail'[j])
    {
      if j >= lo {
        assert trail'[j + 1] == trail[j + 1] && trail'[j] == trail[j];
      }
    }
  }

  /** The job popped at `lo` can go into the schedule of the jobs after it. */
  lemma Popped(inst: Instance, jobs: seq<nat>, lo: nat, order: seq<nat>)
    requires inst.Valid() && DistinctBelow(jobs, inst.jobs) && lo + 1 < |jobs|
    requires multiset(order) == multiset(jobs[lo + 1..]) && |order| > 0
    ensures Insertable(inst, [jobs[lo]], order)
    ensures multiset([jobs[lo]] + order) == multiset(jobs[lo..])
  {
    assert jobs[lo..] == [jobs[lo]] + jobs[lo + 1..];
    assert jobs == jobs[..lo] + jobs[lo..];
    SuffixDistinct(jobs[..lo], jobs[lo..], inst.jobs);
    RearrangedInsertable(inst, [jobs[lo]], order, jobs[lo..]);
  }

  /**
   * One round of the loop: `find_best_insertion` of the single job `job`
   * into `order`, never taking a random candidate. The result is a
   * least-makespan insertion, evaluated by the engine.
   */
  method InsertGreedily(m: Makespan, order: seq<nat>, job: nat) returns (next: seq<nat>, span: nat)
    requires Insertable(m.instance, [job], order) && |order| > 0
    modifies m
    ensures m.count == old(m.count) + |order| + 1
    ensures GreedyStep(m.instance, job, order, next)
    ensures multiset(next) == multiset([job] + order) && |next| == |order| + 1
    ensures Schedulable(m.instance, next) && span == MakespanOf(m.instance, next)
  {
    next, span := FindBestInsertion(m, order, [job], false, 0, false);
    InsertionResult(m.instance, [job], order, 0, false, next, span);
  }

  /**
   * Greediness of every round of `create`: no position of the job in the
   * schedule it was inserted into gives a smaller makespan than the one
   * chosen.
   */
  lemma GreedyLeast(inst: Instance, jobs: seq<nat>, trail: seq<seq<nat>>, j: nat, k: nat)
    requires Greedy(inst, jobs, trail, 0) && j + 1 < |jobs| && k <= |trail[j + 1]|
    ensures Schedulable(inst, trail[j]) && Schedulable(inst, Placement([jobs[j]], trail[j + 1], k))
    ensures MakespanOf(inst, trail[j]) <= MakespanOf(inst, Placement([jobs[j]], trail[j + 1], k))
  {
    var prev := trail[j + 1];
    assert GreedyStep(inst, jobs[j], prev, trail[j]);
    InsertionResult(inst, [jobs[j]], prev, 0, false, trail[j], MinPrefix(Spans(inst, [jobs[j]], prev), |prev|));
    BestSpanLeast(inst, [jobs[j]], prev, k);
  }

  /** The back part of a partial schedule is one too. */
  lemma SuffixDistinct(a: seq<nat>, b: seq<nat>, n: nat)
    requires DistinctBelow(a + b, n)
    ensures DistinctBelow(b, n)
  {
    assert forall i :: 0 <= i < |b| ==> b[i] == (a + b)[|a| + i];
  }
}
