// The NEH construction heuristic (src/common/construction/neh.rs): jobs in
// descending order of total processing time, each inserted at the first
// position of least makespan.

module NEH {

  import opened Common
  import opened Sorting
  import opened Instances
  import opened MakespanEngine
  import opened BestInsertion

  /** The `(job, total processing time)` pairs that `sort_jobs` sorts. */
  datatype Weighted = Weighted(job: nat, total: nat)

  function Total(w: Weighted): int { w.total }

  function JobId(w: Weighted): int { w.job }

  /** `a` goes before `b` in NEH order: larger total first, and the larger id among equal totals. */
  predicate Before(inst: Instance, a: nat, b: nat)
    requires inst.Shaped() && a < inst.jobs && b < inst.jobs
  {
    inst.TotalTime(a) > inst.TotalTime(b) || (inst.TotalTime(a) == inst.TotalTime(b) && a > b)
  }

  /** Every job once, in NEH order. */
  predicate NehOrder(inst: Instance, order: seq<nat>)
    requires inst.Shaped()
  {
    && IsPermutation(order, inst.jobs)
    && (forall i :: 0 <= i < |order| ==> order[i] < inst.jobs)
    && forall i, j :: 0 <= i < j < |order| ==> Before(inst, order[i], order[j])
  }

  /** A weight list of true totals of jobs of the instance. */
  predicate Weights(inst: Instance, ws: seq<Weighted>)
    requires inst.Shaped()
  {
    forall i :: 0 <= i < |ws| ==> ws[i].job < inst.jobs && ws[i].total == inst.TotalTime(ws[i].job)
  }

  lemma WeightsMultiset(inst: Instance, ws: seq<Weighted>, vs: seq<Weighted>)
    requires inst.Shaped() && Weights(inst, ws) && multiset(ws) == multiset(vs)
    ensures Weights(inst, vs)
  {
    forall i | 0 <= i < |vs| ensures vs[i].job < inst.jobs && vs[i].total == inst.TotalTime(vs[i].job) {
      assert vs[i] in multiset(ws);
      var k :| 0 <= k < |ws| && ws[k] == vs[i];
    }
  }

  /**
   * After the stable ascending sort by total and the reverse, the pairs are
   * descending in total, and descending in job id among equal totals.
   */
  lemma SortedWeights(inst: Instance, ws: seq<Weighted>)
    requires inst.Shaped() && |ws| == inst.jobs
    requires forall i :: 0 <= i < |ws| ==> ws[i] == Weighted(i, inst.TotalTime(i))
    ensures var r := Reversed(SortBy(ws, Total));
      && Weights(inst, r) && |r| == inst.jobs
      && forall i, j :: 0 <= i < j < |r| ==> Before(inst, r[i].job, r[j].job)
  {
    var sorted := SortBy(ws, Total);
    SortByLex(ws, Total, JobId);
    SortByMultiset(ws, Total);
    WeightsMultiset(inst, ws, sorted);
    ReversedBefore(inst, sorted);
  }

  lemma ReversedBefore(inst: Instance, sorted: seq<Weighted>)
    requires inst.Shaped() && Weights(inst, sorted) && LexSorted(sorted, Total, JobId)
    ensures var r := Reversed(sorted);
      && Weights(inst, r)
      && forall i, j :: 0 <= i < j < |r| ==> Before(inst, r[i].job, r[j].job)
  {
    var r := Reversed(sorted);
    ReversedMultiset(sorted);
    WeightsMultiset(inst, sorted, r);
    forall i, j | 0 <= i < j < |r| ensures Before(inst, r[i].job, r[j].job) {
      var a, b := |r| - 1 - j, |r| - 1 - i;
      assert r[i] == sorted[b] && r[j] == sorted[a];
    }
  }

  /**
   * `sort_jobs`: the jobs in descending order of total processing time, ties
   * broken towards the larger id (a stable ascending sort then a reverse).
   */
  method SortJobs(inst: Instance) returns (order: seq<nat>)
    requires inst.Shaped()
    ensures NehOrder(inst, order)
  {
    var processingTimes: seq<Weighted> := [];
    for job := 0 to inst.jobs
      invariant |processingTimes| == job
      invariant forall i :: 0 <= i < job ==> processingTimes[i] == Weighted(i, inst.TotalTime(i))
    {
      processingTimes := processingTimes + [Weighted(job, inst.TotalTime(job))];
    }
    SortedWeights(inst, processingTimes);
    processingTimes := SortBy(processingTimes, Total);
    processingTimes := Reversed(processingTimes);
    order := [];
    for i := 0 to |processingTimes|
      invariant |order| == i && forall k :: 0 <= k < i ==> order[k] == processingTimes[k].job
    {
      order := order + [processingTimes[i].job];
    }
    assert Distinct(order) by {
      forall i, j | 0 <= i < j < |order| ensures order[i] != order[j] {
        assert Before(inst, order[i], order[j]);
      }
    }
    DistinctPermutation(order, inst.jobs);
  }

  /**
   * The first index among `0..=i` whose value is the least of `spans[0..=i]`:
   * the strict `>` of `insert_job` only replaces the best on improvement.
   */
  function FirstBest(spans: seq<nat>, i: nat): (r: nat)
    requires i < |spans|
    ensures r <= i
  {
    if i == 0 then 0
    else
      var before := FirstBest(spans, i - 1);
      if spans[before] > spans[i] then i else before
  }

  /** The kept index holds the least value, and every index before it a strictly larger one. */
  lemma {:induction false} FirstBestLeast(spans: seq<nat>, i: nat)
    requires i < |spans|
    ensures spans[FirstBest(spans, i)] == MinPrefix(spans, i)
    ensures forall j :: 0 <= j < FirstBest(spans, i) ==> spans[j] > spans[FirstBest(spans, i)]
  {
    if i > 0 {
      FirstBestLeast(spans, i - 1);
      MinPrefixLeast(spans, i - 1);
    }
  }

  /** Inserting one job is placing the one-job block. */
  lemma InsertAtPlacement(schedule: seq<nat>, i: nat, job: nat)
    requires i <= |schedule|
    ensures InsertAt(schedule, i, job) == Placement([job], schedule, i)
  {
  }

  /** The insertion index `insert_job` settles on: the first of least makespan. */
  function BestPosition(inst: Instance, schedule: seq<nat>, job: nat): (k: nat)
    requires Insertable(inst, [job], schedule)
    ensures k <= |schedule|
  {
    FirstBest(Spans(inst, [job], schedule), |schedule|)
  }

  /** The schedule `insert_job` returns: `job` inserted at the first position of least makespan. */
  function BestInserted(inst: Instance, schedule: seq<nat>, job: nat): (r: seq<nat>)
    requires Insertable(inst, [job], schedule)
    ensures multiset(r) == multiset(schedule) + multiset{job} && |r| == |schedule| + 1
  {
    var k := BestPosition(inst, schedule, job);
    InsertAtMultiset(schedule, k, job);
    InsertAt(schedule, k, job)
  }

  /** `k` is the first position among `0..n` whose value is the least of `spans[0..n]`. */
  predicate FirstLeast(spans: seq<nat>, n: nat, k: nat)
    requires n <= |spans|
  {
    && k < n
    && (forall j :: 0 <= j < n ==> spans[k] <= spans[j])
    && (forall j :: 0 <= j < k ==> spans[j] > spans[k])
  }

  /** The first least position is unique: it is the one `FirstBest` finds. */
  lemma FirstLeastIsFirstBest(spans: seq<nat>, i: nat, k: nat)
    requires i < |spans| && FirstLeast(spans, i + 1, k)
    ensures k == FirstBest(spans, i)
  {
    FirstBestLeast(spans, i);
    MinPrefixLeast(spans, i);
  }

  /** The running minimum of `insert_job` after the positions below `index`, given each position's makespan. */
  predicate Scanned(spans: seq<nat>, schedule: seq<nat>, job: nat, index: nat, k: nat, minTime: nat, best: seq<nat>)
    requires |spans| == |schedule| + 1 && index <= |spans|
  {
    if index == 0 then minTime == U32_MAX && best == []
    else FirstLeast(spans, index, k) && k <= |schedule| && minTime == spans[k] && best == InsertAt(schedule, k, job)
  }

  /** The first evaluation always beats the `u32::MAX` sentinel. */
  lemma FirstSpanFits(inst: Instance, schedule: seq<nat>, job: nat)
    requires Insertable(inst, [job], schedule)
    ensures Spans(inst, [job], schedule)[0] < U32_MAX
  {
    SpanIs(inst, [job], schedule, 0);
    MakespanFits(inst, Placement([job], schedule, 0));
  }

  /**
   * `insert_job`: tries `job` at every position `0..=len` of `schedule`,
   * evaluating each, and keeps the first of least makespan.
   */
  method InsertJob(m: Makespan, schedule: seq<nat>, nextJob: nat) returns (best: seq<nat>, minTime: nat)
    requires Insertable(m.instance, [nextJob], schedule)
    modifies m
    ensures m.count == old(m.count) + |schedule| + 1
    ensures best == BestInserted(m.instance, schedule, nextJob)
    ensures minTime == Spans(m.instance, [nextJob], schedule)[BestPosition(m.instance, schedule, nextJob)]
  {
    var inst := m.instance;
    ghost var spans := Spans(inst, [nextJob], schedule);
    ghost var k := 0;
    FirstSpanFits(inst, schedule, nextJob);
    minTime, best := U32_MAX, [];
    for index := 0 to |schedule| + 1
      invariant m.count == old(m.count) + index
      invariant Scanned(spans, schedule, nextJob, index, k, minTime, best)
    {
      minTime, best, k := TryPosition(m, spans, schedule, nextJob, index, k, minTime, best);
    }
    FirstLeastIsFirstBest(spans, |schedule|, k);
  }

  /** One iteration of `insert_job`: evaluate `index` and keep it only if strictly better. */
  method TryPosition(m: Makespan, ghost spans: seq<nat>, schedule: seq<nat>, nextJob: nat, index: nat,
                     ghost k: nat, minTime: nat, best: seq<nat>)
    returns (minTime': nat, best': seq<nat>, ghost k': nat)
    requires Insertable(m.instance, [nextJob], schedule) && index <= |schedule|
    requires spans == Spans(m.instance, [nextJob], schedule) && spans[0] < U32_MAX
    requires Scanned(spans, schedule, nextJob, index, k, minTime, best)
    modifies m
    ensures m.count == old(m.count) + 1
    ensures Scanned(spans, schedule, nextJob, index + 1, k', minTime', best')
  {
    var testSchedule := InsertAt(schedule, index, nextJob);
    InsertAtPlacement(schedule, index, nextJob);
    var time := EvaluatePlacement(m, testSchedule, [nextJob], schedule, index);
    minTime', best', k' := minTime, best, k;
    if minTime > time {
      minTime', best', k' := time, testSchedule, index;
    }
    ScannedStep(spans, schedule, nextJob, index, k, minTime, best, k', minTime', best');
  }

  /** The strict `>` replaces the kept position only by a strictly better one, so it stays the first least. */
  lemma ScannedStep(spans: seq<nat>, schedule: seq<nat>, job: nat, index: nat, k: nat, minTime: nat, best: seq<nat>,
                    k': nat, minTime': nat, best': seq<nat>)
    requires |spans| == |schedule| + 1 && index < |spans| && spans[0] < U32_MAX
    requires Scanned(spans, schedule, job, index, k, minTime, best)
    requires if minTime > spans[index] then k' == index && minTime' == spans[index] && best' == InsertAt(schedule, index, job)
             else k' == k && minTime' == minTime && best' == best
    ensures Scanned(spans, schedule, job, index + 1, k', minTime', best')
  {
  }

  /**
   * What `insert_job` promises, position by position: no insertion index
   * gives a smaller makespan than the chosen one, and every index before it
   * gives a strictly larger one.
   */
  lemma BestInsertedOptimal(inst: Instance, schedule: seq<nat>, job: nat, j: nat)
    requires Insertable(inst, [job], schedule) && j <= |schedule|
    ensures Schedulable(inst, BestInserted(inst, schedule, job)) && Schedulable(inst, InsertAt(schedule, j, job))
    ensures MakespanOf(inst, BestInserted(inst, schedule, job)) <= MakespanOf(inst, InsertAt(schedule, j, job))
    ensures j < BestPosition(inst, schedule, job) ==>
      MakespanOf(inst, BestInserted(inst, schedule, job)) < MakespanOf(inst, InsertAt(schedule, j, job))
  {
    var k := BestPosition(inst, schedule, job);
    FirstBestLeast(Spans(inst, [job], schedule), |schedule|);
    MinPrefixLeast(Spans(inst, [job], schedule), |schedule|);
    SpanIs(inst, [job], schedule, k);
    InsertAtPlacement(schedule, k, job);
    SpanIs(inst, [job], schedule, j);
    InsertAtPlacement(schedule, j, job);
  }

  /** The number of evaluations NEH makes for `n` jobs: `1 + 2 + … + n`. */
  function Triangle(n: nat): nat {
    if n == 0 then 0 else Triangle(n - 1) + n
  }

  /** The schedule NEH builds from the first `n` jobs of an order: each job inserted in turn. */
  function Built(inst: Instance, order: seq<nat>, n: nat): (r: seq<nat>)
    requires inst.Valid() && DistinctBelow(order, inst.jobs) && n <= |order|
    ensures multiset(r) == multiset(order[..n]) && |r| == n
  {
    if n == 0 then []
    else
      var before := Built(inst, order, n - 1);
      PrefixInsertable(inst, order, n, before);
      BestInserted(inst, before, order[n - 1])
  }

  /**
   * Job `n - 1` of a distinct order can be inserted into any arrangement of
   * the jobs before it, and doing so arranges the first `n` jobs.
   */
  lemma PrefixInsertable(inst: Instance, order: seq<nat>, n: nat, before: seq<nat>)
    requires inst.Valid() && DistinctBelow(order, inst.jobs) && 0 < n <= |order|
    requires multiset(before) == multiset(order[..n - 1])
    ensures Insertable(inst, [order[n - 1]], before)
    ensures multiset(before) + multiset{order[n - 1]} == multiset(order[..n])
  {
    DistinctBelowPrefix(order, inst.jobs, n);
    assert order[..n] == order[..n - 1] + [order[n - 1]];
    RearrangedInsertable(inst, [order[n - 1]], before, order[..n]);
  }

  /**
   * `neh`: every job inserted, in `sort_jobs` order, at its first best
   * position; the result is a permutation of all jobs.
   */
  method Neh(m: Makespan) returns (schedule: seq<nat>, ghost order: seq<nat>)
    requires m.instance.Valid()
    modifies m
    ensures NehOrder(m.instance, order) && schedule == Built(m.instance, order, |order|)
    ensures IsPermutation(schedule, m.instance.jobs)
    ensures m.count == old(m.count) + Triangle(m.instance.jobs)
  {
    var jobOrder := SortJobs(m.instance);
    order := jobOrder;
    PermutationFacts(jobOrder, m.instance.jobs);
    schedule := [];
    for i := 0 to |jobOrder|
      invariant schedule == Built(m.instance, jobOrder, i)
      invariant m.count == old(m.count) + Triangle(i)
    {
      PrefixInsertable(m.instance, jobOrder, i + 1, schedule);
      var span;
      schedule, span := InsertJob(m, schedule, jobOrder[i]);
    }
    WholeSlice(jobOrder);
  }
}
