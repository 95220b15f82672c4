// Iterated greedy for the flow shop (src/iterated_greedy/iterated_greedy.rs):
// the destruction/construction perturbation of Ruiz and Stützle around the
// local search `iterative_improvement_insertion`, stopping after a budget of
// makespan evaluations. Every random draw is a nondeterministic choice; the
// temperature test of the acceptance rule is an arbitrary boolean.

module IteratedGreedy {

  import opened Common
  import opened Instances
  import opened MakespanEngine
  import opened BestInsertion
  import opened NEH

  /**
   * The makespan of a schedule as the search compares it. It is
   * `MakespanOf` (see `SpanIsMakespan`), reached through one level of
   * `Deferred`: the verifier unfolds a recursive function one level per
   * use, so the proofs below that only compare and carry spans never
   * unfold the stage-by-stage simulation behind `MakespanOf`.
   */
  function Span(inst: Instance, schedule: seq<nat>): nat
    requires Schedulable(inst, schedule)
  {
    Deferred(inst, schedule, 1)
  }

  function Deferred(inst: Instance, schedule: seq<nat>, levels: nat): nat
    requires Schedulable(inst, schedule)
  {
    if levels == 0 then MakespanOf(inst, schedule) else Deferred(inst, schedule, levels - 1)
  }

  lemma SpanIsMakespan(inst: Instance, schedule: seq<nat>)
    requires Schedulable(inst, schedule)
    ensures Span(inst, schedule) == MakespanOf(inst, schedule)
  {
    assert Deferred(inst, schedule, 0) == MakespanOf(inst, schedule);
  }

  /**
   * `job` put back into `rest` at its best position, as `best_insertion`
   * does; `BestInserted` behind one level of `DeferredInsert`, for the same
   * reason as `Span` (see `ReinsertedIs`).
   */
  function Reinserted(inst: Instance, rest: seq<nat>, job: nat): seq<nat>
    requires Insertable(inst, [job], rest)
  {
    DeferredInsert(inst, rest, job, 1)
  }

  function DeferredInsert(inst: Instance, rest: seq<nat>, job: nat, levels: nat): seq<nat>
    requires Insertable(inst, [job], rest)
  {
    if levels == 0 then BestInserted(inst, rest, job) else DeferredInsert(inst, rest, job, levels - 1)
  }

  lemma ReinsertedIs(inst: Instance, rest: seq<nat>, job: nat)
    requires Insertable(inst, [job], rest)
    ensures Reinserted(inst, rest, job) == BestInserted(inst, rest, job)
  {
    assert DeferredInsert(inst, rest, job, 0) == BestInserted(inst, rest, job);
  }

  /** `span` is the makespan of the schedulable `schedule`: the pairs the search carries around. */
  predicate Scored(inst: Instance, schedule: seq<nat>, span: nat) {
    Schedulable(inst, schedule) && span == Span(inst, schedule)
  }

  /** `makespan.makespan(&schedule).0`: one evaluation, giving the makespan. */
  method Evaluate(m: Makespan, schedule: seq<nat>) returns (span: nat)
    requires Schedulable(m.instance, schedule)
    modifies m
    ensures m.count == old(m.count) + 1 && Scored(m.instance, schedule, span)
  {
    var completions;
    span, completions := m.Evaluate(schedule);
    SpanIsMakespan(m.instance, schedule);
  }

  /**
   * `insert_job` as the search calls it: the best insertion of `job` into
   * `schedule` (of least makespan by `BestInsertedOptimal`), with its
   * makespan.
   */
  method Reinsert(m: Makespan, schedule: seq<nat>, job: nat) returns (best: seq<nat>, span: nat)
    requires Insertable(m.instance, [job], schedule)
    modifies m
    ensures m.count == old(m.count) + |schedule| + 1
    ensures best == BestInserted(m.instance, schedule, job) && multiset(best) == multiset(schedule) + multiset{job}
    ensures Scored(m.instance, best, span)
  {
    best, span := InsertJob(m, schedule, job);
    var k := BestPosition(m.instance, schedule, job);
    SpanIs(m.instance, [job], schedule, k);
    InsertAtPlacement(schedule, k, job);
    SpanIsMakespan(m.instance, best);
  }

  /** `remove_random`: the job at the drawn `index` is taken out of the schedule. */
  method RemoveRandom(schedule: seq<nat>, index: nat) returns (rest: seq<nat>, job: nat)
    requires index < |schedule|
    ensures rest == RemoveAt(schedule, index) && job == schedule[index]
    ensures multiset(rest) + multiset{job} == multiset(schedule)
  {
    var newSchedule := schedule;
    job := schedule[index];
    newSchedule := newSchedule[..index] + newSchedule[index + 1..];
    rest := newSchedule;
    RemoveAtMultiset(schedule, index);
  }

  /** Putting the removed job back at the index it was taken from gives the schedule back. */
  lemma RemoveRestored(schedule: seq<nat>, index: nat)
    requires index < |schedule|
    ensures InsertAt(RemoveAt(schedule, index), index, schedule[index]) == schedule
  {
    assert schedule == schedule[..index] + [schedule[index]] + schedule[index + 1..];
  }

  /** Indices of successive removals from a schedule of `len` jobs: each within the schedule left at its turn. */
  predicate Removable(len: nat, indices: seq<nat>) {
    |indices| <= len && forall k :: 0 <= k < |indices| ==> indices[k] < len - k
  }

  /** The schedule left after removing, one after the other, the jobs at `indices`. */
  function Remaining(schedule: seq<nat>, indices: seq<nat>): (r: seq<nat>)
    requires Removable(|schedule|, indices)
    ensures |r| == |schedule| - |indices|
  {
    if indices == [] then schedule
    else
      var earlier := indices[..|indices| - 1];
      assert Removable(|schedule|, earlier) by {
        assert forall k :: 0 <= k < |earlier| ==> earlier[k] == indices[k];
      }
      RemoveAt(Remaining(schedule, earlier), Last(indices))
  }

  /** The jobs those removals take out, in removal order; with the rest they make up the schedule. */
  function RemovedJobs(schedule: seq<nat>, indices: seq<nat>): (r: seq<nat>)
    requires Removable(|schedule|, indices)
    ensures |r| == |indices|
    ensures multiset(Remaining(schedule, indices)) + multiset(r) == multiset(schedule)
  {
    if indices == [] then []
    else
      var earlier := indices[..|indices| - 1];
      assert Removable(|schedule|, earlier) by {
        assert forall k :: 0 <= k < |earlier| ==> earlier[k] == indices[k];
      }
      var left := Remaining(schedule, earlier);
      RemoveAtMultiset(left, Last(indices));
      RemovedJobs(schedule, earlier) + [left[Last(indices)]]
  }

  /** `jobs` put back into `rest` at `indices`, the last removal first. */
  function Restore(rest: seq<nat>, indices: seq<nat>, jobs: seq<nat>): seq<nat>
    requires |jobs| == |indices|
    requires forall k :: 0 <= k < |indices| ==> indices[k] <= |rest| + (|indices| - 1 - k)
    decreases |indices|
  {
    if indices == [] then rest
    else Restore(InsertAt(rest, Last(indices), Last(jobs)), indices[..|indices| - 1], jobs[..|jobs| - 1])
  }

  /** Putting the removed jobs back where they were taken from, in reverse order, gives the schedule back. */
  lemma {:induction false} RemovedRestored(schedule: seq<nat>, indices: seq<nat>)
    requires Removable(|schedule|, indices)
    ensures Restore(Remaining(schedule, indices), indices, RemovedJobs(schedule, indices)) == schedule
  {
    if indices != [] {
      var earlier := indices[..|indices| - 1];
      assert Removable(|schedule|, earlier) by {
        assert forall k :: 0 <= k < |earlier| ==> earlier[k] == indices[k];
      }
      var left := Remaining(schedule, earlier);
      var jobs := RemovedJobs(schedule, indices);
      RemoveRestored(left, Last(indices));
      assert jobs[..|jobs| - 1] == RemovedJobs(schedule, earlier);
      RemovedRestored(schedule, earlier);
    }
  }

  /** One more removal: the rest loses the job at `index`, which joins the removed jobs. */
  lemma RemoveOneMore(schedule: seq<nat>, drawn: seq<nat>, index: nat)
    requires Removable(|schedule|, drawn) && index < |schedule| - |drawn|
    ensures Removable(|schedule|, drawn + [index])
    ensures Remaining(schedule, drawn + [index]) == RemoveAt(Remaining(schedule, drawn), index)
    ensures RemovedJobs(schedule, drawn + [index]) == RemovedJobs(schedule, drawn) + [Remaining(schedule, drawn)[index]]
  {
    assert (drawn + [index])[..|drawn|] == drawn;
  }

  /** `rest` and `deleted` are what the removals at `drawn` leave of `schedule` and take out of it. */
  predicate Destroyed(schedule: seq<nat>, drawn: seq<nat>, rest: seq<nat>, deleted: seq<nat>) {
    Removable(|schedule|, drawn) && rest == Remaining(schedule, drawn) && deleted == RemovedJobs(schedule, drawn)
  }

  /** A non-empty selection out of a schedule's jobs is a schedule. */
  lemma SubSchedulable(inst: Instance, part: seq<nat>, whole: seq<nat>)
    requires Schedulable(inst, whole) && |part| > 0 && multiset(part) <= multiset(whole)
    ensures Schedulable(inst, part)
  {
    forall i | 0 <= i < |part| ensures part[i] < inst.jobs {
      assert part[i] in multiset(part);
    }
    forall i, j | 0 <= i < j < |part| ensures part[i] != part[j] {
      if part[i] == part[j] {
        TwiceCounted(part, i, j);
        DistinctCount(whole, part[i]);
      }
    }
  }

  /** Two rearrangements of each other have the same length. */
  lemma PermutationLength(a: seq<nat>, b: seq<nat>)
    requires multiset(a) == multiset(b)
    ensures |a| == |b|
  {
    assert |multiset(a)| == |a| && |multiset(b)| == |b|;
  }

  /** While fewer jobs were tried than the schedule holds, some job of it is still untried. */
  lemma {:induction false} Untried(schedule: seq<nat>, removed: seq<nat>)
    requires Distinct(schedule) && Distinct(removed) && |removed| < |schedule|
    ensures exists i :: 0 <= i < |schedule| && schedule[i] !in removed
  {
    if forall i :: 0 <= i < |schedule| ==> schedule[i] in removed {
      DistinctCard(schedule);
      DistinctCard(removed);
      forall x | x in Elements(schedule) ensures x in Elements(removed) {
        var i :| 0 <= i < |schedule| && schedule[i] == x;
      }
      SubsetCard(Elements(schedule), Elements(removed));
      assert false;
    }
  }

  /**
   * The retry loop of `iterative_improvement_insertion` around
   * `remove_random`: draws are repeated until the removed job was not
   * tried before in this pass; the accepted draw is chosen directly.
   */
  method Pick(schedule: seq<nat>, removed: seq<nat>) returns (rest: seq<nat>, job: nat, ghost index: nat)
    requires Distinct(schedule) && Distinct(removed) && |removed| < |schedule|
    ensures index < |schedule| && job == schedule[index] && job !in removed
    ensures rest == RemoveAt(schedule, index) && multiset(rest) + multiset{job} == multiset(schedule)
  {
    Untried(schedule, removed);
    var i :| 0 <= i < |schedule| && schedule[i] !in removed;
    index := i;
    rest, job := RemoveRandom(schedule, i);
  }

  /** The jobs tried so far in a pass: distinct jobs of the schedule the pass started from. */
  predicate Tried(removed: seq<nat>, schedule: seq<nat>) {
    Distinct(removed) && forall j :: j in removed ==> j in schedule
  }

  /** Trying one more job of the schedule, not tried before, keeps the tried jobs distinct. */
  lemma TriedOneMore(removed: seq<nat>, schedule: seq<nat>, best: seq<nat>, index: nat)
    requires Tried(removed, schedule) && multiset(best) == multiset(schedule)
    requires index < |best| && best[index] !in removed
    ensures Tried(removed + [best[index]], schedule)
  {
    SameElements(best, schedule, best[index]);
  }

  /**
   * Part way through a pass that started from `schedule` with makespan
   * `span`: `best` is a rearrangement of it no worse than `span`, and the
   * jobs tried are distinct jobs of it.
   */
  predicate Passed(inst: Instance, schedule: seq<nat>, span: nat, best: seq<nat>, bestSpan: nat, removed: seq<nat>) {
    Scored(inst, best, bestSpan) && multiset(best) == multiset(schedule) && bestSpan <= span && Tried(removed, schedule)
  }

  /**
   * One try of `iterative_improvement_insertion`: an untried job is
   * removed and reinserted at its best place, and the result replaces the
   * incumbent only when strictly better.
   */
  method Try(m: Makespan, ghost schedule: seq<nat>, ghost start: nat, removed: seq<nat>, best: seq<nat>, span: nat)
    returns (removed': seq<nat>, best': seq<nat>, span': nat, ghost index: nat, ghost candidate: seq<nat>)
    requires Passed(m.instance, schedule, start, best, span, removed) && |removed| < |schedule| / 5
    modifies m
    ensures m.count == old(m.count) + |schedule|
    ensures Passed(m.instance, schedule, start, best', span', removed') && |removed'| == |removed| + 1
    ensures index < |best| && best[index] !in removed && removed' == removed + [best[index]]
    ensures Insertable(m.instance, [best[index]], RemoveAt(best, index))
    ensures candidate == Reinserted(m.instance, RemoveAt(best, index), best[index])
    ensures Schedulable(m.instance, candidate)
    ensures best' == (if Span(m.instance, candidate) < span then candidate else best) && span' <= span
  {
    PermutationLength(best, schedule);
    var rest, job;
    rest, job, index := Pick(best, removed);
    removed' := removed + [job];
    RearrangedInsertable(m.instance, [job], rest, best);
    var inserted, newSpan := Reinsert(m, rest, job);
    ReinsertedIs(m.instance, rest, job);
    candidate := inserted;
    TriedOneMore(removed, schedule, best, index);
    best', span' := best, span;
    if newSpan < span {
      best', span' := inserted, newSpan;
    }
  }

  /** One try's reinsertion can be made, and gives a schedule of the same jobs. */
  lemma TryFacts(inst: Instance, best: seq<nat>, i: nat)
    requires Schedulable(inst, best) && i < |best|
    ensures Insertable(inst, [best[i]], RemoveAt(best, i))
    ensures var c := Reinserted(inst, RemoveAt(best, i), best[i]);
      Schedulable(inst, c) && multiset(c) == multiset(best)
  {
    RemoveAtMultiset(best, i);
    assert multiset([best[i]] + RemoveAt(best, i)) == multiset(best);
    RearrangedInsertable(inst, [best[i]], RemoveAt(best, i), best);
    ReinsertedIs(inst, RemoveAt(best, i), best[i]);
    SubSchedulable(inst, Reinserted(inst, RemoveAt(best, i), best[i]), best);
  }

  /**
   * The local search's incumbent after the tries that took out, in turn,
   * the job at each of `picks` of the incumbent of the time: the job is put
   * back at its best place, and the result is kept only when its makespan
   * is strictly smaller.
   */
  function Searched(inst: Instance, schedule: seq<nat>, picks: seq<nat>): (r: seq<nat>)
    requires Schedulable(inst, schedule) && forall k :: 0 <= k < |picks| ==> picks[k] < |schedule|
    ensures Schedulable(inst, r) && multiset(r) == multiset(schedule) && |r| == |schedule|
  {
    if picks == [] then schedule
    else
      var before := Searched(inst, schedule, picks[..|picks| - 1]);
      var i := Last(picks);
      PermutationLength(before, schedule);
      TryFacts(inst, before, i);
      var candidate := Reinserted(inst, RemoveAt(before, i), before[i]);
      PermutationLength(candidate, before);
      if Span(inst, candidate) < Span(inst, before) then candidate else before
  }

  /** The jobs the tries at `picks` took out, in order. */
  function PickedJobs(inst: Instance, schedule: seq<nat>, picks: seq<nat>): (r: seq<nat>)
    requires Schedulable(inst, schedule) && forall k :: 0 <= k < |picks| ==> picks[k] < |schedule|
    ensures |r| == |picks|
  {
    if picks == [] then []
    else
      var earlier := picks[..|picks| - 1];
      PickedJobs(inst, schedule, earlier) + [Searched(inst, schedule, earlier)[Last(picks)]]
  }

  /** `best` is what the tries at `picks` make of `schedule`. */
  predicate SearchedBy(inst: Instance, schedule: seq<nat>, picks: seq<nat>, best: seq<nat>) {
    && Schedulable(inst, schedule) && (forall k :: 0 <= k < |picks| ==> picks[k] < |schedule|)
    && best == Searched(inst, schedule, picks)
  }

  /** One more try, on the job at `i` of the incumbent. */
  lemma SearchOneMore(inst: Instance, schedule: seq<nat>, picks: seq<nat>, i: nat)
    requires Schedulable(inst, schedule) && (forall k :: 0 <= k < |picks| ==> picks[k] < |schedule|) && i < |schedule|
    ensures var before := Searched(inst, schedule, picks);
      && Insertable(inst, [before[i]], RemoveAt(before, i))
      && var candidate := Reinserted(inst, RemoveAt(before, i), before[i]);
      && Schedulable(inst, candidate)
      && Searched(inst, schedule, picks + [i]) == (if Span(inst, candidate) < Span(inst, before) then candidate else before)
      && PickedJobs(inst, schedule, picks + [i]) == PickedJobs(inst, schedule, picks) + [before[i]]
  {
    assert (picks + [i])[..|picks|] == picks;
    TryFacts(inst, Searched(inst, schedule, picks), i);
  }

  /** The local search never makes the schedule worse. */
  lemma {:induction false} SearchedNoWorse(inst: Instance, schedule: seq<nat>, picks: seq<nat>)
    requires Schedulable(inst, schedule) && forall k :: 0 <= k < |picks| ==> picks[k] < |schedule|
    ensures Span(inst, Searched(inst, schedule, picks)) <= Span(inst, schedule)
  {
    if picks != [] {
      SearchedNoWorse(inst, schedule, picks[..|picks| - 1]);
    }
  }

  /** `k * c` by repeated addition: what `k` steps costing `c` each add up to. */
  function Times(k: nat, c: nat): nat {
    if k == 0 then 0 else Times(k - 1, c) + c
  }

  lemma {:induction false} TimesIs(k: nat, c: nat)
    ensures Times(k, c) == k * c
  {
    if k > 0 {
      TimesIs(k - 1, c);
      assert k * c == (k - 1) * c + c;
    }
  }

  /**
   * The inner `for` loop of `iterative_improvement_insertion`: `n` tries,
   * each on a job not tried before, each costing one best insertion.
   */
  method Pass(m: Makespan, schedule: seq<nat>, span: nat, n: nat)
    returns (best: seq<nat>, bestSpan: nat, removed: seq<nat>, ghost picks: seq<nat>)
    requires Scored(m.instance, schedule, span) && n <= |schedule| / 5
    modifies m
    ensures Scored(m.instance, best, bestSpan) && multiset(best) == multiset(schedule) && bestSpan <= span
    ensures |removed| == n && Tried(removed, schedule)
    ensures |picks| == n && SearchedBy(m.instance, schedule, picks, best)
    ensures removed == PickedJobs(m.instance, schedule, picks)
    ensures m.count == old(m.count) + n * |schedule|
  {
    best, bestSpan, removed, picks := schedule, span, [], [];
    ghost var total := 0;
    for k := 0 to n
      invariant Passed(m.instance, schedule, span, best, bestSpan, removed) && |removed| == k
      invariant |picks| == k && SearchedBy(m.instance, schedule, picks, best)
      invariant removed == PickedJobs(m.instance, schedule, picks)
      invariant m.count == old(m.count) + total && total == Times(k, |schedule|)
    {
      ghost var index, candidate;
      PermutationLength(best, schedule);
      removed, best, bestSpan, index, candidate := Try(m, schedule, span, removed, best, bestSpan);
      SearchOneMore(m.instance, schedule, picks, index);
      picks := picks + [index];
      total := total + |schedule|;
    }
    TimesIs(n, |schedule|);
  }

  /** What the local search returns: a rearrangement of `schedule` no worse than it, with its makespan. */
  predicate NoWorse(inst: Instance, schedule: seq<nat>, best: seq<nat>, span: nat)
    requires Schedulable(inst, schedule)
  {
    Scored(inst, best, span) && multiset(best) == multiset(schedule) && span <= Span(inst, schedule)
  }

  /**
   * `iterative_improvement_insertion`: one evaluation, then passes of
   * `|schedule| / 5` tries while a pass raises the improvement flag. No
   * pass ever raises it, so there is exactly one. The result is a
   * rearrangement no worse than the input.
   */
  method Improve(m: Makespan, schedule: seq<nat>)
    returns (best: seq<nat>, span: nat, ghost removed: seq<nat>, ghost picks: seq<nat>)
    requires Schedulable(m.instance, schedule)
    modifies m
    ensures NoWorse(m.instance, schedule, best, span)
    ensures |removed| == |schedule| / 5 && Tried(removed, schedule)
    ensures |picks| == |schedule| / 5 && SearchedBy(m.instance, schedule, picks, best)
    ensures removed == PickedJobs(m.instance, schedule, picks)
    ensures m.count == old(m.count) + 1 + |schedule| / 5 * |schedule|
    ensures m.count > old(m.count)
  {
    var n := |schedule| / 5;
    var first := Evaluate(m, schedule);
    best, span := schedule, first;
    removed, picks := [], [];
    var improvement := true;
    while improvement
      invariant NoWorse(m.instance, schedule, best, span)
      invariant improvement ==> removed == [] && picks == [] && best == schedule && m.count == old(m.count) + 1
      invariant !improvement ==> |removed| == n && Tried(removed, schedule)
      invariant !improvement ==> |picks| == n && SearchedBy(m.instance, schedule, picks, best)
      invariant !improvement ==> removed == PickedJobs(m.instance, schedule, picks)
      invariant !improvement ==> m.count == old(m.count) + 1 + n * |schedule|
      decreases improvement
    {
      improvement := false;
      var jobsRemoved;
      best, span, jobsRemoved, picks := Pass(m, schedule, span, n);
      removed := jobsRemoved;
    }
  }

  /**
   * The destruction phase: `d` jobs removed one after the other at drawn
   * indices, each reduced schedule evaluated.
   */
  method Destroy(m: Makespan, schedule: seq<nat>, span: nat, d: nat)
    returns (rest: seq<nat>, restSpan: nat, deleted: seq<nat>, ghost drawn: seq<nat>)
    requires Scored(m.instance, schedule, span) && d < |schedule|
    modifies m
    ensures |deleted| == d && |rest| == |schedule| - d
    ensures multiset(rest) + multiset(deleted) == multiset(schedule)
    ensures |drawn| == d && Destroyed(schedule, drawn, rest, deleted)
    ensures Scored(m.instance, rest, restSpan)
    ensures m.count == old(m.count) + d
  {
    rest, restSpan, deleted, drawn := schedule, span, [], [];
    for k := 0 to d
      invariant |deleted| == k && |rest| == |schedule| - k
      invariant multiset(rest) + multiset(deleted) == multiset(schedule)
      invariant |drawn| == k && Destroyed(schedule, drawn, rest, deleted)
      invariant Scored(m.instance, rest, restSpan)
      invariant m.count == old(m.count) + k
    {
      rest, restSpan, deleted, drawn := RemoveOne(m, schedule, rest, deleted, drawn);
    }
  }

  /** One round of the destruction loop: a drawn job is removed and the reduced schedule evaluated. */
  method RemoveOne(m: Makespan, ghost schedule: seq<nat>, rest: seq<nat>, deleted: seq<nat>, ghost drawn: seq<nat>)
    returns (rest': seq<nat>, restSpan': nat, deleted': seq<nat>, ghost drawn': seq<nat>)
    requires Schedulable(m.instance, schedule) && |rest| > 1
    requires multiset(rest) + multiset(deleted) == multiset(schedule)
    requires Destroyed(schedule, drawn, rest, deleted)
    modifies m
    ensures |deleted'| == |deleted| + 1 && |rest'| == |rest| - 1 && |drawn'| == |drawn| + 1
    ensures multiset(rest') + multiset(deleted') == multiset(schedule)
    ensures Destroyed(schedule, drawn', rest', deleted')
    ensures Scored(m.instance, rest', restSpan')
    ensures m.count == old(m.count) + 1
  {
    var index :| 0 <= index < |rest|;
    var job;
    rest', job := RemoveRandom(rest, index);
    deleted' := deleted + [job];
    drawn' := drawn + [index];
    assert multiset(deleted') == multiset(deleted) + multiset{job};
    assert multiset(rest') + multiset(deleted') == multiset(schedule);
    RemoveOneMore(schedule, drawn, index);
    SubSchedulable(m.instance, rest', schedule);
    restSpan' := Evaluate(m, rest');
  }

  /**
   * The partial schedule after the construction phase has reinserted the
   * first `n` deleted jobs into `rest`, in deletion order, each at its
   * best place.
   */
  function Rebuilt(inst: Instance, rest: seq<nat>, deleted: seq<nat>, n: nat, whole: seq<nat>): (r: seq<nat>)
    requires Schedulable(inst, whole) && multiset(rest) + multiset(deleted) == multiset(whole) && n <= |deleted|
    ensures multiset(r) + multiset(deleted[n..]) == multiset(whole) && |r| == |rest| + n
  {
    if n == 0 then
      assert deleted[0..] == deleted;
      rest
    else
      var before := Rebuilt(inst, rest, deleted, n - 1, whole);
      RebuiltStep(inst, before, deleted, n - 1, whole);
      Reinserted(inst, before, deleted[n - 1])
  }

  /** Reinserting the next deleted job keeps the partial schedule and the jobs still deleted a rearrangement of the whole. */
  lemma RebuiltStep(inst: Instance, before: seq<nat>, deleted: seq<nat>, k: nat, whole: seq<nat>)
    requires Schedulable(inst, whole) && k < |deleted|
    requires multiset(before) + multiset(deleted[k..]) == multiset(whole)
    ensures Insertable(inst, [deleted[k]], before)
    ensures var r := Reinserted(inst, before, deleted[k]);
      multiset(r) + multiset(deleted[k + 1..]) == multiset(whole) && |r| == |before| + 1
  {
    StillToInsert(inst, before, deleted, k, whole);
    ReinsertedIs(inst, before, deleted[k]);
  }

  /** The evaluations of `n` best insertions into a schedule growing from `base` jobs: `base + 1`, `base + 2`, ... */
  function Insertions(base: nat, n: nat): nat {
    if n == 0 then 0 else Insertions(base, n - 1) + base + n
  }

  /** The construction phase: the deleted jobs reinserted in deletion order, each at its best place. */
  method Construct(m: Makespan, rest: seq<nat>, restSpan: nat, deleted: seq<nat>, ghost whole: seq<nat>)
    returns (schedule: seq<nat>, span: nat)
    requires Schedulable(m.instance, whole) && multiset(rest) + multiset(deleted) == multiset(whole)
    requires Scored(m.instance, rest, restSpan)
    modifies m
    ensures schedule == Rebuilt(m.instance, rest, deleted, |deleted|, whole)
    ensures multiset(schedule) == multiset(whole) && Scored(m.instance, schedule, span)
    ensures m.count == old(m.count) + Insertions(|rest|, |deleted|)
  {
    schedule, span := rest, restSpan;
    for k := 0 to |deleted|
      invariant schedule == Rebuilt(m.instance, rest, deleted, k, whole)
      invariant Scored(m.instance, schedule, span)
      invariant m.count == old(m.count) + Insertions(|rest|, k)
    {
      var job := deleted[k];
      StillToInsert(m.instance, schedule, deleted, k, whole);
      schedule, span := Reinsert(m, schedule, job);
      ReinsertedIs(m.instance, Rebuilt(m.instance, rest, deleted, k, whole), job);
    }
    assert deleted[|deleted|..] == [];
  }

  /** The next deleted job can be inserted into the partial schedule built so far. */
  lemma StillToInsert(inst: Instance, schedule: seq<nat>, deleted: seq<nat>, k: nat, whole: seq<nat>)
    requires Schedulable(inst, whole) && k < |deleted|
    requires multiset(schedule) + multiset(deleted[k..]) == multiset(whole)
    ensures Insertable(inst, [deleted[k]], schedule)
    ensures multiset(schedule) + multiset{deleted[k]} + multiset(deleted[k + 1..]) == multiset(whole)
  {
    assert deleted[k..] == [deleted[k]] + deleted[k + 1..];
    SubSchedulable(inst, [deleted[k]] + schedule, whole);
  }

  /** `is_terminated` when it counts evaluations: the evaluations since `startCount` reach the allowance. */
  predicate IsTerminated(currentCount: nat, startCount: nat, allowedCount: nat)
    requires startCount <= currentCount
  {
    currentCount - startCount >= allowedCount
  }

  /** Destruction then construction: `d` drawn jobs taken out of `current` and reinserted in that order, each at its best place. */
  method Perturb(m: Makespan, d: nat, current: seq<nat>, currentSpan: nat)
    returns (perturbed: seq<nat>, perturbedSpan: nat, ghost drawn: seq<nat>)
    requires Scored(m.instance, current, currentSpan) && d < |current|
    modifies m
    ensures m.count == old(m.count) + d + Insertions(|current| - d, d)
    ensures m.count >= old(m.count)
    ensures Scored(m.instance, perturbed, perturbedSpan) && multiset(perturbed) == multiset(current)
    ensures Removable(|current|, drawn) && |drawn| == d
    ensures perturbed == Rebuilt(m.instance, Remaining(current, drawn), RemovedJobs(current, drawn), d, current)
  {
    var rest, restSpan, deleted;
    rest, restSpan, deleted, drawn := Destroy(m, current, currentSpan, d);
    perturbed, perturbedSpan := Construct(m, rest, restSpan, deleted, current);
  }

  /**
   * One iteration of the main loop: destruction, construction and local
   * search turn `current` into `permutation` and then `candidate`. A
   * candidate strictly better than current becomes current, and best too
   * when it beats best; otherwise the acceptance test may make the
   * perturbed schedule (as it was before its local search) current.
   */
  method Iterate(m: Makespan, d: nat, current: seq<nat>, currentSpan: nat, best: seq<nat>, bestSpan: nat)
    returns (current': seq<nat>, currentSpan': nat, best': seq<nat>, bestSpan': nat,
             ghost permutation: seq<nat>, ghost candidate: seq<nat>, ghost drawn: seq<nat>, ghost picks: seq<nat>)
    requires Scored(m.instance, current, currentSpan) && d < |current|
    requires Scored(m.instance, best, bestSpan) && bestSpan <= currentSpan
    modifies m
    ensures m.count > old(m.count)
    ensures Schedulable(m.instance, permutation) && multiset(permutation) == multiset(current)
    ensures Removable(|current|, drawn) && |drawn| == d
    ensures permutation == Rebuilt(m.instance, Remaining(current, drawn), RemovedJobs(current, drawn), d, current)
    ensures |picks| == |permutation| / 5 && SearchedBy(m.instance, permutation, picks, candidate)
    ensures Schedulable(m.instance, candidate) && NoWorse(m.instance, permutation, candidate, Span(m.instance, candidate))
    ensures Span(m.instance, candidate) < currentSpan ==> current' == candidate
    ensures Span(m.instance, candidate) >= currentSpan ==> current' == current || current' == permutation
    ensures best' == (if Span(m.instance, candidate) < currentSpan && Span(m.instance, candidate) < bestSpan
                      then candidate else best)
    ensures Scored(m.instance, current', currentSpan') && multiset(current') == multiset(current)
    ensures Scored(m.instance, best', bestSpan') && bestSpan' <= bestSpan && bestSpan' <= currentSpan'
  {
    var perturbed, perturbedSpan;
    perturbed, perturbedSpan, drawn := Perturb(m, d, current, currentSpan);
    permutation := perturbed;
    ghost var tried;
    var newSchedule, newSpan;
    newSchedule, newSpan, tried, picks := Improve(m, perturbed);
    candidate := newSchedule;
    current', currentSpan', best', bestSpan' :=
      Accept(m.instance, current, currentSpan, best, bestSpan, perturbed, perturbedSpan, newSchedule, newSpan);
  }

  /**
   * The end of an iteration: a candidate strictly better than current
   * becomes current, and best too when it beats best; otherwise the
   * acceptance test (an arbitrary choice here) may make the perturbed
   * schedule current.
   */
  method Accept(inst: Instance, current: seq<nat>, currentSpan: nat, best: seq<nat>, bestSpan: nat,
                perturbed: seq<nat>, perturbedSpan: nat, candidate: seq<nat>, candidateSpan: nat)
    returns (current': seq<nat>, currentSpan': nat, best': seq<nat>, bestSpan': nat)
    requires Scored(inst, current, currentSpan) && Scored(inst, best, bestSpan) && bestSpan <= currentSpan
    requires Scored(inst, perturbed, perturbedSpan) && multiset(perturbed) == multiset(current)
    requires Scored(inst, candidate, candidateSpan) && multiset(candidate) == multiset(current)
    requires candidateSpan <= perturbedSpan
    ensures candidateSpan < currentSpan ==> current' == candidate
    ensures candidateSpan >= currentSpan ==> current' == current || current' == perturbed
    ensures best' == (if candidateSpan < currentSpan && candidateSpan < bestSpan then candidate else best)
    ensures Scored(inst, current', currentSpan') && multiset(current') == multiset(current)
    ensures Scored(inst, best', bestSpan') && bestSpan' <= bestSpan && bestSpan' <= currentSpan'
  {
    current', currentSpan', best', bestSpan' := current, currentSpan, best, bestSpan;
    if currentSpan > candidateSpan {
      current', currentSpan' := candidate, candidateSpan;
      if bestSpan > currentSpan' {
        best', bestSpan' := current', currentSpan';
      }
    } else {
      var accept: bool :| true;
      if accept {
        current', currentSpan' := perturbed, perturbedSpan;
      }
    }
  }

  /** The schedule the search starts from: the one given, or a permutation of all jobs (NEH's) when none is. */
  predicate Starts(inst: Instance, schedule: Option<seq<nat>>, start: seq<nat>) {
    match schedule
    case Some(s) => start == s
    case None => IsPermutation(start, inst.jobs)
  }

  /** The `match schedule` at the start of `iterated_greedy`: the given schedule, or NEH's. */
  method Initial(m: Makespan, schedule: Option<seq<nat>>) returns (start: seq<nat>)
    requires m.instance.Valid()
    requires schedule.Some? ==> Schedulable(m.instance, schedule.value)
    requires schedule.None? ==> 0 < m.instance.jobs
    modifies m
    ensures Starts(m.instance, schedule, start) && Schedulable(m.instance, start)
    ensures schedule.None? ==> |start| == m.instance.jobs
    ensures m.count >= old(m.count)
  {
    match schedule {
      case Some(s) =>
        start := s;
      case None =>
        var built, _ := Neh(m);
        PermutationFacts(built, m.instance.jobs);
        start := built;
    }
  }

  /**
   * `iterated_greedy`, evaluations counted: from the local optimum of the
   * starting schedule, iterate until `allowedCount` further evaluations
   * were made. The result is one of the schedules held as current along
   * the way, with the least makespan among them, and a rearrangement of
   * the starting schedule; the first of them is `improved`, the local
   * optimum of the start, so the result is never worse than it.
   */
  method Run(m: Makespan, schedule: Option<seq<nat>>, allowedCount: nat, blockSize: int)
    returns (best: seq<nat>, bestSpan: nat, ghost start: seq<nat>, ghost improved: seq<nat>, ghost held: seq<seq<nat>>)
    requires m.instance.Valid()
    requires schedule.Some? ==> Schedulable(m.instance, schedule.value) && blockSize < |schedule.value|
    requires schedule.None? ==> 0 < m.instance.jobs && blockSize < m.instance.jobs
    modifies m
    ensures Starts(m.instance, schedule, start) && Schedulable(m.instance, start)
    ensures m.count >= old(m.count) + allowedCount
    ensures Scored(m.instance, best, bestSpan) && multiset(best) == multiset(start)
    ensures |held| > 0 && best in held && bestSpan <= Span(m.instance, start)
    ensures held[0] == improved && Schedulable(m.instance, improved) && NoWorse(m.instance, start, improved, Span(m.instance, improved))
    ensures bestSpan <= Span(m.instance, improved)
    ensures forall h: seq<nat> :: h in held ==>
      Schedulable(m.instance, h) && multiset(h) == multiset(start) && bestSpan <= Span(m.instance, h)
  {
    var initial := Initial(m, schedule);
    start := initial;
    var current, currentSpan, _, _ := Improve(m, initial);
    improved := current;
    best, bestSpan := current, currentSpan;
    held := [current];
    var d := if blockSize < 0 then 0 else blockSize;
    PermutationLength(current, start);
    var startCount := m.count;
    while !IsTerminated(m.count, startCount, allowedCount)
      invariant old(m.count) <= startCount <= m.count
      invariant d < |current| && Searching(m.instance, start, current, currentSpan, best, bestSpan, held)
      invariant |held| > 0 && held[0] == improved
      decreases allowedCount - (m.count - startCount)
    {
      current, currentSpan, best, bestSpan, held := Advance(m, d, start, current, currentSpan, best, bestSpan, held);
    }
  }

  /**
   * What the main loop keeps: current and best are scored rearrangements of
   * the start, best is no worse than current, than the start and than every
   * schedule that has been current.
   */
  predicate Searching(inst: Instance, start: seq<nat>, current: seq<nat>, currentSpan: nat,
                      best: seq<nat>, bestSpan: nat, held: seq<seq<nat>>)
  {
    && Scored(inst, current, currentSpan) && multiset(current) == multiset(start)
    && Scored(inst, best, bestSpan) && multiset(best) == multiset(start) && bestSpan <= currentSpan
    && Schedulable(inst, start) && bestSpan <= Span(inst, start)
    && best in held && forall h: seq<nat> :: h in held ==>
         Schedulable(inst, h) && multiset(h) == multiset(start) && bestSpan <= Span(inst, h)
  }

  /** One pass of the main loop: `Iterate`, recording the new current schedule. */
  method Advance(m: Makespan, d: nat, ghost start: seq<nat>, current: seq<nat>, currentSpan: nat,
                 best: seq<nat>, bestSpan: nat, ghost held: seq<seq<nat>>)
    returns (current': seq<nat>, currentSpan': nat, best': seq<nat>, bestSpan': nat, ghost held': seq<seq<nat>>)
    requires d < |current| && Searching(m.instance, start, current, currentSpan, best, bestSpan, held)
    modifies m
    ensures m.count > old(m.count) && held' == held + [current']
    ensures d < |current'| && Searching(m.instance, start, current', currentSpan', best', bestSpan', held')
  {
    ghost var permutation, candidate, drawn, picks;
    current', currentSpan', best', bestSpan', permutation, candidate, drawn, picks :=
      Iterate(m, d, current, currentSpan, best, bestSpan);
    held' := held + [current'];
    PermutationLength(current', current);
  }
}
