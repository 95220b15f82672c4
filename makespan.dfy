// The makespan simulator (src/common/makespan.rs).
//
// A job order is turned, stage by stage, into a job-completion list per stage
// and a run list per machine. The specification is the family of functions
// Chosen / FifoStep / RunStage / StageAt; class Makespan holds the evaluation
// counter and runs the same loops as the source, proved equal to them.

module MakespanEngine {

  import opened Common
  import opened Sorting
  import opened Instances

  /** `(job_number, completion_time)`: an entry of a job-completion or machine run list. */
  datatype Entry = Entry(job: nat, time: nat)

  /** The key of `sort_by_key(|&(_, time)| time)`. */
  function Time(e: Entry): int {
    e.time
  }

  function Jobs(s: seq<Entry>): (r: seq<nat>)
    ensures |r| == |s| && forall i :: 0 <= i < |s| ==> r[i] == s[i].job
  {
    seq(|s|, i requires 0 <= i < |s| => s[i].job)
  }

  predicate JobsBelow(inst: Instance, s: seq<Entry>) {
    forall i :: 0 <= i < |s| ==> s[i].job < inst.jobs
  }

  /** Every machine's run list at a stage refers to jobs of the instance. */
  predicate MachinesBelow(inst: Instance, machines: seq<seq<Entry>>) {
    forall m :: 0 <= m < |machines| ==> JobsBelow(inst, machines[m])
  }

  /**
   * Completion time of `job`, ready at `ready`, on a machine whose run list is
   * `runs`: the machine's last job and ready time, or the job itself and 0 on
   * an idle machine; setup only for a job with non-zero processing time.
   */
  function CompletionOn(inst: Instance, stage: nat, runs: seq<Entry>, job: nat, ready: nat): nat
    requires inst.Shaped() && stage < inst.stages && job < inst.jobs && JobsBelow(inst, runs)
  {
    var prev := if runs == [] then job else Last(runs).job;
    var machineReady := if runs == [] then 0 else Last(runs).time;
    var p := inst.P(job, stage);
    Max(machineReady, ready) + p + (if p == 0 then 0 else inst.Setup(stage, prev, job))
  }

  function Candidates(inst: Instance, stage: nat, machines: seq<seq<Entry>>, job: nat, ready: nat): (r: seq<nat>)
    requires inst.Shaped() && stage < inst.stages && job < inst.jobs && MachinesBelow(inst, machines)
    ensures |r| == |machines|
    ensures forall m :: 0 <= m < |machines| ==> r[m] == CompletionOn(inst, stage, machines[m], job, ready)
  {
    seq(|machines|, m requires 0 <= m < |machines| => CompletionOn(inst, stage, machines[m], job, ready))
  }

  /** `(time, machine)` as returned by `choose_machine_for_job`. */
  datatype Choice = Choice(time: nat, machine: nat)

  /**
   * The machine loop of `choose_machine_for_job` over the candidate times:
   * it starts from `(u32::MAX, 0)` and replaces the best only on a strictly
   * smaller time. The result is the smallest candidate, on its lowest machine.
   */
  function Chosen(cands: seq<nat>): (r: Choice)
    ensures r.time <= U32_MAX
    ensures forall m :: 0 <= m < |cands| ==> r.time <= cands[m]
    ensures r.time < U32_MAX ==>
              r.machine < |cands| && cands[r.machine] == r.time
              && forall m :: 0 <= m < r.machine ==> cands[m] > r.time
    ensures r.time == U32_MAX ==> r.machine == 0
  {
    if cands == [] then Choice(U32_MAX, 0)
    else
      var best := Chosen(cands[..|cands| - 1]);
      if best.time > Last(cands) then Choice(Last(cands), |cands| - 1) else best
  }

  /** One more candidate replaces the choice so far only when it is strictly smaller. */
  lemma ChosenNext(cands: seq<nat>, m: nat)
    requires m < |cands|
    ensures var c := Chosen(cands[..m]);
      Chosen(cands[..m + 1]) == if c.time > cands[m] then Choice(cands[m], m) else c
  {
    assert cands[..m + 1][..m] == cands[..m];
  }

  /** The job-completion list of one stage and the run list of each of its machines. */
  datatype StageState = StageState(completions: seq<Entry>, machines: seq<seq<Entry>>)

  function Idle(count: nat): (r: seq<seq<Entry>>)
    ensures |r| == count && forall m :: 0 <= m < count ==> r[m] == []
  {
    seq(count, m => [])
  }

  predicate StateValid(inst: Instance, stage: nat, st: StageState)
    requires inst.Shaped() && stage < inst.stages
  {
    |st.machines| == inst.machines[stage] && JobsBelow(inst, st.completions) && MachinesBelow(inst, st.machines)
  }

  /**
   * One call of `fifo` at `stage` for job `e.job`, ready at `e.time`. A job
   * that skips the stage goes on no machine and takes the completion time of
   * the entry recorded last at this stage (its own ready time if none).
   */
  function FifoStep(inst: Instance, stage: nat, st: StageState, e: Entry): (r: StageState)
    requires inst.Shaped() && stage < inst.stages && e.job < inst.jobs && StateValid(inst, stage, st)
    ensures StateValid(inst, stage, r)
    ensures |r.completions| == |st.completions| + 1
    ensures r.completions[..|st.completions|] == st.completions && Last(r.completions).job == e.job
  {
    if inst.P(e.job, stage) != 0 then
      var c := Chosen(Candidates(inst, stage, st.machines, e.job, e.time));
      var done := Entry(e.job, c.time);
      StageState(st.completions + [done], st.machines[c.machine := st.machines[c.machine] + [done]])
    else
      var time := if st.completions == [] then e.time else Last(st.completions).time;
      StageState(st.completions + [Entry(e.job, time)], st.machines)
  }

  /** A stage run: `fifo` for each `(job, ready time)` of `dispatch`, in that order. */
  function RunStage(inst: Instance, stage: nat, dispatch: seq<Entry>): (r: StageState)
    requires inst.Shaped() && stage < inst.stages && JobsBelow(inst, dispatch)
    ensures StateValid(inst, stage, r)
    ensures Jobs(r.completions) == Jobs(dispatch)
  {
    if dispatch == [] then StageState([], Idle(inst.machines[stage]))
    else
      var before := RunStage(inst, stage, dispatch[..|dispatch| - 1]);
      var r := FifoStep(inst, stage, before, Last(dispatch));
      assert Jobs(r.completions) == Jobs(before.completions) + [Last(dispatch).job];
      r
  }

  /** `prev_stage_completions` before stage 0: the given order, every job ready at 0. */
  function Released(order: seq<nat>): (r: seq<Entry>)
    ensures |r| == |order| && forall i :: 0 <= i < |order| ==> r[i] == Entry(order[i], 0)
  {
    seq(|order|, i requires 0 <= i < |order| => Entry(order[i], 0))
  }

  /** Stage 0 dispatches in the given order, every later stage by ascending ready time, stably. */
  function Dispatch(stage: nat, prev: seq<Entry>): seq<Entry> {
    if stage == 0 then prev else SortBy(prev, Time)
  }

  /**
   * Stage `s` of the FIFO simulation of `order`: `prev_stage_completions` is
   * the released order at stage 0 and stage `s - 1`'s job-completion list
   * after it; the stage runs `fifo` over it in dispatch order.
   */
  function StageAt(inst: Instance, order: seq<nat>, s: nat): (r: StageState)
    requires inst.Shaped() && s < inst.stages && forall i :: 0 <= i < |order| ==> order[i] < inst.jobs
    ensures multiset(Jobs(r.completions)) == multiset(order)
    decreases s, 2
  {
    RunStage(inst, s, DispatchAt(inst, order, s))
  }

  /** `prev_stage_completions` when stage `s` starts. */
  function Prev(inst: Instance, order: seq<nat>, s: nat): (r: seq<Entry>)
    requires inst.Shaped() && s < inst.stages && forall i :: 0 <= i < |order| ==> order[i] < inst.jobs
    ensures multiset(Jobs(r)) == multiset(order)
    decreases s, 0
  {
    if s == 0 then
      assert Jobs(Released(order)) == order;
      Released(order)
    else StageAt(inst, order, s - 1).completions
  }

  /** The entries of `Prev` in the order in which stage `s` dispatches them. */
  function DispatchAt(inst: Instance, order: seq<nat>, s: nat): (r: seq<Entry>)
    requires inst.Shaped() && s < inst.stages && forall i :: 0 <= i < |order| ==> order[i] < inst.jobs
    ensures multiset(Jobs(r)) == multiset(order) && JobsBelow(inst, r)
    decreases s, 1
  {
    var prev := Prev(inst, order, s);
    var r := Dispatch(s, prev);
    JobsMultiset(prev, r);
    BelowByMultiset(inst, order, r);
    r
  }

  /** The completion time of the last stage's latest job. */
  function MaxTime(s: seq<Entry>): (r: nat)
    requires |s| > 0
    ensures forall i :: 0 <= i < |s| ==> s[i].time <= r
    ensures exists i :: 0 <= i < |s| && s[i].time == r
  {
    if |s| == 1 then s[0].time
    else
      var rest := MaxTime(s[1..]);
      assert forall i :: 1 <= i < |s| ==> s[i] == s[1..][i - 1];
      Max(s[0].time, rest)
  }

  /** Preconditions of `Makespan::makespan`: a non-empty (partial) schedule of distinct job ids. */
  predicate Schedulable(inst: Instance, order: seq<nat>) {
    inst.Valid() && |order| > 0 && DistinctBelow(order, inst.jobs)
  }

  /** The stage results of the FIFO simulation of `order`, stage by stage. */
  function Schedule(inst: Instance, order: seq<nat>): (r: seq<StageState>)
    requires Schedulable(inst, order)
    ensures |r| == inst.stages && forall s :: 0 <= s < inst.stages ==> r[s] == StageAt(inst, order, s)
  {
    seq(inst.stages, s requires 0 <= s < inst.stages => StageAt(inst, order, s))
  }

  /** The makespan of `order`: the largest completion time in the last stage. */
  function MakespanOf(inst: Instance, order: seq<nat>): (r: nat)
    requires Schedulable(inst, order)
    ensures var last := Last(Schedule(inst, order)).completions;
      (forall i :: 0 <= i < |last| ==> last[i].time <= r) && exists i :: 0 <= i < |last| && last[i].time == r
  {
    MaxTime(Last(Schedule(inst, order)).completions)
  }

  function MachineCompletions(inst: Instance, order: seq<nat>): (r: seq<seq<seq<Entry>>>)
    requires Schedulable(inst, order)
  {
    var sched := Schedule(inst, order);
    seq(|sched|, s requires 0 <= s < |sched| => sched[s].machines)
  }


  /** A rearrangement of entries rearranges their jobs. */
  lemma {:induction false} JobsRearranged(a: seq<Entry>, b: seq<Entry>)
    requires multiset(a) == multiset(b)
    ensures multiset(Jobs(a)) == multiset(Jobs(b))
  {
    if a != [] {
      var x := Last(a);
      var a' := a[..|a| - 1];
      assert x in multiset(b) by {
        assert a == a' + [x];
      }
      var k :| 0 <= k < |b| && b[k] == x;
      var b' := RemoveAt(b, k);
      LastRemoved(a, b, k);
      JobsRearranged(a', b');
      JobsLast(a);
      JobsRemoveAt(b, k);
    }
  }

  lemma LastRemoved(a: seq<Entry>, b: seq<Entry>, k: nat)
    requires a != [] && multiset(a) == multiset(b) && k < |b| && b[k] == Last(a)
    ensures multiset(a[..|a| - 1]) == multiset(RemoveAt(b, k))
  {
    var x := Last(a);
    assert a == a[..|a| - 1] + [x];
    assert multiset(a) == multiset(a[..|a| - 1]) + multiset{x};
    RemoveAtMultiset(b, k);
    assert multiset(a[..|a| - 1]) == multiset(a) - multiset{x} == multiset(RemoveAt(b, k));
  }

  lemma JobsLast(a: seq<Entry>)
    requires a != []
    ensures multiset(Jobs(a)) == multiset(Jobs(a[..|a| - 1])) + multiset{Last(a).job}
  {
    assert Jobs(a) == Jobs(a[..|a| - 1]) + [Last(a).job];
  }

  lemma JobsRemoveAt(b: seq<Entry>, k: nat)
    requires k < |b|
    ensures multiset(Jobs(RemoveAt(b, k))) == multiset(Jobs(b)) - multiset{b[k].job}
  {
    assert Jobs(RemoveAt(b, k)) == RemoveAt(Jobs(b), k);
    RemoveAtMultiset(Jobs(b), k);
  }

  /** Both dispatch orders hold the previous stage's entries. */
  lemma JobsMultiset(prev: seq<Entry>, dispatch: seq<Entry>)
    requires dispatch == prev || dispatch == SortBy(prev, Time)
    ensures multiset(Jobs(dispatch)) == multiset(Jobs(prev))
  {
    SortByMultiset(prev, Time);
    JobsRearranged(dispatch, prev);
  }

  lemma BelowByMultiset(inst: Instance, order: seq<nat>, s: seq<Entry>)
    requires forall i :: 0 <= i < |order| ==> order[i] < inst.jobs
    requires multiset(Jobs(s)) == multiset(order)
    ensures JobsBelow(inst, s)
  {
    forall i | 0 <= i < |s| ensures s[i].job < inst.jobs {
      assert Jobs(s)[i] in multiset(order);
    }
  }

  // ---- Bounds: no completion time reaches u32::MAX ----

  predicate TimesAtMost(s: seq<Entry>, bound: nat) {
    forall i :: 0 <= i < |s| ==> s[i].time <= bound
  }

  predicate RunsAtMost(machines: seq<seq<Entry>>, bound: nat) {
    forall m :: 0 <= m < |machines| ==> TimesAtMost(machines[m], bound)
  }

  /**
   * With every machine free by `bound` and the job ready by `bound`, the chosen
   * machine is a real one, the time is its completion time for the job and
   * it is no later than `bound` plus one dispatch.
   */
  lemma ChosenMachine(inst: Instance, stage: nat, machines: seq<seq<Entry>>, job: nat, ready: nat, bound: nat)
    requires inst.Shaped() && stage < inst.stages && job < inst.jobs && MachinesBelow(inst, machines)
    requires |machines| >= 1 && RunsAtMost(machines, bound) && ready <= bound && bound + inst.Step() < U32_MAX
    ensures var c := Chosen(Candidates(inst, stage, machines, job, ready));
      && c.machine < |machines|
      && c.time == CompletionOn(inst, stage, machines[c.machine], job, ready)
      && c.time <= bound + inst.Step()
  {
    var cands := Candidates(inst, stage, machines, job, ready);
    var prev := if machines[0] == [] then job else Last(machines[0]).job;
    var p := inst.P(job, stage);
    assert p + inst.Setup(stage, prev, job) <= inst.Step();
    assert cands[0] <= bound + inst.Step();
  }

  /** One dispatch adds at most Step() to the latest time recorded at the stage. */
  lemma FifoStepBound(inst: Instance, stage: nat, st: StageState, e: Entry, bound: nat)
    requires inst.Shaped() && stage < inst.stages && e.job < inst.jobs && StateValid(inst, stage, st)
    requires TimesAtMost(st.completions, bound) && RunsAtMost(st.machines, bound) && e.time <= bound
    ensures var r := FifoStep(inst, stage, st, e);
      TimesAtMost(r.completions, bound + inst.Step()) && RunsAtMost(r.machines, bound + inst.Step())
  {
    var r := FifoStep(inst, stage, st, e);
    if inst.P(e.job, stage) != 0 {
      var cands := Candidates(inst, stage, st.machines, e.job, e.time);
      var prev := if st.machines[0] == [] then e.job else Last(st.machines[0]).job;
      assert inst.P(e.job, stage) + inst.Setup(stage, prev, e.job) <= inst.Step();
      assert cands[0] <= bound + inst.Step();
      var c := Chosen(cands);
      forall m | 0 <= m < |r.machines| ensures TimesAtMost(r.machines[m], bound + inst.Step()) {
        if m != c.machine {
          assert r.machines[m] == st.machines[m];
        }
      }
    }
  }

  /** `n * step`, as repeated addition: one `step` per dispatch. */
  function Budget(n: nat, step: nat): nat {
    if n == 0 then 0 else Budget(n - 1, step) + step
  }

  lemma {:induction false} RunStageBound(inst: Instance, stage: nat, dispatch: seq<Entry>, bound: nat)
    requires inst.Shaped() && stage < inst.stages && JobsBelow(inst, dispatch)
    requires TimesAtMost(dispatch, bound)
    ensures var r := RunStage(inst, stage, dispatch);
      TimesAtMost(r.completions, bound + Budget(|dispatch|, inst.Step()))
      && RunsAtMost(r.machines, bound + Budget(|dispatch|, inst.Step()))
  {
    if dispatch != [] {
      var t := |dispatch| - 1;
      var d' := dispatch[..t];
      RunStageBound(inst, stage, d', bound);
      var b := bound + Budget(t, inst.Step());
      assert Last(dispatch) == dispatch[t];
      FifoStepBound(inst, stage, RunStage(inst, stage, d'), Last(dispatch), b);
    }
  }

  /** The times of a rearrangement of entries obey the same bound. */
  lemma TimesRearranged(a: seq<Entry>, b: seq<Entry>, bound: nat, bound': nat)
    requires multiset(b) == multiset(a) && TimesAtMost(a, bound) && bound == bound'
    ensures TimesAtMost(b, bound')
  {
    forall i | 0 <= i < |b| ensures b[i].time <= bound {
      assert b[i] in multiset(a);
    }
  }

  // ---- What one stage run guarantees ----

  /** Completion times along a machine's run list strictly increase. */
  predicate Increasing(runs: seq<Entry>) {
    forall i, j :: 0 <= i < j < |runs| ==> runs[i].time < runs[j].time
  }

  predicate AllIncreasing(machines: seq<seq<Entry>>) {
    forall m :: 0 <= m < |machines| ==> Increasing(machines[m])
  }

  lemma FifoStepFacts(inst: Instance, stage: nat, st: StageState, e: Entry, bound: nat)
    requires inst.Shaped() && stage < inst.stages && e.job < inst.jobs && StateValid(inst, stage, st)
    requires RunsAtMost(st.machines, bound) && e.time <= bound && bound + inst.Step() < U32_MAX
    requires AllIncreasing(st.machines)
    ensures var r := FifoStep(inst, stage, st, e);
      && (inst.P(e.job, stage) != 0 ==> Last(r.completions).time >= e.time + inst.P(e.job, stage))
      && AllIncreasing(r.machines)
  {
    var r := FifoStep(inst, stage, st, e);
    var p := inst.P(e.job, stage);
    if p != 0 {
      ChosenMachine(inst, stage, st.machines, e.job, e.time, bound);
      var c := Chosen(Candidates(inst, stage, st.machines, e.job, e.time));
      var runs := st.machines[c.machine];
      if runs != [] {
        assert c.time >= Last(runs).time + p;
      }
      AppendIncreasing(runs, Entry(e.job, c.time));
      assert forall m :: 0 <= m < |r.machines| && m != c.machine ==> r.machines[m] == st.machines[m];
    }
  }

  lemma AppendIncreasing(runs: seq<Entry>, done: Entry)
    requires Increasing(runs) && (runs != [] ==> done.time > Last(runs).time)
    ensures Increasing(runs + [done])
  {
    forall i, j | 0 <= i < j < |runs| + 1 ensures (runs + [done])[i].time < (runs + [done])[j].time {
      if j == |runs| {
        assert runs[i].time <= Last(runs).time;
      }
    }
  }

  /** Running one dispatch further is one more `fifo` call. */
  lemma RunStageNext(inst: Instance, stage: nat, dispatch: seq<Entry>, i: nat)
    requires inst.Shaped() && stage < inst.stages && JobsBelow(inst, dispatch) && i < |dispatch|
    ensures RunStage(inst, stage, dispatch[..i + 1]) == FifoStep(inst, stage, RunStage(inst, stage, dispatch[..i]), dispatch[i])
  {
    assert dispatch[..i + 1][..i] == dispatch[..i];
  }

  /** A stage run is the run of all but the last dispatch, followed by one `fifo` call. */
  lemma RunStageLast(inst: Instance, stage: nat, dispatch: seq<Entry>)
    requires inst.Shaped() && stage < inst.stages && JobsBelow(inst, dispatch) && dispatch != []
    ensures var t := |dispatch| - 1;
      var before := RunStage(inst, stage, dispatch[..t]);
      var r := RunStage(inst, stage, dispatch);
      && r == FifoStep(inst, stage, before, dispatch[t])
      && |r.completions| == |dispatch| && |before.completions| == t
      && Last(r.completions) == r.completions[t]
      && (forall i :: 0 <= i < t ==> r.completions[i] == before.completions[i] && dispatch[..t][i] == dispatch[i])
  {
    var t := |dispatch| - 1;
    var r := RunStage(inst, stage, dispatch);
    var before := RunStage(inst, stage, dispatch[..t]);
    assert |Jobs(r.completions)| == |Jobs(dispatch)|;
    assert |Jobs(before.completions)| == |Jobs(dispatch[..t])|;
    assert r.completions[..t] == before.completions;
    forall i | 0 <= i < t ensures r.completions[i] == before.completions[i] {
      assert r.completions[..t][i] == r.completions[i];
    }
  }

  /** Each entry `c[i]` placed on a machine completes no earlier than `d[i]` is ready plus its processing time. */
  predicate AfterReady(inst: Instance, stage: nat, d: seq<Entry>, c: seq<Entry>)
    requires inst.Shaped() && stage < inst.stages && JobsBelow(inst, d)
  {
    |c| == |d| && forall i :: 0 <= i < |d| && inst.P(d[i].job, stage) != 0 ==> c[i].time >= d[i].time + inst.P(d[i].job, stage)
  }

  /** Extending both lists by one entry that completes late enough keeps them `AfterReady`. */
  lemma AfterReadyStep(inst: Instance, stage: nat, d: seq<Entry>, c: seq<Entry>, before: seq<Entry>)
    requires inst.Shaped() && stage < inst.stages && JobsBelow(inst, d) && d != []
    requires |c| == |d| && |before| == |d| - 1 && forall i :: 0 <= i < |before| ==> c[i] == before[i]
    requires AfterReady(inst, stage, d[..|before|], before)
    requires inst.P(d[|before|].job, stage) != 0 ==> Last(c).time >= d[|before|].time + inst.P(d[|before|].job, stage)
    ensures AfterReady(inst, stage, d, c)
  {
    var t := |before|;
    forall i | 0 <= i < |d| && inst.P(d[i].job, stage) != 0
      ensures c[i].time >= d[i].time + inst.P(d[i].job, stage)
    {
      if i < t {
        assert d[..t][i] == d[i];
      }
    }
  }

  /** One `fifo` call, for the last entry of `d`, keeps the completions after their ready times and the run lists increasing. */
  lemma FifoStepKeeps(inst: Instance, stage: nat, d: seq<Entry>, before: StageState, bound: nat)
    requires inst.Shaped() && stage < inst.stages && JobsBelow(inst, d) && d != []
    requires StateValid(inst, stage, before) && AfterReady(inst, stage, d[..|d| - 1], before.completions)
    requires AllIncreasing(before.machines)
    requires RunsAtMost(before.machines, bound) && Last(d).time <= bound && bound + inst.Step() < U32_MAX
    ensures var r := FifoStep(inst, stage, before, Last(d));
      AfterReady(inst, stage, d, r.completions) && AllIncreasing(r.machines)
  {
    var r := FifoStep(inst, stage, before, Last(d));
    FifoStepFacts(inst, stage, before, Last(d), bound);
    assert forall i :: 0 <= i < |before.completions| ==> r.completions[i] == before.completions[i] by {
      assert r.completions[..|before.completions|] == before.completions;
    }
    AfterReadyStep(inst, stage, d, r.completions, before.completions);
  }

  /**
   * With room below `u32::MAX`, a job placed on a machine completes no earlier
   * than its ready time plus its processing time, and every machine's run
   * list has strictly increasing completion times.
   */
  lemma {:induction false} RunStageFacts(inst: Instance, stage: nat, dispatch: seq<Entry>, bound: nat)
    requires inst.Shaped() && stage < inst.stages && JobsBelow(inst, dispatch)
    requires TimesAtMost(dispatch, bound) && bound + Budget(|dispatch|, inst.Step()) < U32_MAX
    ensures var r := RunStage(inst, stage, dispatch);
      AfterReady(inst, stage, dispatch, r.completions) && AllIncreasing(r.machines)
  {
    if dispatch != [] {
      var t := |dispatch| - 1;
      var d' := dispatch[..t];
      var before := RunStage(inst, stage, d');
      RunStageFacts(inst, stage, d', bound);
      assert TimesAtMost(d', bound) && Budget(t + 1, inst.Step()) == Budget(t, inst.Step()) + inst.Step();
      RunStageBound(inst, stage, d', bound);
      RunStageLast(inst, stage, dispatch);
      FifoStepKeeps(inst, stage, dispatch, before, bound + Budget(t, inst.Step()));
    }
  }

  /**
   * A job with zero processing time at the stage takes the completion time of
   * the entry recorded just before it, or its own ready time when it is first.
   */
  lemma {:induction false} RunStageZero(inst: Instance, stage: nat, dispatch: seq<Entry>)
    requires inst.Shaped() && stage < inst.stages && JobsBelow(inst, dispatch)
    ensures var r := RunStage(inst, stage, dispatch);
      && (|dispatch| > 0 && inst.P(dispatch[0].job, stage) == 0 ==> r.completions[0].time == dispatch[0].time)
      && forall i, j :: 0 <= i && j == i + 1 < |dispatch| && inst.P(dispatch[j].job, stage) == 0 ==>
           r.completions[j].time == r.completions[i].time
  {
    if dispatch != [] {
      var t := |dispatch| - 1;
      var d' := dispatch[..t];
      var before := RunStage(inst, stage, d');
      var r := RunStage(inst, stage, dispatch);
      RunStageZero(inst, stage, d');
      RunStageLast(inst, stage, dispatch);
      var skips := inst.P(dispatch[t].job, stage) == 0;
      if skips {
        FifoStepZero(inst, stage, before, dispatch[t]);
      }
      if t > 0 {
        assert d'[0] == dispatch[0] && r.completions[0] == before.completions[0];
      }
      forall i, j | 0 <= i && j == i + 1 < |dispatch| && inst.P(dispatch[j].job, stage) == 0
        ensures r.completions[j].time == r.completions[i].time
      {
        if j < t {
          assert d'[j] == dispatch[j];
          assert before.completions[j].time == before.completions[i].time;
        } else {
          assert Last(before.completions) == before.completions[i];
        }
      }
    }
  }

  /** A job that skips the stage takes the last recorded completion time, or its own ready time. */
  lemma FifoStepZero(inst: Instance, stage: nat, st: StageState, e: Entry)
    requires inst.Shaped() && stage < inst.stages && e.job < inst.jobs && StateValid(inst, stage, st)
    requires inst.P(e.job, stage) == 0
    ensures Last(FifoStep(inst, stage, st, e).completions).time
              == if st.completions == [] then e.time else Last(st.completions).time
  {
  }

  /** The jobs of all run lists of a stage, machine after machine. */
  function RunJobs(machines: seq<seq<Entry>>): seq<nat> {
    if machines == [] then [] else Jobs(machines[0]) + RunJobs(machines[1..])
  }

  /** The jobs of `jobs` that the stage processes (non-zero processing time), in order. */
  function Placed(inst: Instance, stage: nat, jobs: seq<nat>): seq<nat>
    requires inst.Shaped() && stage < inst.stages && forall i :: 0 <= i < |jobs| ==> jobs[i] < inst.jobs
  {
    if jobs == [] then []
    else Placed(inst, stage, jobs[..|jobs| - 1]) + (if inst.P(Last(jobs), stage) != 0 then [Last(jobs)] else [])
  }

  lemma {:induction false} RunJobsIdle(n: nat)
    ensures RunJobs(Idle(n)) == []
  {
    if n > 0 {
      assert Idle(n)[1..] == Idle(n - 1);
      RunJobsIdle(n - 1);
    }
  }

  lemma {:induction false} RunJobsAppend(ms: seq<seq<Entry>>, m: nat, e: Entry)
    requires m < |ms|
    ensures multiset(RunJobs(ms[m := ms[m] + [e]])) == multiset(RunJobs(ms)) + multiset{e.job}
  {
    var ms' := ms[m := ms[m] + [e]];
    assert ms'[1..] == if m == 0 then ms[1..] else ms[1..][m - 1 := ms[m] + [e]];
    if m == 0 {
      assert Jobs(ms'[0]) == Jobs(ms[0]) + [e.job];
    } else {
      RunJobsAppend(ms[1..], m - 1, e);
    }
  }

  /** The run lists of a stage hold exactly the dispatched jobs with non-zero processing time. */
  lemma {:induction false} RunStageRuns(inst: Instance, stage: nat, dispatch: seq<Entry>)
    requires inst.Shaped() && stage < inst.stages && JobsBelow(inst, dispatch)
    ensures multiset(RunJobs(RunStage(inst, stage, dispatch).machines)) == multiset(Placed(inst, stage, Jobs(dispatch)))
  {
    if dispatch == [] {
      RunJobsIdle(inst.machines[stage]);
    } else {
      var t := |dispatch| - 1;
      var d' := dispatch[..t];
      RunStageRuns(inst, stage, d');
      RunStageNext(inst, stage, dispatch, t);
      assert dispatch[..t + 1] == dispatch;
      FifoStepRuns(inst, stage, RunStage(inst, stage, d'), dispatch[t]);
      PlacedLast(inst, stage, dispatch);
    }
  }

  /** One `fifo` call adds the job to the run lists exactly when it has non-zero processing time. */
  lemma FifoStepRuns(inst: Instance, stage: nat, st: StageState, e: Entry)
    requires inst.Shaped() && stage < inst.stages && e.job < inst.jobs && StateValid(inst, stage, st)
    ensures multiset(RunJobs(FifoStep(inst, stage, st, e).machines))
              == multiset(RunJobs(st.machines)) + (if inst.P(e.job, stage) != 0 then multiset{e.job} else multiset{})
  {
    if inst.P(e.job, stage) != 0 {
      var c := Chosen(Candidates(inst, stage, st.machines, e.job, e.time));
      RunJobsAppend(st.machines, c.machine, Entry(e.job, c.time));
    }
  }

  lemma PlacedLast(inst: Instance, stage: nat, dispatch: seq<Entry>)
    requires inst.Shaped() && stage < inst.stages && JobsBelow(inst, dispatch) && dispatch != []
    ensures var t := |dispatch| - 1;
      multiset(Placed(inst, stage, Jobs(dispatch)))
        == multiset(Placed(inst, stage, Jobs(dispatch[..t])))
           + (if inst.P(dispatch[t].job, stage) != 0 then multiset{dispatch[t].job} else multiset{})
  {
    var t := |dispatch| - 1;
    assert Jobs(dispatch)[..t] == Jobs(dispatch[..t]);
  }

  lemma {:induction false} PlacedMembers(inst: Instance, stage: nat, jobs: seq<nat>, x: nat)
    requires inst.Shaped() && stage < inst.stages && forall i :: 0 <= i < |jobs| ==> jobs[i] < inst.jobs
    ensures x in Placed(inst, stage, jobs) <==> x in jobs && x < inst.jobs && inst.P(x, stage) != 0
  {
    if jobs != [] {
      var p := jobs[..|jobs| - 1];
      PlacedMembers(inst, stage, p, x);
      assert jobs == p + [Last(jobs)];
    }
  }

  lemma {:induction false} PlacedDistinct(inst: Instance, stage: nat, jobs: seq<nat>)
    requires inst.Shaped() && stage < inst.stages && forall i :: 0 <= i < |jobs| ==> jobs[i] < inst.jobs
    requires Distinct(jobs)
    ensures Distinct(Placed(inst, stage, jobs))
  {
    if jobs != [] {
      var p := jobs[..|jobs| - 1];
      PlacedDistinct(inst, stage, p);
      PlacedMembers(inst, stage, p, Last(jobs));
      assert Last(jobs) !in p;
    }
  }

  // ---- The whole schedule, stage by stage ----

  /**
   * Stage 0 dispatches the given order with every job ready at 0; every later
   * stage dispatches the previous stage's completions in ascending completion
   * time, jobs with equal times in their previous order.
   */
  lemma DispatchOrder(inst: Instance, order: seq<nat>, s: nat)
    requires Schedulable(inst, order) && s < inst.stages
    ensures s == 0 ==> DispatchAt(inst, order, s) == Released(order)
    ensures s > 0 ==>
      var prev := StageAt(inst, order, s - 1).completions;
      && multiset(DispatchAt(inst, order, s)) == multiset(prev)
      && SortedBy(DispatchAt(inst, order, s), Time)
      && forall t :: WithKey(DispatchAt(inst, order, s), Time, t) == WithKey(prev, Time, t)
  {
    if s > 0 {
      var prev := StageAt(inst, order, s - 1).completions;
      SortByMultiset(prev, Time);
      SortBySorted(prev, Time);
      forall t ensures WithKey(DispatchAt(inst, order, s), Time, t) == WithKey(prev, Time, t) {
        SortByStable(prev, Time, t);
      }
    }
  }

  /** Every later stage dispatches a rearrangement of the previous stage's completions. */
  lemma DispatchRearranges(inst: Instance, order: seq<nat>, s: nat)
    requires Schedulable(inst, order) && 0 < s < inst.stages
    ensures multiset(DispatchAt(inst, order, s)) == multiset(StageAt(inst, order, s - 1).completions)
  {
    SortByMultiset(StageAt(inst, order, s - 1).completions, Time);
  }

  lemma {:induction false} BudgetMono(a: nat, b: nat, step: nat, step': nat)
    requires a <= b && step <= step'
    ensures Budget(a, step) <= Budget(b, step')
  {
    if b > 0 {
      if a == b {
        BudgetMono(a - 1, b - 1, step, step');
      } else {
        BudgetMono(a, b - 1, step, step');
      }
    }
  }

  lemma {:induction false} BudgetProduct(n: nat, step: nat)
    ensures Budget(n, step) == n * step
  {
    if n > 0 {
      BudgetProduct(n - 1, step);
    }
  }

  /** The bound on the times recorded at stage `s` for `n` jobs: `(s + 1) * n * Step()`. */
  function StageLimit(inst: Instance, s: nat, n: nat): nat {
    Budget(s + 1, Budget(n, inst.Step()))
  }

  /**
   * Stage `s` completes every job within `StageLimit`, stated behind one
   * level of `WithinAt` so that the bound proofs pass it between stages
   * without unfolding the stage simulation; `StageWithinGives` opens it.
   */
  predicate StageWithin(inst: Instance, order: seq<nat>, s: nat)
    requires Schedulable(inst, order) && s < inst.stages
  {
    WithinAt(inst, order, s, 1)
  }

  predicate WithinAt(inst: Instance, order: seq<nat>, s: nat, levels: nat)
    requires Schedulable(inst, order) && s < inst.stages
  {
    if levels == 0 then TimesAtMost(StageAt(inst, order, s).completions, StageLimit(inst, s, |order|))
    else WithinAt(inst, order, s, levels - 1)
  }

  lemma StageWithinGives(inst: Instance, order: seq<nat>, s: nat)
    requires Schedulable(inst, order) && s < inst.stages && StageWithin(inst, order, s)
    ensures TimesAtMost(StageAt(inst, order, s).completions, StageLimit(inst, s, |order|))
  {
    assert WithinAt(inst, order, s, 0);
  }

  lemma StageWithinFrom(inst: Instance, order: seq<nat>, s: nat)
    requires Schedulable(inst, order) && s < inst.stages && TimesAtMost(StageAt(inst, order, s).completions, StageLimit(inst, s, |order|))
    ensures StageWithin(inst, order, s)
  {
    assert WithinAt(inst, order, s, 0);
  }

  /** Stage `s` dispatches every entry ready by `s * n * Step()`, behind one level of `DispatchAtMost`. */
  predicate DispatchWithin(inst: Instance, order: seq<nat>, s: nat)
    requires Schedulable(inst, order) && s < inst.stages
  {
    DispatchAtMost(inst, order, s, 1)
  }

  predicate DispatchAtMost(inst: Instance, order: seq<nat>, s: nat, levels: nat)
    requires Schedulable(inst, order) && s < inst.stages
  {
    if levels == 0 then TimesAtMost(DispatchAt(inst, order, s), Budget(s, Budget(|order|, inst.Step())))
    else DispatchAtMost(inst, order, s, levels - 1)
  }

  lemma DispatchWithinGives(inst: Instance, order: seq<nat>, s: nat)
    requires Schedulable(inst, order) && s < inst.stages && DispatchWithin(inst, order, s)
    ensures TimesAtMost(DispatchAt(inst, order, s), Budget(s, Budget(|order|, inst.Step())))
  {
    assert DispatchAtMost(inst, order, s, 0);
  }

  lemma DispatchWithinFrom(inst: Instance, order: seq<nat>, s: nat)
    requires Schedulable(inst, order) && s < inst.stages && TimesAtMost(DispatchAt(inst, order, s), Budget(s, Budget(|order|, inst.Step())))
    ensures DispatchWithin(inst, order, s)
  {
    assert DispatchAtMost(inst, order, s, 0);
  }

  /**
   * Stage `s` records completion times up to `StageLimit`: stage by stage,
   * each stage dispatches entries within the previous stage's limit and
   * adds at most one Step() per job.
   */
  lemma StageBound(inst: Instance, order: seq<nat>, s: nat)
    requires Schedulable(inst, order) && s < inst.stages
    ensures StageWithin(inst, order, s)
  {
    DispatchAtZero(inst, order);
    StageFromDispatch(inst, order, 0);
    var t := 0;
    while t < s
      invariant t <= s && StageWithin(inst, order, t)
    {
      t := t + 1;
      DispatchFromBound(inst, order, t);
      StageFromDispatch(inst, order, t);
    }
  }

  /** A stage whose dispatch list is within `s * n * Step()` completes within `StageLimit`. */
  lemma StageFromDispatch(inst: Instance, order: seq<nat>, s: nat)
    requires Schedulable(inst, order) && s < inst.stages
    requires DispatchWithin(inst, order, s)
    ensures StageWithin(inst, order, s)
  {
    var n := |order|;
    DispatchWithinGives(inst, order, s);
    var d := DispatchAt(inst, order, s);
    assert |d| == n by {
      assert |Jobs(d)| == |multiset(Jobs(d))| == |multiset(order)|;
    }
    RunStageBound(inst, s, d, Budget(s, Budget(n, inst.Step())));
    StageWithinFrom(inst, order, s);
  }

  /** Stage `s` dispatches entries ready by `s * n * Step()`. */
  lemma DispatchBound(inst: Instance, order: seq<nat>, s: nat)
    requires Schedulable(inst, order) && s < inst.stages
    ensures DispatchWithin(inst, order, s)
  {
    if s == 0 {
      DispatchAtZero(inst, order);
    } else {
      StageBound(inst, order, s - 1);
      DispatchFromBound(inst, order, s);
    }
  }

  /** Stage 0 dispatches the released order, every job ready at 0. */
  lemma DispatchAtZero(inst: Instance, order: seq<nat>)
    requires Schedulable(inst, order)
    ensures DispatchWithin(inst, order, 0)
  {
    assert DispatchAt(inst, order, 0) == Released(order);
    ReleasedAtZero(order, 0);
    DispatchWithinFrom(inst, order, 0);
  }

  /** Sorting the previous stage's completions keeps their bound. */
  lemma DispatchFromBound(inst: Instance, order: seq<nat>, s: nat)
    requires Schedulable(inst, order) && 0 < s < inst.stages
    requires StageWithin(inst, order, s - 1)
    ensures DispatchWithin(inst, order, s)
  {
    var n := |order|;
    StageWithinGives(inst, order, s - 1);
    StageLimitPrev(inst, s, n);
    DispatchRearranges(inst, order, s);
    TimesRearranged(StageAt(inst, order, s - 1).completions, DispatchAt(inst, order, s),
                    StageLimit(inst, s - 1, n), Budget(s, Budget(n, inst.Step())));
    DispatchWithinFrom(inst, order, s);
  }

  lemma ReleasedAtZero(order: seq<nat>, bound: nat)
    ensures TimesAtMost(Released(order), bound)
  {
  }

  lemma StageLimitPrev(inst: Instance, s: nat, n: nat)
    requires s > 0
    ensures StageLimit(inst, s - 1, n) == Budget(s, Budget(n, inst.Step()))
  {
  }

  /** `StageLimit` stays below `u32::MAX`, because `(s + 1) * n <= stages * jobs`. */
  lemma StageRoom(inst: Instance, order: seq<nat>, s: nat)
    requires Schedulable(inst, order) && s < inst.stages
    ensures StageLimit(inst, s, |order|) < U32_MAX
  {
    DistinctBelowLength(order, inst.jobs);
    BudgetMono(|order|, inst.jobs, inst.Step(), inst.Step());
    BudgetMono(s + 1, inst.stages, Budget(|order|, inst.Step()), Budget(inst.jobs, inst.Step()));
    NestedBudget(inst.stages, inst.jobs, inst.Step());
  }

  lemma NestedBudget(a: nat, b: nat, c: nat)
    requires a * b * c < U32_MAX
    ensures Budget(a, Budget(b, c)) < U32_MAX
  {
    BudgetProduct(b, c);
    BudgetProduct(a, b * c);
    assert a * (b * c) == a * b * c;
  }

  /**
   * Timing at stage `s`: a job placed on a machine completes no earlier than
   * its previous-stage completion plus its processing time, completion
   * times along each machine's run list strictly increase, and a job skipping
   * the stage takes the completion time of the entry recorded just before it.
   */
  lemma StageTiming(inst: Instance, order: seq<nat>, s: nat)
    requires Schedulable(inst, order) && s < inst.stages
    ensures var d := DispatchAt(inst, order, s);
      var st := StageAt(inst, order, s);
      && |st.completions| == |d|
      && (forall i :: 0 <= i < |d| ==> st.completions[i].job == d[i].job)
      && (forall i :: 0 <= i < |d| && inst.P(d[i].job, s) != 0 ==>
            st.completions[i].time >= d[i].time + inst.P(d[i].job, s))
      && AllIncreasing(st.machines)
      && (|d| > 0 && inst.P(d[0].job, s) == 0 ==> st.completions[0].time == d[0].time)
      && forall i, j :: 0 <= i && j == i + 1 < |d| && inst.P(d[j].job, s) == 0 ==>
           st.completions[j].time == st.completions[i].time
  {
    var d := DispatchAt(inst, order, s);
    DispatchBound(inst, order, s);
    DispatchWithinGives(inst, order, s);
    StageRoom(inst, order, s);
    assert |d| == |order| by {
      assert |Jobs(d)| == |multiset(Jobs(d))| == |multiset(order)|;
    }
    RunStageFacts(inst, s, d, Budget(s, Budget(|order|, inst.Step())));
    RunStageZero(inst, s, d);
    var st := StageAt(inst, order, s);
    assert forall i :: 0 <= i < |d| ==> Jobs(st.completions)[i] == Jobs(d)[i];
  }

  /**
   * Jobs at stage `s`: the job-completion list holds every job of the order
   * exactly once; the run lists hold no job twice, and a job is on a run list
   * exactly when it is in the order and has non-zero processing time there.
   */
  lemma StageJobs(inst: Instance, order: seq<nat>, s: nat)
    requires Schedulable(inst, order) && s < inst.stages
    ensures var st := StageAt(inst, order, s);
      && multiset(Jobs(st.completions)) == multiset(order)
      && Distinct(RunJobs(st.machines))
      && forall x :: x in RunJobs(st.machines) <==> x in order && inst.P(x, s) != 0
  {
    var d := DispatchAt(inst, order, s);
    var st := StageAt(inst, order, s);
    RunStageRuns(inst, s, d);
    DistinctMultiset(order, Jobs(d));
    PlacedDistinct(inst, s, Jobs(d));
    DistinctMultiset(Placed(inst, s, Jobs(d)), RunJobs(st.machines));
    forall x ensures x in RunJobs(st.machines) <==> x in order && inst.P(x, s) != 0 {
      SameElements(RunJobs(st.machines), Placed(inst, s, Jobs(d)), x);
      PlacedMembers(inst, s, Jobs(d), x);
      SameElements(Jobs(d), order, x);
    }
  }

  /** The makespan always fits below `u32::MAX`, so it never collides with the sentinel. */
  lemma MakespanFits(inst: Instance, order: seq<nat>)
    requires Schedulable(inst, order)
    ensures MakespanOf(inst, order) < U32_MAX
  {
    var s := inst.stages - 1;
    StageBound(inst, order, s);
    StageWithinGives(inst, order, s);
    StageRoom(inst, order, s);
    assert Last(Schedule(inst, order)) == StageAt(inst, order, s);
  }

  // ---- The evaluator ----

  /** `Makespan`: the instance and the number of schedules evaluated so far. */
  class Makespan {
    var count: nat
    const instance: Instance

    constructor(instance: Instance)
      ensures this.instance == instance && count == 0
    {
      this.instance := instance;
      count := 0;
    }

    /**
     * `makespan`: simulates `order` stage by stage and returns the largest
     * completion time of the last stage with every machine's run list;
     * counts one evaluation.
     */
    method Evaluate(order: seq<nat>) returns (makespan: nat, machineCompletions: seq<seq<seq<Entry>>>)
      requires Schedulable(instance, order)
      modifies this
      ensures count == old(count) + 1
      ensures makespan == MakespanOf(instance, order)
      ensures machineCompletions == MachineCompletions(instance, order)
    {
      var inst := instance;
      var jobCompletions: seq<seq<Entry>> := seq(inst.stages, s => []);
      var mc: seq<seq<seq<Entry>>> := seq(inst.stages, s requires 0 <= s < inst.stages => Idle(inst.machines[s]));
      var prev := Released(order);
      var stage := 0;
      while stage < inst.stages
        invariant 0 <= stage <= inst.stages
        invariant Recorded(inst, order, jobCompletions, mc, stage)
        invariant prev == if stage == 0 then Released(order) else jobCompletions[stage - 1]
        invariant count == old(count)
      {
        DispatchFromRecorded(inst, order, jobCompletions, mc, stage, prev);
        if stage != 0 {
          prev := SortBy(prev, Time);
        }
        ghost var before := (jobCompletions, mc);
        jobCompletions, mc := FifoStage(inst, stage, prev, jobCompletions, mc);
        RecordedStep(inst, order, before.0, before.1, stage, prev, jobCompletions, mc);
        prev := jobCompletions[stage];
        stage := stage + 1;
      }
      count := count + 1;
      RecordedEnd(inst, order, jobCompletions, mc);
      RecordedMachines(inst, order, jobCompletions, mc);
      makespan := LatestTime(jobCompletions[|jobCompletions| - 1]);
      machineCompletions := mc;
    }

    /** The `fifo` loop of one stage of `makespan`, over `dispatch` in order. */
    static method FifoStage(inst: Instance, stage: nat, dispatch: seq<Entry>,
                            jobCompletions: seq<seq<Entry>>, machineCompletions: seq<seq<seq<Entry>>>)
      returns (jc: seq<seq<Entry>>, mc: seq<seq<seq<Entry>>>)
      requires inst.Shaped() && stage < inst.stages && JobsBelow(inst, dispatch)
      requires stage < |jobCompletions| && stage < |machineCompletions|
      requires jobCompletions[stage] == [] && machineCompletions[stage] == Idle(inst.machines[stage])
      ensures |jc| == |jobCompletions| && |mc| == |machineCompletions|
      ensures var r := RunStage(inst, stage, dispatch);
        jc == jobCompletions[stage := r.completions] && mc == machineCompletions[stage := r.machines]
    {
      jc, mc := jobCompletions, machineCompletions;
      var i := 0;
      while i < |dispatch|
        invariant 0 <= i <= |dispatch|
        invariant var r := RunStage(inst, stage, dispatch[..i]);
          jc == jobCompletions[stage := r.completions] && mc == machineCompletions[stage := r.machines]
      {
        ghost var before := RunStage(inst, stage, dispatch[..i]);
        ghost var after := RunStage(inst, stage, dispatch[..i + 1]);
        RunStageNext(inst, stage, dispatch, i);
        assert StageState(jc[stage], mc[stage]) == before;
        var jc', mc' := Fifo(inst, dispatch[i], stage, jc, mc);
        UpdateTwice(jobCompletions, jc, jc', stage, before.completions, after.completions);
        UpdateTwice(machineCompletions, mc, mc', stage, before.machines, after.machines);
        jc, mc := jc', mc';
        i := i + 1;
      }
      assert dispatch[..i] == dispatch;
    }

    /**
     * `fifo`: records job `e.job`, ready at `e.time`, at `stage`; a job with
     * non-zero processing time goes on the machine `ChooseMachineForJob` picks.
     */
    static method Fifo(inst: Instance, e: Entry, stage: nat, jobCompletions: seq<seq<Entry>>, machineCompletions: seq<seq<seq<Entry>>>)
      returns (jc: seq<seq<Entry>>, mc: seq<seq<seq<Entry>>>)
      requires inst.Shaped() && stage < inst.stages && e.job < inst.jobs
      requires stage < |jobCompletions| && stage < |machineCompletions|
      requires StateValid(inst, stage, StageState(jobCompletions[stage], machineCompletions[stage]))
      ensures var r := FifoStep(inst, stage, StageState(jobCompletions[stage], machineCompletions[stage]), e);
        jc == jobCompletions[stage := r.completions] && mc == machineCompletions[stage := r.machines]
    {
      var time, machine;
      if inst.P(e.job, stage) != 0 {
        time, machine := ChooseMachineForJob(inst, e.job, stage, e.time, machineCompletions);
      } else {
        time := if jobCompletions[stage] == [] then e.time else Last(jobCompletions[stage]).time;
        machine := U32_MAX;
      }
      jc := jobCompletions[stage := jobCompletions[stage] + [Entry(e.job, time)]];
      mc := machineCompletions;
      if machine != U32_MAX {
        mc := mc[stage := mc[stage][machine := mc[stage][machine] + [Entry(e.job, time)]]];
      }
    }

    /**
     * `choose_machine_for_job`: the smallest completion time of `job`, ready
     * at `ready`, over the machines of `stage`, and the lowest machine
     * attaining it.
     */
    static method ChooseMachineForJob(inst: Instance, job: nat, stage: nat, ready: nat, machineCompletions: seq<seq<seq<Entry>>>)
      returns (time: nat, machine: nat)
      requires inst.Shaped() && stage < inst.stages && job < inst.jobs && stage < |machineCompletions|
      requires MachinesBelow(inst, machineCompletions[stage])
      ensures Choice(time, machine) == Chosen(Candidates(inst, stage, machineCompletions[stage], job, ready))
    {
      var machines := machineCompletions[stage];
      ghost var cands := Candidates(inst, stage, machines, job, ready);
      time, machine := U32_MAX, 0;
      var m := 0;
      while m < |machines|
        invariant 0 <= m <= |machines|
        invariant Choice(time, machine) == Chosen(cands[..m])
      {
        var prevJob, machineReady;
        if machines[m] == [] {
          prevJob, machineReady := job, 0;
        } else {
          prevJob, machineReady := Last(machines[m]).job, Last(machines[m]).time;
        }
        var p := inst.P(job, stage);
        var completion := Max(machineReady, ready) + p + (if p == 0 then 0 else inst.Setup(stage, prevJob, job));
        assert completion == cands[m];
        ChosenNext(cands, m);
        ghost var next := if time > completion then Choice(completion, m) else Choice(time, machine);
        assert next == Chosen(cands[..m + 1]);
        if time > completion {
          time, machine := completion, m;
        }
        assert Choice(time, machine) == next;
        m := m + 1;
      }
      assert cands[..m] == cands;
    }

    /**
     * `choose_fastest_job_and_machine`: over the outstanding entries in order,
     * the best machine of each, keeping a new entry only when it finishes
     * strictly earlier than the best so far.
     */
    static method ChooseFastestJobAndMachine(inst: Instance, stage: nat, outstanding: seq<Entry>,
                                             machineCompletions: seq<seq<seq<Entry>>>)
      returns (pick: Pick)
      requires inst.Shaped() && stage < inst.stages && stage < |machineCompletions|
      requires MachinesBelow(inst, machineCompletions[stage]) && JobsBelow(inst, outstanding)
      ensures pick == Fastest(inst, stage, machineCompletions[stage], outstanding)
    {
      pick := Pick(U32_MAX, 0, 0, U32_MAX);
      var i := 0;
      while i < |outstanding|
        invariant 0 <= i <= |outstanding|
        invariant pick == Fastest(inst, stage, machineCompletions[stage], outstanding[..i])
      {
        var e := outstanding[i];
        var time, machine := ChooseMachineForJob(inst, e.job, stage, e.time, machineCompletions);
        FastestAppend(inst, stage, machineCompletions[stage], outstanding, i);
        if pick.time > time {
          pick := Pick(time, e.job, machine, e.time);
        }
        i := i + 1;
      }
      assert outstanding[..i] == outstanding;
    }

    /**
     * `earliest_completion_time`: records the fastest pick at `stage` and
     * removes its `(job, start)` entry, found by its first position, from the
     * outstanding list.
     */
    static method EarliestCompletionTime(inst: Instance, stage: nat, outstanding: seq<Entry>,
                                         jobCompletions: seq<seq<Entry>>, machineCompletions: seq<seq<seq<Entry>>>)
      returns (rest: seq<Entry>, jc: seq<seq<Entry>>, mc: seq<seq<seq<Entry>>>)
      requires inst.Shaped() && stage < inst.stages && stage < |jobCompletions| && stage < |machineCompletions|
      requires StateValid(inst, stage, StageState(jobCompletions[stage], machineCompletions[stage]))
      requires JobsBelow(inst, outstanding) && outstanding != []
      requires HasRoom(inst, machineCompletions[stage], outstanding, 1)
      ensures EctStepped(inst, stage, jobCompletions, machineCompletions, outstanding, rest, jc, mc)
    {
      ghost var st := StageState(jobCompletions[stage], machineCompletions[stage]);
      var pick := ChooseFastestJobAndMachine(inst, stage, outstanding, machineCompletions);
      EarliestCompletionStep(inst, stage, st, outstanding);
      FastestFirst(inst, stage, st.machines, outstanding, 1);
      var done := Entry(pick.job, pick.time);
      jc := jobCompletions[stage := jobCompletions[stage] + [done]];
      mc := machineCompletions[stage := machineCompletions[stage][pick.machine := machineCompletions[stage][pick.machine] + [done]]];
      var k := PositionOf(outstanding, Entry(pick.job, pick.start));
      rest := outstanding[..k] + outstanding[k + 1..];
    }

    /**
     * The first-complete branch of one stage of `makespan`:
     * `earliest_completion_time` once per job, starting from `prev`.
     */
    static method FirstCompleteStage(inst: Instance, stage: nat, prev: seq<Entry>,
                                     jobCompletions: seq<seq<Entry>>, machineCompletions: seq<seq<seq<Entry>>>)
      returns (jc: seq<seq<Entry>>, mc: seq<seq<seq<Entry>>>)
      requires inst.Shaped() && stage < inst.stages && stage < |jobCompletions| && stage < |machineCompletions|
      requires StateValid(inst, stage, StageState(jobCompletions[stage], machineCompletions[stage]))
      requires JobsBelow(inst, prev) && HasRoom(inst, machineCompletions[stage], prev, |prev|)
      ensures var r := EctRun(inst, stage, StageState(jobCompletions[stage], machineCompletions[stage]), prev);
        jc == jobCompletions[stage := r.completions] && mc == machineCompletions[stage := r.machines]
    {
      EctProgressStart(inst, stage, jobCompletions, machineCompletions, prev);
      jc, mc := EarliestCompletionLoop(inst, stage, prev, jobCompletions, machineCompletions,
                                       EctRun(inst, stage, StageState(jobCompletions[stage], machineCompletions[stage]), prev));
    }

    /** The `for _ in 0..n_jobs` loop of the first-complete branch, on course to finish as `goal`. */
    static method EarliestCompletionLoop(inst: Instance, stage: nat, prev: seq<Entry>,
                                         jobCompletions: seq<seq<Entry>>, machineCompletions: seq<seq<seq<Entry>>>,
                                         ghost goal: StageState)
      returns (jc: seq<seq<Entry>>, mc: seq<seq<seq<Entry>>>)
      requires inst.Shaped() && stage < inst.stages
      requires EctProgress(inst, stage, jobCompletions, machineCompletions, jobCompletions, machineCompletions, prev, goal)
      ensures jc == jobCompletions[stage := goal.completions] && mc == machineCompletions[stage := goal.machines]
    {
      jc, mc := jobCompletions, machineCompletions;
      var outstanding := prev;
      for i := 0 to |prev|
        invariant |outstanding| == |prev| - i
        invariant EctProgress(inst, stage, jobCompletions, machineCompletions, jc, mc, outstanding, goal)
      {
        EctProgressBefore(inst, stage, jobCompletions, machineCompletions, jc, mc, outstanding, goal);
        var rest, jc', mc' := EarliestCompletionTime(inst, stage, outstanding, jc, mc);
        EctProgressStep(inst, stage, jobCompletions, machineCompletions, jc, mc, outstanding, goal, rest, jc', mc');
        outstanding, jc, mc := rest, jc', mc';
      }
      EctProgressEnd(inst, stage, jobCompletions, machineCompletions, jc, mc, outstanding, goal);
    }

    /** `iter().position` of `x` in `s`: its first index, `|s|` when absent. */
    static method PositionOf(s: seq<Entry>, x: Entry) returns (k: nat)
      ensures k == Position(s, x)
    {
      k := 0;
      while k < |s| && s[k] != x
        invariant 0 <= k <= |s|
        invariant forall j :: 0 <= j < k ==> s[j] != x
      {
        k := k + 1;
      }
    }

    /** `max().unwrap()` over the completion times of a non-empty job-completion list. */
    static method LatestTime(completions: seq<Entry>) returns (latest: nat)
      requires |completions| > 0
      ensures latest == MaxTime(completions)
    {
      latest := completions[0].time;
      var i := 1;
      while i < |completions|
        invariant 1 <= i <= |completions|
        invariant forall j :: 0 <= j < i ==> completions[j].time <= latest
        invariant exists j :: 0 <= j < i && completions[j].time == latest
      {
        if completions[i].time > latest {
          latest := completions[i].time;
        }
        i := i + 1;
      }
      MaxTimeUnique(completions, latest);
    }
  }

  /** The latest time is the only value that bounds every time and is attained. */
  lemma MaxTimeUnique(s: seq<Entry>, m: nat)
    requires |s| > 0
    requires forall j :: 0 <= j < |s| ==> s[j].time <= m
    requires exists j :: 0 <= j < |s| && s[j].time == m
    ensures m == MaxTime(s)
  {
  }

  /**
   * The lists of `makespan` after `stage` stages: the first `stage` hold the
   * simulation's results, the others are still empty.
   */
  predicate Recorded(inst: Instance, order: seq<nat>, jc: seq<seq<Entry>>, mc: seq<seq<seq<Entry>>>, stage: nat)
    requires inst.Shaped() && forall i :: 0 <= i < |order| ==> order[i] < inst.jobs
  {
    && stage <= inst.stages && |jc| == |mc| == inst.stages
    && (forall s :: 0 <= s < stage ==> jc[s] == StageAt(inst, order, s).completions && mc[s] == StageAt(inst, order, s).machines)
    && (forall s :: stage <= s < inst.stages ==> jc[s] == [] && mc[s] == Idle(inst.machines[s]))
  }

  /** What `makespan` dispatches at `stage` is the simulation's dispatch list. */
  lemma DispatchFromRecorded(inst: Instance, order: seq<nat>, jc: seq<seq<Entry>>, mc: seq<seq<seq<Entry>>>, stage: nat,
                             prev: seq<Entry>)
    requires inst.Shaped() && forall i :: 0 <= i < |order| ==> order[i] < inst.jobs
    requires stage < inst.stages && Recorded(inst, order, jc, mc, stage)
    requires prev == if stage == 0 then Released(order) else jc[stage - 1]
    ensures Dispatch(stage, prev) == DispatchAt(inst, order, stage)
    ensures JobsBelow(inst, Dispatch(stage, prev))
  {
  }

  lemma RecordedStep(inst: Instance, order: seq<nat>, jc: seq<seq<Entry>>, mc: seq<seq<seq<Entry>>>, stage: nat,
                     dispatch: seq<Entry>, jc': seq<seq<Entry>>, mc': seq<seq<seq<Entry>>>)
    requires inst.Shaped() && forall i :: 0 <= i < |order| ==> order[i] < inst.jobs
    requires stage < inst.stages && Recorded(inst, order, jc, mc, stage)
    requires dispatch == DispatchAt(inst, order, stage)
    requires var r := RunStage(inst, stage, dispatch);
      jc' == jc[stage := r.completions] && mc' == mc[stage := r.machines]
    ensures Recorded(inst, order, jc', mc', stage + 1)
  {
  }

  lemma RecordedEnd(inst: Instance, order: seq<nat>, jc: seq<seq<Entry>>, mc: seq<seq<seq<Entry>>>)
    requires Schedulable(inst, order) && Recorded(inst, order, jc, mc, inst.stages)
    ensures |jc| > 0 && |Last(jc)| > 0 && MaxTime(Last(jc)) == MakespanOf(inst, order)
  {
    var s := inst.stages - 1;
    var last := StageAt(inst, order, s);
    assert jc[s] == last.completions;
    assert Last(jc) == jc[s];
    assert Last(Schedule(inst, order)) == last;
    assert |Jobs(last.completions)| == |multiset(order)|;
  }

  lemma RecordedMachines(inst: Instance, order: seq<nat>, jc: seq<seq<Entry>>, mc: seq<seq<seq<Entry>>>)
    requires Schedulable(inst, order) && Recorded(inst, order, jc, mc, inst.stages)
    ensures mc == MachineCompletions(inst, order)
  {
    var sched := Schedule(inst, order);
    assert forall s :: 0 <= s < |mc| ==> mc[s] == sched[s].machines;
  }

  // ---- The first-complete regime ----

  /** `(time, job, machine, start)` as returned by `choose_fastest_job_and_machine`. */
  datatype Pick = Pick(time: nat, job: nat, machine: nat, start: nat)

  /** The best completion time of outstanding entry `e` over the stage's machines. */
  function BestTime(inst: Instance, stage: nat, machines: seq<seq<Entry>>, e: Entry): nat
    requires inst.Shaped() && stage < inst.stages && e.job < inst.jobs && MachinesBelow(inst, machines)
  {
    Chosen(Candidates(inst, stage, machines, e.job, e.time)).time
  }

  /** The best completion time of every outstanding entry, in outstanding order. */
  function BestTimes(inst: Instance, stage: nat, machines: seq<seq<Entry>>, outstanding: seq<Entry>): (r: seq<nat>)
    requires inst.Shaped() && stage < inst.stages && MachinesBelow(inst, machines) && JobsBelow(inst, outstanding)
    ensures |r| == |outstanding|
    ensures forall i :: 0 <= i < |outstanding| ==> r[i] == BestTime(inst, stage, machines, outstanding[i])
  {
    seq(|outstanding|, i requires 0 <= i < |outstanding| => BestTime(inst, stage, machines, outstanding[i]))
  }

  /**
   * The loop of `choose_fastest_job_and_machine`: it starts from
   * `(u32::MAX, 0, 0, u32::MAX)` and takes an entry's best machine only when
   * its time is strictly smaller, so it ends on the first entry with the
   * smallest best time (the `Chosen` position among the best times).
   */
  function Fastest(inst: Instance, stage: nat, machines: seq<seq<Entry>>, outstanding: seq<Entry>): (p: Pick)
    requires inst.Shaped() && stage < inst.stages && MachinesBelow(inst, machines) && JobsBelow(inst, outstanding)
    ensures p.time < U32_MAX ==> p.job < inst.jobs
  {
    var c := Chosen(BestTimes(inst, stage, machines, outstanding));
    if c.time < U32_MAX then
      var e := outstanding[c.machine];
      Pick(c.time, e.job, Chosen(Candidates(inst, stage, machines, e.job, e.time)).machine, e.time)
    else Pick(U32_MAX, 0, 0, U32_MAX)
  }

  /** The first position holding `x`, `|s|` when there is none (`iter().position`). */
  function Position(s: seq<Entry>, x: Entry): (r: nat)
    ensures r <= |s| && (r < |s| ==> s[r] == x) && forall i :: 0 <= i < r ==> s[i] != x
    ensures x in s ==> r < |s|
  {
    if s == [] then 0
    else if s[0] == x then 0
    else 1 + Position(s[1..], x)
  }

  /** Every machine and every outstanding entry free by `u32::MAX - 1 - n * Step()`. */
  predicate HasRoom(inst: Instance, machines: seq<seq<Entry>>, outstanding: seq<Entry>, n: nat) {
    && Budget(n, inst.Step()) < U32_MAX
    && RunsAtMost(machines, U32_MAX - 1 - Budget(n, inst.Step()))
    && TimesAtMost(outstanding, U32_MAX - 1 - Budget(n, inst.Step()))
  }

  /**
   * One call of `earliest_completion_time`: the fastest job goes on its
   * machine and into the job-completion list, and its `(job, start)` entry
   * leaves the outstanding list.
   */
  function EctStep(inst: Instance, stage: nat, st: StageState, outstanding: seq<Entry>): (r: (StageState, seq<Entry>))
    requires inst.Shaped() && stage < inst.stages && StateValid(inst, stage, st) && JobsBelow(inst, outstanding)
    requires outstanding != [] && HasRoom(inst, st.machines, outstanding, 1)
    ensures StateValid(inst, stage, r.0) && JobsBelow(inst, r.1) && |r.1| == |outstanding| - 1
  {
    var p := Fastest(inst, stage, st.machines, outstanding);
    RoomForPick(inst, stage, st.machines, outstanding, 1);
    FastestFirst(inst, stage, st.machines, outstanding, 1);
    var k := Position(outstanding, Entry(p.job, p.start));
    var done := Entry(p.job, p.time);
    assert done.job < inst.jobs;
    PushValid(inst, stage, st, done, p.machine);
    (StageState(st.completions + [done], st.machines[p.machine := st.machines[p.machine] + [done]]),
     RemoveAt(outstanding, k))
  }

  /** Recording a job on machine `m` keeps the stage state well formed. */
  lemma PushValid(inst: Instance, stage: nat, st: StageState, done: Entry, m: nat)
    requires inst.Shaped() && stage < inst.stages && StateValid(inst, stage, st)
    requires done.job < inst.jobs && m < |st.machines|
    ensures StateValid(inst, stage, StageState(st.completions + [done], st.machines[m := st.machines[m] + [done]]))
  {
  }

  /** With room below `u32::MAX`, `Fastest` takes a real entry, on a real machine, within one Step() of the bound. */
  lemma RoomForPick(inst: Instance, stage: nat, machines: seq<seq<Entry>>, outstanding: seq<Entry>, n: nat)
    requires inst.Shaped() && stage < inst.stages && MachinesBelow(inst, machines) && JobsBelow(inst, outstanding)
    requires |machines| == inst.machines[stage] && outstanding != [] && n >= 1 && HasRoom(inst, machines, outstanding, n)
    ensures var p := Fastest(inst, stage, machines, outstanding);
      var c := Chosen(BestTimes(inst, stage, machines, outstanding));
      && c.time < U32_MAX && c.machine < |outstanding| && outstanding[c.machine] == Entry(p.job, p.start)
      && p.time <= U32_MAX - 1 - Budget(n - 1, inst.Step())
      && p.machine < |machines| && p.time == CompletionOn(inst, stage, machines[p.machine], p.job, p.start)
  {
    var bound := U32_MAX - 1 - Budget(n, inst.Step());
    var times := BestTimes(inst, stage, machines, outstanding);
    var e := outstanding[0];
    ChosenMachine(inst, stage, machines, e.job, e.time, bound);
    var c := Chosen(times);
    assert c.time <= times[0] < U32_MAX;
    var pe := outstanding[c.machine];
    ChosenMachine(inst, stage, machines, pe.job, pe.time, bound);
  }

  /**
   * With room below `u32::MAX`, `Fastest` takes the first outstanding entry
   * with the smallest best completion time, and `iter().position` finds that
   * very entry.
   */
  lemma FastestFirst(inst: Instance, stage: nat, machines: seq<seq<Entry>>, outstanding: seq<Entry>, n: nat)
    requires inst.Shaped() && stage < inst.stages && MachinesBelow(inst, machines) && JobsBelow(inst, outstanding)
    requires |machines| == inst.machines[stage] && outstanding != [] && n >= 1 && HasRoom(inst, machines, outstanding, n)
    ensures var p := Fastest(inst, stage, machines, outstanding);
      var k := Position(outstanding, Entry(p.job, p.start));
      && k == Chosen(BestTimes(inst, stage, machines, outstanding)).machine
      && k < |outstanding| && outstanding[k] == Entry(p.job, p.start)
      && (forall i :: 0 <= i < |outstanding| ==> p.time <= BestTimes(inst, stage, machines, outstanding)[i])
      && (forall i :: 0 <= i < k ==> BestTimes(inst, stage, machines, outstanding)[i] > p.time)
  {
    RoomForPick(inst, stage, machines, outstanding, n);
    FirstMinimumPosition(BestTimes(inst, stage, machines, outstanding), outstanding);
  }

  /**
   * When equal entries have equal times, the first entry attaining the smallest
   * time is also the first occurrence of that entry.
   */
  lemma FirstMinimumPosition(times: seq<nat>, s: seq<Entry>)
    requires |times| == |s| && forall i, j :: 0 <= i < |s| && 0 <= j < |s| && s[i] == s[j] ==> times[i] == times[j]
    requires Chosen(times).time < U32_MAX
    ensures Position(s, s[Chosen(times).machine]) == Chosen(times).machine
  {
    var k := Chosen(times).machine;
    forall m | 0 <= m < k ensures s[m] != s[k] {
      assert times[m] > times[k];
    }
  }

  /**
   * One `earliest_completion_time` step records the fastest pick on its
   * machine and in the job-completion list, and exactly the picked entry (the
   * first with the smallest best time) leaves the outstanding list.
   */
  lemma EarliestCompletionStep(inst: Instance, stage: nat, st: StageState, outstanding: seq<Entry>)
    requires inst.Shaped() && stage < inst.stages && StateValid(inst, stage, st) && JobsBelow(inst, outstanding)
    requires outstanding != [] && HasRoom(inst, st.machines, outstanding, 1)
    ensures var p := Fastest(inst, stage, st.machines, outstanding);
      var k := Chosen(BestTimes(inst, stage, st.machines, outstanding)).machine;
      var r := EctStep(inst, stage, st, outstanding);
      && k < |outstanding| && outstanding[k] == Entry(p.job, p.start)
      && r.1 == RemoveAt(outstanding, k)
      && p.machine < |st.machines| && p.time == CompletionOn(inst, stage, st.machines[p.machine], p.job, p.start)
      && r.0 == StageState(st.completions + [Entry(p.job, p.time)],
                           st.machines[p.machine := st.machines[p.machine] + [Entry(p.job, p.time)]])
  {
    RoomForPick(inst, stage, st.machines, outstanding, 1);
    FastestFirst(inst, stage, st.machines, outstanding, 1);
  }

  /**
   * The pick has the smallest completion time over every outstanding entry
   * and every machine; entries before the picked one, and machines before the
   * picked machine, would all finish strictly later.
   */
  lemma FastestSmallest(inst: Instance, stage: nat, machines: seq<seq<Entry>>, outstanding: seq<Entry>)
    requires inst.Shaped() && stage < inst.stages && MachinesBelow(inst, machines) && JobsBelow(inst, outstanding)
    requires |machines| == inst.machines[stage] && outstanding != [] && HasRoom(inst, machines, outstanding, 1)
    ensures var p := Fastest(inst, stage, machines, outstanding);
      var k := Chosen(BestTimes(inst, stage, machines, outstanding)).machine;
      && (forall i, m :: 0 <= i < |outstanding| && 0 <= m < |machines| ==>
            p.time <= CompletionOn(inst, stage, machines[m], outstanding[i].job, outstanding[i].time))
      && (forall i, m :: 0 <= i < k && 0 <= m < |machines| ==>
            p.time < CompletionOn(inst, stage, machines[m], outstanding[i].job, outstanding[i].time))
  {
    var p := Fastest(inst, stage, machines, outstanding);
    var times := BestTimes(inst, stage, machines, outstanding);
    var k := Chosen(times).machine;
    RoomForPick(inst, stage, machines, outstanding, 1);
    FastestFirst(inst, stage, machines, outstanding, 1);
    forall i, m | 0 <= i < |outstanding| && 0 <= m < |machines|
      ensures p.time <= CompletionOn(inst, stage, machines[m], outstanding[i].job, outstanding[i].time)
      ensures i < k ==> p.time < CompletionOn(inst, stage, machines[m], outstanding[i].job, outstanding[i].time)
    {
      BestTimeAtMost(inst, stage, machines, outstanding[i], m);
    }
  }

  /** An entry's best completion time is no later than its completion on any one machine. */
  lemma BestTimeAtMost(inst: Instance, stage: nat, machines: seq<seq<Entry>>, e: Entry, m: nat)
    requires inst.Shaped() && stage < inst.stages && e.job < inst.jobs && MachinesBelow(inst, machines)
    requires m < |machines|
    ensures BestTime(inst, stage, machines, e) <= CompletionOn(inst, stage, machines[m], e.job, e.time)
  {
    var cands := Candidates(inst, stage, machines, e.job, e.time);
    assert Chosen(cands).time <= cands[m];
  }

  /** Every machine before the picked one would finish the picked entry strictly later. */
  lemma FastestLowestMachine(inst: Instance, stage: nat, machines: seq<seq<Entry>>, outstanding: seq<Entry>)
    requires inst.Shaped() && stage < inst.stages && MachinesBelow(inst, machines) && JobsBelow(inst, outstanding)
    requires |machines| == inst.machines[stage] && outstanding != [] && HasRoom(inst, machines, outstanding, 1)
    ensures var p := Fastest(inst, stage, machines, outstanding);
      && p.time < U32_MAX
      && (forall m :: 0 <= m < p.machine ==> p.time < CompletionOn(inst, stage, machines[m], p.job, p.start))
  {
    var p := Fastest(inst, stage, machines, outstanding);
    var times := BestTimes(inst, stage, machines, outstanding);
    var k := Chosen(times).machine;
    RoomForPick(inst, stage, machines, outstanding, 1);
    var cands := Candidates(inst, stage, machines, p.job, p.start);
    assert outstanding[k] == Entry(p.job, p.start);
    assert p.time == times[k] == Chosen(cands).time;
    forall m | 0 <= m < p.machine ensures p.time < CompletionOn(inst, stage, machines[m], p.job, p.start) {
      assert cands[m] > p.time;
    }
  }

  lemma {:induction false} BudgetSucc(n: nat, step: nat)
    ensures Budget(n + 1, step) == Budget(n, step) + step
  {
  }

  /** Recording an entry within `bound` on a machine keeps every run within `bound`. */
  lemma PushRoom(machines: seq<seq<Entry>>, m: nat, e: Entry, bound: nat)
    requires m < |machines| && RunsAtMost(machines, bound) && e.time <= bound
    ensures RunsAtMost(machines[m := machines[m] + [e]], bound)
  {
    assert TimesAtMost(machines[m], bound);
  }

  /** Removing an entry keeps the rest within their bound. */
  lemma RemoveRoom(s: seq<Entry>, k: nat, bound: nat)
    requires k < |s| && TimesAtMost(s, bound)
    ensures TimesAtMost(RemoveAt(s, k), bound)
  {
  }

  /** A smaller budget leaves a larger bound. */
  lemma RoomMono(inst: Instance, machines: seq<seq<Entry>>, outstanding: seq<Entry>, a: nat, b: nat)
    requires a <= b && HasRoom(inst, machines, outstanding, b)
    ensures HasRoom(inst, machines, outstanding, a)
  {
    BudgetMono(a, b, inst.Step(), inst.Step());
    var bound := U32_MAX - 1 - Budget(a, inst.Step());
    forall m | 0 <= m < |machines| ensures TimesAtMost(machines[m], bound) {
      assert TimesAtMost(machines[m], U32_MAX - 1 - Budget(b, inst.Step()));
    }
  }

  /** After one step the remaining entries still have room for the remaining steps. */
  lemma EctStepRoom(inst: Instance, stage: nat, st: StageState, outstanding: seq<Entry>)
    requires inst.Shaped() && stage < inst.stages && StateValid(inst, stage, st) && JobsBelow(inst, outstanding)
    requires outstanding != [] && HasRoom(inst, st.machines, outstanding, |outstanding|)
    ensures HasRoom(inst, st.machines, outstanding, 1)
    ensures var r := EctStep(inst, stage, st, outstanding);
      HasRoom(inst, r.0.machines, r.1, |outstanding| - 1) && HasRoom(inst, r.0.machines, r.1, |r.1|)
  {
    var n := |outstanding|;
    RoomMono(inst, st.machines, outstanding, 1, n);
    RoomMono(inst, st.machines, outstanding, n - 1, n);
    var p := Fastest(inst, stage, st.machines, outstanding);
    RoomForPick(inst, stage, st.machines, outstanding, n);
    EarliestCompletionStep(inst, stage, st, outstanding);
    var limit := U32_MAX - 1 - Budget(n - 1, inst.Step());
    PushRoom(st.machines, p.machine, Entry(p.job, p.time), limit);
    RemoveRoom(outstanding, Chosen(BestTimes(inst, stage, st.machines, outstanding)).machine, limit);
  }

  /** The first-complete stage loop: `earliest_completion_time` until no entry is outstanding. */
  function EctRun(inst: Instance, stage: nat, st: StageState, outstanding: seq<Entry>): (r: StageState)
    requires inst.Shaped() && stage < inst.stages && StateValid(inst, stage, st) && JobsBelow(inst, outstanding)
    requires HasRoom(inst, st.machines, outstanding, |outstanding|)
    ensures StateValid(inst, stage, r)
    decreases |outstanding|
  {
    if outstanding == [] then st
    else
      EctStepRoom(inst, stage, st, outstanding);
      var next := EctStep(inst, stage, st, outstanding);
      EctRun(inst, stage, next.0, next.1)
  }

  /** One step moves exactly one job from the outstanding list to the stage's completions. */
  lemma EctStepJobs(inst: Instance, stage: nat, st: StageState, outstanding: seq<Entry>)
    requires inst.Shaped() && stage < inst.stages && StateValid(inst, stage, st) && JobsBelow(inst, outstanding)
    requires outstanding != [] && HasRoom(inst, st.machines, outstanding, 1)
    ensures var r := EctStep(inst, stage, st, outstanding);
      && |r.0.completions| == |st.completions| + 1 && r.0.completions[..|st.completions|] == st.completions
      && multiset(Jobs(r.0.completions)) + multiset(Jobs(r.1)) == multiset(Jobs(st.completions)) + multiset(Jobs(outstanding))
  {
    EarliestCompletionStep(inst, stage, st, outstanding);
    var p := Fastest(inst, stage, st.machines, outstanding);
    var k := Chosen(BestTimes(inst, stage, st.machines, outstanding)).machine;
    MoveEntry(st.completions, outstanding, k, Entry(p.job, p.time));
  }

  lemma MoveEntry(done: seq<Entry>, outstanding: seq<Entry>, k: nat, e: Entry)
    requires k < |outstanding| && e.job == outstanding[k].job
    ensures multiset(Jobs(done + [e])) + multiset(Jobs(RemoveAt(outstanding, k)))
            == multiset(Jobs(done)) + multiset(Jobs(outstanding))
  {
    assert Jobs(RemoveAt(outstanding, k)) == RemoveAt(Jobs(outstanding), k);
    RemoveAtMultiset(Jobs(outstanding), k);
    assert Jobs(done + [e]) == Jobs(done) + [e.job];
  }

  /** Every outstanding job is recorded at the stage exactly once, after the jobs already recorded. */
  lemma {:induction false} EctRunJobs(inst: Instance, stage: nat, st: StageState, outstanding: seq<Entry>)
    requires inst.Shaped() && stage < inst.stages && StateValid(inst, stage, st) && JobsBelow(inst, outstanding)
    requires HasRoom(inst, st.machines, outstanding, |outstanding|)
    ensures var r := EctRun(inst, stage, st, outstanding);
      && |r.completions| == |st.completions| + |outstanding|
      && r.completions[..|st.completions|] == st.completions
      && multiset(Jobs(r.completions)) == multiset(Jobs(st.completions)) + multiset(Jobs(outstanding))
    decreases |outstanding|
  {
    if outstanding != [] {
      EctStepRoom(inst, stage, st, outstanding);
      EctStepJobs(inst, stage, st, outstanding);
      var next := EctStep(inst, stage, st, outstanding);
      assert |next.1| == |outstanding| - 1 && StateValid(inst, stage, next.0) && JobsBelow(inst, next.1);
      assert HasRoom(inst, next.0.machines, next.1, |next.1|);
      EctRunJobs(inst, stage, next.0, next.1);
      var r := EctRun(inst, stage, st, outstanding);
      assert r == EctRun(inst, stage, next.0, next.1);
      PrefixOfPrefix(r.completions, next.0.completions, st.completions);
    }
  }

  lemma PrefixOfPrefix(a: seq<Entry>, b: seq<Entry>, c: seq<Entry>)
    requires |c| <= |b| <= |a| && a[..|b|] == b && b[..|c|] == c
    ensures a[..|c|] == c
  {
    assert a[..|c|] == a[..|b|][..|c|];
  }

  /** Extending the outstanding list by one entry is one more strict-improvement step. */
  lemma FastestAppend(inst: Instance, stage: nat, machines: seq<seq<Entry>>, outstanding: seq<Entry>, i: nat)
    requires inst.Shaped() && stage < inst.stages && MachinesBelow(inst, machines) && JobsBelow(inst, outstanding)
    requires i < |outstanding|
    ensures var e := outstanding[i];
      var c := Chosen(Candidates(inst, stage, machines, e.job, e.time));
      var before := Fastest(inst, stage, machines, outstanding[..i]);
      Fastest(inst, stage, machines, outstanding[..i + 1])
        == if before.time > c.time then Pick(c.time, e.job, c.machine, e.time) else before
  {
    var times := BestTimes(inst, stage, machines, outstanding[..i + 1]);
    assert times[..i] == BestTimes(inst, stage, machines, outstanding[..i]);
    assert outstanding[..i + 1][..i] == outstanding[..i];
  }

  /**
   * `rest`, `jc'` and `mc'` are the outstanding list and the completion lists
   * after one `earliest_completion_time` step at `stage`.
   */
  predicate EctStepped(inst: Instance, stage: nat, jc: seq<seq<Entry>>, mc: seq<seq<seq<Entry>>>, outstanding: seq<Entry>,
                       rest: seq<Entry>, jc': seq<seq<Entry>>, mc': seq<seq<seq<Entry>>>)
    requires inst.Shaped() && stage < inst.stages && stage < |jc| && stage < |mc|
    requires StateValid(inst, stage, StageState(jc[stage], mc[stage]))
    requires JobsBelow(inst, outstanding) && outstanding != []
    requires HasRoom(inst, mc[stage], outstanding, 1)
  {
    var r := EctStep(inst, stage, StageState(jc[stage], mc[stage]), outstanding);
    rest == r.1 && jc' == jc[stage := r.0.completions] && mc' == mc[stage := r.0.machines]
  }

  /** The loop state of the first-complete branch: only `stage` changed, still on course to finish as `goal`. */
  predicate EctProgress(inst: Instance, stage: nat, jc0: seq<seq<Entry>>, mc0: seq<seq<seq<Entry>>>,
                        jc: seq<seq<Entry>>, mc: seq<seq<seq<Entry>>>, outstanding: seq<Entry>, goal: StageState)
    requires inst.Shaped() && stage < inst.stages
  {
    && stage < |jc0| && stage < |mc0|
    && |jc| == |jc0| && |mc| == |mc0| && jc == jc0[stage := jc[stage]] && mc == mc0[stage := mc[stage]]
    && var st := StageState(jc[stage], mc[stage]);
    && StateValid(inst, stage, st) && JobsBelow(inst, outstanding)
    && HasRoom(inst, st.machines, outstanding, |outstanding|)
    && EctRun(inst, stage, st, outstanding) == goal
  }

  lemma EctProgressStart(inst: Instance, stage: nat, jc: seq<seq<Entry>>, mc: seq<seq<seq<Entry>>>, prev: seq<Entry>)
    requires inst.Shaped() && stage < inst.stages && stage < |jc| && stage < |mc|
    requires StateValid(inst, stage, StageState(jc[stage], mc[stage]))
    requires JobsBelow(inst, prev) && HasRoom(inst, mc[stage], prev, |prev|)
    ensures EctProgress(inst, stage, jc, mc, jc, mc, prev, EctRun(inst, stage, StageState(jc[stage], mc[stage]), prev))
  {
    assert jc[stage := jc[stage]] == jc;
    assert mc[stage := mc[stage]] == mc;
  }

  lemma EctProgressBefore(inst: Instance, stage: nat, jc0: seq<seq<Entry>>, mc0: seq<seq<seq<Entry>>>,
                          jc: seq<seq<Entry>>, mc: seq<seq<seq<Entry>>>, outstanding: seq<Entry>, goal: StageState)
    requires inst.Shaped() && stage < inst.stages && outstanding != []
    requires EctProgress(inst, stage, jc0, mc0, jc, mc, outstanding, goal)
    ensures stage < |jc| && stage < |mc| && StateValid(inst, stage, StageState(jc[stage], mc[stage]))
    ensures JobsBelow(inst, outstanding) && HasRoom(inst, mc[stage], outstanding, 1)
  {
    EctStepRoom(inst, stage, StageState(jc[stage], mc[stage]), outstanding);
  }

  lemma EctProgressStep(inst: Instance, stage: nat, jc0: seq<seq<Entry>>, mc0: seq<seq<seq<Entry>>>,
                        jc: seq<seq<Entry>>, mc: seq<seq<seq<Entry>>>, outstanding: seq<Entry>, goal: StageState,
                        rest: seq<Entry>, jc': seq<seq<Entry>>, mc': seq<seq<seq<Entry>>>)
    requires inst.Shaped() && stage < inst.stages && outstanding != []
    requires EctProgress(inst, stage, jc0, mc0, jc, mc, outstanding, goal)
    requires HasRoom(inst, mc[stage], outstanding, 1)
    requires EctStepped(inst, stage, jc, mc, outstanding, rest, jc', mc')
    ensures |rest| == |outstanding| - 1
    ensures EctProgress(inst, stage, jc0, mc0, jc', mc', rest, goal)
  {
    var st := StageState(jc[stage], mc[stage]);
    EctStepRoom(inst, stage, st, outstanding);
    var r := EctStep(inst, stage, st, outstanding);
    UpdateAgain(jc0, jc, jc', stage, r.0.completions);
    UpdateAgain(mc0, mc, mc', stage, r.0.machines);
    assert StageState(jc'[stage], mc'[stage]) == r.0;
  }

  /** Two updates of the same position leave only the second. */
  lemma UpdateTwice<T>(s0: seq<T>, s: seq<T>, s': seq<T>, i: nat, v: T, v': T)
    requires i < |s0| && s == s0[i := v] && s' == s[i := v']
    ensures s' == s0[i := v']
  {
  }

  /** Updating position `i` of a sequence that differs from `s0` only at `i` still differs from `s0` only at `i`. */
  lemma UpdateAgain<T>(s0: seq<T>, s: seq<T>, s': seq<T>, i: nat, v: T)
    requires i < |s0| && |s| == |s0| && s == s0[i := s[i]] && s' == s[i := v]
    ensures |s'| == |s0| && s' == s0[i := s'[i]] && s'[i] == v
  {
  }

  lemma EctProgressEnd(inst: Instance, stage: nat, jc0: seq<seq<Entry>>, mc0: seq<seq<seq<Entry>>>,
                       jc: seq<seq<Entry>>, mc: seq<seq<seq<Entry>>>, outstanding: seq<Entry>, goal: StageState)
    requires inst.Shaped() && stage < inst.stages && |outstanding| == 0
    requires EctProgress(inst, stage, jc0, mc0, jc, mc, outstanding, goal)
    ensures jc == jc0[stage := goal.completions] && mc == mc0[stage := goal.machines]
  {
  }
}
