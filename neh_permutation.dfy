// The fixed-order NEH variant (src/common/construction/neh_permutation.rs):
// the NEH job order is dispatched unchanged at every stage, each job to the
// machine `choose_machine_for_job` picks, with no re-sorting by ready time
// and no special case for jobs that skip a stage.

module NehPermutation {

  import opened Common
  import opened Instances
  import opened MakespanEngine
  import opened NEH

  /**
   * `prev_stage_completions.iter().filter(|(j, _)| job == j).next().unwrap().1`:
   * the time of the first entry of `job`.
   */
  function ReadyIn(prev: seq<Entry>, job: nat): nat
    requires job in Jobs(prev)
    decreases |prev|
  {
    assert Jobs(prev) == [prev[0].job] + Jobs(prev[1..]);
    if prev[0].job == job then prev[0].time else ReadyIn(prev[1..], job)
  }

  /** The lookup finds the first entry of the job. */
  lemma {:induction false} ReadyInFirst(prev: seq<Entry>, job: nat)
    requires job in Jobs(prev)
    ensures exists i :: 0 <= i < |prev| && prev[i] == Entry(job, ReadyIn(prev, job))
                        && forall k :: 0 <= k < i ==> prev[k].job != job
    decreases |prev|
  {
    assert Jobs(prev) == [prev[0].job] + Jobs(prev[1..]);
    if prev[0].job != job {
      var rest := prev[1..];
      ReadyInFirst(rest, job);
      var i :| 0 <= i < |rest| && rest[i] == Entry(job, ReadyIn(rest, job))
               && forall k :: 0 <= k < i ==> rest[k].job != job;
      FirstShift(prev, job, i);
    }
  }

  lemma FirstShift(prev: seq<Entry>, job: nat, i: nat)
    requires |prev| > 0 && prev[0].job != job && i < |prev| - 1
    requires forall k :: 0 <= k < i ==> prev[1..][k].job != job
    ensures prev[i + 1] == prev[1..][i]
    ensures forall k :: 0 <= k < i + 1 ==> prev[k].job != job
  {
    assert forall k :: 1 <= k < i + 1 ==> prev[k] == prev[1..][k - 1];
  }

  /** Every job of `order` is an instance job with an entry in `prev`. */
  predicate Dispatchable(inst: Instance, order: seq<nat>, prev: seq<Entry>) {
    forall i :: 0 <= i < |order| ==> order[i] < inst.jobs && order[i] in Jobs(prev)
  }

  /** A non-empty candidate list yields one of its own machines. */
  lemma ChosenInRange(cands: seq<nat>)
    requires |cands| > 0
    ensures Chosen(cands).machine < |cands|
  {
  }

  /**
   * One job of `neh_p` at `stage`: `job`, ready at `ready`, goes on the
   * machine `choose_machine_for_job` picks, whatever its processing time.
   */
  function Assign(inst: Instance, stage: nat, st: StageState, job: nat, ready: nat): (r: StageState)
    requires inst.Shaped() && stage < inst.stages && job < inst.jobs && StateValid(inst, stage, st)
    ensures StateValid(inst, stage, r)
  {
    var cands := Candidates(inst, stage, st.machines, job, ready);
    ChosenInRange(cands);
    var c := Chosen(cands);
    var done := Entry(job, c.time);
    StageState(st.completions + [done], st.machines[c.machine := st.machines[c.machine] + [done]])
  }

  /** A stage of `neh_p`: the jobs of `order`, in that order, each ready at its time in `prev`. */
  function PermStage(inst: Instance, stage: nat, order: seq<nat>, prev: seq<Entry>): (r: StageState)
    requires inst.Shaped() && stage < inst.stages && Dispatchable(inst, order, prev)
    ensures StateValid(inst, stage, r) && Jobs(r.completions) == order
  {
    if order == [] then StageState([], Idle(inst.machines[stage]))
    else
      var job := Last(order);
      DispatchablePrefix(inst, order, prev);
      var before := PermStage(inst, stage, order[..|order| - 1], prev);
      var r := Assign(inst, stage, before, job, ReadyIn(prev, job));
      JobsPush(before.completions, Last(r.completions));
      assert r.completions == before.completions + [Last(r.completions)];
      r
  }

  /** The jobs but the last are still dispatchable, and the last one is too. */
  lemma DispatchablePrefix(inst: Instance, order: seq<nat>, prev: seq<Entry>)
    requires Dispatchable(inst, order, prev) && order != []
    ensures Dispatchable(inst, order[..|order| - 1], prev)
    ensures Last(order) < inst.jobs && Last(order) in Jobs(prev)
    ensures order == order[..|order| - 1] + [Last(order)]
  {
  }

  lemma JobsPush(s: seq<Entry>, e: Entry)
    ensures Jobs(s + [e]) == Jobs(s) + [e.job]
  {
  }

  /** A sequence that lists `order`'s jobs has an entry for each of them. */
  lemma ListedDispatchable(inst: Instance, order: seq<nat>, prev: seq<Entry>)
    requires (forall i :: 0 <= i < |order| ==> order[i] < inst.jobs) && Jobs(prev) == order
    ensures Dispatchable(inst, order, prev)
  {
  }

  /** `prev_stage_completions` when stage `s` of `neh_p` starts. */
  function PermPrev(inst: Instance, order: seq<nat>, s: nat): (r: seq<Entry>)
    requires inst.Shaped() && s < inst.stages && forall i :: 0 <= i < |order| ==> order[i] < inst.jobs
    ensures Jobs(r) == order
    decreases s, 0
  {
    if s == 0 then
      assert Jobs(Released(order)) == order;
      Released(order)
    else PermStageAt(inst, order, s - 1).completions
  }

  /** Stage `s` of `neh_p` on `order`. */
  function PermStageAt(inst: Instance, order: seq<nat>, s: nat): (r: StageState)
    requires inst.Shaped() && s < inst.stages && forall i :: 0 <= i < |order| ==> order[i] < inst.jobs
    ensures StateValid(inst, s, r) && Jobs(r.completions) == order
    decreases s, 1
  {
    var prev := PermPrev(inst, order, s);
    ListedDispatchable(inst, order, prev);
    PermStage(inst, s, order, prev)
  }

  /** The job-completion list of every stage of `neh_p`, stage by stage. */
  function PermStages(inst: Instance, order: seq<nat>): (r: seq<seq<Entry>>)
    requires inst.Shaped() && forall i :: 0 <= i < |order| ==> order[i] < inst.jobs
    ensures |r| == inst.stages && forall s :: 0 <= s < inst.stages ==> r[s] == PermStageAt(inst, order, s).completions
  {
    seq(inst.stages, s requires 0 <= s < inst.stages => PermStageAt(inst, order, s).completions)
  }

  /** The lists one after the other (`iter().flatten()`). */
  function Flatten(ls: seq<seq<Entry>>): seq<Entry> {
    if ls == [] then [] else Flatten(ls[..|ls| - 1]) + Last(ls)
  }

  /** The flattened list holds exactly the entries of the lists. */
  lemma {:induction false} FlattenHas(ls: seq<seq<Entry>>, e: Entry)
    ensures e in Flatten(ls) <==> exists s :: 0 <= s < |ls| && e in ls[s]
  {
    if ls != [] {
      var t := |ls| - 1;
      FlattenHas(ls[..t], e);
      assert forall s :: 0 <= s < t ==> ls[..t][s] == ls[s];
    }
  }

  /** A last non-empty list makes the flattened list non-empty. */
  lemma FlattenNonEmpty(ls: seq<seq<Entry>>)
    requires |ls| > 0 && |Last(ls)| > 0
    ensures |Flatten(ls)| > 0
  {
  }

  /** Flattening one more list appends it. */
  lemma FlattenStep(ls: seq<seq<Entry>>, s: nat)
    requires s < |ls|
    ensures Flatten(ls[..s + 1]) == Flatten(ls[..s]) + ls[s]
  {
    assert ls[..s + 1][..s] == ls[..s];
  }

  /** Every stage lists every job, so the flattened stages are not empty. */
  lemma StagesFlattenNonEmpty(inst: Instance, order: seq<nat>)
    requires inst.Shaped() && |order| > 0 && forall i :: 0 <= i < |order| ==> order[i] < inst.jobs
    ensures |Flatten(PermStages(inst, order))| > 0
  {
    var ls := PermStages(inst, order);
    assert |Jobs(Last(ls))| == |order|;
    FlattenNonEmpty(ls);
  }

  /** The makespan `neh_p` reports: the largest completion time over all stages. */
  function PermSpan(inst: Instance, order: seq<nat>): nat
    requires inst.Shaped() && |order| > 0 && forall i :: 0 <= i < |order| ==> order[i] < inst.jobs
  {
    var ls := PermStages(inst, order);
    assert |Jobs(Last(ls))| == |order|;
    FlattenNonEmpty(ls);
    MaxTime(Flatten(ls))
  }

  /**
   * The reported makespan is the largest completion time of every stage,
   * not only of the last one: it bounds each of them and is one of them.
   */
  lemma PermSpanMax(inst: Instance, order: seq<nat>)
    requires inst.Shaped() && |order| > 0 && forall i :: 0 <= i < |order| ==> order[i] < inst.jobs
    ensures forall s, i :: 0 <= s < inst.stages && 0 <= i < |order| ==>
              PermStageAt(inst, order, s).completions[i].time <= PermSpan(inst, order)
    ensures exists s, i :: 0 <= s < inst.stages && 0 <= i < |order| &&
              PermStageAt(inst, order, s).completions[i].time == PermSpan(inst, order)
  {
    var ls := PermStages(inst, order);
    var all := Flatten(ls);
    var span := PermSpan(inst, order);
    assert span == MaxTime(all);
    forall s, i | 0 <= s < inst.stages && 0 <= i < |order|
      ensures PermStageAt(inst, order, s).completions[i].time <= span
    {
      SpanBounds(ls, all, span, s, i);
    }
    var k :| 0 <= k < |all| && all[k].time == span;
    FlattenHas(ls, all[k]);
    var s :| 0 <= s < |ls| && all[k] in ls[s];
    var i :| 0 <= i < |ls[s]| && ls[s][i] == all[k];
    assert |Jobs(ls[s])| == |order|;
  }

  lemma SpanBounds(ls: seq<seq<Entry>>, all: seq<Entry>, span: nat, s: nat, i: nat)
    requires all == Flatten(ls) && (forall k :: 0 <= k < |all| ==> all[k].time <= span)
    requires s < |ls| && i < |ls[s]|
    ensures ls[s][i].time <= span
  {
    FlattenHas(ls, ls[s][i]);
  }

  // ---- Bounds and timing ----

  /** One assignment adds at most Step() to the latest time recorded at the stage. */
  lemma AssignBound(inst: Instance, stage: nat, st: StageState, job: nat, ready: nat, bound: nat)
    requires inst.Shaped() && stage < inst.stages && job < inst.jobs && StateValid(inst, stage, st)
    requires TimesAtMost(st.completions, bound) && RunsAtMost(st.machines, bound) && ready <= bound
    requires bound + inst.Step() < U32_MAX
    ensures var r := Assign(inst, stage, st, job, ready);
      && TimesAtMost(r.completions, bound + inst.Step()) && RunsAtMost(r.machines, bound + inst.Step())
      && Last(r.completions).time >= ready + inst.P(job, stage)
  {
    var c := Chosen(Candidates(inst, stage, st.machines, job, ready));
    ChosenMachine(inst, stage, st.machines, job, ready, bound);
    var r := Assign(inst, stage, st, job, ready);
    forall m | 0 <= m < |r.machines| ensures TimesAtMost(r.machines[m], bound + inst.Step()) {
      if m != c.machine {
        assert r.machines[m] == st.machines[m];
      }
    }
  }

  /** The ready time the lookup returns is one of the times of `prev`. */
  lemma ReadyInBound(prev: seq<Entry>, job: nat, bound: nat)
    requires job in Jobs(prev) && TimesAtMost(prev, bound)
    ensures ReadyIn(prev, job) <= bound
  {
    ReadyInFirst(prev, job);
  }

  /**
   * A stage run from entries ready by `bound` records times up to `bound`
   * plus one Step() per job, and every job completes no earlier than its
   * ready time plus its processing time, zero-processing jobs included.
   */
  lemma {:induction false} PermStageBound(inst: Instance, stage: nat, order: seq<nat>, prev: seq<Entry>, bound: nat)
    requires inst.Shaped() && stage < inst.stages && Dispatchable(inst, order, prev)
    requires TimesAtMost(prev, bound) && bound + Budget(|order|, inst.Step()) < U32_MAX
    ensures var r := PermStage(inst, stage, order, prev);
      && TimesAtMost(r.completions, bound + Budget(|order|, inst.Step()))
      && RunsAtMost(r.machines, bound + Budget(|order|, inst.Step()))
      && forall i :: 0 <= i < |order| ==> r.completions[i].time >= ReadyIn(prev, order[i]) + inst.P(order[i], stage)
  {
    if order != [] {
      var t := |order| - 1;
      PermStageLast(inst, stage, order, prev);
      var o', job := order[..t], order[t];
      PermStageBound(inst, stage, o', prev, bound);
      var before := PermStage(inst, stage, o', prev);
      ReadyInBound(prev, job, bound);
      AssignBound(inst, stage, before, job, ReadyIn(prev, job), bound + Budget(t, inst.Step()));
      AssignKeeps(inst, stage, before, job, ReadyIn(prev, job));
      TimingExtends(inst, stage, order, prev, before.completions, PermStage(inst, stage, order, prev).completions);
    }
  }

  /** An assignment keeps the entries recorded before it. */
  lemma AssignKeeps(inst: Instance, stage: nat, st: StageState, job: nat, ready: nat)
    requires inst.Shaped() && stage < inst.stages && job < inst.jobs && StateValid(inst, stage, st)
    ensures var r := Assign(inst, stage, st, job, ready).completions;
      |r| == |st.completions| + 1 && r[..|st.completions|] == st.completions
  {
  }

  /** The timing bound holds for the whole stage once it holds for its prefix and its last job. */
  lemma TimingExtends(inst: Instance, stage: nat, order: seq<nat>, prev: seq<Entry>, before: seq<Entry>, after: seq<Entry>)
    requires inst.Shaped() && stage < inst.stages && Dispatchable(inst, order, prev) && order != []
    requires |before| == |order| - 1 && |after| == |order| && after[..|before|] == before
    requires forall i :: 0 <= i < |before| ==> before[i].time >= ReadyIn(prev, order[i]) + inst.P(order[i], stage)
    requires Last(after).time >= ReadyIn(prev, Last(order)) + inst.P(Last(order), stage)
    ensures forall i :: 0 <= i < |order| ==> after[i].time >= ReadyIn(prev, order[i]) + inst.P(order[i], stage)
  {
    forall i | 0 <= i < |order| ensures after[i].time >= ReadyIn(prev, order[i]) + inst.P(order[i], stage) {
      if i < |before| {
        assert after[i] == before[i];
      }
    }
  }

  /** `(s + 1) * n * Step()`, the bound on the times of stage `s` for `n` jobs. */
  lemma {:induction false} PermStageAtBound(inst: Instance, order: seq<nat>, s: nat)
    requires Schedulable(inst, order) && s < inst.stages
    ensures TimesAtMost(PermStageAt(inst, order, s).completions, StageLimit(inst, s, |order|))
    ensures TimesAtMost(PermPrev(inst, order, s), Budget(s, Budget(|order|, inst.Step())))
    decreases s
  {
    var n := |order|;
    var prev := PermPrev(inst, order, s);
    if s == 0 {
      ReleasedAtZero(order, 0);
    } else {
      PermStageAtBound(inst, order, s - 1);
      StageLimitPrev(inst, s, n);
    }
    var bound := Budget(s, Budget(n, inst.Step()));
    assert TimesAtMost(prev, bound);
    StageRoom(inst, order, s);
    assert StageLimit(inst, s, n) == bound + Budget(n, inst.Step());
    ListedDispatchable(inst, order, prev);
    PermStageBound(inst, s, order, prev, bound);
  }

  /**
   * Timing at stage `s`: the stage lists every job of `order`, in that
   * order, and each completes no earlier than its time in the previous
   * stage's list (0 at stage 0) plus its processing time at `s`.
   */
  lemma PermTiming(inst: Instance, order: seq<nat>, s: nat)
    requires Schedulable(inst, order) && s < inst.stages
    ensures var prev, st := PermPrev(inst, order, s), PermStageAt(inst, order, s);
      && |st.completions| == |order|
      && forall i :: 0 <= i < |order| ==>
           && order[i] in Jobs(prev)
           && st.completions[i].job == order[i]
           && st.completions[i].time >= ReadyIn(prev, order[i]) + inst.P(order[i], s)
  {
    var prev := PermPrev(inst, order, s);
    PermStageAtBound(inst, order, s);
    StageRoom(inst, order, s);
    ListedDispatchable(inst, order, prev);
    PermStageBound(inst, s, order, prev, Budget(s, Budget(|order|, inst.Step())));
    var st := PermStageAt(inst, order, s);
    assert forall i :: 0 <= i < |order| ==> Jobs(st.completions)[i] == order[i];
  }

  /** Stage 0 reads every job as ready at 0; a later stage reads the job's completion in the stage before. */
  lemma PermReady(inst: Instance, order: seq<nat>, s: nat, i: nat)
    requires Schedulable(inst, order) && s < inst.stages && i < |order|
    ensures order[i] in Jobs(PermPrev(inst, order, s))
    ensures s == 0 ==> ReadyIn(PermPrev(inst, order, s), order[i]) == 0
    ensures s > 0 ==> ReadyIn(PermPrev(inst, order, s), order[i]) == PermStageAt(inst, order, s - 1).completions[i].time
  {
    var prev := PermPrev(inst, order, s);
    assert Jobs(prev)[i] == order[i];
    ReadyInFirst(prev, order[i]);
    var k :| 0 <= k < |prev| && prev[k] == Entry(order[i], ReadyIn(prev, order[i]))
             && forall j :: 0 <= j < k ==> prev[j].job != order[i];
    assert Jobs(prev)[k] == order[i];
  }

  /** Every job of the stage goes on exactly one machine, zero-processing jobs included. */
  lemma {:induction false} PermStageRuns(inst: Instance, stage: nat, order: seq<nat>, prev: seq<Entry>)
    requires inst.Shaped() && stage < inst.stages && Dispatchable(inst, order, prev)
    ensures multiset(RunJobs(PermStage(inst, stage, order, prev).machines)) == multiset(order)
  {
    if order == [] {
      RunJobsIdle(inst.machines[stage]);
    } else {
      var t := |order| - 1;
      PermStageLast(inst, stage, order, prev);
      PermStageRuns(inst, stage, order[..t], prev);
      AssignRuns(inst, stage, PermStage(inst, stage, order[..t], prev), order[t], ReadyIn(prev, order[t]));
      PopLast(order);
    }
  }

  /** A stage run is the run of all but the last job, followed by that job's assignment. */
  lemma PermStageLast(inst: Instance, stage: nat, order: seq<nat>, prev: seq<Entry>)
    requires inst.Shaped() && stage < inst.stages && Dispatchable(inst, order, prev) && order != []
    ensures var t := |order| - 1;
      && Dispatchable(inst, order[..t], prev) && order[t] in Jobs(prev) && order[t] < inst.jobs
      && PermStage(inst, stage, order, prev)
         == Assign(inst, stage, PermStage(inst, stage, order[..t], prev), order[t], ReadyIn(prev, order[t]))
  {
    assert Dispatchable(inst, order[..|order| - 1], prev);
  }

  /** The stage run of the first `i + 1` jobs is that of the first `i` followed by the assignment of job `i`. */
  lemma PermStagePrefix(inst: Instance, stage: nat, order: seq<nat>, prev: seq<Entry>, i: nat)
    requires inst.Shaped() && stage < inst.stages && Dispatchable(inst, order, prev) && i < |order|
    ensures Dispatchable(inst, order[..i], prev) && Dispatchable(inst, order[..i + 1], prev)
    ensures order[i] < inst.jobs && order[i] in Jobs(prev)
    ensures PermStage(inst, stage, order[..i + 1], prev)
            == Assign(inst, stage, PermStage(inst, stage, order[..i], prev), order[i], ReadyIn(prev, order[i]))
  {
    assert Dispatchable(inst, order[..i + 1], prev);
    PermStageLast(inst, stage, order[..i + 1], prev);
    assert order[..i + 1][..i] == order[..i];
  }

  /** The assignment, spelled out for the time and machine `choose_machine_for_job` returns. */
  lemma AssignIs(inst: Instance, stage: nat, st: StageState, job: nat, ready: nat, time: nat, machine: nat)
    requires inst.Shaped() && stage < inst.stages && job < inst.jobs && StateValid(inst, stage, st)
    requires Choice(time, machine) == Chosen(Candidates(inst, stage, st.machines, job, ready))
    ensures machine < |st.machines|
    ensures Assign(inst, stage, st, job, ready)
            == StageState(st.completions + [Entry(job, time)], st.machines[machine := st.machines[machine] + [Entry(job, time)]])
  {
    ChosenInRange(Candidates(inst, stage, st.machines, job, ready));
  }

  /** An assignment adds its job to exactly one run list. */
  lemma AssignRuns(inst: Instance, stage: nat, st: StageState, job: nat, ready: nat)
    requires inst.Shaped() && stage < inst.stages && job < inst.jobs && StateValid(inst, stage, st)
    ensures multiset(RunJobs(Assign(inst, stage, st, job, ready).machines)) == multiset(RunJobs(st.machines)) + multiset{job}
  {
    var cands := Candidates(inst, stage, st.machines, job, ready);
    ChosenInRange(cands);
    var c := Chosen(cands);
    RunJobsAppend(st.machines, c.machine, Entry(job, c.time));
  }

  // ---- The method ----

  /** The lookup loop of `neh_p`: the first entry of `job` in `prev`. */
  method LookUp(prev: seq<Entry>, job: nat) returns (ready: nat)
    requires job in Jobs(prev)
    ensures ready == ReadyIn(prev, job)
  {
    var k := 0;
    while prev[k].job != job
      invariant 0 <= k < |prev| && job in Jobs(prev[k..]) && ReadyIn(prev[k..], job) == ReadyIn(prev, job)
      decreases |prev| - k
    {
      assert Jobs(prev[k..]) == [prev[k].job] + Jobs(prev[k + 1..]);
      assert prev[k..][1..] == prev[k + 1..];
      k := k + 1;
    }
    assert prev[k..][0] == prev[k];
    ready := prev[k].time;
  }

  /** The job loop of one stage of `neh_p`. */
  method PermStageRun(inst: Instance, stage: nat, order: seq<nat>, prev: seq<Entry>,
                      jobCompletions: seq<seq<Entry>>, machineCompletions: seq<seq<seq<Entry>>>)
    returns (jc: seq<seq<Entry>>, mc: seq<seq<seq<Entry>>>)
    requires inst.Shaped() && stage < inst.stages && Dispatchable(inst, order, prev)
    requires stage < |jobCompletions| && stage < |machineCompletions|
    requires jobCompletions[stage] == [] && machineCompletions[stage] == Idle(inst.machines[stage])
    ensures var r := PermStage(inst, stage, order, prev);
      jc == jobCompletions[stage := r.completions] && mc == machineCompletions[stage := r.machines]
  {
    jc, mc := jobCompletions, machineCompletions;
    for i := 0 to |order|
      invariant var r := PermStage(inst, stage, order[..i], prev);
        jc == jobCompletions[stage := r.completions] && mc == machineCompletions[stage := r.machines]
    {
      PermStagePrefix(inst, stage, order, prev, i);
      ghost var before := PermStage(inst, stage, order[..i], prev);
      ghost var after := PermStage(inst, stage, order[..i + 1], prev);
      var job := order[i];
      var ready := LookUp(prev, job);
      var time, machine := Makespan.ChooseMachineForJob(inst, job, stage, ready, mc);
      AssignIs(inst, stage, before, job, ready, time, machine);
      var done := Entry(job, time);
      var jc', mc' := jc[stage := jc[stage] + [done]], mc[stage := mc[stage][machine := mc[stage][machine] + [done]]];
      UpdateTwice(jobCompletions, jc, jc', stage, before.completions, after.completions);
      UpdateTwice(machineCompletions, mc, mc', stage, before.machines, after.machines);
      jc, mc := jc', mc';
    }
    assert order[..|order|] == order;
  }

  /**
   * The lists of `neh_p` after `stage` stages: the first `stage` hold the
   * stage results, the others are still empty.
   */
  predicate PermRecorded(inst: Instance, order: seq<nat>, jc: seq<seq<Entry>>, mc: seq<seq<seq<Entry>>>, stage: nat)
    requires inst.Shaped() && forall i :: 0 <= i < |order| ==> order[i] < inst.jobs
  {
    && stage <= inst.stages && |jc| == |mc| == inst.stages
    && (forall s :: 0 <= s < stage ==> jc[s] == PermStageAt(inst, order, s).completions && mc[s] == PermStageAt(inst, order, s).machines)
    && (forall s :: stage <= s < inst.stages ==> jc[s] == [] && mc[s] == Idle(inst.machines[s]))
  }

  /** Once every stage is recorded, the job-completion lists are the stages of `neh_p`. */
  lemma RecordedAll(inst: Instance, order: seq<nat>, jc: seq<seq<Entry>>, mc: seq<seq<seq<Entry>>>)
    requires inst.Shaped() && forall i :: 0 <= i < |order| ==> order[i] < inst.jobs
    requires PermRecorded(inst, order, jc, mc, inst.stages)
    ensures jc == PermStages(inst, order)
  {
  }

  lemma PermRecordedStep(inst: Instance, order: seq<nat>, jc: seq<seq<Entry>>, mc: seq<seq<seq<Entry>>>, stage: nat,
                         prev: seq<Entry>, jc': seq<seq<Entry>>, mc': seq<seq<seq<Entry>>>)
    requires inst.Shaped() && forall i :: 0 <= i < |order| ==> order[i] < inst.jobs
    requires stage < inst.stages && PermRecorded(inst, order, jc, mc, stage)
    requires prev == PermPrev(inst, order, stage) && Dispatchable(inst, order, prev)
    requires var r := PermStage(inst, stage, order, prev);
      jc' == jc[stage := r.completions] && mc' == mc[stage := r.machines]
    ensures PermRecorded(inst, order, jc', mc', stage + 1)
  {
  }

  /**
   * `neh_p`: the NEH job order, dispatched in that same order at every
   * stage, and the largest completion time over all stages. The instance
   * must have a job (`max().unwrap()`); the evaluation counter is not
   * touched.
   */
  method NehP(m: Makespan) returns (order: seq<nat>, span: nat)
    requires m.instance.Valid() && m.instance.jobs > 0
    ensures NehOrder(m.instance, order)
    ensures span == PermSpan(m.instance, order)
  {
    var inst := m.instance;
    order := SortJobs(inst);
    PermutationFacts(order, inst.jobs);
    var jc: seq<seq<Entry>> := seq(inst.stages, s => []);
    var mc: seq<seq<seq<Entry>>> := seq(inst.stages, s requires 0 <= s < inst.stages => Idle(inst.machines[s]));
    var prev := Released(order);
    for stage := 0 to inst.stages
      invariant PermRecorded(inst, order, jc, mc, stage)
      invariant stage < inst.stages ==> prev == PermPrev(inst, order, stage)
    {
      ListedDispatchable(inst, order, prev);
      ghost var before := (jc, mc);
      jc, mc := PermStageRun(inst, stage, order, prev, jc, mc);
      PermRecordedStep(inst, order, before.0, before.1, stage, prev, jc, mc);
      prev := jc[stage];
    }
    RecordedAll(inst, order, jc, mc);
    var all := [];
    for s := 0 to inst.stages
      invariant all == Flatten(jc[..s])
    {
      FlattenStep(jc, s);
      all := all + jc[s];
    }
    assert jc[..inst.stages] == jc;
    StagesFlattenNonEmpty(inst, order);
    span := Makespan.LatestTime(all);
  }
}
