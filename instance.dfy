// The hybrid flow-shop problem description (src/common/instance/instance.rs).

module Instances {

  import opened Common

  /** Largest element of `s` (0 for an empty sequence). */
  function MaxOf(s: seq<nat>): (r: nat)
    ensures forall i :: 0 <= i < |s| ==> s[i] <= r
  {
    if s == [] then 0 else Max(s[0], MaxOf(s[1..]))
  }

  function MaxOf2(s: seq<seq<nat>>): (r: nat)
    ensures forall i, j :: 0 <= i < |s| && 0 <= j < |s[i]| ==> s[i][j] <= r
  {
    if s == [] then 0 else Max(MaxOf(s[0]), MaxOf2(s[1..]))
  }

  function MaxOf3(s: seq<seq<seq<nat>>>): (r: nat)
    ensures forall i, j, k :: 0 <= i < |s| && 0 <= j < |s[i]| && 0 <= k < |s[i][j]| ==> s[i][j][k] <= r
  {
    if s == [] then 0 else Max(MaxOf2(s[0]), MaxOf3(s[1..]))
  }

  /**
   * `machines[stage]`, `processing_times[job][stage]` (0: the job skips the
   * stage) and `setup_times[stage][previous_job][job]` (the diagonal is the
   * setup of a machine that has not run yet). Never changed once loaded.
   */
  datatype Instance = Instance(
    jobs: nat,
    stages: nat,
    machines: seq<nat>,
    processingTimes: seq<seq<nat>>,
    setupTimes: seq<seq<seq<nat>>>)
  {
    /** The tables have the dimensions the JSON schema promises, and every stage has a machine. */
    predicate Shaped() {
      && stages >= 1
      && |machines| == stages
      && (forall s :: 0 <= s < stages ==> 1 <= machines[s] <= U32_MAX)
      && |processingTimes| == jobs
      && (forall j :: 0 <= j < jobs ==> |processingTimes[j]| == stages)
      && |setupTimes| == stages
      && (forall s :: 0 <= s < stages ==> |setupTimes[s]| == jobs)
      && (forall s, p :: 0 <= s < stages && 0 <= p < jobs ==> |setupTimes[s][p]| == jobs)
    }

    /** An upper bound on what one dispatch adds to a completion time: processing plus setup. */
    function Step(): nat {
      MaxOf2(processingTimes) + MaxOf3(setupTimes)
    }

    /**
     * Well formed, and small enough that no completion time of a schedule of at
     * most `jobs` jobs reaches `u32::MAX` (every dispatch adds at most Step()).
     */
    predicate Valid() {
      Shaped() && stages * jobs * Step() < U32_MAX
    }

    function P(job: nat, stage: nat): nat
      requires Shaped() && job < jobs && stage < stages
    {
      processingTimes[job][stage]
    }

    function Setup(stage: nat, prev: nat, job: nat): (r: nat)
      requires Shaped() && stage < stages && prev < jobs && job < jobs
      ensures P(job, stage) + r <= Step()
    {
      assert processingTimes[job][stage] <= MaxOf2(processingTimes);
      assert setupTimes[stage][prev][job] <= MaxOf3(setupTimes);
      setupTimes[stage][prev][job]
    }

    /** Total processing time of a job over all stages (`processing_times[job].iter().sum()`). */
    function TotalTime(job: nat): nat
      requires Shaped() && job < jobs
    {
      Sum(processingTimes[job])
    }
  }

  function Sum(s: seq<nat>): nat {
    if s == [] then 0 else s[0] + Sum(s[1..])
  }
}
