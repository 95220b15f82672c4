// The SHIFT mutation (src/genetic_algorithm/operators/mutation.rs): one job
// is taken out of the schedule and put back at another position.

module Mutation {

  import opened Common
  import opened Chromosomes

  /**
   * `jobs.remove(from)` then `jobs.insert(to, job)`: the job at `from` moves
   * to `to`; the jobs between the two positions close the gap by one place
   * and every other job stays where it was.
   */
  function Shifted(s: seq<nat>, from: nat, to: nat): (r: seq<nat>)
    requires from < |s| && to < |s|
    ensures |r| == |s| && multiset(r) == multiset(s)
    ensures r[to] == s[from]
    ensures forall i :: 0 <= i < |s| && (i < from || i > to) && (i < to || i > from) ==> r[i] == s[i]
    ensures forall i :: from <= i < to ==> r[i] == s[i + 1]
    ensures forall i :: to < i <= from ==> r[i] == s[i - 1]
  {
    var job := s[from];
    var rest := RemoveAt(s, from);
    RemoveAtMultiset(s, from);
    InsertAtMultiset(rest, to, job);
    InsertAt(rest, to, job)
  }

  /** Moving the job back from `to` to `from` restores the schedule. */
  lemma ShiftedBack(s: seq<nat>, from: nat, to: nat)
    requires from < |s| && to < |s|
    ensures Shifted(Shifted(s, from, to), to, from) == s
  {
    var t := Shifted(s, from, to);
    var r := Shifted(t, to, from);
    forall i | 0 <= i < |s|
      ensures r[i] == s[i]
    {
      if i == from {
        assert r[i] == t[to];
      } else if from < i <= to {
        assert r[i] == t[i - 1];
      } else if to <= i < from {
        assert r[i] == t[i + 1];
      } else {
        assert r[i] == t[i];
      }
    }
  }

  /** A move to the same position changes nothing. */
  lemma ShiftedInPlace(s: seq<nat>, i: nat)
    requires i < |s|
    ensures Shifted(s, i, i) == s
  {
    var r := Shifted(s, i, i);
    assert forall k :: 0 <= k < |s| ==> r[k] == s[k];
  }

  /**
   * `SHIFT::apply`: moves the job at the drawn index `from` to the drawn
   * index `to` (both `gen_range(0..len)`); the cached makespan and the flag
   * are left as they were. The job list must not be empty.
   */
  method Shift(c: Chromosome, from: nat, to: nat) returns (r: Chromosome)
    requires from < |c.jobs| && to < |c.jobs|
    ensures r.jobs == Shifted(c.jobs, from, to)
    ensures r.makespan == c.makespan && r.updated == c.updated
  {
    var jobs := c.jobs;
    var job := jobs[from];
    jobs := jobs[..from] + jobs[from + 1..];
    jobs := jobs[..to] + [job] + jobs[to..];
    r := c.(jobs := jobs);
  }
}
