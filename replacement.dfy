// Population replacement (src/genetic_algorithm/operators/replacement.rs):
// every strategy keeps the first `always_keep` individuals and overwrites the
// others in place. `always_keep` (the population length times the `keep`
// fraction, truncated) is given directly.

module Replacement {

  import opened Common
  import opened Instances
  import opened MakespanEngine
  import opened Chromosomes
  import opened Mutation
  import opened NEH
  import Gch

  /** A fresh chromosome of `Chromosome::new`: a permutation of `0..n`, not evaluated. */
  predicate Fresh(c: Chromosome, n: nat) {
    |c.jobs| == n && IsPermutation(c.jobs, n) && c.makespan == None && c.updated
  }

  /** A chromosome GCH built: a permutation of `0..n` with its makespan. */
  predicate Constructed(c: Chromosome, n: nat) {
    IsPermutation(c.jobs, n) && c.makespan.Some? && !c.updated
  }

  /**
   * `Random::replace`: every index from `alwaysKeep` on gets a fresh
   * chromosome, built from its own shuffle draws; the indices below are
   * kept.
   */
  method RandomReplace(population: array<Chromosome>, alwaysKeep: nat, m: Makespan, shuffles: seq<seq<nat>>)
    requires alwaysKeep <= population.Length ==> |shuffles| == population.Length - alwaysKeep
    requires forall s :: s in shuffles ==> ShuffleDraws(s, m.instance.jobs)
    modifies population
    ensures forall i :: 0 <= i < population.Length && i < alwaysKeep ==> population[i] == old(population[i])
    ensures forall i :: alwaysKeep <= i < population.Length ==> Fresh(population[i], m.instance.jobs)
  {
    var index := alwaysKeep;
    while index < population.Length
      invariant alwaysKeep <= index
      invariant forall i :: 0 <= i < population.Length && i < alwaysKeep ==> population[i] == old(population[i])
      invariant forall i :: alwaysKeep <= i < index && i < population.Length ==> Fresh(population[i], m.instance.jobs)
      decreases population.Length - index
    {
      assert shuffles[index - alwaysKeep] in shuffles;
      var c := New(m.instance.jobs, shuffles[index - alwaysKeep]);
      population[index] := c;
      index := index + 1;
    }
  }

  /**
   * `.take(k).collect()` on the GCH constructor: `k` constructed
   * chromosomes, each from its own shuffle draws, each costing the
   * evaluations of one GCH run.
   */
  method Take(ctor: Gch.Constructor, k: nat, shuffles: seq<seq<nat>>) returns (built: seq<Chromosome>)
    requires |shuffles| == k && ctor.makespan.instance.Valid() && ctor.makespan.instance.jobs > 0
    requires forall s :: s in shuffles ==> ShuffleDraws(s, ctor.makespan.instance.jobs)
    modifies ctor.makespan
    ensures |built| == k && forall c :: c in built ==> Constructed(c, ctor.makespan.instance.jobs)
    ensures ctor.makespan.count == old(ctor.makespan.count) + k * (Triangle(ctor.makespan.instance.jobs) - 1)
  {
    var m := ctor.makespan;
    var cost := Triangle(m.instance.jobs) - 1;
    built := [];
    ghost var total := 0;
    while |built| < k
      invariant |built| <= k && total == |built| * cost
      invariant forall c :: c in built ==> Constructed(c, m.instance.jobs)
      invariant m.count == old(m.count) + total
    {
      assert shuffles[|built|] in shuffles;
      var next := ctor.Next(shuffles[|built|]);
      assert (|built| + 1) * cost == |built| * cost + cost;
      built := built + [next.value];
      total := total + cost;
    }
  }

  /**
   * `GCH::replace`: the `len - alwaysKeep` chromosomes taken from a GCH
   * constructor are drained from the front into the indices from
   * `alwaysKeep` on, in construction order.
   */
  method GchReplace(population: array<Chromosome>, alwaysKeep: nat, m: Makespan, shuffles: seq<seq<nat>>)
    returns (ghost constructed: seq<Chromosome>)
    requires alwaysKeep <= population.Length && |shuffles| == population.Length - alwaysKeep
    requires m.instance.Valid() && m.instance.jobs > 0
    requires forall s :: s in shuffles ==> ShuffleDraws(s, m.instance.jobs)
    modifies population, m
    ensures |constructed| == population.Length - alwaysKeep
    ensures forall i :: 0 <= i < alwaysKeep ==> population[i] == old(population[i])
    ensures forall i :: 0 <= i < |constructed| ==>
      Constructed(constructed[i], m.instance.jobs) && population[alwaysKeep + i] == constructed[i]
    ensures m.count == old(m.count) + |constructed| * (Triangle(m.instance.jobs) - 1)
  {
    var ctor := new Gch.Constructor(m);
    var built := Take(ctor, population.Length - alwaysKeep, shuffles);
    constructed := built;
    ghost var count := m.count;
    for index := alwaysKeep to population.Length
      invariant m.count == count
      invariant |built| == population.Length - index
      invariant built == constructed[index - alwaysKeep..]
      invariant forall i :: 0 <= i < alwaysKeep ==> population[i] == old(population[i])
      invariant forall i :: alwaysKeep <= i < index ==> population[i] == constructed[i - alwaysKeep]
    {
      var c := built[0];
      built := built[1..];
      population[index] := c;
    }
    assert forall i :: 0 <= i < |constructed| ==> constructed[i] in constructed;
  }

  /** The draws of one mutated copy: the kept individual `choose` picks, and SHIFT's two positions. */
  datatype Copy = Copy(pick: nat, from: nat, to: nat)

  /** The draws fit the kept prefix: each pick is kept and each position lies within its jobs. */
  predicate CopiesFit(population: seq<Chromosome>, alwaysKeep: nat, copies: seq<Copy>) {
    forall c :: c in copies ==>
      c.pick < alwaysKeep <= |population| && c.from < |population[c.pick].jobs| && c.to < |population[c.pick].jobs|
  }

  /**
   * `Mutate::replace`: the first `(len - alwaysKeep) / 2` replaced slots
   * take shifted copies of kept individuals, the remaining slots fresh
   * chromosomes. The kept prefix must be non-empty when there is a copy to
   * make (`choose` on it is unwrapped).
   */
  method MutateReplace(population: array<Chromosome>, alwaysKeep: nat, m: Makespan, copies: seq<Copy>,
                       shuffles: seq<seq<nat>>)
    requires alwaysKeep <= population.Length
    requires |copies| == (population.Length - alwaysKeep) / 2 && CopiesFit(population[..], alwaysKeep, copies)
    requires |shuffles| == population.Length - alwaysKeep - |copies|
    requires forall s :: s in shuffles ==> ShuffleDraws(s, m.instance.jobs)
    modifies population
    ensures forall i :: 0 <= i < alwaysKeep ==> population[i] == old(population[i])
    ensures forall i :: 0 <= i < |copies| ==> Copied(old(population[..]), copies[i], population[alwaysKeep + i])
    ensures forall i :: alwaysKeep + |copies| <= i < population.Length ==> Fresh(population[i], m.instance.jobs)
  {
    var half := alwaysKeep + (population.Length - alwaysKeep) / 2;
    ghost var before := population[..];
    for index := alwaysKeep to half
      invariant population[..alwaysKeep] == before[..alwaysKeep]
      invariant forall i :: alwaysKeep <= i < index ==> Copied(before, copies[i - alwaysKeep], population[i])
    {
      var c := copies[index - alwaysKeep];
      assert c in copies && population[c.pick] == population[..alwaysKeep][c.pick];
      var copy := From(population[c.pick].jobs);
      copy := Shift(copy, c.from, c.to);
      population[index] := copy;
    }
    assert forall i :: 0 <= i < alwaysKeep ==> population[i] == population[..alwaysKeep][i];
    RandomReplace(population, half, m, shuffles);
  }

  /** `r` is the shifted copy `c` describes, made from the population `before`. */
  predicate Copied(before: seq<Chromosome>, c: Copy, r: Chromosome) {
    && c.pick < |before| && c.from < |before[c.pick].jobs| && c.to < |before[c.pick].jobs|
    && r == From(Shifted(before[c.pick].jobs, c.from, c.to))
  }

  /** `NoReplacement::replace`: the population is left as it is. */
  method NoReplace(population: array<Chromosome>, alwaysKeep: nat, m: Makespan)
    ensures population[..] == old(population[..])
  {
  }
}
