// The generation step of the genetic algorithm
// (src/genetic_algorithm/ga.rs): evaluation, tournament selection into the
// mating pool, pairwise SJOX crossover, SHIFT mutation, elitism and the swap
// of the mating pool into the population. Every random draw of a generation
// is given in a `Draws` value.

module Ga {

  import opened Common
  import opened Sorting
  import opened Instances
  import opened Chromosomes
  import opened Crossover
  import opened Mutation

  const POPULATION_SIZE: nat := 50
  const ITERATIONS: nat := 10
  const ELITISM: nat := 2

  /** The two `choose` draws of a tournament, whether the `KEEP_BEST` branch is taken, and the pick of the other branch. */
  datatype Tournament = Tournament(first: nat, second: nat, keepBest: bool, takeSecond: bool)

  /** Whether a pair is crossed (`XOVER_PROB`) and SJOX's cut point. */
  datatype Mating = Mating(cross: bool, cut: nat)

  /** Whether an individual is mutated (`MUTATION_PROB`) and SHIFT's two positions. */
  datatype ShiftDraw = ShiftDraw(apply: bool, from: nat, to: nat)

  /** The makespans the evaluation step stores, and the draws of one generation. */
  datatype Draws = Draws(spans: seq<nat>, tournaments: seq<Tournament>, matings: seq<Mating>, shifts: seq<ShiftDraw>)

  /** `Ord` on chromosomes: by cached makespan, `None` below every `Some`. */
  function Rank(c: Chromosome): int {
    if c.makespan.None? then -1 else c.makespan.value
  }

  /**
   * A tournament between the draws `p1` and `p2`: `std::cmp::min` (the
   * first draw on equal makespans) in the keep-best branch, else the pick.
   */
  function Winner(p1: Chromosome, p2: Chromosome, t: Tournament): (r: Chromosome)
    ensures r == p1 || r == p2
    ensures t.keepBest ==> Rank(r) <= Rank(p1) && Rank(r) <= Rank(p2)
    ensures t.keepBest && Rank(p1) == Rank(p2) ==> r == p1
    ensures !t.keepBest ==> r == if t.takeSecond then p2 else p1
  {
    if t.keepBest then (if Rank(p1) <= Rank(p2) then p1 else p2)
    else if t.takeSecond then p2 else p1
  }

  /** `Chromosome::from(winner.jobs)` with the winner's makespan copied over. */
  function Clone(c: Chromosome): Chromosome {
    From(c.jobs).(makespan := c.makespan)
  }

  /** A permutation of `0..n`. */
  predicate Member(c: Chromosome, n: nat) {
    |c.jobs| == n && IsPermutation(c.jobs, n)
  }

  /** Every individual is a permutation of `0..n`. */
  predicate Perms(s: seq<Chromosome>, n: nat) {
    forall i :: 0 <= i < |s| ==> Member(s[i], n)
  }

  /** Two permutations of `0..n` are parents SJOX can combine. */
  lemma PermutationParents(a: seq<nat>, b: seq<nat>, n: nat)
    requires IsPermutation(a, n) && IsPermutation(b, n) && n <= U32_MAX
    ensures Parents(a, b) && |a| == n
  {
    PermutationFacts(a, n);
    PermutationFacts(b, n);
  }

  /** The children SJOX makes from `p1` and `p2` with cut `k`, as its contract describes them. */
  predicate Crossed(p1: seq<nat>, p2: seq<nat>, k: nat, c1: seq<nat>, c2: seq<nat>)
    requires |p1| == |p2|
  {
    && |c1| == |p1| && |c2| == |p1| && k <= |p1|
    && c1[..k] == p1[..k] && c2[..k] == p2[..k]
    && Offspring(p1, p2, k, c1) && Offspring(p2, p1, k, c2)
    && multiset(c1) == multiset(p1) && multiset(c2) == multiset(p1)
  }

  /** The draws fit a population of `POPULATION_SIZE` permutations of `0..n`. */
  predicate DrawsFit(d: Draws, n: nat) {
    && |d.spans| == POPULATION_SIZE
    && |d.tournaments| == POPULATION_SIZE - ELITISM
    && (forall t :: t in d.tournaments ==> t.first < POPULATION_SIZE && t.second < POPULATION_SIZE)
    && |d.matings| == (POPULATION_SIZE - ELITISM) / 2
    && (forall m :: m in d.matings ==> m.cut < n)
    && |d.shifts| == POPULATION_SIZE - ELITISM
    && forall s :: s in d.shifts ==> s.from < n && s.to < n
  }

  /** Pair `p1`, `p2` became `c1`, `c2`: SJOX's children as fresh chromosomes when crossed, else unchanged. */
  predicate Paired(p1: Chromosome, p2: Chromosome, m: Mating, c1: Chromosome, c2: Chromosome) {
    if m.cross then
      && |p1.jobs| == |p2.jobs| && Crossed(p1.jobs, p2.jobs, m.cut, c1.jobs, c2.jobs)
      && c1.makespan == None && c1.updated && c2.makespan == None && c2.updated
    else c1 == p1 && c2 == p2
  }

  /** One chunk of the crossover loop. */
  method CrossPair(p1: Chromosome, p2: Chromosome, m: Mating, n: nat) returns (c1: Chromosome, c2: Chromosome)
    requires Member(p1, n) && Member(p2, n) && m.cut < n <= U32_MAX
    ensures Paired(p1, p2, m, c1, c2) && Member(c1, n) && Member(c2, n)
  {
    PermutationParents(p1.jobs, p2.jobs, n);
    PermutationParents(p2.jobs, p1.jobs, n);
    if m.cross {
      var x1, x2 := Sjox(p1, p2, m.cut);
      c1, c2 := From(x1.jobs), From(x2.jobs);
    } else {
      c1, c2 := p1, p2;
    }
  }

  /** `c` became `r`: shifted when the draw says so, else unchanged. */
  predicate Mutated(c: Chromosome, s: ShiftDraw, r: Chromosome) {
    if s.apply then s.from < |c.jobs| && s.to < |c.jobs| && r == c.(jobs := Shifted(c.jobs, s.from, s.to))
    else r == c
  }

  /** One step of the mutation loop. */
  method MutateOne(c: Chromosome, s: ShiftDraw, n: nat) returns (r: Chromosome)
    requires Member(c, n) && s.from < n && s.to < n
    ensures Mutated(c, s, r) && Member(r, n)
  {
    r := c;
    if s.apply {
      r := Shift(c, s.from, s.to);
    }
  }

  /** `selected` holds, per tournament, a copy of its winner among `population`. */
  predicate SelectedBy(population: seq<Chromosome>, tournaments: seq<Tournament>, selected: seq<Chromosome>) {
    && |selected| == |tournaments|
    && forall i :: 0 <= i < |tournaments| ==>
         var t := tournaments[i];
         t.first < |population| && t.second < |population|
         && selected[i] == Clone(Winner(population[t.first], population[t.second], t))
  }

  /** Every pair of `pool` became its pair of `r` by its mating draw; an unpaired tail is unchanged. */
  predicate CrossedPairs(pool: seq<Chromosome>, matings: seq<Mating>, r: seq<Chromosome>) {
    && |r| == |pool| && 2 * |matings| <= |pool|
    && (forall j :: 0 <= j < |matings| ==> Paired(pool[2 * j], pool[2 * j + 1], matings[j], r[2 * j], r[2 * j + 1]))
    && forall i :: 2 * |matings| <= i < |pool| ==> r[i] == pool[i]
  }

  /** Every individual of `pool` became the one of `r` by its own shift draw. */
  predicate MutatedEach(pool: seq<Chromosome>, shifts: seq<ShiftDraw>, r: seq<Chromosome>) {
    |r| == |pool| == |shifts| && forall i :: 0 <= i < |shifts| ==> Mutated(pool[i], shifts[i], r[i])
  }

  /** The pools inside one generation: the tournament winners, the pool after crossover and after mutation. */
  datatype Bred = Bred(selected: seq<Chromosome>, mated: seq<Chromosome>, bred: seq<Chromosome>)

  /**
   * `after` is the population one generation makes of `before` with the
   * draws `d`, through the pools `b`: fresh copies of the bred pool's jobs,
   * then the jobs of the `ELITISM` best-ranked evaluated individuals.
   */
  predicate Generated(before: seq<Chromosome>, d: Draws, b: Bred, after: seq<Chromosome>) {
    && |d.spans| == |before| >= ELITISM
    && |after| == POPULATION_SIZE && |b.bred| == POPULATION_SIZE - ELITISM
    && SelectedBy(Scored(before, d.spans), d.tournaments, b.selected)
    && CrossedPairs(b.selected, d.matings, b.mated) && MutatedEach(b.mated, d.shifts, b.bred)
    && (forall i :: 0 <= i < POPULATION_SIZE - ELITISM ==> after[i] == From(b.bred[i].jobs))
    && (forall i :: 0 <= i < POPULATION_SIZE ==> after[i].makespan == None && after[i].updated)
    && forall e :: 0 <= e < ELITISM ==>
         after[POPULATION_SIZE - ELITISM + e].jobs == SortBy(Scored(before, d.spans), Rank)[e].jobs
  }

  /** The first `j` pairs of `pool` have been through crossover in `r`; the rest are untouched. */
  predicate MatedUpTo(pool: seq<Chromosome>, matings: seq<Mating>, r: seq<Chromosome>, j: nat, n: nat) {
    && j <= |matings| && 2 * |matings| <= |pool| == |r| && Perms(r, n)
    && (forall i :: 2 * j <= i < |r| ==> r[i] == pool[i])
    && forall i :: 0 <= i < j ==> Paired(pool[2 * i], pool[2 * i + 1], matings[i], r[2 * i], r[2 * i + 1])
  }

  /** One chunk of the crossover loop. */
  method MateStep(pool: seq<Chromosome>, matings: seq<Mating>, r: seq<Chromosome>, j: nat, n: nat)
    returns (r': seq<Chromosome>)
    requires MatedUpTo(pool, matings, r, j, n) && j < |matings| && 0 < n < U32_MAX
    requires matings[j].cut < n
    ensures MatedUpTo(pool, matings, r', j + 1, n)
  {
    var c1, c2 := CrossPair(r[2 * j], r[2 * j + 1], matings[j], n);
    r' := r[2 * j := c1][2 * j + 1 := c2];
    assert r[2 * j] == pool[2 * j] && r[2 * j + 1] == pool[2 * j + 1];
    forall i | 0 <= i < |r'|
      ensures Member(r'[i], n)
      ensures 2 * j + 2 <= i ==> r'[i] == pool[i]
    {
      if i != 2 * j && i != 2 * j + 1 {
        assert r'[i] == r[i];
      }
    }
    forall i | 0 <= i < j + 1
      ensures Paired(pool[2 * i], pool[2 * i + 1], matings[i], r'[2 * i], r'[2 * i + 1])
    {
      if i < j {
        assert r'[2 * i] == r[2 * i] && r'[2 * i + 1] == r[2 * i + 1];
      }
    }
  }

  /**
   * Crossover over `chunks_exact_mut(2)`: each crossed pair is replaced by
   * its two SJOX children as fresh chromosomes; uncrossed pairs and an odd
   * last individual keep their places.
   */
  method Mate(pool: seq<Chromosome>, matings: seq<Mating>, n: nat) returns (r: seq<Chromosome>)
    requires |matings| == |pool| / 2 && 0 < n < U32_MAX
    requires Perms(pool, n) && forall m :: m in matings ==> m.cut < n
    ensures |r| == |pool| && Perms(r, n) && CrossedPairs(pool, matings, r)
    ensures |pool| % 2 == 1 ==> Last(r) == Last(pool)
  {
    r := pool;
    for j := 0 to |matings|
      invariant MatedUpTo(pool, matings, r, j, n)
    {
      assert matings[j] in matings;
      r := MateStep(pool, matings, r, j, n);
    }
  }

  /** Mutation: each individual of the mating pool is shifted when its draw says so, independently of the others. */
  method MutatePool(pool: seq<Chromosome>, shifts: seq<ShiftDraw>, n: nat) returns (r: seq<Chromosome>)
    requires |shifts| == |pool| && Perms(pool, n)
    requires forall s :: s in shifts ==> s.from < n && s.to < n
    ensures |r| == |pool| && Perms(r, n) && MutatedEach(pool, shifts, r)
  {
    r := pool;
    for i := 0 to |shifts|
      invariant |r| == |pool| && Perms(r, n)
      invariant forall j :: i <= j < |r| ==> r[j] == pool[j]
      invariant forall j :: 0 <= j < i ==> Mutated(pool[j], shifts[j], r[j])
    {
      assert shifts[i] in shifts;
      var c := MutateOne(r[i], shifts[i], n);
      r := r[i := c];
    }
  }

  /** Sorting a population of permutations gives a population of permutations. */
  lemma SortedPerms(population: seq<Chromosome>, n: nat)
    requires Perms(population, n)
    ensures Perms(SortBy(population, Rank), n)
  {
    var sorted := SortBy(population, Rank);
    SortByMultiset(population, Rank);
    forall i | 0 <= i < |sorted| ensures Member(sorted[i], n) {
      assert sorted[i] in multiset(population);
    }
  }

  /** The first `ELITISM` individuals as fresh chromosomes. */
  function Elites(sorted: seq<Chromosome>): (r: seq<Chromosome>)
    requires |sorted| >= ELITISM
    ensures |r| == ELITISM
  {
    seq(ELITISM, i requires 0 <= i < ELITISM => From(sorted[i].jobs))
  }

  class GA {
    const instance: Instance
    var population: seq<Chromosome>
    var matingPool: seq<Chromosome>

    /** A population of `POPULATION_SIZE` permutations of the instance's jobs. */
    predicate Valid()
      reads this
    {
      && 0 < instance.jobs < U32_MAX
      && |population| == POPULATION_SIZE && Perms(population, instance.jobs)
    }

    /** `GA::new`: `POPULATION_SIZE` shuffled chromosomes, one per list of shuffle draws, and an empty mating pool. */
    constructor(instance: Instance, shuffles: seq<seq<nat>>)
      requires 0 < instance.jobs < U32_MAX
      requires |shuffles| == POPULATION_SIZE && forall s :: s in shuffles ==> ShuffleDraws(s, instance.jobs)
      ensures this.instance == instance && Valid() && matingPool == []
      ensures forall i :: 0 <= i < POPULATION_SIZE ==> population[i].makespan == None
    {
      this.instance := instance;
      var pop: seq<Chromosome> := [];
      for i := 0 to POPULATION_SIZE
        invariant |pop| == i && Perms(pop, instance.jobs)
        invariant forall j :: 0 <= j < i ==> pop[j].makespan == None
      {
        assert shuffles[i] in shuffles;
        var c := New(instance.jobs, shuffles[i]);
        pop := pop + [c];
      }
      population := pop;
      matingPool := [];
    }

    /** The evaluation step: each individual gets the makespan given for it; nothing else changes. */
    method Evaluate(spans: seq<nat>)
      requires |spans| == |population|
      modifies this
      ensures matingPool == old(matingPool) && population == Scored(old(population), spans)
    {
      var i := 0;
      while i < |population|
        invariant i <= |population| == |old(population)| && matingPool == old(matingPool)
        invariant forall j :: 0 <= j < |population| ==>
          population[j] == if j < i then old(population[j]).(makespan := Some(spans[j])) else old(population[j])
      {
        population := population[i := population[i].(makespan := Some(spans[i]))];
        i := i + 1;
      }
      assert population == Scored(old(population), spans);
    }

    /**
     * Selection: the cleared mating pool receives, per tournament, a copy
     * of its winner's jobs and makespan; the population is left alone.
     */
    method Select(tournaments: seq<Tournament>)
      requires forall t :: t in tournaments ==> t.first < |population| && t.second < |population|
      modifies this
      ensures population == old(population) && |matingPool| == |tournaments|
      ensures forall i :: 0 <= i < |tournaments| ==>
        var t := tournaments[i];
        matingPool[i] == Clone(Winner(population[t.first], population[t.second], t))
    {
      matingPool := [];
      for i := 0 to |tournaments|
        invariant population == old(population) && |matingPool| == i
        invariant forall j :: 0 <= j < i ==>
          var t := tournaments[j];
          matingPool[j] == Clone(Winner(population[t.first], population[t.second], t))
      {
        var t := tournaments[i];
        assert t in tournaments;
        var winner := Winner(population[t.first], population[t.second], t);
        matingPool := matingPool + [Clone(winner)];
      }
    }

    /**
     * Elitism: the population is sorted stably by makespan and copies of its
     * first `ELITISM` members' jobs join the mating pool. Requires the two
     * ends of the sorted population to be evaluated (they are printed with
     * `unwrap`).
     */
    method Elitism()
      requires |population| >= ELITISM && Perms(population, instance.jobs) && Perms(matingPool, instance.jobs)
      requires forall i :: 0 <= i < |population| ==> population[i].makespan.Some?
      modifies this
      ensures population == SortBy(old(population), Rank)
      ensures matingPool == old(matingPool) + Elites(population)
      ensures Perms(population, instance.jobs) && Perms(matingPool, instance.jobs)
    {
      SortedPerms(population, instance.jobs);
      population := SortBy(population, Rank);
      var i := 0;
      while i < ELITISM
        invariant i <= ELITISM && population == SortBy(old(population), Rank)
        invariant matingPool == old(matingPool) + Elites(population)[..i]
        invariant Perms(matingPool, instance.jobs)
      {
        assert Elites(population)[..i + 1] == Elites(population)[..i] + [From(population[i].jobs)];
        matingPool := matingPool + [From(population[i].jobs)];
        i := i + 1;
      }
    }

    /** The swap: the population becomes fresh copies of the mating pool's jobs, in order. */
    method Swap()
      modifies this
      ensures matingPool == old(matingPool) && |population| == |matingPool|
      ensures forall i :: 0 <= i < |population| ==> population[i] == From(matingPool[i].jobs)
    {
      population := [];
      for i := 0 to |matingPool|
        invariant matingPool == old(matingPool) && |population| == i
        invariant forall j :: 0 <= j < i ==> population[j] == From(matingPool[j].jobs)
      {
        population := population + [From(matingPool[i].jobs)];
      }
    }

    /**
     * The first half of a generation: evaluation, then selection into
     * `selected`, crossover into `mated` and mutation into the mating pool,
     * which holds `POPULATION_SIZE - ELITISM` permutations of the jobs.
     */
    method Breed(d: Draws) returns (ghost selected: seq<Chromosome>, ghost mated: seq<Chromosome>)
      requires Valid() && DrawsFit(d, instance.jobs)
      modifies this
      ensures population == Scored(old(population), d.spans) && Perms(population, instance.jobs)
      ensures SelectedBy(population, d.tournaments, selected)
      ensures CrossedPairs(selected, d.matings, mated) && MutatedEach(mated, d.shifts, matingPool)
      ensures |matingPool| == POPULATION_SIZE - ELITISM && Perms(matingPool, instance.jobs)
    {
      Evaluate(d.spans);
      assert Perms(population, instance.jobs) by {
        assert forall i :: 0 <= i < |population| ==> population[i].jobs == old(population)[i].jobs;
      }
      Select(d.tournaments);
      selected := matingPool;
      assert Perms(matingPool, instance.jobs) by {
        forall i | 0 <= i < |matingPool| ensures Member(matingPool[i], instance.jobs) {
          var t := d.tournaments[i];
          assert t in d.tournaments;
        }
      }
      assert SelectedBy(population, d.tournaments, selected) by {
        forall i | 0 <= i < |d.tournaments| ensures d.tournaments[i].first < |population| && d.tournaments[i].second < |population| {
          assert d.tournaments[i] in d.tournaments;
        }
      }
      var crossed := Mate(matingPool, d.matings, instance.jobs);
      mated := crossed;
      matingPool := MutatePool(crossed, d.shifts, instance.jobs);
    }

    /**
     * The second half of a generation: elitism, then the swap. The new
     * population is `POPULATION_SIZE` unevaluated permutations: fresh copies
     * of the bred mating pool's jobs, followed by the jobs of the
     * `ELITISM` best-ranked individuals.
     */
    method Renew()
      requires |population| == POPULATION_SIZE && Perms(population, instance.jobs) && 0 < instance.jobs < U32_MAX
      requires forall i :: 0 <= i < |population| ==> population[i].makespan.Some?
      requires |matingPool| == POPULATION_SIZE - ELITISM && Perms(matingPool, instance.jobs)
      modifies this
      ensures Valid() && |matingPool| == POPULATION_SIZE
      ensures forall i :: 0 <= i < POPULATION_SIZE - ELITISM ==> population[i] == From(old(matingPool)[i].jobs)
      ensures forall i :: 0 <= i < POPULATION_SIZE ==> population[i].makespan == None && population[i].updated
      ensures var sorted := SortBy(old(population), Rank);
        forall e :: 0 <= e < ELITISM ==> population[POPULATION_SIZE - ELITISM + e].jobs == sorted[e].jobs
    {
      Elitism();
      ghost var sorted := population;
      Swap();
      assert forall e :: 0 <= e < ELITISM ==> population[POPULATION_SIZE - ELITISM + e].jobs == sorted[e].jobs;
    }

    /**
     * One iteration of `GA::run`: from the evaluated population, tournament
     * selection gives `selected`, crossover `mated` and mutation `bred`. The
     * new population is fresh copies of `bred`'s jobs followed by the jobs of
     * the `ELITISM` best-ranked evaluated individuals; none is evaluated yet.
     */
    method Generation(d: Draws)
      returns (ghost selected: seq<Chromosome>, ghost mated: seq<Chromosome>, ghost bred: seq<Chromosome>)
      requires Valid() && DrawsFit(d, instance.jobs)
      modifies this
      ensures Valid() && |matingPool| == POPULATION_SIZE
      ensures var scored := Scored(old(population), d.spans);
        && SelectedBy(scored, d.tournaments, selected)
        && CrossedPairs(selected, d.matings, mated) && MutatedEach(mated, d.shifts, bred)
      ensures forall i :: 0 <= i < POPULATION_SIZE - ELITISM ==> population[i] == From(bred[i].jobs)
      ensures forall i :: 0 <= i < POPULATION_SIZE ==> population[i].makespan == None && population[i].updated
      ensures var sorted := SortBy(Scored(old(population), d.spans), Rank);
        forall e :: 0 <= e < ELITISM ==> population[POPULATION_SIZE - ELITISM + e].jobs == sorted[e].jobs
      ensures Generated(old(population), d, Bred(selected, mated, bred), population)
    {
      selected, mated := Breed(d);
      bred := matingPool;
      Renew();
    }

    /**
     * `GA::run`: exactly `ITERATIONS` generations, one list of draws each.
     * `trail` holds the population before each generation and after the
     * last; `pools` holds each generation's intermediate pools.
     */
    method Run(draws: seq<Draws>) returns (ghost trail: seq<seq<Chromosome>>, ghost pools: seq<Bred>)
      requires Valid() && |draws| == ITERATIONS && forall d :: d in draws ==> DrawsFit(d, instance.jobs)
      modifies this
      ensures Valid() && |matingPool| == POPULATION_SIZE
      ensures forall i :: 0 <= i < POPULATION_SIZE ==> population[i].makespan == None
      ensures |trail| == ITERATIONS + 1 && trail[0] == old(population) && trail[ITERATIONS] == population
      ensures |pools| == ITERATIONS
      ensures forall g :: 0 <= g < ITERATIONS ==> Generated(trail[g], draws[g], pools[g], trail[g + 1])
    {
      trail, pools := [population], [];
      var iteration := 0;
      while iteration < ITERATIONS
        invariant iteration <= ITERATIONS && Valid()
        invariant iteration > 0 ==> |matingPool| == POPULATION_SIZE
        invariant iteration > 0 ==> forall i :: 0 <= i < POPULATION_SIZE ==> population[i].makespan == None
        invariant |trail| == iteration + 1 && trail[0] == old(population) && trail[iteration] == population
        invariant |pools| == iteration
        invariant forall g :: 0 <= g < iteration ==> Generated(trail[g], draws[g], pools[g], trail[g + 1])
      {
        assert draws[iteration] in draws;
        var selected, mated, bred := Generation(draws[iteration]);
        trail, pools := trail + [population], pools + [Bred(selected, mated, bred)];
        iteration := iteration + 1;
      }
    }
  }

  /** The population after the evaluation step. */
  function Scored(population: seq<Chromosome>, spans: seq<nat>): (r: seq<Chromosome>)
    requires |spans| == |population|
    ensures |r| == |population|
  {
    seq(|population|, i requires 0 <= i < |population| => population[i].(makespan := Some(spans[i])))
  }

  /**
   * The elites are the best of the population: sorting keeps every
   * individual, and none of those after the first `ELITISM` ranks below
   * one of the first `ELITISM`.
   */
  lemma ElitesBest(population: seq<Chromosome>)
    requires |population| >= ELITISM
    ensures var sorted := SortBy(population, Rank);
      && multiset(sorted) == multiset(population)
      && forall e, j :: 0 <= e < ELITISM <= j < |sorted| ==> Rank(sorted[e]) <= Rank(sorted[j])
  {
    SortByMultiset(population, Rank);
    SortBySorted(population, Rank);
  }
}
