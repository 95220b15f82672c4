// A candidate solution of the genetic algorithm
// (src/genetic_algorithm/entities/chromosome.rs): a job permutation with a
// cached makespan and a flag saying the cache is stale.

module Chromosomes {

  import opened Common

  /**
   * `jobs` is the schedule; `makespan` the cached evaluation, `None` until one
   * is made; `updated` says the cache no longer matches `jobs`.
   */
  datatype Chromosome = Chromosome(jobs: seq<nat>, makespan: Option<nat>, updated: bool)

  /** `Chromosome::from(jobs)`: a chromosome whose makespan is not known yet. */
  function From(jobs: seq<nat>): Chromosome {
    Chromosome(jobs, None, true)
  }

  /**
   * The draws of one `SliceRandom::shuffle` of `n` elements: for each
   * position `i` from the back down to 1, the index in `0..=i` it is swapped
   * with (position 0 draws nothing, its entry is unused).
   */
  predicate ShuffleDraws(draws: seq<nat>, n: nat) {
    |draws| == n && forall i :: 0 <= i < n ==> draws[i] <= i
  }

  /** `shuffle`: the Fisher–Yates swaps given by `draws`; the elements are only rearranged. */
  method Shuffle(a: array<nat>, draws: seq<nat>)
    requires ShuffleDraws(draws, a.Length)
    modifies a
    ensures multiset(a[..]) == multiset(old(a[..]))
  {
    var i := a.Length;
    while i > 1
      invariant 0 <= i <= a.Length
      invariant multiset(a[..]) == multiset(old(a[..]))
    {
      i := i - 1;
      var j := draws[i];
      a[i], a[j] := a[j], a[i];
    }
  }

  /** `(0..n).collect()` then `shuffle`: the ids `0..n` in the order the draws give. */
  method ShuffledRange(n: nat, draws: seq<nat>) returns (jobs: seq<nat>)
    requires ShuffleDraws(draws, n)
    ensures IsPermutation(jobs, n) && |jobs| == n
  {
    var a := new nat[n](i => i);
    assert a[..] == Range(n);
    Shuffle(a, draws);
    jobs := a[..];
  }

  /** `Chromosome::new`: the ids `0..n` collected and shuffled, not evaluated yet. */
  method New(n: nat, draws: seq<nat>) returns (c: Chromosome)
    requires ShuffleDraws(draws, n)
    ensures IsPermutation(c.jobs, n) && |c.jobs| == n
    ensures c.makespan == None && c.updated
  {
    var jobs := ShuffledRange(n, draws);
    c := From(jobs);
  }

  // ---- Display ----

  predicate IsDigits(s: string) {
    forall i :: 0 <= i < |s| ==> '0' <= s[i] <= '9'
  }

  function Digit(d: nat): (c: char)
    requires d < 10
    ensures '0' <= c <= '9'
  {
    (d + 48) as char
  }

  /** `u32::to_string`: the decimal digits of `n`, without leading zeros. */
  function Decimal(n: nat): (s: string)
    ensures |s| > 0 && IsDigits(s)
    ensures |s| > 1 ==> s[0] != '0'
  {
    if n < 10 then [Digit(n)] else Decimal(n / 10) + [Digit(n % 10)]
  }

  /** The value of a string of decimal digits. */
  function ParseDecimal(s: string): nat
    requires IsDigits(s)
  {
    if s == [] then 0 else ParseDecimal(s[..|s| - 1]) * 10 + (Last(s) as int - 48)
  }

  /** Parsing the decimal form of a number gives the number back. */
  lemma {:induction false} DecimalRoundTrip(n: nat)
    ensures ParseDecimal(Decimal(n)) == n
  {
    if n >= 10 {
      DecimalRoundTrip(n / 10);
      var s := Decimal(n);
      assert s[..|s| - 1] == Decimal(n / 10);
    }
  }

  /** The text `Display` writes: the jobs' decimal forms in order, joined by single dashes. */
  function Joined(jobs: seq<nat>): string
    requires |jobs| > 0
  {
    if |jobs| == 1 then Decimal(jobs[0])
    else Joined(jobs[..|jobs| - 1]) + "-" + Decimal(Last(jobs))
  }

  /**
   * `Display::fmt`: every job but the last followed by a dash, then the last
   * job. The job list must not be empty (`len() - 1` would underflow).
   */
  method Display(c: Chromosome) returns (s: string)
    requires |c.jobs| > 0
    ensures s == Joined(c.jobs)
  {
    var jobs := c.jobs;
    var n := |jobs|;
    var dashSeparated := "";
    for i := 0 to n - 1
      invariant dashSeparated == if i == 0 then "" else Joined(jobs[..i]) + "-"
    {
      assert jobs[..i + 1][..i] == jobs[..i];
      dashSeparated := dashSeparated + Decimal(jobs[i]);
      dashSeparated := dashSeparated + "-";
    }
    assert jobs[..n - 1] + [jobs[n - 1]] == jobs;
    dashSeparated := dashSeparated + Decimal(jobs[n - 1]);
    s := dashSeparated;
  }

  lemma {:induction false} CountDigits(s: string)
    requires IsDigits(s)
    ensures Count(s, '-') == 0
  {
    if s != [] {
      CountDigits(s[..|s| - 1]);
    }
  }

  /**
   * The text has no leading or trailing dash and exactly one dash fewer than
   * there are jobs.
   */
  lemma {:induction false} JoinedShape(jobs: seq<nat>)
    requires |jobs| > 0
    ensures var s := Joined(jobs); |s| > 0 && s[0] != '-' && Last(s) != '-'
    ensures Count(Joined(jobs), '-') == |jobs| - 1
  {
    CountDigits(Decimal(Last(jobs)));
    if |jobs| == 1 {
      CountDigits(Decimal(jobs[0]));
    } else {
      var p := jobs[..|jobs| - 1];
      JoinedShape(p);
      CountAppend(Joined(p), "-", '-');
      CountAppend(Joined(p) + "-", Decimal(Last(jobs)), '-');
      assert Count("-", '-') == 1 by {
        assert "-"[..0] == "";
      }
    }
  }

  /** Splitting on `-`, as `str::split("-")` does: the pieces between dashes, in order. */
  function Split(s: string): (r: seq<string>)
    ensures |r| > 0
  {
    if s == [] then [""]
    else
      var pieces := Split(s[..|s| - 1]);
      if Last(s) == '-' then pieces + [""]
      else pieces[..|pieces| - 1] + [Last(pieces) + [Last(s)]]
  }

  lemma SplitDash(s: string)
    ensures Split(s + "-") == Split(s) + [""]
  {
    assert (s + "-")[..|s|] == s;
  }

  /** Text without a dash extends the last piece. */
  lemma {:induction false} SplitPlain(s: string, t: string)
    requires forall i :: 0 <= i < |t| ==> t[i] != '-'
    ensures var p := Split(s); Split(s + t) == p[..|p| - 1] + [Last(p) + t]
  {
    var p := Split(s);
    if t == [] {
      assert s + t == s && Last(p) + t == Last(p);
      assert p[..|p| - 1] + [Last(p)] == p;
    } else {
      var t' := t[..|t| - 1];
      SplitPlain(s, t');
      assert (s + t)[..|s + t| - 1] == s + t';
      assert Last(Split(s) + []) + t' + [Last(t)] == Last(Split(s)) + t;
    }
  }

  /** A dash then dash-free text adds that text as a new last piece. */
  lemma SplitAfterDash(s: string, d: string)
    requires forall i :: 0 <= i < |d| ==> d[i] != '-'
    ensures Split(s + "-" + d) == Split(s) + [d]
  {
    SplitDash(s);
    SplitPlain(s + "-", d);
    var q := Split(s + "-");
    assert q[..|q| - 1] == Split(s) && Last(q) + d == d;
  }

  /** The decimal forms of the jobs, in order. */
  function Decimals(jobs: seq<nat>): (r: seq<string>)
    ensures |r| == |jobs|
  {
    if jobs == [] then [] else Decimals(jobs[..|jobs| - 1]) + [Decimal(Last(jobs))]
  }

  lemma {:induction false} DecimalsAt(jobs: seq<nat>, i: nat)
    requires i < |jobs|
    ensures Decimals(jobs)[i] == Decimal(jobs[i])
  {
    if i < |jobs| - 1 {
      DecimalsAt(jobs[..|jobs| - 1], i);
    }
  }

  /** The pieces of the text are exactly the jobs' decimal forms. */
  lemma {:induction false} SplitJoined(jobs: seq<nat>)
    requires |jobs| > 0
    ensures Split(Joined(jobs)) == Decimals(jobs)
  {
    var d := Decimal(Last(jobs));
    DashFree(Last(jobs));
    if |jobs| == 1 {
      SplitPlain("", d);
      assert Split("") == [""];
      assert "" + d == d && Joined(jobs) == d;
      assert Decimals(jobs) == Decimals([]) + [d];
    } else {
      var p := jobs[..|jobs| - 1];
      SplitJoined(p);
      SplitAfterDash(Joined(p), d);
    }
  }

  /** A decimal form holds no dash. */
  lemma DashFree(n: nat)
    ensures forall i :: 0 <= i < |Decimal(n)| ==> Decimal(n)[i] != '-'
  {
    var d := Decimal(n);
    assert IsDigits(d);
  }

  /**
   * The round trip of `Display`: splitting the text on `-` and parsing each
   * piece recovers the job list.
   */
  lemma DisplayRoundTrip(jobs: seq<nat>)
    requires |jobs| > 0
    ensures var pieces := Split(Joined(jobs));
      |pieces| == |jobs|
      && forall i :: 0 <= i < |jobs| ==> IsDigits(pieces[i]) && ParseDecimal(pieces[i]) == jobs[i]
  {
    SplitJoined(jobs);
    forall i | 0 <= i < |jobs|
      ensures Decimals(jobs)[i] == Decimal(jobs[i]) && ParseDecimal(Decimal(jobs[i])) == jobs[i]
    {
      DecimalsAt(jobs, i);
      DecimalRoundTrip(jobs[i]);
    }
  }
}
