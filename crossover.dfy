// The SJOX crossover (src/genetic_algorithm/operators/crossover.rs): each
// child keeps its own parent's jobs before a cut point and wherever both
// parents agree, and fills the remaining slots with the other parent's
// missing jobs in that parent's order.

module Crossover {

  import opened Common
  import opened Chromosomes

  /** Two parents SJOX can combine: equal-length rearrangements of each other without repeats or the filler value. */
  predicate Parents(p1: seq<nat>, p2: seq<nat>) {
    && |p1| == |p2| && Distinct(p1) && multiset(p1) == multiset(p2)
    && forall i :: 0 <= i < |p1| ==> p1[i] < U32_MAX
  }

  /** The parent conditions hold with the parents swapped. */
  lemma ParentsSwap(p1: seq<nat>, p2: seq<nat>)
    requires Parents(p1, p2)
    ensures Parents(p2, p1) && Distinct(p2)
  {
    DistinctMultiset(p1, p2);
    forall i | 0 <= i < |p2| ensures p2[i] < U32_MAX {
      assert p2[i] in multiset(p1);
    }
  }

  /**
   * A child buffer once the positions below `upto` have been visited: its
   * own parent's job below the cut `k`, the common job where the parents
   * agree, and the `u32::MAX` filler everywhere else.
   */
  function Partial(own: seq<nat>, other: seq<nat>, k: nat, upto: nat): (t: seq<nat>)
    requires |own| == |other|
    ensures |t| == |own|
  {
    seq(|own|, j requires 0 <= j < |own| =>
      if j < k then own[j] else if j < upto && own[j] == other[j] then own[j] else U32_MAX)
  }

  /** The child buffer before its empty slots are filled. */
  function Template(own: seq<nat>, other: seq<nat>, k: nat): (t: seq<nat>)
    requires |own| == |other|
    ensures |t| == |own|
  {
    Partial(own, other, k, |own|)
  }

  /** The jobs of `s` that are not in `t`, in the order of `s`. */
  function Missing(s: seq<nat>, t: seq<nat>): (r: seq<nat>)
    ensures |r| <= |s|
  {
    if s == [] then [] else Missing(s[..|s| - 1], t) + (if Last(s) in t then [] else [Last(s)])
  }

  /** What `c` holds at the positions where `t` holds the filler, left to right. */
  function Slots(c: seq<nat>, t: seq<nat>): (r: seq<nat>)
    requires |c| == |t|
  {
    if c == [] then [] else Slots(c[..|c| - 1], t[..|t| - 1]) + (if Last(t) == U32_MAX then [Last(c)] else [])
  }

  /** `c` keeps every value of `t` other than the filler. */
  predicate Agrees(c: seq<nat>, t: seq<nat>) {
    |c| == |t| && forall i :: 0 <= i < |t| && t[i] != U32_MAX ==> c[i] == t[i]
  }

  /** The non-filler values of `t`, left to right. */
  function Fixed(t: seq<nat>): seq<nat> {
    if t == [] then [] else Fixed(t[..|t| - 1]) + (if Last(t) == U32_MAX then [] else [Last(t)])
  }

  // ---- The operator ----

  /**
   * `SJOX::apply` with the cut point `k` (given, or drawn from `0..len`):
   * both children keep their own parent's prefix up to `k` and every job the
   * parents share at a position; `c1`'s other slots take `p2`'s jobs missing
   * from it in `p2`'s order, and `c2`'s take `p1`'s in `p1`'s order.
   */
  method Sjox(p1: Chromosome, p2: Chromosome, k: nat) returns (c1: Chromosome, c2: Chromosome)
    requires Parents(p1.jobs, p2.jobs) && k <= |p1.jobs|
    ensures |c1.jobs| == |p1.jobs| && |c2.jobs| == |p1.jobs|
    ensures c1.jobs[..k] == p1.jobs[..k] && c2.jobs[..k] == p2.jobs[..k]
    ensures forall i :: 0 <= i < |p1.jobs| && p1.jobs[i] == p2.jobs[i] ==> c1.jobs[i] == p1.jobs[i] && c2.jobs[i] == p1.jobs[i]
    ensures Offspring(p1.jobs, p2.jobs, k, c1.jobs) && Offspring(p2.jobs, p1.jobs, k, c2.jobs)
    ensures multiset(c1.jobs) == multiset(p1.jobs) && multiset(c2.jobs) == multiset(p1.jobs)
    ensures forall i :: 0 <= i < |c1.jobs| ==> c1.jobs[i] != U32_MAX && c2.jobs[i] != U32_MAX
    ensures c1.makespan == None && c1.updated && c2.makespan == None && c2.updated
  {
    var x, y := p1.jobs, p2.jobs;
    ParentsSwap(x, y);
    var s1, s2 := Children(x, y, k);
    Child(x, y, k, s1);
    Child(y, x, k, s2);
    c1, c2 := From(s1), From(s2);
  }

  /** `c` is the child of `own` and `other` with cut `k`: it agrees with their template, and its open slots hold `other`'s missing jobs in `other`'s order. */
  predicate Offspring(own: seq<nat>, other: seq<nat>, k: nat, c: seq<nat>)
    requires |own| == |other|
  {
    var t := Template(own, other, k);
    Agrees(c, t) && Slots(c, t) == Missing(other, t)
  }

  /**
   * The two children built in place: both start as the filler, take their
   * own parent's prefix, the shared jobs, and then the missing jobs in the
   * other parent's order.
   */
  method Children(x: seq<nat>, y: seq<nat>, k: nat) returns (s1: seq<nat>, s2: seq<nat>)
    requires Parents(x, y) && Parents(y, x) && k <= |x|
    ensures Offspring(x, y, k, s1) && Offspring(y, x, k, s2)
  {
    var n := |x|;
    var a1 := new nat[n](_ => U32_MAX);
    var a2 := new nat[n](_ => U32_MAX);
    forall i | 0 <= i < k {
      a1[i] := x[i];
    }
    forall i | 0 <= i < k {
      a2[i] := y[i];
    }
    assert a1[..] == Partial(x, y, k, 0) && a2[..] == Partial(y, x, k, 0);
    var order1, order2 := MarkCommon(x, y, k, a1, a2);
    ReadyToFill(x, y, k);
    FillSlots(a1, a2, k, order1, order2, a1[..], a2[..]);
    s1, s2 := a1[..], a2[..];
  }

  /** The templates meet the fill loop's needs: matching fillers, none below the cut, one missing job per filler. */
  lemma ReadyToFill(x: seq<nat>, y: seq<nat>, k: nat)
    requires Parents(x, y) && Parents(y, x) && k <= |x|
    ensures var t1, t2 := Template(x, y, k), Template(y, x, k);
      Fillable(t1, t2, k, Missing(x, t2), Missing(y, t1))
  {
    SameFillers(x, y, k);
    TemplateHead(x, y, k);
    TemplateHead(y, x, k);
    MissingCount(x, y, k);
    MissingCount(y, x, k);
  }

  /**
   * A child holding the template's fixed jobs and the other parent's missing
   * jobs in its slots keeps its parent's prefix and shared jobs and is a
   * rearrangement of its parent.
   */
  lemma Child(own: seq<nat>, other: seq<nat>, k: nat, c: seq<nat>)
    requires Parents(own, other) && Parents(other, own) && k <= |own|
    requires Offspring(own, other, k, c)
    ensures |c| == |own| && c[..k] == own[..k]
    ensures forall i :: 0 <= i < |own| && own[i] == other[i] ==> c[i] == own[i]
    ensures multiset(c) == multiset(own)
    ensures forall i :: 0 <= i < |c| ==> c[i] != U32_MAX
  {
    ChildKeeps(own, other, k, c);
    var t := Template(own, other, k);
    TemplateSplit(c, t);
    MissingCount(own, other, k);
    forall i | 0 <= i < |c| ensures c[i] != U32_MAX {
      assert c[i] in multiset(own);
    }
  }

  /** What agrees with the template keeps the prefix and the shared jobs. */
  lemma ChildKeeps(own: seq<nat>, other: seq<nat>, k: nat, c: seq<nat>)
    requires Parents(own, other) && k <= |own| && Agrees(c, Template(own, other, k))
    ensures |c| == |own| && c[..k] == own[..k]
    ensures forall i :: 0 <= i < |own| && own[i] == other[i] ==> c[i] == own[i]
  {
    var t := Template(own, other, k);
    forall i | 0 <= i < |own| && (i < k || own[i] == other[i]) ensures c[i] == own[i] {
      assert t[i] == own[i] && own[i] != U32_MAX;
    }
  }

  /**
   * The `for_each` over the zipped parents: a shared job is written to both
   * children; otherwise `p1`'s job joins `p1_order` unless `c2` already
   * holds it, and `p2`'s joins `p2_order` unless `c1` does.
   */
  method MarkCommon(x: seq<nat>, y: seq<nat>, k: nat, a1: array<nat>, a2: array<nat>)
    returns (order1: seq<nat>, order2: seq<nat>)
    requires Parents(x, y) && Parents(y, x) && k <= |x| && a1 != a2
    requires a1.Length == |x| && a2.Length == |x|
    requires a1[..] == Partial(x, y, k, 0) && a2[..] == Partial(y, x, k, 0)
    modifies a1, a2
    ensures a1[..] == Template(x, y, k) && a2[..] == Template(y, x, k)
    ensures order1 == Missing(x, Template(y, x, k)) && order2 == Missing(y, Template(x, y, k))
  {
    var n := |x|;
    ghost var t1, t2 := Template(x, y, k), Template(y, x, k);
    order1, order2 := [], [];
    for i := 0 to n
      invariant a1[..] == Partial(x, y, k, i) && a2[..] == Partial(y, x, k, i)
      invariant order1 == Missing(x[..i], t2) && order2 == Missing(y[..i], t1)
    {
      assert x[..i + 1][..i] == x[..i] && y[..i + 1][..i] == y[..i];
      if x[i] == y[i] {
        assert x[i] in t2 && y[i] in t1 by {
          assert t2[i] == x[i] && t1[i] == y[i];
        }
        a1[i] := x[i];
        a2[i] := x[i];
      } else {
        ContainsEarly(y, x, k, i);
        ContainsEarly(x, y, k, i);
        if x[i] !in a2[..] {
          order1 := order1 + [x[i]];
        }
        if y[i] !in a1[..] {
          order2 := order2 + [y[i]];
        }
      }
      PartialStep(x, y, k, i);
      PartialStep(y, x, k, i);
    }
    assert x[..n] == x && y[..n] == y;
  }

  /** Visiting position `i` writes the shared job there, or nothing. */
  lemma PartialStep(own: seq<nat>, other: seq<nat>, k: nat, i: nat)
    requires |own| == |other| && i < |own|
    ensures Partial(own, other, k, i + 1) ==
      if own[i] == other[i] then Partial(own, other, k, i)[i := own[i]] else Partial(own, other, k, i)
  {
  }

  /**
   * Where the parents differ at `i`, `other[i]` is in the partly built
   * buffer of `own` exactly when it is in the finished template: a later
   * shared position cannot hold it, since `other` repeats no job.
   */
  lemma ContainsEarly(own: seq<nat>, other: seq<nat>, k: nat, i: nat)
    requires Parents(other, own) && i < |own| && own[i] != other[i]
    ensures other[i] in Partial(own, other, k, i) <==> other[i] in Template(own, other, k)
  {
    var p, t := Partial(own, other, k, i), Template(own, other, k);
    if other[i] in p {
      var j :| 0 <= j < |p| && p[j] == other[i];
      assert t[j] == p[j];
    }
    if other[i] in t {
      var j :| 0 <= j < |t| && t[j] == other[i];
      assert j < k || j < i;
      assert p[j] == t[j];
    }
  }

  /**
   * The loop `for i in k..len`: wherever `c1` still holds the filler, the
   * next job of `p2_order` goes to `c1` and the next of `p1_order` to `c2`.
   */
  method FillSlots(a1: array<nat>, a2: array<nat>, k: nat, order1: seq<nat>, order2: seq<nat>, ghost t1: seq<nat>, ghost t2: seq<nat>)
    requires a1 != a2 && a1[..] == t1 && a2[..] == t2 && Fillable(t1, t2, k, order1, order2)
    modifies a1, a2
    ensures Agrees(a1[..], t1) && Slots(a1[..], t1) == order2
    ensures Agrees(a2[..], t2) && Slots(a2[..], t2) == order1
  {
    var n := a1.Length;
    FillingStart(t1, k, order2);
    FillingStart(t2, k, order1);
    var rest1, rest2 := order1, order2;
    for i := k to n
      invariant Filling(a1[..], t1, i, rest2, order2) && Filling(a2[..], t2, i, rest1, order1)
    {
      rest1, rest2 := FillPosition(a1, a2, i, rest1, rest2, t1, t2, order1, order2);
    }
    FillingDone(a1[..], t1, rest2, order2);
    FillingDone(a2[..], t2, rest1, order1);
  }

  /**
   * Two child templates the fill loop can complete: equal length, the filler
   * at the same positions and never below the cut, and one job to place per
   * filler.
   */
  predicate Fillable(t1: seq<nat>, t2: seq<nat>, k: nat, order1: seq<nat>, order2: seq<nat>) {
    && |t1| == |t2| && k <= |t1|
    && (forall i :: 0 <= i < |t1| ==> (t1[i] == U32_MAX <==> t2[i] == U32_MAX))
    && (forall j :: 0 <= j < k ==> t1[j] != U32_MAX && t2[j] != U32_MAX)
    && |order2| == Count(t1, U32_MAX) && |order1| == Count(t2, U32_MAX)
  }

  /** The two templates hold the filler at the same positions. */
  lemma SameFillers(x: seq<nat>, y: seq<nat>, k: nat)
    requires Parents(x, y) && Parents(y, x)
    ensures forall i :: 0 <= i < |x| ==> (Template(x, y, k)[i] == U32_MAX <==> Template(y, x, k)[i] == U32_MAX)
  {
  }

  /** Below the cut both templates hold their parent's jobs, never the filler. */
  lemma TemplateHead(own: seq<nat>, other: seq<nat>, k: nat)
    requires Parents(own, other) && k <= |own|
    ensures forall j :: 0 <= j < k ==> Template(own, other, k)[j] != U32_MAX
  {
  }

  /** One round of the fill loop, at position `i` of both children. */
  method FillPosition(a1: array<nat>, a2: array<nat>, i: nat, rest1: seq<nat>, rest2: seq<nat>,
                      ghost t1: seq<nat>, ghost t2: seq<nat>, ghost order1: seq<nat>, ghost order2: seq<nat>)
    returns (rest1': seq<nat>, rest2': seq<nat>)
    requires a1 != a2 && i < |t1| == |t2| && (t1[i] == U32_MAX <==> t2[i] == U32_MAX)
    requires Filling(a1[..], t1, i, rest2, order2) && Filling(a2[..], t2, i, rest1, order1)
    modifies a1, a2
    ensures Filling(a1[..], t1, i + 1, rest2', order2) && Filling(a2[..], t2, i + 1, rest1', order1)
  {
    FillingRoom(a1[..], t1, i, rest2, order2);
    FillingRoom(a2[..], t2, i, rest1, order1);
    ghost var b1, b2 := a1[..], a2[..];
    rest1', rest2' := rest1, rest2;
    if a1[i] == U32_MAX {
      a1[i] := rest2[0];
      rest2' := rest2[1..];
      a2[i] := rest1[0];
      rest1' := rest1[1..];
    }
    FillingStep(b1, a1[..], t1, i, rest2, rest2', order2);
    FillingStep(b2, a2[..], t2, i, rest1, rest1', order1);
  }

  /**
   * The fill loop's state before position `i`: `a` keeps the template's
   * values, is untouched from `i` on, and its slots so far followed by the
   * jobs still to place are `order`, one job left per remaining filler.
   */
  predicate Filling(a: seq<nat>, t: seq<nat>, i: nat, rest: seq<nat>, order: seq<nat>) {
    && Agrees(a, t) && i <= |t|
    && (forall j :: i <= j < |t| ==> a[j] == t[j])
    && Slots(a[..i], t[..i]) + rest == order
    && |rest| == Count(t[i..], U32_MAX)
  }

  lemma FillingStart(t: seq<nat>, k: nat, order: seq<nat>)
    requires k <= |t| && |order| == Count(t, U32_MAX)
    requires forall j :: 0 <= j < k ==> t[j] != U32_MAX
    ensures Filling(t, t, k, order, order)
  {
    assert t == t[..k] + t[k..];
    assert U32_MAX !in t[..k];
    CountAppend(t[..k], t[k..], U32_MAX);
    CountAbsent(t[..k], U32_MAX);
    SlotsNone(t[..k], t[..k]);
  }

  lemma FillingRoom(a: seq<nat>, t: seq<nat>, i: nat, rest: seq<nat>, order: seq<nat>)
    requires Filling(a, t, i, rest, order) && i < |t|
    ensures a[i] == t[i] && (t[i] == U32_MAX ==> |rest| > 0)
  {
    CountFront(t[i..], U32_MAX);
  }

  /** Filling position `i` when it holds the filler, and leaving it otherwise, keeps the loop state. */
  lemma FillingStep(before: seq<nat>, after: seq<nat>, t: seq<nat>, i: nat, rest: seq<nat>, rest': seq<nat>, order: seq<nat>)
    requires Filling(before, t, i, rest, order) && i < |t|
    requires if t[i] == U32_MAX then |rest| > 0 && after == before[i := rest[0]] && rest' == rest[1..]
             else after == before && rest' == rest
    ensures Filling(after, t, i + 1, rest', order)
  {
    CountFront(t[i..], U32_MAX);
    assert t[i..][1..] == t[i + 1..];
    assert after[..i] == before[..i];
    SlotsStep(before, after, t, i);
    if t[i] == U32_MAX {
      assert rest == [rest[0]] + rest';
    }
  }

  lemma FillingDone(a: seq<nat>, t: seq<nat>, rest: seq<nat>, order: seq<nat>)
    requires Filling(a, t, |t|, rest, order)
    ensures Agrees(a, t) && Slots(a, t) == order
  {
    assert a[..|t|] == a && t[..|t|] == t && t[|t|..] == [];
  }

  /** Changing position `i` only extends the slots read so far by what is now at `i`. */
  lemma SlotsStep(before: seq<nat>, after: seq<nat>, t: seq<nat>, i: nat)
    requires |before| == |after| == |t| && i < |t| && after[..i] == before[..i]
    ensures Slots(after[..i + 1], t[..i + 1]) ==
      Slots(before[..i], t[..i]) + (if t[i] == U32_MAX then [after[i]] else [])
  {
    assert after[..i + 1][..i] == after[..i] && t[..i + 1][..i] == t[..i];
  }

  lemma {:induction false} SlotsNone(c: seq<nat>, t: seq<nat>)
    requires |c| == |t| && U32_MAX !in t
    ensures Slots(c, t) == []
  {
    if c != [] {
      SlotsNone(c[..|c| - 1], t[..|t| - 1]);
    }
  }

  // ---- Counting the slots ----

  /**
   * A sequence agreeing with `t` splits into the template's fixed values and
   * what it holds in the slots, and there are as many slots as fillers.
   */
  lemma {:induction false} TemplateSplit(c: seq<nat>, t: seq<nat>)
    requires Agrees(c, t)
    ensures multiset(c) == multiset(Fixed(t)) + multiset(Slots(c, t))
    ensures |Slots(c, t)| == Count(t, U32_MAX) && |Fixed(t)| + |Slots(c, t)| == |t|
  {
    if c != [] {
      AgreesPop(c, t);
      TemplateSplit(c[..|c| - 1], t[..|t| - 1]);
      SplitPop(c, t);
    }
  }

  lemma AgreesPop(c: seq<nat>, t: seq<nat>)
    requires Agrees(c, t) && c != []
    ensures Agrees(c[..|c| - 1], t[..|t| - 1])
  {
    var c', t' := c[..|c| - 1], t[..|t| - 1];
    assert forall i :: 0 <= i < |t'| ==> c'[i] == c[i] && t'[i] == t[i];
  }

  /** The last position of a template adds its value to the slots or to the fixed values. */
  lemma SplitPop(c: seq<nat>, t: seq<nat>)
    requires Agrees(c, t) && c != []
    ensures var c', t' := c[..|c| - 1], t[..|t| - 1];
      && multiset(c) == multiset(c') + multiset{Last(c)}
      && Count(t, U32_MAX) == Count(t', U32_MAX) + (if Last(t) == U32_MAX then 1 else 0)
      && (Last(t) == U32_MAX ==>
            multiset(Slots(c, t)) == multiset(Slots(c', t')) + multiset{Last(c)} && Fixed(t) == Fixed(t')
            && |Slots(c, t)| == |Slots(c', t')| + 1)
      && (Last(t) != U32_MAX ==>
            Slots(c, t) == Slots(c', t') && multiset(Fixed(t)) == multiset(Fixed(t')) + multiset{Last(c)}
            && |Fixed(t)| == |Fixed(t')| + 1)
  {
    var c', t' := c[..|c| - 1], t[..|t| - 1];
    assert c == c' + [Last(c)];
    assert t == t' + [Last(t)];
    CountAppend(t', [Last(t)], U32_MAX);
  }

  /** The fixed values of a template are jobs of `own` in order, so they do not repeat. */
  lemma {:induction false} FixedOfPartial(own: seq<nat>, t: seq<nat>, v: nat)
    requires |own| == |t| && forall j :: 0 <= j < |t| && t[j] != U32_MAX ==> t[j] == own[j]
    requires Distinct(own)
    ensures multiset(Fixed(t))[v] == if v in t && v != U32_MAX then 1 else 0
  {
    if t != [] {
      var own', t' := own[..|own| - 1], t[..|t| - 1];
      FixedOfPartial(own', t', v);
      assert t == t' + [Last(t)];
      assert forall j :: 0 <= j < |t'| && t'[j] != U32_MAX ==> t'[j] == own[j] && own[j] != Last(own);
      assert Last(t) != U32_MAX ==> Last(t) !in t';
    }
  }

  lemma {:induction false} MissingCountOf(s: seq<nat>, t: seq<nat>, v: nat)
    requires Distinct(s)
    ensures multiset(Missing(s, t))[v] == if v in s && v !in t then 1 else 0
  {
    if s != [] {
      var s', x := s[..|s| - 1], Last(s);
      DistinctPop(s);
      MissingCountOf(s', t, v);
      MissingPop(s, t);
      PopLast(s);
      assert v in s <==> v in s' || v == x;
    }
  }

  lemma MissingPop(s: seq<nat>, t: seq<nat>)
    requires s != []
    ensures multiset(Missing(s, t)) == multiset(Missing(s[..|s| - 1], t)) + multiset(if Last(s) in t then [] else [Last(s)])
  {
    assert Missing(s, t) == Missing(s[..|s| - 1], t) + (if Last(s) in t then [] else [Last(s)]);
  }

  /**
   * The jobs `c1` is missing number exactly its slots, and together with its
   * fixed jobs they are `p2`'s jobs; so the slots never run out and the
   * child is a rearrangement of the parents.
   */
  lemma MissingCount(x: seq<nat>, y: seq<nat>, k: nat)
    requires Parents(x, y) && Parents(y, x) && k <= |x|
    ensures var t := Template(x, y, k);
      && multiset(Fixed(t)) + multiset(Missing(y, t)) == multiset(y)
      && |Missing(y, t)| == Count(t, U32_MAX)
  {
    var t := Template(x, y, k);
    forall v ensures (multiset(Fixed(t)) + multiset(Missing(y, t)))[v] == multiset(y)[v] {
      FixedOfPartial(x, t, v);
      MissingCountOf(y, t, v);
      DistinctCount(y, v);
      if v in t && v != U32_MAX {
        var j :| 0 <= j < |t| && t[j] == v;
        assert v in multiset(x);
      }
      if v == U32_MAX {
        assert v !in multiset(y);
      }
    }
    assert multiset(Fixed(t)) + multiset(Missing(y, t)) == multiset(y);
    TemplateSplit(t, t);
  }

  // ---- What the children are ----

  /** The fixed values and the slot contents determine a sequence completely. */
  lemma {:induction false} SlotsDetermine(c: seq<nat>, d: seq<nat>, t: seq<nat>)
    requires Agrees(c, t) && Agrees(d, t) && Slots(c, t) == Slots(d, t)
    ensures c == d
  {
    if c != [] {
      var c', d', t' := c[..|c| - 1], d[..|d| - 1], t[..|t| - 1];
      assert Agrees(c', t') && Agrees(d', t');
      var sc, sd := Slots(c', t'), Slots(d', t');
      SlotsLength(c', t');
      SlotsLength(d', t');
      if Last(t) == U32_MAX {
        assert Slots(c, t) == sc + [Last(c)] && Slots(d, t) == sd + [Last(d)];
        assert sc == Slots(c, t)[..|sc|] && sd == Slots(d, t)[..|sd|];
      } else {
        assert Slots(c, t) == sc && Slots(d, t) == sd;
      }
      SlotsDetermine(c', d', t');
      assert c == c' + [Last(c)] && d == d' + [Last(d)];
    }
  }

  /** A sequence fills one slot per filler of the template. */
  lemma {:induction false} SlotsLength(c: seq<nat>, t: seq<nat>)
    requires |c| == |t|
    ensures |Slots(c, t)| == Count(t, U32_MAX)
  {
    if c != [] {
      SlotsLength(c[..|c| - 1], t[..|t| - 1]);
    }
  }

  // ---- The crate's example ----

  /** `Missing` over a prefix one job longer. */
  lemma MissingNext(s: seq<nat>, t: seq<nat>, n: nat)
    requires n < |s|
    ensures Missing(s[..n + 1], t) == Missing(s[..n], t) + (if s[n] in t then [] else [s[n]])
  {
    assert s[..n + 1][..n] == s[..n];
  }

  /** `Slots` over prefixes one position longer. */
  lemma SlotsNext(c: seq<nat>, t: seq<nat>, n: nat)
    requires |c| == |t| && n < |c|
    ensures Slots(c[..n + 1], t[..n + 1]) == Slots(c[..n], t[..n]) + (if t[n] == U32_MAX then [c[n]] else [])
  {
    assert c[..n + 1][..n] == c[..n] && t[..n + 1][..n] == t[..n];
  }

  /** One more position of `Slots` over prefixes, from the known value of the shorter one. */
  lemma SlotsPrefixStep(c: seq<nat>, t: seq<nat>, n: nat, before: seq<nat>, after: seq<nat>)
    requires |c| == |t| && n < |c| && Slots(c[..n], t[..n]) == before
    requires after == before + (if t[n] == U32_MAX then [c[n]] else [])
    ensures Slots(c[..n + 1], t[..n + 1]) == after
  {
    SlotsNext(c, t, n);
  }

  /** Cut at 4, the parents of the crate's example share the jobs at positions 6 and 8. */
  lemma ExampleTemplates()
    ensures Template([4, 7, 9, 3, 5, 2, 6, 8, 1], [9, 2, 4, 5, 7, 8, 6, 3, 1], 4)
      == [4, 7, 9, 3, U32_MAX, U32_MAX, 6, U32_MAX, 1]
    ensures Template([9, 2, 4, 5, 7, 8, 6, 3, 1], [4, 7, 9, 3, 5, 2, 6, 8, 1], 4)
      == [9, 2, 4, 5, U32_MAX, U32_MAX, 6, U32_MAX, 1]
  {
  }

  /** The jobs the first example child lacks, in the second parent's order. */
  lemma FirstExampleMissing()
    ensures Missing([9, 2, 4, 5, 7, 8, 6, 3, 1], [4, 7, 9, 3, U32_MAX, U32_MAX, 6, U32_MAX, 1]) == [2, 5, 8]
  {
    var s: seq<nat>, t: seq<nat> := [9, 2, 4, 5, 7, 8, 6, 3, 1], [4, 7, 9, 3, U32_MAX, U32_MAX, 6, U32_MAX, 1];
    var prefixes: seq<seq<nat>> := [[], [], [2], [2], [2, 5], [2, 5], [2, 5, 8], [2, 5, 8], [2, 5, 8], [2, 5, 8]];
    assert s[..0] == [];
    assert forall n :: 0 <= n < 9 ==> prefixes[n + 1] == prefixes[n] + (if s[n] in t then [] else [s[n]]);
    for n := 0 to 9
      invariant Missing(s[..n], t) == prefixes[n]
    {
      MissingNext(s, t, n);
      assert prefixes[n + 1] == prefixes[n] + (if s[n] in t then [] else [s[n]]);
    }
    assert s[..9] == s;
  }

  /** The jobs the second example child lacks, in the first parent's order. */
  lemma SecondExampleMissing()
    ensures Missing([4, 7, 9, 3, 5, 2, 6, 8, 1], [9, 2, 4, 5, U32_MAX, U32_MAX, 6, U32_MAX, 1]) == [7, 3, 8]
  {
    var s: seq<nat>, t: seq<nat> := [4, 7, 9, 3, 5, 2, 6, 8, 1], [9, 2, 4, 5, U32_MAX, U32_MAX, 6, U32_MAX, 1];
    var prefixes: seq<seq<nat>> := [[], [], [7], [7], [7, 3], [7, 3], [7, 3], [7, 3], [7, 3, 8], [7, 3, 8]];
    assert s[..0] == [];
    assert forall n :: 0 <= n < 9 ==> prefixes[n + 1] == prefixes[n] + (if s[n] in t then [] else [s[n]]);
    for n := 0 to 9
      invariant Missing(s[..n], t) == prefixes[n]
    {
      MissingNext(s, t, n);
      assert prefixes[n + 1] == prefixes[n] + (if s[n] in t then [] else [s[n]]);
    }
    assert s[..9] == s;
  }

  /** The first example child's jobs at the template's empty positions. */
  lemma FirstExampleSlots()
    ensures Slots([4, 7, 9, 3, 2, 5, 6, 8, 1], [4, 7, 9, 3, U32_MAX, U32_MAX, 6, U32_MAX, 1]) == [2, 5, 8]
  {
    var c: seq<nat>, t: seq<nat> := [4, 7, 9, 3, 2, 5, 6, 8, 1], [4, 7, 9, 3, U32_MAX, U32_MAX, 6, U32_MAX, 1];
    var prefixes: seq<seq<nat>> := [[], [], [], [], [], [2], [2, 5], [2, 5], [2, 5, 8], [2, 5, 8]];
    assert c[..0] == [] && t[..0] == [];
    assert forall n :: 0 <= n < 9 ==> prefixes[n + 1] == prefixes[n] + (if t[n] == U32_MAX then [c[n]] else []);
    for n := 0 to 9
      invariant Slots(c[..n], t[..n]) == prefixes[n]
    {
      SlotsPrefixStep(c, t, n, prefixes[n], prefixes[n + 1]);
    }
    assert c[..9] == c && t[..9] == t;
  }

  /** The second example child's jobs at the template's empty positions. */
  lemma SecondExampleSlots()
    ensures Slots([9, 2, 4, 5, 7, 3, 6, 8, 1], [9, 2, 4, 5, U32_MAX, U32_MAX, 6, U32_MAX, 1]) == [7, 3, 8]
  {
    var c: seq<nat>, t: seq<nat> := [9, 2, 4, 5, 7, 3, 6, 8, 1], [9, 2, 4, 5, U32_MAX, U32_MAX, 6, U32_MAX, 1];
    var prefixes: seq<seq<nat>> := [[], [], [], [], [], [7], [7, 3], [7, 3], [7, 3, 8], [7, 3, 8]];
    assert c[..0] == [] && t[..0] == [];
    assert forall n :: 0 <= n < 9 ==> prefixes[n + 1] == prefixes[n] + (if t[n] == U32_MAX then [c[n]] else []);
    for n := 0 to 9
      invariant Slots(c[..n], t[..n]) == prefixes[n]
    {
      SlotsPrefixStep(c, t, n, prefixes[n], prefixes[n + 1]);
    }
    assert c[..9] == c && t[..9] == t;
  }

  /** The parents of the crate's SJOX example hold each of the jobs 1 to 9 once. */
  lemma ExampleJobs()
    ensures var p1: seq<nat>, p2: seq<nat> := [4, 7, 9, 3, 5, 2, 6, 8, 1], [9, 2, 4, 5, 7, 8, 6, 3, 1];
      && Distinct(p1) && Distinct(p2) && (forall i :: 0 <= i < |p1| ==> p1[i] < U32_MAX)
      && forall x :: x in p1 <==> x in p2
  {
  }

  /** So they are two orders of the same jobs, as SJOX requires. */
  lemma ExampleParents()
    ensures Parents([4, 7, 9, 3, 5, 2, 6, 8, 1], [9, 2, 4, 5, 7, 8, 6, 3, 1])
  {
    ExampleJobs();
    SameDistinct([4, 7, 9, 3, 5, 2, 6, 8, 1], [9, 2, 4, 5, 7, 8, 6, 3, 1]);
  }

  /** The first child the crate's SJOX example (cut 4) expects is offspring of its parents. */
  lemma FirstExampleChild()
    ensures Offspring([4, 7, 9, 3, 5, 2, 6, 8, 1], [9, 2, 4, 5, 7, 8, 6, 3, 1], 4, [4, 7, 9, 3, 2, 5, 6, 8, 1])
  {
    ExampleTemplates();
    FirstExampleMissing();
    FirstExampleSlots();
  }

  /** So is the second, with the parents' roles swapped. */
  lemma SecondExampleChild()
    ensures Offspring([9, 2, 4, 5, 7, 8, 6, 3, 1], [4, 7, 9, 3, 5, 2, 6, 8, 1], 4, [9, 2, 4, 5, 7, 3, 6, 8, 1])
  {
    ExampleTemplates();
    SecondExampleMissing();
    SecondExampleSlots();
  }

  /**
   * So the crate's SJOX example is forced: any children meeting `Sjox`'s
   * contract for those parents and cut 4 are exactly the expected ones.
   */
  lemma SjoxExample(c1: seq<nat>, c2: seq<nat>)
    requires Offspring([4, 7, 9, 3, 5, 2, 6, 8, 1], [9, 2, 4, 5, 7, 8, 6, 3, 1], 4, c1)
    requires Offspring([9, 2, 4, 5, 7, 8, 6, 3, 1], [4, 7, 9, 3, 5, 2, 6, 8, 1], 4, c2)
    ensures c1 == [4, 7, 9, 3, 2, 5, 6, 8, 1] && c2 == [9, 2, 4, 5, 7, 3, 6, 8, 1]
  {
    ExampleTemplates();
    FirstExampleChild();
    SecondExampleChild();
    SlotsDetermine(c1, [4, 7, 9, 3, 2, 5, 6, 8, 1], [4, 7, 9, 3, U32_MAX, U32_MAX, 6, U32_MAX, 1]);
    SlotsDetermine(c2, [9, 2, 4, 5, 7, 3, 6, 8, 1], [9, 2, 4, 5, U32_MAX, U32_MAX, 6, U32_MAX, 1]);
  }
}
