/**
  The pure part of the slot-assignment search engine: the problem, candidate
  assignments of one observer to classes slot by slot, the subject counters and
  distinct-class set that a path induces, and the cost function that the search
  minimises. Costs are exact reals instead of f64.
*/
module PlannerCore {
  import opened Wrappers

  /** Weight of the subject-balance term against the distinct-class term. */
  const BALANCE_WT: real := 0.1

  /** The incumbent cost: a real, or +infinity before any solution is known. */
  datatype Bound = Finite(value: real) | Infinity

  /** `x < bound`, the comparison the search makes against `best_cost`. */
  predicate Below(x: real, bound: Bound) {
    bound.Infinity? || x < bound.value
  }

  /** `a <= b` on bounds, with +infinity as the top element. */
  predicate AtMost(a: Bound, b: Bound) {
    b.Infinity? || (a.Finite? && a.value <= b.value)
  }

  /** The class observed at each slot, or `None` for an unattended slot. */
  type Assignment = seq<Option<nat>>

  /**
    A search problem: `schedule[class][slot]` holds the subject taught to that
    class at that slot, and `subjectWeights[i]` pairs a subject with its share.
  */
  datatype Problem = Problem(
    timeSlots: nat,
    classes: nat,
    subjectWeights: seq<(nat, real)>,
    schedule: seq<seq<Option<nat>>>)

  function Abs(x: real): real {
    if x < 0.0 then -x else x
  }

  /** The index of the first weight entry for `subject` (`iter().position`). */
  function SubjectPosition(weights: seq<(nat, real)>, subject: nat): (r: Option<nat>)
    ensures r.Some? ==> r.value < |weights| && weights[r.value].0 == subject
    ensures r.Some? ==> forall j :: 0 <= j < r.value ==> weights[j].0 != subject
    ensures r.None? <==> forall j :: 0 <= j < |weights| ==> weights[j].0 != subject
  {
    if |weights| == 0 then None
    else if weights[0].0 == subject then Some(0)
    else match SubjectPosition(weights[1..], subject)
      case None => None
      case Some(i) => Some(i + 1)
  }

  /** Every subject's ideal count `time_slots * weight` is positive, so the cost is defined. */
  ghost predicate IdealsPositive(timeSlots: nat, weights: seq<(nat, real)>) {
    forall i :: 0 <= i < |weights| ==> timeSlots as real * weights[i].1 > 0.0
  }

  /**
    What the search demands of its problem: the schedule is `classes x timeSlots`,
    every ideal count is positive, and every subject in the schedule has a weight
    entry (otherwise the source panics in `expect`).
  */
  ghost predicate WellFormed(p: Problem) {
    && |p.schedule| == p.classes
    && (forall c :: 0 <= c < p.classes ==> |p.schedule[c]| == p.timeSlots)
    && IdealsPositive(p.timeSlots, p.subjectWeights)
    && (forall c, s :: 0 <= c < p.classes && 0 <= s < p.timeSlots && p.schedule[c][s].Some? ==>
          SubjectPosition(p.subjectWeights, p.schedule[c][s].value).Some?)
  }

  /** The counter index of the subject class `c` is taught at `slot`. */
  function SubjectAt(p: Problem, c: nat, slot: nat): (i: nat)
    requires WellFormed(p) && c < p.classes && slot < p.timeSlots && p.schedule[c][slot].Some?
    ensures i < |p.subjectWeights| && p.subjectWeights[i].0 == p.schedule[c][slot].value
  {
    SubjectPosition(p.subjectWeights, p.schedule[c][slot].value).value
  }

  /**
    The imbalance term: the sum over (count, weight) pairs, zipped as `Iterator::zip`
    does, of `|count - ideal| / ideal` with `ideal = time_slots * weight`.
  */
  function Imbalance(timeSlots: nat, counts: seq<nat>, weights: seq<(nat, real)>): real
    requires IdealsPositive(timeSlots, weights)
  {
    if |counts| == 0 || |weights| == 0 then 0.0
    else
      var ideal := timeSlots as real * weights[0].1;
      Abs(counts[0] as real - ideal) / ideal + Imbalance(timeSlots, counts[1..], weights[1..])
  }

  lemma {:induction false} ImbalanceNonNegative(timeSlots: nat, counts: seq<nat>, weights: seq<(nat, real)>)
    requires IdealsPositive(timeSlots, weights)
    ensures Imbalance(timeSlots, counts, weights) >= 0.0
  {
    if |counts| != 0 && |weights| != 0 {
      ImbalanceNonNegative(timeSlots, counts[1..], weights[1..]);
      var ideal := timeSlots as real * weights[0].1;
      assert Abs(counts[0] as real - ideal) / ideal >= 0.0;
    }
  }

  /** The source's `cost`: distinct classes plus the weighted imbalance term. */
  function Cost(p: Problem, usedClasses: seq<nat>, counts: seq<nat>): (r: real)
    requires IdealsPositive(p.timeSlots, p.subjectWeights)
    ensures r >= |usedClasses| as real
  {
    ImbalanceNonNegative(p.timeSlots, counts, p.subjectWeights);
    |usedClasses| as real + BALANCE_WT * Imbalance(p.timeSlots, counts, p.subjectWeights)
  }

  /** `a` is a prefix of a path through the schedule: each chosen class teaches at its slot. */
  ghost predicate Feasible(p: Problem, a: Assignment)
    requires WellFormed(p)
  {
    |a| <= p.timeSlots &&
    forall s :: 0 <= s < |a| && a[s].Some? ==> a[s].value < p.classes && p.schedule[a[s].value][s].Some?
  }

  /** Some class has a lesson at `slot`. */
  ghost predicate Offered(p: Problem, slot: nat)
    requires WellFormed(p) && slot < p.timeSlots
  {
    exists c :: 0 <= c < p.classes && p.schedule[c][slot].Some?
  }

  /** Some class below `c` has a lesson at `slot`: the source's `assigned` after `c` iterations. */
  function OfferedBelow(p: Problem, slot: nat, c: nat): bool
    requires WellFormed(p) && slot < p.timeSlots && c <= p.classes
  {
    c > 0 && (OfferedBelow(p, slot, c - 1) || p.schedule[c - 1][slot].Some?)
  }

  /** After the whole class loop, `assigned` says exactly whether the slot is offered. */
  lemma {:induction false} OfferedBelowAll(p: Problem, slot: nat, c: nat)
    requires WellFormed(p) && slot < p.timeSlots && c <= p.classes
    ensures OfferedBelow(p, slot, c) <==> exists k :: 0 <= k < c && p.schedule[k][slot].Some?
    decreases c
  {
    if c > 0 {
      OfferedBelowAll(p, slot, c - 1);
    }
  }

  /**
    `a` is a path the search can build: feasible, and a slot is left unattended only
    when no class has a lesson at it.
  */
  ghost predicate Explorable(p: Problem, a: Assignment)
    requires WellFormed(p)
  {
    Feasible(p, a) && forall s :: 0 <= s < |a| && a[s].None? ==> !Offered(p, s)
  }

  /** `e` is a complete explorable path that extends `prefix`. */
  ghost predicate Completion(p: Problem, prefix: Assignment, e: Assignment)
    requires WellFormed(p)
  {
    |e| == p.timeSlots && prefix <= e && Explorable(p, e)
  }

  /** A completion of `prefix` is also a completion of `prefix` extended by its next slot. */
  lemma CompletionExtend(p: Problem, prefix: Assignment, e: Assignment)
    requires WellFormed(p) && Completion(p, prefix, e) && |prefix| < |e|
    ensures Completion(p, prefix + [e[|prefix|]], e)
  {
    assert e[..|prefix| + 1] == e[..|prefix|] + [e[|prefix|]];
  }

  /** An explorable path attends every slot at which some class has a lesson, and no other. */
  lemma ExplorableSlot(p: Problem, a: Assignment, s: nat)
    requires WellFormed(p) && Explorable(p, a) && s < |a|
    ensures a[s].Some? <==> Offered(p, s)
  {
    if a[s].Some? {
      var c := a[s].value;
      assert 0 <= c < p.classes && p.schedule[c][s].Some?;
    }
  }

  function Zeros(n: nat): (r: seq<nat>)
    ensures |r| == n && forall i :: 0 <= i < n ==> r[i] == 0
  {
    seq(n, _ => 0)
  }

  /** The subject counters induced by the path `a`: one increment per attended slot. */
  ghost function Counts(p: Problem, a: Assignment): (r: seq<nat>)
    requires WellFormed(p) && Feasible(p, a)
    ensures |r| == |p.subjectWeights|
    decreases |a|
  {
    if |a| == 0 then Zeros(|p.subjectWeights|)
    else
      var before := Counts(p, a[..|a| - 1]);
      match a[|a| - 1]
      case None => before
      case Some(c) =>
        var i := SubjectAt(p, c, |a| - 1);
        before[i := before[i] + 1]
  }

  /** The distinct classes visited by `a`. */
  ghost function ClassesOf(a: Assignment): set<nat> {
    set s | 0 <= s < |a| && a[s].Some? :: a[s].value
  }

  /** The cost of a path, computed from the path alone. */
  ghost function AssignmentCost(p: Problem, a: Assignment): real
    requires WellFormed(p) && Feasible(p, a)
  {
    |ClassesOf(a)| as real + BALANCE_WT * Imbalance(p.timeSlots, Counts(p, a), p.subjectWeights)
  }

  function Sum(s: seq<nat>): nat {
    if |s| == 0 then 0 else s[0] + Sum(s[1..])
  }

  /** The number of attended slots of `a`. */
  function Attended(a: Assignment): nat {
    if |a| == 0 then 0 else (if a[|a| - 1].Some? then 1 else 0) + Attended(a[..|a| - 1])
  }

  predicate NoDuplicates(s: seq<nat>) {
    forall i, j :: 0 <= i < j < |s| ==> s[i] != s[j]
  }

  ghost function Elements(s: seq<nat>): set<nat> {
    set x | x in s
  }

  /** `Vec::retain(|x| *x != c)`: drop every occurrence of `c`, keep the order of the rest. */
  function Retain(s: seq<nat>, c: nat): (r: seq<nat>)
    ensures forall x :: x in r <==> x in s && x != c
    ensures |r| <= |s|
  {
    if |s| == 0 then []
    else if s[0] == c then Retain(s[1..], c)
    else [s[0]] + Retain(s[1..], c)
  }

  // ---------------------------------------------------------------------------
  // Lemmas about paths, counters and costs
  // ---------------------------------------------------------------------------

  lemma SumUpdate(s: seq<nat>, i: nat, v: nat)
    requires i < |s|
    ensures Sum(s[i := v]) == Sum(s) - s[i] + v
  {
    if i > 0 {
      assert s[i := v][1..] == s[1..][i - 1 := v];
      SumUpdate(s[1..], i - 1, v);
    } else {
      assert s[i := v][1..] == s[1..];
    }
  }

  lemma SumZeros(n: nat)
    ensures Sum(Zeros(n)) == 0
  {
    if n > 0 {
      assert Zeros(n)[1..] == Zeros(n - 1);
      SumZeros(n - 1);
    }
  }

  /** The subject counters add up to the number of attended slots. */
  lemma {:induction false} CountsSum(p: Problem, a: Assignment)
    requires WellFormed(p) && Feasible(p, a)
    ensures Sum(Counts(p, a)) == Attended(a)
    decreases |a|
  {
    if |a| == 0 {
      SumZeros(|p.subjectWeights|);
    } else {
      var init := a[..|a| - 1];
      CountsSum(p, init);
      match a[|a| - 1]
      case None =>
      case Some(c) =>
        var before := Counts(p, init);
        var i := SubjectAt(p, c, |a| - 1);
        SumUpdate(before, i, before[i] + 1);
    }
  }

  lemma FeasibleAppend(p: Problem, a: Assignment, x: Option<nat>)
    requires WellFormed(p) && Feasible(p, a) && |a| < p.timeSlots
    requires x.Some? ==> x.value < p.classes && p.schedule[x.value][|a|].Some?
    ensures Feasible(p, a + [x])
  {
  }

  lemma ExplorableAppend(p: Problem, a: Assignment, x: Option<nat>)
    requires WellFormed(p) && Explorable(p, a) && |a| < p.timeSlots
    requires x.Some? ==> x.value < p.classes && p.schedule[x.value][|a|].Some?
    requires x.None? ==> !Offered(p, |a|)
    ensures Explorable(p, a + [x])
  {
    FeasibleAppend(p, a, x);
    forall s | 0 <= s < |a + [x]| && (a + [x])[s].None?
      ensures !Offered(p, s)
    {
      if s < |a| {
        assert (a + [x])[s] == a[s];
      }
    }
  }

  lemma CountsAppend(p: Problem, a: Assignment, x: Option<nat>)
    requires WellFormed(p) && Feasible(p, a) && |a| < p.timeSlots
    requires x.Some? ==> x.value < p.classes && p.schedule[x.value][|a|].Some?
    ensures Feasible(p, a + [x])
    ensures x.None? ==> Counts(p, a + [x]) == Counts(p, a)
    ensures x.Some? ==>
      var i := SubjectAt(p, x.value, |a|);
      Counts(p, a + [x]) == Counts(p, a)[i := Counts(p, a)[i] + 1]
  {
    FeasibleAppend(p, a, x);
    assert (a + [x])[..|a|] == a;
  }

  lemma ClassesOfAppend(a: Assignment, x: Option<nat>)
    ensures x.None? ==> ClassesOf(a + [x]) == ClassesOf(a)
    ensures x.Some? ==> ClassesOf(a + [x]) == ClassesOf(a) + {x.value}
  {
    var b := a + [x];
    forall y | y in ClassesOf(b)
      ensures y in ClassesOf(a) || (x.Some? && y == x.value)
    {
      var s :| 0 <= s < |b| && b[s].Some? && b[s].value == y;
      if s < |a| {
        assert a[s] == b[s];
      }
    }
    forall y | y in ClassesOf(a)
      ensures y in ClassesOf(b)
    {
      var s :| 0 <= s < |a| && a[s].Some? && a[s].value == y;
      assert b[s] == a[s];
    }
    if x.Some? {
      assert b[|a|] == x;
      assert x.value in ClassesOf(b);
    }
  }

  /** Without duplicates, a list has as many elements as its set of elements. */
  lemma {:induction false} DistinctCardinality(s: seq<nat>)
    requires NoDuplicates(s)
    ensures |Elements(s)| == |s|
  {
    if |s| > 0 {
      var init := s[..|s| - 1];
      var last := s[|s| - 1];
      assert NoDuplicates(init);
      DistinctCardinality(init);
      assert last !in init;
      assert s == init + [last];
      assert Elements(s) == Elements(init) + {last};
    }
  }

  /** Removing the class that was just pushed gives the list back. */
  lemma {:induction false} RetainAppend(s: seq<nat>, c: nat)
    requires c !in s
    ensures Retain(s + [c], c) == s
  {
    if |s| == 0 {
      assert [c][1..] == [];
    } else {
      assert (s + [c])[1..] == s[1..] + [c];
      RetainAppend(s[1..], c);
      assert s == [s[0]] + s[1..];
    }
  }

  lemma SubsetCardinality(a: set<nat>, b: set<nat>)
    requires a <= b
    ensures |a| <= |b|
  {
    assert b == a + (b - a);
  }

  /** Every class of a prefix is a class of each of its extensions. */
  lemma ClassesOfPrefix(prefix: Assignment, e: Assignment)
    requires prefix <= e
    ensures ClassesOf(prefix) <= ClassesOf(e)
  {
    forall y | y in ClassesOf(prefix)
      ensures y in ClassesOf(e)
    {
      var s :| 0 <= s < |prefix| && prefix[s].Some? && prefix[s].value == y;
      assert e[s] == prefix[s];
    }
  }

  /**
    The distinct-class term is a lower bound for every completion: no completion of a
    prefix costs less than the number of classes the prefix already visits.
  */
  lemma CompletionCostBound(p: Problem, prefix: Assignment, e: Assignment)
    requires WellFormed(p) && Completion(p, prefix, e)
    ensures AssignmentCost(p, e) >= |ClassesOf(prefix)| as real
  {
    ClassesOfPrefix(prefix, e);
    SubsetCardinality(ClassesOf(prefix), ClassesOf(e));
    ImbalanceNonNegative(p.timeSlots, Counts(p, e), p.subjectWeights);
  }
}
