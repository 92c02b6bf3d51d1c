/**
  The recursive branch-and-bound search of the planner core. The source threads its
  search state through exclusive `&mut` parameters (`current`, `used_classes`,
  `subject_counts`, `best`, `best_cost`); each method here takes that state in and
  returns its final value, which is what the caller observes after the call.
*/
module PlannerSearch {
  import opened Wrappers
  import opened PlannerCore

  /**
    The pruning test exactly as the source writes it: search on only while the cost
    of the partial path is below the incumbent's.
  */
  predicate ContinuesAsWritten(p: Problem, usedClasses: seq<nat>, counts: seq<nat>, bestCost: Bound)
    requires IdealsPositive(p.timeSlots, p.subjectWeights)
  {
    Below(Cost(p, usedClasses, counts), bestCost)
  }

  /**
    A sound pruning test: search on only while the number of distinct classes, which
    no completion can lower, is below the incumbent's cost.
  */
  predicate ContinuesBounded(usedClasses: seq<nat>, bestCost: Bound) {
    Below(|usedClasses| as real, bestCost)
  }

  /** Every completion of `prefix` costs at least `bound`. */
  ghost predicate Dominates(p: Problem, bound: Bound, prefix: Assignment)
    requires WellFormed(p)
  {
    forall e: Assignment :: Completion(p, prefix, e) ==> AtMost(bound, Finite(AssignmentCost(p, e)))
  }

  /** Every completion of `prefix` that observes a class below `c` next costs at least `bound`. */
  ghost predicate DominatesBelow(p: Problem, bound: Bound, prefix: Assignment, c: nat)
    requires WellFormed(p)
  {
    forall e: Assignment :: Completion(p, prefix, e) && |prefix| < |e| && e[|prefix|].Some? && e[|prefix|].value < c ==>
      AtMost(bound, Finite(AssignmentCost(p, e)))
  }

  lemma AtMostTransitive(a: Bound, b: Bound, c: Bound)
    requires AtMost(a, b) && AtMost(b, c)
    ensures AtMost(a, c)
  {
  }

  lemma DominatesWeaken(p: Problem, b: Bound, b': Bound, prefix: Assignment, c: nat)
    requires WellFormed(p) && AtMost(b', b)
    ensures Dominates(p, b, prefix) ==> Dominates(p, b', prefix)
    ensures DominatesBelow(p, b, prefix, c) ==> DominatesBelow(p, b', prefix, c)
  {
  }

  /** A completion of `prefix` that observes `c` next is a completion of `prefix + [Some(c)]`. */
  lemma DominatesStep(p: Problem, b: Bound, prefix: Assignment, c: nat)
    requires WellFormed(p) && |prefix| < p.timeSlots
    requires DominatesBelow(p, b, prefix, c)
    requires Dominates(p, b, prefix + [Some(c)]) || c >= p.classes || p.schedule[c][|prefix|].None?
    ensures DominatesBelow(p, b, prefix, c + 1)
  {
    forall e: Assignment | Completion(p, prefix, e) && |prefix| < |e| && e[|prefix|].Some? && e[|prefix|].value < c + 1
      ensures AtMost(b, Finite(AssignmentCost(p, e)))
    {
      if e[|prefix|].value == c {
        CompletionExtend(p, prefix, e);
        ExplorableSlot(p, e, |prefix|);
      }
    }
  }

  /** Once every class has been tried at an offered slot, all completions are covered. */
  lemma DominatesAllClasses(p: Problem, b: Bound, prefix: Assignment)
    requires WellFormed(p) && |prefix| < p.timeSlots && Offered(p, |prefix|)
    requires DominatesBelow(p, b, prefix, p.classes)
    ensures Dominates(p, b, prefix)
  {
    forall e: Assignment | Completion(p, prefix, e)
      ensures AtMost(b, Finite(AssignmentCost(p, e)))
    {
      assert e[|prefix|].Some?;
    }
  }

  /** At a slot nobody offers, every completion leaves the slot unattended. */
  lemma DominatesUnattended(p: Problem, b: Bound, prefix: Assignment)
    requires WellFormed(p) && |prefix| < p.timeSlots && !Offered(p, |prefix|)
    requires Dominates(p, b, prefix + [None])
    ensures Dominates(p, b, prefix)
  {
    forall e: Assignment | Completion(p, prefix, e)
      ensures AtMost(b, Finite(AssignmentCost(p, e)))
    {
      CompletionExtend(p, prefix, e);
      ExplorableSlot(p, e, |prefix|);
    }
  }

  /** The sound test prunes nothing that could beat the incumbent. */
  lemma BoundedPruneSound(p: Problem, b: Bound, prefix: Assignment, usedClasses: seq<nat>)
    requires WellFormed(p) && Feasible(p, prefix)
    requires NoDuplicates(usedClasses) && Elements(usedClasses) == ClassesOf(prefix)
    requires !ContinuesBounded(usedClasses, b)
    ensures Dominates(p, b, prefix)
  {
    DistinctCardinality(usedClasses);
    forall e: Assignment | Completion(p, prefix, e)
      ensures AtMost(b, Finite(AssignmentCost(p, e)))
    {
      CompletionCostBound(p, prefix, e);
    }
  }

  /** The path state: `current`, `used_classes` and `subject_counts`. */
  datatype Path = Path(current: Assignment, usedClasses: seq<nat>, subjectCounts: seq<nat>)

  /** The incumbent: `best` and `best_cost`. */
  datatype Incumbent = Incumbent(best: Option<Assignment>, bestCost: Bound)

  /**
    The path state at depth `slot`: slots before it hold the path, slots from it on are
    empty, and the class list and counters are the ones that path induces.
  */
  ghost predicate Consistent(p: Problem, slot: nat, s: Path) {
    && WellFormed(p)
    && slot <= p.timeSlots
    && |s.current| == p.timeSlots
    && Explorable(p, s.current[..slot])
    && (forall k :: slot <= k < |s.current| ==> s.current[k].None?)
    && NoDuplicates(s.usedClasses)
    && Elements(s.usedClasses) == ClassesOf(s.current[..slot])
    && s.subjectCounts == Counts(p, s.current[..slot])
  }

  /** A stored incumbent is a complete explorable path and `bestCost` is its cost. */
  ghost predicate IncumbentValid(p: Problem, inc: Incumbent) {
    && WellFormed(p)
    && (inc.best.Some? ==>
          && |inc.best.value| == p.timeSlots
          && Explorable(p, inc.best.value)
          && inc.bestCost == Finite(AssignmentCost(p, inc.best.value)))
  }

  /**
    Measured against an earlier incumbent `inc0`: the cost has not risen, and the
    incumbent changed only to a path that extends `prefix`.
  */
  predicate Improves(inc0: Incumbent, inc: Incumbent, prefix: Assignment) {
    && AtMost(inc.bestCost, inc0.bestCost)
    && (inc.bestCost == inc0.bestCost ==> inc.best == inc0.best)
    && (inc.bestCost != inc0.bestCost ==> inc.best.Some? && prefix <= inc.best.value)
  }

  /** Two rounds of improvement, the second after a longer prefix, are one. */
  lemma ImprovesTransitive(inc0: Incumbent, inc1: Incumbent, inc2: Incumbent, prefix: Assignment, prefix': Assignment)
    requires Improves(inc0, inc1, prefix) && Improves(inc1, inc2, prefix') && prefix <= prefix'
    ensures Improves(inc0, inc2, prefix)
  {
  }

  /** Pushing a class only when it is new keeps the class list duplicate-free and in step with the path. */
  lemma PushedClasses(prefix: Assignment, used: seq<nat>, c: nat)
    requires NoDuplicates(used) && Elements(used) == ClassesOf(prefix)
    ensures var used' := if c in used then used else used + [c];
      NoDuplicates(used') && Elements(used') == ClassesOf(prefix + [Some(c)])
  {
    ClassesOfAppend(prefix, Some(c));
    var used' := if c in used then used else used + [c];
    assert Elements(used') == Elements(used) + {c};
  }

  /** Entering a class with a lesson keeps the path explorable and counts one lesson of its subject. */
  lemma PlacedPath(p: Problem, prefix: Assignment, c: nat, counts: seq<nat>, i: nat)
    requires WellFormed(p) && Explorable(p, prefix) && |prefix| < p.timeSlots
    requires c < p.classes && p.schedule[c][|prefix|].Some?
    requires i == SubjectAt(p, c, |prefix|) && counts == Counts(p, prefix)
    ensures Explorable(p, prefix + [Some(c)])
    ensures Counts(p, prefix + [Some(c)]) == counts[i := counts[i] + 1]
  {
    ExplorableAppend(p, prefix, Some(c));
    CountsAppend(p, prefix, Some(c));
  }

  /** The path, class list and counters after entering class `c` at `slot` induce each other. */
  lemma PlacedConsistent(p: Problem, slot: nat, c: nat, s: Path, s': Path, i: nat)
    requires Consistent(p, slot, s) && slot < p.timeSlots
    requires c < p.classes && p.schedule[c][slot].Some?
    requires i == SubjectAt(p, c, slot)
    requires s'.current == s.current[slot := Some(c)]
    requires s'.usedClasses == if c in s.usedClasses then s.usedClasses else s.usedClasses + [c]
    requires s'.subjectCounts == s.subjectCounts[i := s.subjectCounts[i] + 1]
    ensures Consistent(p, slot + 1, s')
    ensures s'.current[..slot + 1] == s.current[..slot] + [Some(c)]
  {
    ghost var prefix := s.current[..slot];
    PlacedPath(p, prefix, c, s.subjectCounts, i);
    PushedClasses(prefix, s.usedClasses, c);
    assert s'.current[..slot + 1] == prefix + [Some(c)];
  }

  /** `current[slot] = Some(class)`, push the class if new, count its subject. */
  method Place(p: Problem, slot: nat, c: nat, s: Path) returns (s': Path, wasNew: bool, subIdx: nat)
    requires Consistent(p, slot, s) && slot < p.timeSlots
    requires c < p.classes && p.schedule[c][slot].Some?
    ensures Consistent(p, slot + 1, s')
    ensures s'.current[..slot + 1] == s.current[..slot] + [Some(c)]
    ensures s'.current == s.current[slot := Some(c)]
    ensures wasNew <==> c !in s.usedClasses
    ensures s'.usedClasses == if wasNew then s.usedClasses + [c] else s.usedClasses
    ensures subIdx == SubjectAt(p, c, slot) && subIdx < |s.subjectCounts|
    ensures s'.subjectCounts == s.subjectCounts[subIdx := s.subjectCounts[subIdx] + 1]
  {
    var current := s.current[slot := Some(c)];
    var used := s.usedClasses;
    if c in used {
      wasNew := false;
    } else {
      used := used + [c];
      wasNew := true;
    }
    var subject := p.schedule[c][slot].value;
    subIdx := SubjectPosition(p.subjectWeights, subject).value;
    var counts := s.subjectCounts[subIdx := s.subjectCounts[subIdx] + 1];
    s' := Path(current, used, counts);
    PlacedConsistent(p, slot, c, s, s', subIdx);
  }

  /**
    `current[slot] = None`, uncount the subject, `retain` the class out if this branch
    added it. Applied to the state `Place` left (`s0` being the state before it), this
    gives back exactly `s0`.
  */
  method Undo(ghost s0: Path, slot: nat, c: nat, wasNew: bool, subIdx: nat, s: Path) returns (s': Path)
    requires slot < |s0.current| && s0.current[slot].None? && subIdx < |s0.subjectCounts|
    requires wasNew <==> c !in s0.usedClasses
    requires s.current == s0.current[slot := Some(c)]
    requires s.usedClasses == if wasNew then s0.usedClasses + [c] else s0.usedClasses
    requires s.subjectCounts == s0.subjectCounts[subIdx := s0.subjectCounts[subIdx] + 1]
    ensures s'.current == s.current[slot := None]
    ensures s'.usedClasses == if wasNew then Retain(s.usedClasses, c) else s.usedClasses
    ensures s'.subjectCounts == s.subjectCounts[subIdx := s.subjectCounts[subIdx] - 1]
    ensures s' == s0
  {
    var current := s.current[slot := None];
    var counts := s.subjectCounts[subIdx := s.subjectCounts[subIdx] - 1];
    var used := s.usedClasses;
    if wasNew {
      used := Retain(used, c);
      RetainAppend(s0.usedClasses, c);
    }
    s' := Path(current, used, counts);
    assert current == s0.current;
    assert counts == s0.subjectCounts;
  }

  /**
    The end of a path (`slot == time_slots`): the path replaces the incumbent exactly
    when its cost is strictly below the incumbent's, and afterwards no completion of
    the path (there is only the path itself) is cheaper than the incumbent.
  */
  method Complete(p: Problem, s: Path, inc: Incumbent) returns (inc': Incumbent)
    requires Consistent(p, p.timeSlots, s) && IncumbentValid(p, inc)
    ensures IncumbentValid(p, inc')
    ensures var cost := AssignmentCost(p, s.current);
      if Below(cost, inc.bestCost) then inc' == Incumbent(Some(s.current), Finite(cost))
      else inc' == inc
    ensures Dominates(p, inc'.bestCost, s.current)
  {
    var currentCost := Cost(p, s.usedClasses, s.subjectCounts);
    assert s.current[..p.timeSlots] == s.current;
    DistinctCardinality(s.usedClasses);
    inc' := inc;
    if Below(currentCost, inc.bestCost) {
      inc' := Incumbent(Some(s.current), Finite(currentCost));
    }
    forall e: Assignment | Completion(p, s.current, e)
      ensures AtMost(inc'.bestCost, Finite(AssignmentCost(p, e)))
    {
      assert e == s.current;
    }
  }

  /** A slot nobody offers is left empty: the state is already the one for `slot + 1`. */
  lemma Skip(p: Problem, slot: nat, s: Path)
    requires Consistent(p, slot, s) && slot < p.timeSlots
    requires forall k :: 0 <= k < p.classes ==> p.schedule[k][slot].None?
    ensures Consistent(p, slot + 1, s)
    ensures s.current[..slot + 1] == s.current[..slot] + [None]
  {
    assert s.current[..slot + 1] == s.current[..slot] + [None];
    ExplorableAppend(p, s.current[..slot], None);
    CountsAppend(p, s.current[..slot], None);
    ClassesOfAppend(s.current[..slot], None);
  }

  /**
    The search exactly as the source writes it (`Problem::search`). It gives back the
    path, the class list and the counters unchanged, never raises the incumbent's cost,
    keeps the incumbent a complete explorable path with that cost, replaces it only by
    an extension of the current prefix, and always finds some path when no incumbent
    was known.
  */
  method Search(p: Problem, slot: nat, s: Path, inc: Incumbent) returns (s': Path, inc': Incumbent)
    requires Consistent(p, slot, s) && IncumbentValid(p, inc)
    decreases p.timeSlots - slot, 2
    ensures s' == s
    ensures IncumbentValid(p, inc') && Improves(inc, inc', s.current[..slot])
    ensures inc.bestCost.Infinity? ==> inc'.bestCost.Finite?
  {
    if slot == p.timeSlots {
      s' := s;
      inc' := Complete(p, s, inc);
      return;
    }
    var anyOffered;
    s', inc', anyOffered := Classes(p, slot, s, inc);
    if !anyOffered {
      Skip(p, slot, s);
      s', inc' := Search(p, slot + 1, s, inc);
      assert s.current[..slot] <= s.current[..slot + 1];
    }
  }

  /**
    The class loop of `Search`: try every class with a lesson at `slot`. `anyOffered`
    (the source's `assigned`) says whether there was one.
  */
  method Classes(p: Problem, slot: nat, s: Path, inc: Incumbent) returns (s': Path, inc': Incumbent, anyOffered: bool)
    requires Consistent(p, slot, s) && IncumbentValid(p, inc) && slot < p.timeSlots
    decreases p.timeSlots - slot, 1
    ensures s' == s
    ensures IncumbentValid(p, inc') && Improves(inc, inc', s.current[..slot])
    ensures anyOffered <==> Offered(p, slot)
    ensures inc.bestCost.Infinity? && anyOffered ==> inc'.bestCost.Finite?
  {
    s', inc' := s, inc;
    anyOffered := false;
    for c := 0 to p.classes
      invariant s' == s && IncumbentValid(p, inc') && Improves(inc, inc', s.current[..slot])
      invariant anyOffered == OfferedBelow(p, slot, c)
      invariant inc.bestCost.Infinity? && anyOffered ==> inc'.bestCost.Finite?
    {
      if p.schedule[c][slot].Some? {
        ghost var before := inc';
        s', inc' := Branch(p, slot, c, s', inc');
        ImprovesTransitive(inc, before, inc', s.current[..slot], s.current[..slot] + [Some(c)]);
        anyOffered := true;
      }
    }
    OfferedBelowAll(p, slot, p.classes);
  }

  /**
    One iteration of the class loop of `Search`: place `c` at `slot`, descend only if
    the partial cost is below the incumbent's, then undo all three updates.
  */
  method Branch(p: Problem, slot: nat, c: nat, s: Path, inc: Incumbent) returns (s': Path, inc': Incumbent)
    requires Consistent(p, slot, s) && IncumbentValid(p, inc) && slot < p.timeSlots
    requires c < p.classes && p.schedule[c][slot].Some?
    decreases p.timeSlots - slot, 0
    ensures s' == s
    ensures IncumbentValid(p, inc') && Improves(inc, inc', s.current[..slot] + [Some(c)])
    ensures inc.bestCost.Infinity? ==> inc'.bestCost.Finite?
  {
    var placed, wasNew, subIdx := Place(p, slot, c, s);
    var explored := placed;
    inc' := inc;
    if ContinuesAsWritten(p, placed.usedClasses, placed.subjectCounts, inc.bestCost) {
      explored, inc' := Search(p, slot + 1, placed, inc);
    }
    s' := Undo(s, slot, c, wasNew, subIdx, explored);
  }

  /**
    The search with the sound pruning test. Besides everything `Search` promises, it
    leaves an incumbent at least as cheap as every completion of the current prefix.
  */
  method SearchBounded(p: Problem, slot: nat, s: Path, inc: Incumbent) returns (s': Path, inc': Incumbent)
    requires Consistent(p, slot, s) && IncumbentValid(p, inc)
    decreases p.timeSlots - slot, 2
    ensures s' == s
    ensures IncumbentValid(p, inc') && Improves(inc, inc', s.current[..slot])
    ensures inc.bestCost.Infinity? ==> inc'.bestCost.Finite?
    ensures Dominates(p, inc'.bestCost, s.current[..slot])
  {
    if slot == p.timeSlots {
      s' := s;
      inc' := Complete(p, s, inc);
      assert s.current[..slot] == s.current;
      return;
    }
    var anyOffered;
    s', inc', anyOffered := ClassesBounded(p, slot, s, inc);
    if !anyOffered {
      Skip(p, slot, s);
      s', inc' := SearchBounded(p, slot + 1, s, inc);
      assert s.current[..slot] <= s.current[..slot + 1];
      DominatesUnattended(p, inc'.bestCost, s.current[..slot]);
    }
  }

  /** The class loop of `SearchBounded`: it covers every completion that attends `slot`. */
  method ClassesBounded(p: Problem, slot: nat, s: Path, inc: Incumbent) returns (s': Path, inc': Incumbent, anyOffered: bool)
    requires Consistent(p, slot, s) && IncumbentValid(p, inc) && slot < p.timeSlots
    decreases p.timeSlots - slot, 1
    ensures s' == s
    ensures IncumbentValid(p, inc') && Improves(inc, inc', s.current[..slot])
    ensures anyOffered <==> Offered(p, slot)
    ensures inc.bestCost.Infinity? && anyOffered ==> inc'.bestCost.Finite?
    ensures anyOffered ==> Dominates(p, inc'.bestCost, s.current[..slot])
  {
    ghost var prefix := s.current[..slot];
    s', inc' := s, inc;
    anyOffered := false;
    for c := 0 to p.classes
      invariant s' == s && IncumbentValid(p, inc') && Improves(inc, inc', prefix)
      invariant anyOffered == OfferedBelow(p, slot, c)
      invariant inc.bestCost.Infinity? && anyOffered ==> inc'.bestCost.Finite?
      invariant DominatesBelow(p, inc'.bestCost, prefix, c)
    {
      if p.schedule[c][slot].Some? {
        ghost var before := inc';
        s', inc' := BranchBounded(p, slot, c, s', inc');
        ImprovesTransitive(inc, before, inc', prefix, prefix + [Some(c)]);
        DominatesWeaken(p, before.bestCost, inc'.bestCost, prefix, c);
        anyOffered := true;
      }
      DominatesStep(p, inc'.bestCost, prefix, c);
    }
    OfferedBelowAll(p, slot, p.classes);
    if anyOffered {
      DominatesAllClasses(p, inc'.bestCost, prefix);
    }
  }

  /**
    One iteration of the class loop of `SearchBounded`: like `Branch`, but it descends
    only while the distinct-class count is below the incumbent's cost, and so covers
    every completion that observes `c` at `slot`.
  */
  method BranchBounded(p: Problem, slot: nat, c: nat, s: Path, inc: Incumbent) returns (s': Path, inc': Incumbent)
    requires Consistent(p, slot, s) && IncumbentValid(p, inc) && slot < p.timeSlots
    requires c < p.classes && p.schedule[c][slot].Some?
    decreases p.timeSlots - slot, 0
    ensures s' == s
    ensures IncumbentValid(p, inc') && Improves(inc, inc', s.current[..slot] + [Some(c)])
    ensures inc.bestCost.Infinity? ==> inc'.bestCost.Finite?
    ensures Dominates(p, inc'.bestCost, s.current[..slot] + [Some(c)])
  {
    var placed, wasNew, subIdx := Place(p, slot, c, s);
    var explored := placed;
    inc' := inc;
    if ContinuesBounded(placed.usedClasses, inc.bestCost) {
      explored, inc' := SearchBounded(p, slot + 1, placed, inc);
    } else {
      BoundedPruneSound(p, inc.bestCost, placed.current[..slot + 1], placed.usedClasses);
    }
    s' := Undo(s, slot, c, wasNew, subIdx, explored);
  }

  /**
    The whole search from the initial state (an empty path, zero counters, no
    incumbent, `best_cost` at +infinity), with the sound pruning test: it returns a
    complete explorable path of least cost.
  */
  method Solve(p: Problem) returns (plan: Assignment, cost: real)
    requires WellFormed(p)
    ensures |plan| == p.timeSlots && Explorable(p, plan) && cost == AssignmentCost(p, plan)
    ensures forall e: Assignment :: |e| == p.timeSlots && Explorable(p, e) ==> cost <= AssignmentCost(p, e)
  {
    var start := Path(seq(p.timeSlots, _ => None), [], Zeros(|p.subjectWeights|));
    assert start.current[..0] == [];
    assert ClassesOf([]) == {};
    var s, inc := SearchBounded(p, 0, start, Incumbent(None, Infinity));
    plan := inc.best.value;
    cost := inc.bestCost.value;
    forall e: Assignment | |e| == p.timeSlots && Explorable(p, e)
      ensures cost <= AssignmentCost(p, e)
    {
      assert Completion(p, [], e);
    }
  }
}
