/**
  A four-slot, two-class problem on which the pruning test of `Problem::search`, as
  written, discards the only branch that holds the optimum.

  Subjects 0 and 1 have weight 0.5 each, so the ideal count is 2 for both. Class 0
  teaches subjects 0, 0, 0, 1 and class 1 teaches 0, 1, 0, 1 in the four slots.
*/
module PlannerFixture {
  import opened Wrappers
  import opened PlannerCore
  import opened PlannerSearch

  /** Class 0 teaches subject 1 only at slot 3; class 1 at slots 1 and 3. */
  const FIXTURE: Problem := Problem(4, 2, [(0, 0.5), (1, 0.5)],
    seq(2, c => seq(4, s => Some(if s == 3 || (c == 1 && s == 1) then 1 else 0))))

  /** The fixture, cell by cell. */
  ghost predicate IsFixture(p: Problem) {
    && p.timeSlots == 4 && p.classes == 2 && p.subjectWeights == [(0, 0.5), (1, 0.5)]
    && |p.schedule| == 2 && |p.schedule[0]| == 4 && |p.schedule[1]| == 4
    && p.schedule[0] == [Some(0), Some(0), Some(0), Some(1)]
    && p.schedule[1] == [Some(0), Some(1), Some(0), Some(1)]
    && (forall c, s :: 0 <= c < 2 && 0 <= s < 4 ==> p.schedule[c][s].Some? && p.schedule[c][s].value < 2)
  }

  lemma FixtureCells()
    ensures IsFixture(FIXTURE)
  {
    assert FIXTURE.schedule[0] == [Some(0), Some(0), Some(0), Some(1)];
    assert FIXTURE.schedule[1] == [Some(0), Some(1), Some(0), Some(1)];
  }

  /** Both subjects have a weight entry at their own index. */
  lemma FixtureSubjects(p: Problem, v: nat)
    requires IsFixture(p) && v < 2
    ensures SubjectPosition(p.subjectWeights, v) == Some(v)
  {
    if v == 0 {
      assert SubjectPosition(p.subjectWeights, 0) == Some(0);
    } else {
      assert SubjectPosition(p.subjectWeights, 1) == Some(1);
    }
  }

  lemma FixtureWellFormed(p: Problem)
    requires IsFixture(p)
    ensures WellFormed(p)
  {
    forall c, s | 0 <= c < p.classes && 0 <= s < p.timeSlots
      ensures SubjectPosition(p.subjectWeights, p.schedule[c][s].value).Some?
    {
      FixtureSubjects(p, p.schedule[c][s].value);
    }
  }

  /** With both ideal counts 2, the imbalance of counts `x` and `y` is `|x - 2| / 2 + |y - 2| / 2`. */
  lemma FixtureImbalance(p: Problem, x: nat, y: nat)
    requires IsFixture(p)
    ensures IdealsPositive(p.timeSlots, p.subjectWeights)
    ensures Imbalance(4, [x, y], p.subjectWeights) == Abs(x as real - 2.0) / 2.0 + Abs(y as real - 2.0) / 2.0
  {
    var w: seq<(nat, real)> := p.subjectWeights;
    var counts: seq<nat> := [x, y];
    var rest := w[1..];
    assert counts[1..] == [y] && counts[1..][1..] == [];
    assert rest == [(1, 0.5)] && rest[1..] == [];
    assert w[0].1 == 0.5 && rest[0].1 == 0.5;
    assert Imbalance(4, [y], rest) == Abs(y as real - 2.0) / 2.0 + Imbalance(4, [], []);
    assert Imbalance(4, counts, w) == Abs(x as real - 2.0) / 2.0 + Imbalance(4, [y], rest);
  }

  /** Observing class `c` at the next slot, where it teaches subject `v`, counts one lesson of `v`. */
  lemma FixtureStep(p: Problem, a: Assignment, c: nat, v: nat, counts: seq<nat>)
    requires IsFixture(p) && WellFormed(p) && Explorable(p, a) && |a| < 4 && c < 2
    requires p.schedule[c][|a|] == Some(v) && counts == Counts(p, a)
    ensures Explorable(p, a + [Some(c)])
    ensures v < |counts| && Counts(p, a + [Some(c)]) == counts[v := counts[v] + 1]
  {
    ExplorableAppend(p, a, Some(c));
    CountsAppend(p, a, Some(c));
    FixtureSubjects(p, v);
  }

  /** Always observing class 0: one class, subject counts 3 and 1, cost 1.1. */
  lemma AllClassZero(p: Problem)
    requires IsFixture(p)
    ensures WellFormed(p)
    ensures var a := [Some(0), Some(0), Some(0), Some(0)];
      Explorable(p, a) && AssignmentCost(p, a) == 1.1
  {
    FixtureWellFormed(p);
    var a: Assignment := [Some(0), Some(0), Some(0), Some(0)];
    assert Counts(p, []) == [0, 0];
    FixtureStep(p, [], 0, 0, [0, 0]);
    assert [] + [Some(0)] == a[..1];
    FixtureStep(p, a[..1], 0, 0, [1, 0]);
    assert a[..1] + [Some(0)] == a[..2];
    FixtureStep(p, a[..2], 0, 0, [2, 0]);
    assert a[..2] + [Some(0)] == a[..3];
    FixtureStep(p, a[..3], 0, 1, [3, 0]);
    assert a[..3] + [Some(0)] == a;
    assert Counts(p, a) == [3, 1];
    assert ClassesOf(a) == {0};
    FixtureImbalance(p, 3, 1);
    assert AssignmentCost(p, a) == 1.0 + BALANCE_WT * 1.0;
  }

  /** Always observing class 1: one class, subject counts 2 and 2, cost 1.0. */
  lemma AllClassOne(p: Problem)
    requires IsFixture(p)
    ensures WellFormed(p)
    ensures var a := [Some(1), Some(1), Some(1), Some(1)];
      Explorable(p, a) && AssignmentCost(p, a) == 1.0
  {
    FixtureWellFormed(p);
    var a: Assignment := [Some(1), Some(1), Some(1), Some(1)];
    assert Counts(p, []) == [0, 0];
    FixtureStep(p, [], 1, 0, [0, 0]);
    assert [] + [Some(1)] == a[..1];
    FixtureStep(p, a[..1], 1, 1, [1, 0]);
    assert a[..1] + [Some(1)] == a[..2];
    FixtureStep(p, a[..2], 1, 0, [1, 1]);
    assert a[..2] + [Some(1)] == a[..3];
    FixtureStep(p, a[..3], 1, 1, [2, 1]);
    assert a[..3] + [Some(1)] == a;
    assert Counts(p, a) == [2, 2];
    assert ClassesOf(a) == {1};
    FixtureImbalance(p, 2, 2);
    assert AssignmentCost(p, a) == 1.0 + BALANCE_WT * 0.0;
  }

  /** The state right after placing class 1 at slot 0: consistent, with partial cost 1.15. */
  lemma PlacedClassOne(p: Problem)
    requires IsFixture(p)
    ensures WellFormed(p)
    ensures Consistent(p, 1, Path([Some(1), None, None, None], [1], [1, 0]))
    ensures Cost(p, [1], [1, 0]) == 1.15
  {
    FixtureWellFormed(p);
    var placed: Path := Path([Some(1), None, None, None], [1], [1, 0]);
    assert placed.current[..1] == [] + [Some(1)];
    assert Counts(p, []) == [0, 0];
    FixtureStep(p, [], 1, 0, [0, 0]);
    assert ClassesOf([Some(1)]) == {1};
    assert Elements([1]) == {1};
    FixtureImbalance(p, 1, 0);
  }

  /**
    The depth-first search reaches `[0, 0, 0, 0]` first and keeps it as incumbent
    (cost 1.1). Back at slot 0 it places class 1: the partial state (class list [1],
    counts [1, 0]) costs 1.15, so the test as written does not descend, although the
    completion `[1, 1, 1, 1]` of that branch costs 1.0. The sound test descends.
  */
  lemma PruningCounterexample(p: Problem)
    requires IsFixture(p)
    ensures WellFormed(p)
    ensures var incumbent := Incumbent(Some([Some(0), Some(0), Some(0), Some(0)]), Finite(1.1));
      var placed := Path([Some(1), None, None, None], [1], [1, 0]);
      var better := [Some(1), Some(1), Some(1), Some(1)];
      && IncumbentValid(p, incumbent)
      && Consistent(p, 1, placed)
      && !ContinuesAsWritten(p, placed.usedClasses, placed.subjectCounts, incumbent.bestCost)
      && ContinuesBounded(placed.usedClasses, incumbent.bestCost)
      && Completion(p, placed.current[..1], better)
      && AssignmentCost(p, better) < incumbent.bestCost.value
  {
    AllClassZero(p);
    AllClassOne(p);
    PlacedClassOne(p);
    var better: Assignment := [Some(1), Some(1), Some(1), Some(1)];
    assert [Some(1), None, None, None][..1] == better[..1];
  }

  /**
    Once the incumbent costs 1.1, the test as written never descends from a
    state that uses both classes: it costs at least 2.

    Together with PruningCounterexample this traces `Search` on the fixture.
    With `best_cost` at +inf it descends through class 0 at every slot and
    keeps `[0, 0, 0, 0]` at 1.1. Backtracking through slots 3, 2 and 1, class 1
    joins class 0 and is pruned here; at slot 0, class 1 alone costs 1.15 and
    is pruned there. No branch descends after the first leaf, so the search
    as written returns the 1.1 plan.
  */
  lemma TwoClassesPruned(p: Problem, usedClasses: seq<nat>, counts: seq<nat>)
    requires IsFixture(p) && |usedClasses| >= 2
    ensures IdealsPositive(p.timeSlots, p.subjectWeights)
    ensures !ContinuesAsWritten(p, usedClasses, counts, Finite(1.1))
  {
    FixtureWellFormed(p);
  }

  /**
    The search with the sound test finds the optimum 1.0 on the fixture: no explorable
    path is cheaper than `[1, 1, 1, 1]`, and every one attends slot 0 and so uses at
    least one class.
  */
  method SolveFixture() returns (plan: Assignment, cost: real)
    ensures cost == 1.0 && |plan| == 4 && Explorable(FIXTURE, plan) && AssignmentCost(FIXTURE, plan) == cost
  {
    FixtureCells();
    AllClassOne(FIXTURE);
    plan, cost := Solve(FIXTURE);
    assert plan[..1] <= plan;
    ExplorableSlot(FIXTURE, plan, 0);
    assert FIXTURE.schedule[0][0].Some?;
    assert plan[..1][0] == plan[0];
    assert plan[0].value in ClassesOf(plan[..1]);
    CompletionCostBound(FIXTURE, plan[..1], plan);
  }
}
