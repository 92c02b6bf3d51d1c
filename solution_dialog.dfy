/**
  The solution preview: the solver's assignments come day by day, each day a
  list of lesson indices per period (`null` where nothing is scheduled). The
  preview transposes them into a period-by-day grid of lesson records and
  shows only the days that have any periods, under a header of weekday names
  filtered the same way.
*/
module SolutionDialog {
  import opened Wrappers

  /** One day of a solution: a lesson index or `null` per period. */
  type Day = seq<Option<int>>

  /**
    A grid cell: `null`, `undefined` (an index outside the lesson list) or
    the lesson record at that index.
  */
  datatype Cell<L> = NullCell | Undefined | Line(line: L)

  function Max(a: nat, b: nat): nat {
    if a < b then b else a
  }

  /** The length of the longest day, folding `Math.max` over the days from 0. */
  function Longest(days: seq<Day>): (r: nat)
    ensures forall d :: 0 <= d < |days| ==> |days[d]| <= r
    ensures |days| == 0 ==> r == 0
    ensures |days| > 0 ==> exists d :: 0 <= d < |days| && |days[d]| == r
  {
    if |days| == 0 then 0
    else
      var init := days[..|days| - 1];
      var r := Max(Longest(init), |days[|days| - 1]|);
      assert forall d :: 0 <= d < |init| ==> init[d] == days[d];
      r
  }

  /**
    The cell of `day` at `period`: `null` when the day has no such period or
    its index is `null` or 0 (every falsy index), otherwise the lesson record
    at that index, or `undefined` when the index lies outside the lesson list.
  */
  function CellAt<L>(day: Day, period: nat, lines: seq<L>): (r: Cell<L>)
    ensures r.NullCell? <==> period >= |day| || day[period] == None || day[period] == Some(0)
    ensures r.Line? <==> period < |day| && day[period].Some? && 0 < day[period].value < |lines|
    ensures r.Line? ==> r.line == lines[day[period].value]
  {
    if period >= |day| then NullCell
    else match day[period]
      case None => NullCell
      case Some(idx) =>
        if idx == 0 then NullCell
        else if 0 <= idx < |lines| then Line(lines[idx])
        else Undefined
  }

  /**
    The `transpose` memo: no rows without a solution or a plan; otherwise one
    row per period up to the longest day, each with one cell per day.
  */
  function Transpose<L>(solution: Option<seq<Day>>, plan: Option<seq<L>>): (r: seq<seq<Cell<L>>>)
    ensures solution.None? || plan.None? ==> r == []
    ensures solution.Some? && plan.Some? ==> |r| == Longest(solution.value)
    ensures solution.Some? ==> forall p :: 0 <= p < |r| ==> |r[p]| == |solution.value|
  {
    match (solution, plan)
    case (Some(days), Some(lines)) =>
      seq(Longest(days), (p: nat) => seq(|days|, (d: nat) requires d < |days| => CellAt(days[d], p, lines)))
    case _ => []
  }

  /** Column `d` of the grid reads day `d` back, period by period. */
  lemma ColumnReadsDay<L>(days: seq<Day>, lines: seq<L>, d: nat, p: nat)
    requires d < |days| && p < |days[d]|
    ensures p < |Transpose(Some(days), Some(lines))|
    ensures Transpose(Some(days), Some(lines))[p][d] == CellAt(days[d], p, lines)
  {
  }

  /** Below the end of a shorter day its column is padded with `null`. */
  lemma ColumnPadding<L>(days: seq<Day>, lines: seq<L>, d: nat, p: nat)
    requires d < |days| && |days[d]| <= p < Longest(days)
    ensures Transpose(Some(days), Some(lines))[p][d] == NullCell
  {
  }

  /** The number of days with at least one period. */
  function NonEmptyDays(days: seq<Day>): (r: nat)
    ensures r <= |days|
  {
    if |days| == 0 then 0
    else NonEmptyDays(days[..|days| - 1]) + (if |days[|days| - 1]| > 0 then 1 else 0)
  }

  /**
    `xs.filter((_, i) => !!days[i].length)`: the elements whose day has any
    periods, in order.
  */
  function KeepNonEmpty<X>(xs: seq<X>, days: seq<Day>): (r: seq<X>)
    requires |xs| <= |days|
    ensures |r| == NonEmptyDays(days[..|xs|])
    ensures forall k :: 0 <= k < |r| ==> r[k] in xs
    ensures (forall d :: 0 <= d < |xs| ==> |days[d]| > 0) ==> r == xs
  {
    if |xs| == 0 then []
    else
      var n := |xs| - 1;
      var init := KeepNonEmpty(xs[..n], days);
      assert days[..|xs|][..n] == days[..n];
      if |days[n]| > 0 then init + [xs[n]] else init
  }

  const WEEKDAYS: seq<string> := ["Montag", "Dienstag", "Mittwoch", "Donnerstag", "Freitag", "Samstag", "Sonntag"]

  /**
    The header's day names. Without a solution the optional chain yields
    nothing and the header is empty. With one, the filter reads the length of
    the first seven days, so a solution of fewer than seven days throws a
    `TypeError`, modelled as `None`.
  */
  function HeaderDays(solution: Option<seq<Day>>): (r: Option<seq<string>>)
    ensures solution.None? ==> r == Some([])
    ensures solution.Some? ==> (r.None? <==> |solution.value| < |WEEKDAYS|)
    ensures r.Some? && solution.Some? ==> |r.value| == NonEmptyDays(solution.value[..|WEEKDAYS|])
  {
    match solution
    case None => Some([])
    case Some(days) =>
      if |days| < |WEEKDAYS| then None else Some(KeepNonEmpty(WEEKDAYS, days))
  }

  /** A body row's cells: the same filter over the row's per-day cells. */
  function RowCells<L>(days: seq<Day>, row: seq<Cell<L>>): (r: seq<Cell<L>>)
    requires |row| == |days|
    ensures |r| == NonEmptyDays(days)
  {
    assert days[..|row|] == days;
    KeepNonEmpty(row, days)
  }

  lemma {:induction false} NonEmptyDaysAppend(days: seq<Day>, more: seq<Day>)
    ensures NonEmptyDays(days + more) == NonEmptyDays(days) + NonEmptyDays(more)
    decreases |more|
  {
    if |more| > 0 {
      var m := |more| - 1;
      var all := days + more;
      assert all[..|all| - 1] == days + more[..m];
      assert all[|all| - 1] == more[m];
      NonEmptyDaysAppend(days, more[..m]);
    } else {
      assert days + more == days;
    }
  }

  lemma {:induction false} NoNonEmptyDays(days: seq<Day>)
    ensures NonEmptyDays(days) == 0 <==> forall d :: 0 <= d < |days| ==> |days[d]| == 0
  {
    if |days| > 0 {
      var init := days[..|days| - 1];
      NoNonEmptyDays(init);
      assert forall d :: 0 <= d < |init| ==> init[d] == days[d];
    }
  }

  /** The days after `from` are empty exactly when the suffix from `from` has only empty days. */
  lemma SuffixEmpty(days: seq<Day>, from: nat)
    requires from <= |days|
    ensures (forall d :: from <= d < |days| ==> |days[d]| == 0)
      <==> (forall d :: 0 <= d < |days[from..]| ==> |days[from..][d]| == 0)
  {
    var later := days[from..];
    if forall d :: 0 <= d < |later| ==> |later[d]| == 0 {
      forall d | from <= d < |days|
        ensures |days[d]| == 0
      {
        assert later[d - from] == days[d];
      }
    }
  }

  /** The first week counts every non-empty day exactly when no later day has periods. */
  lemma LaterDaysEmpty(days: seq<Day>)
    requires |days| >= |WEEKDAYS|
    ensures (NonEmptyDays(days) == NonEmptyDays(days[..|WEEKDAYS|]))
      <==> (forall d :: |WEEKDAYS| <= d < |days| ==> |days[d]| == 0)
  {
    var week := |WEEKDAYS|;
    var later := days[week..];
    assert days == days[..week] + later;
    NonEmptyDaysAppend(days[..week], later);
    NoNonEmptyDays(later);
    SuffixEmpty(days, week);
  }

  /**
    Header and body line up: for a solution of at least seven days, every row
    has exactly as many shown cells as the header has day names if and only
    if no day after the seventh has any periods.
  */
  lemma ColumnsAgree<L>(days: seq<Day>, lines: seq<L>)
    requires |days| >= |WEEKDAYS|
    ensures HeaderDays(Some(days)).Some?
    ensures var t := Transpose(Some(days), Some(lines));
      |t| > 0 ==>
        ((forall p :: 0 <= p < |t| ==> |RowCells(days, t[p])| == |HeaderDays(Some(days)).value|)
         <==> (forall d :: |WEEKDAYS| <= d < |days| ==> |days[d]| == 0))
  {
    var t := Transpose(Some(days), Some(lines));
    var header := |HeaderDays(Some(days)).value|;
    assert header == NonEmptyDays(days[..|WEEKDAYS|]);
    assert forall p :: 0 <= p < |t| ==> |RowCells(days, t[p])| == NonEmptyDays(days);
    if |t| > 0 {
      assert |RowCells(days, t[0])| == NonEmptyDays(days);
    }
    LaterDaysEmpty(days);
  }
}
