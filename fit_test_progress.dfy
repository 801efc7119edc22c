/**
 * The fit-test progress table of js/screens/fit-test-progress.js: tests in
 * ascending test number, one row per move with the change from the
 * previous test, a totals row, and an overall summary once there are two
 * tests.
 */
module FitTestProgress {
  import opened Wrappers
  import opened Records
  import opened Sorting
  import FitTestScreen

  function TestNumberKey(t: FitTest): int {
    t.testNumber
  }

  /** `tests.sort((a, b) => a.testNumber - b.testNumber)`. */
  function SortedTests(tests: seq<FitTest>): (r: seq<FitTest>)
    ensures multiset(r) == multiset(tests) && |r| == |tests|
    ensures forall i, j :: 0 <= i < j < |r| ==> r[i].testNumber <= r[j].testNumber
  {
    var r := SortBy(tests, TestNumberKey);
    assert forall i, j :: 0 <= i < j < |r| ==> TestNumberKey(r[i]) <= TestNumberKey(r[j]);
    r
  }

  /** `test.exercises[exIndex]?.reps || 0`: a missing move counts as 0 reps. */
  function Reps(t: FitTest, exIndex: int): int
    requires 0 <= exIndex
  {
    if exIndex < |t.exercises| then t.exercises[exIndex].reps else 0
  }

  /** `exercises.reduce((sum, ex) => sum + (ex.reps || 0), 0)`. */
  function Total(exs: seq<FitTestExercise>): int {
    if |exs| == 0 then 0 else Total(exs[..|exs| - 1]) + exs[|exs| - 1].reps
  }

  /** A shown improvement: only against a previous value, only when the count went up. */
  function Improvement(prev: Option<int>, current: int): (r: Option<int>)
    ensures r.Some? <==> prev.Some? && current > prev.value
    ensures r.Some? ==> r.value > 0 && prev.value + r.value == current
  {
    if prev.Some? && current > prev.value then Some(current - prev.value) else None
  }

  /** A table cell: the count, and the "+n" badge when there is one. */
  datatype Cell = Cell(value: int, improvement: Option<int>)

  /** The row of move `exIndex`: one cell per test, compared with the test before it. */
  function MoveRow(sorted: seq<FitTest>, exIndex: int): (row: seq<Cell>)
    requires 0 <= exIndex
    ensures |row| == |sorted|
  {
    seq(|sorted|, k requires 0 <= k < |sorted| =>
      Cell(Reps(sorted[k], exIndex),
           Improvement(if k > 0 then Some(Reps(sorted[k - 1], exIndex)) else None, Reps(sorted[k], exIndex))))
  }

  /** The totals row. */
  function TotalsRow(sorted: seq<FitTest>): (row: seq<Cell>)
    ensures |row| == |sorted|
  {
    seq(|sorted|, k requires 0 <= k < |sorted| =>
      Cell(Total(sorted[k].exercises),
           Improvement(if k > 0 then Some(Total(sorted[k - 1].exercises)) else None, Total(sorted[k].exercises))))
  }

  /** The overall summary card. */
  datatype Summary = Summary(firstTotal: int, lastTotal: int, improvement: int, percent: int)

  /** `Math.round((improvement / firstTotal) * 100)` on exact rationals; 0 when the first total is not positive. */
  function Percent(improvement: int, firstTotal: int): int {
    if firstTotal > 0 then (200 * improvement + firstTotal) / (2 * firstTotal) else 0
  }

  /** `renderProgressSummary`: first against last test. */
  function ProgressSummary(sorted: seq<FitTest>): Summary
    requires |sorted| > 0
  {
    var first := Total(sorted[0].exercises);
    var last := Total(sorted[|sorted| - 1].exercises);
    Summary(first, last, last - first, Percent(last - first, first))
  }

  datatype Page =
    | NoTests
    | Table(tests: seq<FitTest>, rows: seq<seq<Cell>>, totals: seq<Cell>, summary: Option<Summary>)

  /** `renderFitTestProgress` over the stored tests. */
  function RenderProgress(tests: seq<FitTest>): (p: Page)
    ensures p.NoTests? <==> |tests| == 0
  {
    var sorted := SortedTests(tests);
    if |sorted| == 0 then NoTests
    else
      Table(sorted,
        seq(|FitTestScreen.FIT_TEST_EXERCISES|, i requires 0 <= i => MoveRow(sorted, i)),
        TotalsRow(sorted),
        if |sorted| >= 2 then Some(ProgressSummary(sorted)) else None)
  }

  /**
   * The page lists every stored test once, in ascending test number, with a
   * row per move and a cell per test; the summary is there exactly when at
   * least two tests are.
   */
  lemma PageShape(tests: seq<FitTest>)
    requires |tests| > 0
    ensures var p := RenderProgress(tests);
      && p.Table?
      && multiset(p.tests) == multiset(tests)
      && (forall i, j :: 0 <= i < j < |p.tests| ==> p.tests[i].testNumber <= p.tests[j].testNumber)
      && |p.rows| == 8
      && (forall i :: 0 <= i < 8 ==> |p.rows[i]| == |tests|)
      && |p.totals| == |tests|
      && (p.summary.Some? <==> |tests| >= 2)
  {
  }

  /**
   * A badge appears in a cell exactly when there is a test before it and the
   * count went up; it shows the (positive) gain.
   */
  lemma BadgeMeaning(sorted: seq<FitTest>, exIndex: int, k: int)
    requires 0 <= exIndex && 0 <= k < |sorted|
    ensures var c := MoveRow(sorted, exIndex)[k];
      && c.value == Reps(sorted[k], exIndex)
      && (c.improvement.Some? <==> k > 0 && Reps(sorted[k], exIndex) > Reps(sorted[k - 1], exIndex))
      && (c.improvement.Some? ==>
            c.improvement.value > 0 && c.improvement.value == Reps(sorted[k], exIndex) - Reps(sorted[k - 1], exIndex))
  {
  }

  /** The total adds up the counts of all stored moves, a missing one adding nothing. */
  lemma {:induction false} TotalIsSumOfReps(t: FitTest, n: nat)
    requires n <= |t.exercises|
    ensures Total(t.exercises[..n]) == SumReps(t, n)
  {
    if n > 0 {
      TotalIsSumOfReps(t, n - 1);
      assert t.exercises[..n][..n - 1] == t.exercises[..n - 1];
    }
  }

  function SumReps(t: FitTest, n: nat): int {
    if n == 0 then 0 else SumReps(t, n - 1) + Reps(t, n - 1)
  }

  /** Adding one rep to one move adds one to the total. */
  lemma {:induction false} TotalCountsEachRep(exs: seq<FitTestExercise>, i: int)
    requires 0 <= i < |exs|
    ensures Total(exs[i := exs[i].(reps := exs[i].reps + 1)]) == Total(exs) + 1
  {
    var bumped := exs[i := exs[i].(reps := exs[i].reps + 1)];
    if i < |exs| - 1 {
      TotalCountsEachRep(exs[..|exs| - 1], i);
      assert bumped[..|exs| - 1] == exs[..|exs| - 1][i := exs[i].(reps := exs[i].reps + 1)];
    } else {
      assert bumped[..|exs| - 1] == exs[..|exs| - 1];
    }
  }

  /**
   * The summary percentage is the integer nearest to 100 * improvement /
   * first total, halves rounded up, as `Math.round` does.
   */
  lemma PercentIsNearest(improvement: int, firstTotal: int)
    requires firstTotal > 0
    ensures var p := Percent(improvement, firstTotal);
      2 * firstTotal * p - firstTotal <= 200 * improvement < 2 * firstTotal * p + firstTotal
  {
    var d := 2 * firstTotal;
    var n := 200 * improvement + firstTotal;
    var p := n / d;
    assert n == d * p + n % d;
  }

  /** The summary's gain is last minus first, and its sign is the percentage's sign up to rounding. */
  lemma SummaryMeaning(sorted: seq<FitTest>)
    requires |sorted| > 0
    ensures var s := ProgressSummary(sorted);
      && s.improvement == s.lastTotal - s.firstTotal
      && (s.firstTotal <= 0 ==> s.percent == 0)
      && (s.firstTotal > 0 && s.improvement >= 0 ==> s.percent >= 0)
      && (s.firstTotal > 0 && s.improvement == 0 ==> s.percent == 0)
  {
    var s := ProgressSummary(sorted);
    if s.firstTotal > 0 {
      PercentIsNearest(s.improvement, s.firstTotal);
    }
  }
}
