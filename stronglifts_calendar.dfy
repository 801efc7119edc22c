/**
 * The StrongLifts overview of js/screens/stronglifts-calendar.js: the next
 * workout type, the week-streak heuristic, the date index of the stored
 * workouts, the three recent months and the layout of a month grid.
 */
module StrongliftsCalendar {
  import opened Wrappers
  import opened Records
  import Dates
  import Store
  import Workout
  import Home

  // ------------------------------------------------------------ next workout

  /** `completedCount % 2 === 0 ? 'A' : 'B'` over the stored workouts. */
  function NextType(workouts: seq<LiftWorkout>): string {
    Home.NextWorkoutType(Store.CountWhere(workouts, Store.IsCompletedLift))
  }

  /**
   * The overview and the day view agree on the next workout: A exactly when
   * an even number of stored workouts are completed.
   */
  lemma NextTypeParity(st: Store.Stores)
    ensures NextType(Store.AllStrongliftsWorkouts(st)) == Home.NextWorkoutType(Store.StrongliftsStats(st).completed)
    ensures NextType(Store.AllStrongliftsWorkouts(st)) == "A"
        <==> |Store.KeysWhere(st.strongliftsWorkouts, Store.IsCompletedLift)| % 2 == 0
  {
    Store.CountValuesByKey(st.strongliftsWorkouts, Store.IsCompletedLift);
  }

  // ------------------------------------------------------------------ streak

  const STREAK_GAP := 7

  /**
   * The length of the leading run of `sorted` in which each workout is at
   * most 7 days older than the one before it, counting from position `i`.
   */
  function RunFrom(sorted: seq<LiftWorkout>, i: nat): (r: nat)
    requires 1 <= i <= |sorted|
    ensures i <= r <= |sorted|
    decreases |sorted| - i
  {
    if i == |sorted| || sorted[i - 1].date - sorted[i].date > STREAK_GAP then i
    else RunFrom(sorted, i + 1)
  }

  /** The run is the longest prefix without a gap of more than 7 days. */
  lemma {:induction false} RunFromMeaning(sorted: seq<LiftWorkout>, i: nat)
    requires 1 <= i <= |sorted|
    requires forall k :: 1 <= k < i ==> sorted[k - 1].date - sorted[k].date <= STREAK_GAP
    ensures forall k :: 1 <= k < RunFrom(sorted, i) ==> sorted[k - 1].date - sorted[k].date <= STREAK_GAP
    ensures RunFrom(sorted, i) < |sorted| ==>
      sorted[RunFrom(sorted, i) - 1].date - sorted[RunFrom(sorted, i)].date > STREAK_GAP
    decreases |sorted| - i
  {
    if !(i == |sorted| || sorted[i - 1].date - sorted[i].date > STREAK_GAP) {
      RunFromMeaning(sorted, i + 1);
    }
  }

  /** `getStreak(workouts)`, with `today` the current day. */
  function Streak(workouts: seq<LiftWorkout>, today: int): nat {
    if |workouts| == 0 then 0
    else
      var sorted := Workout.History(workouts);
      if |sorted| == 0 then 0
      else if today - sorted[0].date > STREAK_GAP then 0
      else (RunFrom(sorted, 1) + 2) / 3
  }

  /** The loop of `getStreak`: counts the leading run, stops at the first larger gap, rounds up to thirds. */
  method GetStreak(workouts: seq<LiftWorkout>, today: int) returns (streak: nat)
    ensures streak == Streak(workouts, today)
  {
    if |workouts| == 0 {
      return 0;
    }
    var sorted := Workout.History(workouts);
    if |sorted| == 0 {
      return 0;
    }
    var run := 1;
    var daysSinceLastWorkout := today - sorted[0].date;
    if daysSinceLastWorkout > STREAK_GAP {
      return 0;
    }
    var i := 1;
    while i < |sorted|
      invariant 1 <= i <= |sorted|
      invariant run == i
      invariant RunFrom(sorted, i) == RunFrom(sorted, 1)
    {
      var daysBetween := sorted[i - 1].date - sorted[i].date;
      if daysBetween <= STREAK_GAP {
        run := run + 1;
      } else {
        break;
      }
      i := i + 1;
    }
    streak := (run + 2) / 3;
  }

  lemma {:induction false} CompletedOnlyCount(ws: seq<LiftWorkout>)
    ensures |Workout.CompletedOnly(ws)| == Store.CountWhere(ws, Store.IsCompletedLift)
    ensures forall w :: w in Workout.CompletedOnly(ws) <==> w in ws && w.completed
  {
    if |ws| > 0 {
      CompletedOnlyCount(ws[1..]);
      assert ws == [ws[0]] + ws[1..];
    }
  }

  /**
   * The history holds every completed workout and nothing else, newest
   * first: no completed workout is newer than its first entry.
   */
  lemma HistoryNewestFirst(workouts: seq<LiftWorkout>)
    ensures var sorted := Workout.History(workouts);
      && |sorted| == Store.CountWhere(workouts, Store.IsCompletedLift)
      && (|sorted| > 0 ==> forall w :: w in workouts && w.completed ==> w.date <= sorted[0].date)
  {
    var sorted := Workout.History(workouts);
    CompletedOnlyCount(workouts);
    if |sorted| > 0 {
      forall w | w in workouts && w.completed
        ensures w.date <= sorted[0].date
      {
        assert w in multiset(Workout.CompletedOnly(workouts));
        assert w in multiset(sorted);
        var j :| 0 <= j < |sorted| && sorted[j] == w;
      }
    }
  }

  /**
   * The streak is 0 exactly when nothing is completed or the newest
   * completed workout is more than 7 days old; otherwise it lies between 1
   * and the number of completed workouts divided by 3, rounded up.
   */
  lemma StreakBounds(workouts: seq<LiftWorkout>, today: int)
    ensures var sorted := Workout.History(workouts);
      && (Streak(workouts, today) == 0 <==> |sorted| == 0 || today - sorted[0].date > STREAK_GAP)
      && (Streak(workouts, today) > 0 ==> 1 <= Streak(workouts, today) <= (|sorted| + 2) / 3)
  {
  }

  // ------------------------------------------------------------- date index

  /**
   * The date index: each workout in list order sets its date's entry, so a
   * later workout on the same date replaces an earlier one.
   */
  function ByDate(ws: seq<LiftWorkout>): map<int, LiftWorkout>
    decreases |ws|
  {
    if |ws| == 0 then map[]
    else ByDate(ws[..|ws| - 1])[ws[|ws| - 1].date := ws[|ws| - 1]]
  }

  /** `workouts.forEach(w => workoutsByDate.set(w.date, w))`. */
  method WorkoutsByDate(workouts: seq<LiftWorkout>) returns (byDate: map<int, LiftWorkout>)
    ensures byDate == ByDate(workouts)
  {
    byDate := map[];
    var i := 0;
    while i < |workouts|
      invariant 0 <= i <= |workouts|
      invariant byDate == ByDate(workouts[..i])
    {
      var w := workouts[i];
      assert workouts[..i + 1][..i] == workouts[..i];
      byDate := byDate[w.date := w];
      i := i + 1;
    }
    assert workouts[..i] == workouts;
  }

  /** Exactly the dates of the stored workouts are indexed. */
  lemma {:induction false} ByDateDomain(ws: seq<LiftWorkout>, d: int)
    ensures d in ByDate(ws) <==> exists i :: 0 <= i < |ws| && ws[i].date == d
    decreases |ws|
  {
    if |ws| > 0 {
      var n := |ws| - 1;
      var p := ws[..n];
      ByDateDomain(p, d);
      if exists i :: 0 <= i < |ws| && ws[i].date == d {
        var i :| 0 <= i < |ws| && ws[i].date == d;
        if i < n {
          assert p[i].date == d;
        }
      }
      if d in ByDate(p) {
        var i :| 0 <= i < |p| && p[i].date == d;
        assert ws[i].date == d;
      }
    }
  }

  /** A date used by several workouts shows the last of them in list order. */
  lemma {:induction false} ByDateLast(ws: seq<LiftWorkout>, d: int)
    requires d in ByDate(ws)
    ensures exists i :: 0 <= i < |ws| && ByDate(ws)[d] == ws[i] && ws[i].date == d
                        && forall k :: i < k < |ws| ==> ws[k].date != d
    decreases |ws|
  {
    var n := |ws| - 1;
    if ws[n].date == d {
      assert ByDate(ws)[d] == ws[n];
    } else {
      var p := ws[..n];
      assert d in ByDate(p);
      ByDateLast(p, d);
      var i :| 0 <= i < |p| && ByDate(p)[d] == p[i] && p[i].date == d
               && forall k :: i < k < |p| ==> p[k].date != d;
      assert ByDate(ws)[d] == ws[i];
      forall k | i < k < |ws|
        ensures ws[k].date != d
      {
        if k < n {
          assert ws[k] == p[k];
        }
      }
    }
  }

  // ---------------------------------------------------------- recent months

  function MonthIndex(ym: Dates.YearMonth): int {
    12 * ym.year + ym.month
  }

  /** The month containing day `o`. */
  function MonthOf(o: int): (ym: Dates.YearMonth)
    ensures Dates.ValidMonth(ym)
  {
    var c := Dates.Civil(o);
    Dates.YearMonth(c.year, c.month)
  }

  /** `new Date(year, month - i, 1)` for i in 0..count-1, from the month `from`. */
  function MonthsBack(from: Dates.YearMonth, count: nat): (r: seq<Dates.YearMonth>)
    ensures |r| == count
  {
    seq(count, i requires 0 <= i < count => Dates.NormalizeMonth(from.year, from.month - i))
  }

  /** The months `getRecentMonths(count)` lists: this month and the ones before it. */
  function RecentMonths(count: nat, today: int): (r: seq<Dates.YearMonth>)
    ensures |r| == count
  {
    MonthsBack(MonthOf(today), count)
  }

  /** `getRecentMonths(count)`. */
  method GetRecentMonths(count: nat, today: int) returns (months: seq<Dates.YearMonth>)
    ensures months == RecentMonths(count, today)
  {
    var now := MonthOf(today);
    months := [];
    var i := 0;
    while i < count
      invariant 0 <= i <= count
      invariant months == MonthsBack(now, count)[..i]
    {
      MonthsBackStep(now, count, i);
      months := months + [Dates.NormalizeMonth(now.year, now.month - i)];
      i := i + 1;
    }
    assert MonthsBack(now, count)[..count] == MonthsBack(now, count);
  }

  lemma MonthsBackStep(from: Dates.YearMonth, count: nat, i: nat)
    requires i < count
    ensures MonthsBack(from, count)[..i + 1] == MonthsBack(from, count)[..i] + [Dates.NormalizeMonth(from.year, from.month - i)]
  {
  }

  /** From a valid month, the list starts there and steps back one month at a time. */
  lemma MonthsBackMeaning(from: Dates.YearMonth, count: nat)
    requires Dates.ValidMonth(from)
    ensures var r := MonthsBack(from, count);
      && (forall i :: 0 <= i < count ==> Dates.ValidMonth(r[i]))
      && (count > 0 ==> r[0] == from)
      && (forall i :: 0 <= i < count - 1 ==> MonthIndex(r[i + 1]) == MonthIndex(r[i]) - 1)
  {
    var r := MonthsBack(from, count);
    forall i | 0 <= i < count
      ensures Dates.ValidMonth(r[i]) && MonthIndex(r[i]) == 12 * from.year + from.month - i
    {
      var ym := Dates.NormalizeMonth(from.year, from.month - i);
      assert r[i] == ym;
    }
    if count > 0 {
      Dates.DivUnique(12 * from.year + from.month, 12, r[0].year, r[0].month);
      Dates.DivUnique(12 * from.year + from.month, 12, from.year, from.month);
    }
  }

  /**
   * The first month is the one containing today, and each further month is
   * the one before the previous, across year boundaries.
   */
  lemma RecentMonthsMeaning(count: nat, today: int)
    ensures var r := RecentMonths(count, today);
      && (forall i :: 0 <= i < count ==> Dates.ValidMonth(r[i]))
      && (count > 0 ==> r[0] == Dates.YearMonth(Dates.Civil(today).year, Dates.Civil(today).month))
      && (forall i :: 0 <= i < count - 1 ==> MonthIndex(r[i + 1]) == MonthIndex(r[i]) - 1)
  {
    MonthsBackMeaning(MonthOf(today), count);
  }

  // ------------------------------------------------------------ month grid

  /** A grid cell: a blank before the 1st, or a day. */
  datatype Cell =
    | Blank
    | DayCell(day: int, key: string, completed: bool, workoutType: Option<string>, isToday: bool)

  /**
   * The cell of day `day` of month `ym`; `today` is the ordinal of the
   * current date (see `TodayCell` for the key comparison the screen makes).
   */
  function DayCellOf(ym: Dates.YearMonth, byDate: map<int, LiftWorkout>, today: int, day: int): Cell
    requires Dates.ValidMonth(ym) && 1 <= day
  {
    var key := Dates.DateKey(ym.year, ym.month + 1, day);
    var o := Dates.Ordinal(Dates.CivilDate(ym.year, ym.month, day));
    var done := o in byDate && byDate[o].completed;
    DayCell(day, key, done, if done then Some(byDate[o].workoutType) else None, o == today)
  }

  /** The weekday (0 = Sunday) of the 1st: the number of blanks. */
  function FirstDay(ym: Dates.YearMonth): int
    requires Dates.ValidMonth(ym)
  {
    Dates.Weekday(Dates.MonthStart(ym.year, ym.month))
  }

  /**
   * `renderMonth`'s two loops: one blank per weekday before the 1st, then
   * every day of the month once, in order.
   */
  method RenderMonth(ym: Dates.YearMonth, byDate: map<int, LiftWorkout>, today: int) returns (cells: seq<Cell>)
    requires Dates.ValidMonth(ym)
    ensures |cells| == FirstDay(ym) + Dates.DaysInMonth(ym.year, ym.month)
    ensures forall k :: 0 <= k < FirstDay(ym) ==> cells[k] == Blank
    ensures forall d :: 1 <= d <= Dates.DaysInMonth(ym.year, ym.month) ==>
      cells[FirstDay(ym) + d - 1] == DayCellOf(ym, byDate, today, d)
  {
    var firstDay := FirstDay(ym);
    var daysInMonth := Dates.DaysInMonth(ym.year, ym.month);
    var blanks := RenderBlanks(firstDay);
    var days := RenderDays(ym, byDate, today, daysInMonth);
    cells := blanks + days;
    PlaceDays(blanks, days, ym, byDate, today);
  }

  /** Appending the day cells after the blanks puts day `d` at `|blanks| + d - 1`. */
  lemma PlaceDays(blanks: seq<Cell>, days: seq<Cell>, ym: Dates.YearMonth, byDate: map<int, LiftWorkout>, today: int)
    requires Dates.ValidMonth(ym)
    requires forall k :: 0 <= k < |days| ==> days[k] == DayCellOf(ym, byDate, today, k + 1)
    ensures forall d :: 1 <= d <= |days| ==> (blanks + days)[|blanks| + d - 1] == DayCellOf(ym, byDate, today, d)
  {
    forall d | 1 <= d <= |days|
      ensures (blanks + days)[|blanks| + d - 1] == DayCellOf(ym, byDate, today, d)
    {
      assert (blanks + days)[|blanks| + d - 1] == days[d - 1];
    }
  }

  /** The first loop of `renderMonth`: `firstDay` blank cells. */
  method RenderBlanks(firstDay: int) returns (blanks: seq<Cell>)
    requires 0 <= firstDay
    ensures |blanks| == firstDay && forall k :: 0 <= k < firstDay ==> blanks[k] == Blank
  {
    blanks := [];
    var i := 0;
    while i < firstDay
      invariant 0 <= i <= firstDay
      invariant |blanks| == i && forall k :: 0 <= k < i ==> blanks[k] == Blank
    {
      blanks := blanks + [Blank];
      i := i + 1;
    }
  }

  /** The second loop of `renderMonth`: the cells of days 1 to `daysInMonth`, in order. */
  method RenderDays(ym: Dates.YearMonth, byDate: map<int, LiftWorkout>, today: int, daysInMonth: nat)
    returns (days: seq<Cell>)
    requires Dates.ValidMonth(ym)
    ensures |days| == daysInMonth
    ensures forall k :: 0 <= k < daysInMonth ==> days[k] == DayCellOf(ym, byDate, today, k + 1)
  {
    days := [];
    var day := 1;
    while day <= daysInMonth
      invariant 1 <= day <= daysInMonth + 1
      invariant |days| == day - 1
      invariant forall k :: 0 <= k < day - 1 ==> days[k] == DayCellOf(ym, byDate, today, k + 1)
    {
      days := days + [DayCellOf(ym, byDate, today, day)];
      day := day + 1;
    }
  }

  /** `(a + b) % 7` depends only on `a % 7`. */
  lemma ModAdd(a: int, b: int)
    ensures (a % 7 + b) % 7 == (a + b) % 7
  {
    var q := a / 7;
    assert a == 7 * q + a % 7;
    assert a % 7 + b == (a + b) - 7 * q;
  }

  /** Day `d` sits in the column (0 = Sunday) of its own weekday. */
  lemma DayColumn(ym: Dates.YearMonth, d: int)
    requires Dates.ValidMonth(ym) && 1 <= d <= Dates.DaysInMonth(ym.year, ym.month)
    ensures (FirstDay(ym) + d - 1) % 7 == Dates.Weekday(Dates.Ordinal(Dates.CivilDate(ym.year, ym.month, d)))
  {
    var start := Dates.MonthStart(ym.year, ym.month);
    ModAdd(start + 4, d - 1);
  }

  /**
   * A day's cell shows the day number and is marked completed, with the
   * workout type, exactly when the workout indexed under that date is
   * completed.
   */
  lemma DayCellMeaning(ym: Dates.YearMonth, byDate: map<int, LiftWorkout>, today: int, d: int)
    requires Dates.ValidMonth(ym) && 1 <= d
    ensures var c := DayCellOf(ym, byDate, today, d);
      var o := Dates.Ordinal(Dates.CivilDate(ym.year, ym.month, d));
      && c.DayCell? && c.day == d
      && (c.completed <==> o in byDate && byDate[o].completed)
      && (c.workoutType.Some? <==> c.completed)
      && (c.completed ==> o in byDate && c.workoutType == Some(byDate[o].workoutType))
  {
    var o := Dates.Ordinal(Dates.CivilDate(ym.year, ym.month, d));
    var key := Dates.DateKey(ym.year, ym.month + 1, d);
    var done := o in byDate && byDate[o].completed;
    var c := DayCellOf(ym, byDate, today, d);
    assert c == DayCell(d, key, done, if done then Some(byDate[o].workoutType) else None, o == today);
  }

  /** A day's cell carries the "YYYY-MM-DD" key of its own date. */
  lemma DayCellKey(ym: Dates.YearMonth, byDate: map<int, LiftWorkout>, today: int, d: int)
    requires Dates.ValidMonth(ym) && 1 <= d <= Dates.DaysInMonth(ym.year, ym.month)
    ensures DayCellOf(ym, byDate, today, d).key == Dates.Key(Dates.Ordinal(Dates.CivilDate(ym.year, ym.month, d)))
  {
    var c := Dates.CivilDate(ym.year, ym.month, d);
    var o := Dates.Ordinal(c);
    var key := Dates.DateKey(ym.year, ym.month + 1, d);
    var done := o in byDate && byDate[o].completed;
    assert DayCellOf(ym, byDate, today, d)
        == DayCell(d, key, done, if done then Some(byDate[o].workoutType) else None, o == today);
    Dates.DateKeyOfOrdinal(c);
  }

  /**
   * The screen marks a cell as today when the date part of
   * `today.toISOString()` equals the cell's key; for four-digit years that
   * is exactly when the cell's date is today.
   */
  lemma TodayCell(ym: Dates.YearMonth, byDate: map<int, LiftWorkout>, today: int, d: int)
    requires Dates.ValidMonth(ym) && 1 <= d <= Dates.DaysInMonth(ym.year, ym.month)
    requires 1000 <= ym.year <= 9999 && 1000 <= Dates.Civil(today).year <= 9999
    ensures DayCellOf(ym, byDate, today, d).isToday <==> Dates.Key(today) == DayCellOf(ym, byDate, today, d).key
  {
    var c := Dates.CivilDate(ym.year, ym.month, d);
    var o := Dates.Ordinal(c);
    DayCellKey(ym, byDate, today, d);
    var cell := DayCellOf(ym, byDate, today, d);
    assert cell.isToday == (o == today);
    Dates.CivilOfOrdinal(c);
    if Dates.Key(today) == Dates.Key(o) {
      Dates.KeyInjective(today, o);
    }
  }
}
