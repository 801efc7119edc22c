/**
 * The month calendar on the home route, js/screens/calendar.js: month
 * navigation with year wrap, the Monday-first grid with its weekend and
 * today marks, and the per-date activity and Insanity indexes that light
 * up the days.
 */
module MonthCalendar {
  import opened Wrappers
  import opened Strings
  import opened Records
  import Dates
  import Dicts
  import Store

  // -------------------------------------------------------- month navigation

  const MONTH_NAMES: seq<string> := [
    "JANUARY", "FEBRUARY", "MARCH", "APRIL", "MAY", "JUNE",
    "JULY", "AUGUST", "SEPTEMBER", "OCTOBER", "NOVEMBER", "DECEMBER"]

  /**
   * `formatMonthYear(month, year)`: splitting the title at its space gives
   * the month's name and the printed year, which reads back as the year.
   */
  function MonthTitle(ym: Dates.YearMonth): (r: string)
    requires Dates.ValidMonth(ym)
    ensures Split(r, ' ') == [MONTH_NAMES[ym.month], IntToString(ym.year)]
    ensures ParseInt(Split(r, ' ')[1]) == Some(ym.year)
  {
    var name := MONTH_NAMES[ym.month];
    var year := IntToString(ym.year);
    IntToStringChars(ym.year);
    assert forall j :: 0 <= j < |name| ==> name[j] != ' ';
    SplitJoin([name, year], ' ');
    ParseIntOfIntToString(ym.year);
    name + " " + year
  }

  /** Different months have different titles. */
  lemma MonthTitleInjective(a: Dates.YearMonth, b: Dates.YearMonth)
    requires Dates.ValidMonth(a) && Dates.ValidMonth(b)
    requires MonthTitle(a) == MonthTitle(b)
    ensures a == b
  {
    var pa := Split(MonthTitle(a), ' ');
    assert pa[0] == MONTH_NAMES[a.month] == MONTH_NAMES[b.month];
    MonthNamesDistinct(a.month, b.month);
    assert Some(a.year) == ParseInt(pa[1]) == Some(b.year);
  }

  lemma MonthNamesDistinct(i: int, j: int)
    requires 0 <= i < 12 && 0 <= j < 12 && MONTH_NAMES[i] == MONTH_NAMES[j]
    ensures i == j
  {
  }

  /** The previous-month button: January steps back to December of the year before. */
  function PrevMonth(ym: Dates.YearMonth): Dates.YearMonth {
    if ym.month - 1 < 0 then Dates.YearMonth(ym.year - 1, 11) else Dates.YearMonth(ym.year, ym.month - 1)
  }

  /** The next-month button: December steps on to January of the year after. */
  function NextMonth(ym: Dates.YearMonth): Dates.YearMonth {
    if ym.month + 1 > 11 then Dates.YearMonth(ym.year + 1, 0) else Dates.YearMonth(ym.year, ym.month + 1)
  }

  function MonthIndex(ym: Dates.YearMonth): int {
    12 * ym.year + ym.month
  }

  /**
   * From a valid month the buttons move exactly one month back or forward,
   * stay on valid months, and undo each other.
   */
  lemma MonthSteps(ym: Dates.YearMonth)
    requires Dates.ValidMonth(ym)
    ensures Dates.ValidMonth(PrevMonth(ym)) && MonthIndex(PrevMonth(ym)) == MonthIndex(ym) - 1
    ensures Dates.ValidMonth(NextMonth(ym)) && MonthIndex(NextMonth(ym)) == MonthIndex(ym) + 1
    ensures NextMonth(PrevMonth(ym)) == ym && PrevMonth(NextMonth(ym)) == ym
    ensures ym.month == 0 ==> PrevMonth(ym) == Dates.YearMonth(ym.year - 1, 11)
    ensures ym.month == 11 ==> NextMonth(ym) == Dates.YearMonth(ym.year + 1, 0)
  {
  }

  /** The `displayMonth`/`displayYear` pair the arrow handlers update. */
  class MonthNavigator {
    var displayMonth: int
    var displayYear: int

    function Shown(): Dates.YearMonth
      reads this
    {
      Dates.YearMonth(displayYear, displayMonth)
    }

    constructor(today: int)
      ensures Shown() == Dates.YearMonth(Dates.Civil(today).year, Dates.Civil(today).month)
      ensures Dates.ValidMonth(Shown())
    {
      var c := Dates.Civil(today);
      displayMonth := c.month;
      displayYear := c.year;
    }

    method Prev()
      modifies this
      ensures Shown() == PrevMonth(old(Shown()))
    {
      displayMonth := displayMonth - 1;
      if displayMonth < 0 {
        displayMonth := 11;
        displayYear := displayYear - 1;
      }
    }

    method Next()
      modifies this
      ensures Shown() == NextMonth(old(Shown()))
    {
      displayMonth := displayMonth + 1;
      if displayMonth > 11 {
        displayMonth := 0;
        displayYear := displayYear + 1;
      }
    }
  }

  // ------------------------------------------------------------ grid layout

  /** `getDay() - 1`, with Sunday moved to the end: the Monday-based column of the 1st. */
  function StartDayOfWeek(ym: Dates.YearMonth): (r: int)
    requires Dates.ValidMonth(ym)
    ensures 0 <= r <= 6
  {
    var w := Dates.Weekday(Dates.MonthStart(ym.year, ym.month)) - 1;
    if w < 0 then 6 else w
  }

  /** A day is a weekend day when it is a Sunday (0) or a Saturday (6). */
  predicate IsWeekend(o: int) {
    Dates.Weekday(o) == 0 || Dates.Weekday(o) == 6
  }

  /** The Monday-based weekday of a day: 0 for Monday through 6 for Sunday. */
  function MondayWeekday(o: int): int {
    (Dates.Weekday(o) + 6) % 7
  }

  lemma ModAdd(a: int, b: int)
    ensures (a % 7 + b) % 7 == (a + b) % 7
  {
    var q := a / 7;
    assert a == 7 * q + a % 7;
    assert a % 7 + b == (a + b) - 7 * q;
  }

  /**
   * The leading blanks are the Monday-based weekday of the 1st, and so day
   * `d` lands in the column of its own Monday-based weekday.
   */
  lemma ColumnOfDay(ym: Dates.YearMonth, d: int)
    requires Dates.ValidMonth(ym) && 1 <= d
    ensures StartDayOfWeek(ym) == MondayWeekday(Dates.MonthStart(ym.year, ym.month))
    ensures (StartDayOfWeek(ym) + d - 1) % 7
        == MondayWeekday(Dates.Ordinal(Dates.CivilDate(ym.year, ym.month, d)))
  {
    var s := Dates.MonthStart(ym.year, ym.month);
    var o := Dates.Ordinal(Dates.CivilDate(ym.year, ym.month, d));
    assert o == s + d - 1;
    var w := (s + 4) % 7;
    assert Dates.Weekday(s) == w;
    assert StartDayOfWeek(ym) == (w + 6) % 7;
    ModAdd(w + 6, d - 1);
    ModAdd(s + 4, 6 + d - 1);
    assert (StartDayOfWeek(ym) + d - 1) % 7 == (s + 4 + 6 + d - 1) % 7;
    assert Dates.Weekday(o) == (o + 4) % 7;
    ModAdd(o + 4, 6);
  }

  /** A grid cell: a blank before the 1st, or a day. */
  datatype Cell =
    | Empty
    | DayCell(day: int, key: string, isToday: bool, weekend: bool, hasActivity: bool, hasInsanity: bool)

  /**
   * The cell of day `d`: its key, and the today, weekend, activity and
   * Insanity marks; `first` is the ordinal of the month's 1st, so day `d`
   * is `first + d - 1`.
   */
  function DayCellOf(ym: Dates.YearMonth, first: int, activities: Dicts.Dict<seq<Activity>>, insanity: set<string>, today: int, d: int): Cell
    requires Dates.ValidMonth(ym) && 1 <= d
  {
    DayCell(d, Dates.DateKey(ym.year, ym.month + 1, d), first + d - 1 == today, IsWeekend(first + d - 1),
      HasEntries(activities, Dates.DateKey(ym.year, ym.month + 1, d)), Dates.DateKey(ym.year, ym.month + 1, d) in insanity)
  }

  /** Whether the index lists at least one activity under `key`. */
  predicate HasEntries(activities: Dicts.Dict<seq<Activity>>, key: string) {
    Dicts.Get(activities, key).Some? && |Dicts.Get(activities, key).value| > 0
  }

  /** The fields of a day's cell, one by one. */
  lemma DayCellFields(ym: Dates.YearMonth, first: int, activities: Dicts.Dict<seq<Activity>>, insanity: set<string>, today: int, d: int)
    requires Dates.ValidMonth(ym) && 1 <= d
    ensures var c := DayCellOf(ym, first, activities, insanity, today, d);
      var o := first + d - 1;
      var key := Dates.DateKey(ym.year, ym.month + 1, d);
      && c.DayCell? && c.day == d && c.key == key
      && c.isToday == (o == today) && c.weekend == IsWeekend(o)
      && c.hasActivity == HasEntries(activities, key)
      && c.hasInsanity == (key in insanity)
  {
  }

  /**
   * `renderMonth`'s two loops: one blank per Monday-based weekday before
   * the 1st, then every day of the month once, in order.
   */
  method RenderMonth(ym: Dates.YearMonth, activities: Dicts.Dict<seq<Activity>>, insanity: set<string>, today: int)
    returns (cells: seq<Cell>)
    requires Dates.ValidMonth(ym)
    ensures |cells| == StartDayOfWeek(ym) + Dates.DaysInMonth(ym.year, ym.month)
    ensures forall k :: 0 <= k < StartDayOfWeek(ym) ==> cells[k] == Empty
    ensures forall d :: 1 <= d <= Dates.DaysInMonth(ym.year, ym.month) ==>
      cells[StartDayOfWeek(ym) + d - 1] == DayCellOf(ym, Dates.MonthStart(ym.year, ym.month), activities, insanity, today, d)
  {
    var first := Dates.MonthStart(ym.year, ym.month);
    var startDayOfWeek := StartDayOfWeek(ym);
    var daysInMonth := Dates.DaysInMonth(ym.year, ym.month);
    var blanks := RenderBlanks(startDayOfWeek);
    var days := RenderDays(ym, first, activities, insanity, today, daysInMonth);
    cells := blanks + days;
    PlaceDays(blanks, days, ym, first, activities, insanity, today);
  }

  /** The first loop of `renderMonth`: `n` empty cells. */
  method RenderBlanks(n: int) returns (blanks: seq<Cell>)
    requires 0 <= n
    ensures |blanks| == n && forall k :: 0 <= k < n ==> blanks[k] == Empty
  {
    blanks := [];
    var i := 0;
    while i < n
      invariant 0 <= i <= n
      invariant |blanks| == i && forall k :: 0 <= k < i ==> blanks[k] == Empty
    {
      blanks := blanks + [Empty];
      i := i + 1;
    }
  }

  /** The second loop of `renderMonth`: the cells of days 1 to `daysInMonth`, in order. */
  method RenderDays(ym: Dates.YearMonth, first: int, activities: Dicts.Dict<seq<Activity>>, insanity: set<string>,
                    today: int, daysInMonth: nat)
    returns (days: seq<Cell>)
    requires Dates.ValidMonth(ym)
    ensures |days| == daysInMonth
    ensures forall k :: 0 <= k < daysInMonth ==> days[k] == DayCellOf(ym, first, activities, insanity, today, k + 1)
  {
    days := [];
    var day := 1;
    while day <= daysInMonth
      invariant 1 <= day <= daysInMonth + 1
      invariant |days| == day - 1
      invariant forall k :: 0 <= k < day - 1 ==> days[k] == DayCellOf(ym, first, activities, insanity, today, k + 1)
    {
      days := days + [DayCellOf(ym, first, activities, insanity, today, day)];
      day := day + 1;
    }
  }

  /** Appending the day cells after the blanks puts day `d` at `|blanks| + d - 1`. */
  lemma PlaceDays(blanks: seq<Cell>, days: seq<Cell>, ym: Dates.YearMonth, first: int,
                  activities: Dicts.Dict<seq<Activity>>, insanity: set<string>, today: int)
    requires Dates.ValidMonth(ym)
    requires forall k :: 0 <= k < |days| ==> days[k] == DayCellOf(ym, first, activities, insanity, today, k + 1)
    ensures forall d :: 1 <= d <= |days| ==>
      (blanks + days)[|blanks| + d - 1] == DayCellOf(ym, first, activities, insanity, today, d)
  {
    forall d | 1 <= d <= |days|
      ensures (blanks + days)[|blanks| + d - 1] == DayCellOf(ym, first, activities, insanity, today, d)
    {
      assert (blanks + days)[|blanks| + d - 1] == days[d - 1];
    }
  }

  /**
   * A day is marked today exactly when it is today's date, and weekend
   * exactly when it is a Saturday or a Sunday.
   */
  lemma DayCellMarks(ym: Dates.YearMonth, activities: Dicts.Dict<seq<Activity>>, insanity: set<string>, today: int, d: int)
    requires Dates.ValidMonth(ym) && 1 <= d
    ensures var c := DayCellOf(ym, Dates.MonthStart(ym.year, ym.month), activities, insanity, today, d);
      var o := Dates.Ordinal(Dates.CivilDate(ym.year, ym.month, d));
      && c.DayCell? && c.day == d
      && (c.isToday <==> o == today)
      && (c.weekend <==> MondayWeekday(o) >= 5)
  {
    DayMarksAt(ym, Dates.MonthStart(ym.year, ym.month), activities, insanity, today, d);
    assert Dates.Ordinal(Dates.CivilDate(ym.year, ym.month, d)) == Dates.MonthStart(ym.year, ym.month) + d - 1;
  }

  lemma DayMarksAt(ym: Dates.YearMonth, first: int, activities: Dicts.Dict<seq<Activity>>, insanity: set<string>, today: int, d: int)
    requires Dates.ValidMonth(ym) && 1 <= d
    ensures var c := DayCellOf(ym, first, activities, insanity, today, d);
      && c.DayCell? && c.day == d
      && (c.isToday <==> first + d - 1 == today)
      && (c.weekend <==> MondayWeekday(first + d - 1) >= 5)
  {
    DayCellFields(ym, first, activities, insanity, today, d);
    MondayWeekend(Dates.Weekday(first + d - 1));
  }

  /** Saturday (6) and Sunday (0) are the last two days of a Monday-based week. */
  lemma MondayWeekend(w: int)
    requires 0 <= w < 7
    ensures (w == 0 || w == 6) <==> (w + 6) % 7 >= 5
  {
    if w == 0 {
      assert (w + 6) % 7 == 6;
    } else if w == 6 {
      assert (w + 6) % 7 == 5;
    } else {
      assert (w + 6) % 7 == w - 1;
    }
  }

  // ------------------------------------------------------- activity index

  /** `new Date(a.date)` falls in the month (an unparsable date falls in none). */
  predicate InMonth(a: Activity, ym: Dates.YearMonth) {
    match Dates.ParseDateKey(a.date)
    case Some(c) => c.year == ym.year && c.month == ym.month
    case None => false
  }

  /** The activities of the month, in their order. */
  function MonthActivities(acts: seq<Activity>, ym: Dates.YearMonth): (r: seq<Activity>)
    ensures forall a :: a in r <==> a in acts && InMonth(a, ym)
  {
    if |acts| == 0 then []
    else (if InMonth(acts[0], ym) then [acts[0]] else []) + MonthActivities(acts[1..], ym)
  }

  lemma {:induction false} MonthActivitiesSnoc(acts: seq<Activity>, a: Activity, ym: Dates.YearMonth)
    ensures MonthActivities(acts + [a], ym) == MonthActivities(acts, ym) + (if InMonth(a, ym) then [a] else [])
  {
    if |acts| > 0 {
      assert (acts + [a])[1..] == acts[1..] + [a];
      MonthActivitiesSnoc(acts[1..], a, ym);
    } else {
      assert (acts + [a])[1..] == [];
    }
  }

  lemma {:induction false} FilterByDateSnoc(acts: seq<Activity>, a: Activity, date: string)
    ensures Store.FilterByDate(acts + [a], date) == Store.FilterByDate(acts, date) + (if a.date == date then [a] else [])
  {
    if |acts| > 0 {
      assert (acts + [a])[1..] == acts[1..] + [a];
      FilterByDateSnoc(acts[1..], a, date);
    } else {
      assert (acts + [a])[1..] == [];
    }
  }

  /** The group of `date` in the index: the month's activities on that date, or absent when there are none. */
  function Group(acts: seq<Activity>, ym: Dates.YearMonth, date: string): Option<seq<Activity>> {
    var g := Store.FilterByDate(MonthActivities(acts, ym), date);
    if g == [] then None else Some(g)
  }

  /** Setting one key leaves every other key as it was. */
  lemma InitGroup<V>(byDate: Dicts.Dict<V>, key: string, v: V)
    ensures forall date :: Dicts.Get(Dicts.Set(byDate, key, v), date) == if date == key then Some(v) else Dicts.Get(byDate, date)
  {
    forall date
      ensures Dicts.Get(Dicts.Set(byDate, key, v), date) == if date == key then Some(v) else Dicts.Get(byDate, date)
    {
      Dicts.GetSet(byDate, key, v, date);
    }
  }

  /** Appending one activity adds it to the group of its own date when it is in the month, and to no other. */
  lemma GroupSnoc(acts: seq<Activity>, a: Activity, ym: Dates.YearMonth, date: string)
    ensures Group(acts + [a], ym, date)
         == if InMonth(a, ym) && a.date == date then Some(Store.FilterByDate(MonthActivities(acts, ym), date) + [a])
            else Group(acts, ym, date)
  {
    MonthActivitiesSnoc(acts, a, ym);
    if InMonth(a, ym) {
      var m := MonthActivities(acts, ym);
      assert MonthActivities(acts + [a], ym) == m + [a];
      FilterByDateSnoc(m, a, date);
      if a.date == date {
        assert |Store.FilterByDate(m + [a], date)| > 0;
        assert Group(acts + [a], ym, date) == Some(Store.FilterByDate(m, date) + [a]);
      } else {
        assert Store.FilterByDate(m, date) + [] == Store.FilterByDate(m, date);
        assert Group(acts + [a], ym, date) == Group(acts, ym, date);
      }
    } else {
      assert MonthActivities(acts + [a], ym) == MonthActivities(acts, ym) + [];
      assert MonthActivities(acts + [a], ym) == MonthActivities(acts, ym);
    }
  }

  /** One in-month activity pushed onto its (possibly just created) group keeps the index exact. */
  lemma PushStep(before: Dicts.Dict<seq<Activity>>, acts: seq<Activity>, a: Activity, ym: Dates.YearMonth, current: Dicts.Dict<seq<Activity>>)
    requires forall date :: Dicts.Get(before, date) == Group(acts, ym, date)
    requires InMonth(a, ym)
    requires forall date :: date != a.date ==> Dicts.Get(current, date) == Dicts.Get(before, date)
    requires Dicts.Get(current, a.date) == if Dicts.Get(before, a.date).None? then Some([]) else Dicts.Get(before, a.date)
    ensures forall date :: Dicts.Get(Dicts.Set(current, a.date, Dicts.Get(current, a.date).value + [a]), date)
                       == Group(acts + [a], ym, date)
  {
    var group := Dicts.Get(current, a.date).value;
    assert Dicts.Get(before, a.date) == Group(acts, ym, a.date);
    assert group == Store.FilterByDate(MonthActivities(acts, ym), a.date);
    forall date
      ensures Dicts.Get(Dicts.Set(current, a.date, group + [a]), date) == Group(acts + [a], ym, date)
    {
      Dicts.GetSet(current, a.date, group + [a], date);
      GroupSnoc(acts, a, ym, date);
    }
  }

  /** An activity of another month leaves every group as it was. */
  lemma SkipStep(acts: seq<Activity>, a: Activity, ym: Dates.YearMonth)
    requires !InMonth(a, ym)
    ensures forall date :: Group(acts + [a], ym, date) == Group(acts, ym, date)
  {
    forall date
      ensures Group(acts + [a], ym, date) == Group(acts, ym, date)
    {
      GroupSnoc(acts, a, ym, date);
    }
  }

  /**
   * `getMonthActivities`: an index from date string to the activities of
   * the month on that date, in their original order; dates with none are
   * absent.
   */
  method GetMonthActivities(activities: seq<Activity>, ym: Dates.YearMonth) returns (byDate: Dicts.Dict<seq<Activity>>)
    ensures forall date :: Dicts.Get(byDate, date) == Group(activities, ym, date)
  {
    byDate := [];
    var i := 0;
    while i < |activities|
      invariant 0 <= i <= |activities|
      invariant forall date :: Dicts.Get(byDate, date) == Group(activities[..i], ym, date)
    {
      var a := activities[i];
      assert activities[..i + 1] == activities[..i] + [a];
      byDate := AddActivity(byDate, activities[..i], a, ym);
      i := i + 1;
    }
    assert activities[..i] == activities;
  }

  /** One pass of the loop: an in-month activity is pushed onto its date's group, created empty when absent. */
  method AddActivity(byDate0: Dicts.Dict<seq<Activity>>, ghost acts: seq<Activity>, a: Activity, ym: Dates.YearMonth)
    returns (byDate: Dicts.Dict<seq<Activity>>)
    requires forall date :: Dicts.Get(byDate0, date) == Group(acts, ym, date)
    ensures forall date :: Dicts.Get(byDate, date) == Group(acts + [a], ym, date)
  {
    byDate := byDate0;
    if InMonth(a, ym) {
      if Dicts.Get(byDate, a.date).None? {
        InitGroup(byDate, a.date, []);
        byDate := Dicts.Set(byDate, a.date, []);
      }
      PushStep(byDate0, acts, a, ym, byDate);
      byDate := Dicts.Set(byDate, a.date, Dicts.Get(byDate, a.date).value + [a]);
    } else {
      SkipStep(acts, a, ym);
    }
  }

  /**
   * A group holds exactly the month's activities on its date, none missing
   * and none from another date or month.
   */
  lemma GroupMeaning(acts: seq<Activity>, ym: Dates.YearMonth, date: string)
    ensures var g := Group(acts, ym, date);
      && (g.None? <==> forall a :: a in acts && InMonth(a, ym) ==> a.date != date)
      && (g.Some? ==> forall a :: a in g.value <==> a in acts && InMonth(a, ym) && a.date == date)
  {
    var g := Store.FilterByDate(MonthActivities(acts, ym), date);
    if g != [] {
      assert g[0] in g;
    }
  }

  // ------------------------------------------------------- insanity index

  /** A day's key is the `toISOString` date of the day. */
  lemma DayCellKey(ym: Dates.YearMonth, first: int, index: Dicts.Dict<seq<Activity>>, insanity: set<string>, today: int, d: int)
    requires Dates.ValidMonth(ym) && 1 <= d <= Dates.DaysInMonth(ym.year, ym.month)
    ensures DayCellOf(ym, first, index, insanity, today, d).key == Dates.Key(Dates.Ordinal(Dates.CivilDate(ym.year, ym.month, d)))
  {
    DayCellFields(ym, first, index, insanity, today, d);
    Dates.DateKeyOfOrdinal(Dates.CivilDate(ym.year, ym.month, d));
  }

  /** Looked up in the month's activity index, a date has activities exactly when one of the month is dated so. */
  lemma IndexHasActivity(activities: seq<Activity>, ym: Dates.YearMonth, index: Dicts.Dict<seq<Activity>>, key: string)
    requires forall date :: Dicts.Get(index, date) == Group(activities, ym, date)
    ensures (Dicts.Get(index, key).Some? && |Dicts.Get(index, key).value| > 0)
        <==> exists a :: a in activities && InMonth(a, ym) && a.date == key
  {
    GroupMeaning(activities, ym, key);
    var g := Group(activities, ym, key);
    assert Dicts.Get(index, key) == g;
    if g.Some? {
      assert g.value[0] in g.value;
    }
  }

  /**
   * Given the month's activity index, a day is lit exactly when some
   * activity of the month is dated that day; its Insanity mark is the
   * membership of its key.
   */
  lemma DayCellActivity(ym: Dates.YearMonth, first: int, activities: seq<Activity>, index: Dicts.Dict<seq<Activity>>, insanity: set<string>, today: int, d: int)
    requires Dates.ValidMonth(ym) && 1 <= d
    requires forall date :: Dicts.Get(index, date) == Group(activities, ym, date)
    ensures var c := DayCellOf(ym, first, index, insanity, today, d);
      && (c.hasActivity <==> exists a :: a in activities && InMonth(a, ym) && a.date == c.key)
      && (c.hasInsanity <==> c.key in insanity)
  {
    DayCellFields(ym, first, index, insanity, today, d);
    IndexHasActivity(activities, ym, index, DayCellOf(ym, first, index, insanity, today, d).key);
  }

  /** The day a programme day falls on: start + (day - 1). */
  function ProgramDate(start: int, day: int): int {
    start + day - 1
  }

  predicate OrdinalInMonth(o: int, ym: Dates.YearMonth) {
    Dates.Civil(o).year == ym.year && Dates.Civil(o).month == ym.month
  }

  /** `getMonthInsanity`: the date keys in the month of completed programme days. */
  function MonthInsanity(workouts: seq<InsanityWorkout>, ps: Option<ProgramState>, ym: Dates.YearMonth): set<string> {
    if ps.None? || ps.value.startDate.None? then {}
    else
      var start := ps.value.startDate.value;
      set w | w in workouts && w.completed && OrdinalInMonth(ProgramDate(start, w.day), ym)
        :: Dates.Key(ProgramDate(start, w.day))
  }

  lemma MonthInsanitySnoc(workouts: seq<InsanityWorkout>, w: InsanityWorkout, ps: Option<ProgramState>, ym: Dates.YearMonth)
    requires ps.Some? && ps.value.startDate.Some?
    ensures var o := ProgramDate(ps.value.startDate.value, w.day);
      MonthInsanity(workouts + [w], ps, ym)
        == MonthInsanity(workouts, ps, ym) + (if w.completed && OrdinalInMonth(o, ym) then {Dates.Key(o)} else {})
  {
    assert forall x :: x in workouts + [w] <==> x in workouts || x == w;
  }

  /** The loop of `getMonthInsanity`. */
  method GetMonthInsanity(workouts: seq<InsanityWorkout>, ps: Option<ProgramState>, ym: Dates.YearMonth) returns (byDate: set<string>)
    ensures byDate == MonthInsanity(workouts, ps, ym)
  {
    byDate := {};
    if ps.None? || ps.value.startDate.None? {
      return;
    }
    var startDate := ps.value.startDate.value;
    var i := 0;
    while i < |workouts|
      invariant 0 <= i <= |workouts|
      invariant byDate == MonthInsanity(workouts[..i], ps, ym)
    {
      var w := workouts[i];
      assert workouts[..i + 1] == workouts[..i] + [w];
      MonthInsanitySnoc(workouts[..i], w, ps, ym);
      if w.completed {
        var workoutDate := ProgramDate(startDate, w.day);
        if Dates.Civil(workoutDate).year == ym.year && Dates.Civil(workoutDate).month == ym.month {
          byDate := byDate + {Dates.Key(workoutDate)};
        }
      }
      i := i + 1;
    }
    assert workouts[..i] == workouts;
  }

  /**
   * Without a programme start nothing is marked. With one, a day of the
   * month (four-digit year) is marked exactly when some completed programme
   * day falls on it.
   */
  lemma MonthInsanityMeaning(workouts: seq<InsanityWorkout>, ps: Option<ProgramState>, ym: Dates.YearMonth, d: int)
    requires Dates.ValidMonth(ym) && 1 <= d <= Dates.DaysInMonth(ym.year, ym.month) && 1000 <= ym.year <= 9999
    ensures ps.None? || ps.value.startDate.None? ==> MonthInsanity(workouts, ps, ym) == {}
    ensures ps.Some? && ps.value.startDate.Some? ==>
      var o := Dates.Ordinal(Dates.CivilDate(ym.year, ym.month, d));
      (Dates.Key(o) in MonthInsanity(workouts, ps, ym) <==>
        exists w :: w in workouts && w.completed && ProgramDate(ps.value.startDate.value, w.day) == o)
  {
    if ps.Some? && ps.value.startDate.Some? {
      var c := Dates.CivilDate(ym.year, ym.month, d);
      Dates.CivilOfOrdinal(c);
      InsanityDay(workouts, ps, ym, Dates.Ordinal(c));
    }
  }

  lemma InsanityDay(workouts: seq<InsanityWorkout>, ps: Option<ProgramState>, ym: Dates.YearMonth, o: int)
    requires ps.Some? && ps.value.startDate.Some?
    requires OrdinalInMonth(o, ym) && 1000 <= ym.year <= 9999
    ensures Dates.Key(o) in MonthInsanity(workouts, ps, ym) <==>
      exists w :: w in workouts && w.completed && ProgramDate(ps.value.startDate.value, w.day) == o
  {
    var start := ps.value.startDate.value;
    if Dates.Key(o) in MonthInsanity(workouts, ps, ym) {
      InsanityWitness(workouts, ps, ym, Dates.Key(o));
      var w :| w in workouts && w.completed && OrdinalInMonth(ProgramDate(start, w.day), ym)
        && Dates.Key(ProgramDate(start, w.day)) == Dates.Key(o);
      SameKeySameDay(ProgramDate(start, w.day), o, ym);
    }
    if w :| w in workouts && w.completed && ProgramDate(start, w.day) == o {
      InsanityMember(workouts, ps, ym, w);
    }
  }

  /** Two days of one month with a four-digit year share a key only if they are the same day. */
  lemma SameKeySameDay(p: int, o: int, ym: Dates.YearMonth)
    requires OrdinalInMonth(p, ym) && OrdinalInMonth(o, ym) && 1000 <= ym.year <= 9999
    requires Dates.Key(p) == Dates.Key(o)
    ensures p == o
  {
    Dates.KeyInjective(p, o);
  }

  lemma InsanityWitness(workouts: seq<InsanityWorkout>, ps: Option<ProgramState>, ym: Dates.YearMonth, key: string)
    requires ps.Some? && ps.value.startDate.Some?
    requires key in MonthInsanity(workouts, ps, ym)
    ensures exists w :: (w in workouts && w.completed && OrdinalInMonth(ProgramDate(ps.value.startDate.value, w.day), ym)
      && Dates.Key(ProgramDate(ps.value.startDate.value, w.day)) == key)
  {
  }

  lemma InsanityMember(workouts: seq<InsanityWorkout>, ps: Option<ProgramState>, ym: Dates.YearMonth, w: InsanityWorkout)
    requires ps.Some? && ps.value.startDate.Some?
    requires w in workouts && w.completed && OrdinalInMonth(ProgramDate(ps.value.startDate.value, w.day), ym)
    ensures Dates.Key(ProgramDate(ps.value.startDate.value, w.day)) in MonthInsanity(workouts, ps, ym)
  {
  }

  /** A click on a day opens the day view of its date. */
  function DayClickPath(key: string): (path: string)
    ensures StartsWith(path, "/day/") && path[5..] == key
  {
    "/day/" + key
  }
}
