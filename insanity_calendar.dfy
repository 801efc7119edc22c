/**
 * The 63-day Insanity calendar of js/screens/insanity-calendar.js: which
 * days are done, missed, today or fit tests, the short workout names, and
 * what a click on a day does. The schedule is an input.
 */
module InsanityCalendar {
  import opened Wrappers
  import opened Strings
  import opened Records
  import Store

  /** One day of the programme schedule. */
  datatype ScheduleDay = ScheduleDay(day: int, workout: string, rest: bool, fitTest: bool)

  const PROGRAM := "insanity"

  // ---------------------------------------------------------- completed map

  /** The last record of `ws` (in list order) for programme day `day`. */
  function LastForDay(ws: seq<InsanityWorkout>, day: int): (r: Option<InsanityWorkout>)
    ensures r.None? <==> forall i :: 0 <= i < |ws| ==> ws[i].day != day
    ensures r.Some? ==> r.value in ws && r.value.day == day
  {
    if |ws| == 0 then None
    else if ws[|ws| - 1].day == day then Some(ws[|ws| - 1])
    else
      var r := LastForDay(ws[..|ws| - 1], day);
      assert forall i :: 0 <= i < |ws| - 1 ==> ws[..|ws| - 1][i] == ws[i];
      r
  }

  lemma LastForDaySnoc(ws: seq<InsanityWorkout>, w: InsanityWorkout, day: int)
    ensures LastForDay(ws + [w], day) == if w.day == day then Some(w) else LastForDay(ws, day)
  {
    assert (ws + [w])[..|ws|] == ws;
  }

  /**
   * `workouts.forEach(w => completedMap.set(w.day, w.completed))`: every day
   * with a record is present, holding the flag of its last record.
   */
  method CompletedMap(workouts: seq<InsanityWorkout>) returns (m: map<int, bool>)
    ensures forall d :: d in m <==> LastForDay(workouts, d).Some?
    ensures forall d :: d in m ==> m[d] == LastForDay(workouts, d).value.completed
  {
    m := map[];
    var i := 0;
    while i < |workouts|
      invariant 0 <= i <= |workouts|
      invariant forall d :: d in m <==> LastForDay(workouts[..i], d).Some?
      invariant forall d :: d in m ==> m[d] == LastForDay(workouts[..i], d).value.completed
    {
      var w := workouts[i];
      assert workouts[..i + 1] == workouts[..i] + [w];
      forall d
        ensures LastForDay(workouts[..i + 1], d) == if w.day == d then Some(w) else LastForDay(workouts[..i], d)
      {
        LastForDaySnoc(workouts[..i], w, d);
      }
      m := m[w.day := w.completed];
      i := i + 1;
    }
    assert workouts[..i] == workouts;
  }

  /**
   * Over the stored records (one per day, under its own day), the map holds
   * exactly the stored days, each with its record's completed flag.
   */
  lemma StoredCompletedMap(st: Store.Stores, d: int)
    requires Store.WellKeyed(st)
    ensures var r := LastForDay(Store.AllInsanityWorkouts(st), d);
      && (r.Some? <==> d in st.insanityWorkouts)
      && (r.Some? ==> r.value == st.insanityWorkouts[d])
  {
    var ws := Store.AllInsanityWorkouts(st);
    var r := LastForDay(ws, d);
    if d in st.insanityWorkouts {
      Store.ValuesByKeyMembers(st.insanityWorkouts, d);
      var i :| 0 <= i < |ws| && ws[i] == st.insanityWorkouts[d];
    }
    if r.Some? {
      Store.ValuesByKeyFrom(st.insanityWorkouts, r.value);
    }
  }

  /** `completedMap.get(day)`, where a missing day reads as not completed. */
  function IsCompleted(m: map<int, bool>, day: int): bool {
    day in m && m[day]
  }

  // ------------------------------------------------------- day classification

  /** The ordinal programme day `dayNumber` falls on: start + (dayNumber - 1). */
  function DayDate(startDate: int, dayNumber: int): int {
    startDate + dayNumber - 1
  }

  /** `isDayInPast`: the day's date is strictly before today; false without a started programme. */
  function IsDayInPast(ps: Option<ProgramState>, dayNumber: int, today: int): bool {
    ps.Some? && ps.value.startDate.Some? && DayDate(ps.value.startDate.value, dayNumber) < today
  }

  /** `isDayToday`: the day's date is today; false without a started programme. */
  function IsDayToday(ps: Option<ProgramState>, dayNumber: int, today: int): bool {
    ps.Some? && ps.value.startDate.Some? && DayDate(ps.value.startDate.value, dayNumber) == today
  }

  /**
   * Without a programme start neither mark applies; with one, exactly one of
   * past, today and upcoming holds for each day, and day `today - start + 1`
   * is the one marked today.
   */
  lemma PastTodayMeaning(ps: Option<ProgramState>, dayNumber: int, today: int)
    ensures !(ps.Some? && ps.value.startDate.Some?) ==>
      !IsDayInPast(ps, dayNumber, today) && !IsDayToday(ps, dayNumber, today)
    ensures !(IsDayInPast(ps, dayNumber, today) && IsDayToday(ps, dayNumber, today))
    ensures ps.Some? && ps.value.startDate.Some? ==>
      (IsDayToday(ps, dayNumber, today) <==> dayNumber == today - ps.value.startDate.value + 1)
    ensures ps.Some? && ps.value.startDate.Some? ==>
      (IsDayInPast(ps, dayNumber, today) <==> dayNumber < today - ps.value.startDate.value + 1)
  {
  }

  /** `isMissed`: not completed, not a rest day, and in the past. */
  function IsMissed(d: ScheduleDay, completed: bool, ps: Option<ProgramState>, today: int): bool {
    !completed && !d.rest && IsDayInPast(ps, d.day, today)
  }

  /** The class list `renderDay` builds, in push order. */
  function DayClasses(d: ScheduleDay, completed: bool, ps: Option<ProgramState>, today: int): seq<string> {
    ["calendar-day"]
    + (if completed then ["completed"] else [])
    + (if d.rest then ["rest"] else [])
    + (if d.fitTest && !completed then ["fit-test"] else [])
    + (if IsMissed(d, completed, ps, today) then ["missed"] else [])
    + (if IsDayToday(ps, d.day, today) then ["today"] else [])
  }

  /**
   * Each class is present exactly when its rule holds: a completed or rest
   * day is never missed, the fit-test marker is only on fit-test days not yet
   * done, and missed and today never appear together.
   */
  lemma DayClassesMeaning(d: ScheduleDay, completed: bool, ps: Option<ProgramState>, today: int)
    ensures var cs := DayClasses(d, completed, ps, today);
      && cs[0] == "calendar-day"
      && ("completed" in cs <==> completed)
      && ("rest" in cs <==> d.rest)
      && ("fit-test" in cs <==> d.fitTest && !completed)
      && ("missed" in cs <==> !completed && !d.rest && IsDayInPast(ps, d.day, today))
      && ("today" in cs <==> IsDayToday(ps, d.day, today))
      && !("missed" in cs && "today" in cs)
      && (completed || d.rest ==> "missed" !in cs)
  {
    PastTodayMeaning(ps, d.day, today);
  }

  // ------------------------------------------------------------- short names

  const SHORT_NAMES: map<string, string> := map[
    "Fit Test" := "FIT",
    "Fit Test (Final)" := "FIT",
    "Plyometric Cardio Circuit" := "Plyo",
    "Cardio Power & Resistance" := "Pwr",
    "Cardio Recovery" := "Rec",
    "Pure Cardio" := "Pure",
    "Pure Cardio & Cardio Abs" := "Pure+",
    "Core Cardio & Balance" := "Core",
    "Max Interval Circuit" := "MIC",
    "Max Interval Plyo" := "MIP",
    "Max Cardio Conditioning" := "MCC",
    "Max Cardio Conditioning & Cardio Abs" := "MCC+",
    "Max Recovery" := "MRec",
    "Rest" := "REST"]

  /** `getShortName`: the table's abbreviation (when truthy), else the first four characters. */
  function ShortName(workout: string): string {
    if workout in SHORT_NAMES && |SHORT_NAMES[workout]| > 0 then SHORT_NAMES[workout]
    else Prefix(workout, 4)
  }

  /**
   * A listed workout gets its abbreviation; any other name is cut to its
   * first four characters (all of it when shorter).
   */
  lemma ShortNameMeaning(workout: string)
    ensures workout in SHORT_NAMES ==> ShortName(workout) == SHORT_NAMES[workout]
    ensures workout !in SHORT_NAMES ==>
      |ShortName(workout)| == (if |workout| < 4 then |workout| else 4)
      && ShortName(workout) == workout[..|ShortName(workout)|]
  {
    if workout in SHORT_NAMES {
      assert |SHORT_NAMES[workout]| > 0 by {
        ShortNamesNonEmpty(workout);
      }
    }
  }

  lemma ShortNamesNonEmpty(workout: string)
    requires workout in SHORT_NAMES
    ensures 3 <= |SHORT_NAMES[workout]| <= 5
  {
  }

  lemma ShortNameExamples()
    ensures ShortName("Max Cardio Conditioning & Cardio Abs") == "MCC+"
    ensures ShortName("Insane Abs") == "Insa"
  {
    assert "Insane Abs" !in SHORT_NAMES;
  }

  // --------------------------------------------------------------- the view

  /** What one day cell shows. */
  datatype DayView = DayView(day: int, classes: seq<string>, shortName: string)

  /** `renderDay(day, completedMap.get(day.day), programState)`. */
  function RenderDay(d: ScheduleDay, m: map<int, bool>, ps: Option<ProgramState>, today: int): (v: DayView)
    ensures v.day == d.day
  {
    DayView(d.day, DayClasses(d, IsCompleted(m, d.day), ps, today), ShortName(d.workout))
  }

  /** The "Start Day 1" card is shown exactly when no programme state is stored. */
  function ShowStartCard(st: Store.Stores): bool {
    Store.GetProgramState(st, PROGRAM).None?
  }

  // ---------------------------------------------------------------- actions

  /**
   * A click on a day: nothing on a rest day, the fit-test form on a fit-test
   * day, otherwise the day's completion is toggled. Returns the route
   * navigated to, if any.
   */
  method DayClick(db: Store.Database, d: ScheduleDay, now: int) returns (navigateTo: Option<string>)
    requires db.Valid()
    modifies db
    ensures db.Valid()
    ensures d.rest ==> navigateTo.None? && db.State() == old(db.State())
    ensures !d.rest && d.fitTest ==>
      navigateTo == Some("/fit-test/" + IntToString(d.day)) && db.State() == old(db.State())
    ensures !d.rest && !d.fitTest ==>
      navigateTo.None? &&
      db.State() == old(db.State()).(insanityWorkouts := old(db.State()).insanityWorkouts[d.day :=
        Store.ToggledRecord(Store.GetInsanityWorkout(old(db.State()), d.day), d.day, d.workout, now)])
  {
    if d.rest {
      return None;
    }
    if d.fitTest {
      return Some("/fit-test/" + IntToString(d.day));
    }
    db.ToggleInsanityWorkout(d.day, d.workout, now);
    navigateTo := None;
  }

  /** The "Start Day 1" button: records the programme as started today on day 1, then opens the first fit test. */
  method StartProgram(db: Store.Database, today: int) returns (navigateTo: string)
    requires db.Valid()
    modifies db
    ensures db.Valid()
    ensures db.State() == old(db.State()).(programState := old(db.State()).programState[PROGRAM :=
      ProgramState(PROGRAM, Some(today), 1)])
    ensures navigateTo == "/fit-test/1"
  {
    db.SaveProgramState(ProgramState(PROGRAM, Some(today), 1));
    navigateTo := "/fit-test/1";
  }

  /**
   * After the programme starts today, day 1 is marked today, no day is in
   * the past, and the start card is gone.
   */
  lemma StartedProgramMarks(st: Store.Stores, today: int, dayNumber: int)
    requires dayNumber >= 1
    ensures var st' := st.(programState := st.programState[PROGRAM := ProgramState(PROGRAM, Some(today), 1)]);
      var ps := Store.GetProgramState(st', PROGRAM);
      && !ShowStartCard(st')
      && (IsDayToday(ps, dayNumber, today) <==> dayNumber == 1)
      && !IsDayInPast(ps, dayNumber, today)
  {
  }

  /**
   * Toggling a day from the calendar flips its class between completed and
   * not completed (and so between missed and not, for a past workout day).
   */
  lemma ToggleFlipsCompleted(st: Store.Stores, d: ScheduleDay, now: int)
    requires Store.WellKeyed(st)
    ensures var st' := st.(insanityWorkouts := st.insanityWorkouts[d.day :=
        Store.ToggledRecord(Store.GetInsanityWorkout(st, d.day), d.day, d.workout, now)]);
      (d.day in st'.insanityWorkouts && st'.insanityWorkouts[d.day].completed)
        <==> !(d.day in st.insanityWorkouts && st.insanityWorkouts[d.day].completed)
  {
  }
}
