/**
 * The Insanity fit-test form of js/screens/fit-test.js: the programme day
 * selects the test number, the eight rep inputs are prefilled from an
 * earlier result, the +/- buttons clamp the count, and submitting stores
 * the test and marks the day done.
 */
module FitTestScreen {
  import opened Wrappers
  import opened Strings
  import opened Records
  import Store

  /** The eight moves of every fit test, in table order. */
  const FIT_TEST_EXERCISES: seq<string> := [
    "Switch Kicks", "Power Jacks", "Power Knees", "Power Jumps",
    "Globe Jumps", "Suicide Jumps", "Push-Up Jacks", "Low Plank Oblique"]

  /** The programme days that hold fit tests 1..5. */
  const FIT_TEST_DAYS: seq<int> := [1, 15, 36, 50, 63]

  const MAX_REPS := 999

  /** `s.indexOf(x)`: the first position of `x`, or -1. */
  function IndexOf(s: seq<int>, x: int): (i: int)
    ensures -1 <= i < |s|
    ensures i >= 0 ==> s[i] == x && forall j :: 0 <= j < i ==> s[j] != x
    ensures i == -1 <==> x !in s
  {
    if |s| == 0 then -1
    else if s[0] == x then 0
    else
      var k := IndexOf(s[1..], x);
      if k == -1 then -1 else k + 1
  }

  /** `FIT_TEST_DAYS.indexOf(parseInt(day)) + 1`; an unparsable day (NaN) is never found. */
  function TestNumber(day: Option<int>): (n: int)
    ensures 0 <= n <= |FIT_TEST_DAYS|
  {
    match day
    case None => 0
    case Some(d) => IndexOf(FIT_TEST_DAYS, d) + 1
  }

  /**
   * Day and test number are inverse: a fit-test day gives a number in 1..5
   * that points back at it, and any other day gives 0.
   */
  lemma TestNumberInverse(day: Option<int>)
    ensures var n := TestNumber(day);
      && (1 <= n <= 5 <==> day.Some? && day.value in FIT_TEST_DAYS)
      && (1 <= n <= 5 ==> FIT_TEST_DAYS[n - 1] == day.value)
      && (n == 0 <==> !(day.Some? && day.value in FIT_TEST_DAYS))
  {
  }

  lemma TestNumberOfDay(i: int)
    requires 0 <= i < |FIT_TEST_DAYS|
    ensures TestNumber(Some(FIT_TEST_DAYS[i])) == i + 1
  {
    var n := IndexOf(FIT_TEST_DAYS, FIT_TEST_DAYS[i]);
    assert FIT_TEST_DAYS[n] == FIT_TEST_DAYS[i];
  }

  /** `parseInt(s) || 0`: NaN (and 0) become 0. */
  function ParseOrZero(s: string): int {
    match ParseInt(s)
    case None => 0
    case Some(v) => v
  }

  /** The decrement button: `Math.max(0, value - 1)`. */
  function Decrement(input: string): (r: int)
    ensures r >= 0 && r >= ParseOrZero(input) - 1
    ensures r == 0 || r == ParseOrZero(input) - 1
  {
    var v := ParseOrZero(input);
    if v - 1 > 0 then v - 1 else 0
  }

  /** The increment button: `Math.min(999, value + 1)`. */
  function Increment(input: string): (r: int)
    ensures r <= MAX_REPS && r <= ParseOrZero(input) + 1
    ensures r == MAX_REPS || r == ParseOrZero(input) + 1
  {
    var v := ParseOrZero(input);
    if v + 1 < MAX_REPS then v + 1 else MAX_REPS
  }

  /** A count the increment button writes back reads as the count plus one (at most 999). */
  lemma IncrementWritesBack(v: int)
    requires 0 <= v < MAX_REPS
    ensures ParseOrZero(IntToString(Increment(IntToString(v)))) == v + 1
  {
    var s := IntToString(v);
    ParseIntOfIntToString(v);
    assert ParseOrZero(s) == v;
    assert Increment(s) == v + 1;
    ParseIntOfIntToString(v + 1);
    assert ParseOrZero(IntToString(v + 1)) == v + 1;
  }

  /** A count the decrement button writes back reads as the count minus one (at least 0). */
  lemma DecrementWritesBack(v: int)
    requires 0 < v <= MAX_REPS
    ensures ParseOrZero(IntToString(Decrement(IntToString(v)))) == v - 1
  {
    ParseIntOfIntToString(v);
    assert ParseOrZero(IntToString(v)) == v;
    ParseIntOfIntToString(v - 1);
  }

  /**
   * The buttons write the number back into the box: for a count in 0..998,
   * + then - returns the count; for a count in 1..999, - then + does.
   */
  lemma ButtonsUndo(v: int)
    requires 0 <= v <= MAX_REPS
    ensures v < MAX_REPS ==> Decrement(IntToString(Increment(IntToString(v)))) == v
    ensures v > 0 ==> Increment(IntToString(Decrement(IntToString(v)))) == v
  {
    if v < MAX_REPS {
      IncrementWritesBack(v);
    }
    if v > 0 {
      DecrementWritesBack(v);
    }
  }

  /** The value an input starts with: `existingTest?.exercises?.[index]?.reps || 0`. */
  function Prefill(existing: Option<FitTest>, index: int): int
    requires 0 <= index
  {
    if existing.Some? && index < |existing.value.exercises| then existing.value.exercises[index].reps else 0
  }

  /** The record the submit handler saves: the eight moves in order, each with its parsed count or 0. */
  function BuildFitTest(testNumber: int, day: int, inputs: seq<string>, now: int): (t: FitTest)
    requires |inputs| == |FIT_TEST_EXERCISES|
  {
    FitTest(testNumber, day,
      seq(|FIT_TEST_EXERCISES|, i requires 0 <= i < |FIT_TEST_EXERCISES| =>
        FitTestExercise(FIT_TEST_EXERCISES[i], ParseOrZero(inputs[i]))),
      now)
  }

  /**
   * A saved test has exactly the eight moves in table order, and opening the
   * form again prefills every box with the count that was saved.
   */
  lemma SavedTestReopens(testNumber: int, day: int, inputs: seq<string>, now: int)
    requires |inputs| == |FIT_TEST_EXERCISES|
    ensures var t := BuildFitTest(testNumber, day, inputs, now);
      && t.testNumber == testNumber && t.day == day && t.completedAt == now
      && |t.exercises| == 8
      && (forall i :: 0 <= i < 8 ==> t.exercises[i].name == FIT_TEST_EXERCISES[i])
      && (forall i :: 0 <= i < 8 ==> Prefill(Some(t), i) == ParseOrZero(inputs[i]))
  {
  }

  /** A box holding a printed count is saved as that count. */
  lemma SavedCountIsTyped(testNumber: int, day: int, inputs: seq<string>, now: int, i: int, v: int)
    requires |inputs| == |FIT_TEST_EXERCISES| && 0 <= i < |inputs| && inputs[i] == IntToString(v)
    ensures BuildFitTest(testNumber, day, inputs, now).exercises[i].reps == v
  {
    ParseIntOfIntToString(v);
  }

  /** What the fit-test route shows. */
  datatype Page =
    | InvalidDay
    | Form(testNumber: int, day: int, prefill: seq<int>, updating: bool)

  /** `renderFitTest(params)` given the parsed day and the stored results. */
  function RenderFitTest(st: Store.Stores, day: Option<int>): (p: Page)
    ensures p.InvalidDay? <==> TestNumber(day) == 0
    ensures p.Form? ==> 1 <= p.testNumber <= 5 && FIT_TEST_DAYS[p.testNumber - 1] == p.day
    ensures p.Form? ==> |p.prefill| == 8 && p.updating == Store.GetFitTest(st, p.testNumber).Some?
  {
    TestNumberInverse(day);
    var n := TestNumber(day);
    if n == 0 then InvalidDay
    else
      var existing := Store.GetFitTest(st, n);
      Form(n, day.value, seq(|FIT_TEST_EXERCISES|, i requires 0 <= i => Prefill(existing, i)), existing.Some?)
  }

  /** The submit handler: saves the test, then marks its programme day complete as "Fit Test". */
  method SubmitFitTest(db: Store.Database, testNumber: int, day: int, inputs: seq<string>, now: int)
    requires db.Valid() && |inputs| == |FIT_TEST_EXERCISES|
    modifies db
    ensures db.Valid()
    ensures var t := BuildFitTest(testNumber, day, inputs, now);
      db.State() == old(db.State()).(
        fitTests := old(db.State()).fitTests[testNumber := t],
        insanityWorkouts := old(db.State()).insanityWorkouts[day := Store.CompletedRecord(day, "Fit Test", now)])
  {
    var t := BuildFitTest(testNumber, day, inputs, now);
    db.SaveFitTest(t);
    db.MarkInsanityWorkoutComplete(day, "Fit Test", now);
  }
}
