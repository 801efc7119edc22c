/**
 * The decisions of the day view in js/screens/home.js: the next fit-test
 * checkpoint, the next StrongLifts workout, the weights line, the
 * remaining-workouts count, the activity-card details and the quick-log
 * buttons.
 */
module Home {
  import opened Wrappers
  import opened Strings
  import opened Records
  import opened Dicts
  import Store
  import Dates
  import FitTestScreen

  // ------------------------------------------------------ fit-test checkpoint

  /**
   * `getNextFitTest`: the day of the first test number in 1..5 that has no
   * stored result, or `None` when all five have one.
   */
  function NextFitTest(tests: seq<FitTest>): (r: Option<int>)
    ensures r.Some? ==> r.value in FitTestScreen.FIT_TEST_DAYS
  {
    NextFitTestFrom(TestNumbers(tests), 0)
  }

  /** `fitTests.map(t => t.testNumber)`. */
  function TestNumbers(tests: seq<FitTest>): (r: seq<int>)
    ensures |r| == |tests| && forall i :: 0 <= i < |tests| ==> r[i] == tests[i].testNumber
  {
    if |tests| == 0 then [] else [tests[0].testNumber] + TestNumbers(tests[1..])
  }

  function NextFitTestFrom(done: seq<int>, i: nat): (r: Option<int>)
    requires i <= |FitTestScreen.FIT_TEST_DAYS|
    ensures r.Some? ==> r.value in FitTestScreen.FIT_TEST_DAYS
    decreases |FitTestScreen.FIT_TEST_DAYS| - i
  {
    if i == |FitTestScreen.FIT_TEST_DAYS| then None
    else if i + 1 !in done then Some(FitTestScreen.FIT_TEST_DAYS[i])
    else NextFitTestFrom(done, i + 1)
  }

  /** Every test from `lo` up to (not including) `hi` has a result. */
  predicate DoneBetween(done: seq<int>, lo: int, hi: int) {
    forall n :: lo <= n < hi ==> n in done
  }

  /**
   * The next checkpoint is the day of test `k` exactly when test `k` has no
   * result and every lower test has one; there is none exactly when all
   * five tests have results.
   */
  lemma NextFitTestMeaning(tests: seq<FitTest>)
    ensures var done := TestNumbers(tests);
      && (NextFitTest(tests).None? <==> DoneBetween(done, 1, 6))
      && (forall k :: 1 <= k <= 5 ==>
            ((NextFitTest(tests) == Some(FitTestScreen.FIT_TEST_DAYS[k - 1]))
              <==> k !in done && DoneBetween(done, 1, k)))
  {
    var done := TestNumbers(tests);
    NextFromMeaning(done, 0);
    assert NextFitTest(tests) == NextFitTestFrom(done, 0);
  }

  lemma {:induction false} NextFromMeaning(done: seq<int>, i: nat)
    requires i <= 5
    ensures NextFitTestFrom(done, i).None? <==> DoneBetween(done, i + 1, 6)
    ensures forall k :: i + 1 <= k <= 5 ==>
      ((NextFitTestFrom(done, i) == Some(FitTestScreen.FIT_TEST_DAYS[k - 1]))
        <==> k !in done && DoneBetween(done, i + 1, k))
    decreases 5 - i
  {
    if i < 5 {
      NextFromMeaning(done, i + 1);
    }
  }

  /** With tests 1 and 2 done, the next checkpoint is day 36. */
  lemma NextFitTestExample(t1: FitTest, t2: FitTest)
    requires t1.testNumber == 1 && t2.testNumber == 2
    ensures NextFitTest([t1, t2]) == Some(36)
  {
    assert TestNumbers([t1, t2]) == [1, 2];
  }

  // --------------------------------------------------------- StrongLifts card

  /** `getNextWorkoutType(completedCount)`: A after an even number of workouts, B after an odd one. */
  function NextWorkoutType(completedCount: nat): string {
    if completedCount % 2 == 0 then "A" else "B"
  }

  /** Workouts alternate: one more completed workout always switches A and B. */
  lemma WorkoutTypesAlternate(n: nat)
    ensures NextWorkoutType(n) in {"A", "B"}
    ensures NextWorkoutType(n + 1) != NextWorkoutType(n)
    ensures NextWorkoutType(n + 2) == NextWorkoutType(n)
    ensures NextWorkoutType(n) == "A" <==> n % 2 == 0
  {
  }

  /** One entry of the weights line: the name's first word, the weight, "lb". */
  function WeightLabel(entry: (string, int)): string {
    FirstWord(entry.0) + ": " + IntToString(entry.1) + "lb"
  }

  /** The labels of the entries, in insertion order. */
  function WeightLabels(weights: Dict<int>): (r: seq<string>)
    ensures |r| == |weights|
  {
    seq(|weights|, i requires 0 <= i < |weights| => WeightLabel(weights[i]))
  }

  /** `formatWeights(weights)`: the first three entries, in insertion order, joined by ", ". */
  function FormatWeights(weights: Dict<int>): string {
    if |weights| == 0 then ""
    else Join(WeightLabels(if |weights| < 3 then weights else weights[..3]), ", ")
  }

  /**
   * The line is empty exactly when there are no weights, starts with the
   * first entry's label, and ignores every entry after the third. When no
   * name holds a comma, splitting the line at ", " gives back exactly the
   * labels of the first three entries (all of them when there are fewer).
   */
  lemma FormatWeightsMeaning(weights: Dict<int>)
    ensures FormatWeights(weights) == "" <==> |weights| == 0
    ensures |weights| > 0 ==> StartsWith(FormatWeights(weights), WeightLabel(weights[0]))
    ensures |weights| > 3 ==> FormatWeights(weights) == FormatWeights(weights[..3])
    ensures |weights| > 0 && (forall i :: 0 <= i < |weights| ==> ',' !in weights[i].0) ==>
      var n := if |weights| < 3 then |weights| else 3;
      SplitOn(FormatWeights(weights), ", ") == seq(n, i requires 0 <= i < n => WeightLabel(weights[i]))
  {
    if |weights| > 0 {
      var shown := if |weights| < 3 then weights else weights[..3];
      var labels := WeightLabels(shown);
      JoinStartsWithFirst(labels, ", ");
      assert |WeightLabel(weights[0])| > 0 by {
        assert |": "| == 2;
      }
      if |weights| > 3 {
        assert weights[..3][..3] == weights[..3];
      }
      if forall i :: 0 <= i < |weights| ==> ',' !in weights[i].0 {
        forall i | 0 <= i < |labels|
          ensures SepOnlyAtEnd(labels[i], ", ")
        {
          LabelWithoutComma(shown[i]);
          SepOnlyAtEndByChar(labels[i], ", ", 0);
        }
        SplitOnJoin(labels, ", ");
      }
    }
  }

  /** A label holds a comma only when the name does. */
  lemma LabelWithoutComma(entry: (string, int))
    requires ',' !in entry.0
    ensures ',' !in WeightLabel(entry)
  {
    var w := FirstWord(entry.0);
    assert forall j :: 0 <= j < |w| ==> w[j] == entry.0[j];
    IntToStringChars(entry.1);
    var text := WeightLabel(entry);
    forall j | 0 <= j < |text|
      ensures text[j] != ','
    {
      if j >= |w| + 2 && j < |w| + 2 + |IntToString(entry.1)| {
        assert text[j] == IntToString(entry.1)[j - |w| - 2];
      }
    }
  }

  lemma JoinStartsWithFirst(parts: seq<string>, sep: string)
    requires |parts| > 0
    ensures StartsWith(Join(parts, sep), parts[0])
  {
    if |parts| > 1 {
      assert Join(parts, sep) == parts[0] + (sep + Join(parts[1..], sep));
    }
  }

  /** The weights line for the stats of the store. */
  function WeightsLine(st: Store.Stores): string {
    FormatWeights(Store.StrongliftsStats(st).currentWeights)
  }

  // ------------------------------------------------------------ Insanity card

  /** The "Remaining" figure: `total - completed`. */
  function Remaining(p: Store.Progress): int {
    p.total - p.completed
  }

  /** Done and remaining always make up the 63 programme days. */
  lemma RemainingMeaning(st: Store.Stores)
    ensures var p := Store.InsanityProgress(st);
      p.completed + Remaining(p) == Store.INSANITY_TOTAL
      && Remaining(p) == 63 - |Store.CompletedDays(st.insanityWorkouts)|
  {
  }

  // ----------------------------------------------------------- activity cards

  /** `ACTIVITY_TYPES`: type, label and category. */
  const ACTIVITY_TYPES: Dict<(string, string)> := [
    ("walk", ("Walk", "cardio")), ("hike", ("Hike", "cardio")), ("ruck", ("Ruck", "cardio")),
    ("peloton", ("Peloton", "cardio")), ("zone2", ("Zone 2", "cardio")),
    ("sauna", ("Sauna", "recovery")), ("ice_bath", ("Ice Bath", "recovery"))]

  /** The card title: the configured label, or the type itself for an unknown type. */
  function ActivityLabel(activityType: string): string {
    match Get(ACTIVITY_TYPES, activityType)
    case Some(config) => config.0
    case None => activityType
  }

  lemma ActivityLabelMeaning(activityType: string)
    ensures (forall i :: 0 <= i < |ACTIVITY_TYPES| ==> ACTIVITY_TYPES[i].0 != activityType)
      ==> ActivityLabel(activityType) == activityType
    ensures ActivityLabel("zone2") == "Zone 2" && ActivityLabel("ice_bath") == "Ice Bath"
  {
    GetNone(ACTIVITY_TYPES, activityType);
  }

  /** The separator between details, as the source file spells it (a double-encoded middle dot). */
  const DETAIL_SEPARATOR := " \U{00C2}\U{00B7} "

  /** The cardio detail pieces: only present (truthy) fields, in the order duration, distance, zone. */
  function DetailParts(a: Activity): (parts: seq<string>)
    ensures |parts| <= 3
  {
    (if a.duration.Some? && a.duration.value != 0 then [IntToString(a.duration.value) + " min"] else [])
    + (if a.distance.Some? && a.distance.value != 0 then [IntToString(a.distance.value) + " mi"] else [])
    + (if a.heartRateZone.Some? && a.heartRateZone.value != "" then [ReplaceFirst(a.heartRateZone.value, "zone", "Z")] else [])
  }

  /** The details line of a cardio card; the time of day a recovery card shows is not modelled. */
  function ActivityDetails(a: Activity): Option<string> {
    if a.category == "cardio" then Some(Join(DetailParts(a), DETAIL_SEPARATOR)) else None
  }

  /**
   * The detail pieces are exactly the present fields, in the order duration,
   * distance, zone: there is one per present field, the duration comes
   * first, the distance follows it, and the zone comes last.
   */
  lemma DetailPartsMeaning(a: Activity)
    ensures var hasDuration := a.duration.Some? && a.duration.value != 0;
      var hasDistance := a.distance.Some? && a.distance.value != 0;
      var hasZone := a.heartRateZone.Some? && a.heartRateZone.value != "";
      var parts := DetailParts(a);
      && |parts| == (if hasDuration then 1 else 0) + (if hasDistance then 1 else 0) + (if hasZone then 1 else 0)
      && (hasDuration ==> parts[0] == IntToString(a.duration.value) + " min")
      && (hasDistance ==> parts[if hasDuration then 1 else 0] == IntToString(a.distance.value) + " mi")
      && (hasZone ==> parts[|parts| - 1] == ReplaceFirst(a.heartRateZone.value, "zone", "Z"))
  {
  }

  /**
   * A cardio card has details exactly when one of duration, distance and
   * zone is present, and they begin with the duration when it is present.
   * When the zone holds no U+00C2 (the separator's second character),
   * splitting the details at the separator gives back the pieces.
   */
  lemma ActivityDetailsMeaning(a: Activity)
    requires a.category == "cardio"
    ensures var present := (a.duration.Some? && a.duration.value != 0)
                         || (a.distance.Some? && a.distance.value != 0)
                         || (a.heartRateZone.Some? && a.heartRateZone.value != "");
      ActivityDetails(a).value == "" <==> !present
    ensures a.duration.Some? && a.duration.value != 0 ==>
      StartsWith(ActivityDetails(a).value, IntToString(a.duration.value) + " min")
    ensures |DetailParts(a)| > 0 && (a.heartRateZone.Some? ==> '\U{00C2}' !in a.heartRateZone.value) ==>
      SplitOn(ActivityDetails(a).value, DETAIL_SEPARATOR) == DetailParts(a)
  {
    var parts := DetailParts(a);
    forall i | 0 <= i < |parts|
      ensures |parts[i]| > 0
    {
      if a.heartRateZone.Some? && a.heartRateZone.value != "" {
        ReplaceFirstNonEmpty(a.heartRateZone.value, "zone", "Z");
      }
    }
    JoinEmptyIff(parts, DETAIL_SEPARATOR);
    if |parts| > 0 {
      JoinStartsWithFirst(parts, DETAIL_SEPARATOR);
      if a.heartRateZone.Some? ==> '\U{00C2}' !in a.heartRateZone.value {
        forall i | 0 <= i < |parts|
          ensures SepOnlyAtEnd(parts[i], DETAIL_SEPARATOR)
        {
          PartWithoutMarker(a, i);
          SepOnlyAtEndByChar(parts[i], DETAIL_SEPARATOR, 1);
        }
        SplitOnJoin(parts, DETAIL_SEPARATOR);
      }
    }
  }

  /** No detail piece holds U+00C2 unless the zone does. */
  lemma PartWithoutMarker(a: Activity, i: int)
    requires 0 <= i < |DetailParts(a)|
    requires a.heartRateZone.Some? ==> '\U{00C2}' !in a.heartRateZone.value
    ensures '\U{00C2}' !in DetailParts(a)[i]
  {
    var parts := DetailParts(a);
    var part := parts[i];
    if a.duration.Some? && a.duration.value != 0 { IntToStringChars(a.duration.value); }
    if a.distance.Some? && a.distance.value != 0 { IntToStringChars(a.distance.value); }
    if '\U{00C2}' in part {
      if a.heartRateZone.Some? && a.heartRateZone.value != "" && part == ReplaceFirst(a.heartRateZone.value, "zone", "Z") {
        ReplaceFirstChars(a.heartRateZone.value, "zone", "Z", '\U{00C2}');
      }
    }
  }

  /** `'zone2'.replace('zone', 'Z')` shows as "Z2". */
  lemma ZoneLabelExample()
    ensures ReplaceFirst("zone2", "zone", "Z") == "Z2"
  {
    assert StartsWith("zone2", "zone");
  }

  lemma ReplaceFirstNonEmpty(s: string, pattern: string, replacement: string)
    requires |s| > 0 && |replacement| > 0
    ensures |ReplaceFirst(s, pattern, replacement)| > 0
  {
  }

  lemma {:induction false} JoinEmptyIff(parts: seq<string>, sep: string)
    requires forall i :: 0 <= i < |parts| ==> |parts[i]| > 0
    ensures Join(parts, sep) == "" <==> |parts| == 0
  {
    if |parts| > 1 {
      assert |Join(parts, sep)| >= |parts[0]|;
    }
  }

  // ----------------------------------------------------------- the day view

  /** `params?.date || today's date`: the date the day view shows. */
  function ViewDate(param: Option<string>, today: int): string {
    if param.Some? && param.value != "" then param.value else Dates.Key(today)
  }

  /** What a quick-log button does. */
  datatype QuickAction =
    | SaveRecovery(activity: Activity)
    | Navigate(path: string)

  /** A quick-log button: recovery types are saved at once, cardio types open the form for the day. */
  function QuickLogAction(activityType: string, category: string, date: string): (q: QuickAction)
    ensures q.SaveRecovery? <==> category == "recovery"
    ensures q.SaveRecovery? ==> q.activity.date == date && q.activity.activityType == activityType
                                && q.activity.category == "recovery" && q.activity.id.None?
  {
    if category == "recovery" then
      SaveRecovery(Activity(None, date, activityType, "recovery", None, None, None, None, None))
    else
      Navigate("/log-activity/" + activityType + "?date=" + date)
  }

  /** The quick-log click: performs the save of a recovery activity, or returns the path to go to. */
  method QuickLog(db: Store.Database, activityType: string, category: string, date: string, now: int)
    returns (path: Option<string>)
    requires db.Valid()
    modifies db
    ensures db.Valid()
    ensures match QuickLogAction(activityType, category, date)
      case SaveRecovery(a) =>
        path.None? && db.State() == Store.PutActivity(old(db.State()), Store.StampCompletedAt(a, now)).1
      case Navigate(p) =>
        path == Some(p) && db.State() == old(db.State())
  {
    match QuickLogAction(activityType, category, date)
    case SaveRecovery(a) =>
      var _ := db.SaveActivity(a, now);
      path := None;
    case Navigate(p) =>
      path := Some(p);
  }
}
