/**
 * The StrongLifts 5x5 session of js/screens/workout.js: building a session
 * from a workout type and the current weights, the per-set click cycle, the
 * rep picker, weight adjustment, the finish rule, and the derivation of the
 * next starting weights from the workout history.
 */
module Workout {
  import opened Wrappers
  import opened Strings
  import opened Records
  import Store
  import Sorting

  const TARGET_REPS := 5
  const WEIGHT_STEP := 5

  /** The starting weights, in pounds. */
  const DEFAULT_WEIGHTS: map<string, int> := map[
    "Squat" := 45, "Bench Press" := 45, "Barbell Row" := 65, "Overhead Press" := 45, "Deadlift" := 95]

  const WORKOUT_A: seq<string> := ["Squat", "Bench Press", "Barbell Row"]
  const WORKOUT_B: seq<string> := ["Squat", "Overhead Press", "Deadlift"]

  /** `weights[name]`: the weight, or undefined. */
  function Lookup(weights: map<string, int>, name: string): Option<int> {
    if name in weights then Some(weights[name]) else None
  }

  // -------------------------------------------------------- building a session

  /** The exercise list for a (capitalised) workout type: A for "A", B for anything else. */
  function ExerciseNames(workoutType: string): seq<string> {
    if workoutType == "A" then WORKOUT_A else WORKOUT_B
  }

  function SetCount(name: string): nat {
    if name == "Deadlift" then 1 else 5
  }

  /** A set nobody has touched yet. */
  const UNTOUCHED := SetState(TARGET_REPS, None, false)

  /** `weights[name] || DEFAULT_WEIGHTS[name]`: a missing or zero weight falls back to the default. */
  function StartingWeight(weights: map<string, int>, name: string): int
    requires name in DEFAULT_WEIGHTS
  {
    if name in weights && weights[name] != 0 then weights[name] else DEFAULT_WEIGHTS[name]
  }

  function NewExercise(weights: map<string, int>, name: string): Exercise
    requires name in DEFAULT_WEIGHTS
  {
    Exercise(name, StartingWeight(weights, name), seq(SetCount(name), _ => UNTOUCHED), None)
  }

  function NewExercises(workoutType: string, weights: map<string, int>): (r: seq<Exercise>)
    ensures |r| == |ExerciseNames(workoutType)|
  {
    var names := ExerciseNames(workoutType);
    seq(|names|, i requires 0 <= i < |names| => NewExercise(weights, names[i]))
  }

  /** The starting weight is never 0: a zero or missing weight is replaced by the (non-zero) default. */
  lemma StartingWeightNonZero(weights: map<string, int>, name: string)
    requires name in DEFAULT_WEIGHTS
    ensures StartingWeight(weights, name) != 0
    ensures StartingWeight(weights, name) == DEFAULT_WEIGHTS[name]
            || (name in weights && StartingWeight(weights, name) == weights[name])
    ensures (name !in weights || weights[name] == DEFAULT_WEIGHTS[name]) ==> StartingWeight(weights, name) == DEFAULT_WEIGHTS[name]
  {
  }

  /**
   * A new session: type "A" gets Squat, Bench Press, Barbell Row, any other
   * type Squat, Overhead Press, Deadlift; every set is untouched, with 5 sets
   * per exercise and 1 for the Deadlift, so 15 sets for A and 11 for B.
   */
  lemma NewSessionShape(workoutType: string, weights: map<string, int>)
    ensures var exs := NewExercises(workoutType, weights);
      && (forall i :: 0 <= i < |exs| ==> exs[i].name == ExerciseNames(workoutType)[i])
      && (forall i :: 0 <= i < |exs| ==> |exs[i].sets| == (if exs[i].name == "Deadlift" then 1 else 5))
      && (forall i, j :: 0 <= i < |exs| && 0 <= j < |exs[i].sets| ==> exs[i].sets[j] == UNTOUCHED)
      && TotalSets(exs) == (if workoutType == "A" then 15 else 11)
  {
    var exs := NewExercises(workoutType, weights);
    assert TotalSets(exs) == |exs[0].sets| + TotalSets(exs[1..]);
    assert TotalSets(exs[1..]) == |exs[1].sets| + TotalSets(exs[2..]);
    assert TotalSets(exs[2..]) == |exs[2].sets| + TotalSets(exs[3..]);
  }

  function TotalSets(exs: seq<Exercise>): nat {
    if |exs| == 0 then 0 else |exs[0].sets| + TotalSets(exs[1..])
  }

  // ------------------------------------------------------- the set click cycle

  /** A set counts as attempted when it is completed or has a rep count (even 0). */
  predicate Attempted(s: SetState) {
    s.completed || s.completedReps.Some?
  }

  /** `s.completed && s.completedReps >= 5`. */
  predicate Succeeded(s: SetState) {
    s.completed && s.completedReps.Some? && s.completedReps.value >= 5
  }

  /**
   * The states a set can reach: untouched, completed with 1..5 reps, or
   * attempted with 0 reps (not completed); the target stays 5.
   */
  predicate Reachable(s: SetState) {
    && s.targetReps == TARGET_REPS
    && (s.completed ==> s.completedReps.Some? && 0 < s.completedReps.value <= TARGET_REPS)
    && (!s.completed ==> s.completedReps == None || s.completedReps == Some(0))
  }

  /** A click opens the rep picker exactly on a set completed with its target reps. */
  predicate OpensPicker(s: SetState) {
    s.completed && s.completedReps == Some(s.targetReps)
  }

  /** `handleSetClick` on one set: mark done, leave for the picker, or reset. */
  function ClickStep(s: SetState): SetState {
    if !s.completed then s.(completed := true, completedReps := Some(s.targetReps))
    else if s.completedReps == Some(s.targetReps) then s
    else s.(completed := false, completedReps := None)
  }

  /** The rep picker's choice: `completedReps = reps`, `completed = reps > 0`. */
  function PickStep(s: SetState, reps: int): SetState {
    s.(completedReps := Some(reps), completed := reps > 0)
  }

  /** Clicks and picks of 0..5 reps keep a set within its reachable states. */
  lemma StepsKeepReachable(s: SetState, reps: int)
    requires Reachable(s)
    ensures Reachable(ClickStep(s))
    ensures 0 <= reps <= TARGET_REPS ==> Reachable(PickStep(s, reps))
  {
  }

  /**
   * The click cycle on a reachable set: a set that is not completed becomes
   * completed with the target reps (so the next click opens the picker); a
   * set completed with the target reps is left alone; a set completed with
   * fewer reps goes back to untouched.
   */
  lemma ClickCycle(s: SetState)
    requires Reachable(s)
    ensures !s.completed ==> Succeeded(ClickStep(s)) && OpensPicker(ClickStep(s))
    ensures OpensPicker(s) ==> ClickStep(s) == s
    ensures s.completed && !OpensPicker(s) ==> ClickStep(s) == UNTOUCHED
    ensures ClickStep(s) == UNTOUCHED <==> s.completed && !OpensPicker(s)
  {
  }

  /**
   * Picking 0 reps gives the third state: attempted but neither completed
   * nor successful. The next click then marks the set completed with the
   * target reps rather than resetting it.
   */
  lemma ZeroRepsAttemptedNotCompleted(s: SetState)
    requires Reachable(s)
    ensures var z := PickStep(s, 0);
      Attempted(z) && !z.completed && !Succeeded(z)
      && ClickStep(z) == SetState(TARGET_REPS, Some(TARGET_REPS), true)
  {
  }

  /** A picked set succeeds exactly when all 5 reps were picked. */
  lemma PickSucceedsIffFull(s: SetState, reps: int)
    requires 0 <= reps <= TARGET_REPS
    ensures Attempted(PickStep(s, reps))
    ensures Succeeded(PickStep(s, reps)) <==> reps == TARGET_REPS
  {
  }

  // ------------------------------------------------------------ weights

  /** `Math.max(0, weight + delta)`. */
  function AdjustedWeight(weight: int, delta: int): (r: int)
    ensures r >= 0
    ensures r >= weight + delta
    ensures r == weight + delta || r == 0
  {
    if weight + delta > 0 then weight + delta else 0
  }

  /** Adding 5 and taking 5 off again gives back any weight that is not negative. */
  lemma AdjustUpThenDown(weight: int)
    requires weight >= 0
    ensures AdjustedWeight(AdjustedWeight(weight, WEIGHT_STEP), -WEIGHT_STEP) == weight
  {
  }

  /** Taking 5 off and adding it back restores any weight of at least 5, and turns a lighter one into 5. */
  lemma AdjustDownThenUp(weight: int)
    requires weight >= 0
    ensures AdjustedWeight(AdjustedWeight(weight, -WEIGHT_STEP), WEIGHT_STEP)
         == if weight >= WEIGHT_STEP then weight else WEIGHT_STEP
  {
  }

  // ----------------------------------------------------------- session rules

  predicate AllReachable(exs: seq<Exercise>) {
    forall i, j :: 0 <= i < |exs| && 0 <= j < |exs[i].sets| ==> Reachable(exs[i].sets[j])
  }

  /** `updateFinishButton`: every set of every exercise is completed or has a rep count. */
  predicate AllSetsAttempted(exs: seq<Exercise>) {
    forall i, j :: 0 <= i < |exs| && 0 <= j < |exs[i].sets| ==> Attempted(exs[i].sets[j])
  }

  /** `ex.sets.every(s => s.completed && s.completedReps >= 5)`. */
  predicate AllSucceeded(sets: seq<SetState>) {
    forall j :: 0 <= j < |sets| ==> Succeeded(sets[j])
  }

  /** The exercises with set `s` of exercise `e` replaced. */
  function WithSet(exs: seq<Exercise>, e: int, s: int, st: SetState): (r: seq<Exercise>)
    requires 0 <= e < |exs| && 0 <= s < |exs[e].sets|
    ensures |r| == |exs|
  {
    exs[e := exs[e].(sets := exs[e].sets[s := st])]
  }

  /** The finish handler's exercise list: each exercise flagged with whether all its sets succeeded. */
  function MarkIncrease(exs: seq<Exercise>): (r: seq<Exercise>)
    ensures |r| == |exs|
  {
    seq(|exs|, i requires 0 <= i < |exs| => exs[i].(shouldIncrease := Some(AllSucceeded(exs[i].sets))))
  }

  /**
   * Finishing changes no name, weight or set, and flags an exercise for an
   * increase exactly when every one of its sets was completed with at least 5 reps.
   */
  lemma MarkIncreaseMeaning(exs: seq<Exercise>)
    ensures var r := MarkIncrease(exs);
      forall i :: 0 <= i < |exs| ==>
        && r[i].name == exs[i].name && r[i].weight == exs[i].weight && r[i].sets == exs[i].sets
        && r[i].shouldIncrease.Some?
        && (r[i].shouldIncrease.value <==> forall j :: 0 <= j < |exs[i].sets| ==>
              exs[i].sets[j].completed && exs[i].sets[j].completedReps.Some? && exs[i].sets[j].completedReps.value >= 5)
  {
  }

  /** A fresh session cannot be finished: no set has been attempted. */
  lemma FreshSessionNotFinishable(workoutType: string, weights: map<string, int>)
    ensures AllReachable(NewExercises(workoutType, weights))
    ensures !AllSetsAttempted(NewExercises(workoutType, weights))
  {
    var exs := NewExercises(workoutType, weights);
    assert |exs[0].sets| > 0;
    assert !Attempted(exs[0].sets[0]);
  }

  /**
   * A set picked at 0 reps lets the session finish (it is attempted) but its
   * exercise is not flagged for an increase.
   */
  lemma ZeroRepSetBlocksIncrease(exs: seq<Exercise>, e: int, s: int)
    requires 0 <= e < |exs| && 0 <= s < |exs[e].sets|
    requires exs[e].sets[s].completedReps == Some(0) && !exs[e].sets[s].completed
    ensures Attempted(exs[e].sets[s])
    ensures MarkIncrease(exs)[e].shouldIncrease == Some(false)
  {
  }

  // ---------------------------------------------- weights from the history

  /** The weight an exercise suggests for the next session: 5 more when every set succeeded. */
  function Candidate(ex: Exercise): int {
    if AllSucceeded(ex.sets) then ex.weight + WEIGHT_STEP else ex.weight
  }

  /** `workouts.filter(w => w.completed)`. */
  function CompletedOnly(ws: seq<LiftWorkout>): seq<LiftWorkout> {
    if |ws| == 0 then [] else (if ws[0].completed then [ws[0]] else []) + CompletedOnly(ws[1..])
  }

  /** The completed workouts, newest first (ties in store order): the order the history is read in. */
  function History(ws: seq<LiftWorkout>): seq<LiftWorkout> {
    Store.ByDateDesc(CompletedOnly(ws))
  }

  /** Every exercise of `ws`, workout by workout. */
  function Flatten(ws: seq<LiftWorkout>): seq<Exercise> {
    if |ws| == 0 then [] else Flatten(ws[..|ws| - 1]) + ws[|ws| - 1].exercises
  }

  function NamesOf(exs: seq<Exercise>): set<string> {
    set ex | ex in exs :: ex.name
  }

  /** The first of `exs` named `name`: for a history, the most recent session of that exercise. */
  function FirstNamed(exs: seq<Exercise>, name: string): (r: Option<Exercise>)
    ensures r.None? <==> forall i :: 0 <= i < |exs| ==> exs[i].name != name
    ensures r.Some? ==> r.value in exs && r.value.name == name
  {
    if |exs| == 0 then None
    else if exs[0].name == name then Some(exs[0])
    else FirstNamed(exs[1..], name)
  }

  /**
   * The candidate of the first of `exs` named `name` whose candidate differs
   * from the default weight for `name`.
   */
  function FirstDiffering(exs: seq<Exercise>, name: string): (r: Option<int>)
    ensures r.Some? ==> r != Lookup(DEFAULT_WEIGHTS, name)
  {
    if |exs| == 0 then None
    else if exs[0].name == name && Some(Candidate(exs[0])) != Lookup(DEFAULT_WEIGHTS, name) then Some(Candidate(exs[0]))
    else FirstDiffering(exs[1..], name)
  }

  /**
   * One step of the history loop as written: `weights[ex.name]` is
   * overwritten whenever it still equals `DEFAULT_WEIGHTS[ex.name]`
   * (undefined equals undefined for a name without a default).
   */
  function ApplyAsWritten(weights: map<string, int>, ex: Exercise): map<string, int> {
    if Lookup(weights, ex.name) == Lookup(DEFAULT_WEIGHTS, ex.name) then weights[ex.name := Candidate(ex)] else weights
  }

  function FoldAsWritten(exs: seq<Exercise>): map<string, int> {
    if |exs| == 0 then DEFAULT_WEIGHTS else ApplyAsWritten(FoldAsWritten(exs[..|exs| - 1]), exs[|exs| - 1])
  }

  /** `getCurrentWeights` as written, on the workouts in the store. */
  function CurrentWeights(ws: seq<LiftWorkout>): map<string, int> {
    if |ws| == 0 then DEFAULT_WEIGHTS else FoldAsWritten(Flatten(History(ws)))
  }

  /** The weights the loop was written to find: each exercise's candidate from its most recent session. */
  function LatestOf(exs: seq<Exercise>): map<string, int> {
    map n | n in DEFAULT_WEIGHTS.Keys + NamesOf(exs) ::
      if FirstNamed(exs, n).Some? then Candidate(FirstNamed(exs, n).value) else DEFAULT_WEIGHTS[n]
  }

  /** `getCurrentWeights` corrected: the most recent completed session of each exercise decides. */
  function LatestWeights(ws: seq<LiftWorkout>): map<string, int> {
    if |ws| == 0 then DEFAULT_WEIGHTS else LatestOf(Flatten(History(ws)))
  }

  lemma {:induction false} FirstDifferingSnoc(exs: seq<Exercise>, ex: Exercise, name: string)
    ensures FirstDiffering(exs + [ex], name)
         == if FirstDiffering(exs, name).Some? then FirstDiffering(exs, name)
            else if ex.name == name && Some(Candidate(ex)) != Lookup(DEFAULT_WEIGHTS, name) then Some(Candidate(ex))
            else None
  {
    if |exs| > 0 {
      assert (exs + [ex])[1..] == exs[1..] + [ex];
      FirstDifferingSnoc(exs[1..], ex, name);
    }
  }

  lemma {:induction false} FirstNamedSnoc(exs: seq<Exercise>, ex: Exercise, name: string)
    ensures FirstNamed(exs + [ex], name)
         == if FirstNamed(exs, name).Some? then FirstNamed(exs, name)
            else if ex.name == name then Some(ex) else None
  {
    if |exs| > 0 {
      assert (exs + [ex])[1..] == exs[1..] + [ex];
      FirstNamedSnoc(exs[1..], ex, name);
    }
  }

  /**
   * What the loop as written computes: for each name, the candidate of the
   * most recent session whose candidate differs from the default; a
   * session whose candidate equals the default is passed over, and older
   * sessions get to overwrite it.
   */
  lemma {:induction false} FoldAsWrittenMeaning(exs: seq<Exercise>, name: string)
    ensures Lookup(FoldAsWritten(exs), name)
         == if FirstDiffering(exs, name).Some? then FirstDiffering(exs, name) else Lookup(DEFAULT_WEIGHTS, name)
  {
    if |exs| > 0 {
      var prefix, ex := exs[..|exs| - 1], exs[|exs| - 1];
      assert exs == prefix + [ex];
      FoldAsWrittenMeaning(prefix, name);
      FirstDifferingSnoc(prefix, ex, name);
    }
  }

  /** Each name gets the candidate of its most recent session, or its default when it has none. */
  lemma LatestOfMeaning(exs: seq<Exercise>, name: string)
    ensures Lookup(LatestOf(exs), name)
         == if FirstNamed(exs, name).Some? then Some(Candidate(FirstNamed(exs, name).value)) else Lookup(DEFAULT_WEIGHTS, name)
  {
    if name in NamesOf(exs) {
      var ex :| ex in exs && ex.name == name;
      assert FirstNamed(exs, name).Some?;
    }
    if FirstNamed(exs, name).Some? {
      assert FirstNamed(exs, name).value in exs;
      assert name in NamesOf(exs);
    }
  }

  lemma LatestOfSnoc(exs: seq<Exercise>, ex: Exercise)
    ensures NamesOf(exs + [ex]) == NamesOf(exs) + {ex.name}
    ensures LatestOf(exs + [ex])
         == if ex.name in NamesOf(exs) then LatestOf(exs) else LatestOf(exs)[ex.name := Candidate(ex)]
  {
    var r := exs + [ex];
    assert forall e :: e in r <==> e in exs || e == ex;
    assert NamesOf(r) == NamesOf(exs) + {ex.name};
    var expected := if ex.name in NamesOf(exs) then LatestOf(exs) else LatestOf(exs)[ex.name := Candidate(ex)];
    forall n
      ensures Lookup(LatestOf(r), n) == Lookup(expected, n)
    {
      LatestOfMeaning(r, n);
      LatestOfMeaning(exs, n);
      FirstNamedSnoc(exs, ex, n);
      if n == ex.name && ex.name in NamesOf(exs) {
        var e :| e in exs && e.name == n;
      }
    }
    LookupExtensional(LatestOf(r), expected);
  }

  /** One step of the corrected loop keeps `seen` and `weights` in step with the exercises read so far. */
  lemma LatestStep(done: seq<Exercise>, ex: Exercise, seen: set<string>, weights: map<string, int>)
    requires seen == NamesOf(done) && weights == LatestOf(done)
    ensures ex.name !in seen ==> seen + {ex.name} == NamesOf(done + [ex]) && weights[ex.name := Candidate(ex)] == LatestOf(done + [ex])
    ensures ex.name in seen ==> seen == NamesOf(done + [ex]) && weights == LatestOf(done + [ex])
  {
    LatestOfSnoc(done, ex);
  }

  lemma LatestOfEmpty()
    ensures LatestOf([]) == DEFAULT_WEIGHTS
    ensures NamesOf([]) == {}
  {
    forall n
      ensures Lookup(LatestOf([]), n) == Lookup(DEFAULT_WEIGHTS, n)
    {
      LatestOfMeaning([], n);
    }
    LookupExtensional(LatestOf([]), DEFAULT_WEIGHTS);
  }

  lemma LookupExtensional(a: map<string, int>, b: map<string, int>)
    requires forall n :: Lookup(a, n) == Lookup(b, n)
    ensures a == b
  {
    assert forall n :: n in a <==> Lookup(a, n).Some?;
    assert forall n :: n in b <==> Lookup(b, n).Some?;
    assert a.Keys == b.Keys;
    forall n | n in a
      ensures a[n] == b[n]
    {
      assert Lookup(a, n) == Lookup(b, n);
    }
  }

  /**
   * When no session's candidate happens to equal its exercise's default,
   * the loop as written agrees with the intended rule.
   */
  lemma AsWrittenAgreesWithoutDefaultCandidates(ws: seq<LiftWorkout>, name: string)
    requires forall ex :: ex in Flatten(History(ws)) ==> Some(Candidate(ex)) != Lookup(DEFAULT_WEIGHTS, ex.name)
    ensures Lookup(CurrentWeights(ws), name) == Lookup(LatestWeights(ws), name)
  {
    if |ws| > 0 {
      var exs := Flatten(History(ws));
      FoldAsWrittenMeaning(exs, name);
      LatestOfMeaning(exs, name);
      DifferingIsNamed(exs, name);
    }
  }

  lemma {:induction false} DifferingIsNamed(exs: seq<Exercise>, name: string)
    requires forall ex :: ex in exs ==> Some(Candidate(ex)) != Lookup(DEFAULT_WEIGHTS, ex.name)
    ensures FirstDiffering(exs, name)
         == if FirstNamed(exs, name).Some? then Some(Candidate(FirstNamed(exs, name).value)) else None
  {
    if |exs| > 0 {
      assert exs[0] in exs;
      assert forall ex :: ex in exs[1..] ==> ex in exs;
      DifferingIsNamed(exs[1..], name);
    }
  }

  /** Five sets of five reps, all completed. */
  function FullSets(): seq<SetState> {
    seq(5, _ => SetState(TARGET_REPS, Some(TARGET_REPS), true))
  }

  function SquatSession(id: int, date: int, weight: int): LiftWorkout {
    LiftWorkout(Some(id), date, "A", [Exercise("Squat", weight, FullSets(), Some(true))], true, 0, Some(0))
  }

  /** The history of the two sessions of the counterexample: newest first. */
  lemma SentinelHistory(older: LiftWorkout, newer: LiftWorkout)
    requires older == SquatSession(1, 10, 100) && newer == SquatSession(2, 20, 40)
    ensures History([older, newer]) == [newer, older]
  {
    var ws := [older, newer];
    assert ws[1..] == [newer];
    assert CompletedOnly([newer]) == [newer] + CompletedOnly([]);
    assert CompletedOnly(ws) == ws;
    assert Sorting.SortBy([newer], Store.NegDate) == [newer];
    assert Sorting.InsertBy(older, [newer], Store.NegDate) == [newer, older];
  }

  lemma FlattenPair(a: LiftWorkout, b: LiftWorkout)
    ensures Flatten([a, b]) == a.exercises + b.exercises
  {
    assert [a, b][..1] == [a];
    assert Flatten([a]) == Flatten([]) + a.exercises;
  }

  /**
   * The default sentinel in the loop as written: the newer session's Squat
   * (40 lb, all sets done, so 45 lb next) equals the default of 45, so the
   * older 100 lb session overwrites it and the next Squat is 105 lb, where
   * the most recent session calls for 45 lb.
   */
  lemma SentinelCounterexample()
    ensures var ws := [SquatSession(1, 10, 100), SquatSession(2, 20, 40)];
      Lookup(CurrentWeights(ws), "Squat") == Some(105)
      && Lookup(LatestWeights(ws), "Squat") == Some(45)
  {
    var older, newer := SquatSession(1, 10, 100), SquatSession(2, 20, 40);
    var ws := [older, newer];
    SentinelHistory(older, newer);
    SentinelWeights(ws, newer, older);
  }

  lemma SentinelWeights(ws: seq<LiftWorkout>, newer: LiftWorkout, older: LiftWorkout)
    requires older == SquatSession(1, 10, 100) && newer == SquatSession(2, 20, 40)
    requires |ws| > 0 && History(ws) == [newer, older]
    ensures Lookup(CurrentWeights(ws), "Squat") == Some(105)
    ensures Lookup(LatestWeights(ws), "Squat") == Some(45)
  {
    FlattenPair(newer, older);
    var exs := newer.exercises + older.exercises;
    assert exs == [Exercise("Squat", 40, FullSets(), Some(true)), Exercise("Squat", 100, FullSets(), Some(true))];
    SentinelExercises(exs);
  }

  /** The counterexample on the flattened history: the newer Squat (40 lb) first, the older (100 lb) second. */
  lemma SentinelExercises(exs: seq<Exercise>)
    requires exs == [Exercise("Squat", 40, FullSets(), Some(true)), Exercise("Squat", 100, FullSets(), Some(true))]
    ensures Lookup(FoldAsWritten(exs), "Squat") == Some(105)
    ensures Lookup(LatestOf(exs), "Squat") == Some(45)
  {
    assert AllSucceeded(FullSets());
    assert Candidate(exs[0]) == 45 && Candidate(exs[1]) == 105;
    assert exs[1..] == [exs[1]];
    assert FirstDiffering(exs, "Squat") == Some(105);
    FoldAsWrittenMeaning(exs, "Squat");
    assert FirstNamed(exs, "Squat") == Some(exs[0]);
    LatestOfMeaning(exs, "Squat");
  }

  lemma FlattenStep(ws: seq<LiftWorkout>, i: int)
    requires 0 <= i < |ws|
    ensures Flatten(ws[..i + 1]) == Flatten(ws[..i]) + ws[i].exercises
  {
    assert ws[..i + 1][..i] == ws[..i];
  }

  lemma FoldSnoc(done: seq<Exercise>, ex: Exercise)
    ensures FoldAsWritten(done + [ex]) == ApplyAsWritten(FoldAsWritten(done), ex)
  {
    assert (done + [ex])[..|done|] == done;
  }

  lemma SnocStep(done: seq<Exercise>, exs: seq<Exercise>, j: int)
    requires 0 <= j < |exs|
    ensures (done + exs[..j]) + [exs[j]] == done + exs[..j + 1]
    ensures (done + exs[..j] + [exs[j]])[..|done + exs[..j]|] == done + exs[..j]
  {
    assert exs[..j + 1] == exs[..j] + [exs[j]];
  }

  /** `getCurrentWeights` as written: the nested loop over the sorted history. */
  method GetCurrentWeights(db: Store.Database) returns (weights: map<string, int>)
    ensures weights == CurrentWeights(Store.AllStrongliftsWorkouts(db.State()))
  {
    var workouts := Store.AllStrongliftsWorkouts(db.State());
    weights := DEFAULT_WEIGHTS;
    if |workouts| == 0 {
      return;
    }
    var sorted := History(workouts);
    var i := 0;
    while i < |sorted|
      invariant 0 <= i <= |sorted|
      invariant weights == FoldAsWritten(Flatten(sorted[..i]))
    {
      weights := ApplySession(weights, sorted[i].exercises, Flatten(sorted[..i]));
      FlattenStep(sorted, i);
      i := i + 1;
    }
    assert sorted[..i] == sorted;
  }

  /** The inner loop of `getCurrentWeights`: one session's exercises, in order. */
  method ApplySession(weights0: map<string, int>, exs: seq<Exercise>, ghost before: seq<Exercise>)
    returns (weights: map<string, int>)
    requires weights0 == FoldAsWritten(before)
    ensures weights == FoldAsWritten(before + exs)
  {
    weights := weights0;
    var j := 0;
    assert before + exs[..0] == before;
    while j < |exs|
      invariant 0 <= j <= |exs|
      invariant weights == FoldAsWritten(before + exs[..j])
    {
      var ex := exs[j];
      SnocStep(before, exs, j);
      FoldSnoc(before + exs[..j], ex);
      if Lookup(weights, ex.name) == Lookup(DEFAULT_WEIGHTS, ex.name) {
        weights := weights[ex.name := Candidate(ex)];
      }
      j := j + 1;
    }
    assert exs[..j] == exs;
  }

  /** `getCurrentWeights` corrected: an exercise is taken from the first (newest) session that has it. */
  method GetLatestWeights(db: Store.Database) returns (weights: map<string, int>)
    ensures weights == LatestWeights(Store.AllStrongliftsWorkouts(db.State()))
  {
    var workouts := Store.AllStrongliftsWorkouts(db.State());
    weights := DEFAULT_WEIGHTS;
    if |workouts| == 0 {
      return;
    }
    var sorted := History(workouts);
    var seen: set<string> := {};
    var i := 0;
    LatestOfEmpty();
    while i < |sorted|
      invariant 0 <= i <= |sorted|
      invariant seen == NamesOf(Flatten(sorted[..i]))
      invariant weights == LatestOf(Flatten(sorted[..i]))
    {
      seen, weights := TakeNewest(Flatten(sorted[..i]), sorted[i].exercises, seen, weights);
      FlattenStep(sorted, i);
      i := i + 1;
    }
    assert sorted[..i] == sorted;
  }

  /**
   * `renderWorkout`: a session of the requested type, starting from the
   * weights `getCurrentWeights` gives, as written.
   */
  method StartWorkout(db: Store.Database, typeParam: string, today: int, now: int) returns (session: Session)
    ensures fresh(session) && session.Valid()
    ensures session.workoutType == UpperAscii(typeParam)
    ensures session.exercises == NewExercises(session.workoutType, CurrentWeights(Store.AllStrongliftsWorkouts(db.State())))
    ensures session.date == today && session.startedAt == now && !session.completed && session.completedAt == None
  {
    var weights := GetCurrentWeights(db);
    session := new Session(typeParam, weights, today, now);
  }

  /** `renderWorkout` with the corrected rule: each exercise starts from its newest stored weight. */
  method StartWorkoutCorrected(db: Store.Database, typeParam: string, today: int, now: int) returns (session: Session)
    ensures fresh(session) && session.Valid()
    ensures session.workoutType == UpperAscii(typeParam)
    ensures session.exercises == NewExercises(session.workoutType, LatestWeights(Store.AllStrongliftsWorkouts(db.State())))
    ensures session.date == today && session.startedAt == now && !session.completed && session.completedAt == None
  {
    var weights := GetLatestWeights(db);
    session := new Session(typeParam, weights, today, now);
  }

  /** The inner loop of the corrected rule: the exercises of one session, skipping names already seen. */
  method TakeNewest(ghost before: seq<Exercise>, exs: seq<Exercise>, seen0: set<string>, weights0: map<string, int>)
    returns (seen: set<string>, weights: map<string, int>)
    requires seen0 == NamesOf(before) && weights0 == LatestOf(before)
    ensures seen == NamesOf(before + exs) && weights == LatestOf(before + exs)
  {
    seen, weights := seen0, weights0;
    var j := 0;
    assert before + exs[..0] == before;
    while j < |exs|
      invariant 0 <= j <= |exs|
      invariant seen == NamesOf(before + exs[..j])
      invariant weights == LatestOf(before + exs[..j])
    {
      var ex := exs[j];
      SnocStep(before, exs, j);
      LatestStep(before + exs[..j], ex, seen, weights);
      if ex.name !in seen {
        weights := weights[ex.name := Candidate(ex)];
        seen := seen + {ex.name};
      }
      j := j + 1;
    }
    assert exs[..j] == exs;
  }

  // ------------------------------------------------------------ the session

  /** The workout state the screen keeps while a session is in progress. */
  class Session {
    var date: int
    var workoutType: string
    var exercises: seq<Exercise>
    var completed: bool
    var startedAt: int
    var completedAt: Option<int>

    predicate Valid()
      reads this
    {
      AllReachable(exercises)
    }

    /** The record `saveStrongliftsWorkout` receives. */
    function Record(): LiftWorkout
      reads this
    {
      LiftWorkout(None, date, workoutType, exercises, completed, startedAt, completedAt)
    }

    /** `renderWorkout(params)`: `today` is the day ordinal and `now` the timestamp at render time. */
    constructor(typeParam: string, weights: map<string, int>, today: int, now: int)
      ensures Valid()
      ensures workoutType == UpperAscii(typeParam)
      ensures exercises == NewExercises(workoutType, weights)
      ensures date == today && startedAt == now && !completed && completedAt == None
    {
      workoutType := UpperAscii(typeParam);
      exercises := NewExercises(UpperAscii(typeParam), weights);
      date, startedAt, completed, completedAt := today, now, false, None;
    }

    /** `handleSetClick` for set `s` of exercise `e`; returns whether the rep picker opens. */
    method ClickSet(e: int, s: int) returns (picker: bool)
      requires Valid()
      requires 0 <= e < |exercises| && 0 <= s < |exercises[e].sets|
      modifies this
      ensures Valid()
      ensures picker == OpensPicker(old(exercises[e].sets[s]))
      ensures exercises == WithSet(old(exercises), e, s, ClickStep(old(exercises[e].sets[s])))
      ensures date == old(date) && workoutType == old(workoutType) && completed == old(completed)
      ensures startedAt == old(startedAt) && completedAt == old(completedAt)
    {
      var st := exercises[e].sets[s];
      picker := false;
      if !st.completed {
        st := st.(completed := true, completedReps := Some(st.targetReps));
      } else if st.completedReps == Some(st.targetReps) {
        picker := true;
      } else {
        st := st.(completed := false, completedReps := None);
      }
      StepsKeepReachable(exercises[e].sets[s], 0);
      exercises := WithSet(exercises, e, s, st);
    }

    /** The rep picker's handler for set `s` of exercise `e`, with a choice of 0..5 reps. */
    method PickReps(e: int, s: int, reps: int)
      requires Valid()
      requires 0 <= e < |exercises| && 0 <= s < |exercises[e].sets|
      requires 0 <= reps <= TARGET_REPS
      modifies this
      ensures Valid()
      ensures exercises == WithSet(old(exercises), e, s, PickStep(old(exercises[e].sets[s]), reps))
      ensures date == old(date) && workoutType == old(workoutType) && completed == old(completed)
      ensures startedAt == old(startedAt) && completedAt == old(completedAt)
    {
      StepsKeepReachable(exercises[e].sets[s], reps);
      var st := exercises[e].sets[s];
      st := st.(completedReps := Some(reps));
      st := st.(completed := reps > 0);
      exercises := WithSet(exercises, e, s, st);
    }

    /** `adjustWeight` on exercise `e` by `delta` (the buttons pass -5 and +5). */
    method AdjustWeight(e: int, delta: int)
      requires Valid()
      requires 0 <= e < |exercises|
      modifies this
      ensures Valid()
      ensures exercises == old(exercises)[e := old(exercises[e]).(weight := AdjustedWeight(old(exercises[e].weight), delta))]
      ensures exercises[e].weight >= 0
      ensures date == old(date) && workoutType == old(workoutType) && completed == old(completed)
      ensures startedAt == old(startedAt) && completedAt == old(completedAt)
    {
      var ex := exercises[e];
      var w := ex.weight + delta;
      if w < 0 {
        w := 0;
      }
      exercises := exercises[e := ex.(weight := w)];
    }

    /** Whether the finish button is enabled. */
    function FinishEnabled(): bool
      reads this
    {
      AllSetsAttempted(exercises)
    }

    /**
     * The finish handler (reachable only while the button is enabled): marks
     * the session completed at `now` and flags each exercise for an increase.
     */
    method Finish(now: int)
      requires Valid() && FinishEnabled()
      modifies this
      ensures Valid()
      ensures completed && completedAt == Some(now)
      ensures exercises == MarkIncrease(old(exercises))
      ensures date == old(date) && workoutType == old(workoutType) && startedAt == old(startedAt)
    {
      completed := true;
      completedAt := Some(now);
      var updated: seq<Exercise> := [];
      var i := 0;
      while i < |exercises|
        invariant 0 <= i <= |exercises|
        invariant updated == MarkIncrease(exercises)[..i]
      {
        var ex := exercises[i];
        updated := updated + [ex.(shouldIncrease := Some(AllSucceeded(ex.sets)))];
        i := i + 1;
      }
      exercises := updated;
    }

    /** The finish handler followed by `saveStrongliftsWorkout(state)`. */
    method FinishAndSave(db: Store.Database, now: int) returns (id: int)
      requires Valid() && FinishEnabled() && db.Valid()
      modifies this, db
      ensures Valid() && db.Valid()
      ensures completed && completedAt == Some(now) && exercises == MarkIncrease(old(exercises))
      ensures (id, db.State()) == Store.PutLift(old(db.State()), Record())
    {
      Finish(now);
      id := db.SaveStrongliftsWorkout(Record());
    }
  }
}
