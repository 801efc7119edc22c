/**
 * The records the app keeps in its object stores, one datatype per record
 * shape. Dates of StrongLifts workouts and the Insanity start date are day
 * ordinals (see module Dates); timestamps are milliseconds; activity dates
 * are the "YYYY-MM-DD" strings the screens pass around.
 */
module Records {
  import opened Wrappers

  /** One set of a StrongLifts exercise; `completedReps` is `null` until the set is attempted. */
  datatype SetState = SetState(targetReps: int, completedReps: Option<int>, completed: bool)

  /** One exercise of a StrongLifts session; `shouldIncrease` is only present once the session is finished. */
  datatype Exercise = Exercise(name: string, weight: int, sets: seq<SetState>, shouldIncrease: Option<bool>)

  /** A StrongLifts workout; `id` is absent until the store assigns one. */
  datatype LiftWorkout = LiftWorkout(
    id: Option<int>,
    date: int,
    workoutType: string,
    exercises: seq<Exercise>,
    completed: bool,
    startedAt: int,
    completedAt: Option<int>)

  /** An Insanity programme day, keyed by its day number. */
  datatype InsanityWorkout = InsanityWorkout(day: int, workoutName: string, completed: bool, completedAt: Option<int>)

  datatype FitTestExercise = FitTestExercise(name: string, reps: int)

  /** An Insanity fit test, keyed by its test number (1..5). */
  datatype FitTest = FitTest(testNumber: int, day: int, exercises: seq<FitTestExercise>, completedAt: int)

  /** The state of a programme, keyed by its name ("insanity" or "stronglifts"). */
  datatype ProgramState = ProgramState(program: string, startDate: Option<int>, currentDay: int)

  /**
   * A logged activity. Fields a record does not carry are `None`; a
   * duration that did not parse (NaN) is also `None`.
   */
  datatype Activity = Activity(
    id: Option<int>,
    date: string,
    activityType: string,
    category: string,
    duration: Option<int>,
    distance: Option<int>,
    heartRateZone: Option<string>,
    notes: Option<string>,
    completedAt: Option<int>)
}
