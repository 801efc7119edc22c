# FitTrack decision logic in Dafny

FitTrack is a browser app for two training programmes and a daily activity
log. Insanity is a 63-day cardio calendar with five fit tests. StrongLifts
5x5 alternates workouts A and B, where each exercise is a row of sets and the
next session's starting weights come from the last ones. Walks, rides, sauna
and the like are logged per day. The app keeps its records in IndexedDB
object stores. A hash router picks the screen to show.

This project models the decisions the app makes, over plain values and a few
classes:

- **`Records`** holds the record shapes of the object stores.
- **`Store`** models the stores and their operations.
  - Each object store is a map keyed by its key path (js/db.js).
  - The auto-increment stores carry their key generator.
  - `getAll` yields values in ascending key order, as IndexedDB does.
  - The writing operations are methods of the class `Store.Database`. Each one
    keeps the invariant that every record sits under its own key.
- **`Workout`** models the StrongLifts session (js/screens/workout.js).
  - The session is a class whose methods mutate sets and weights in place, as
    the click handlers do.
  - Finishing computes `shouldIncrease`.
  - The next starting weights are computed by a loop over the stored history.
- **The screen modules** are `Home`, `StrongliftsCalendar`, `InsanityCalendar`,
  `MonthCalendar`, `FitTestScreen`, `FitTestProgress` and `LogActivity`. Each
  models the calculations of one screen: checkpoints, streaks, month grids,
  day classes, clamps, totals, record construction and the submit and delete
  paths.
- **`Router`** models hash-path normalisation and segment matching with
  `:param` capture. The route table is a class whose `RegisterRoute` and
  `HandleRoute` update it.
- **The helper modules** model the JavaScript built-ins the code relies on:
  - `Dates` is the proleptic Gregorian calendar over day ordinals (0 is
    1970-01-01), with `YYYY-MM-DD` keys.
  - `Strings` covers `split`, `join`, `trim`, `parseInt` and number printing.
  - `Dicts` covers objects used as insertion-ordered dictionaries.
  - `Sorting` is a stable sort by an integer key, like `Array.prototype.sort`.

Dates, clocks and time zones:

- Dates are integer day ordinals.
- "Today" and "now" are parameters: `today` is a day ordinal and `now` a
  millisecond timestamp.
- Every `new Date(...)` computation in the code is modelled on the ordinals
  without time zones.

Some behaviours of the code that a reader might not expect, all modelled as
written:

- `getCurrentWeights` adds 5 lb to an exercise whose sets all reached five
  reps.
- The Insanity progress counts against a total of 63 days.
- `clearAllData` empties the five programme and activity stores and leaves
  `settings` untouched.
- `shouldIncrease` compares with the literal 5 rather than the set's target.
  The two have the same value.

## Model

| member | source | states |
|---|---|---|
| Workout.NewSessionShape | js/screens/workout.js:17-39 | A new session lists WORKOUT_A's exercises for type "A" and WORKOUT_B's otherwise. Deadlift has 1 set and every other exercise 5, so a session has 15 or 11 sets. Every set starts untouched: target 5, reps null, not completed. |
| Workout.StartingWeightNonZero | js/screens/workout.js:30 | The starting weight is never 0. It is either the default or the stored weight, and it is the default when the name is unstored or stored at its default. |
| Workout.StepsKeepReachable | js/screens/workout.js:151-198 | Clicks and rep picks keep a set in the reachable states: completed with 1..5 reps, or not completed with reps null or 0. |
| Workout.ClickCycle | js/screens/workout.js:151-166 | Clicking an untouched set completes it with the target reps. Clicking a set at target changes nothing and opens the picker. Clicking any other completed set resets it, and only such a click resets. |
| Workout.ZeroRepsAttemptedNotCompleted | js/screens/workout.js:196-198 | Picking 0 reps gives a set that counts as attempted but is neither completed nor successful. The next click completes it at target. |
| Workout.PickSucceedsIffFull | js/screens/workout.js:196-198 | After any pick the set is attempted. It counts as successful exactly when the pick was 5. |
| Workout.AdjustedWeight | js/screens/workout.js:226 | The adjusted weight is never negative. It is weight + delta, or 0 when that would be negative. |
| Workout.AdjustUpThenDown | js/screens/workout.js:223-226 | +5 then −5 gives back any non-negative weight. |
| Workout.AdjustDownThenUp | js/screens/workout.js:223-226 | −5 then +5 gives back the weight when it is at least 5, and 5 otherwise, because of the floor at 0. |
| Workout.MarkIncreaseMeaning | js/screens/workout.js:91-97 | Finishing keeps each exercise's name, weight and sets. It sets `shouldIncrease` exactly when every set is completed with at least 5 reps. |
| Workout.FreshSessionNotFinishable | js/screens/workout.js:232-238 | A new session's sets are all reachable, and it cannot be finished until its sets are attempted. |
| Workout.ZeroRepSetBlocksIncrease | js/screens/workout.js:92 | A set picked at 0 reps counts as attempted but makes its exercise's `shouldIncrease` false. |
| Workout.FoldAsWrittenMeaning | js/screens/workout.js:252-260 | As written, the weight `getCurrentWeights` gives an exercise comes from the newest history entry whose candidate differs from the default. It is the default when no entry does. |
| Workout.CurrentWeights | js/screens/workout.js:241-263 | `getCurrentWeights` as written: the defaults without history, else the sentinel fold over the history newest first, as `FoldAsWrittenMeaning` and `GetCurrentWeights` state. |
| Workout.LatestOfMeaning | js/screens/workout.js:247-258 | The corrected weights take the candidate of the newest history entry for each exercise, and the default when there is none. |
| Workout.LatestWeights | js/screens/workout.js:241-263 | The corrected weights: the defaults without history, else each exercise's newest candidate, as `LatestOfMeaning` and `GetLatestWeights` state. |
| Workout.AsWrittenAgreesWithoutDefaultCandidates | js/screens/workout.js:252-258 | The as-written and corrected weights agree whenever no history entry's candidate equals its default. |
| Workout.SentinelCounterexample | js/screens/workout.js:254 | Two completed Squat sessions, 100 lb older and 40 lb newer, both at full reps. As written the next Squat weight is 105 and the intended one is 45. |
| Workout.GetCurrentWeights | js/screens/workout.js:241-263 | The loop over the stored history computes exactly the as-written weights. |
| Workout.ApplySession | js/screens/workout.js:253-259 | The inner loop folds one workout's exercises into the weights, extending the as-written fold. |
| Workout.GetLatestWeights | js/screens/workout.js:241-263 | The corrected loop computes exactly the weights of the newest entry per exercise. |
| Workout.TakeNewest | js/screens/workout.js:253-259 | The corrected inner loop keeps the first-seen (newest) entry per exercise. |
| Workout.StartWorkout | js/screens/workout.js:16-39 | As written: a new session has the upper-cased type, exercises built from the weights `getCurrentWeights` gives, today's date and `startedAt` = now. It is not completed. |
| Workout.StartWorkoutCorrected | js/screens/workout.js:16-39 | The same session, with exercises built from the corrected weights, the newest stored weight per exercise. |
| Workout.Session.constructor | js/screens/workout.js:25-39 | Builds the session state record with its exercises from the given weights. |
| Workout.Session.ClickSet | js/screens/workout.js:146-169 | Only the clicked set changes, by the click step. The picker opens exactly when that set was completed at target. Nothing else in the session changes. |
| Workout.Session.PickReps | js/screens/workout.js:195-199 | Only the picked set changes, to the chosen reps, completed iff reps > 0. Nothing else changes. |
| Workout.Session.AdjustWeight | js/screens/workout.js:223-230 | Only the exercise's weight changes, to the floored sum. Its sets and every other exercise stay as they were. |
| Workout.Session.Finish | js/screens/workout.js:86-99 | Needs every set attempted. Then the session is completed, `completedAt` = now, and exercises gain `shouldIncrease`. |
| Workout.Session.FinishAndSave | js/screens/workout.js:86-100 | Finishes the session and stores it as a new StrongLifts workout. |
| Store.ToggledRecord | js/db.js:87-96 | The toggled record is completed iff the existing one was not. It is stamped with now when completed and has no stamp otherwise. |
| Store.ToggleChangesProgressByOne | js/db.js:87-112 | A toggle moves the completed count by exactly +1 or −1. |
| Store.ToggleTwice | js/db.js:87-96 | Toggling twice restores the completed flag. |
| Store.InsanityProgress | js/db.js:108-112 | The completed count is the number of completed day records, and the total is fixed at 63. |
| Store.CountValuesByKey | js/db.js:110 | Counting over `getAll` equals counting the stored keys that satisfy the filter. |
| Store.ByDateDesc | js/screens/workout.js:248-250 | The date-descending sort is a permutation with dates non-increasing. |
| Store.LastWorkoutIsLatest | js/db.js:153-157 | With workouts stored, the last workout is a stored record under its own id whose date is the latest of all. |
| Store.LastWorkoutIsFirstStored | js/db.js:153-157 | Among workouts sharing the latest date, the one returned has the smallest id, because the sort is stable over `getAll`'s key order. |
| Store.FirstWithDate | js/db.js:143-146 | The index lookup by date finds nothing iff no workout has that date. Otherwise it finds the first in key order. |
| Store.StrongliftsStats | js/db.js:159-173 | `completed` counts the completed workouts. `currentWeights` is empty without workouts and otherwise comes from the latest-dated workout, completed or not. |
| Store.WeightEntriesGet | js/db.js:164-169 | The weights object has an entry for a name iff some exercise has that name, and its value is the last such exercise's weight. |
| Store.GetAllSettings | js/db.js:188-194 | The settings object has a key iff that setting is stored, with the stored value. |
| Store.FilterByDate | js/db.js:272-275 | The filter keeps exactly the activities with the date. |
| Store.GetActivitiesByDate | js/db.js:272-275 | Exactly the stored activities with the given date. |
| Store.ActivitiesByDateComplete | js/db.js:272-275 | Every stored activity with the date is returned. |
| Store.StampCompletedAt | js/db.js:255-258 | `completedAt` is set to now only when it is missing or 0. No other field changes. |
| Store.PutKeepsWellKeyed | js/db.js:30-52 | A put into the auto-increment stores keeps every record under its own key and the generators past every key. |
| Store.PutWithoutIdIsFresh | js/db.js:30-52 | A put without an id gets a new key and grows the store by one. |
| Store.SortedKeys | js/db.js:77-80 | The keys in strictly ascending order, exactly the key set. |
| Store.ValuesByKeyIndex | js/db.js:77-80 | `getAll`'s i-th value is the record under the i-th smallest key. |
| Store.ClearedAll | js/db.js:210-217 | `clearAllData` empties insanityWorkouts, fitTests, strongliftsWorkouts, programState and activities, and leaves settings untouched. |
| Store.ClearEachIsClearedAll | js/db.js:210-217 | Clearing the five stores one at a time, as the loop does, gives that state. |
| Store.ClearedInsanity | js/db.js:219-229 | Empties insanityWorkouts and fitTests and removes only the "insanity" programme state. Every other store is unchanged. |
| Store.ClearedStronglifts | js/db.js:231-237 | Empties strongliftsWorkouts and removes only the "stronglifts" programme state. Every other store is unchanged. |
| Store.ProgramClearsCommute | js/db.js:219-237 | The two programme clears commute. |
| Store.ClearAllCoversProgramClears | js/db.js:210-237 | Clearing all after the programme clears is the same as clearing all. |
| Store.Database.constructor | js/db.js:7-55 | A new database has all stores empty. |
| Store.Database.SaveInsanityWorkout | js/db.js:82-85 | Stores the record under its day. Nothing else changes. |
| Store.Database.ToggleInsanityWorkout | js/db.js:87-96 | Replaces the day's record with the toggled record. |
| Store.Database.MarkInsanityWorkoutComplete | js/db.js:98-106 | Stores a completed record for the day whatever was there before. |
| Store.Database.SaveFitTest | js/db.js:126-129 | Stores the test under its test number. |
| Store.Database.SaveStrongliftsWorkout | js/db.js:148-151 | Puts the workout, under a new key when it has no id. |
| Store.Database.SaveSetting | js/db.js:183-186 | Stores the setting under its key. |
| Store.Database.SaveProgramState | js/db.js:203-206 | Stores the state under its programme name. |
| Store.Database.SaveActivity | js/db.js:253-260 | Stamps `completedAt` when missing and then puts the activity. |
| Store.Database.UpdateActivity | js/db.js:282-285 | Puts the record as given. |
| Store.Database.DeleteActivity | js/db.js:287-290 | Removes exactly that key from the activities. |
| Store.Database.Clear | js/db.js:213-216 | Empties one store. |
| Store.Database.ClearAllData | js/db.js:210-217 | The loop over the five store names reaches the cleared-all state. |
| Store.Database.ClearInsanityData | js/db.js:219-229 | Reaches the Insanity-cleared state. |
| Store.Database.ClearStrongliftsData | js/db.js:231-237 | Reaches the StrongLifts-cleared state. |
| StrongliftsCalendar.NextTypeParity | js/screens/stronglifts-calendar.js:10-11 | The next type is "A" iff the number of completed workouts is even. It agrees with home's `getNextWorkoutType` of the stats count. |
| StrongliftsCalendar.RunFromMeaning | js/screens/stronglifts-calendar.js:194-204 | The run continues through every pair at most 7 days apart and stops exactly at the first larger gap. |
| StrongliftsCalendar.GetStreak | js/screens/stronglifts-calendar.js:175-207 | The loop with its early break computes the streak function. |
| StrongliftsCalendar.Streak | js/screens/stronglifts-calendar.js:175-207 | `getStreak`: ceil(run/3) for the run of workouts with gaps of at most 7 days, 0 when the newest is over 7 days old. `RunFromMeaning`, `StreakBounds` and `GetStreak` state it. |
| StrongliftsCalendar.HistoryNewestFirst | js/screens/stronglifts-calendar.js:179-181 | The sorted list holds exactly the completed workouts, newest first. |
| StrongliftsCalendar.StreakBounds | js/screens/stronglifts-calendar.js:175-207 | The streak is 0 iff nothing is completed or the newest completed workout is more than 7 days old. Otherwise it lies between 1 and ceil(completed/3). |
| StrongliftsCalendar.WorkoutsByDate | js/screens/stronglifts-calendar.js:14-17 | The `forEach` fill builds the by-date map. |
| StrongliftsCalendar.ByDateDomain | js/screens/stronglifts-calendar.js:14-17 | A date is in the map iff some workout has it. |
| StrongliftsCalendar.ByDateLast | js/screens/stronglifts-calendar.js:14-17 | The mapped workout is one with that date, and the last one in list order wins. |
| StrongliftsCalendar.GetRecentMonths | js/screens/stronglifts-calendar.js:108-118 | The loop computes the recent-months list. |
| StrongliftsCalendar.RecentMonthsMeaning | js/screens/stronglifts-calendar.js:108-118 | `count` valid months, starting with today's month, each one month before the previous. |
| StrongliftsCalendar.MonthsBackMeaning | js/screens/stronglifts-calendar.js:108-118 | Stepping back i months from a valid month wraps across years correctly. |
| StrongliftsCalendar.RenderMonth | js/screens/stronglifts-calendar.js:120-160 | The grid is `firstDay` blanks followed by exactly one cell per day of the month, in order. |
| StrongliftsCalendar.RenderBlanks | js/screens/stronglifts-calendar.js:130-133 | Exactly n blank cells. |
| StrongliftsCalendar.RenderDays | js/screens/stronglifts-calendar.js:135-160 | One cell per day 1..daysInMonth. |
| StrongliftsCalendar.DayColumn | js/screens/stronglifts-calendar.js:125 | Day d sits in the column of its Sunday-based weekday. |
| StrongliftsCalendar.DayCellMeaning | js/screens/stronglifts-calendar.js:136-149 | A cell is marked completed, with its workout type, iff the workout on that date is completed. |
| StrongliftsCalendar.DayCellKey | js/screens/stronglifts-calendar.js:137 | The cell's key is the day's zero-padded `YYYY-MM-DD`. |
| StrongliftsCalendar.TodayCell | js/screens/stronglifts-calendar.js:139 | For four-digit years, `isToday` holds iff today's ISO date string equals the cell key. |
| InsanityCalendar.LastForDay | js/screens/insanity-calendar.js:19-20 | The last record for a day, if any. |
| InsanityCalendar.CompletedMap | js/screens/insanity-calendar.js:19-20 | The loop builds a map with an entry for a day iff some record has that day, holding the last record's completed flag. |
| InsanityCalendar.StoredCompletedMap | js/screens/insanity-calendar.js:16-20 | Over the stored records, the map holds exactly the stored days with their flags. |
| InsanityCalendar.PastTodayMeaning | js/screens/insanity-calendar.js:129-158 | Without a started programme, neither past nor today holds. Day N is today iff N = today − start + 1, and past iff N is smaller. The two never both hold. |
| InsanityCalendar.DayClassesMeaning | js/screens/insanity-calendar.js:102-113 | "completed", "rest", "fit-test" (only when not completed), "missed" (not completed, not rest, past) and "today" each appear exactly under their rule. A completed or rest day is never missed, and missed and today exclude each other. |
| InsanityCalendar.DayClasses | js/screens/insanity-calendar.js:102-113 | The class list of a day, stated class by class by `DayClassesMeaning`. |
| InsanityCalendar.ShortNameMeaning | js/screens/insanity-calendar.js:161-179 | The table's entry for a known name. Otherwise the name's first four characters. |
| InsanityCalendar.ShortName | js/screens/insanity-calendar.js:161-179 | `getShortName`: the table entry or the first four characters, as `ShortNameMeaning` states. |
| InsanityCalendar.ShortNamesNonEmpty | js/screens/insanity-calendar.js:162-177 | Every table entry has 3 to 5 characters, so the `||` fallback never fires for a known name. |
| InsanityCalendar.ShortNameExamples | js/screens/insanity-calendar.js:174-178 | Two worked values of the table and the fallback. |
| InsanityCalendar.RenderDay | js/screens/insanity-calendar.js:102-126 | The rendered day carries its day number. |
| InsanityCalendar.DayClick | js/screens/insanity-calendar.js:51-66 | A rest day does nothing. A fit-test day navigates to `/fit-test/<day>` with the stores unchanged. Any other day toggles that day's record. |
| InsanityCalendar.StartProgram | js/screens/insanity-calendar.js:72-80 | Saves the programme state started today at day 1 and navigates to `/fit-test/1`. |
| InsanityCalendar.StartedProgramMarks | js/screens/insanity-calendar.js:31-36 | After starting, the start card is gone, day 1 is today and no day is past. |
| InsanityCalendar.ToggleFlipsCompleted | js/screens/insanity-calendar.js:61 | Clicking a day flips whether it is completed. |
| Home.NextFitTest | js/screens/home.js:220-230 | The next checkpoint is always one of 1, 15, 36, 50, 63, or none. |
| Home.NextFitTestMeaning | js/screens/home.js:220-230 | None iff tests 1..5 are all done. Otherwise the day of test k, where k is the lowest missing test number. |
| Home.NextFromMeaning | js/screens/home.js:224-229 | The same, for the search from position i on. |
| Home.WorkoutTypesAlternate | js/screens/home.js:232-234 | "A" for even counts and "B" for odd, alternating with each completed workout. |
| Home.FormatWeightsMeaning | js/screens/home.js:236-243 | Empty iff there are no weights. Otherwise it starts with the first entry's label and ignores entries after the third. When no name holds a comma, splitting the line at ", " gives exactly the `firstWord: weightlb` labels of the first min(3, n) entries, in order. |
| Home.FormatWeights | js/screens/home.js:236-243 | `formatWeights`, as stated by `FormatWeightsMeaning`. |
| Home.RemainingMeaning | js/screens/home.js:66 | Remaining plus done is 63, and remaining is 63 minus the completed days. |
| Home.ActivityLabelMeaning | js/screens/home.js:246 | An unknown type's label is the type itself. Worked labels are given for two known types. |
| Home.ActivityDetailsMeaning | js/screens/home.js:249-255 | Cardio details are empty iff no field is present, and start with the duration when it is present. When there is a piece and the zone holds no U+00C2, splitting the details at the separator gives back exactly the pieces. |
| Home.DetailPartsMeaning | js/screens/home.js:251-254 | The pieces are exactly the present fields in the order duration, distance, zone: one per present field, the duration first, the distance after it, the zone last. |
| Home.DetailParts | js/screens/home.js:251-254 | At most three pieces. The full statement is `DetailPartsMeaning`. |
| Home.ActivityDetails | js/screens/home.js:249-255 | Details only for cardio cards, as `ActivityDetailsMeaning` states. |
| Home.JoinEmptyIff | js/screens/home.js:255 | Joining non-empty parts is empty iff there are none. |
| Home.QuickLogAction | js/screens/home.js:191-204 | Recovery types save a record with the view's date, type and category "recovery". Every other category navigates. |
| Home.QuickLog | js/screens/home.js:185-206 | A recovery type stores the activity stamped with now. A cardio type navigates to the form and leaves the stores unchanged. |
| Router.CurrentPath | js/router.js:14-18 | The path never contains '?'. |
| Router.CurrentPathOfNavigate | js/router.js:10-18 | Reading back a navigated path gives the path, with any query dropped. An empty hash gives "/". |
| Router.NonEmptyParts | js/router.js:22 | The filter keeps only non-empty segments, in order. |
| Router.NonEmptyPartsKeeps | js/router.js:22 | Non-empty segments are all kept. |
| Router.RouteParams | js/router.js:20-24 | Every route parameter is a non-empty segment without '/'. |
| Router.RouteParamsOfPath | js/router.js:20-24 | The parameters of `/s1/.../sn` are exactly s1..sn. |
| Router.CapturesStep | js/router.js:50-53 | Each ':name' segment assigns its path segment to `params[name]`. |
| Router.CapturesMeaning | js/router.js:50-53 | `params[name]` is absent iff no ':name' segment exists. Otherwise it is bound to the segment matching the last such route segment. |
| Router.MatchSegments | js/router.js:46-58 | The loop reports a match iff every literal segment is equal, and then returns the captures. |
| Router.FirstPatternMatchMeaning | js/router.js:41-66 | The parameterised match is the first route in registration order whose pattern matches, with its captures. There is none iff no pattern matches. |
| Router.ResolveMeaning | js/router.js:36-71 | An exact route wins. With no exact and no pattern match the '/' handler is used. Any other handler is the first matching pattern. |
| Router.Resolve | js/router.js:36-71 | The handler and parameters `handleRoute` picks, as `ResolveMeaning` and `FirstPatternMatchMeaning` state. |
| Router.RouteTable.constructor | js/router.js:3-4 | An empty table with no current screen. |
| Router.RouteTable.RegisterRoute | js/router.js:6-8 | Assigns the handler to the path, in place for a known path and appended otherwise. |
| Router.RouteTable.HandleRoute | js/router.js:26-102 | Resolves the current path and records it as the current screen. The table is unchanged. |
| Router.ContainsChar | js/router.js:42 | `includes` of a one-character string is membership. |
| Router.PatternTwo | js/router.js:41-57 | `/lit/:name` matches `/a/b` iff lit = a. |
| Router.SegmentsTwo | js/router.js:46-57 | The same, on split segments. |
| Router.CapturesOne | js/router.js:50-53 | Matching `/lit/:name` against `/a/b` binds exactly name to b. |
| Router.NoColonNoPattern | js/router.js:42 | A route without ':' is never tried as a pattern. |
| Router.NavOfWorkout | js/router.js:104-120 | A path `/workout/<t>`, with no 'i' or 's' in t, highlights the StrongLifts item and no other. |
| Router.NavOfDay | js/router.js:104-120 | A day view `/day/<key>` for a date key highlights the home item and no other. |
| Router.NavOfRoot | js/router.js:104-120 | The root path highlights the home item and no other. |
| Router.NavActive | js/router.js:104-120 | `updateNavState`, as `NavOfRoot`, `NavOfWorkout` and `NavOfDay` state for the app's paths. |
| MonthCalendar.MonthTitle | js/screens/calendar.js:189-193 | Splitting the title at its space gives exactly the upper-case month name and the printed year, and the year reads back with `parseInt`. |
| MonthCalendar.MonthTitleInjective | js/screens/calendar.js:189-193 | Different months have different titles. |
| MonthCalendar.MonthSteps | js/screens/calendar.js:68-84 | Prev and next move by exactly one month, wrap January↔December across years, and undo each other. |
| MonthCalendar.MonthNavigator.constructor | js/screens/calendar.js:61-62 | The navigator starts at today's month. |
| MonthCalendar.MonthNavigator.Prev | js/screens/calendar.js:68-75 | The displayed month moves back one, with year wrap. |
| MonthCalendar.MonthNavigator.Next | js/screens/calendar.js:77-84 | The displayed month moves forward one, with year wrap. |
| MonthCalendar.StartDayOfWeek | js/screens/calendar.js:109-111 | The Monday-based leading-blank count is in 0..6. |
| MonthCalendar.ColumnOfDay | js/screens/calendar.js:110-125 | The blank count is the first day's Monday-based weekday, and day d sits in its own weekday's column. |
| MonthCalendar.RenderMonth | js/screens/calendar.js:104-148 | The blanks come first, then exactly one cell per day of the month, in order. |
| MonthCalendar.RenderBlanks | js/screens/calendar.js:120-122 | Exactly n empty cells. |
| MonthCalendar.RenderDays | js/screens/calendar.js:125-145 | One cell per day 1..daysInMonth. |
| MonthCalendar.DayCellMarks | js/screens/calendar.js:126-136 | A cell is today iff its date is today, and weekend iff its weekday is Saturday or Sunday. |
| MonthCalendar.MondayWeekend | js/screens/calendar.js:129-130 | getDay() ∈ {0,6} iff the Monday-based weekday is ≥ 5. |
| MonthCalendar.MonthActivities | js/screens/calendar.js:154-159 | The month filter keeps exactly the activities in that month. |
| MonthCalendar.GetMonthActivities | js/screens/calendar.js:150-163 | The loop builds a dictionary whose entry for every date is that date's in-month activities, in original order. |
| MonthCalendar.AddActivity | js/screens/calendar.js:154-160 | One pass of the `forEach`: the index for the activities so far becomes the index for them plus the new one. |
| MonthCalendar.GroupMeaning | js/screens/calendar.js:150-163 | A date has an entry iff some in-month activity has that date, and the entry holds exactly those activities. |
| MonthCalendar.Group | js/screens/calendar.js:150-163 | The activities of one date in the month index, as `GroupMeaning` states. |
| MonthCalendar.DayCellKey | js/screens/calendar.js:126-127 | A cell's key is its date's `YYYY-MM-DD`. |
| MonthCalendar.IndexHasActivity | js/screens/calendar.js:131 | `has-activity` holds iff some in-month activity has the key. |
| MonthCalendar.DayCellActivity | js/screens/calendar.js:131-138 | The cell's activity and Insanity marks follow the two groupings. |
| MonthCalendar.MonthInsanitySnoc | js/screens/calendar.js:174-184 | One more workout adds its date key exactly when it is completed and falls in the month. |
| MonthCalendar.GetMonthInsanity | js/screens/calendar.js:165-187 | The loop computes the month's Insanity day set. |
| MonthCalendar.MonthInsanityMeaning | js/screens/calendar.js:165-187 | Empty without a start date. Otherwise a day of the month is marked iff some completed workout falls on start + day − 1. |
| MonthCalendar.MonthInsanity | js/screens/calendar.js:165-187 | The month's completed programme days, as `MonthInsanityMeaning` states. |
| MonthCalendar.DayClickPath | js/screens/calendar.js:92-93 | A click navigates to `/day/` followed by the cell's date. |
| FitTestScreen.IndexOf | js/screens/fit-test.js:19 | The first index of the value, or −1 iff it is absent. |
| FitTestScreen.TestNumberInverse | js/screens/fit-test.js:18-21 | The test number is in 1..5 iff the day is a fit-test day, which is then `FIT_TEST_DAYS[n−1]`. It is 0 otherwise. |
| FitTestScreen.TestNumber | js/screens/fit-test.js:18-21 | The test number is between 0 and 5. `TestNumberInverse` and `TestNumberOfDay` state which. |
| FitTestScreen.TestNumberOfDay | js/screens/fit-test.js:15-19 | The i-th fit-test day has test number i+1. |
| FitTestScreen.Decrement | js/screens/fit-test.js:76-81 | The result is never negative and at least v−1. It is either 0 or v−1, with non-numeric input read as 0. |
| FitTestScreen.Increment | js/screens/fit-test.js:84-89 | The result is at most 999 and at most v+1. It is either 999 or v+1, with non-numeric input read as 0. |
| FitTestScreen.IncrementWritesBack | js/screens/fit-test.js:84-89 | Written back and re-read, an increment of v is v+1. |
| FitTestScreen.DecrementWritesBack | js/screens/fit-test.js:76-81 | Written back and re-read, a decrement of v is v−1. |
| FitTestScreen.ButtonsUndo | js/screens/fit-test.js:76-89 | Within the clamps the two buttons undo each other. |
| FitTestScreen.BuildFitTest | js/screens/fit-test.js:96-109 | The record has the test number, the day, now, and exactly 8 exercises. |
| FitTestScreen.SavedTestReopens | js/screens/fit-test.js:96-109 | A saved test reopens with each input prefilled with the number that was typed or 0. The exercises keep their fixed order. |
| FitTestScreen.SavedCountIsTyped | js/screens/fit-test.js:100 | A typed count is stored as that count. |
| FitTestScreen.RenderFitTest | js/screens/fit-test.js:17-65 | An invalid day gives the invalid page. A valid one gives a form for its test with 8 prefilled values, marked "update" iff a test is stored. |
| FitTestScreen.SubmitFitTest | js/screens/fit-test.js:93-117 | Stores the test and marks the day completed as "Fit Test". |
| FitTestProgress.SortedTests | js/screens/fit-test-progress.js:18 | A permutation in ascending test-number order. |
| FitTestProgress.Improvement | js/screens/fit-test-progress.js:64-65 | An improvement exists iff there is a previous value and the current one is larger. It is then positive and the difference. |
| FitTestProgress.MoveRow | js/screens/fit-test-progress.js:59-75 | One cell per test. |
| FitTestProgress.TotalsRow | js/screens/fit-test-progress.js:78-91 | One total per test. |
| FitTestProgress.RenderProgress | js/screens/fit-test-progress.js:20-39 | No tests gives the empty-state page, and only then. |
| FitTestProgress.PageShape | js/screens/fit-test-progress.js:16-107 | Sorted tests, 8 rows of one cell per test, one total per test, and a summary iff there are at least two tests. |
| FitTestProgress.BadgeMeaning | js/screens/fit-test-progress.js:62-65 | A cell shows the reps, with missing reps as 0, and a positive "+d" iff they beat the previous test's. |
| FitTestProgress.TotalIsSumOfReps | js/screens/fit-test-progress.js:79 | The total is the sum of the reps. |
| FitTestProgress.Total | js/screens/fit-test-progress.js:79 | The reduce sum of the reps, as `TotalIsSumOfReps` and `TotalCountsEachRep` state. |
| FitTestProgress.TotalCountsEachRep | js/screens/fit-test-progress.js:79 | One more rep anywhere adds one to the total. |
| FitTestProgress.PercentIsNearest | js/screens/fit-test-progress.js:116 | The integer percentage is the nearest integer to 100·improvement/first, rounding half up as `Math.round` does. |
| FitTestProgress.Percent | js/screens/fit-test-progress.js:116 | The rounded percentage, as `PercentIsNearest` states. |
| FitTestProgress.SummaryMeaning | js/screens/fit-test-progress.js:109-116 | The improvement is last − first. The percentage is 0 without a positive first total, and is non-negative when there is no regression. |
| LogActivity.LookupConfig | js/screens/log-activity.js:15-24 | A config exists iff the type is one of the seven known types. |
| LogActivity.ConfigTable | js/screens/log-activity.js:4-12 | Distance only for walk, hike and ruck. Recovery is exactly sauna and ice bath. |
| LogActivity.EditId | js/screens/log-activity.js:16 | An edit id is never 0, since 0 is falsy. |
| LogActivity.EditIdOfLink | js/screens/log-activity.js:16 | The id of an edit link is read back, and a link without an id gives none. |
| LogActivity.PairName | js/screens/log-activity.js:35-36 | A query pair's name is its prefix. |
| LogActivity.FirstParam | js/screens/log-activity.js:35-36 | A parameter is found iff some non-empty pair has that name. |
| LogActivity.FirstParamIsEarliest | js/screens/log-activity.js:35-36 | `get` returns the value of the first pair with that name. |
| LogActivity.DateOfLogLink | js/screens/log-activity.js:35-36 | The `?date=` written by the home screen is read back by the form. |
| LogActivity.ActivityDatePrecedence | js/screens/log-activity.js:37 | The existing record's date, else a non-empty `date` parameter, else today. |
| LogActivity.ActivityDate | js/screens/log-activity.js:37 | One of the existing date, the query date and today's key, and never empty when today's key is not. `ActivityDatePrecedence` gives the order. |
| LogActivity.InitialForm | js/screens/log-activity.js:56-97 | A new form has duration 30, zone "zone2" and empty notes. A zone is always selected. |
| LogActivity.ActiveZone | js/screens/log-activity.js:76-89 | The highlighted zone button is the form's zone. |
| LogActivity.StepDurationClamps | js/screens/log-activity.js:131 | The duration buttons give v+delta clamped to [1, 300]. An unparsable value stays unparsable. |
| LogActivity.StepDuration | js/screens/log-activity.js:131 | A parsed duration stays within 1..300. `StepDurationClamps` gives the value. |
| LogActivity.StepDurationUndo | js/screens/log-activity.js:131 | −5 then +5 restores an in-range value. |
| LogActivity.BuildActivity | js/screens/log-activity.js:149-165 | The submit handler's field-by-field construction gives the record. |
| LogActivity.RecordOf | js/screens/log-activity.js:149-165 | The record the form submits, as `BuildActivity` and `RecordShape` state. |
| LogActivity.RecordShape | js/screens/log-activity.js:149-165 | Date, type and the config's category always. Cardio adds the zone and trimmed notes, and distance only when that input is non-empty. Recovery adds nothing. |
| LogActivity.EditedRecord | js/screens/log-activity.js:167-169 | An edit keeps the id and the original `completedAt`. Every other field is the form's. |
| LogActivity.EditUnchangedRoundTrip | js/screens/log-activity.js:37-169 | Opening a cardio record for editing and submitting unchanged stores the same record. |
| LogActivity.RenderMeaning | js/screens/log-activity.js:14-122 | An unknown type gives the error screen. Otherwise the form shows the config's label and a delete button iff editing, the back path is the day of the activity, and the existing record's date is used. |
| LogActivity.Submit | js/screens/log-activity.js:146-176 | An edit puts the edited record and a new entry is saved stamped with now. Both navigate to the day. |
| LogActivity.EditReplacesOnlyItself | js/screens/log-activity.js:167-170 | An edit changes only its own id's record, keeping its id and `completedAt`. |
| LogActivity.SaveAddsFreshRecord | js/screens/log-activity.js:171-172 | A new entry gets a new key, is stamped with now, and keeps the store well keyed. |
| LogActivity.Delete | js/screens/log-activity.js:181-186 | Confirmed deletes remove exactly that record and return to the day. An unconfirmed delete changes nothing. |
| Dates.DaysInMonth | js/screens/calendar.js:106-107 | Between 28 and 31. |
| Dates.Civil | js/screens/calendar.js:5-8 | The civil date of a day ordinal is valid and maps back to it. |
| Dates.CivilOfOrdinal | js/screens/calendar.js:105-107 | Civil and ordinal are inverse on valid dates. |
| Dates.NormalizeMonth | js/screens/stronglifts-calendar.js:114 | `new Date(y, m, 1)` for any month offset is the valid month with the same month count. |
| Dates.InMonthIff | js/screens/calendar.js:156 | A day is in a month iff its civil year and month are that month. |
| Dates.ParseDateKeyOfDateKey | js/screens/calendar.js:155 | Parsing a date key gives back its date. |
| Dates.KeyInjective | js/screens/calendar.js:195-197 | Distinct days have distinct date keys (four-digit years). |
| Dates.DateKeyOfOrdinal | js/screens/calendar.js:195-197 | A day's key is its zero-padded year, month and day. |
| Strings.ParseIntOfIntToString | js/screens/fit-test.js:79-88 | `parseInt` reads back a printed integer. |
| Strings.ParseInt | js/screens/fit-test.js:79 | `parseInt` without a radix, as `ParseIntOfIntToString` states for printed integers. |
| Strings.Trim | js/screens/log-activity.js:164 | The trimmed text is the middle of the input with only white space removed at both ends. White space is ECMAScript's: the space separators, tab, vertical tab, form feed, the byte-order mark and the line terminators. |
| Strings.JoinSplit | js/router.js:43-44 | Joining the split pieces gives back the string. |
| Strings.SplitJoin | js/router.js:43-44 | Splitting a join of separator-free pieces gives back the pieces. |
| Strings.Split | js/router.js:22 | `split` on one character: at least one piece, none holding the separator. |
| Strings.Join | js/screens/home.js:242 | `join`, as `JoinSplit` and `SplitOnJoin` state. |
| Strings.SplitOnJoin | js/screens/home.js:242 | Splitting a join at a longer separator gives back the pieces when the separator cannot match inside them. |
| Strings.FirstWord | js/screens/home.js:241 | `split(' ')[0]` is the prefix up to the first space. |
| Strings.UpperAscii | js/screens/workout.js:17 | Upper-cases ASCII letters and keeps every other character. |
| Strings.Prefix | js/screens/insanity-calendar.js:178 | `substring(0, 4)`: the first min(4, length) characters. |
| Dicts.GetSet | js/router.js:7 | After an assignment the key reads the new value and every other key is unchanged. |
| Dicts.SetKeys | js/router.js:7 | An assignment keeps keys distinct, replacing a known key in place and appending a new one. |
| Dicts.GetNone | js/router.js:37 | A lookup fails iff no entry has the key. |
| Sorting.SortBy | js/screens/fit-test-progress.js:18 | A sorted permutation. |
| Sorting.SortByStable | js/screens/stronglifts-calendar.js:179-181 | Elements with equal keys keep their relative order. |

## Left out

- The IndexedDB driver (`initDB`, `getStore`, `promisifyRequest`) and the asynchronous transactions are left out. Each store is a map, and store creation is only the empty stores.
- Index lookups are not modelled as a separate structure. `getStrongliftsWorkoutByDate` is the first workout in key order with that date.
- `getTodaysActivities` and `getTodayDateString` are `GetActivitiesByDate` and `Dates.Key` applied to the `today` parameter, not separate members.
- `exportData` is only serialisation of the stores. settings.js is a user interface over these operations.
- All DOM work, HTML templates, icons, event wiring, modals, `confirm` and the re-render after a save are left out. The confirmation answer is a parameter of `LogActivity.Delete`.
- The app.js bootstrapping and its literal route table are left out. Resolution is proved for any table, and for route shapes such as `/workout/:type`.
- Fetching and caching the Insanity schedule is left out. The schedule is an input.
- Time zones, locale formatting and millisecond date arithmetic are left out. Dates are day ordinals in one zone, and `today` and `now` are parameters.
- The "Today", "Past" and "Upcoming" labels of the home screen are left out, as locale formatting.
- Floating point is left out. The home screen's percentage is not modelled, and the progress percentage is an integer nearest value.
- Activity distance is parsed as an integer instead of by `parseFloat`.
- `URLSearchParams` percent-decoding and `+` decoding are left out. A query value is taken verbatim.
- Object keys inherited from the prototype are not modelled: `routes[path]` sees only registered paths.
- The detail separator is the two characters `Â·` found in js/screens/home.js:255, taken as they stand.
- Dates.KeyInjective: holds only for years 1000–9999, because `toISOString`'s six-digit year form is not modelled.
- StrongliftsCalendar.TodayCell: `isToday` compares day ordinals. It agrees with the code's ISO-string comparison only for four-digit years.
- MonthCalendar.MonthInsanityMeaning: stated for four-digit years for the same reason.
- Strings.UpperAscii: upper-cases ASCII letters only. `toUpperCase` also maps other letters (é to É, ß to SS), which the model keeps as they are.
- InsanityCalendar.RenderDay: its own contract only fixes the day number. Its classes are stated by `DayClassesMeaning` and its short name by `ShortNameMeaning`.
- The Insanity short-name table is a map. Its text order plays no part in the lookup.

## Findings

| source | as written | input that shows it | evidently intended | confidence | as-written member | corrected member |
|---|---|---|---|---|---|---|
| js/screens/workout.js:254 | An exercise's weight is overwritten while it still equals its default, so a newest entry whose candidate equals the default is overwritten by an older workout. | Two completed Squat sessions, 100 lb (older) and 40 lb (newer), all sets at 5 reps: the candidate 45 equals the Squat default, and the older session then sets 105. | The next weight comes from the newest completed session per exercise: 45. | not executed | Workout.CurrentWeights, Workout.GetCurrentWeights, Workout.StartWorkout, Workout.SentinelCounterexample | Workout.LatestWeights, Workout.GetLatestWeights, Workout.StartWorkoutCorrected, Workout.LatestOfMeaning |
