/**
 * The record store of js/db.js. Each IndexedDB object store is a map from
 * its key path to the record; the two auto-increment stores carry their key
 * generator. `getAll` returns the records in ascending key order, as
 * IndexedDB does. The getters are functions of a snapshot of the stores;
 * the operations that write are methods of `Database`.
 */
module Store {
  import opened Wrappers
  import opened Records
  import opened Sorting
  import opened Dicts

  /** The fixed number of Insanity days `getInsanityProgress` reports. */
  const INSANITY_TOTAL := 63

  datatype StoreName =
    | InsanityWorkouts | FitTests | StrongliftsWorkouts | Settings | ProgramStates | Activities

  /** The stores `clearAllData` empties, in its order; `settings` is not among them. */
  const CLEARED_BY_CLEAR_ALL: seq<StoreName> :=
    [InsanityWorkouts, FitTests, StrongliftsWorkouts, ProgramStates, Activities]

  /** The contents of every object store, and the two key generators. */
  datatype Stores = Stores(
    insanityWorkouts: map<int, InsanityWorkout>,
    fitTests: map<int, FitTest>,
    strongliftsWorkouts: map<int, LiftWorkout>,
    settings: map<string, string>,
    programState: map<string, ProgramState>,
    activities: map<int, Activity>,
    nextLiftId: int,
    nextActivityId: int)

  /** Every record sits under its own key, and the key generators are past every key. */
  predicate WellKeyed(st: Stores) {
    && (forall d :: d in st.insanityWorkouts ==> st.insanityWorkouts[d].day == d)
    && (forall n :: n in st.fitTests ==> st.fitTests[n].testNumber == n)
    && (forall p :: p in st.programState ==> st.programState[p].program == p)
    && (forall id :: id in st.strongliftsWorkouts ==>
          st.strongliftsWorkouts[id].id == Some(id) && id < st.nextLiftId)
    && (forall id :: id in st.activities ==>
          st.activities[id].id == Some(id) && id < st.nextActivityId)
  }

  const EMPTY_STORES := Stores(map[], map[], map[], map[], map[], map[], 1, 1)

  // ------------------------------------------------------------ key order

  function MinOf(s: set<int>): (m: int)
    requires s != {}
    ensures m in s && forall k :: k in s ==> m <= k
  {
    MinExists(s);
    var m :| m in s && forall k :: k in s ==> m <= k;
    m
  }

  lemma HasMember(s: set<int>)
    ensures s == {} || exists x :: x in s
  {
    if forall x :: x !in s {
      assert s == {};
    }
  }

  lemma MinExists(s: set<int>)
    requires s != {}
    ensures exists m :: m in s && forall k :: k in s ==> m <= k
  {
    HasMember(s);
    var x :| x in s;
    if s != {x} {
      HasMember(s - {x});
      MinExists(s - {x});
      var m :| m in s - {x} && forall k :: k in s - {x} ==> m <= k;
      var least := if x < m then x else m;
      forall k | k in s
        ensures least <= k
      {
        if k != x {
          assert k in s - {x};
        }
      }
    } else {
      forall k | k in s
        ensures x <= k
      {
      }
    }
  }

  /** The keys of a store in ascending order. */
  function SortedKeys(s: set<int>): (r: seq<int>)
    ensures |r| == |s|
    ensures forall k :: k in r <==> k in s
    ensures forall i, j :: 0 <= i < j < |r| ==> r[i] < r[j]
    decreases s
  {
    if s == {} then []
    else
      var k := MinOf(s);
      var rest := SortedKeys(s - {k});
      PrependLeast(k, s, rest);
      [k] + rest
  }

  /** The least key followed by the others in ascending order lists them all in ascending order. */
  lemma PrependLeast(k: int, s: set<int>, rest: seq<int>)
    requires k in s && forall x :: x in s ==> k <= x
    requires |rest| == |s - {k}| && forall x :: x in rest <==> x in s - {k}
    requires forall i, j :: 0 <= i < j < |rest| ==> rest[i] < rest[j]
    ensures |[k] + rest| == |s|
    ensures forall x :: x in [k] + rest <==> x in s
    ensures forall i, j :: 0 <= i < j < |[k] + rest| ==> ([k] + rest)[i] < ([k] + rest)[j]
  {
    var r := [k] + rest;
    forall i, j | 0 <= i < j < |r|
      ensures r[i] < r[j]
    {
      assert r[j] == rest[j - 1];
      if i > 0 {
        assert r[i] == rest[i - 1];
      } else {
        assert rest[j - 1] in rest;
      }
    }
  }

  /** `store.getAll()`: the records in ascending key order. */
  function ValuesByKey<T>(m: map<int, T>): (r: seq<T>)
    ensures |r| == |m|
    decreases m.Keys
  {
    if m.Keys == {} then []
    else
      var k := MinOf(m.Keys);
      assert (m - {k}).Keys == m.Keys - {k};
      [m[k]] + ValuesByKey(m - {k})
  }

  /** The i-th record of `getAll` is the record under the i-th smallest key. */
  lemma {:induction false} ValuesByKeyIndex<T>(m: map<int, T>)
    ensures forall i :: 0 <= i < |m| ==> SortedKeys(m.Keys)[i] in m && ValuesByKey(m)[i] == m[SortedKeys(m.Keys)[i]]
    decreases m.Keys
  {
    if m.Keys != {} {
      var k := MinOf(m.Keys);
      var m' := m - {k};
      assert m'.Keys == m.Keys - {k};
      ValuesByKeyIndex(m');
      var ks := SortedKeys(m.Keys);
      var r := ValuesByKey(m);
      assert ks == [k] + SortedKeys(m'.Keys);
      assert r == [m[k]] + ValuesByKey(m');
      forall i | 0 < i < |m|
        ensures ks[i] in m && r[i] == m[ks[i]]
      {
        assert ks[i] == SortedKeys(m'.Keys)[i - 1];
        assert r[i] == ValuesByKey(m')[i - 1];
      }
    }
  }

  lemma ValuesByKeyMembers<T>(m: map<int, T>, k: int)
    requires k in m
    ensures m[k] in ValuesByKey(m)
  {
    var ks := SortedKeys(m.Keys);
    var i :| 0 <= i < |ks| && ks[i] == k;
    ValuesByKeyIndex(m);
    assert ValuesByKey(m)[i] == m[k];
  }

  lemma ValuesByKeyFrom<T>(m: map<int, T>, x: T)
    requires x in ValuesByKey(m)
    ensures exists k :: k in m && m[k] == x
  {
    var i :| 0 <= i < |ValuesByKey(m)| && ValuesByKey(m)[i] == x;
    ValuesByKeyIndex(m);
    assert m[SortedKeys(m.Keys)[i]] == x;
  }

  function CountWhere<T>(s: seq<T>, p: T -> bool): (n: nat)
    ensures n <= |s|
  {
    if |s| == 0 then 0 else (if p(s[0]) then 1 else 0) + CountWhere(s[1..], p)
  }

  function KeysWhere<T>(m: map<int, T>, p: T -> bool): set<int> {
    set k | k in m && p(m[k])
  }

  /** Counting the records of `getAll` that satisfy `p` counts the keys whose record does. */
  lemma {:induction false} CountValuesByKey<T>(m: map<int, T>, p: T -> bool)
    ensures CountWhere(ValuesByKey(m), p) == |KeysWhere(m, p)|
    decreases m.Keys
  {
    if m.Keys != {} {
      var k := MinOf(m.Keys);
      var m' := m - {k};
      assert m'.Keys == m.Keys - {k};
      CountValuesByKey(m', p);
      var r := ValuesByKey(m);
      assert r == [m[k]] + ValuesByKey(m');
      assert r[1..] == ValuesByKey(m');
      KeysWhereStep(m, k, p);
    } else {
      assert KeysWhere(m, p) == {};
    }
  }

  lemma KeysWhereStep<T>(m: map<int, T>, k: int, p: T -> bool)
    requires k in m
    ensures |KeysWhere(m, p)| == |KeysWhere(m - {k}, p)| + (if p(m[k]) then 1 else 0)
  {
    var m' := m - {k};
    if p(m[k]) {
      assert KeysWhere(m, p) == KeysWhere(m', p) + {k};
    } else {
      assert KeysWhere(m, p) == KeysWhere(m', p);
    }
  }

  // ------------------------------------------------------- insanity workouts

  function GetInsanityWorkout(st: Stores, day: int): Option<InsanityWorkout> {
    if day in st.insanityWorkouts then Some(st.insanityWorkouts[day]) else None
  }

  function AllInsanityWorkouts(st: Stores): seq<InsanityWorkout> {
    ValuesByKey(st.insanityWorkouts)
  }

  predicate IsCompletedDay(w: InsanityWorkout) {
    w.completed
  }

  /** The days whose stored record is completed. */
  function CompletedDays(m: map<int, InsanityWorkout>): set<int> {
    KeysWhere(m, IsCompletedDay)
  }

  /** The record `toggleInsanityWorkout` stores for `day`, given what is stored there. */
  function ToggledRecord(existing: Option<InsanityWorkout>, day: int, workoutName: string, now: int): (r: InsanityWorkout)
    ensures r.day == day && r.workoutName == workoutName
    ensures r.completed <==> !(existing.Some? && existing.value.completed)
    ensures r.completedAt == if r.completed then Some(now) else None
  {
    InsanityWorkout(
      day, workoutName,
      if existing.Some? then !existing.value.completed else true,
      if existing.Some? && existing.value.completed then None else Some(now))
  }

  /** The record `markInsanityWorkoutComplete` stores, whatever was there. */
  function CompletedRecord(day: int, workoutName: string, now: int): InsanityWorkout {
    InsanityWorkout(day, workoutName, true, Some(now))
  }

  datatype Progress = Progress(completed: nat, total: int)

  /** `getInsanityProgress`: how many days are completed, out of a fixed 63. */
  function InsanityProgress(st: Stores): (r: Progress)
    ensures r.total == INSANITY_TOTAL
    ensures r.completed == |CompletedDays(st.insanityWorkouts)|
  {
    CountValuesByKey(st.insanityWorkouts, IsCompletedDay);
    Progress(CountWhere(AllInsanityWorkouts(st), IsCompletedDay), INSANITY_TOTAL)
  }

  lemma CompletedDaysAfterPut(m: map<int, InsanityWorkout>, w: InsanityWorkout)
    ensures CompletedDays(m[w.day := w])
         == (CompletedDays(m) - {w.day}) + (if w.completed then {w.day} else {})
  {
  }

  /** Toggling a day moves the completed count by exactly one, in the direction of the new state. */
  lemma ToggleChangesProgressByOne(st: Stores, day: int, workoutName: string, now: int)
    ensures var w := ToggledRecord(GetInsanityWorkout(st, day), day, workoutName, now);
      var after := st.(insanityWorkouts := st.insanityWorkouts[day := w]);
      InsanityProgress(after).completed
        == InsanityProgress(st).completed + (if w.completed then 1 else -1)
  {
    var m := st.insanityWorkouts;
    var w := ToggledRecord(GetInsanityWorkout(st, day), day, workoutName, now);
    CompletedDaysAfterPut(m, w);
    if w.completed {
      assert day !in CompletedDays(m);
    } else {
      assert day in CompletedDays(m);
      assert CompletedDays(m) == (CompletedDays(m) - {day}) + {day};
    }
  }

  /** Toggling a day twice restores whether it is completed. */
  lemma ToggleTwice(existing: Option<InsanityWorkout>, day: int, name: string, now1: int, now2: int)
    ensures ToggledRecord(Some(ToggledRecord(existing, day, name, now1)), day, name, now2).completed
        == (existing.Some? && existing.value.completed)
  {
  }

  // --------------------------------------------------------------- fit tests

  function GetFitTest(st: Stores, testNumber: int): Option<FitTest> {
    if testNumber in st.fitTests then Some(st.fitTests[testNumber]) else None
  }

  function AllFitTests(st: Stores): seq<FitTest> {
    ValuesByKey(st.fitTests)
  }

  // ---------------------------------------------------- StrongLifts workouts

  function AllStrongliftsWorkouts(st: Stores): seq<LiftWorkout> {
    ValuesByKey(st.strongliftsWorkouts)
  }

  function NegDate(w: LiftWorkout): int {
    -w.date
  }

  /** `workouts.sort((a, b) => new Date(b.date) - new Date(a.date))`: newest first, ties in list order. */
  function ByDateDesc(ws: seq<LiftWorkout>): (r: seq<LiftWorkout>)
    ensures multiset(r) == multiset(ws) && |r| == |ws|
    ensures forall i, j :: 0 <= i < j < |r| ==> r[i].date >= r[j].date
  {
    var r := SortBy(ws, NegDate);
    assert forall i, j :: 0 <= i < j < |r| ==> NegDate(r[i]) <= NegDate(r[j]);
    r
  }

  /** `getLastStrongliftsWorkout`. */
  function GetLastStrongliftsWorkout(st: Stores): Option<LiftWorkout> {
    var ws := AllStrongliftsWorkouts(st);
    if |ws| == 0 then None else Some(ByDateDesc(ws)[0])
  }

  /** The position of the first of `ws` whose date is `date`, or `|ws|` when there is none. */
  function FirstIndexWithDate(ws: seq<LiftWorkout>, date: int): (i: nat)
    ensures i <= |ws|
    ensures forall j :: 0 <= j < i ==> ws[j].date != date
    ensures i < |ws| ==> ws[i].date == date
  {
    if |ws| == 0 then 0
    else if ws[0].date == date then 0
    else 1 + FirstIndexWithDate(ws[1..], date)
  }

  /** The first of `ws` whose date is `date` (`Array.prototype.find`). */
  function FirstWithDate(ws: seq<LiftWorkout>, date: int): (r: Option<LiftWorkout>)
    ensures r.None? <==> forall i :: 0 <= i < |ws| ==> ws[i].date != date
  {
    var i := FirstIndexWithDate(ws, date);
    if i < |ws| then Some(ws[i]) else None
  }

  /** `getStrongliftsWorkoutByDate`: the first stored workout on that date. */
  function GetStrongliftsWorkoutByDate(st: Stores, date: int): Option<LiftWorkout> {
    FirstWithDate(AllStrongliftsWorkouts(st), date)
  }

  /** `currentWeights[ex.name] = ex.weight` for each exercise in turn. */
  function WeightEntries(exercises: seq<Exercise>): (r: Dict<int>)
    ensures DistinctKeys(r)
  {
    if |exercises| == 0 then []
    else
      var prefix := exercises[..|exercises| - 1];
      var ex := exercises[|exercises| - 1];
      SetKeys(WeightEntries(prefix), ex.name, ex.weight);
      Set(WeightEntries(prefix), ex.name, ex.weight)
  }

  lemma WeightEntriesStep(exercises: seq<Exercise>, name: string)
    requires |exercises| > 0
    ensures Get(WeightEntries(exercises), name)
         == if exercises[|exercises| - 1].name == name then Some(exercises[|exercises| - 1].weight)
            else Get(WeightEntries(exercises[..|exercises| - 1]), name)
  {
    var ex := exercises[|exercises| - 1];
    GetSet(WeightEntries(exercises[..|exercises| - 1]), ex.name, ex.weight, name);
  }

  /** Each name's entry is the weight of its last exercise in the list. */
  lemma WeightEntriesGet(exercises: seq<Exercise>, name: string)
    ensures Get(WeightEntries(exercises), name).None? <==> forall i :: 0 <= i < |exercises| ==> exercises[i].name != name
    ensures Get(WeightEntries(exercises), name).Some? ==>
      exists i :: 0 <= i < |exercises| && exercises[i].name == name
        && Get(WeightEntries(exercises), name).value == exercises[i].weight
        && forall j :: i < j < |exercises| ==> exercises[j].name != name
  {
    WeightEntriesAbsent(exercises, name);
    WeightEntriesLast(exercises, name);
  }

  lemma {:induction false} WeightEntriesAbsent(exercises: seq<Exercise>, name: string)
    ensures Get(WeightEntries(exercises), name).None? <==> forall i :: 0 <= i < |exercises| ==> exercises[i].name != name
  {
    if |exercises| > 0 {
      var prefix := exercises[..|exercises| - 1];
      WeightEntriesAbsent(prefix, name);
      WeightEntriesStep(exercises, name);
      assert forall i :: 0 <= i < |prefix| ==> exercises[i] == prefix[i];
    }
  }

  lemma {:induction false} WeightEntriesLast(exercises: seq<Exercise>, name: string)
    ensures Get(WeightEntries(exercises), name).Some? ==>
      exists i :: 0 <= i < |exercises| && exercises[i].name == name
        && Get(WeightEntries(exercises), name).value == exercises[i].weight
        && forall j :: i < j < |exercises| ==> exercises[j].name != name
  {
    if |exercises| > 0 {
      var prefix := exercises[..|exercises| - 1];
      var last := |exercises| - 1;
      WeightEntriesStep(exercises, name);
      var v := Get(WeightEntries(exercises), name);
      if exercises[last].name != name && v.Some? {
        WeightEntriesLast(prefix, name);
        assert v == Get(WeightEntries(prefix), name);
        var i :| 0 <= i < |prefix| && prefix[i].name == name && v.value == prefix[i].weight
          && forall j :: i < j < |prefix| ==> prefix[j].name != name;
        assert exercises[i] == prefix[i];
        assert forall j :: i < j < |exercises| ==> exercises[j].name != name by {
          assert forall j :: i < j < |prefix| ==> exercises[j] == prefix[j];
        }
      }
    }
  }

  datatype LiftStats = LiftStats(completed: nat, currentWeights: Dict<int>)

  predicate IsCompletedLift(w: LiftWorkout) {
    w.completed
  }

  /**
   * `getStrongliftsStats`: the number of completed workouts, and the
   * weights of the latest-dated workout whether or not it was completed.
   */
  function StrongliftsStats(st: Stores): (r: LiftStats)
    ensures r.completed == |KeysWhere(st.strongliftsWorkouts, IsCompletedLift)|
    ensures |st.strongliftsWorkouts| == 0 ==> r.currentWeights == []
    ensures |st.strongliftsWorkouts| > 0 ==>
      r.currentWeights == WeightEntries(GetLastStrongliftsWorkout(st).value.exercises)
  {
    CountValuesByKey(st.strongliftsWorkouts, IsCompletedLift);
    var ws := AllStrongliftsWorkouts(st);
    var completed := CountWhere(ws, IsCompletedLift);
    if |ws| == 0 then LiftStats(completed, [])
    else LiftStats(completed, WeightEntries(ByDateDesc(ws)[0].exercises))
  }

  /** The workout `getLastStrongliftsWorkout` returns is a stored workout with the latest date. */
  lemma LastWorkoutIsLatest(st: Stores)
    requires WellKeyed(st)
    requires |st.strongliftsWorkouts| > 0
    ensures var w := GetLastStrongliftsWorkout(st).value;
      && w.id.Some? && w.id.value in st.strongliftsWorkouts && st.strongliftsWorkouts[w.id.value] == w
      && (forall id :: id in st.strongliftsWorkouts ==> st.strongliftsWorkouts[id].date <= w.date)
  {
    var ws := AllStrongliftsWorkouts(st);
    var m := st.strongliftsWorkouts;
    SortByHead(ws, NegDate);
    var w := SortBy(ws, NegDate)[0];
    ValuesByKeyFrom(m, w);
    forall id | id in m
      ensures m[id].date <= w.date
    {
      ValuesByKeyMembers(m, id);
      assert NegDate(w) <= NegDate(m[id]);
    }
  }

  /** Among stored workouts sharing the latest date, `getLastStrongliftsWorkout` returns the one with the smallest id. */
  lemma LastWorkoutIsFirstStored(st: Stores, id: int)
    requires WellKeyed(st)
    requires |st.strongliftsWorkouts| > 0
    requires id in st.strongliftsWorkouts
    requires st.strongliftsWorkouts[id].date == GetLastStrongliftsWorkout(st).value.date
    ensures GetLastStrongliftsWorkout(st).value.id.Some?
    ensures GetLastStrongliftsWorkout(st).value.id.value <= id
  {
    var m := st.strongliftsWorkouts;
    var w := SortBy(ValuesByKey(m), NegDate)[0];
    var k0 := SortedHeadKey(m, NegDate, id);
    assert m[k0].id == Some(k0);
  }

  /**
   * The head of the stable sort of `getAll` sits under a key no larger than
   * that of any record with the same sort key.
   */
  lemma SortedHeadKey<T>(m: map<int, T>, key: T -> int, id: int) returns (k0: int)
    requires id in m
    requires key(m[id]) == key(SortBy(ValuesByKey(m), key)[0])
    ensures k0 in m && k0 <= id && m[k0] == SortBy(ValuesByKey(m), key)[0]
  {
    var ws := ValuesByKey(m);
    var ks := SortedKeys(m.Keys);
    var w := SortBy(ws, key)[0];
    SortByHead(ws, key);
    ValuesByKeyIndex(m);
    var i :| 0 <= i < |ks| && ks[i] == id;
    assert ws[i] == m[id];
    FirstOfKeyIsEarliest(ws, key, key(w), i);
    var i0 :| 0 <= i0 <= i && ws[i0] == WithKey(ws, key, key(w))[0];
    k0 := ks[i0];
    SortedKeysOrder(m.Keys, i0, i);
  }

  lemma SortedKeysOrder(s: set<int>, i: int, j: int)
    requires 0 <= i <= j < |s|
    ensures SortedKeys(s)[i] <= SortedKeys(s)[j]
  {
    var ks := SortedKeys(s);
    if i < j {
      assert ks[i] < ks[j];
    }
  }

  /** The first element with key `k` occurs no later than any element with key `k`. */
  lemma {:induction false} FirstOfKeyIsEarliest<T>(s: seq<T>, key: T -> int, k: int, i: int)
    requires 0 <= i < |s| && key(s[i]) == k
    ensures |WithKey(s, key, k)| > 0
    ensures exists i0 :: 0 <= i0 <= i && s[i0] == WithKey(s, key, k)[0]
  {
    if key(s[0]) == k {
      assert s[0] == WithKey(s, key, k)[0];
    } else {
      FirstOfKeyIsEarliest(s[1..], key, k, i - 1);
      var i0 :| 0 <= i0 <= i - 1 && s[1..][i0] == WithKey(s[1..], key, k)[0];
      assert s[i0 + 1] == WithKey(s, key, k)[0];
    }
  }

  // ---------------------------------------------------------------- settings

  /** `getSetting(key)`: the stored value, or undefined. */
  function GetSetting(st: Stores, key: string): Option<string> {
    if key in st.settings then Some(st.settings[key]) else None
  }

  /** `getAllSettings`: one entry per stored setting, agreeing with `getSetting`. */
  function GetAllSettings(st: Stores): (r: map<string, string>)
    ensures forall k :: k in r <==> GetSetting(st, k).Some?
    ensures forall k :: k in r ==> GetSetting(st, k) == Some(r[k])
  {
    map k | k in st.settings :: st.settings[k]
  }

  // ----------------------------------------------------------- program state

  function GetProgramState(st: Stores, program: string): Option<ProgramState> {
    if program in st.programState then Some(st.programState[program]) else None
  }

  // -------------------------------------------------------------- activities

  function GetActivity(st: Stores, id: int): Option<Activity> {
    if id in st.activities then Some(st.activities[id]) else None
  }

  function AllActivities(st: Stores): seq<Activity> {
    ValuesByKey(st.activities)
  }

  /** The activities of `acts` dated `date`, in their order. */
  function FilterByDate(acts: seq<Activity>, date: string): (r: seq<Activity>)
    ensures |r| <= |acts|
    ensures forall a :: a in r <==> a in acts && a.date == date
  {
    if |acts| == 0 then []
    else (if acts[0].date == date then [acts[0]] else []) + FilterByDate(acts[1..], date)
  }

  /** `getActivitiesByDate`: exactly the stored activities on `date`, in store order. */
  function GetActivitiesByDate(st: Stores, date: string): (r: seq<Activity>)
    ensures forall a :: a in r <==> a in AllActivities(st) && a.date == date
  {
    FilterByDate(AllActivities(st), date)
  }

  /** The stored activities on `date` are those of `getAll`, no more and no fewer. */
  lemma ActivitiesByDateComplete(st: Stores, date: string, id: int)
    requires id in st.activities && st.activities[id].date == date
    ensures st.activities[id] in GetActivitiesByDate(st, date)
  {
    ValuesByKeyMembers(st.activities, id);
  }

  /** `saveActivity`'s default: a missing or zero `completedAt` becomes `now`. */
  function StampCompletedAt(a: Activity, now: int): (r: Activity)
    ensures r == a.(completedAt := r.completedAt)
    ensures r.completedAt == if a.completedAt.None? || a.completedAt == Some(0) then Some(now) else a.completedAt
  {
    if a.completedAt.None? || a.completedAt == Some(0) then a.(completedAt := Some(now)) else a
  }

  // ------------------------------------------------- auto-increment put/clear

  /** The key generator after a put with key `id`: past `id`, never moving back. */
  function BumpGenerator(next: int, id: int): (r: int)
    ensures r >= next && r > id
    ensures r == next || r == id + 1
  {
    if id >= next then id + 1 else next
  }

  /** `strongliftsWorkouts.put(w)`: the key used and the stores after it. */
  function PutLift(st: Stores, w: LiftWorkout): (r: (int, Stores))
    ensures w.id.Some? ==> r.0 == w.id.value
    ensures w.id.None? ==> r.0 == st.nextLiftId
    ensures r.1 == st.(strongliftsWorkouts := st.strongliftsWorkouts[r.0 := w.(id := Some(r.0))],
                       nextLiftId := BumpGenerator(st.nextLiftId, r.0))
  {
    var id := if w.id.Some? then w.id.value else st.nextLiftId;
    (id, st.(strongliftsWorkouts := st.strongliftsWorkouts[id := w.(id := Some(id))],
             nextLiftId := BumpGenerator(st.nextLiftId, id)))
  }

  /** `activities.put(a)`: the key used and the stores after it. */
  function PutActivity(st: Stores, a: Activity): (r: (int, Stores))
    ensures a.id.Some? ==> r.0 == a.id.value
    ensures a.id.None? ==> r.0 == st.nextActivityId
    ensures r.1 == st.(activities := st.activities[r.0 := a.(id := Some(r.0))],
                       nextActivityId := BumpGenerator(st.nextActivityId, r.0))
  {
    var id := if a.id.Some? then a.id.value else st.nextActivityId;
    (id, st.(activities := st.activities[id := a.(id := Some(id))],
             nextActivityId := BumpGenerator(st.nextActivityId, id)))
  }

  /** A put keeps every record under its own key and the generators ahead. */
  lemma PutKeepsWellKeyed(st: Stores, w: LiftWorkout, a: Activity)
    requires WellKeyed(st)
    ensures WellKeyed(PutLift(st, w).1)
    ensures WellKeyed(PutActivity(st, a).1)
  {
    PutLiftKeepsWellKeyed(st, w);
    PutActivityKeepsWellKeyed(st, a);
  }

  lemma PutLiftKeepsWellKeyed(st: Stores, w: LiftWorkout)
    requires WellKeyed(st)
    ensures WellKeyed(PutLift(st, w).1)
  {
    var id := PutLift(st, w).0;
    var lifts := PutLift(st, w).1.strongliftsWorkouts;
    var next := PutLift(st, w).1.nextLiftId;
    assert id < next;
    forall k | k in lifts
      ensures lifts[k].id == Some(k) && k < next
    {
      if k != id {
        assert k in st.strongliftsWorkouts;
      }
    }
  }

  lemma PutActivityKeepsWellKeyed(st: Stores, a: Activity)
    requires WellKeyed(st)
    ensures WellKeyed(PutActivity(st, a).1)
  {
    var id := PutActivity(st, a).0;
    var acts := PutActivity(st, a).1.activities;
    var next := PutActivity(st, a).1.nextActivityId;
    assert id < next;
    forall k | k in acts
      ensures acts[k].id == Some(k) && k < next
    {
      if k != id {
        assert k in st.activities;
      }
    }
  }

  /** A put without an id never overwrites: it uses a key not yet in the store. */
  lemma PutWithoutIdIsFresh(st: Stores, w: LiftWorkout, a: Activity)
    requires WellKeyed(st)
    requires w.id.None? && a.id.None?
    ensures PutLift(st, w).0 !in st.strongliftsWorkouts
    ensures |PutLift(st, w).1.strongliftsWorkouts| == |st.strongliftsWorkouts| + 1
    ensures PutActivity(st, a).0 !in st.activities
    ensures |PutActivity(st, a).1.activities| == |st.activities| + 1
  {
  }

  /** `store.clear()` for one store; the key generators are not reset. */
  function ClearStore(st: Stores, name: StoreName): Stores {
    match name
    case InsanityWorkouts => st.(insanityWorkouts := map[])
    case FitTests => st.(fitTests := map[])
    case StrongliftsWorkouts => st.(strongliftsWorkouts := map[])
    case Settings => st.(settings := map[])
    case ProgramStates => st.(programState := map[])
    case Activities => st.(activities := map[])
  }

  /** What `clearAllData` leaves: five stores empty, settings and key generators untouched. */
  function ClearedAll(st: Stores): (r: Stores)
    ensures r.insanityWorkouts == map[] && r.fitTests == map[] && r.strongliftsWorkouts == map[]
    ensures r.programState == map[] && r.activities == map[]
    ensures r.settings == st.settings
    ensures r.nextLiftId == st.nextLiftId && r.nextActivityId == st.nextActivityId
  {
    st.(insanityWorkouts := map[], fitTests := map[], strongliftsWorkouts := map[],
        programState := map[], activities := map[])
  }

  /** Clearing the stores of a list one after the other. */
  function ClearEach(st: Stores, names: seq<StoreName>): Stores
    decreases |names|
  {
    if |names| == 0 then st else ClearEach(ClearStore(st, names[0]), names[1..])
  }

  /** Clearing the five stores of `clearAllData` one by one gives `ClearedAll`. */
  lemma ClearEachIsClearedAll(st: Stores)
    ensures ClearEach(st, CLEARED_BY_CLEAR_ALL) == ClearedAll(st)
  {
    var names := CLEARED_BY_CLEAR_ALL;
    var s1 := ClearStore(st, names[0]);
    var s2 := ClearStore(s1, names[1]);
    var s3 := ClearStore(s2, names[2]);
    var s4 := ClearStore(s3, names[3]);
    var s5 := ClearStore(s4, names[4]);
    assert ClearEach(s5, names[5..]) == s5;
    assert names[4..][1..] == names[5..];
    assert ClearEach(s4, names[4..]) == s5;
    assert names[3..][1..] == names[4..];
    assert ClearEach(s3, names[3..]) == s5;
    assert names[2..][1..] == names[3..];
    assert ClearEach(s2, names[2..]) == s5;
    assert names[1..][1..] == names[2..];
    assert ClearEach(s1, names[1..]) == s5;
  }

  /** `clearInsanityData`: Insanity days and fit tests emptied, only the "insanity" programme state removed. */
  function ClearedInsanity(st: Stores): (r: Stores)
    ensures r.insanityWorkouts == map[] && r.fitTests == map[]
    ensures r.programState.Keys == st.programState.Keys - {"insanity"}
    ensures forall p :: p in r.programState ==> r.programState[p] == st.programState[p]
    ensures r.strongliftsWorkouts == st.strongliftsWorkouts && r.settings == st.settings
    ensures r.activities == st.activities
  {
    st.(insanityWorkouts := map[], fitTests := map[], programState := st.programState - {"insanity"})
  }

  /** `clearStrongliftsData`: workouts emptied, only the "stronglifts" programme state removed. */
  function ClearedStronglifts(st: Stores): (r: Stores)
    ensures r.strongliftsWorkouts == map[]
    ensures r.programState.Keys == st.programState.Keys - {"stronglifts"}
    ensures forall p :: p in r.programState ==> r.programState[p] == st.programState[p]
    ensures r.insanityWorkouts == st.insanityWorkouts && r.fitTests == st.fitTests
    ensures r.settings == st.settings && r.activities == st.activities
  {
    st.(strongliftsWorkouts := map[], programState := st.programState - {"stronglifts"})
  }

  /** The two programme clears touch disjoint stores, so their order does not matter. */
  lemma ProgramClearsCommute(st: Stores)
    ensures ClearedInsanity(ClearedStronglifts(st)) == ClearedStronglifts(ClearedInsanity(st))
  {
    assert ClearedInsanity(ClearedStronglifts(st)).programState
        == ClearedStronglifts(ClearedInsanity(st)).programState;
  }

  /** Both programme clears together leave what `clearAllData` leaves, except activities and other programmes' state. */
  lemma ClearAllCoversProgramClears(st: Stores)
    ensures ClearedAll(ClearedInsanity(ClearedStronglifts(st))) == ClearedAll(st)
  {
  }

  // ------------------------------------------------------------ the database

  class Database {
    var insanityWorkouts: map<int, InsanityWorkout>
    var fitTests: map<int, FitTest>
    var strongliftsWorkouts: map<int, LiftWorkout>
    var settings: map<string, string>
    var programState: map<string, ProgramState>
    var activities: map<int, Activity>
    var nextLiftId: int
    var nextActivityId: int

    function State(): Stores
      reads this
    {
      Stores(insanityWorkouts, fitTests, strongliftsWorkouts, settings, programState, activities,
             nextLiftId, nextActivityId)
    }

    predicate Valid()
      reads this
    {
      WellKeyed(State())
    }

    /** A freshly created database: every store empty, both key generators at 1. */
    constructor()
      ensures Valid() && State() == EMPTY_STORES
    {
      insanityWorkouts, fitTests, strongliftsWorkouts := map[], map[], map[];
      settings, programState, activities := map[], map[], map[];
      nextLiftId, nextActivityId := 1, 1;
    }

    method SaveInsanityWorkout(w: InsanityWorkout)
      requires Valid()
      modifies this
      ensures Valid()
      ensures State() == old(State()).(insanityWorkouts := old(insanityWorkouts)[w.day := w])
    {
      insanityWorkouts := insanityWorkouts[w.day := w];
    }

    /** `toggleInsanityWorkout(day, workoutName)`. */
    method ToggleInsanityWorkout(day: int, workoutName: string, now: int)
      requires Valid()
      modifies this
      ensures Valid()
      ensures State() == old(State()).(insanityWorkouts := old(insanityWorkouts)[day :=
                ToggledRecord(GetInsanityWorkout(old(State()), day), day, workoutName, now)])
    {
      var existing := GetInsanityWorkout(State(), day);
      SaveInsanityWorkout(ToggledRecord(existing, day, workoutName, now));
    }

    /** `markInsanityWorkoutComplete(day, workoutName)`. */
    method MarkInsanityWorkoutComplete(day: int, workoutName: string, now: int)
      requires Valid()
      modifies this
      ensures Valid()
      ensures State() == old(State()).(insanityWorkouts := old(insanityWorkouts)[day := CompletedRecord(day, workoutName, now)])
    {
      SaveInsanityWorkout(CompletedRecord(day, workoutName, now));
    }

    method SaveFitTest(t: FitTest)
      requires Valid()
      modifies this
      ensures Valid()
      ensures State() == old(State()).(fitTests := old(fitTests)[t.testNumber := t])
    {
      fitTests := fitTests[t.testNumber := t];
    }

    /** `saveStrongliftsWorkout(w)`: returns the key the workout is stored under. */
    method SaveStrongliftsWorkout(w: LiftWorkout) returns (id: int)
      requires Valid()
      modifies this
      ensures Valid()
      ensures (id, State()) == PutLift(old(State()), w)
    {
      id := if w.id.Some? then w.id.value else nextLiftId;
      strongliftsWorkouts := strongliftsWorkouts[id := w.(id := Some(id))];
      nextLiftId := BumpGenerator(nextLiftId, id);
    }

    method SaveSetting(key: string, value: string)
      requires Valid()
      modifies this
      ensures Valid()
      ensures State() == old(State()).(settings := old(settings)[key := value])
    {
      settings := settings[key := value];
    }

    method SaveProgramState(s: ProgramState)
      requires Valid()
      modifies this
      ensures Valid()
      ensures State() == old(State()).(programState := old(programState)[s.program := s])
    {
      programState := programState[s.program := s];
    }

    /** `saveActivity(a)`: stamps `completedAt` when it is missing or 0, then puts. */
    method SaveActivity(a: Activity, now: int) returns (id: int)
      requires Valid()
      modifies this
      ensures Valid()
      ensures (id, State()) == PutActivity(old(State()), StampCompletedAt(a, now))
    {
      var stamped := a;
      if a.completedAt.None? || a.completedAt == Some(0) {
        stamped := stamped.(completedAt := Some(now));
      }
      id := PutRawActivity(stamped);
    }

    /** `updateActivity(a)`: puts the record exactly as given. */
    method UpdateActivity(a: Activity) returns (id: int)
      requires Valid()
      modifies this
      ensures Valid()
      ensures (id, State()) == PutActivity(old(State()), a)
    {
      id := PutRawActivity(a);
    }

    method PutRawActivity(a: Activity) returns (id: int)
      requires Valid()
      modifies this
      ensures Valid()
      ensures (id, State()) == PutActivity(old(State()), a)
    {
      id := if a.id.Some? then a.id.value else nextActivityId;
      activities := activities[id := a.(id := Some(id))];
      nextActivityId := BumpGenerator(nextActivityId, id);
    }

    method DeleteActivity(id: int)
      requires Valid()
      modifies this
      ensures Valid()
      ensures State() == old(State()).(activities := old(activities) - {id})
    {
      activities := activities - {id};
    }

    /** `store.clear()` on one object store. */
    method Clear(name: StoreName)
      requires Valid()
      modifies this
      ensures Valid()
      ensures State() == ClearStore(old(State()), name)
    {
      match name
      case InsanityWorkouts => insanityWorkouts := map[];
      case FitTests => fitTests := map[];
      case StrongliftsWorkouts => strongliftsWorkouts := map[];
      case Settings => settings := map[];
      case ProgramStates => programState := map[];
      case Activities => activities := map[];
    }

    /** `clearAllData`: clears each store of the list in turn. */
    method ClearAllData()
      requires Valid()
      modifies this
      ensures Valid()
      ensures State() == ClearedAll(old(State()))
    {
      ClearEachIsClearedAll(State());
      var i := 0;
      while i < |CLEARED_BY_CLEAR_ALL|
        invariant 0 <= i <= |CLEARED_BY_CLEAR_ALL|
        invariant Valid()
        invariant ClearEach(State(), CLEARED_BY_CLEAR_ALL[i..]) == ClearedAll(old(State()))
      {
        assert CLEARED_BY_CLEAR_ALL[i..][1..] == CLEARED_BY_CLEAR_ALL[i + 1..];
        Clear(CLEARED_BY_CLEAR_ALL[i]);
        i := i + 1;
      }
    }

    /** `clearInsanityData`. */
    method ClearInsanityData()
      requires Valid()
      modifies this
      ensures Valid()
      ensures State() == ClearedInsanity(old(State()))
    {
      Clear(InsanityWorkouts);
      Clear(FitTests);
      programState := programState - {"insanity"};
    }

    /** `clearStrongliftsData`. */
    method ClearStrongliftsData()
      requires Valid()
      modifies this
      ensures Valid()
      ensures State() == ClearedStronglifts(old(State()))
    {
      Clear(StrongliftsWorkouts);
      programState := programState - {"stronglifts"};
    }
  }
}
