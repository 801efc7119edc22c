/**
 * The log-activity screen, js/screens/log-activity.js: the activity-type
 * table, the date the record is filed under, the form's initial values and
 * the duration buttons, the record the submit handler builds, and the
 * save, update and delete actions it performs.
 */
module LogActivity {
  import opened Wrappers
  import opened Strings
  import opened Records
  import Dicts
  import Store

  // ------------------------------------------------------ activity types

  /** One entry of `ACTIVITY_CONFIG` (the icon name is left out). */
  datatype Config = Config(displayName: string, category: string, hasDistance: bool)

  const CARDIO := "cardio"
  const RECOVERY := "recovery"

  const ACTIVITY_CONFIG: map<string, Config> := map[
    "walk" := Config("Walk", CARDIO, true),
    "hike" := Config("Hike", CARDIO, true),
    "ruck" := Config("Ruck", CARDIO, true),
    "peloton" := Config("Peloton", CARDIO, false),
    "zone2" := Config("Zone 2", CARDIO, false),
    "sauna" := Config("Sauna", RECOVERY, false),
    "ice_bath" := Config("Ice Bath", RECOVERY, false)]

  /** `ACTIVITY_CONFIG[params.type]`; a missing parameter finds nothing. */
  function LookupConfig(activityType: Option<string>): (r: Option<Config>)
    ensures r.Some? <==> activityType.Some? && activityType.value in ACTIVITY_CONFIG
    ensures r.Some? ==> r.value == ACTIVITY_CONFIG[activityType.value]
  {
    if activityType.Some? && activityType.value in ACTIVITY_CONFIG then Some(ACTIVITY_CONFIG[activityType.value]) else None
  }

  /**
   * Every type is cardio or recovery, only cardio types can carry a
   * distance, and the distance types are exactly walk, hike and ruck.
   */
  lemma ConfigTable(t: string)
    requires t in ACTIVITY_CONFIG
    ensures ACTIVITY_CONFIG[t].category == CARDIO || ACTIVITY_CONFIG[t].category == RECOVERY
    ensures ACTIVITY_CONFIG[t].hasDistance ==> ACTIVITY_CONFIG[t].category == CARDIO
    ensures ACTIVITY_CONFIG[t].hasDistance <==> t == "walk" || t == "hike" || t == "ruck"
    ensures ACTIVITY_CONFIG[t].category == RECOVERY <==> t == "sauna" || t == "ice_bath"
  {
  }

  // ------------------------------------------------------- route inputs

  /**
   * `params.id ? parseInt(params.id) : null`, read as the truthiness tests
   * that follow read it: a missing or empty id, an id that does not parse
   * (NaN) and the id 0 all mean a new record.
   */
  function EditId(params: Dicts.Dict<string>): (r: Option<int>)
    ensures r.Some? ==> r.value != 0
  {
    match Dicts.Get(params, "id")
    case None => None
    case Some(s) =>
      if s == "" then None
      else match ParseInt(s)
        case None => None
        case Some(n) => if n == 0 then None else Some(n)
  }

  /** The id the day view puts in an edit link reads back as that id. */
  lemma EditIdOfLink(activityType: string, id: int)
    requires id != 0
    ensures EditId([("type", activityType), ("id", IntToString(id))]) == Some(id)
    ensures EditId([("type", activityType)]) == None
  {
    ParseIntOfIntToString(id);
    assert "type"[0] != "id"[0];
    var params: Dicts.Dict<string> := [("type", activityType), ("id", IntToString(id))];
    assert Dicts.Get(params, "id") == Dicts.Get(params[1..], "id");
    assert Dicts.Get(params, "id") == Some(IntToString(id));
    assert IntToString(id) != "" by {
      assert ParseInt("") == None;
    }
    var bare: Dicts.Dict<string> := [("type", activityType)];
    assert Dicts.Get(bare, "id") == Dicts.Get(bare[1..], "id") == None;
  }

  /** `hash.split('?')[1] || ''`. */
  function QueryString(hash: string): string {
    var parts := Split(hash, '?');
    if |parts| > 1 then parts[1] else ""
  }

  /** The name of a `name=value` pair: everything before the first '='. */
  function PairName(pair: string): (name: string)
    ensures StartsWith(pair, name)
  {
    FirstPiece(pair, '=');
    Split(pair, '=')[0]
  }

  /** The value of a pair: everything after the first '=', or "" without one. */
  function PairValue(pair: string): string {
    var n := |PairName(pair)|;
    if n < |pair| then pair[n + 1..] else ""
  }

  /** `URLSearchParams.get(name)` over the '&'-separated pairs: the value of the first pair so named. */
  function FirstParam(pairs: seq<string>, name: string): (r: Option<string>)
    ensures r.Some? <==> exists i :: 0 <= i < |pairs| && pairs[i] != "" && PairName(pairs[i]) == name
  {
    if |pairs| == 0 then None
    else if pairs[0] != "" && PairName(pairs[0]) == name then Some(PairValue(pairs[0]))
    else
      var r := FirstParam(pairs[1..], name);
      assert r.Some? ==> exists i :: 0 <= i < |pairs| && pairs[i] != "" && PairName(pairs[i]) == name by {
        if r.Some? {
          var i :| 0 <= i < |pairs[1..]| && pairs[1..][i] != "" && PairName(pairs[1..][i]) == name;
          assert pairs[i + 1] == pairs[1..][i];
        }
      }
      assert (exists i :: 0 <= i < |pairs| && pairs[i] != "" && PairName(pairs[i]) == name) ==> r.Some? by {
        if exists i :: 0 <= i < |pairs| && pairs[i] != "" && PairName(pairs[i]) == name {
          var i :| 0 <= i < |pairs| && pairs[i] != "" && PairName(pairs[i]) == name;
          assert i > 0 && pairs[1..][i - 1] == pairs[i];
        }
      }
      r
  }

  /** The value found is that of the earliest pair with the name. */
  lemma {:induction false} FirstParamIsEarliest(pairs: seq<string>, name: string)
    requires FirstParam(pairs, name).Some?
    ensures exists i ::
      && 0 <= i < |pairs| && pairs[i] != "" && PairName(pairs[i]) == name
      && FirstParam(pairs, name).value == PairValue(pairs[i])
      && forall j :: 0 <= j < i ==> pairs[j] == "" || PairName(pairs[j]) != name
  {
    if !(pairs[0] != "" && PairName(pairs[0]) == name) {
      FirstParamIsEarliest(pairs[1..], name);
      var i :| 0 <= i < |pairs[1..]| && pairs[1..][i] != "" && PairName(pairs[1..][i]) == name
        && FirstParam(pairs[1..], name).value == PairValue(pairs[1..][i])
        && forall j :: 0 <= j < i ==> pairs[1..][j] == "" || PairName(pairs[1..][j]) != name;
      assert pairs[i + 1] == pairs[1..][i];
      forall j | 0 <= j < i + 1
        ensures pairs[j] == "" || PairName(pairs[j]) != name
      {
        if j > 0 {
          assert pairs[j] == pairs[1..][j - 1];
        }
      }
    } else {
      assert 0 <= 0 < |pairs| && pairs[0] != "" && PairName(pairs[0]) == name;
    }
  }

  /** `new URLSearchParams(query).get(name)` on the query of the location hash. */
  function QueryParam(hash: string, name: string): Option<string> {
    FirstParam(Split(QueryString(hash), '&'), name)
  }

  /**
   * The link the day view builds, `#/log-activity/<type>?date=<key>`, hands
   * the date key back through the query (for a key free of '?', '&').
   */
  lemma DateOfLogLink(path: string, key: string)
    requires '?' !in path && '?' !in key && '&' !in key
    ensures QueryParam("#" + path + "?date=" + key, "date") == Some(key)
  {
    var hash := "#" + path + "?date=" + key;
    var query := "date=" + key;
    assert hash == ("#" + path) + (['?'] + query);
    SplitPrefix("#" + path, '?', query);
    SplitFree(query, '?');
    assert QueryString(hash) == query;
    SplitFree(query, '&');
    assert query == "date" + (['='] + key);
    SplitPrefix("date", '=', key);
    SplitFree("date", '=');
    assert PairName(query) == "date";
    assert PairValue(query) == key;
  }

  // ------------------------------------------------------ the record's date

  /**
   * `existingActivity?.date || dateParam || <today>`: the record being
   * edited keeps its date, a new one takes the `date` query parameter, and
   * without either (or with empty strings) today's key is used.
   */
  function ActivityDate(existing: Option<Activity>, dateParam: Option<string>, todayKey: string): (d: string)
    ensures d == todayKey || (existing.Some? && d == existing.value.date) || (dateParam.Some? && d == dateParam.value)
    ensures todayKey != "" ==> d != ""
  {
    if existing.Some? && existing.value.date != "" then existing.value.date
    else if dateParam.Some? && dateParam.value != "" then dateParam.value
    else todayKey
  }

  lemma ActivityDatePrecedence(existing: Option<Activity>, dateParam: Option<string>, todayKey: string)
    ensures var date := ActivityDate(existing, dateParam, todayKey);
      && (date == todayKey
          || (existing.Some? && date == existing.value.date)
          || (dateParam.Some? && date == dateParam.value))
      && (todayKey != "" ==> date != "")
      && (existing.Some? && existing.value.date != "" ==> date == existing.value.date)
      && (existing.None? && dateParam.Some? && dateParam.value != "" ==> date == dateParam.value)
      && (existing.None? && (dateParam.None? || dateParam.value == "") ==> date == todayKey)
  {
  }

  // ------------------------------------------------------------- the form

  /** The values of the form fields the submit handler reads, as text. */
  datatype FormInput = FormInput(duration: string, distance: string, heartRateZone: string, notes: string)

  const DEFAULT_DURATION := 30
  const DEFAULT_ZONE := "zone2"
  const MIN_DURATION := 1
  const MAX_DURATION := 300

  /** The form as rendered: each field from the record being edited, else its default. */
  function InitialForm(existing: Option<Activity>): (f: FormInput)
    ensures existing.None? ==> f == FormInput("30", "", DEFAULT_ZONE, "")
    ensures f.heartRateZone != ""
  {
    var duration := if existing.Some? && existing.value.duration.Some? && existing.value.duration.value != 0
      then existing.value.duration.value else DEFAULT_DURATION;
    var distance := if existing.Some? && existing.value.distance.Some? && existing.value.distance.value != 0
      then IntToString(existing.value.distance.value) else "";
    var zone := if existing.Some? && existing.value.heartRateZone.Some? && existing.value.heartRateZone.value != ""
      then existing.value.heartRateZone.value else DEFAULT_ZONE;
    var notes := if existing.Some? && existing.value.notes.Some? then existing.value.notes.value else "";
    FormInput(IntToString(duration), distance, zone, notes)
  }

  /** The zone button shown active: 'zone2' also when the record has no zone. */
  function ActiveZone(existing: Option<Activity>): (z: string)
    ensures z == InitialForm(existing).heartRateZone
  {
    if existing.Some? && existing.value.heartRateZone.Some? && existing.value.heartRateZone.value != ""
    then existing.value.heartRateZone.value else DEFAULT_ZONE
  }

  /**
   * A duration button: `max(1, min(300, parseInt(value) + delta))`. A value
   * that does not parse stays NaN.
   */
  function StepDuration(current: Option<int>, delta: int): (r: Option<int>)
    ensures r.Some? ==> MIN_DURATION <= r.value <= MAX_DURATION
  {
    match current
    case None => None
    case Some(v) =>
      var sum := v + delta;
      var capped := if MAX_DURATION < sum then MAX_DURATION else sum;
      Some(if MIN_DURATION > capped then MIN_DURATION else capped)
  }

  /**
   * The buttons keep the duration within 1..300, move it by exactly the
   * delta when that stays inside, and stop at the nearer bound otherwise.
   */
  lemma StepDurationClamps(current: Option<int>, delta: int)
    ensures current.None? <==> StepDuration(current, delta).None?
    ensures current.Some? ==>
      var v := current.value;
      var r := StepDuration(current, delta).value;
      && MIN_DURATION <= r <= MAX_DURATION
      && (MIN_DURATION <= v + delta <= MAX_DURATION ==> r == v + delta)
      && (v + delta < MIN_DURATION ==> r == MIN_DURATION)
      && (v + delta > MAX_DURATION ==> r == MAX_DURATION)
  {
  }

  /** Once in range, -5 then +5 returns to the start unless the first press hit the floor. */
  lemma StepDurationUndo(v: int)
    requires MIN_DURATION + 5 <= v <= MAX_DURATION
    ensures StepDuration(StepDuration(Some(v), -5), 5) == Some(v)
  {
  }

  // ---------------------------------------------------------- the record

  /**
   * The record the submit handler builds: date, type and category always;
   * a cardio type adds the parsed duration, the zone and the trimmed notes,
   * and the parsed distance only when the type has a distance field and it
   * is not empty.
   */
  function RecordOf(date: string, activityType: string, config: Config, form: FormInput): Activity {
    var cardio := config.category == CARDIO;
    Activity(
      None, date, activityType, config.category,
      if cardio then ParseInt(form.duration) else None,
      if cardio && config.hasDistance && form.distance != "" then ParseInt(form.distance) else None,
      if cardio then Some(form.heartRateZone) else None,
      if cardio then Some(Trim(form.notes)) else None,
      None)
  }

  /** The submit handler's conditional field assignments. */
  method BuildActivity(date: string, activityType: string, config: Config, form: FormInput) returns (activity: Activity)
    ensures activity == RecordOf(date, activityType, config, form)
  {
    activity := Activity(None, date, activityType, config.category, None, None, None, None, None);
    if config.category == CARDIO {
      activity := activity.(duration := ParseInt(form.duration));
      if config.hasDistance && form.distance != "" {
        activity := activity.(distance := ParseInt(form.distance));
      }
      activity := activity.(heartRateZone := Some(form.heartRateZone));
      activity := activity.(notes := Some(Trim(form.notes)));
    }
  }

  /**
   * A recovery record carries only its date, type and category; a cardio
   * record always carries a zone and notes without surrounding white space.
   */
  lemma RecordShape(date: string, activityType: string, config: Config, form: FormInput)
    ensures var a := RecordOf(date, activityType, config, form);
      && a.id.None? && a.completedAt.None?
      && a.date == date && a.activityType == activityType && a.category == config.category
      && (config.category != CARDIO ==>
            a.duration.None? && a.distance.None? && a.heartRateZone.None? && a.notes.None?)
      && (config.category == CARDIO ==>
            a.heartRateZone == Some(form.heartRateZone) && a.notes.Some?
            && (|a.notes.value| > 0 ==> !IsSpace(a.notes.value[0]) && !IsSpace(a.notes.value[|a.notes.value| - 1])))
      && (a.distance.Some? ==> config.hasDistance && form.distance != "")
  {
  }

  /** An edit keeps the id and the original completion time. */
  function EditedRecord(record: Activity, editId: int, existing: Activity): (r: Activity)
    ensures r.id == Some(editId) && r.completedAt == existing.completedAt
    ensures r.(id := record.id, completedAt := record.completedAt) == record
  {
    record.(id := Some(editId), completedAt := existing.completedAt)
  }

  /**
   * Opening a stored cardio record for editing and submitting the form
   * unchanged writes back the same record, provided every field survives the
   * form: a non-zero duration, a distance only where the type has the field
   * (and non-zero), a non-empty zone and notes without surrounding white space.
   */
  lemma EditUnchangedRoundTrip(e: Activity, config: Config, editId: int)
    requires config.category == CARDIO && e.category == CARDIO
    requires e.id == Some(editId) && e.date != ""
    requires e.duration.Some? && e.duration.value != 0
    requires e.distance.None? || (config.hasDistance && e.distance.value != 0)
    requires e.heartRateZone.Some? && e.heartRateZone.value != ""
    requires e.notes.Some? && Trim(e.notes.value) == e.notes.value
    ensures EditedRecord(RecordOf(ActivityDate(Some(e), None, ""), e.activityType, config, InitialForm(Some(e))), editId, e) == e
  {
    ParseIntOfIntToString(e.duration.value);
    if e.distance.Some? {
      ParseIntOfIntToString(e.distance.value);
      assert IntToString(e.distance.value) != "";
    }
  }

  // --------------------------------------------------------------- screen

  /** What `renderLogActivity` returns. */
  datatype Screen =
    | UnknownType
    | Form(title: string, heading: string, backPath: string, date: string,
           cardio: bool, distanceField: bool, deleteButton: bool, initial: FormInput)

  function DayPath(date: string): string {
    "/day/" + date
  }

  /**
   * `renderLogActivity(params)` given the stored records, the location hash
   * and today's key: the error screen for an unknown type, else the form.
   */
  function Render(st: Store.Stores, params: Dicts.Dict<string>, hash: string, todayKey: string): Screen {
    match LookupConfig(Dicts.Get(params, "type"))
    case None => UnknownType
    case Some(config) =>
      var editId := EditId(params);
      var existing := if editId.Some? then Store.GetActivity(st, editId.value) else None;
      var date := ActivityDate(existing, QueryParam(hash, "date"), todayKey);
      Form(config.displayName, (if editId.Some? then "Edit " else "Log ") + config.displayName, DayPath(date), date,
           config.category == CARDIO, config.category == CARDIO && config.hasDistance, editId.Some?,
           InitialForm(existing))
  }

  /**
   * The screen is the error exactly for a type outside the table; otherwise
   * the heading says Edit exactly when an id is given, the delete button is
   * shown only then, the back link goes to the record's day, and a record
   * being edited keeps its own date.
   */
  lemma RenderMeaning(st: Store.Stores, params: Dicts.Dict<string>, hash: string, todayKey: string)
    ensures var s := Render(st, params, hash, todayKey);
      var t := Dicts.Get(params, "type");
      && (s.UnknownType? <==> t.None? || t.value !in ACTIVITY_CONFIG)
      && (s.Form? ==>
            && s.title == ACTIVITY_CONFIG[t.value].displayName
            && s.deleteButton == EditId(params).Some?
            && StartsWith(s.heading, if s.deleteButton then "Edit " else "Log ")
            && s.backPath == "/day/" + s.date
            && (s.distanceField ==> s.cardio)
            && (EditId(params).Some? && EditId(params).value in st.activities
                && st.activities[EditId(params).value].date != ""
                ==> s.date == st.activities[EditId(params).value].date))
  {
    var s := Render(st, params, hash, todayKey);
    if s.Form? {
      var h := s.heading;
      var p: string := if s.deleteButton then "Edit " else "Log ";
      assert h == p + ACTIVITY_CONFIG[Dicts.Get(params, "type").value].displayName;
      assert h[..|p|] == p;
    }
  }

  // --------------------------------------------------------------- actions

  /**
   * The submit handler. With an id but no stored record the handler fails
   * on `existingActivity.completedAt` before writing anything; otherwise an
   * edit updates the record under its id, a new record is saved (and
   * stamped with `now`), and the app goes to the record's day.
   */
  method Submit(db: Store.Database, date: string, activityType: string, config: Config, form: FormInput,
                editId: Option<int>, existing: Option<Activity>, now: int)
    returns (navigateTo: Option<string>)
    requires db.Valid()
    modifies db
    ensures db.Valid()
    ensures editId.Some? && existing.None? ==> navigateTo.None? && db.State() == old(db.State())
    ensures editId.Some? && existing.Some? ==>
      && navigateTo == Some(DayPath(date))
      && db.State() == Store.PutActivity(old(db.State()),
                         EditedRecord(RecordOf(date, activityType, config, form), editId.value, existing.value)).1
    ensures editId.None? ==>
      && navigateTo == Some(DayPath(date))
      && db.State() == Store.PutActivity(old(db.State()),
                         Store.StampCompletedAt(RecordOf(date, activityType, config, form), now)).1
  {
    var activity := BuildActivity(date, activityType, config, form);
    if editId.Some? {
      if existing.None? {
        return None;
      }
      activity := activity.(id := Some(editId.value));
      activity := activity.(completedAt := existing.value.completedAt);
      var _ := db.UpdateActivity(activity);
    } else {
      var _ := db.SaveActivity(activity, now);
    }
    navigateTo := Some(DayPath(date));
  }

  /**
   * An edit replaces the record under its id and nothing else; the stored
   * copy has that id and the original completion time.
   */
  lemma EditReplacesOnlyItself(st: Store.Stores, record: Activity, editId: int, existing: Activity)
    ensures var after := Store.PutActivity(st, EditedRecord(record, editId, existing)).1;
      && editId in after.activities
      && after.activities[editId].id == Some(editId)
      && after.activities[editId].completedAt == existing.completedAt
      && after.activities.Keys == st.activities.Keys + {editId}
      && (forall id :: id in st.activities && id != editId ==> after.activities[id] == st.activities[id])
  {
  }

  /**
   * A new record goes in under a key not used before, with `now` as its
   * completion time, and the store grows by exactly one record.
   */
  lemma SaveAddsFreshRecord(st: Store.Stores, date: string, activityType: string, config: Config, form: FormInput, now: int)
    requires Store.WellKeyed(st)
    ensures var r := Store.PutActivity(st, Store.StampCompletedAt(RecordOf(date, activityType, config, form), now));
      && r.0 !in st.activities
      && r.0 == st.nextActivityId
      && |r.1.activities| == |st.activities| + 1
      && r.1.activities[r.0].completedAt == Some(now)
      && r.1.activities[r.0].date == date
      && Store.WellKeyed(r.1)
  {
    var a := Store.StampCompletedAt(RecordOf(date, activityType, config, form), now);
    Store.PutWithoutIdIsFresh(st, Records.LiftWorkout(None, 0, "", [], false, 0, None), a);
    Store.PutKeepsWellKeyed(st, Records.LiftWorkout(None, 0, "", [], false, 0, None), a);
  }

  /** The delete button: after confirmation the record goes and the app returns to its day. */
  method Delete(db: Store.Database, editId: int, confirmed: bool, date: string) returns (navigateTo: Option<string>)
    requires db.Valid()
    modifies db
    ensures db.Valid()
    ensures !confirmed ==> navigateTo.None? && db.State() == old(db.State())
    ensures confirmed ==>
      && navigateTo == Some(DayPath(date))
      && db.State() == old(db.State()).(activities := old(db.State()).activities - {editId})
  {
    navigateTo := None;
    if confirmed {
      db.DeleteActivity(editId);
      navigateTo := Some(DayPath(date));
    }
  }
}
