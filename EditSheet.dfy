/**
 The edit sheet for one workout: a draft copy of the workout that the field
 handlers replace copy-on-write, the date-picker state, and the save action
 that hands the draft to `onSave` and then calls `onClose`.

 The `Date` library (parsing an ISO string, `toISOString`, the current time)
 is supplied from outside as function values.
 */
module EditSheet {

  datatype Option<T> = None | Some(value: T)

  /** The segments of the workout-type control, in display order. */
  const WORKOUT_TYPES: seq<string> := ["Cardio", "Strength", "Other"]

  /** Accent colour used when the draft has no colour. */
  const DEFAULT_ACCENT: string := "#007AFF"

  /** A point in time, in milliseconds since the epoch. */
  datatype Date = Date(epochMillis: int)

  datatype Workout = Workout(
    id: int,
    name: string,
    iconName: string,
    nextScheduledTime: Option<string>,
    workoutType: string,
    needsCooldown: bool,
    reps: string,
    minutes: int,
    intensity: int,
    colorHex: string)

  /** The workout's fields, so that "only this field changed" can be stated. */
  datatype Field =
    | IdField | NameField | IconNameField | NextScheduledTimeField | WorkoutTypeField
    | NeedsCooldownField | RepsField | MinutesField | IntensityField | ColorHexField

  /** `a` and `b` hold the same value in field `f`. */
  predicate Agree(a: Workout, b: Workout, f: Field)
  {
    match f
    case IdField => a.id == b.id
    case NameField => a.name == b.name
    case IconNameField => a.iconName == b.iconName
    case NextScheduledTimeField => a.nextScheduledTime == b.nextScheduledTime
    case WorkoutTypeField => a.workoutType == b.workoutType
    case NeedsCooldownField => a.needsCooldown == b.needsCooldown
    case RepsField => a.reps == b.reps
    case MinutesField => a.minutes == b.minutes
    case IntensityField => a.intensity == b.intensity
    case ColorHexField => a.colorHex == b.colorHex
  }

  /** `a` and `b` agree on every field except possibly `f`. */
  predicate OnlyChanged(a: Workout, b: Workout, f: Field)
  {
    forall g :: g != f ==> Agree(a, b, g)
  }

  /** Two workouts that agree field by field are the same workout. */
  lemma AgreeEverywhere(a: Workout, b: Workout)
    requires forall f :: Agree(a, b, f)
    ensures a == b
  {
    assert Agree(a, b, IdField) && Agree(a, b, NameField) && Agree(a, b, IconNameField);
    assert Agree(a, b, NextScheduledTimeField) && Agree(a, b, WorkoutTypeField);
    assert Agree(a, b, NeedsCooldownField) && Agree(a, b, RepsField);
    assert Agree(a, b, MinutesField) && Agree(a, b, IntensityField) && Agree(a, b, ColorHexField);
  }

  // -------------------------------------------------------------------------
  // Copy-on-write field updates (`{ ...editedWorkout, field: value }`)

  function WithNextScheduledTime(w: Workout, t: Option<string>): (r: Workout)
    ensures r.nextScheduledTime == t && OnlyChanged(r, w, NextScheduledTimeField)
  {
    w.(nextScheduledTime := t)
  }

  function WithWorkoutType(w: Workout, workoutType: string): (r: Workout)
    ensures r.workoutType == workoutType && OnlyChanged(r, w, WorkoutTypeField)
  {
    w.(workoutType := workoutType)
  }

  function WithColorHex(w: Workout, hex: string): (r: Workout)
    ensures r.colorHex == hex && OnlyChanged(r, w, ColorHexField)
  {
    w.(colorHex := hex)
  }

  function WithMinutes(w: Workout, minutes: int): (r: Workout)
    ensures r.minutes == minutes && OnlyChanged(r, w, MinutesField)
  {
    w.(minutes := minutes)
  }

  function WithIntensity(w: Workout, intensity: int): (r: Workout)
    ensures r.intensity == intensity && OnlyChanged(r, w, IntensityField)
  {
    w.(intensity := intensity)
  }

  function WithNeedsCooldown(w: Workout, value: bool): (r: Workout)
    ensures r.needsCooldown == value && OnlyChanged(r, w, NeedsCooldownField)
  {
    w.(needsCooldown := value)
  }

  function WithReps(w: Workout, reps: string): (r: Workout)
    ensures r.reps == reps && OnlyChanged(r, w, RepsField)
  {
    w.(reps := reps)
  }

  /** The frame in each update's contract pins the result down: nothing else satisfies it. */
  lemma OnlyChangedDetermines(r: Workout, r': Workout, w: Workout, f: Field)
    requires OnlyChanged(r, w, f) && OnlyChanged(r', w, f)
    requires Agree(r, r', f)
    ensures r == r'
  {
    forall g ensures Agree(r, r', g) {
      if g != f {
        assert Agree(r, w, g) && Agree(r', w, g);
      }
    }
    AgreeEverywhere(r, r');
  }

  /** Writing back the value a field already holds changes nothing. */
  lemma WriteBackIsIdentity(w: Workout)
    ensures WithWorkoutType(w, w.workoutType) == w
    ensures WithColorHex(w, w.colorHex) == w
    ensures WithMinutes(w, w.minutes) == w
    ensures WithIntensity(w, w.intensity) == w
    ensures WithNeedsCooldown(w, w.needsCooldown) == w
    ensures WithReps(w, w.reps) == w
    ensures WithNextScheduledTime(w, w.nextScheduledTime) == w
  {
  }

  /** One handler's update, with the value it writes. */
  datatype Edit =
    | SetNextScheduledTime(t: Option<string>)
    | SetWorkoutType(workoutType: string)
    | SetColorHex(hex: string)
    | SetMinutes(minutes: int)
    | SetIntensity(intensity: int)
    | SetNeedsCooldown(value: bool)
    | SetReps(reps: string)

  /** The field an edit writes. */
  function FieldOf(e: Edit): Field
  {
    match e
    case SetNextScheduledTime(_) => NextScheduledTimeField
    case SetWorkoutType(_) => WorkoutTypeField
    case SetColorHex(_) => ColorHexField
    case SetMinutes(_) => MinutesField
    case SetIntensity(_) => IntensityField
    case SetNeedsCooldown(_) => NeedsCooldownField
    case SetReps(_) => RepsField
  }

  /** Applying an edit through its copy-on-write update. */
  function Apply(w: Workout, e: Edit): Workout
  {
    match e
    case SetNextScheduledTime(t) => WithNextScheduledTime(w, t)
    case SetWorkoutType(t) => WithWorkoutType(w, t)
    case SetColorHex(h) => WithColorHex(w, h)
    case SetMinutes(m) => WithMinutes(w, m)
    case SetIntensity(i) => WithIntensity(w, i)
    case SetNeedsCooldown(v) => WithNeedsCooldown(w, v)
    case SetReps(r) => WithReps(w, r)
  }

  /** Any two edits of different fields commute; of the same field, the later one wins. */
  lemma EditsCommute(w: Workout, e1: Edit, e2: Edit)
    ensures FieldOf(e1) != FieldOf(e2) ==> Apply(Apply(w, e1), e2) == Apply(Apply(w, e2), e1)
    ensures FieldOf(e1) == FieldOf(e2) ==> Apply(Apply(w, e1), e2) == Apply(w, e2)
  {
  }

  // -------------------------------------------------------------------------
  // Display rules

  /** A segment is highlighted when it names the draft's workout type. */
  predicate SegmentActive(segment: string, draft: Workout)
    ensures SegmentActive(segment, draft) <==> WithWorkoutType(draft, segment) == draft
  {
    segment == draft.workoutType
  }

  /** No string appears twice. */
  predicate Distinct(s: seq<string>)
  {
    forall i, j :: 0 <= i < j < |s| ==> s[i] != s[j]
  }

  /** The number of highlighted segments among `segments`. */
  function ActiveCount(segments: seq<string>, draft: Workout): nat
  {
    if segments == [] then 0
    else (if SegmentActive(segments[0], draft) then 1 else 0) + ActiveCount(segments[1..], draft)
  }

  /** Over distinct segments, one is highlighted exactly when the draft's type is among them, else none. */
  lemma {:induction false} ActiveCountDistinct(segments: seq<string>, draft: Workout)
    requires Distinct(segments)
    ensures ActiveCount(segments, draft) == if draft.workoutType in segments then 1 else 0
  {
    if segments != [] {
      var rest := segments[1..];
      assert Distinct(rest) by {
        forall i, j | 0 <= i < j < |rest| ensures rest[i] != rest[j] {
          assert rest[i] == segments[i + 1] && rest[j] == segments[j + 1];
        }
      }
      ActiveCountDistinct(rest, draft);
      assert segments == [segments[0]] + rest;
      if segments[0] == draft.workoutType {
        forall k | 0 <= k < |rest| ensures rest[k] != draft.workoutType {
          assert rest[k] == segments[k + 1];
        }
      }
    }
  }

  /** In the workout-type control, at most one segment is highlighted, and exactly one for a known type. */
  lemma AtMostOneSegmentActive(draft: Workout)
    ensures ActiveCount(WORKOUT_TYPES, draft) <= 1
    ensures ActiveCount(WORKOUT_TYPES, draft) == 1 <==> draft.workoutType in WORKOUT_TYPES
  {
    assert Distinct(WORKOUT_TYPES);
    ActiveCountDistinct(WORKOUT_TYPES, draft);
  }

  /** Pressing a segment highlights it and no other segment of the control. */
  lemma PressedSegmentActive(draft: Workout, i: nat)
    requires i < |WORKOUT_TYPES|
    ensures SegmentActive(WORKOUT_TYPES[i], WithWorkoutType(draft, WORKOUT_TYPES[i]))
    ensures forall j :: 0 <= j < |WORKOUT_TYPES| && j != i ==>
              !SegmentActive(WORKOUT_TYPES[j], WithWorkoutType(draft, WORKOUT_TYPES[i]))
    ensures ActiveCount(WORKOUT_TYPES, WithWorkoutType(draft, WORKOUT_TYPES[i])) == 1
  {
    assert Distinct(WORKOUT_TYPES);
    AtMostOneSegmentActive(WithWorkoutType(draft, WORKOUT_TYPES[i]));
  }

  /** `editedWorkout.colorHex || "#007AFF"`: the progress circles' colour. */
  function AccentColor(draft: Workout): (c: string)
    ensures c != ""
    ensures draft.colorHex != "" ==> c == draft.colorHex
    ensures draft.colorHex == "" ==> c == DEFAULT_ACCENT
  {
    if draft.colorHex != "" then draft.colorHex else DEFAULT_ACCENT
  }

  // -------------------------------------------------------------------------
  // The sheet component

  /** The callbacks the sheet makes to its parent, in the order made. */
  datatype Callback = OnSave(workout: Workout) | OnClose

  /** JavaScript truthiness of a `string | null`: present and non-empty. */
  predicate Truthy(t: Option<string>)
    ensures !Truthy(t) <==> t == None || t == Some("")
  {
    t.Some? && t.value != ""
  }

  class EditWorkoutSheet {
    /** `new Date(text)` */
    const parseDate: string -> Date
    /** `date.toISOString()` */
    const toIsoString: Date -> string

    /** The `workout` prop. */
    var workout: Workout
    /** The draft being edited. */
    var editedWorkout: Workout
    var date: Date
    var showDatePicker: bool
    /** Callbacks made so far. */
    var calls: seq<Callback>

    /** Mount: the draft copies the prop; `date` is its scheduled time, or now when there is none. */
    constructor (workout: Workout, now: Date, parseDate: string -> Date, toIsoString: Date -> string)
      ensures this.workout == workout && editedWorkout == workout
      ensures this.parseDate == parseDate && this.toIsoString == toIsoString
      ensures date == if Truthy(workout.nextScheduledTime) then parseDate(workout.nextScheduledTime.value) else now
      ensures !showDatePicker
      ensures calls == []
    {
      this.parseDate := parseDate;
      this.toIsoString := toIsoString;
      this.workout := workout;
      editedWorkout := workout;
      date := if Truthy(workout.nextScheduledTime) then parseDate(workout.nextScheduledTime.value) else now;
      showDatePicker := false;
      calls := [];
    }

    /** A new `workout` prop resets the draft; `date` is mount-time state and keeps its value. */
    method WorkoutChanged(w: Workout)
      modifies this
      ensures workout == w && editedWorkout == w
      ensures date == old(date) && showDatePicker == old(showDatePicker) && calls == old(calls)
    {
      workout := w;
      editedWorkout := w;
    }

    method OnDateChange(selectedDate: Date)
      modifies this
      ensures date == selectedDate
      ensures editedWorkout == WithNextScheduledTime(old(editedWorkout), Some(toIsoString(selectedDate)))
      ensures !showDatePicker
      ensures workout == old(workout) && calls == old(calls)
    {
      date := selectedDate;
      editedWorkout := WithNextScheduledTime(editedWorkout, Some(toIsoString(selectedDate)));
      showDatePicker := false;
    }

    method HandleWorkoutTypeChange(workoutType: string)
      modifies this
      ensures editedWorkout == WithWorkoutType(old(editedWorkout), workoutType)
      ensures workout == old(workout) && date == old(date)
      ensures showDatePicker == old(showDatePicker) && calls == old(calls)
    {
      editedWorkout := WithWorkoutType(editedWorkout, workoutType);
    }

    method HandleColorChange(hex: string)
      modifies this
      ensures editedWorkout == WithColorHex(old(editedWorkout), hex)
      ensures workout == old(workout) && date == old(date)
      ensures showDatePicker == old(showDatePicker) && calls == old(calls)
    {
      editedWorkout := WithColorHex(editedWorkout, hex);
    }

    method HandleMinutesChange(minutes: int)
      modifies this
      ensures editedWorkout == WithMinutes(old(editedWorkout), minutes)
      ensures workout == old(workout) && date == old(date)
      ensures showDatePicker == old(showDatePicker) && calls == old(calls)
    {
      editedWorkout := WithMinutes(editedWorkout, minutes);
    }

    method HandleIntensityChange(intensity: int)
      modifies this
      ensures editedWorkout == WithIntensity(old(editedWorkout), intensity)
      ensures workout == old(workout) && date == old(date)
      ensures showDatePicker == old(showDatePicker) && calls == old(calls)
    {
      editedWorkout := WithIntensity(editedWorkout, intensity);
    }

    method HandleCooldownToggle(value: bool)
      modifies this
      ensures editedWorkout == WithNeedsCooldown(old(editedWorkout), value)
      ensures workout == old(workout) && date == old(date)
      ensures showDatePicker == old(showDatePicker) && calls == old(calls)
    {
      editedWorkout := WithNeedsCooldown(editedWorkout, value);
    }

    method HandleRepsChange(reps: string)
      modifies this
      ensures editedWorkout == WithReps(old(editedWorkout), reps)
      ensures workout == old(workout) && date == old(date)
      ensures showDatePicker == old(showDatePicker) && calls == old(calls)
    {
      editedWorkout := WithReps(editedWorkout, reps);
    }

    /** `onSave(editedWorkout)` then `onClose()`. */
    method HandleSave()
      modifies this
      ensures calls == old(calls) + [OnSave(old(editedWorkout)), OnClose]
      ensures workout == old(workout) && editedWorkout == old(editedWorkout)
      ensures date == old(date) && showDatePicker == old(showDatePicker)
    {
      calls := calls + [OnSave(editedWorkout)];
      calls := calls + [OnClose];
    }

    /** The date button. */
    method OpenDatePicker()
      modifies this
      ensures showDatePicker
      ensures workout == old(workout) && editedWorkout == old(editedWorkout)
      ensures date == old(date) && calls == old(calls)
    {
      showDatePicker := true;
    }

    /** The picker's `onConfirm`: closes it and records the date, leaving the draft alone. */
    method ConfirmDatePicker(picked: Date)
      modifies this
      ensures !showDatePicker && date == picked
      ensures workout == old(workout) && editedWorkout == old(editedWorkout) && calls == old(calls)
    {
      showDatePicker := false;
      date := picked;
    }

    /** The picker's `onCancel`. */
    method CancelDatePicker()
      modifies this
      ensures !showDatePicker
      ensures workout == old(workout) && editedWorkout == old(editedWorkout)
      ensures date == old(date) && calls == old(calls)
    {
      showDatePicker := false;
    }
  }

  /**
   Open the sheet, pick a date through the picker as wired (`onConfirm`), and
   save: `onSave` receives the workout with its old scheduled time.
   */
  method PickAndSaveAsWritten(w: Workout, now: Date, parseDate: string -> Date,
                              toIsoString: Date -> string, picked: Date)
    returns (saved: Workout, closed: bool)
    ensures saved == w
    ensures closed
  {
    var sheet := new EditWorkoutSheet(w, now, parseDate, toIsoString);
    sheet.OpenDatePicker();
    sheet.ConfirmDatePicker(picked);
    sheet.HandleSave();
    saved := sheet.calls[0].workout;
    closed := sheet.calls[1] == OnClose;
  }

  /** The same interaction, with the picker confirming through `onDateChange`. */
  method PickAndSaveIntended(w: Workout, now: Date, parseDate: string -> Date,
                             toIsoString: Date -> string, picked: Date)
    returns (saved: Workout, closed: bool)
    ensures saved.nextScheduledTime == Some(toIsoString(picked))
    ensures OnlyChanged(saved, w, NextScheduledTimeField)
    ensures closed
  {
    var sheet := new EditWorkoutSheet(w, now, parseDate, toIsoString);
    sheet.OpenDatePicker();
    sheet.OnDateChange(picked);
    sheet.HandleSave();
    saved := sheet.calls[0].workout;
    closed := sheet.calls[1] == OnClose;
  }

  /** Editing one field and saving hands over exactly the original workout with that field replaced. */
  method EditRepsAndSave(w: Workout, now: Date, parseDate: string -> Date,
                         toIsoString: Date -> string, reps: string)
    returns (saved: Workout, prop: Workout)
    ensures saved.reps == reps && OnlyChanged(saved, w, RepsField)
    ensures prop == w
  {
    var sheet := new EditWorkoutSheet(w, now, parseDate, toIsoString);
    sheet.HandleRepsChange(reps);
    sheet.HandleSave();
    saved := sheet.calls[0].workout;
    prop := sheet.workout;
  }
}
