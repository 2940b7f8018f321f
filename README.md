# Workout list and edit sheet: a verified model

This project models the stateful logic of two React Native screens in Dafny:

- **The workout list** (`app/index.tsx`, module `WorkoutList`). It holds an ordered list of workouts with delete-by-id, a browse/edit mode flag, and the lookup from SF Symbol names to Ionicons names with a default. Each browse-mode row has a swipe-to-delete state machine. The row's `translateX` follows leftward drags only. On release it snaps open to -80 or closed to 0, against a threshold of 40 (half the delete button's width). A trash press slides the row off screen and starts a collapse. When the collapse finishes, its completion callback calls `onDelete`, which is `handleDelete(item.id)`.
- **The edit sheet** (`components/EditWorkoutSheet.tsx`, module `EditSheet`). It holds a draft copy of a workout. Six field handlers replace the draft copy-on-write, and `onDateChange` sets the scheduled time. Two of the handlers, `handleMinutesChange` and `handleIntensityChange`, are attached to no control: the progress circles take no input. So those two handlers model code the screen never reaches. A flag opens and closes the date picker, and `date` state records the picked date. `handleSave` calls `onSave(draft)` and then `onClose()`.

Both screens are classes whose fields the methods update, as the components update their state.

- `WorkoutListScreen` holds `data` and `isEditMode`.
- `SwipeableRow` holds `translateX` and the number of collapse callbacks still pending.
- `EditWorkoutSheet` holds the `workout` prop, `editedWorkout`, `date`, `showDatePicker`, and a record of the callbacks made to the parent.

The pure parts are functions, and their properties are lemmas:

- the filter is `Delete`;
- the icon lookup is `IconName`;
- the row transition is `Step`, run over event sequences by `Run` and `DeleteCalls`;
- the copy-on-write updates are the `With…` functions;
- the segment-highlight and accent-colour rules are `ActiveCount` and `AccentColor`.

Each row method is specified by `Step`. Each sheet handler is specified by its `With…` function and says that every other piece of state is unchanged.

Where the intended design of this list differs from its code, the model follows the code:

- Edit mode has no pending-removal state: the remove icon deletes at once (`app/index.tsx:57`).
- Reordering is whatever order the drag-and-drop library hands back (`app/index.tsx:227`). The code itself does no clamping or reordering.

Pixel values are reals, as gesture translations are, so a release at -40.5 snaps open as in the code. An animated assignment `withTiming(target)` is modelled by its target, and the end of an animation is a discrete event. The collapse callback runs whether or not the animation finished, and reanimated also calls it when a later animation interrupts it. So every trash press eventually gives one `onDelete` call. `DeleteIdempotent` shows a repeated call is harmless. The window width, the current time, `new Date(text)` and `toISOString()` are parameters.

## Model

| member | source | states |
|---|---|---|
| WorkoutList.Delete | app/index.tsx:88-90 | the result holds exactly the workouts of the list whose id differs from the given id, and is no longer than the list |
| WorkoutList.DeleteMultiplicity | app/index.tsx:89 | every workout with another id keeps its multiplicity; every workout with the given id has multiplicity 0 |
| WorkoutList.DeleteIsSubsequence | app/index.tsx:89 | the surviving workouts appear in the same relative order as in the original list |
| WorkoutList.DeleteAppend | app/index.tsx:89 | deleting from a concatenation is the concatenation of the deletions, so order within and across any split is kept |
| WorkoutList.DeleteAbsent | app/index.tsx:88-90 | when no workout has the id, the list is unchanged |
| WorkoutList.DeleteIdempotent | app/index.tsx:88-90 | deleting the same id twice equals deleting it once, so a repeated `onDelete` is harmless |
| WorkoutList.DeleteUniqueRemovesOne | app/index.tsx:88-90 | with unique ids and the id present, exactly one workout is removed |
| WorkoutList.DeleteKeepsUniqueIds | app/index.tsx:88-90 | deleting from a list with unique ids leaves a list with unique ids |
| WorkoutList.IconName | app/index.tsx:97-121 | a listed key gives its mapped Ionicons name, any other key gives "fitness-outline", and the result is always one of the 13 known glyphs |
| WorkoutList.SnapTarget | app/index.tsx:142-150 | release snaps to -80 or 0 only, and to -80 exactly when the translation is below -40 |
| WorkoutList.DeleteOpacity | app/index.tsx:170-173 | the delete button's opacity is 1 or 0.5, and 1 exactly when the offset is below -40 |
| WorkoutList.SnappedOpacity | app/index.tsx:170-173 | after a release the button is opaque exactly when the row snapped open |
| WorkoutList.Step | app/index.tsx:136-159 | no transition makes a non-positive offset positive; pan events leave pending collapses unchanged |
| WorkoutList.Fires | app/index.tsx:156-158 | the collapse callback calls `onDelete` exactly when the event is a completion that consumes a pending collapse |
| WorkoutList.RunNeverPositive | app/index.tsx:131-159 | from a non-positive offset, the offset stays non-positive after any sequence of drags, releases, trash presses and completions |
| WorkoutList.DeleteCallsAccounting | app/index.tsx:153-159 | `onDelete` calls made plus collapses still pending equal pending collapses at the start plus trash presses: each press yields exactly one call, and nothing else yields one |
| WorkoutList.SwipeNeverDeletes | app/index.tsx:135-151 | a sequence of drags and releases alone never calls `onDelete` and starts no collapse |
| WorkoutList.SwipeCancelled | app/index.tsx:142-150 | a swipe released at or above -40 leaves the row resting at offset 0 with nothing pending and no deletion |
| WorkoutList.SwipeRevealed | app/index.tsx:142-150 | a swipe released below -40 leaves the row open at -80 with an opaque button, nothing pending and no deletion |
| WorkoutList.TrashThenCollapseDeletesOnce | app/index.tsx:153-159 | a trash press followed by the collapse completion calls `onDelete` exactly once and leaves the row off screen |
| WorkoutList.SwipeableRow.constructor | app/index.tsx:131 | a new row rests at offset 0 with no collapse pending |
| WorkoutList.SwipeableRow.OnActive | app/index.tsx:136-141 | the offset becomes the translation when it is negative and is unchanged otherwise; the offset stays non-positive |
| WorkoutList.SwipeableRow.OnEnd | app/index.tsx:142-150 | the offset becomes the snap target of the release translation |
| WorkoutList.SwipeableRow.ConfirmDelete | app/index.tsx:153-155 | the offset becomes minus the screen width and one more collapse callback is pending |
| WorkoutList.SwipeableRow.OnCollapseFinished | app/index.tsx:156-158 | the callback runs `onDelete` exactly when a collapse was pending, and consumes it |
| WorkoutList.SwipeableRow.DeleteButtonOpacity | app/index.tsx:170-173 | this row's button is opaque exactly when its offset is below -40 |
| WorkoutList.RowKindFor | app/index.tsx:41-86 | `renderItem` draws a reorder row exactly in edit mode and a swipeable row otherwise |
| WorkoutList.WorkoutListScreen.constructor | app/index.tsx:37-38 | the list is seeded from the bundled workouts and edit mode starts off |
| WorkoutList.WorkoutListScreen.HandleDelete | app/index.tsx:88-90 | the list becomes `Delete` of the old list; the mode is unchanged |
| WorkoutList.WorkoutListScreen.ToggleEditMode | app/index.tsx:92-94 | the mode flips; the list is unchanged |
| WorkoutList.WorkoutListScreen.OnDragEnd | app/index.tsx:227 | the list becomes the order handed back by the drag-and-drop list; the mode is unchanged |
| WorkoutList.WorkoutListScreen.RemoveIconPressed | app/index.tsx:43-57 | the remove icon exists only on the reorder row that `renderItem` draws in edit mode, and it deletes the row's id immediately |
| WorkoutList.WorkoutListScreen.RowCollapseFinished | app/index.tsx:81 | a row's collapse completion removes the row's id from the list exactly when the row fires `onDelete`, and otherwise leaves the list alone |
| WorkoutList.ToggleTwice | app/index.tsx:92-94 | two toggles restore the original mode and leave the list unchanged |
| WorkoutList.SwipeLeavesList | app/index.tsx:135-151 | a drag then a release leaves the row at the release's snap target, with the button opaque exactly when the release passed -40; the list and pending collapses are unchanged |
| EditSheet.WithNextScheduledTime | components/EditWorkoutSheet.tsx:109-112 | the scheduled time is replaced and every other field is unchanged |
| EditSheet.WithWorkoutType | components/EditWorkoutSheet.tsx:117-122 | the workout type is replaced and every other field is unchanged |
| EditSheet.WithColorHex | components/EditWorkoutSheet.tsx:125-130 | the colour is replaced and every other field is unchanged |
| EditSheet.WithMinutes | components/EditWorkoutSheet.tsx:133-138 | the minutes are replaced and every other field is unchanged |
| EditSheet.WithIntensity | components/EditWorkoutSheet.tsx:141-146 | the intensity is replaced and every other field is unchanged |
| EditSheet.WithNeedsCooldown | components/EditWorkoutSheet.tsx:149-154 | the cooldown flag is replaced and every other field is unchanged |
| EditSheet.WithReps | components/EditWorkoutSheet.tsx:157-162 | the reps text is replaced and every other field is unchanged |
| EditSheet.AgreeEverywhere | components/EditWorkoutSheet.tsx:47-58 | two workouts that agree on each of the ten fields are equal |
| EditSheet.OnlyChangedDetermines | components/EditWorkoutSheet.tsx:117-162 | "this field set to v, all others kept" determines the updated workout uniquely |
| EditSheet.WriteBackIsIdentity | components/EditWorkoutSheet.tsx:109-162 | writing back a field's current value leaves the workout unchanged |
| EditSheet.EditsCommute | components/EditWorkoutSheet.tsx:107-162 | for any two of the seven updates, with any values: updates of different fields commute, and of the same field the later one wins |
| EditSheet.SegmentActive | components/EditWorkoutSheet.tsx:267 | a segment is highlighted exactly when pressing it would leave the draft unchanged, that is, when it already names the draft's type |
| EditSheet.PressedSegmentActive | components/EditWorkoutSheet.tsx:262-273 | pressing a segment of the control highlights that segment and no other, so exactly one is highlighted |
| EditSheet.ActiveCountDistinct | components/EditWorkoutSheet.tsx:262-270 | over distinct segments, exactly one is highlighted when the draft's type is among them and none otherwise |
| EditSheet.AtMostOneSegmentActive | components/EditWorkoutSheet.tsx:33 | in the three-segment control at most one segment is highlighted, and exactly one when the draft's type is listed |
| EditSheet.AccentColor | components/EditWorkoutSheet.tsx:203 | the accent colour is never empty: it is the draft's colour, or "#007AFF" when that is empty |
| EditSheet.Truthy | components/EditWorkoutSheet.tsx:100 | a scheduled time counts as absent exactly when it is null or the empty string |
| EditSheet.EditWorkoutSheet.constructor | components/EditWorkoutSheet.tsx:74-104 | the draft is a copy of the prop; `date` is the parsed scheduled time when that is a non-empty string and the current time otherwise; the picker is closed; no callbacks made yet |
| EditSheet.EditWorkoutSheet.WorkoutChanged | components/EditWorkoutSheet.tsx:94-96 | a new prop replaces both the prop and the draft; `date`, the picker flag and the callbacks are unchanged |
| EditSheet.EditWorkoutSheet.OnDateChange | components/EditWorkoutSheet.tsx:107-114 | `date` becomes the selected date, the draft's scheduled time becomes its ISO text (other fields kept), and the picker closes |
| EditSheet.EditWorkoutSheet.HandleWorkoutTypeChange | components/EditWorkoutSheet.tsx:117-122 | the draft gets the new type; the prop, `date`, the picker and the callbacks are unchanged |
| EditSheet.EditWorkoutSheet.HandleColorChange | components/EditWorkoutSheet.tsx:125-130 | the draft gets the new colour; everything else is unchanged |
| EditSheet.EditWorkoutSheet.HandleMinutesChange | components/EditWorkoutSheet.tsx:133-138 | the draft gets the new minutes; everything else is unchanged |
| EditSheet.EditWorkoutSheet.HandleIntensityChange | components/EditWorkoutSheet.tsx:141-146 | the draft gets the new intensity; everything else is unchanged |
| EditSheet.EditWorkoutSheet.HandleCooldownToggle | components/EditWorkoutSheet.tsx:149-154 | the draft gets the new cooldown flag; everything else is unchanged |
| EditSheet.EditWorkoutSheet.HandleRepsChange | components/EditWorkoutSheet.tsx:157-162 | the draft gets the new reps text; everything else is unchanged |
| EditSheet.EditWorkoutSheet.HandleSave | components/EditWorkoutSheet.tsx:165-168 | exactly two callbacks are appended, `onSave` with the current draft and then `onClose`; the state is unchanged |
| EditSheet.EditWorkoutSheet.OpenDatePicker | components/EditWorkoutSheet.tsx:235 | the picker opens; nothing else changes |
| EditSheet.EditWorkoutSheet.ConfirmDatePicker | components/EditWorkoutSheet.tsx:248-251 | the picker closes and `date` becomes the picked date; the draft's scheduled time is unchanged |
| EditSheet.EditWorkoutSheet.CancelDatePicker | components/EditWorkoutSheet.tsx:252-254 | the picker closes; nothing else changes |
| EditSheet.PickAndSaveAsWritten | components/EditWorkoutSheet.tsx:244-255 | opening the picker, confirming any date and saving hands `onSave` the original workout unchanged, then closes |
| EditSheet.PickAndSaveIntended | components/EditWorkoutSheet.tsx:107-114 | confirming through `onDateChange` and saving hands `onSave` the workout with the picked date's ISO text and every other field kept, then closes |
| EditSheet.EditRepsAndSave | components/EditWorkoutSheet.tsx:157-168 | editing one field and saving hands `onSave` the original workout with just that field replaced, and leaves the prop itself unchanged |

## Left out

- `app/index.ios.tsx` is not part of this model. It is widget configuration with logging, its list renders the static data rather than the state, and its in-place update is a latent bug.
- Drag reordering itself happens inside `react-native-draggable-flatlist`. `OnDragEnd` adopts whatever sequence it is handed, and the model does not assume that sequence is a permutation.
- Animation interpolation and timing are not modelled: the 300 ms durations, `runOnJS`, and the row-height and opacity tweens. An animated value is its target, and intermediate frames are not modelled.
- The order in which interrupted collapse callbacks arrive relative to other events is not modelled: the model counts pending callbacks only.
- The pan handler's activation offsets (`activeOffsetX`, `failOffsetY`) decide which touches reach `onActive`. The model accepts any event sequence.
- A row's lifetime is not modelled. The model keeps one row object from mount to deletion. In the app a row is remounted, with `translateX` back at 0, when the mode flips: `renderItem` is memoised on `isEditMode`, and a new callback declares a new `SwipeableRow` component. A row is also remounted when the list virtualises it away.
- `WorkoutListScreen` does not maintain unique ids as an invariant, because the code does not enforce it. Only `DeleteUniqueRemovesOne` and `DeleteKeepsUniqueIds` assume unique ids.
- IconName: a JavaScript object lookup also finds inherited `Object.prototype` members such as `"toString"`, which would return a non-string. The model's table has only the 19 listed keys.
- Display values in floating point are not modelled: the progress fractions `minutes / 120` and `intensity / 100`, and sizes derived from `Dimensions`. Minutes and intensity are modelled as integers. Pixel values are mathematical reals, so the rounding of JavaScript numbers is not modelled.
- `Date` is modelled as epoch milliseconds. Parsing, `toISOString` and the clock are parameters; `toLocaleString` and the picker's own display date are not modelled.
- The following sheet parts are not modelled: the bottom-sheet ref snapping and closing on `isVisible`, the sheet's own pan-down `onClose`, the colour-picker widget (the handler receives the hex string), segment highlight styles, other styles, and logging.
- Handlers spread the draft from the last render, so two handlers running within one render would lose the first update. The model applies each handler to the current draft, because UI events are serialised with a re-render in between.

## Findings

| source | as written | input that shows it | evidently intended | confidence | as-written member | corrected member |
|---|---|---|---|---|---|---|
| components/EditWorkoutSheet.tsx:248-251 | the picker's `onConfirm` only closes the picker and sets `date`, which nothing renders; `onDateChange` (lines 107-114), which writes the draft's `nextScheduledTime`, is never attached | open the sheet for a workout, open the picker, confirm any date whose ISO text differs from the current scheduled time, then save: `onSave` receives the old scheduled time | `onConfirm` runs `onDateChange(date)`, so the picked date reaches the draft and is saved | medium, not executed | EditSheet.PickAndSaveAsWritten | EditSheet.PickAndSaveIntended |
