/**
 The workout list screen: an ordered list of workouts, a browse/edit mode
 flag, the SF Symbol to Ionicons name lookup, and the per-row swipe-to-delete
 gesture state machine.

 Pixel values are reals, as gesture translations are. An animated assignment `withTiming(target)` is
 modelled by its target value; the collapse animation's completion callback
 is a discrete event.
 */
module WorkoutList {

  /** Width of the red delete button revealed behind a row, in pixels. */
  const DELETE_BUTTON_WIDTH: real := 80.0
  /** A swipe must travel past half the button width to snap open. */
  const THRESHOLD: real := DELETE_BUTTON_WIDTH / 2.0

  datatype Workout = Workout(id: int, name: string, iconName: string, workoutType: string, colorHex: string)

  // -------------------------------------------------------------------------
  // Deleting by id: `currentData.filter((item) => item.id !== id)`

  /** The list without the workouts whose id is `id`. */
  function Delete(data: seq<Workout>, id: int): (r: seq<Workout>)
    ensures |r| <= |data|
    ensures forall w :: w in r <==> w in data && w.id != id
  {
    if data == [] then []
    else if data[0].id == id then Delete(data[1..], id)
    else [data[0]] + Delete(data[1..], id)
  }

  /** `a` occurs in `b` in order, possibly with gaps (greedy matching). */
  predicate IsSubsequence(a: seq<Workout>, b: seq<Workout>)
  {
    if a == [] then true
    else if b == [] then false
    else if a[0] == b[0] then IsSubsequence(a[1..], b[1..])
    else IsSubsequence(a, b[1..])
  }

  /** Every workout whose id differs from `id` keeps its multiplicity; the others are gone. */
  lemma {:induction false} DeleteMultiplicity(data: seq<Workout>, id: int, w: Workout)
    ensures multiset(Delete(data, id))[w] == if w.id == id then 0 else multiset(data)[w]
  {
    if data != [] {
      DeleteMultiplicity(data[1..], id, w);
      assert data == [data[0]] + data[1..];
    }
  }

  /** The survivors keep their original relative order. */
  lemma {:induction false} DeleteIsSubsequence(data: seq<Workout>, id: int)
    ensures IsSubsequence(Delete(data, id), data)
  {
    if data != [] {
      DeleteIsSubsequence(data[1..], id);
      var rest := Delete(data[1..], id);
      if data[0].id != id {
        assert Delete(data, id) == [data[0]] + rest;
        assert ([data[0]] + rest)[1..] == rest;
      } else {
        assert Delete(data, id) == rest;
        if rest != [] {
          assert rest[0] in rest;
          assert rest[0] != data[0];
        }
      }
    }
  }

  /** Deleting distributes over concatenation, so any split of the list is respected. */
  lemma {:induction false} DeleteAppend(a: seq<Workout>, b: seq<Workout>, id: int)
    ensures Delete(a + b, id) == Delete(a, id) + Delete(b, id)
  {
    if a != [] {
      DeleteAppend(a[1..], b, id);
      assert (a + b)[1..] == a[1..] + b;
      assert (a + b)[0] == a[0];
    } else {
      assert a + b == b;
    }
  }

  /** Deleting an id that no workout carries leaves the list unchanged. */
  lemma {:induction false} DeleteAbsent(data: seq<Workout>, id: int)
    requires forall w :: w in data ==> w.id != id
    ensures Delete(data, id) == data
  {
    if data != [] {
      assert data[0] in data;
      assert forall w :: w in data[1..] ==> w in data;
      DeleteAbsent(data[1..], id);
      assert data == [data[0]] + data[1..];
    }
  }

  /** Deleting the same id twice is the same as deleting it once. */
  lemma {:induction false} DeleteIdempotent(data: seq<Workout>, id: int)
    ensures Delete(Delete(data, id), id) == Delete(data, id)
  {
    DeleteAbsent(Delete(data, id), id);
  }

  /** No two workouts share an id. */
  predicate UniqueIds(data: seq<Workout>)
  {
    forall i, j :: 0 <= i < j < |data| ==> data[i].id != data[j].id
  }

  /** The tail of a list with unique ids has unique ids, none of them the head's. */
  lemma UniqueTail(data: seq<Workout>)
    requires UniqueIds(data) && data != []
    ensures UniqueIds(data[1..])
    ensures forall w :: w in data[1..] ==> w.id != data[0].id
  {
    var rest := data[1..];
    forall i, j | 0 <= i < j < |rest| ensures rest[i].id != rest[j].id {
      assert rest[i] == data[i + 1] && rest[j] == data[j + 1];
    }
    forall w | w in rest ensures w.id != data[0].id {
      var k :| 0 <= k < |rest| && rest[k] == w;
      assert data[k + 1] == w;
    }
  }

  /** Prepending a workout whose id is new keeps the ids unique. */
  lemma UniqueCons(w: Workout, r: seq<Workout>)
    requires UniqueIds(r)
    requires forall v :: v in r ==> v.id != w.id
    ensures UniqueIds([w] + r)
  {
    var c := [w] + r;
    forall i, j | 0 <= i < j < |c| ensures c[i].id != c[j].id {
      assert c[j] == r[j - 1] && r[j - 1] in r;
      if i > 0 {
        assert c[i] == r[i - 1];
      }
    }
  }

  /** Deleting keeps ids unique. */
  lemma {:induction false} DeleteKeepsUniqueIds(data: seq<Workout>, id: int)
    requires UniqueIds(data)
    ensures UniqueIds(Delete(data, id))
  {
    if data != [] {
      UniqueTail(data);
      DeleteKeepsUniqueIds(data[1..], id);
      if data[0].id != id {
        UniqueCons(data[0], Delete(data[1..], id));
      }
    }
  }

  /** With unique ids, deleting a present id removes exactly one workout. */
  lemma {:induction false} DeleteUniqueRemovesOne(data: seq<Workout>, id: int)
    requires UniqueIds(data)
    requires exists w :: w in data && w.id == id
    ensures |Delete(data, id)| == |data| - 1
  {
    UniqueTail(data);
    if data[0].id == id {
      DeleteAbsent(data[1..], id);
    } else {
      var w :| w in data && w.id == id;
      assert data == [data[0]] + data[1..];
      assert w in data[1..];
      DeleteUniqueRemovesOne(data[1..], id);
    }
  }

  // -------------------------------------------------------------------------
  // Icon lookup: SF Symbol names used by the bundled data to Ionicons names

  const DEFAULT_ICON: string := "fitness-outline"

  const ICON_MAP: map<string, string> := map[
    "figure.run" := "fitness-outline",
    "figure.outdoor.cycle" := "bicycle-outline",
    "figure.pool.swim" := "water-outline",
    "figure.mind.and.body" := "body-outline",
    "figure.strengthtraining.traditional" := "barbell-outline",
    "figure.highintensity.intervaltraining" := "stopwatch-outline",
    "figure.walk" := "walk-outline",
    "figure.dance" := "musical-notes-outline",
    "figure.arms.open" := "body-outline",
    "figure.step.training" := "trending-up-outline",
    "brain.head.profile" := "brain-outline",
    "figure.pilates" := "body-outline",
    "sailboat.fill" := "boat-outline",
    "figure.jumprope" := "pulse-outline",
    "figure.strengthtraining.functional" := "barbell-outline",
    "mountain.2.fill" := "trending-up-outline",
    "figure.martial.arts" := "body-outline",
    "figure.barre" := "body-outline",
    "figure.play" := "play-outline"
  ]

  /** Every glyph the lookup can produce. */
  const ICON_GLYPHS: set<string> := {
    "fitness-outline", "bicycle-outline", "water-outline", "body-outline",
    "barbell-outline", "stopwatch-outline", "walk-outline", "musical-notes-outline",
    "trending-up-outline", "brain-outline", "boat-outline", "pulse-outline", "play-outline"
  }

  /**
   `iconMap[originalName] || "fitness-outline"`: the mapped name, falling back
   to the default when the key is missing or maps to an empty (falsy) name.
   */
  function IconName(originalName: string): (r: string)
    ensures originalName in ICON_MAP ==> r == ICON_MAP[originalName]
    ensures originalName !in ICON_MAP ==> r == DEFAULT_ICON
    ensures r in ICON_GLYPHS
  {
    if originalName in ICON_MAP && ICON_MAP[originalName] != "" then ICON_MAP[originalName]
    else DEFAULT_ICON
  }

  // -------------------------------------------------------------------------
  // The swipeable row, as a pure state machine

  /** The gesture and animation events a browse-mode row receives. */
  datatype RowEvent =
    | PanActive(translationX: real)   // `onActive` of the pan gesture
    | PanEnd(translationX: real)      // `onEnd` of the pan gesture
    | TrashPress                     // press on the revealed trash button: `confirmDelete`
    | CollapseFinished               // completion callback of the row-height collapse

  /**
   The row's horizontal offset and the number of collapse-completion callbacks
   still to come (one per trash press; an interrupted animation still calls its
   callback, and the callback does not look at whether it finished).
   */
  datatype RowState = RowState(translateX: real, pendingCollapses: nat)

  /** A window width: a non-negative number of pixels. */
  type Width = w: real | w >= 0.0

  const RESTING: RowState := RowState(0.0, 0)

  /** Where `onEnd` sends the row: open past the threshold, closed otherwise. */
  function SnapTarget(translationX: real): (x: real)
    ensures x == -DELETE_BUTTON_WIDTH || x == 0.0
    ensures x == -DELETE_BUTTON_WIDTH <==> translationX < -THRESHOLD
  {
    if translationX < -THRESHOLD then -DELETE_BUTTON_WIDTH else 0.0
  }

  /** Opacity of the delete button: opaque once the row has travelled past the threshold. */
  function DeleteOpacity(translateX: real): (o: real)
    ensures o == 1.0 || o == 0.5
    ensures o == 1.0 <==> translateX < -THRESHOLD
  {
    if translateX < -THRESHOLD then 1.0 else 0.5
  }

  /** A row snapped by `onEnd` shows an opaque button exactly when it snapped open. */
  lemma SnappedOpacity(translationX: real)
    ensures DeleteOpacity(SnapTarget(translationX)) == 1.0 <==> translationX < -THRESHOLD
  {
  }

  /** One transition of the row. */
  function Step(s: RowState, e: RowEvent, screenWidth: Width): (r: RowState)
    ensures s.translateX <= 0.0 ==> r.translateX <= 0.0
    ensures e.PanActive? || e.PanEnd? ==> r.pendingCollapses == s.pendingCollapses
  {
    match e
    case PanActive(t) => if t < 0.0 then s.(translateX := t) else s
    case PanEnd(t) => s.(translateX := SnapTarget(t))
    case TrashPress => RowState(-(screenWidth as real), s.pendingCollapses + 1)
    case CollapseFinished =>
      if s.pendingCollapses > 0 then s.(pendingCollapses := s.pendingCollapses - 1) else s
  }

  /** Whether the event makes the row call `onDelete`. */
  predicate Fires(s: RowState, e: RowEvent)
    ensures Fires(s, e) <==> e == CollapseFinished && Step(s, e, 0.0).pendingCollapses < s.pendingCollapses
  {
    e.CollapseFinished? && s.pendingCollapses > 0
  }

  /** The row's state after a sequence of events. */
  function Run(s: RowState, events: seq<RowEvent>, screenWidth: Width): RowState
    decreases |events|
  {
    if events == [] then s else Run(Step(s, events[0], screenWidth), events[1..], screenWidth)
  }

  /** How many times the row calls `onDelete` along a sequence of events. */
  function DeleteCalls(s: RowState, events: seq<RowEvent>, screenWidth: Width): nat
    decreases |events|
  {
    if events == [] then 0
    else (if Fires(s, events[0]) then 1 else 0)
         + DeleteCalls(Step(s, events[0], screenWidth), events[1..], screenWidth)
  }

  /** The number of trash presses in a sequence of events. */
  function Presses(events: seq<RowEvent>): nat
  {
    if events == [] then 0 else (if events[0].TrashPress? then 1 else 0) + Presses(events[1..])
  }

  /** Running events one block after another. */
  lemma {:induction false} RunAppend(s: RowState, a: seq<RowEvent>, b: seq<RowEvent>, screenWidth: Width)
    ensures Run(s, a + b, screenWidth) == Run(Run(s, a, screenWidth), b, screenWidth)
    ensures DeleteCalls(s, a + b, screenWidth)
            == DeleteCalls(s, a, screenWidth) + DeleteCalls(Run(s, a, screenWidth), b, screenWidth)
    decreases |a|
  {
    if a == [] {
      assert a + b == b;
    } else {
      assert (a + b)[0] == a[0] && (a + b)[1..] == a[1..] + b;
      RunAppend(Step(s, a[0], screenWidth), a[1..], b, screenWidth);
    }
  }

  /** From a non-positive offset, no sequence of events makes the offset positive. */
  lemma {:induction false} RunNeverPositive(s: RowState, events: seq<RowEvent>, screenWidth: Width)
    requires s.translateX <= 0.0
    ensures Run(s, events, screenWidth).translateX <= 0.0
    decreases |events|
  {
    if events != [] {
      RunNeverPositive(Step(s, events[0], screenWidth), events[1..], screenWidth);
    }
  }

  /** Every trash press yields exactly one `onDelete` call, eventually, and nothing else yields one. */
  lemma {:induction false} DeleteCallsAccounting(s: RowState, events: seq<RowEvent>, screenWidth: Width)
    ensures DeleteCalls(s, events, screenWidth) + Run(s, events, screenWidth).pendingCollapses
            == s.pendingCollapses + Presses(events)
    decreases |events|
  {
    if events != [] {
      DeleteCallsAccounting(Step(s, events[0], screenWidth), events[1..], screenWidth);
    }
  }

  /** Only pan gestures. */
  predicate PanOnly(events: seq<RowEvent>)
  {
    forall i :: 0 <= i < |events| ==> events[i].PanActive? || events[i].PanEnd?
  }

  /** A swipe alone, however far, never calls `onDelete`. */
  lemma {:induction false} SwipeNeverDeletes(s: RowState, events: seq<RowEvent>, screenWidth: Width)
    requires s.pendingCollapses == 0
    requires PanOnly(events)
    ensures DeleteCalls(s, events, screenWidth) == 0
    ensures Run(s, events, screenWidth).pendingCollapses == 0
    decreases |events|
  {
    if events != [] {
      assert PanOnly(events[1..]) by {
        forall i | 0 <= i < |events[1..]| ensures events[1..][i].PanActive? || events[1..][i].PanEnd? {
          assert events[1..][i] == events[i + 1];
        }
      }
      SwipeNeverDeletes(Step(s, events[0], screenWidth), events[1..], screenWidth);
    }
  }

  /** A swipe released short of the threshold leaves the row resting, with nothing pending. */
  lemma SwipeCancelled(s: RowState, swipe: seq<RowEvent>, release: real, screenWidth: Width)
    requires s.pendingCollapses == 0
    requires PanOnly(swipe)
    requires release >= -THRESHOLD
    ensures Run(s, swipe + [PanEnd(release)], screenWidth) == RESTING
    ensures DeleteCalls(s, swipe + [PanEnd(release)], screenWidth) == 0
  {
    RunAppend(s, swipe, [PanEnd(release)], screenWidth);
    SwipeNeverDeletes(s, swipe, screenWidth);
  }

  /** A swipe released past the threshold leaves the button revealed, opaque, with nothing pending. */
  lemma SwipeRevealed(s: RowState, swipe: seq<RowEvent>, release: real, screenWidth: Width)
    requires s.pendingCollapses == 0
    requires PanOnly(swipe)
    requires release < -THRESHOLD
    ensures Run(s, swipe + [PanEnd(release)], screenWidth) == RowState(-DELETE_BUTTON_WIDTH, 0)
    ensures DeleteOpacity(Run(s, swipe + [PanEnd(release)], screenWidth).translateX) == 1.0
    ensures DeleteCalls(s, swipe + [PanEnd(release)], screenWidth) == 0
  {
    RunAppend(s, swipe, [PanEnd(release)], screenWidth);
    SwipeNeverDeletes(s, swipe, screenWidth);
  }

  /** A trash press followed by the collapse completion calls `onDelete` exactly once. */
  lemma TrashThenCollapseDeletesOnce(s: RowState, screenWidth: Width)
    requires s.pendingCollapses == 0
    ensures DeleteCalls(s, [TrashPress, CollapseFinished], screenWidth) == 1
    ensures Run(s, [TrashPress, CollapseFinished], screenWidth) == RowState(-(screenWidth as real), 0)
  {
    assert [TrashPress, CollapseFinished][1..] == [CollapseFinished];
  }

  // -------------------------------------------------------------------------
  // The swipeable row component and its shared offset value

  class SwipeableRow {
    const item: Workout
    /** Window width from the layout surface, in pixels. */
    const screenWidth: Width
    /** The `translateX` shared value. */
    var translateX: real
    var pendingCollapses: nat

    function State(): RowState
      reads this
    {
      RowState(translateX, pendingCollapses)
    }

    /** The row is never dragged to the right of its resting position. */
    ghost predicate Valid()
      reads this
    {
      translateX <= 0.0
    }

    constructor (item: Workout, screenWidth: Width)
      ensures Valid()
      ensures this.item == item && this.screenWidth == screenWidth
      ensures State() == RESTING
    {
      this.item := item;
      this.screenWidth := screenWidth;
      translateX := 0.0;
      pendingCollapses := 0;
    }

    /** `onActive`: follow the finger, leftward only. */
    method OnActive(translationX: real)
      requires Valid()
      modifies this
      ensures Valid()
      ensures State() == Step(old(State()), PanActive(translationX), screenWidth)
      ensures translationX < 0.0 ==> translateX == translationX
      ensures translationX >= 0.0 ==> translateX == old(translateX)
    {
      if translationX < 0.0 {
        translateX := translationX;
      }
    }

    /** `onEnd`: snap open or closed. */
    method OnEnd(translationX: real)
      requires Valid()
      modifies this
      ensures Valid()
      ensures State() == Step(old(State()), PanEnd(translationX), screenWidth)
    {
      translateX := SnapTarget(translationX);
    }

    /** `confirmDelete`: slide off screen and start the collapse. */
    method ConfirmDelete()
      requires Valid()
      modifies this
      ensures Valid()
      ensures State() == Step(old(State()), TrashPress, screenWidth)
    {
      translateX := -(screenWidth as real);
      pendingCollapses := pendingCollapses + 1;
    }

    /** The collapse completion callback; `callOnDelete` says whether it runs `onDelete`. */
    method OnCollapseFinished() returns (callOnDelete: bool)
      requires Valid()
      modifies this
      ensures Valid()
      ensures State() == Step(old(State()), CollapseFinished, screenWidth)
      ensures callOnDelete == Fires(old(State()), CollapseFinished)
    {
      callOnDelete := pendingCollapses > 0;
      if callOnDelete {
        pendingCollapses := pendingCollapses - 1;
      }
    }

    /** Opacity of this row's delete button. */
    function DeleteButtonOpacity(): (o: real)
      reads this
      ensures o == 1.0 <==> translateX < -THRESHOLD
    {
      DeleteOpacity(translateX)
    }
  }

  // -------------------------------------------------------------------------
  // The screen

  /** Which row `renderItem` draws. */
  datatype RowKind = ReorderRow | SwipeRow

  /** Edit mode draws drag-to-reorder rows with a remove icon; browse mode draws swipeable rows. */
  function RowKindFor(isEditMode: bool): (k: RowKind)
    ensures k == ReorderRow <==> isEditMode
  {
    if isEditMode then ReorderRow else SwipeRow
  }

  class WorkoutListScreen {
    var data: seq<Workout>
    var isEditMode: bool

    /** Seeded once from the bundled workouts, in browse mode. */
    constructor (workouts: seq<Workout>)
      ensures data == workouts
      ensures !isEditMode
    {
      data := workouts;
      isEditMode := false;
    }

    method HandleDelete(id: int)
      modifies this
      ensures data == Delete(old(data), id)
      ensures isEditMode == old(isEditMode)
    {
      data := Delete(data, id);
    }

    method ToggleEditMode()
      modifies this
      ensures isEditMode == !old(isEditMode)
      ensures data == old(data)
    {
      isEditMode := !isEditMode;
    }

    /** `onDragEnd` adopts the order the drag-and-drop list hands back. */
    method OnDragEnd(reordered: seq<Workout>)
      modifies this
      ensures data == reordered
      ensures isEditMode == old(isEditMode)
    {
      data := reordered;
    }

    /** The edit-mode remove icon deletes at once; it is drawn only in edit mode. */
    method RemoveIconPressed(id: int)
      requires RowKindFor(isEditMode) == ReorderRow
      modifies this
      ensures data == Delete(old(data), id)
      ensures isEditMode
    {
      HandleDelete(id);
    }

    /** A browse-mode row's collapse completes; its `onDelete` is `handleDelete(item.id)`. */
    method RowCollapseFinished(row: SwipeableRow) returns (removed: bool)
      requires row.Valid()
      modifies this, row
      ensures row.Valid()
      ensures row.State() == Step(old(row.State()), CollapseFinished, row.screenWidth)
      ensures removed == Fires(old(row.State()), CollapseFinished)
      ensures data == if removed then Delete(old(data), row.item.id) else old(data)
      ensures isEditMode == old(isEditMode)
    {
      removed := row.OnCollapseFinished();
      if removed {
        HandleDelete(row.item.id);
      }
    }
  }

  /** Two toggles restore the mode and leave the list alone. */
  method ToggleTwice(screen: WorkoutListScreen)
    modifies screen
    ensures screen.isEditMode == old(screen.isEditMode)
    ensures screen.data == old(screen.data)
  {
    screen.ToggleEditMode();
    screen.ToggleEditMode();
  }

  /** Swiping a row, whatever the distances, leaves the list as it was. */
  method SwipeLeavesList(screen: WorkoutListScreen, row: SwipeableRow, drag: real, release: real)
    requires row.Valid()
    modifies row
    ensures row.Valid()
    ensures screen.data == old(screen.data)
    ensures row.pendingCollapses == old(row.pendingCollapses)
    ensures row.translateX == SnapTarget(release)
    ensures DeleteOpacity(row.translateX) == 1.0 <==> release < -THRESHOLD
  {
    row.OnActive(drag);
    row.OnEnd(release);
  }
}
