/**
 * The timeline panel (components/Timeline.tsx): the 24 hour rows starting at
 * 06:00, the pointer-to-row snapping of a dragged card, where a card is drawn,
 * the drag state kept between mouse-down and mouse-up, and the routing of a
 * drop on a row to the page's handlers.  Pixel positions are exact reals.
 */
module Timeline {
  import opened Wrappers
  import opened TimeText
  import opened App

  /** Rendering constants of the handlers: row height and the offset of the first row. */
  const SlotHeight: int := 96
  const SlotStartY: int := 12
  const RowCount: int := 24
  /** The first row shows 06:00: row `i` is hour `(i + 6) % 24`. */
  const FirstRowHour: int := 6

  /** The hour row `idx` shows; row indices are never negative, so `%` agrees with JavaScript's. */
  function SlotToHour(idx: int): (hour: int)
    ensures 0 <= hour < 24
  {
    (idx + FirstRowHour) % 24
  }

  /** `hour >= 6 ? hour - 6 : hour + 18`: the row a card at `hour` is drawn in. */
  function Position(hour: int): (row: int)
    ensures 0 <= hour < 24 ==> 0 <= row < RowCount
  {
    if hour >= FirstRowHour then hour - FirstRowHour else hour + (24 - FirstRowHour)
  }

  /** `hours`: the 24 row labels, `pad2((i + 6) % 24) + ":00"`. */
  function Hours(): seq<string> {
    seq(RowCount, i => HourLabel(SlotToHour(i)))
  }

  function Max(a: int, b: int): int { if a >= b then a else b }
  function Min(a: int, b: int): int { if a <= b then a else b }

  /** `Math.round`: to the nearest integer, halves upwards. */
  function Round(x: real): int {
    (x + 0.5).Floor
  }

  /** The row a pointer at `y` snaps to: `max(0, min(23, round((y - 12) / 96)))`. */
  function SnapIndex(y: real): (idx: int)
    ensures 0 <= idx <= RowCount - 1
  {
    Max(0, Min(RowCount - 1, Round((y - SlotStartY as real) / SlotHeight as real)))
  }

  /** `newHour` of `handleMouseUp`. */
  function SnapHour(y: real): (hour: int)
    ensures 0 <= hour <= 23
  {
    SlotToHour(SnapIndex(y))
  }

  /** `task.scheduledHour || 9`: absent and 0 both fall back to hour 9. */
  function CardHour(t: Task): int {
    match t.scheduledHour
    case None => 9
    case Some(h) => if h == 0 then 9 else h
  }

  /** `max(12, min(position * 96 + 12, 20 * 96))`: the card's top edge. */
  function CardTop(t: Task): (top: int)
    ensures SlotStartY <= top <= 20 * SlotHeight
  {
    Max(SlotStartY, Min(Position(CardHour(t)) * SlotHeight + SlotStartY, 20 * SlotHeight))
  }

  /** `max(80, (scheduledDuration || 1) * 96 - 24)`: the card's height. */
  function CardHeight(t: Task): (height: int)
    ensures height >= 80
  {
    var hours := match t.scheduledDuration
      case None => 1
      case Some(d) => if d == 0 then 1 else d;
    Max(80, hours * SlotHeight - 24)
  }

  /** The row hour `scheduledHour ?? 9` would give: only an absent hour falls back to 9. */
  function CardHourIntended(t: Task): int {
    t.scheduledHour.GetOr(9)
  }

  function CardTopIntended(t: Task): (top: int)
    ensures SlotStartY <= top <= 20 * SlotHeight
  {
    Max(SlotStartY, Min(Position(CardHourIntended(t)) * SlotHeight + SlotStartY, 20 * SlotHeight))
  }

  /** What `JSON.parse` of the drag data gives: unparseable, or the `type` and `id` read from it. */
  datatype DropPayload = Unparseable | Parsed(kind: Option<string>, id: int)

  /**
   * The drag state of the panel, bound to the page whose handlers it calls
   * (`onUpdateTaskTime`, `onDropTask`).
   */
  class TimelineView {
    var draggedTask: Option<Task>
    var isDragging: bool
    var dragStartY: real
    var currentDragY: real
    const board: TaskBoard

    /** Outside a drag the state is exactly the reset state `null / false / 0 / 0`. */
    ghost predicate Valid()
      reads this, board
    {
      && board.Valid()
      && (isDragging <==> draggedTask.Some?)
      && (!isDragging ==> dragStartY == 0.0 && currentDragY == 0.0)
    }

    ghost predicate Idle()
      reads this
    {
      draggedTask.None? && !isDragging && dragStartY == 0.0 && currentDragY == 0.0
    }

    constructor (board: TaskBoard)
      requires board.Valid()
      ensures Valid() && Idle() && this.board == board
    {
      this.board := board;
      draggedTask := None;
      isDragging := false;
      dragStartY := 0.0;
      currentDragY := 0.0;
    }

    /** `translateY(currentDragY - dragStartY)` of the card being dragged. */
    function DragOffset(): real
      reads this
    {
      currentDragY - dragStartY
    }

    /** `handleMouseDown` on a card, with the pointer at `y` in timeline coordinates. */
    method MouseDown(task: Task, y: real)
      requires Valid()
      modifies this
      ensures Valid()
      ensures draggedTask == Some(task) && isDragging
      ensures dragStartY == y && currentDragY == y && DragOffset() == 0.0
    {
      draggedTask := Some(task);
      isDragging := true;
      dragStartY := y;
      currentDragY := y;
    }

    /** `handleMouseMove`: follows the pointer during a drag, and does nothing otherwise. */
    method MouseMove(y: real)
      requires Valid()
      modifies this
      ensures Valid()
      ensures draggedTask == old(draggedTask) && isDragging == old(isDragging) && dragStartY == old(dragStartY)
      ensures currentDragY == if old(isDragging) then y else old(currentDragY)
    {
      if !isDragging || draggedTask.None? {
        return;
      }
      currentDragY := y;
    }

    /**
     * `handleMouseUp`: outside a drag nothing happens; otherwise the card is
     * moved to the snapped hour when that differs from its `scheduledHour`, and
     * the drag state is reset.
     */
    method MouseUp(y: real)
      requires Valid()
      modifies this, board
      ensures Valid() && Idle()
      ensures var moved := old(isDragging) && old(draggedTask).value.scheduledHour != Some(SnapHour(y));
        && (moved ==>
              && board.tasks == MapMatching(old(board.tasks), old(draggedTask).value.id, Retime(SnapHour(y)))
              && board.timelineTasks
                   == MapMatching(old(board.timelineTasks), old(draggedTask).value.id, Retime(SnapHour(y))))
        && (!moved ==> board.tasks == old(board.tasks) && board.timelineTasks == old(board.timelineTasks))
    {
      if !isDragging || draggedTask.None? {
        return;
      }
      var newHour := SnapHour(y);
      var task := draggedTask.value;
      if Some(newHour) != task.scheduledHour && newHour >= 0 && newHour <= 23 {
        board.HandleUpdateTaskTime(task.id, newHour);
      }
      draggedTask := None;
      isDragging := false;
      dragStartY := 0.0;
      currentDragY := 0.0;
    }

    /** The card that gets the drag offset: the one whose id is the dragged task's. */
    predicate IsCardDragged(t: Task)
      reads this
    {
      draggedTask.Some? && draggedTask.value.id == t.id
    }

    /** The delete button of a card: `onDeleteFromTimeline(task.id)`. */
    method DeleteCard(id: int)
      requires Valid()
      modifies board
      ensures Valid()
      ensures board.timelineTasks == WithoutId(old(board.timelineTasks), id)
      ensures board.tasks == old(board.tasks)
    {
      board.DeleteFromTimeline(id);
    }

    /**
     * `handleDrop` of row `idx`: an unparseable payload changes nothing, a
     * `timeline-task` payload moves that card to the row's hour, and any other
     * payload drops the pool task with that id there.
     */
    method HandleDrop(idx: int, payload: DropPayload)
      requires Valid() && 0 <= idx < RowCount
      modifies board
      ensures Valid()
      ensures payload.Unparseable? ==>
        board.tasks == old(board.tasks) && board.timelineTasks == old(board.timelineTasks)
      ensures payload.Parsed? && payload.kind == Some("timeline-task") ==>
        && board.tasks == MapMatching(old(board.tasks), payload.id, Retime(SlotToHour(idx)))
        && board.timelineTasks == MapMatching(old(board.timelineTasks), payload.id, Retime(SlotToHour(idx)))
      ensures payload.Parsed? && payload.kind != Some("timeline-task") ==>
        var found := FindById(old(board.tasks), payload.id);
        && (found.None? ==> board.tasks == old(board.tasks) && board.timelineTasks == old(board.timelineTasks))
        && (found.Some? ==>
              && board.timelineTasks == DroppedOnTimeline(old(board.timelineTasks), found.value, SlotToHour(idx))
              && board.tasks == MapMatching(old(board.tasks), payload.id, MarkScheduled(SlotToHour(idx))))
    {
      var hour := SlotToHour(idx);
      match payload
      case Unparseable =>
      case Parsed(kind, id) =>
        if kind == Some("timeline-task") {
          board.HandleUpdateTaskTime(id, hour);
        } else {
          board.HandleDropToTimeline(id, hour);
        }
    }
  }
}

/** Properties of the timeline rows, the snapping and the card placement. */
module TimelineFacts {
  import opened Wrappers
  import opened TimeText
  import opened App
  import opened Timeline

  /** Every hour has a row, and the row of that hour shows that hour. */
  lemma PositionInvertsSlotToHour(hour: int)
    requires 0 <= hour < 24
    ensures 0 <= Position(hour) < RowCount && SlotToHour(Position(hour)) == hour
  {
  }

  /** Every row is the position of the hour it shows. */
  lemma SlotToHourInvertsPosition(idx: int)
    requires 0 <= idx < RowCount
    ensures 0 <= SlotToHour(idx) < 24 && Position(SlotToHour(idx)) == idx
  {
  }

  lemma HoursCount()
    ensures |Hours()| == 24
  {
  }

  lemma HoursStartAtSix()
    ensures Hours()[0] == "06:00"
  {
    assert Hours()[0] == HourLabel(6);
  }

  lemma HoursEndAtFive()
    ensures Hours()[RowCount - 1] == "05:00"
  {
    assert Hours()[23] == HourLabel(5);
  }

  /** The row `Position(h)` is labelled with hour `h`. */
  lemma HoursLabelEachHour(hour: int)
    requires 0 <= hour < 24
    ensures Hours()[Position(hour)] == HourLabel(hour)
  {
    PositionInvertsSlotToHour(hour);
  }

  /** No two rows carry the same label, so each hour 0-23 appears exactly once. */
  lemma HoursDistinct(i: int, j: int)
    requires 0 <= i < RowCount && 0 <= j < RowCount && i != j
    ensures Hours()[i] != Hours()[j]
  {
    SlotToHourInvertsPosition(i);
    SlotToHourInvertsPosition(j);
    if Hours()[i] == Hours()[j] {
      HourLabelInjective(SlotToHour(i), SlotToHour(j));
      assert false;
    }
  }

  /** `Math.round` lands within half a unit of its argument. */
  lemma RoundIsNearest(x: real)
    ensures -0.5 <= x - Round(x) as real < 0.5
  {
    var r := (x + 0.5).Floor;
    assert r as real <= x + 0.5 < r as real + 1.0;
  }

  /** The top edge of row `idx`. */
  function RowTop(idx: int): real {
    (SlotStartY + idx * SlotHeight) as real
  }

  function Abs(x: real): real { if x < 0.0 then -x else x }

  /**
   * When the pointer is over the rows (the unclamped index is a row), the
   * snapped row is the one whose top edge is closest to the pointer.
   */
  lemma SnapIsNearestRow(y: real, j: int)
    requires 0 <= Round((y - SlotStartY as real) / SlotHeight as real) < RowCount
    requires 0 <= j < RowCount
    ensures Abs(y - RowTop(SnapIndex(y))) <= Abs(y - RowTop(j))
  {
    var x := (y - SlotStartY as real) / SlotHeight as real;
    var r := Round(x);
    RoundIsNearest(x);
    assert SnapIndex(y) == r;
    assert y - RowTop(r) == 96.0 * (x - r as real);
    assert -48.0 <= y - RowTop(r) < 48.0;
    assert y - RowTop(j) == (y - RowTop(r)) + 96.0 * (r - j) as real;
  }

  /** Above the first row the pointer snaps to row 0, below the last to row 23. */
  lemma SnapClampsOutside(y: real)
    ensures y < RowTop(0) ==> SnapIndex(y) == 0
    ensures y > RowTop(RowCount - 1) ==> SnapIndex(y) == RowCount - 1
  {
    var x := (y - SlotStartY as real) / SlotHeight as real;
    RoundIsNearest(x);
    if y < RowTop(0) {
      assert x < 0.0;
    }
    if y > RowTop(RowCount - 1) {
      assert x > 23.0;
    }
  }

  /** Releasing lower never snaps to an earlier row. */
  lemma SnapMonotone(y1: real, y2: real)
    requires y1 <= y2
    ensures SnapIndex(y1) <= SnapIndex(y2)
  {
    var x1 := (y1 - SlotStartY as real) / SlotHeight as real;
    var x2 := (y2 - SlotStartY as real) / SlotHeight as real;
    assert x1 <= x2;
    assert x1 + 0.5 <= x2 + 0.5;
  }

  /** A pointer exactly on a row's top edge snaps to that row, hence to its hour. */
  lemma SnapAtRowTop(idx: int)
    requires 0 <= idx < RowCount
    ensures SnapIndex(RowTop(idx)) == idx
    ensures SnapHour(RowTop(idx)) == SlotToHour(idx)
  {
    assert (RowTop(idx) - SlotStartY as real) / SlotHeight as real == idx as real;
  }

  /** A card whose hour row starts no lower than 1920 px is drawn exactly at that row's top. */
  lemma CardTopOnItsRow(t: Task)
    requires Position(CardHour(t)) * SlotHeight + SlotStartY <= 20 * SlotHeight
    requires Position(CardHour(t)) >= 0
    ensures CardTop(t) as real == RowTop(Position(CardHour(t)))
  {
  }

  /** Cards for 02:00 to 05:00 would start below 1920 px and are pinned there. */
  lemma LateNightCardsPinned(t: Task)
    requires t.scheduledHour.Some? && 2 <= t.scheduledHour.value <= 5
    ensures CardTop(t) == 20 * SlotHeight
  {
  }

  /** A card of two or more hours is 24 px shorter than its rows; shorter cards are 80 px. */
  lemma CardHeightOfDuration(t: Task)
    ensures t.scheduledDuration.Some? && t.scheduledDuration.value >= 2 ==>
      CardHeight(t) == t.scheduledDuration.value * SlotHeight - 24
    ensures t.scheduledDuration.None? || t.scheduledDuration == Some(0) || t.scheduledDuration == Some(1) ==>
      CardHeight(t) == 80
  {
  }

  /** As written: a card scheduled at hour 0 is drawn on the 09:00 row, not the 00:00 row. */
  lemma MidnightCardDrawnAtNine(t: Task)
    requires t.scheduledHour == Some(0)
    ensures CardTop(t) as real == RowTop(Position(9))
    ensures CardTop(t) as real != RowTop(Position(0))
  {
  }

  /** With `??`, every hour whose row top is within range is drawn on its own row. */
  lemma CardTopIntendedOnItsRow(t: Task, hour: int)
    requires t.scheduledHour == Some(hour) && 0 <= hour < 24
    requires Position(hour) * SlotHeight + SlotStartY <= 20 * SlotHeight
    ensures CardTopIntended(t) as real == RowTop(Position(hour))
    ensures Hours()[Position(hour)] == HourLabel(hour)
  {
    HoursLabelEachHour(hour);
  }

  /** With `??`, a midnight card lands on the 00:00 row. */
  lemma MidnightCardIntendedAtMidnight(t: Task)
    requires t.scheduledHour == Some(0)
    ensures CardTopIntended(t) as real == RowTop(Position(0))
  {
  }
}
