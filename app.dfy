/**
 * The client's task pool and timeline (App.tsx): two lists of tasks, the pool
 * shown in the task list and the copies placed on the timeline, rewritten by
 * one handler per user gesture.  Each handler is one atomic step on both lists.
 */
module App {
  import opened Wrappers
  import opened TimeText

  datatype Priority = High | Medium | Low

  /** A client task; `isScheduled`, `scheduledHour`, `scheduledDuration` belong to the timeline. */
  datatype Task = Task(
    id: int,
    title: string,
    priority: Priority,
    completed: bool,
    scheduledTime: Option<string>,
    isScheduled: Option<bool>,
    scheduledHour: Option<int>,
    scheduledDuration: Option<int>)

  /** The per-entry rewrites the handlers apply with `map`. */
  datatype Edit =
    | Toggle                 // `{ ...t, completed: !t.completed }`
    | SetTime(time: string)  // `{ ...t, scheduledTime: time }`
    | MarkScheduled(hour: int) // pool copy on drop: `isScheduled`, `scheduledHour`, `scheduledTime`
    | Retime(hour: int)      // `scheduledHour` and `scheduledTime` only

  function Apply(e: Edit, t: Task): (r: Task)
    ensures r.id == t.id && r.title == t.title && r.priority == t.priority
  {
    match e
    case Toggle => t.(completed := !t.completed)
    case SetTime(time) => t.(scheduledTime := Some(time))
    case MarkScheduled(hour) =>
      t.(isScheduled := Some(true), scheduledHour := Some(hour), scheduledTime := Some(HourLabel(hour)))
    case Retime(hour) => t.(scheduledHour := Some(hour), scheduledTime := Some(HourLabel(hour)))
  }

  /** `prev.map(t => t.id === id ? edit(t) : t)`. */
  function MapMatching(ts: seq<Task>, id: int, e: Edit): (r: seq<Task>)
    ensures |r| == |ts|
    ensures forall i :: 0 <= i < |ts| ==> r[i] == if ts[i].id == id then Apply(e, ts[i]) else ts[i]
  {
    if ts == [] then [] else [if ts[0].id == id then Apply(e, ts[0]) else ts[0]] + MapMatching(ts[1..], id, e)
  }

  predicate HasId(ts: seq<Task>, id: int) {
    exists i :: 0 <= i < |ts| && ts[i].id == id
  }

  predicate UniqueIds(ts: seq<Task>) {
    forall i, j :: 0 <= i < j < |ts| ==> ts[i].id != ts[j].id
  }

  /** `prev.filter(t => t.id !== id)`. */
  function WithoutId(ts: seq<Task>, id: int): (r: seq<Task>)
    ensures |r| <= |ts|
    ensures forall t :: t in r <==> t in ts && t.id != id
  {
    if ts == [] then []
    else (if ts[0].id != id then [ts[0]] else []) + WithoutId(ts[1..], id)
  }

  /** Filtering out an id that is not there leaves the list as it was. */
  lemma {:induction false} WithoutAbsentId(ts: seq<Task>, id: int)
    requires !HasId(ts, id)
    ensures WithoutId(ts, id) == ts
  {
    if ts != [] {
      assert forall i :: 0 < i < |ts| ==> ts[1..][i - 1] == ts[i];
      WithoutAbsentId(ts[1..], id);
      assert ts == [ts[0]] + ts[1..];
    }
  }

  /** The filter keeps the order of what it keeps: it distributes over concatenation. */
  lemma {:induction false} WithoutIdAppend(a: seq<Task>, b: seq<Task>, id: int)
    ensures WithoutId(a + b, id) == WithoutId(a, id) + WithoutId(b, id)
  {
    if a != [] {
      assert (a + b)[0] == a[0] && (a + b)[1..] == a[1..] + b;
      WithoutIdAppend(a[1..], b, id);
    } else {
      assert a + b == b;
    }
  }

  lemma {:induction false} WithoutIdKeepsUnique(ts: seq<Task>, id: int)
    requires UniqueIds(ts)
    ensures UniqueIds(WithoutId(ts, id))
  {
    if ts != [] {
      var rest := WithoutId(ts[1..], id);
      WithoutIdKeepsUnique(ts[1..], id);
      if ts[0].id != id {
        var r := [ts[0]] + rest;
        forall i, j | 0 <= i < j < |r| ensures r[i].id != r[j].id {
          if i == 0 {
            assert r[j] == rest[j - 1] && rest[j - 1] in ts[1..];
          } else {
            assert r[i] == rest[i - 1] && r[j] == rest[j - 1];
          }
        }
      }
    }
  }

  /** `tasks.find(t => t.id === id)`: the first entry with that id. */
  function FindById(ts: seq<Task>, id: int): (r: Option<Task>)
    ensures r.None? <==> !HasId(ts, id)
    ensures r.Some? ==> exists i :: 0 <= i < |ts| && ts[i] == r.value && r.value.id == id
                          && forall j :: 0 <= j < i ==> ts[j].id != id
  {
    if ts == [] then None
    else if ts[0].id == id then Some(ts[0])
    else
      var r := FindById(ts[1..], id);
      assert forall i :: 0 < i < |ts| ==> ts[1..][i - 1] == ts[i];
      assert r.Some? ==> exists i :: 0 < i < |ts| && ts[i] == r.value && forall j :: 0 <= j < i ==> ts[j].id != id;
      r
  }

  /** `addTask`'s new entry: not completed, no scheduling fields. */
  function NewTask(id: int, title: string, priority: Priority): Task {
    Task(id, title, priority, false, None, None, None, None)
  }

  /** `scheduledTask` of `handleDropToTimeline`: a one-hour block at `hour`. */
  function Placed(t: Task, hour: int): Task {
    t.(isScheduled := Some(true), scheduledHour := Some(hour), scheduledDuration := Some(1),
       scheduledTime := Some(HourLabel(hour)))
  }

  /** `unscheduledTask` of `handleDropToTaskList`: the timeline fields stripped, the time cleared. */
  function Unscheduled(t: Task): Task {
    t.(isScheduled := None, scheduledHour := None, scheduledDuration := None, scheduledTime := None)
  }

  /** The new timeline after a drop: earlier copies filtered out, the placed copy appended. */
  function DroppedOnTimeline(timeline: seq<Task>, t: Task, hour: int): seq<Task> {
    WithoutId(timeline, t.id) + [Placed(t, hour)]
  }

  /** The new pool after dragging a card back: prepended only if its id is not there yet. */
  function ReturnedToPool(pool: seq<Task>, t: Task): seq<Task> {
    if HasId(pool, t.id) then pool else [Unscheduled(t)] + pool
  }

  lemma MapMatchingKeepsUnique(ts: seq<Task>, id: int, e: Edit)
    requires UniqueIds(ts)
    ensures UniqueIds(MapMatching(ts, id, e))
  {
  }

  lemma DroppedKeepsUnique(timeline: seq<Task>, t: Task, hour: int)
    requires UniqueIds(timeline)
    ensures UniqueIds(DroppedOnTimeline(timeline, t, hour))
  {
    var w := WithoutId(timeline, t.id);
    WithoutIdKeepsUnique(timeline, t.id);
    var r := DroppedOnTimeline(timeline, t, hour);
    forall i, j | 0 <= i < j < |r| ensures r[i].id != r[j].id {
      if j == |r| - 1 {
        assert r[i] == w[i] && r[i] in w;
      } else {
        assert r[i] == w[i] && r[j] == w[j];
      }
    }
  }

  /** The page state of App.tsx: the `tasks` and `timelineTasks` values of `useState`. */
  class TaskBoard {
    var tasks: seq<Task>
    var timelineTasks: seq<Task>

    /** Every handler keeps the timeline free of duplicate ids. */
    ghost predicate Valid()
      reads this
    {
      UniqueIds(timelineTasks)
    }

    constructor ()
      ensures Valid() && tasks == [] && timelineTasks == []
    {
      tasks := [];
      timelineTasks := [];
    }

    /** `toggleComplete`: flips `completed` of the entries with `id` in both lists. */
    method ToggleComplete(id: int)
      requires Valid()
      modifies this
      ensures Valid()
      ensures tasks == MapMatching(old(tasks), id, Toggle)
      ensures timelineTasks == MapMatching(old(timelineTasks), id, Toggle)
    {
      MapMatchingKeepsUnique(timelineTasks, id, Toggle);
      tasks := MapMatching(tasks, id, Toggle);
      timelineTasks := MapMatching(timelineTasks, id, Toggle);
    }

    /** `addTask`, with the `Date.now()` id passed in: prepends a fresh, unscheduled, open task. */
    method AddTask(id: int, title: string, priority: Priority)
      requires Valid()
      modifies this
      ensures Valid()
      ensures tasks == [NewTask(id, title, priority)] + old(tasks)
      ensures timelineTasks == old(timelineTasks)
    {
      tasks := [NewTask(id, title, priority)] + tasks;
    }

    /** `scheduleTask`: sets `scheduledTime` of the pool entries with `id`. */
    method ScheduleTask(id: int, time: string)
      requires Valid()
      modifies this
      ensures Valid()
      ensures tasks == MapMatching(old(tasks), id, SetTime(time))
      ensures timelineTasks == old(timelineTasks)
    {
      tasks := MapMatching(tasks, id, SetTime(time));
    }

    /** `deleteTask`: removes `id` from the pool only; a timeline copy stays. */
    method DeleteTask(id: int)
      requires Valid()
      modifies this
      ensures Valid()
      ensures tasks == WithoutId(old(tasks), id)
      ensures timelineTasks == old(timelineTasks)
    {
      tasks := WithoutId(tasks, id);
    }

    /** `deleteFromTimeline`: removes `id` from the timeline only; the pool copy stays. */
    method DeleteFromTimeline(id: int)
      requires Valid()
      modifies this
      ensures Valid()
      ensures timelineTasks == WithoutId(old(timelineTasks), id)
      ensures tasks == old(tasks)
    {
      WithoutIdKeepsUnique(timelineTasks, id);
      timelineTasks := WithoutId(timelineTasks, id);
    }

    /**
     * `handleDropToTimeline`: an id missing from the pool changes nothing;
     * otherwise the first pool entry with the id is placed at `hour` as the last
     * timeline entry, replacing earlier copies, and the pool entries with the id
     * are marked scheduled (their `scheduledDuration` is left as it was).
     */
    method HandleDropToTimeline(taskId: int, hour: int)
      requires Valid()
      modifies this
      ensures Valid()
      ensures FindById(old(tasks), taskId).None? ==> tasks == old(tasks) && timelineTasks == old(timelineTasks)
      ensures FindById(old(tasks), taskId).Some? ==>
        && timelineTasks == DroppedOnTimeline(old(timelineTasks), FindById(old(tasks), taskId).value, hour)
        && tasks == MapMatching(old(tasks), taskId, MarkScheduled(hour))
    {
      var task := FindById(tasks, taskId);
      if task.None? {
        return;
      }
      DroppedKeepsUnique(timelineTasks, task.value, hour);
      timelineTasks := DroppedOnTimeline(timelineTasks, task.value, hour);
      tasks := MapMatching(tasks, taskId, MarkScheduled(hour));
    }

    /** `handleUpdateTaskTime`: moves the entries with `taskId` in both lists to `hour`. */
    method HandleUpdateTaskTime(taskId: int, hour: int)
      requires Valid()
      modifies this
      ensures Valid()
      ensures timelineTasks == MapMatching(old(timelineTasks), taskId, Retime(hour))
      ensures tasks == MapMatching(old(tasks), taskId, Retime(hour))
    {
      MapMatchingKeepsUnique(timelineTasks, taskId, Retime(hour));
      timelineTasks := MapMatching(timelineTasks, taskId, Retime(hour));
      tasks := MapMatching(tasks, taskId, Retime(hour));
    }

    /**
     * `handleDropToTaskList`: an id not on the timeline changes nothing;
     * otherwise the card leaves the timeline, and a stripped copy goes to the
     * front of the pool unless the pool already has the id (that entry, still
     * marked scheduled, is left as it is).
     */
    method HandleDropToTaskList(taskId: int)
      requires Valid()
      modifies this
      ensures Valid()
      ensures FindById(old(timelineTasks), taskId).None? ==> tasks == old(tasks) && timelineTasks == old(timelineTasks)
      ensures FindById(old(timelineTasks), taskId).Some? ==>
        && tasks == ReturnedToPool(old(tasks), FindById(old(timelineTasks), taskId).value)
        && timelineTasks == WithoutId(old(timelineTasks), taskId)
    {
      var timelineTask := FindById(timelineTasks, taskId);
      if timelineTask.None? {
        return;
      }
      WithoutIdKeepsUnique(timelineTasks, taskId);
      tasks := ReturnedToPool(tasks, timelineTask.value);
      timelineTasks := WithoutId(timelineTasks, taskId);
    }
  }
}

/** What the pool and timeline handlers promise, stated on the list rewrites they apply. */
module AppProperties {
  import opened Wrappers
  import opened TimeText
  import opened App

  /** Toggling the same id twice restores both lists. */
  lemma ToggleTwiceIsIdentity(ts: seq<Task>, id: int)
    ensures MapMatching(MapMatching(ts, id, Toggle), id, Toggle) == ts
  {
    var r := MapMatching(MapMatching(ts, id, Toggle), id, Toggle);
    assert forall i :: 0 <= i < |ts| ==> r[i] == ts[i];
  }

  /** A `map` over an id that no entry has changes nothing. */
  lemma MapMatchingAbsentId(ts: seq<Task>, id: int, e: Edit)
    requires !HasId(ts, id)
    ensures MapMatching(ts, id, e) == ts
  {
    var r := MapMatching(ts, id, e);
    assert forall i :: 0 <= i < |ts| ==> r[i] == ts[i];
  }

  /**
   * After a drop the timeline holds exactly one entry with the task's id: the
   * last one, placed for one hour at `hour` with time `HH:00`; the entries
   * before it are the old timeline without that id, in their old order.
   */
  lemma DropPlacesOneCopyLast(timeline: seq<Task>, t: Task, hour: int)
    ensures var r := DroppedOnTimeline(timeline, t, hour);
      && |r| >= 1
      && r[..|r| - 1] == WithoutId(timeline, t.id)
      && r[|r| - 1].id == t.id
      && r[|r| - 1].isScheduled == Some(true)
      && r[|r| - 1].scheduledHour == Some(hour)
      && r[|r| - 1].scheduledDuration == Some(1)
      && r[|r| - 1].scheduledTime == Some(HourLabel(hour))
      && r[|r| - 1].completed == t.completed && r[|r| - 1].title == t.title
      && forall i :: 0 <= i < |r| - 1 ==> r[i].id != t.id
  {
    var w := WithoutId(timeline, t.id);
    var r := DroppedOnTimeline(timeline, t, hour);
    assert r[..|r| - 1] == w;
    forall i | 0 <= i < |r| - 1 ensures r[i].id != t.id {
      assert r[i] == w[i] && w[i] in w;
    }
  }

  /** Dropping task 5 on 14:00 gives it `scheduledHour = 14` and time "14:00", once. */
  lemma DropTaskFiveAtFourteen(timeline: seq<Task>, t: Task)
    requires t.id == 5
    ensures var r := DroppedOnTimeline(timeline, t, 14);
      && r[|r| - 1].scheduledHour == Some(14)
      && r[|r| - 1].scheduledTime == Some("14:00")
      && r[|r| - 1].isScheduled == Some(true)
      && forall i :: 0 <= i < |r| - 1 ==> r[i].id != 5
  {
    DropPlacesOneCopyLast(timeline, t, 14);
    assert HourLabel(14) == "14:00";
  }

  /** The pool copy marked on a drop keeps its old `scheduledDuration` and everything but the three fields. */
  lemma PoolMarkLeavesDuration(ts: seq<Task>, id: int, hour: int, i: nat)
    requires i < |ts|
    ensures var r := MapMatching(ts, id, MarkScheduled(hour));
      && r[i].scheduledDuration == ts[i].scheduledDuration
      && r[i].completed == ts[i].completed
      && (ts[i].id == id ==>
            r[i].isScheduled == Some(true) && r[i].scheduledHour == Some(hour)
            && r[i].scheduledTime == Some(HourLabel(hour)))
      && (ts[i].id != id ==> r[i] == ts[i])
  {
  }

  /**
   * Moving a card changes only `scheduledHour` and `scheduledTime` of the
   * entries with its id; every other field and entry stays.
   */
  lemma RetimeChangesOnlyTime(ts: seq<Task>, id: int, hour: int, i: nat)
    requires i < |ts|
    ensures var r := MapMatching(ts, id, Retime(hour));
      && |r| == |ts|
      && (ts[i].id == id ==>
            && r[i].scheduledHour == Some(hour) && r[i].scheduledTime == Some(HourLabel(hour))
            && r[i].(scheduledHour := ts[i].scheduledHour, scheduledTime := ts[i].scheduledTime) == ts[i])
      && (ts[i].id != id ==> r[i] == ts[i])
  {
  }

  /**
   * A card dragged back to a pool without its id comes first, with all four
   * scheduling fields cleared and the rest of the task as it was; the old pool
   * follows unchanged.
   */
  lemma ReturnToPoolPrependsStripped(pool: seq<Task>, t: Task)
    requires !HasId(pool, t.id)
    ensures var r := ReturnedToPool(pool, t);
      && |r| == |pool| + 1
      && r[1..] == pool
      && r[0].id == t.id && r[0].title == t.title && r[0].priority == t.priority
      && r[0].completed == t.completed
      && r[0].isScheduled.None? && r[0].scheduledHour.None?
      && r[0].scheduledDuration.None? && r[0].scheduledTime.None?
  {
  }

  /** A pool entry with the card's id is kept as it is, still marked scheduled if it was. */
  lemma ReturnToPoolKeepsStaleEntry(pool: seq<Task>, t: Task, k: nat)
    requires k < |pool| && pool[k].id == t.id
    ensures ReturnedToPool(pool, t) == pool
  {
  }

  /**
   * Dropping a pool task on the timeline and dragging it back leaves its pool
   * entry in place and still flagged as scheduled: the card is not re-added.
   */
  lemma DropAndReturnLeavesStaleFlag(pool: seq<Task>, id: int, hour: int, card: Task)
    requires HasId(pool, id) && card.id == id
    ensures var pool' := MapMatching(pool, id, MarkScheduled(hour));
      && ReturnedToPool(pool', card) == pool'
      && exists i :: 0 <= i < |pool'| && pool'[i].id == id && pool'[i].isScheduled == Some(true)
  {
    var pool' := MapMatching(pool, id, MarkScheduled(hour));
    var i :| 0 <= i < |pool| && pool[i].id == id;
    assert pool'[i].id == id && pool'[i].isScheduled == Some(true);
  }
}
