/**
 * The server's timeline for one day (backend/src/services/timelineService.ts):
 * the hourly slots, the overlap check for a candidate start time, and the
 * list of free half-hour start times.  The day's tasks, fetched by
 * `TaskService.getTasksByDate`, are passed in.
 */
module TimelineService {
  import opened Wrappers
  import opened TimeText

  /** The fields of a stored task that the timeline reads. */
  datatype Task = Task(id: int, title: string, scheduledTime: Option<string>, duration: Option<int>)

  datatype TimelineSlot = TimelineSlot(time: string, tasks: seq<Task>)

  datatype TimelineData = TimelineData(date: string, slots: seq<TimelineSlot>)

  /** The slots start at 06:00 and stop before 24:00: `for (let hour = 6; hour < 24; hour++)`. */
  const FirstHour := 6
  const EndHour := 24
  const SlotCount := EndHour - FirstHour

  /** `if (task.scheduledTime)`: present and not the empty string. */
  predicate HasTime(t: Task) {
    t.scheduledTime.Some? && t.scheduledTime.value != ""
  }

  /** The key a task is grouped under: the hour field padded to two characters, then ":00". */
  function SlotKey(t: Task): string
    requires HasTime(t)
  {
    PadStart2(BeforeColon(t.scheduledTime.value)) + ":00"
  }

  predicate InGroup(t: Task, key: string) {
    HasTime(t) && SlotKey(t) == key
  }

  /** The tasks `tasksByTime` holds under `key`, in input order. */
  function Grouped(ts: seq<Task>, key: string): (g: seq<Task>)
    ensures |g| <= |ts|
    ensures forall t :: t in g <==> t in ts && InGroup(t, key)
  {
    if ts == [] then []
    else
      var last := ts[|ts| - 1];
      Grouped(ts[..|ts| - 1], key) + (if InGroup(last, key) then [last] else [])
  }

  /** The sort key: `scheduledTime`, present for every grouped task. */
  function TimeOf(t: Task): string {
    t.scheduledTime.GetOr("")
  }

  predicate SortedByTime(s: seq<Task>) {
    forall i, j :: 0 <= i < j < |s| ==> LexLe(TimeOf(s[i]), TimeOf(s[j]))
  }

  /** Inserts `t` before the first element that is not earlier, so equal times keep input order. */
  function InsertByTime(t: Task, s: seq<Task>): (r: seq<Task>)
    requires SortedByTime(s)
    ensures SortedByTime(r)
    ensures multiset(r) == multiset(s) + multiset{t}
  {
    if s == [] || LexLe(TimeOf(t), TimeOf(s[0])) then
      PrependBelowHead(t, s);
      [t] + s
    else
      LexLeTotal(TimeOf(t), TimeOf(s[0]));
      var rest := InsertByTime(t, s[1..]);
      assert s == [s[0]] + s[1..];
      PrependBelowAll(s[0], s[1..], t, rest);
      [s[0]] + rest
  }

  /** A task no later than the head of a sorted sequence can go in front of it. */
  lemma PrependBelowHead(t: Task, s: seq<Task>)
    requires SortedByTime(s)
    requires s == [] || LexLe(TimeOf(t), TimeOf(s[0]))
    ensures SortedByTime([t] + s)
  {
    forall i, j | 0 <= i < j < |[t] + s|
      ensures LexLe(TimeOf(([t] + s)[i]), TimeOf(([t] + s)[j]))
    {
      if i == 0 {
        if j > 1 {
          LexLeTransitive(TimeOf(t), TimeOf(s[0]), TimeOf(s[j - 1]));
        }
      } else {
        assert ([t] + s)[i] == s[i - 1] && ([t] + s)[j] == s[j - 1];
      }
    }
  }

  /**
   * A task no later than `t` and than every element of the sorted `s` can go in
   * front of any sorted rearrangement `rest` of `s` plus `t`.
   */
  lemma PrependBelowAll(h: Task, s: seq<Task>, t: Task, rest: seq<Task>)
    requires SortedByTime([h] + s) && SortedByTime(rest)
    requires LexLe(TimeOf(h), TimeOf(t))
    requires multiset(rest) == multiset(s) + multiset{t}
    ensures SortedByTime([h] + rest)
  {
    forall i, j | 0 <= i < j < |[h] + rest|
      ensures LexLe(TimeOf(([h] + rest)[i]), TimeOf(([h] + rest)[j]))
    {
      if i == 0 {
        var x := rest[j - 1];
        assert x in multiset(rest);
        if x != t {
          assert x in multiset(s);
          var k :| 0 <= k < |s| && s[k] == x;
          assert ([h] + s)[0] == h && ([h] + s)[k + 1] == x;
        }
      } else {
        assert ([h] + rest)[i] == rest[i - 1] && ([h] + rest)[j] == rest[j - 1];
      }
    }
  }

  /**
   * `tasksForSlot.sort((a, b) => a.scheduledTime.localeCompare(b.scheduledTime))`:
   * a stable sort by start time, giving a permutation of the group.
   */
  function SortByTime(s: seq<Task>): (r: seq<Task>)
    ensures SortedByTime(r)
    ensures multiset(r) == multiset(s)
  {
    if s == [] then []
    else
      assert s == [s[0]] + s[1..];
      InsertByTime(s[0], SortByTime(s[1..]))
  }

  /** The tasks of `s` that start at `key`, in their order in `s`. */
  function AtTime(s: seq<Task>, key: string): (r: seq<Task>)
    ensures forall t :: t in r <==> t in s && TimeOf(t) == key
  {
    if s == [] then []
    else
      assert forall t :: t in s <==> t == s[0] || t in s[1..];
      (if TimeOf(s[0]) == key then [s[0]] else []) + AtTime(s[1..], key)
  }

  lemma AtTimeCons(x: Task, s: seq<Task>, key: string)
    ensures AtTime([x] + s, key) == (if TimeOf(x) == key then [x] else []) + AtTime(s, key)
  {
    assert ([x] + s)[0] == x && ([x] + s)[1..] == s;
  }

  lemma SortedTail(s: seq<Task>)
    requires SortedByTime(s) && s != []
    ensures SortedByTime(s[1..])
  {
    forall i, j | 0 <= i < j < |s[1..]|
      ensures LexLe(TimeOf(s[1..][i]), TimeOf(s[1..][j]))
    {
      assert s[1..][i] == s[i + 1] && s[1..][j] == s[j + 1];
    }
  }

  /** The two ways `InsertByTime` can go: in front, or behind a head that is earlier. */
  lemma InsertByTimeFront(t: Task, s: seq<Task>)
    requires SortedByTime(s) && (s == [] || LexLe(TimeOf(t), TimeOf(s[0])))
    ensures InsertByTime(t, s) == [t] + s
  {
  }

  lemma InsertByTimeBehind(t: Task, s: seq<Task>)
    requires SortedByTime(s) && s != [] && !LexLe(TimeOf(t), TimeOf(s[0]))
    ensures SortedByTime(s[1..]) && TimeOf(t) != TimeOf(s[0])
    ensures InsertByTime(t, s) == [s[0]] + InsertByTime(t, s[1..])
  {
    SortedTail(s);
    LexLeTotal(TimeOf(t), TimeOf(t));
  }

  /** Filtering a cons when at most one of two heads survives. */
  lemma SwapSingles(a: seq<Task>, b: seq<Task>, c: seq<Task>)
    requires a == [] || b == []
    ensures a + (b + c) == b + (a + c)
  {
  }

  /** Inserting `t` puts it in front of the tasks that start at the same time. */
  lemma {:induction false} InsertByTimeStable(t: Task, s: seq<Task>, key: string)
    requires SortedByTime(s)
    ensures AtTime(InsertByTime(t, s), key) == (if TimeOf(t) == key then [t] else []) + AtTime(s, key)
    decreases |s|
  {
    if s == [] || LexLe(TimeOf(t), TimeOf(s[0])) {
      InsertByTimeFront(t, s);
      AtTimeCons(t, s, key);
    } else {
      InsertByTimeBehind(t, s);
      var tail := s[1..];
      var rest := InsertByTime(t, tail);
      InsertByTimeStable(t, tail, key);
      AtTimeCons(s[0], rest, key);
      assert s == [s[0]] + tail;
      AtTimeCons(s[0], tail, key);
      SwapSingles(if TimeOf(s[0]) == key then [s[0]] else [], if TimeOf(t) == key then [t] else [], AtTime(tail, key));
    }
  }

  /** The sort is stable: the tasks that start at the same time keep their input order. */
  lemma {:induction false} SortByTimeStable(s: seq<Task>, key: string)
    ensures AtTime(SortByTime(s), key) == AtTime(s, key)
  {
    if s != [] {
      SortByTimeStable(s[1..], key);
      InsertByTimeStable(s[0], SortByTime(s[1..]), key);
    }
  }

  lemma GroupedSnoc(ts: seq<Task>, t: Task, key: string)
    ensures Grouped(ts + [t], key) == Grouped(ts, key) + (if InGroup(t, key) then [t] else [])
  {
    assert (ts + [t])[..|ts|] == ts;
  }

  /** The first loop of `getTimelineData`: one empty slot per hour from 06:00 to 23:00. */
  method EmptySlots() returns (slots: seq<TimelineSlot>)
    ensures |slots| == SlotCount
    ensures forall i :: 0 <= i < SlotCount ==> slots[i] == TimelineSlot(HourLabel(FirstHour + i), [])
  {
    slots := [];
    var hour := FirstHour;
    while hour < EndHour
      invariant FirstHour <= hour <= EndHour
      invariant |slots| == hour - FirstHour
      invariant forall i :: 0 <= i < |slots| ==> slots[i] == TimelineSlot(HourLabel(FirstHour + i), [])
    {
      var slot := TimelineSlot(HourLabel(hour), []);
      EmptySlotsSnoc(slots, hour);
      slots := slots + [slot];
      hour := hour + 1;
    }
  }

  /** One more pushed slot keeps the labels in hour order. */
  lemma EmptySlotsSnoc(slots: seq<TimelineSlot>, hour: int)
    requires |slots| == hour - FirstHour
    requires forall i :: 0 <= i < |slots| ==> slots[i] == TimelineSlot(HourLabel(FirstHour + i), [])
    ensures forall i :: 0 <= i < |slots| + 1 ==>
      (slots + [TimelineSlot(HourLabel(hour), [])])[i] == TimelineSlot(HourLabel(FirstHour + i), [])
  {
  }

  /** `m` holds, under each hour key, exactly the non-empty group of `ts`. */
  ghost predicate FiledByHour(m: map<string, seq<Task>>, ts: seq<Task>) {
    && (forall k :: Grouped(ts, k) == (if k in m then m[k] else []))
    && (forall k :: k in m ==> m[k] != [])
  }

  /** One step of the `forEach`: open the key with `[]` if it is new, then push `t`. */
  ghost function Filed(m: map<string, seq<Task>>, t: Task): map<string, seq<Task>>
    requires HasTime(t)
  {
    var withKey := if SlotKey(t) in m then m else m[SlotKey(t) := []];
    withKey[SlotKey(t) := withKey[SlotKey(t)] + [t]]
  }

  /** The map the `forEach` has built after visiting `ts`. */
  ghost function FiledMap(ts: seq<Task>): map<string, seq<Task>>
  {
    if ts == [] then map[]
    else
      var m := FiledMap(ts[..|ts| - 1]);
      var last := ts[|ts| - 1];
      if HasTime(last) then Filed(m, last) else m
  }

  /** The `forEach` that fills `tasksByTime`: each timed task is appended under its hour key. */
  method GroupByHour(tasks: seq<Task>) returns (tasksByTime: map<string, seq<Task>>)
    ensures forall k :: Grouped(tasks, k) == (if k in tasksByTime then tasksByTime[k] else [])
    ensures forall k :: k in tasksByTime ==> tasksByTime[k] != []
  {
    tasksByTime := map[];
    var n := 0;
    while n < |tasks|
      invariant 0 <= n <= |tasks|
      invariant tasksByTime == FiledMap(tasks[..n])
    {
      var task := tasks[n];
      assert tasks[..n + 1][..n] == tasks[..n];
      if HasTime(task) {
        var timeSlot := SlotKey(task);
        if timeSlot !in tasksByTime {
          tasksByTime := tasksByTime[timeSlot := []];
        }
        tasksByTime := tasksByTime[timeSlot := tasksByTime[timeSlot] + [task]];
      }
      n := n + 1;
    }
    assert tasks[..n] == tasks;
    FiledMapGroups(tasks);
  }

  /** Filing a timed task keeps every key's group exact. */
  lemma FileTimed(m: map<string, seq<Task>>, ts: seq<Task>, t: Task)
    requires FiledByHour(m, ts) && HasTime(t)
    ensures FiledByHour(Filed(m, t), ts + [t])
  {
    forall k ensures Grouped(ts + [t], k) == (if k in Filed(m, t) then Filed(m, t)[k] else []) {
      FileTimedAt(m, ts, t, k);
    }
  }

  /** The same, for one key `k`. */
  lemma FileTimedAt(m: map<string, seq<Task>>, ts: seq<Task>, t: Task, k: string)
    requires HasTime(t) && Grouped(ts, k) == (if k in m then m[k] else [])
    ensures Grouped(ts + [t], k) == (if k in Filed(m, t) then Filed(m, t)[k] else [])
  {
    GroupedSnoc(ts, t, k);
    if k == SlotKey(t) {
      assert InGroup(t, k);
      assert Filed(m, t)[k] == Grouped(ts, k) + [t];
    } else {
      assert !InGroup(t, k);
      assert Grouped(ts + [t], k) == Grouped(ts, k) + [];
    }
  }

  /** Passing over an untimed task leaves every key's group as it was. */
  lemma FileUntimed(m: map<string, seq<Task>>, ts: seq<Task>, t: Task)
    requires FiledByHour(m, ts) && !HasTime(t)
    ensures FiledByHour(m, ts + [t])
  {
    forall k ensures Grouped(ts + [t], k) == (if k in m then m[k] else []) {
      GroupedSnoc(ts, t, k);
    }
  }

  /** The map built over `ts` holds exactly the non-empty groups of `ts`. */
  lemma {:induction false} FiledMapGroups(ts: seq<Task>)
    ensures FiledByHour(FiledMap(ts), ts)
  {
    if ts != [] {
      var init, last := ts[..|ts| - 1], ts[|ts| - 1];
      FiledMapGroups(init);
      assert ts == init + [last];
      if HasTime(last) {
        FileTimed(FiledMap(init), init, last);
      } else {
        FileUntimed(FiledMap(init), init, last);
      }
    }
  }

  /**
   * `getTimelineData`: exactly 18 slots labelled "06:00" to "23:00" in hour
   * order, slot `i` holding the day's tasks whose hour key is its label,
   * sorted by start time.
   */
  method GetTimelineData(tasks: seq<Task>, date: string) returns (data: TimelineData)
    ensures data.date == date
    ensures |data.slots| == SlotCount
    ensures forall i :: 0 <= i < SlotCount ==> data.slots[i].time == HourLabel(FirstHour + i)
    ensures forall i :: 0 <= i < SlotCount ==>
      data.slots[i].tasks == SortByTime(Grouped(tasks, HourLabel(FirstHour + i)))
  {
    var slots := EmptySlots();
    var tasksByTime := GroupByHour(tasks);
    var j := 0;
    while j < |slots|
      invariant 0 <= j <= |slots| == SlotCount
      invariant forall i :: 0 <= i < |slots| ==> slots[i].time == HourLabel(FirstHour + i)
      invariant forall i :: 0 <= i < j ==>
        slots[i].tasks == SortByTime(Grouped(tasks, HourLabel(FirstHour + i)))
    {
      var tasksForSlot := if slots[j].time in tasksByTime then tasksByTime[slots[j].time] else [];
      slots := slots[j := slots[j].(tasks := SortByTime(tasksForSlot))];
      j := j + 1;
    }
    data := TimelineData(date, slots);
  }

  // ---------------------------------------------------------------------------
  // Conflict check

  /** The half-open overlap test: `!(newEnd <= existingStart || newStart >= existingEnd)`. */
  predicate Overlaps(newStart: int, newEnd: int, existingStart: int, existingEnd: int) {
    !(newEnd <= existingStart || newStart >= existingEnd)
  }

  /**
   * Tasks the check passes over: the one whose id equals a truthy `excludeTaskId`
   * (id 0 is falsy and excludes nothing), and tasks with no `scheduledTime` or a
   * zero or absent `duration`.
   */
  predicate Skipped(t: Task, excludeTaskId: Option<int>) {
    || (excludeTaskId.Some? && excludeTaskId.value != 0 && t.id == excludeTaskId.value)
    || !HasTime(t)
    || t.duration.None?
    || t.duration.value == 0
  }

  function StartOf(t: Task): int { TimeToMinutes(TimeOf(t)) }

  function EndOf(t: Task): int { StartOf(t) + t.duration.GetOr(0) }

  /** Whether an existing task blocks the candidate interval `[newStart, newEnd)`. */
  predicate Blocks(t: Task, newStart: int, newEnd: int, excludeTaskId: Option<int>) {
    !Skipped(t, excludeTaskId) && Overlaps(newStart, newEnd, StartOf(t), EndOf(t))
  }

  /** `tasks.some(...)` over the day's tasks. */
  function AnyBlocks(tasks: seq<Task>, newStart: int, newEnd: int, excludeTaskId: Option<int>): (r: bool)
    ensures r <==> exists i :: 0 <= i < |tasks| && Blocks(tasks[i], newStart, newEnd, excludeTaskId)
  {
    if tasks == [] then false
    else
      assert forall i :: 0 < i < |tasks| ==> tasks[1..][i - 1] == tasks[i];
      Blocks(tasks[0], newStart, newEnd, excludeTaskId) || AnyBlocks(tasks[1..], newStart, newEnd, excludeTaskId)
  }

  /**
   * `checkTimeConflicts`: true exactly when some task of the day, neither
   * excluded nor without time or duration, overlaps `[start, start + duration)`.
   */
  function CheckTimeConflicts(tasks: seq<Task>, newTaskTime: string, newTaskDuration: int,
                              excludeTaskId: Option<int>): (r: bool)
    ensures r <==> exists t :: t in tasks && !Skipped(t, excludeTaskId)
                     && !(TimeToMinutes(newTaskTime) + newTaskDuration <= StartOf(t)
                          || TimeToMinutes(newTaskTime) >= EndOf(t))
  {
    var newStart := TimeToMinutes(newTaskTime);
    var r := AnyBlocks(tasks, newStart, newStart + newTaskDuration, excludeTaskId);
    assert r ==> exists i :: 0 <= i < |tasks| && Blocks(tasks[i], newStart, newStart + newTaskDuration, excludeTaskId);
    r
  }

  // ---------------------------------------------------------------------------
  // Free start times

  /** The probes: `HH:00` then `HH:30` for every slot hour, in slot order. */
  function ProbeTimes(): (r: seq<string>)
    ensures |r| == 2 * SlotCount
    ensures forall k :: 0 <= k < |r| ==> r[k] == Probe(k)
  {
    seq(2 * SlotCount, (k: int) requires k >= 0 => Probe(k))
  }

  /** Probe `k` is minute `:00` (even `k`) or `:30` (odd `k`) of slot `k / 2`. */
  function Probe(k: nat): string {
    Clock(FirstHour + k / 2, if k % 2 == 0 then 0 else 30)
  }

  /** The candidates, in order, that do not conflict with the day's tasks. */
  function FreeTimes(tasks: seq<Task>, candidates: seq<string>, duration: int): (r: seq<string>)
    ensures |r| <= |candidates|
  {
    if candidates == [] then []
    else
      var last := candidates[|candidates| - 1];
      FreeTimes(tasks, candidates[..|candidates| - 1], duration)
        + (if CheckTimeConflicts(tasks, last, duration, None) then [] else [last])
  }

  /** A time is kept exactly when it is a candidate and has no conflict. */
  lemma {:induction false} FreeTimesMembers(tasks: seq<Task>, candidates: seq<string>, duration: int)
    ensures forall c :: (c in FreeTimes(tasks, candidates, duration)
                         <==> c in candidates && !CheckTimeConflicts(tasks, c, duration, None))
  {
    if candidates != [] {
      var last := candidates[|candidates| - 1];
      assert candidates == candidates[..|candidates| - 1] + [last];
      FreeTimesMembers(tasks, candidates[..|candidates| - 1], duration);
    }
  }

  /** A conflict-free candidate is kept. */
  lemma FreeTimesKeeps(tasks: seq<Task>, candidates: seq<string>, duration: int, c: string)
    requires c in candidates && !CheckTimeConflicts(tasks, c, duration, None)
    ensures c in FreeTimes(tasks, candidates, duration)
  {
    FreeTimesMembers(tasks, candidates, duration);
  }

  /** A conflicting time is never kept. */
  lemma FreeTimesDrops(tasks: seq<Task>, candidates: seq<string>, duration: int, c: string)
    requires CheckTimeConflicts(tasks, c, duration, None)
    ensures c !in FreeTimes(tasks, candidates, duration)
  {
    FreeTimesMembers(tasks, candidates, duration);
  }

  lemma FreeTimesSnoc(tasks: seq<Task>, candidates: seq<string>, c: string, duration: int)
    ensures FreeTimes(tasks, candidates + [c], duration)
         == FreeTimes(tasks, candidates, duration)
            + (if CheckTimeConflicts(tasks, c, duration, None) then [] else [c])
  {
    assert (candidates + [c])[..|candidates|] == candidates;
  }

  lemma ProbePrefix(s: nat, minutes: nat)
    requires s < SlotCount && (minutes == 0 || minutes == 30)
    ensures var k := 2 * s + (if minutes == 0 then 0 else 1);
      ProbeTimes()[..k + 1] == ProbeTimes()[..k] + [Clock(FirstHour + s, minutes)]
  {
    var k := 2 * s + (if minutes == 0 then 0 else 1);
    ProbeOfSlot(s, minutes);
    PrefixSnoc(ProbeTimes(), k);
  }

  /** Probe `2s` is `:00` of slot `s`, probe `2s + 1` its `:30`. */
  lemma ProbeOfSlot(s: nat, minutes: nat)
    requires minutes == 0 || minutes == 30
    ensures Probe(2 * s + (if minutes == 0 then 0 else 1)) == Clock(FirstHour + s, minutes)
  {
    var k := 2 * s + (if minutes == 0 then 0 else 1);
    assert k / 2 == s && (if k % 2 == 0 then 0 else 30) == minutes;
  }

  lemma PrefixSnoc<T>(s: seq<T>, k: nat)
    requires k < |s|
    ensures s[..k + 1] == s[..k] + [s[k]]
  {
  }

  /**
   * `getAvailableTimeSlots` with the conflict check awaited: for every slot of
   * the timeline, probe `:00` and `:30` and keep the times without a conflict.
   */
  method GetAvailableTimeSlots(tasks: seq<Task>, date: string, duration: int) returns (availableSlots: seq<string>)
    ensures availableSlots == FreeTimes(tasks, ProbeTimes(), duration)
    ensures forall c :: c in availableSlots ==> !CheckTimeConflicts(tasks, c, duration, None)
    ensures forall c :: c in ProbeTimes() && !CheckTimeConflicts(tasks, c, duration, None) ==> c in availableSlots
  {
    var timelineData := GetTimelineData(tasks, date);
    availableSlots := ProbeSlots(tasks, timelineData.slots, duration);
    FreeTimesMembers(tasks, ProbeTimes(), duration);
  }

  /** The nested loop of `getAvailableTimeSlots` over the slots of the timeline. */
  method ProbeSlots(tasks: seq<Task>, slots: seq<TimelineSlot>, duration: int) returns (availableSlots: seq<string>)
    requires |slots| == SlotCount
    requires forall i :: 0 <= i < SlotCount ==> slots[i].time == HourLabel(FirstHour + i)
    ensures availableSlots == FreeTimes(tasks, ProbeTimes(), duration)
  {
    availableSlots := [];
    var s := 0;
    while s < |slots|
      invariant 0 <= s <= SlotCount
      invariant availableSlots == FreeTimes(tasks, ProbeTimes()[..2 * s], duration)
    {
      var slotHour := SlotHour(slots[s].time, s);
      availableSlots := ProbeHour(tasks, s, slotHour, duration, availableSlots);
      s := s + 1;
    }
    ProbeTimesWhole();
  }

  lemma ProbeTimesWhole()
    ensures ProbeTimes()[..2 * SlotCount] == ProbeTimes()
  {
  }

  /** The inner loop of `getAvailableTimeSlots`: probe `:00` and `:30` of slot `s`. */
  method ProbeHour(tasks: seq<Task>, s: nat, slotHour: nat, duration: int, before: seq<string>)
    returns (availableSlots: seq<string>)
    requires s < SlotCount && slotHour == FirstHour + s
    requires before == FreeTimes(tasks, ProbeTimes()[..2 * s], duration)
    ensures availableSlots == FreeTimes(tasks, ProbeTimes()[..2 * s + 2], duration)
  {
    availableSlots := before;
    var minutes := 0;
    ghost var probed := 2 * s;
    while minutes < 60
      invariant minutes == 0 || minutes == 30 || minutes == 60
      invariant probed == 2 * s + (if minutes == 0 then 0 else if minutes == 30 then 1 else 2)
      invariant availableSlots == FreeTimes(tasks, ProbeTimes()[..probed], duration)
    {
      var timeString := Clock(slotHour, minutes);
      ProbePrefix(s, minutes);
      FreeTimesSnoc(tasks, ProbeTimes()[..probed], timeString, duration);
      var hasConflict := CheckTimeConflicts(tasks, timeString, duration, None);
      if !hasConflict {
        availableSlots := availableSlots + [timeString];
      }
      minutes := minutes + 30;
      probed := probed + 1;
    }
  }

  /** `parseInt(slot.time.split(':')[0])` for the label of slot `s`: its hour. */
  function SlotHour(time: string, s: nat): (hour: nat)
    requires s < SlotCount && time == HourLabel(FirstHour + s)
    ensures hour == FirstHour + s
  {
    Pad2Decimal(FirstHour + s);
    HourLabelFields(FirstHour + s);
    LeadingDigitsOfDigits(Pad2(FirstHour + s));
    ParseInt(BeforeColon(time)).value
  }

  lemma {:induction false} LeadingDigitsOfDigits(s: string)
    requires AllDigits(s)
    ensures LeadingDigits(s) == s
  {
    if s != [] {
      LeadingDigitsOfDigits(s[1..]);
    }
  }

  /** A Promise object: what the un-awaited `checkTimeConflicts` call yields. */
  datatype Pending = Pending(settlesTo: bool)

  /** Every object, a pending Promise included, is truthy in JavaScript. */
  predicate Truthy(p: Pending) { true }

  /**
   * `getAvailableTimeSlots` as written: `checkTimeConflicts` is called without
   * `await`, so `hasConflict` is a Promise, `!hasConflict` is always false and
   * no time is ever kept.
   */
  method GetAvailableTimeSlotsAsWritten(tasks: seq<Task>, date: string, duration: int)
    returns (availableSlots: seq<string>)
    ensures availableSlots == []
  {
    var timelineData := GetTimelineData(tasks, date);
    availableSlots := [];
    var s := 0;
    while s < |timelineData.slots|
      invariant 0 <= s <= SlotCount
      invariant availableSlots == []
    {
      var slotHour := SlotHour(timelineData.slots[s].time, s);
      var minutes := 0;
      while minutes < 60
        invariant availableSlots == []
      {
        var timeString := Clock(slotHour, minutes);
        var hasConflict := Pending(CheckTimeConflicts(tasks, timeString, duration, None));
        if !Truthy(hasConflict) {
          availableSlots := availableSlots + [timeString];
        }
        minutes := minutes + 30;
      }
      s := s + 1;
    }
  }
}

/** What the timeline, the conflict check and the free-time list promise. */
module TimelineProperties {
  import opened Wrappers
  import opened TimeText
  import opened TimelineService

  /**
   * A task timed `HH:MM` (zero-padded, hour below 24) is grouped under the
   * label of its hour: it lands in slot `HH - 6` when `HH` is 06 to 23 and,
   * as 00 to 05 have no slot, in no slot otherwise.
   */
  lemma ClockTaskSlot(t: Task, hour: nat, minutes: nat, i: nat)
    requires t.scheduledTime == Some(Clock(hour, minutes)) && hour < 24
    requires i < SlotCount
    ensures HasTime(t) && SlotKey(t) == HourLabel(hour)
    ensures InGroup(t, HourLabel(FirstHour + i)) <==> hour == FirstHour + i
  {
    Pad2Decimal(hour);
    SplitAtColon(Pad2(hour), Pad2(minutes));
    assert |Pad2(hour)| == 2;
    if InGroup(t, HourLabel(FirstHour + i)) {
      HourLabelInjective(hour, FirstHour + i);
    }
  }

  /** Slot `i` holds exactly the day's timed tasks whose hour key is the slot's label. */
  lemma TimelineSlotMembers(tasks: seq<Task>, t: Task, i: nat)
    requires i < SlotCount
    ensures t in SortByTime(Grouped(tasks, HourLabel(FirstHour + i)))
            <==> t in tasks && HasTime(t) && SlotKey(t) == HourLabel(FirstHour + i)
  {
    var g := Grouped(tasks, HourLabel(FirstHour + i));
    assert t in SortByTime(g) <==> t in multiset(SortByTime(g));
    assert t in g <==> t in multiset(g);
  }

  /** A task without a start time, or with "", is in no slot. */
  lemma UntimedTaskInNoSlot(tasks: seq<Task>, t: Task, i: nat)
    requires i < SlotCount && !HasTime(t)
    ensures t !in SortByTime(Grouped(tasks, HourLabel(FirstHour + i)))
  {
    TimelineSlotMembers(tasks, t, i);
  }

  /** Sorting the `HH:MM` strings of a slot puts its tasks in chronological order. */
  lemma SlotIsChronological(s: seq<Task>, i: nat, j: nat, h1: nat, m1: nat, h2: nat, m2: nat)
    requires SortedByTime(s) && i < j < |s|
    requires s[i].scheduledTime == Some(Clock(h1, m1)) && s[j].scheduledTime == Some(Clock(h2, m2))
    requires h1 < 24 && h2 < 24 && m1 < 60 && m2 < 60
    ensures TimeToMinutes(TimeOf(s[i])) <= TimeToMinutes(TimeOf(s[j]))
  {
    ClockOrderIsChronological(h1, m1, h2, m2);
    TimeToMinutesOfClock(h1, m1);
    TimeToMinutesOfClock(h2, m2);
  }

  /**
   * Two timed tasks with non-zero durations conflict symmetrically: checking
   * one against the other gives the same answer either way round.
   */
  lemma ConflictSymmetric(a: Task, b: Task)
    requires HasTime(a) && HasTime(b)
    requires a.duration.Some? && a.duration.value != 0 && b.duration.Some? && b.duration.value != 0
    ensures CheckTimeConflicts([b], TimeOf(a), a.duration.value, None)
         == CheckTimeConflicts([a], TimeOf(b), b.duration.value, None)
  {
    assert a in [a] && b in [b];
  }

  /** A candidate starting exactly when an existing task ends does not conflict with it. */
  lemma TouchingIntervalsDoNotConflict(e: Task, duration: int)
    requires e.duration.Some? && e.duration.value > 0
    requires HasTime(e) && EndOf(e) < 100 * 60
    ensures !CheckTimeConflicts([e], Clock(EndOf(e) / 60, EndOf(e) % 60), duration, None)
  {
    TimeToMinutesOfClock(EndOf(e) / 60, EndOf(e) % 60);
  }

  /** Moving a task over its own interval: a truthy `excludeTaskId` skips the task itself. */
  lemma ExcludedSelfNoConflict(t: Task)
    requires t.id != 0 && HasTime(t) && t.duration.Some?
    ensures !CheckTimeConflicts([t], TimeOf(t), t.duration.value, Some(t.id))
  {
  }

  /** Against a single task that is not skipped, the check is the overlap test itself. */
  lemma SingleTaskConflict(e: Task, time: string, duration: int, excludeTaskId: Option<int>)
    requires !Skipped(e, excludeTaskId)
    ensures CheckTimeConflicts([e], time, duration, excludeTaskId)
        <==> Overlaps(TimeToMinutes(time), TimeToMinutes(time) + duration, StartOf(e), EndOf(e))
  {
    assert e in [e];
  }

  /** A task stored at `HH:MM` starts at minute `HH * 60 + MM`. */
  lemma ClockStart(e: Task, hour: nat, minutes: nat)
    requires e.scheduledTime == Some(Clock(hour, minutes))
    ensures StartOf(e) == hour * 60 + minutes
  {
    TimeToMinutesOfClock(hour, minutes);
  }

  /**
   * An id of 0 is falsy, so `excludeTaskId = 0` excludes nothing: a task of
   * id 0 still conflicts with itself.
   */
  lemma ZeroExcludeIdExcludesNothing(e: Task, duration: int)
    requires e.id == 0 && HasTime(e) && e.duration.Some? && e.duration.value > 0 && duration > 0
    ensures CheckTimeConflicts([e], TimeOf(e), duration, Some(0))
  {
    SingleTaskConflict(e, TimeOf(e), duration, Some(0));
  }

  /**
   * A candidate that starts inside a task's interval conflicts with it, as
   * 09:15 for 30 minutes does with 09:00 for 30.
   */
  lemma LaterStartOverlaps(e: Task, hour: nat, minutes: nat, duration: int)
    requires !Skipped(e, None) && duration > 0
    requires StartOf(e) <= hour * 60 + minutes < EndOf(e)
    ensures CheckTimeConflicts([e], Clock(hour, minutes), duration, None)
  {
    TimeToMinutesOfClock(hour, minutes);
    SingleTaskConflict(e, Clock(hour, minutes), duration, None);
  }

  /**
   * A candidate that starts before a task and runs into it conflicts with it,
   * as 09:00 for 30 minutes does with 09:15 for 30.
   */
  lemma EarlierStartOverlaps(e: Task, hour: nat, minutes: nat, duration: int)
    requires !Skipped(e, None) && e.duration.value > 0
    requires hour * 60 + minutes < StartOf(e) < hour * 60 + minutes + duration
    ensures CheckTimeConflicts([e], Clock(hour, minutes), duration, None)
  {
    TimeToMinutesOfClock(hour, minutes);
    SingleTaskConflict(e, Clock(hour, minutes), duration, None);
  }

  /**
   * An existing task with duration 0 never conflicts: adding one anywhere in
   * the day's list leaves every check as it was.
   */
  lemma ZeroLengthTaskNeverConflicts(before: seq<Task>, z: Task, after: seq<Task>,
                                     time: string, duration: int, excludeTaskId: Option<int>)
    requires z.duration == Some(0)
    ensures CheckTimeConflicts(before + [z] + after, time, duration, excludeTaskId)
        == CheckTimeConflicts(before + after, time, duration, excludeTaskId)
  {
    assert forall t :: t in before + [z] + after <==> t in before + after || t == z;
  }

  /**
   * Only existing zero-length tasks are skipped: a zero-length candidate
   * conflicts exactly when it lies strictly inside a task's interval (09:30
   * against 09:00 for 60 does).
   */
  lemma ZeroLengthCandidateCanConflict(e: Task, hour: nat, minutes: nat)
    requires !Skipped(e, None)
    ensures CheckTimeConflicts([e], Clock(hour, minutes), 0, None)
        <==> StartOf(e) < hour * 60 + minutes < EndOf(e)
  {
    TimeToMinutesOfClock(hour, minutes);
    SingleTaskConflict(e, Clock(hour, minutes), 0, None);
  }

  /** A task at `HH:00` lasting an hour, as the 10:00 example has. */
  predicate HourLongAt(e: Task, hour: nat) {
    e.scheduledTime == Some(Clock(hour, 0)) && e.duration == Some(60)
  }

  /** Such a task is checked, and spans minutes `[HH * 60, HH * 60 + 60)`. */
  lemma HourLongSpan(e: Task, hour: nat)
    requires HourLongAt(e, hour)
    ensures !Skipped(e, None)
    ensures StartOf(e) == hour * 60 && EndOf(e) == hour * 60 + 60
  {
    assert |Clock(hour, 0)| > 0;
    ClockStart(e, hour, 0);
  }

  /** The probe at slot `s`, minute `minutes`, is one of the probe times. */
  lemma Probed(s: nat, minutes: nat)
    requires s < SlotCount && (minutes == 0 || minutes == 30)
    ensures Clock(FirstHour + s, minutes) in ProbeTimes()
  {
    var k := 2 * s + (if minutes == 0 then 0 else 1);
    ProbeOfSlot(s, minutes);
    assert ProbeTimes()[k] == Probe(k);
  }

  /** With an hour-long task at `HH:00`, a 30-minute request keeps the half hour before ... */
  lemma OneHourTaskLeavesHalfHourBefore(e: Task, hour: nat)
    requires HourLongAt(e, hour) && FirstHour < hour <= FirstHour + SlotCount
    ensures Clock(hour - 1, 30) in FreeTimes([e], ProbeTimes(), 30)
  {
    HourLongSpan(e, hour);
    Probed(hour - 1 - FirstHour, 30);
    TimeToMinutesOfClock(hour - 1, 30);
    SingleTaskConflict(e, Clock(hour - 1, 30), 30, None);
    FreeTimesKeeps([e], ProbeTimes(), 30, Clock(hour - 1, 30));
  }

  /** ... and the hour after ... */
  lemma OneHourTaskLeavesHourAfter(e: Task, hour: nat)
    requires HourLongAt(e, hour) && FirstHour <= hour + 1 < FirstHour + SlotCount
    ensures Clock(hour + 1, 0) in FreeTimes([e], ProbeTimes(), 30)
  {
    HourLongSpan(e, hour);
    Probed(hour + 1 - FirstHour, 0);
    TimeToMinutesOfClock(hour + 1, 0);
    SingleTaskConflict(e, Clock(hour + 1, 0), 30, None);
    FreeTimesKeeps([e], ProbeTimes(), 30, Clock(hour + 1, 0));
  }

  /** ... but not the task's own start ... */
  lemma OneHourTaskBlocksItsStart(e: Task, hour: nat)
    requires HourLongAt(e, hour)
    ensures Clock(hour, 0) !in FreeTimes([e], ProbeTimes(), 30)
  {
    HourLongSpan(e, hour);
    LaterStartOverlaps(e, hour, 0, 30);
    FreeTimesDrops([e], ProbeTimes(), 30, Clock(hour, 0));
  }

  /** ... nor `HH:30`, which overlaps the task's second half hour (10:30 for the 10:00 task). */
  lemma OneHourTaskBlocksItsSecondHalf(e: Task, hour: nat)
    requires HourLongAt(e, hour)
    ensures Clock(hour, 30) !in FreeTimes([e], ProbeTimes(), 30)
  {
    HourLongSpan(e, hour);
    LaterStartOverlaps(e, hour, 30, 30);
    FreeTimesDrops([e], ProbeTimes(), 30, Clock(hour, 30));
  }

  /**
   * On an empty day the awaited check frees every candidate, so the probes
   * come back whole, starting with "06:00"; the as-written
   * `GetAvailableTimeSlotsAsWritten` returns [].
   */
  lemma {:induction false} EmptyDayKeepsEveryProbe(candidates: seq<string>, duration: int)
    ensures FreeTimes([], candidates, duration) == candidates
  {
    if candidates != [] {
      var last := candidates[|candidates| - 1];
      EmptyDayKeepsEveryProbe(candidates[..|candidates| - 1], duration);
      assert !CheckTimeConflicts([], last, duration, None);
      assert candidates == candidates[..|candidates| - 1] + [last];
    }
  }
}
