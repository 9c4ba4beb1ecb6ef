/**
 * The analytics computations of backend/src/services/analyticsService.ts
 * over the rows the database returns: the daily completion trend, the
 * scheduled / completed time sums, the per-priority distribution, and the
 * period arithmetic of the productivity summary.
 */
module AnalyticsService {
  import opened Wrappers

  /** A task row of the trend query: the UTC day of `createdAt` and `completed`. */
  datatype CreatedTask = CreatedTask(day: int, completed: bool)

  /** One output row of the trend. */
  datatype DayStats = DayStats(date: int, completed: nat, total: nat)

  /** Whether a task is counted: every task for `total`, completed ones for `completed`. */
  predicate Counts(t: CreatedTask, completedOnly: bool) {
    !completedOnly || t.completed
  }

  /** The number of counted tasks created on day `d`. */
  function Tally(tasks: seq<CreatedTask>, d: int, completedOnly: bool): nat
    decreases |tasks|
  {
    if |tasks| == 0 then 0
    else
      var last := tasks[|tasks| - 1];
      Tally(tasks[..|tasks| - 1], d, completedOnly) + (if last.day == d && Counts(last, completedOnly) then 1 else 0)
  }

  /** The number of counted tasks over all days. */
  function Tallied(tasks: seq<CreatedTask>, completedOnly: bool): nat
    decreases |tasks|
  {
    if |tasks| == 0 then 0
    else Tallied(tasks[..|tasks| - 1], completedOnly) + (if Counts(tasks[|tasks| - 1], completedOnly) then 1 else 0)
  }

  /** The distinct days of the tasks, in the order a `Map` first sees them. */
  function DaysOf(tasks: seq<CreatedTask>): seq<int>
    decreases |tasks|
  {
    if |tasks| == 0 then []
    else
      var earlier := DaysOf(tasks[..|tasks| - 1]);
      var d := tasks[|tasks| - 1].day;
      if d in earlier then earlier else earlier + [d]
  }

  /** The trend: one row per distinct day, with that day's completed and total counts. */
  function TrendOf(tasks: seq<CreatedTask>): seq<DayStats> {
    var days := DaysOf(tasks);
    seq(|days|, i requires 0 <= i < |days| =>
      DayStats(days[i], Tally(tasks, days[i], true), Tally(tasks, days[i], false)))
  }

  /** A day no task was created on has no tasks. */
  lemma {:induction false} TallyOffDays(tasks: seq<CreatedTask>, d: int, completedOnly: bool)
    requires d !in DaysOf(tasks)
    ensures Tally(tasks, d, completedOnly) == 0
    decreases |tasks|
  {
    if |tasks| > 0 {
      var earlier := tasks[..|tasks| - 1];
      var last := tasks[|tasks| - 1];
      assert DaysOf(earlier) <= DaysOf(tasks);
      assert last.day in DaysOf(tasks);
      TallyOffDays(earlier, d, completedOnly);
    }
  }

  /**
   * `getTaskCompletionTrend`: each task bumps its day's counters, a new day
   * being added with `{completed: 0, total: 0}` first; the rows come out in
   * insertion order.
   */
  method GetTaskCompletionTrend(tasks: seq<CreatedTask>) returns (trend: seq<DayStats>)
    ensures trend == TrendOf(tasks)
  {
    var keys: seq<int> := [];
    var dailyStats: map<int, (nat, nat)> := map[];
    var i := 0;
    while i < |tasks|
      invariant 0 <= i <= |tasks|
      invariant keys == DaysOf(tasks[..i])
      invariant forall d :: d in dailyStats <==> d in keys
      invariant forall d :: d in dailyStats ==>
        dailyStats[d] == (Tally(tasks[..i], d, true), Tally(tasks[..i], d, false))
    {
      var task := tasks[i];
      var date := task.day;
      assert tasks[..i + 1][..i] == tasks[..i];
      assert tasks[..i + 1][i] == task;
      if date !in dailyStats {
        TallyOffDays(tasks[..i], date, true);
        TallyOffDays(tasks[..i], date, false);
        dailyStats := dailyStats[date := (0, 0)];
        keys := keys + [date];
      }
      var stats := dailyStats[date];
      dailyStats := dailyStats[date := (if task.completed then stats.0 + 1 else stats.0, stats.1 + 1)];
      i := i + 1;
    }
    assert tasks[..|tasks|] == tasks;
    forall k | 0 <= k < |keys|
      ensures keys[k] in dailyStats
    {
      var d := keys[k];
      assert d in keys;
      assert d in dailyStats <==> d in keys;
    }
    trend := seq(|keys|, k requires 0 <= k < |keys| =>
      DayStats(keys[k], dailyStats[keys[k]].0, dailyStats[keys[k]].1));
  }

  /** A row of the time query: `duration` and `completed`. */
  datatype TimedTask = TimedTask(duration: Option<int>, completed: bool)

  /** `reduce((sum, task) => sum + (task.duration || 0), 0)`. */
  function SumDurations(tasks: seq<TimedTask>): int
    decreases |tasks|
  {
    if |tasks| == 0 then 0
    else SumDurations(tasks[..|tasks| - 1]) + tasks[|tasks| - 1].duration.GetOr(0)
  }

  /** `tasks.filter(task => task.completed)`, or its complement. */
  function WithCompletion(tasks: seq<TimedTask>, completed: bool): (r: seq<TimedTask>)
    ensures |r| <= |tasks|
    ensures forall t :: t in r <==> t in tasks && t.completed == completed
    decreases |tasks|
  {
    if |tasks| == 0 then []
    else
      var earlier := WithCompletion(tasks[..|tasks| - 1], completed);
      var last := tasks[|tasks| - 1];
      assert forall t :: t in tasks <==> t in tasks[..|tasks| - 1] || t == last;
      if last.completed == completed then earlier + [last] else earlier
  }

  function TotalScheduledTime(tasks: seq<TimedTask>): int {
    SumDurations(tasks)
  }

  function TotalCompletedTime(tasks: seq<TimedTask>): int {
    SumDurations(WithCompletion(tasks, true))
  }

  /** A priority group of `groupBy`: the priority and its `_count`. */
  datatype PriorityCount = PriorityCount(priority: string, count: nat)

  /** One output row of the distribution. */
  datatype PriorityRow = PriorityRow(priority: string, count: nat, completed: nat)

  /** `new Map(pairs)`: a later pair for the same key overwrites an earlier one. */
  function CompletedMap(groups: seq<PriorityCount>): map<string, nat>
    decreases |groups|
  {
    if |groups| == 0 then map[]
    else
      var last := groups[|groups| - 1];
      CompletedMap(groups[..|groups| - 1])[last.priority := last.count]
  }

  /** `completedMap.get(priority) || 0`. */
  function CompletedOr0(m: map<string, nat>, priority: string): nat {
    if priority in m then m[priority] else 0
  }

  /** `getPriorityDistribution`: one row per priority group, its completed count defaulting to 0. */
  function PriorityDistribution(all: seq<PriorityCount>, done: seq<PriorityCount>): (rows: seq<PriorityRow>)
    ensures |rows| == |all|
    ensures forall i :: 0 <= i < |all| ==>
      rows[i].priority == all[i].priority && rows[i].count == all[i].count
      && rows[i].completed == CompletedOr0(CompletedMap(done), all[i].priority)
  {
    var m := CompletedMap(done);
    seq(|all|, i requires 0 <= i < |all| => PriorityRow(all[i].priority, all[i].count, CompletedOr0(m, all[i].priority)))
  }

  const MillisPerDay: int := 1000 * 60 * 60 * 24

  /** `Math.ceil(a / b)` for a positive `b`, through flooring division. */
  function CeilDiv(a: int, b: int): int
    requires b > 0
  {
    -((-a) / b)
  }

  /** `Math.max(1, Math.ceil((end - start) / day))`: the days the period spans, at least one. */
  function DaysDiff(startMs: int, endMs: int): (days: int)
    ensures days >= 1
    ensures days * MillisPerDay >= endMs - startMs
    ensures days > 1 ==> (days - 1) * MillisPerDay < endMs - startMs
  {
    var c := CeilDiv(endMs - startMs, MillisPerDay);
    CeilDivBounds(endMs - startMs, MillisPerDay);
    if c >= 1 then c else 1
  }

  lemma CeilDivBounds(a: int, b: int)
    requires b > 0
    ensures CeilDiv(a, b) * b >= a
    ensures (CeilDiv(a, b) - 1) * b < a
  {
    var q := (-a) / b;
    var r := (-a) % b;
    assert -a == q * b + r && 0 <= r < b;
  }

  /** `totalTasks > 0 ? completedTasks / totalTasks * 100 : 0`, as an exact ratio. */
  function CompletionRate(totalTasks: nat, completedTasks: nat): (rate: real)
    ensures totalTasks == 0 ==> rate == 0.0
    ensures 0 < totalTasks && completedTasks <= totalTasks ==> 0.0 <= rate <= 100.0
    ensures 0 < totalTasks ==> rate * totalTasks as real == completedTasks as real * 100.0
  {
    if totalTasks > 0 then (completedTasks as real / totalTasks as real) * 100.0 else 0.0
  }

  /** `totalTasks / daysDiff`, as an exact ratio: never a division by zero. */
  function AverageTasksPerDay(totalTasks: nat, startMs: int, endMs: int): (average: real)
    ensures average >= 0.0
    ensures average * DaysDiff(startMs, endMs) as real == totalTasks as real
  {
    totalTasks as real / DaysDiff(startMs, endMs) as real
  }
}

/** Properties of the completion trend, the time sums and the priority distribution. */
module AnalyticsFacts {
  import opened Wrappers
  import opened AnalyticsService

  /** A day is in the trend exactly when some task was created on it. */
  lemma {:induction false} DaysOfMembers(tasks: seq<CreatedTask>, d: int)
    ensures d in DaysOf(tasks) <==> exists i :: 0 <= i < |tasks| && tasks[i].day == d
    decreases |tasks|
  {
    if |tasks| > 0 {
      var earlier := tasks[..|tasks| - 1];
      DaysOfMembers(earlier, d);
      if exists i :: 0 <= i < |earlier| && earlier[i].day == d {
        var i :| 0 <= i < |earlier| && earlier[i].day == d;
        assert tasks[i].day == d;
      }
      if exists i :: 0 <= i < |tasks| && tasks[i].day == d {
        var i :| 0 <= i < |tasks| && tasks[i].day == d;
        if i < |earlier| {
          assert earlier[i].day == d;
        }
      }
    }
  }

  /** Each day appears once in the trend. */
  lemma {:induction false} DaysOfDistinct(tasks: seq<CreatedTask>)
    ensures forall i, j :: 0 <= i < j < |DaysOf(tasks)| ==> DaysOf(tasks)[i] != DaysOf(tasks)[j]
    decreases |tasks|
  {
    if |tasks| > 0 {
      DaysOfDistinct(tasks[..|tasks| - 1]);
    }
  }

  /** A day's completed count never exceeds its total. */
  lemma {:induction false} CompletedAtMostTotal(tasks: seq<CreatedTask>, d: int)
    ensures Tally(tasks, d, true) <= Tally(tasks, d, false)
    decreases |tasks|
  {
    if |tasks| > 0 {
      CompletedAtMostTotal(tasks[..|tasks| - 1], d);
    }
  }

  /** A day that is in the trend has at least one task. */
  lemma {:induction false} TotalPositiveOnDays(tasks: seq<CreatedTask>, d: int)
    requires d in DaysOf(tasks)
    ensures Tally(tasks, d, false) >= 1
    decreases |tasks|
  {
    var earlier := tasks[..|tasks| - 1];
    if d in DaysOf(earlier) {
      TotalPositiveOnDays(earlier, d);
    }
  }

  /** Every trend row has `total >= 1` and `completed <= total`. */
  lemma TrendRowWellFormed(tasks: seq<CreatedTask>, i: int)
    requires 0 <= i < |TrendOf(tasks)|
    ensures TrendOf(tasks)[i].total >= 1
    ensures TrendOf(tasks)[i].completed <= TrendOf(tasks)[i].total
  {
    var d := DaysOf(tasks)[i];
    TotalPositiveOnDays(tasks, d);
    CompletedAtMostTotal(tasks, d);
  }

  /** The count of a trend row that the flag selects. */
  function StatOf(row: DayStats, completedOnly: bool): nat {
    if completedOnly then row.completed else row.total
  }

  function SumRows(rows: seq<DayStats>, completedOnly: bool): nat
    decreases |rows|
  {
    if |rows| == 0 then 0 else SumRows(rows[..|rows| - 1], completedOnly) + StatOf(rows[|rows| - 1], completedOnly)
  }

  /** The tallies of `tasks` summed over the days `days`. */
  function SumTally(days: seq<int>, tasks: seq<CreatedTask>, completedOnly: bool): nat
    decreases |days|
  {
    if |days| == 0 then 0 else SumTally(days[..|days| - 1], tasks, completedOnly) + Tally(tasks, days[|days| - 1], completedOnly)
  }

  lemma {:induction false} SumRowsIsSumTally(rows: seq<DayStats>, days: seq<int>, tasks: seq<CreatedTask>, completedOnly: bool)
    requires |rows| == |days|
    requires forall k :: 0 <= k < |rows| ==> StatOf(rows[k], completedOnly) == Tally(tasks, days[k], completedOnly)
    ensures SumRows(rows, completedOnly) == SumTally(days, tasks, completedOnly)
    decreases |rows|
  {
    if |rows| > 0 {
      SumRowsIsSumTally(rows[..|rows| - 1], days[..|days| - 1], tasks, completedOnly);
    }
  }

  /** One more task adds one to the sum over distinct days exactly when its day is among them and it counts. */
  lemma {:induction false} SumTallySnocTask(days: seq<int>, tasks: seq<CreatedTask>, t: CreatedTask, completedOnly: bool)
    requires forall i, j :: 0 <= i < j < |days| ==> days[i] != days[j]
    ensures SumTally(days, tasks + [t], completedOnly)
      == SumTally(days, tasks, completedOnly) + (if t.day in days && Counts(t, completedOnly) then 1 else 0)
    decreases |days|
  {
    if |days| > 0 {
      var front := days[..|days| - 1];
      var e := days[|days| - 1];
      SumTallySnocTask(front, tasks, t, completedOnly);
      assert (tasks + [t])[..|tasks + [t]| - 1] == tasks;
      assert t.day in days <==> t.day in front || t.day == e;
      if t.day == e {
        assert t.day !in front;
      }
    }
  }

  lemma {:induction false} SumTallyOfDaysOf(tasks: seq<CreatedTask>, completedOnly: bool)
    ensures SumTally(DaysOf(tasks), tasks, completedOnly) == Tallied(tasks, completedOnly)
    decreases |tasks|
  {
    if |tasks| > 0 {
      var earlier := tasks[..|tasks| - 1];
      var t := tasks[|tasks| - 1];
      var days := DaysOf(earlier);
      assert tasks == earlier + [t];
      SumTallyOfDaysOf(earlier, completedOnly);
      DaysOfDistinct(earlier);
      SumTallySnocTask(days, earlier, t, completedOnly);
      if t.day !in days {
        TallyOffDays(earlier, t.day, completedOnly);
        assert (days + [t.day])[..|days|] == days;
      }
    }
  }

  /** Summing the rows' counts gives back the counted tasks: all of them for `total`, the completed ones for `completed`. */
  lemma TrendSumsCountTasks(tasks: seq<CreatedTask>, completedOnly: bool)
    ensures SumRows(TrendOf(tasks), completedOnly) == Tallied(tasks, completedOnly)
  {
    SumRowsIsSumTally(TrendOf(tasks), DaysOf(tasks), tasks, completedOnly);
    SumTallyOfDaysOf(tasks, completedOnly);
  }

  lemma {:induction false} TalliedAllIsLength(tasks: seq<CreatedTask>)
    ensures Tallied(tasks, false) == |tasks|
    decreases |tasks|
  {
    if |tasks| > 0 {
      TalliedAllIsLength(tasks[..|tasks| - 1]);
    }
  }

  /** The sum of `total` over the trend is the number of tasks. */
  lemma TrendTotalsSumToTaskCount(tasks: seq<CreatedTask>)
    ensures SumRows(TrendOf(tasks), false) == |tasks|
  {
    TrendSumsCountTasks(tasks, false);
    TalliedAllIsLength(tasks);
  }

  /** The index of the first task created on `d`, or `|tasks|` when there is none. */
  function FirstIndex(tasks: seq<CreatedTask>, d: int): (i: nat)
    ensures i <= |tasks|
    ensures i < |tasks| ==> tasks[i].day == d
    ensures forall j :: 0 <= j < i ==> tasks[j].day != d
    decreases |tasks|
  {
    if |tasks| == 0 then 0
    else if tasks[0].day == d then 0
    else 1 + FirstIndex(tasks[1..], d)
  }

  /** The trend lists days in the order their first task appears. */
  lemma {:induction false} DaysOfFirstAppearanceOrder(tasks: seq<CreatedTask>, i: int, j: int)
    requires 0 <= i < j < |DaysOf(tasks)|
    ensures FirstIndex(tasks, DaysOf(tasks)[i]) < FirstIndex(tasks, DaysOf(tasks)[j]) < |tasks|
    decreases |tasks|
  {
    var earlier := tasks[..|tasks| - 1];
    var t := tasks[|tasks| - 1];
    var days := DaysOf(earlier);
    var di := DaysOf(tasks)[i];
    var dj := DaysOf(tasks)[j];
    assert di == days[i];
    DaysOfMembers(earlier, di);
    FirstIndexPrefix(tasks, earlier, di);
    if j < |days| {
      assert dj == days[j];
      DaysOfMembers(earlier, dj);
      DaysOfFirstAppearanceOrder(earlier, i, j);
      FirstIndexPrefix(tasks, earlier, dj);
    } else {
      assert dj == t.day && dj !in days;
      DaysOfMembers(earlier, dj);
      forall m | 0 <= m < |earlier|
        ensures tasks[m].day != dj
      {
        assert tasks[m] == earlier[m];
      }
    }
  }

  /** The first occurrence of a day seen in a prefix is the same in the whole sequence. */
  lemma FirstIndexPrefix(tasks: seq<CreatedTask>, earlier: seq<CreatedTask>, d: int)
    requires earlier <= tasks
    requires exists i :: 0 <= i < |earlier| && earlier[i].day == d
    ensures FirstIndex(tasks, d) == FirstIndex(earlier, d) < |earlier|
  {
    var i :| 0 <= i < |earlier| && earlier[i].day == d;
    assert tasks[i].day == d;
  }

  /** Because the tasks arrive sorted by creation time, the trend's days ascend strictly. */
  lemma {:induction false} SortedTasksGiveAscendingDays(tasks: seq<CreatedTask>)
    requires forall i, j :: 0 <= i < j < |tasks| ==> tasks[i].day <= tasks[j].day
    ensures forall i, j :: 0 <= i < j < |DaysOf(tasks)| ==> DaysOf(tasks)[i] < DaysOf(tasks)[j]
    decreases |tasks|
  {
    if |tasks| > 0 {
      var earlier := tasks[..|tasks| - 1];
      var t := tasks[|tasks| - 1];
      var days := DaysOf(earlier);
      SortedTasksGiveAscendingDays(earlier);
      if t.day !in days {
        forall k | 0 <= k < |days|
          ensures days[k] < t.day
        {
          DaysOfMembers(earlier, days[k]);
          var m :| 0 <= m < |earlier| && earlier[m].day == days[k];
          assert tasks[m].day <= t.day;
        }
      }
    }
  }

  lemma {:induction false} SumDurationsAppend(a: seq<TimedTask>, b: seq<TimedTask>)
    ensures SumDurations(a + b) == SumDurations(a) + SumDurations(b)
    decreases |b|
  {
    if |b| > 0 {
      assert (a + b)[..|a + b| - 1] == a + b[..|b| - 1];
      SumDurationsAppend(a, b[..|b| - 1]);
    } else {
      assert a + b == a;
    }
  }

  /** The scheduled time splits into the completed time and the time of open tasks. */
  lemma {:induction false} ScheduledTimeSplits(tasks: seq<TimedTask>)
    ensures TotalScheduledTime(tasks) == TotalCompletedTime(tasks) + SumDurations(WithCompletion(tasks, false))
    decreases |tasks|
  {
    if |tasks| > 0 {
      var earlier := tasks[..|tasks| - 1];
      var last := tasks[|tasks| - 1];
      ScheduledTimeSplits(earlier);
      SumDurationsAppend(WithCompletion(earlier, true), [last]);
      SumDurationsAppend(WithCompletion(earlier, false), [last]);
    }
  }

  lemma {:induction false} SumDurationsNonNegative(tasks: seq<TimedTask>)
    requires forall t :: t in tasks ==> t.duration.GetOr(0) >= 0
    ensures SumDurations(tasks) >= 0
    decreases |tasks|
  {
    if |tasks| > 0 {
      assert tasks[|tasks| - 1] in tasks;
      SumDurationsNonNegative(tasks[..|tasks| - 1]);
    }
  }

  /** With non-negative durations the completed time never exceeds the scheduled time. */
  lemma CompletedTimeAtMostScheduled(tasks: seq<TimedTask>)
    requires forall t :: t in tasks ==> t.duration.GetOr(0) >= 0
    ensures TotalCompletedTime(tasks) <= TotalScheduledTime(tasks)
  {
    ScheduledTimeSplits(tasks);
    SumDurationsNonNegative(WithCompletion(tasks, false));
  }

  /** An absent duration adds nothing to the sums. */
  lemma AbsentDurationAddsNothing(tasks: seq<TimedTask>, completed: bool)
    ensures TotalScheduledTime(tasks + [TimedTask(None, completed)]) == TotalScheduledTime(tasks)
  {
    assert (tasks + [TimedTask(None, completed)])[..|tasks|] == tasks;
  }

  /** The completed-count map holds exactly the priorities of the completed groups. */
  lemma {:induction false} CompletedMapKeys(done: seq<PriorityCount>, p: string)
    ensures p in CompletedMap(done) <==> exists j :: 0 <= j < |done| && done[j].priority == p
    decreases |done|
  {
    if |done| > 0 {
      var earlier := done[..|done| - 1];
      CompletedMapKeys(earlier, p);
      if exists j :: 0 <= j < |earlier| && earlier[j].priority == p {
        var j :| 0 <= j < |earlier| && earlier[j].priority == p;
        assert done[j].priority == p;
      }
      if exists j :: 0 <= j < |done| && done[j].priority == p {
        var j :| 0 <= j < |done| && done[j].priority == p;
        if j < |earlier| {
          assert earlier[j].priority == p;
        }
      }
    }
  }

  /** A priority without a completed group reports `completed = 0`. */
  lemma NoCompletedGroupReportsZero(all: seq<PriorityCount>, done: seq<PriorityCount>, i: int)
    requires 0 <= i < |all|
    requires forall j :: 0 <= j < |done| ==> done[j].priority != all[i].priority
    ensures PriorityDistribution(all, done)[i] == PriorityRow(all[i].priority, all[i].count, 0)
  {
    CompletedMapKeys(done, all[i].priority);
  }

  /** A priority with a completed group reports that group's count (the last one, should there be several). */
  lemma {:induction false} CompletedGroupIsReported(done: seq<PriorityCount>, j: int)
    requires 0 <= j < |done|
    requires forall k :: j < k < |done| ==> done[k].priority != done[j].priority
    ensures CompletedOr0(CompletedMap(done), done[j].priority) == done[j].count
    decreases |done|
  {
    if j < |done| - 1 {
      var earlier := done[..|done| - 1];
      CompletedGroupIsReported(earlier, j);
    }
  }
}
