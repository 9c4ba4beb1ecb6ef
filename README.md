# Deep-work scheduling core, modelled in Dafny

Deep-work is a task and mood journal. A day is laid out as hour slots. Tasks
from a pool are dragged onto the timeline and moved between hours. The
server checks time conflicts and offers free half-hour start times. It also
keeps one mood entry per day with a streak count, and summarises tasks for
analytics.

This project models that core as Dafny datatypes, functions, classes and
lemmas:

- `wrappers.dfy`: `Option` and `Result`.
- `time_text.dfy` (`TimeText`): the string arithmetic every part shares.
  - Padding to two digits and `HH:00` / `HH:MM` labels.
  - Splitting at `:` and `Number(x) || 0`.
  - `timeToMinutes`.
  - Code-unit string order, which `localeCompare` stands for here.
  - Lemmas: round trips between numbers and their labels, and that label
    order is chronological order.
- `timeline_service.dfy` (`TimelineService`, `TimelineProperties`):
  - The server's hourly timeline: grouping by hour, then sorting by time.
  - The interval conflict check.
  - The half-hour free-time probe.
  - Properties and worked scenarios.
- `app.dfy` (`App`, `AppProperties`): the page state as a class `TaskBoard`
  with the pool (`tasks`) and the timeline (`timelineTasks`). Every handler
  of the page is a method that states the whole new state, and the board
  keeps timeline ids unique.
- `timeline.dfy` (`Timeline`, `TimelineFacts`):
  - The 24 hour rows of the panel.
  - Pointer snapping and card placement.
  - The drag state machine, as a class bound to a `TaskBoard`.
  - The per-row drop routing.
- `mood_service.dfy` (`MoodService`, `MoodFacts`):
  - A per-date journal: a class over a map from day to entry, with the
    409/404 rules.
  - The streak, as a loop proved against a specification function.
- `analytics_service.dfy` (`AnalyticsService`, `AnalyticsFacts`):
  - The completion trend: a loop over a map that keeps insertion order.
  - The time sums and the priority distribution.
  - The period and rate arithmetic.

Inputs that come from the outside world are parameters:

- the task rows the database returns;
- the day numbers of "today" and of the entries;
- millisecond timestamps;
- fresh ids (`Date.now()`, database ids);
- the pointer position in timeline coordinates.

### Behaviour of the code that the model keeps

- `getTimelineData` builds 18 slots, 06:00 to 23:00 (hour 6 up to but not
  including 24). Only the browser panel has 24 rows.
- With one task at 10:00 lasting 60 minutes, a 30-minute request at 10:30 is
  blocked: [630, 660) overlaps [600, 660)
  (`TimelineProperties.OneHourTaskBlocksItsSecondHalf` with the hour 10).
- The conflict check skips an existing task whose id equals a truthy
  `excludeTaskId`, one with no `scheduledTime`, and one whose duration is
  absent or 0. Of the zero-length cases only such an existing task is
  skipped: a zero-length candidate strictly inside a busy interval does
  conflict (`TimelineProperties.ZeroLengthCandidateCanConflict`).
- `getAvailableTimeSlots` does not await the conflict check, so it returns no
  times at all (see Findings).

## Model

| member | source | states |
|---|---|---|
| TimeText.NatToString | backend/src/services/timelineService.ts:12 | the decimal text of a number is non-empty, all digits, and one character exactly for numbers below 10 |
| TimeText.IntToString | backend/src/services/timelineService.ts:12 | `toString()` of an integer: a minus sign before the decimal text of a negative number; `NatToString` states the decimal text |
| TimeText.PadStart2 | backend/src/services/timelineService.ts:25 | `padStart(2, '0')` leaves texts of length 2 or more alone and otherwise left-fills with '0' to length 2, keeping the text as the suffix |
| TimeText.LeadingDigits | backend/src/services/timelineService.ts:88 | what `parseInt` reads is a digit-only prefix of the text |
| TimeText.BeforeColon | backend/src/services/timelineService.ts:24 | `split(':')[0]` is a prefix of the text with no colon in it |
| TimeText.AfterColon | backend/src/services/timelineService.ts:106 | there is a second field exactly when the text has a colon |
| TimeText.LexLe | backend/src/services/timelineService.ts:39 | `localeCompare` as code-unit order, a prefix coming first; `LexLeTotal`, `LexLeTransitive`, `LexLeAntisymmetric` and `ClockOrderIsChronological` state what it is |
| TimeText.LexLeTotal | backend/src/services/timelineService.ts:37-42 | any two times are comparable under the sort's string order |
| TimeText.LexLeTransitive | backend/src/services/timelineService.ts:37-42 | the sort's string order is transitive |
| TimeText.LexLeAntisymmetric | backend/src/services/timelineService.ts:37-42 | texts ordered both ways are equal |
| TimeText.LexLeConcat | backend/src/services/timelineService.ts:37-42 | comparing `HH` + rest with `HH'` + rest' decides on the hours first, then on the rest |
| TimeText.DecimalOfNatToString | backend/src/services/timelineService.ts:105-107 | reading back the decimal text of a number gives the number |
| TimeText.DecimalLeadingZero | backend/src/services/timelineService.ts:106 | a leading zero does not change the value `Number` reads |
| TimeText.Pad2Decimal | backend/src/services/timelineService.ts:88 | a padded hour is all digits, colon-free and reads back as that hour |
| TimeText.Pad2Digits | backend/src/services/timelineService.ts:12 | the padded text of a number below 100 is its tens digit then its units digit |
| TimeText.Pad2Injective | backend/src/services/timelineService.ts:12 | different numbers get different padded texts |
| TimeText.HourLabelInjective | backend/src/services/timelineService.ts:12 | different hours get different `HH:00` labels |
| TimeText.HourLabelFields | backend/src/services/timelineService.ts:88 | the text before the colon of an `HH:00` label is the padded hour |
| TimeText.SplitAtColon | backend/src/services/timelineService.ts:105-107 | splitting `a:b` with colon-free `a` gives `a` then `b` |
| TimeText.BeforeColonNoColon | backend/src/services/timelineService.ts:24 | a text without a colon is its own first field |
| TimeText.TimeToMinutesOfClock | backend/src/services/timelineService.ts:105-108 | `timeToMinutes("HH:MM")` is `HH * 60 + MM` |
| TimeText.TimeToMinutesHourOnly | backend/src/services/timelineService.ts:105-108 | a time with no minutes field counts minutes as 0 (`minutes \|\| 0`) |
| TimeText.TimeToMinutesNonNumericHour | backend/src/services/timelineService.ts:105-108 | a non-numeric hour counts as 0 (`NaN \|\| 0`), leaving only the minutes |
| TimeText.TwoCharLex | backend/src/services/timelineService.ts:39 | two-character texts compare on the first character, then the second |
| TimeText.TensUnitsOrder | backend/src/services/timelineService.ts:12 | numbers compare by tens digit, then units digit |
| TimeText.Pad2Order | backend/src/services/timelineService.ts:39 | padded numbers below 100 compare as strings exactly as they compare as numbers |
| TimeText.ClockOrderIsChronological | backend/src/services/timelineService.ts:37-42 | on `HH:MM` times the `localeCompare` order is the order of minutes since midnight, both directions |
| TimeText.ClockShape | backend/src/services/timelineService.ts:92 | a probe time below hour 100 is two hour digits, a colon and the padded minutes |
| TimeText.Pad2 | backend/src/services/timelineService.ts:12 | `n.toString().padStart(2, '0')`; its shape is stated by `Pad2Digits`, `Pad2Decimal` and `Pad2Injective` |
| TimeText.HourLabel | backend/src/services/timelineService.ts:12 | the `HH:00` label of an hour; `HourLabelFields` and `HourLabelInjective` state what it holds |
| TimeText.Clock | backend/src/services/timelineService.ts:92 | the `HH:MM` probe text; `ClockShape` and `TimeToMinutesOfClock` state its shape and its value |
| TimeText.NumberOrZero | backend/src/services/timelineService.ts:106-107 | `Number(field) \|\| 0`: digits read as their value, anything else (`NaN`) as 0; `DecimalOfNatToString` and `TimeToMinutesNonNumericHour` pin it |
| TimeText.ParseInt | backend/src/services/timelineService.ts:88 | on text without sign or leading blanks, `parseInt` gives `NaN` exactly when the text does not start with a digit; it is applied only to the digit-only hour field of a slot label |
| TimeText.TimeToMinutes | backend/src/services/timelineService.ts:105-108 | `HH * 60 + MM`, with a missing or non-numeric field counting as 0; stated by `TimeToMinutesOfClock`, `TimeToMinutesHourOnly` and `TimeToMinutesNonNumericHour` |
| TimelineService.HasTime | backend/src/services/timelineService.ts:23 | the `if (task.scheduledTime)` test: a time is present and not the empty string; `UntimedTaskInNoSlot` states its effect |
| TimelineService.SlotKey | backend/src/services/timelineService.ts:24-25 | the hour field before the colon, padded to two characters, then ":00"; `ClockTaskSlot` states that a task at `HH:MM` gets the key `HH:00` and no other |
| TimelineService.Grouped | backend/src/services/timelineService.ts:22-32 | a slot's group holds exactly the timed tasks whose padded hour is the slot's label |
| TimelineService.TimeOf | backend/src/services/timelineService.ts:37-42 | the sort key `scheduledTime`, present on every grouped task; `SortByTime` orders by it |
| TimelineService.InsertByTime | backend/src/services/timelineService.ts:37-42 | inserting into a time-sorted list keeps it sorted and adds exactly that task |
| TimelineService.PrependBelowHead | backend/src/services/timelineService.ts:37-42 | a task no later than the head of a sorted list can go in front |
| TimelineService.PrependBelowAll | backend/src/services/timelineService.ts:37-42 | the head stays first when a later task is inserted behind it |
| TimelineService.SortByTime | backend/src/services/timelineService.ts:37-42 | the sort gives a list sorted by `scheduledTime` that is a permutation of its input; `SortByTimeStable` adds that tasks with equal times keep their order |
| TimelineService.AtTime | backend/src/services/timelineService.ts:37-42 | the tasks of a list at one exact time, in list order: a task is listed exactly when it is in the list at that time |
| TimelineService.InsertByTimeStable | backend/src/services/timelineService.ts:37-42 | inserting into a sorted list places the task behind every task with its time and leaves each time's order otherwise as it was |
| TimelineService.SortByTimeStable | backend/src/services/timelineService.ts:37-42 | the sort is stable: for every time, the tasks at that time come out in their input order |
| TimelineService.GroupedSnoc | backend/src/services/timelineService.ts:22-32 | one more task extends exactly its own hour's group, in arrival order |
| TimelineService.EmptySlots | backend/src/services/timelineService.ts:10-17 | 18 empty slots labelled "06:00" to "23:00", in order |
| TimelineService.Filed | backend/src/services/timelineService.ts:27-30 | one `forEach` step: a new key is opened with `[]`, then the task is pushed; `FileTimed` states that this keeps every group exact |
| TimelineService.FiledMap | backend/src/services/timelineService.ts:22-32 | the map built after visiting a task list; `FiledMapGroups` states what it holds, and the invariant of `GroupByHour` ties the loop to it |
| TimelineService.GroupByHour | backend/src/services/timelineService.ts:20-32 | the map holds, for every hour key that has tasks, exactly that hour's tasks in arrival order, and no key without tasks |
| TimelineService.FiledMapGroups | backend/src/services/timelineService.ts:22-32 | the map the `forEach` builds over any task list holds, under each key, exactly that key's non-empty group |
| TimelineService.GetTimelineData | backend/src/services/timelineService.ts:5-49 | the date is echoed, there are 18 slots labelled `HH:00` for hours 6 to 23, and each slot holds its hour's tasks sorted by time |
| TimelineService.StartOf | backend/src/services/timelineService.ts:72 | `existingStart`, the minute a task starts; `ClockStart` gives its value for `HH:MM` times |
| TimelineService.EndOf | backend/src/services/timelineService.ts:73 | `existingEnd`, the start plus the duration; `HourLongSpan` gives it for an hour-long task |
| TimelineService.Overlaps | backend/src/services/timelineService.ts:75 | the half-open overlap test `!(newEnd <= existingStart \|\| newStart >= existingEnd)`; `SingleTaskConflict`, `TouchingIntervalsDoNotConflict` and `ConflictSymmetric` state what it decides |
| TimelineService.Skipped | backend/src/services/timelineService.ts:64-70 | a task is passed over when its id equals a truthy `excludeTaskId`, or it has no time, or its duration is absent or 0; `ExcludedSelfNoConflict`, `ZeroExcludeIdExcludesNothing` and `ZeroLengthTaskNeverConflicts` pin these cases |
| TimelineService.Blocks | backend/src/services/timelineService.ts:63-76 | the `some` callback: a task blocks when it is not skipped and its interval overlaps the candidate; `SingleTaskConflict` states it for one task |
| TimelineService.AnyBlocks | backend/src/services/timelineService.ts:63-76 | `some` is true exactly when some task blocks the candidate interval |
| TimelineService.CheckTimeConflicts | backend/src/services/timelineService.ts:51-77 | a conflict exists exactly when some task is not excluded by a truthy `excludeTaskId`, has a time and a non-zero duration, and its interval overlaps the candidate's |
| TimelineService.Probe | backend/src/services/timelineService.ts:91-92 | probe `k` is hour `6 + k / 2` at minute 0 or 30; `ProbeOfSlot` states its text |
| TimelineService.ProbeTimes | backend/src/services/timelineService.ts:87-100 | the probe tries 36 times, probe `k` being hour `6 + k/2` at minute 0 or 30 |
| TimelineService.FreeTimes | backend/src/services/timelineService.ts:94-98 | the kept times are at most the candidates |
| TimelineService.FreeTimesMembers | backend/src/services/timelineService.ts:94-98 | a time is kept exactly when it is a candidate with no conflict |
| TimelineService.FreeTimesKeeps | backend/src/services/timelineService.ts:94-98 | a conflict-free candidate is kept |
| TimelineService.FreeTimesDrops | backend/src/services/timelineService.ts:94-98 | a conflicting time is never kept |
| TimelineService.FreeTimesSnoc | backend/src/services/timelineService.ts:96-98 | probing one more time appends it exactly when it is conflict-free |
| TimelineService.ProbePrefix | backend/src/services/timelineService.ts:91-92 | the time probed at slot `s` and minute 0/30 is the probe at index `2s` / `2s + 1` |
| TimelineService.ProbeOfSlot | backend/src/services/timelineService.ts:91-92 | probe `2s` is `HH:00` and probe `2s + 1` is `HH:30` of slot hour `6 + s` |
| TimelineService.GetAvailableTimeSlots | backend/src/services/timelineService.ts:79-103 | with the check awaited the result is the conflict-free probes in order: every returned time is free and every free probe is returned |
| TimelineService.ProbeSlots | backend/src/services/timelineService.ts:87-100 | the nested 30-minute loop over the 18 slots yields exactly the conflict-free probe times in order |
| TimelineService.ProbeHour | backend/src/services/timelineService.ts:91-99 | the two probes of one slot extend the free list exactly as the 30-minute loop does |
| TimelineService.SlotHour | backend/src/services/timelineService.ts:88 | `parseInt(slot.time.split(':')[0])` of slot `s` is hour `6 + s` |
| TimelineService.LeadingDigitsOfDigits | backend/src/services/timelineService.ts:88 | `parseInt` reads a whole digit string |
| TimelineService.Truthy | backend/src/services/timelineService.ts:96 | every object, a pending Promise included, is truthy, so `!hasConflict` is false; the ensures of `GetAvailableTimeSlotsAsWritten` follows from it |
| TimelineService.GetAvailableTimeSlotsAsWritten | backend/src/services/timelineService.ts:94-98 | as written, with `hasConflict` an un-awaited Promise, no time is ever returned |
| TimelineProperties.ClockTaskSlot | backend/src/services/timelineService.ts:23-25 | a task at `HH:MM` belongs to the `HH:00` slot and to no other |
| TimelineProperties.TimelineSlotMembers | backend/src/services/timelineService.ts:22-43 | a slot lists a task exactly when the task is given, has a time, and falls in that hour |
| TimelineProperties.UntimedTaskInNoSlot | backend/src/services/timelineService.ts:23 | a task without `scheduledTime` appears in no slot |
| TimelineProperties.SlotIsChronological | backend/src/services/timelineService.ts:37-42 | within a slot, earlier entries start no later in minutes |
| TimelineProperties.ConflictSymmetric | backend/src/services/timelineService.ts:75 | two timed, non-zero-length tasks conflict one way exactly when they conflict the other way |
| TimelineProperties.TouchingIntervalsDoNotConflict | backend/src/services/timelineService.ts:75 | a candidate starting exactly when a task ends does not conflict |
| TimelineProperties.ExcludedSelfNoConflict | backend/src/services/timelineService.ts:64-66 | a task checked against itself with its own non-zero id excluded has no conflict |
| TimelineProperties.ZeroExcludeIdExcludesNothing | backend/src/services/timelineService.ts:64 | an `excludeTaskId` of 0 is falsy and excludes nothing: a timed task of id 0 still conflicts with itself |
| TimelineProperties.SingleTaskConflict | backend/src/services/timelineService.ts:63-76 | against one task that is not skipped for the given `excludeTaskId`, a conflict means exactly that the two intervals overlap |
| TimelineProperties.ClockStart | backend/src/services/timelineService.ts:72 | a task stored at `HH:MM` starts at minute `HH * 60 + MM` |
| TimelineProperties.LaterStartOverlaps | backend/src/services/timelineService.ts:60-75 | a candidate of positive length starting inside a task's interval conflicts with it (09:15 for 30 against 09:00 for 30) |
| TimelineProperties.EarlierStartOverlaps | backend/src/services/timelineService.ts:60-75 | a candidate starting before a task of positive length and running past its start conflicts with it (09:00 for 30 against 09:15 for 30) |
| TimelineProperties.ZeroLengthTaskNeverConflicts | backend/src/services/timelineService.ts:68-70 | adding a task of duration 0 anywhere in any list leaves every conflict check unchanged |
| TimelineProperties.ZeroLengthCandidateCanConflict | backend/src/services/timelineService.ts:60-75 | a zero-length candidate conflicts exactly when it lies strictly inside a task's interval (09:30 against 09:00 for 60 does) |
| TimelineProperties.HourLongSpan | backend/src/services/timelineService.ts:68-73 | a task at `HH:00` for 60 minutes is checked and spans minutes `[HH * 60, HH * 60 + 60)` |
| TimelineProperties.Probed | backend/src/services/timelineService.ts:87-92 | every `HH:00` and `HH:30` of a slot hour is one of the probed times |
| TimelineProperties.OneHourTaskLeavesHalfHourBefore | backend/src/services/timelineService.ts:79-103 | with an hour-long task at `HH:00`, a 30-minute request keeps the probe half an hour before (09:30 for a 10:00 task) |
| TimelineProperties.OneHourTaskLeavesHourAfter | backend/src/services/timelineService.ts:79-103 | with that task, the probe at the next full hour is kept (11:00 for a 10:00 task) |
| TimelineProperties.OneHourTaskBlocksItsStart | backend/src/services/timelineService.ts:79-103 | with that task, its own start is not offered |
| TimelineProperties.OneHourTaskBlocksItsSecondHalf | backend/src/services/timelineService.ts:75-98 | with that task, `HH:30` inside its hour is not offered either (10:30 for a 10:00 task) |
| TimelineProperties.EmptyDayKeepsEveryProbe | backend/src/services/timelineService.ts:94-98 | with the check awaited, an empty day keeps every candidate in order, so all probes from 06:00 on are offered, which the code as written does not |
| App.NewTask | App.tsx:30-38 | the new entry of `addTask`: not completed and with no scheduling fields; the ensures of `App.TaskBoard.AddTask` puts it first in the pool |
| App.Placed | App.tsx:67-75 | the scheduled copy: `isScheduled`, the hour, one hour of duration and the `HH:00` time; `AppProperties.DropPlacesOneCopyLast` and `DropTaskFiveAtFourteen` state it |
| App.Unscheduled | App.tsx:128-132 | the returned card with `isScheduled`, `scheduledHour`, `scheduledDuration` removed and `scheduledTime` cleared; `AppProperties.ReturnToPoolPrependsStripped` states it |
| App.DroppedOnTimeline | App.tsx:76-81 | the new timeline after a drop: old copies filtered out, the placed copy appended; `AppProperties.DropPlacesOneCopyLast` states that the task is then there once, last |
| App.ReturnedToPool | App.tsx:134-141 | the new pool after a card is dragged back: the stripped card prepended only when its id is missing; `ReturnToPoolPrependsStripped` and `ReturnToPoolKeepsStaleEntry` state both cases |
| App.Apply | App.tsx:95-119 | every edit of a task keeps its id, title and priority |
| App.MapMatching | App.tsx:24-27 | `map(t => t.id === id ? edit(t) : t)` keeps the length and edits exactly the entries with that id |
| App.WithoutId | App.tsx:47-54 | `filter(t => t.id !== id)` keeps exactly the entries with another id, never more |
| App.WithoutAbsentId | App.tsx:47-54 | removing an id that is not there changes nothing |
| App.WithoutIdAppend | App.tsx:78-79 | the filter distributes over concatenation |
| App.WithoutIdKeepsUnique | App.tsx:76-81 | filtering keeps timeline ids unique |
| App.FindById | App.tsx:60 | `find` returns nothing exactly when no entry has the id, otherwise an entry with that id |
| App.MapMatchingKeepsUnique | App.tsx:96-106 | editing entries in place keeps timeline ids unique |
| App.DroppedKeepsUnique | App.tsx:76-81 | replacing any previous card with the new one keeps timeline ids unique |
| App.TaskBoard.constructor | App.tsx:13-14 | the page starts with an empty pool and an empty timeline |
| App.TaskBoard.ToggleComplete | App.tsx:24-27 | `completed` flips on the entries with that id in both lists, nothing else changes |
| App.TaskBoard.AddTask | App.tsx:29-40 | a new incomplete, unscheduled task is put first in the pool, the timeline unchanged |
| App.TaskBoard.ScheduleTask | App.tsx:42-44 | only the pool entries with that id get the new `scheduledTime` |
| App.TaskBoard.DeleteTask | App.tsx:47-49 | the pool loses exactly the entries with that id, the timeline unchanged |
| App.TaskBoard.DeleteFromTimeline | App.tsx:52-54 | the timeline loses exactly the entries with that id, the pool unchanged |
| App.TaskBoard.HandleDropToTimeline | App.tsx:58-92 | an unknown id changes nothing; otherwise the timeline gets one placed copy last, replacing any old one, and the pool entries are marked scheduled at that hour |
| App.TaskBoard.HandleUpdateTaskTime | App.tsx:95-120 | the entries with that id in both lists get `scheduledHour = hour` and time `HH:00`, nothing else changes |
| App.TaskBoard.HandleDropToTaskList | App.tsx:123-145 | an id not on the timeline changes nothing; otherwise the card leaves the timeline and, if the pool lacks the id, comes first in the pool stripped of its schedule |
| AppProperties.ToggleTwiceIsIdentity | App.tsx:24-27 | toggling twice restores both lists |
| AppProperties.MapMatchingAbsentId | App.tsx:85-91 | an edit aimed at an absent id changes nothing |
| AppProperties.DropPlacesOneCopyLast | App.tsx:67-81 | after a drop the task is on the timeline exactly once, last, for one hour at `hour` with time `HH:00`, the rest in old order |
| AppProperties.DropTaskFiveAtFourteen | App.tsx:67-81 | dropping task 5 at 14 gives it hour 14 and time "14:00", and no other copy of it |
| AppProperties.PoolMarkLeavesDuration | App.tsx:85-91 | the pool copy marked by a drop keeps its old `scheduledDuration` and other fields |
| AppProperties.RetimeChangesOnlyTime | App.tsx:95-120 | moving a card changes only `scheduledHour` and `scheduledTime` of entries with its id |
| AppProperties.ReturnToPoolPrependsStripped | App.tsx:128-139 | a card returned to a pool without its id comes first, all four schedule fields cleared, the rest as it was |
| AppProperties.ReturnToPoolKeepsStaleEntry | App.tsx:135-140 | a pool that already has the id is left exactly as it is |
| AppProperties.DropAndReturnLeavesStaleFlag | App.tsx:85-141 | dropping a pool task and dragging it back leaves its pool entry still marked scheduled |
| Timeline.SlotToHour | components/Timeline.tsx:164 | row `i` shows hour `(i + 6) % 24`, always an hour of the day |
| Timeline.Hours | components/Timeline.tsx:19-22 | the 24 row labels, row `i` labelled with hour `(i + 6) % 24`; `TimelineFacts` states where they start and end |
| Timeline.Position | components/Timeline.tsx:207 | an hour of the day is drawn in one of the 24 rows |
| Timeline.CardHour | components/Timeline.tsx:205 | `scheduledHour \|\| 9`: an absent hour and hour 0 both fall back to 9 (see Findings) |
| Timeline.CardHourIntended | components/Timeline.tsx:205 | `scheduledHour ?? 9`: only an absent hour falls back to 9 |
| Timeline.Round | components/Timeline.tsx:77 | `Math.round`: the nearest integer, halves upwards; `TimelineFacts.RoundIsNearest` states it |
| Timeline.SnapIndex | components/Timeline.tsx:73-78 | the snapped row index always lies in [0, 23] |
| Timeline.SnapHour | components/Timeline.tsx:73-79 | the snapped hour always lies in [0, 23] |
| Timeline.CardTop | components/Timeline.tsx:205-212 | a card's top edge always lies in [12, 1920] |
| Timeline.CardHeight | components/Timeline.tsx:209 | a card is always at least 80 px high |
| Timeline.CardTopIntended | components/Timeline.tsx:205-212 | with `??` for the hour, the top edge is still within [12, 1920] |
| Timeline.TimelineView.constructor | components/Timeline.tsx:14-17 | the panel starts idle: no card, not dragging, both Y values 0 |
| Timeline.TimelineView.MouseDown | components/Timeline.tsx:28-44 | the card becomes the dragged one, start and current Y are the pointer, so the drawn offset is 0 |
| Timeline.TimelineView.MouseMove | components/Timeline.tsx:46-58 | during a drag only the current Y follows the pointer; outside a drag nothing changes |
| Timeline.TimelineView.MouseUp | components/Timeline.tsx:60-91 | the state ends idle; the card is moved to the snapped hour exactly when a drag was on and that hour differs from its `scheduledHour`, otherwise both lists stay |
| Timeline.TimelineView.IsCardDragged | components/Timeline.tsx:244 | a card gets the drag offset exactly when its id is the dragged task's id |
| Timeline.TimelineView.DragOffset | components/Timeline.tsx:246 | the `translateY` of the dragged card, `currentDragY - dragStartY`; the ensures of `MouseDown` make it 0 and those of `MouseMove` let only `currentDragY` follow the pointer |
| Timeline.TimelineView.DeleteCard | components/Timeline.tsx:276-279 | the card's delete button removes exactly that id from the timeline |
| Timeline.TimelineView.HandleDrop | components/Timeline.tsx:164-183 | an unparseable payload changes nothing, `timeline-task` moves that card to the row's hour, any other payload drops the pool task with that id there |
| TimelineFacts.PositionInvertsSlotToHour | components/Timeline.tsx:164-207 | every hour has a row in [0, 23], and that row shows that hour |
| TimelineFacts.SlotToHourInvertsPosition | components/Timeline.tsx:164-207 | every row is the position of the hour it shows |
| TimelineFacts.HoursCount | components/Timeline.tsx:19-22 | there are 24 row labels |
| TimelineFacts.HoursStartAtSix | components/Timeline.tsx:19-22 | the first row is "06:00" |
| TimelineFacts.HoursEndAtFive | components/Timeline.tsx:19-22 | the last row is "05:00" |
| TimelineFacts.HoursLabelEachHour | components/Timeline.tsx:19-22 | every hour 0-23 labels the row where its cards are drawn |
| TimelineFacts.HoursDistinct | components/Timeline.tsx:19-22 | no label appears twice, so each hour appears exactly once |
| TimelineFacts.RoundIsNearest | components/Timeline.tsx:77 | `Math.round` lands within half a unit, halves rounding up |
| TimelineFacts.SnapIsNearestRow | components/Timeline.tsx:76-78 | over the rows, the snapped row is the one whose top is nearest the pointer |
| TimelineFacts.SnapClampsOutside | components/Timeline.tsx:78 | above the first row the pointer snaps to row 0, below the last to row 23 |
| TimelineFacts.SnapMonotone | components/Timeline.tsx:77-78 | releasing lower never snaps to an earlier row |
| TimelineFacts.SnapAtRowTop | components/Timeline.tsx:77-79 | releasing exactly on a row's top snaps to that row and its hour |
| TimelineFacts.CardTopOnItsRow | components/Timeline.tsx:207-212 | a card whose row starts within 1920 px is drawn at that row's top |
| TimelineFacts.LateNightCardsPinned | components/Timeline.tsx:212 | cards for 02:00 to 05:00 are pinned at 1920 px |
| TimelineFacts.CardHeightOfDuration | components/Timeline.tsx:209 | cards of two or more hours are `hours * 96 - 24` high; shorter, zero or absent durations give 80 |
| TimelineFacts.MidnightCardDrawnAtNine | components/Timeline.tsx:205-207 | as written, a card at hour 0 is drawn on the 09:00 row and not on the 00:00 row |
| TimelineFacts.CardTopIntendedOnItsRow | components/Timeline.tsx:205-212 | with `??`, every hour in range is drawn on the row labelled with that hour |
| TimelineFacts.MidnightCardIntendedAtMidnight | components/Timeline.tsx:205-207 | with `??`, a card at hour 0 is drawn on the 00:00 row |
| MoodService.MoodJournal.GetMoodEntryByDate | backend/src/services/moodService.ts:40-47 | there is a result exactly when the day has an entry, and the result is the stored entry of that day |
| MoodService.MoodJournal.CreateMoodEntry | backend/src/services/moodService.ts:5-27 | 409 and no change when the day has an entry; otherwise exactly one entry, for that day, is added and returned |
| MoodService.MoodJournal.UpdateMoodEntry | backend/src/services/moodService.ts:49-63 | 404 and no change when the day has no entry; otherwise only that day's entry is patched and returned |
| MoodService.MoodJournal.DeleteMoodEntry | backend/src/services/moodService.ts:65-74 | 404 and no change when the day has no entry; otherwise exactly that day's entry is removed |
| MoodService.RunLength | backend/src/services/moodService.ts:100-116 | the consecutive run is at least 1 and at most the number of entries |
| MoodService.RunLengthIsRunLength | backend/src/services/moodService.ts:100-116 | the run covers entries that are each one day before the last, and stops at the first gap or duplicate |
| MoodService.RunLengthUnique | backend/src/services/moodService.ts:100-116 | only one length meets that characterisation |
| MoodService.GetMoodStreak | backend/src/services/moodService.ts:76-119 | the loop with `break` returns exactly the specified streak |
| MoodService.Streak | backend/src/services/moodService.ts:76-118 | the specified streak: 0 unless the newest entry is today or yesterday, never more than the number of entries |
| MoodService.MoodJournal.constructor | backend/src/services/moodService.ts:5-74 | a new journal is empty and valid |
| MoodService.Patched | backend/src/services/moodService.ts:59-62 | the entry `update` stores: given fields replace, absent ones stay; `MoodFacts` states its identity and idempotence |
| MoodService.Created | backend/src/services/moodService.ts:20-26 | the entry `create` stores for the new day |
| MoodFacts.EmptyPatchIsIdentity | backend/src/services/moodService.ts:59-62 | an update with no fields leaves the entry as it was |
| MoodFacts.PatchIdempotent | backend/src/services/moodService.ts:59-62 | applying an update twice equals applying it once |
| MoodFacts.PatchKeepsIdentity | backend/src/services/moodService.ts:59-62 | an update keeps id and day, and replaces the mood exactly when one is given |
| MoodFacts.StreakOfNoEntries | backend/src/services/moodService.ts:83 | no entries give a streak of 0 |
| MoodFacts.StreakBrokenWhenStale | backend/src/services/moodService.ts:93-98 | a newest entry older than yesterday gives 0 |
| MoodFacts.StreakBrokenWhenInFuture | backend/src/services/moodService.ts:96-98 | a newest entry after today also gives 0 |
| MoodFacts.StreakIsLeadingRun | backend/src/services/moodService.ts:85-116 | when the newest entry is today or yesterday, the streak is at least 1, at most the entries, covers only day-by-day steps and stops at the first gap |
| MoodFacts.DuplicateDayStopsStreak | backend/src/services/moodService.ts:108-115 | two entries on the same day (difference 0) stop the count at 1 |
| MoodFacts.DailyEntriesCountFully | backend/src/services/moodService.ts:101-116 | an unbroken daily run counts every entry |
| MoodFacts.CreateThenDeleteRestores | backend/src/services/moodService.ts:20-73 | creating a new day's entry and deleting it restores the journal |
| AnalyticsService.TallyOffDays | backend/src/services/analyticsService.ts:108-120 | a day with no task created on it counts nothing |
| AnalyticsService.Counts | backend/src/services/analyticsService.ts:116-119 | which counter a task raises: every task raises `total`, only a completed one `completed`; `AnalyticsFacts.CompletedAtMostTotal` follows from it |
| AnalyticsService.Tally | backend/src/services/analyticsService.ts:115-119 | the number of tasks of one day, or of its completed ones, that the counters reach |
| AnalyticsService.DaysOf | backend/src/services/analyticsService.ts:111-113 | the distinct days in first-appearance order, as the `Map` keys them |
| AnalyticsService.TrendOf | backend/src/services/analyticsService.ts:106-126 | one row per distinct day, in first-appearance order, carrying that day's completed and total tallies |
| AnalyticsService.GetTaskCompletionTrend | backend/src/services/analyticsService.ts:82-127 | the `forEach` over the tasks and the `Map` give exactly one row per distinct day, in first-seen order, with that day's completed and total counts |
| AnalyticsService.WithCompletion | backend/src/services/analyticsService.ts:68 | the filter keeps exactly the tasks with that completion flag |
| AnalyticsService.SumDurations | backend/src/services/analyticsService.ts:67 | the `reduce` sum of durations, an absent one counting 0 |
| AnalyticsService.CompletedMap | backend/src/services/analyticsService.ts:164-166 | `new Map(pairs)`, a later pair for a priority overwriting an earlier one |
| AnalyticsService.CompletedOr0 | backend/src/services/analyticsService.ts:171 | `completedMap.get(priority) \|\| 0` |
| AnalyticsService.TotalScheduledTime | backend/src/services/analyticsService.ts:67 | the sum of all durations, an absent one counting 0; `AnalyticsFacts.ScheduledTimeSplits` and `AbsentDurationAddsNothing` state it |
| AnalyticsService.TotalCompletedTime | backend/src/services/analyticsService.ts:68-69 | the duration sum over the completed tasks only; `AnalyticsFacts.CompletedTimeAtMostScheduled` bounds it by the scheduled time |
| AnalyticsService.PriorityDistribution | backend/src/services/analyticsService.ts:164-172 | one row per priority group, in order, each with the group's priority and count, and its completed count from the map or 0 |
| AnalyticsService.DaysDiff | backend/src/services/analyticsService.ts:33 | the day count is at least 1, covers the period, and is the least whole number of days that does |
| AnalyticsService.CeilDiv | backend/src/services/analyticsService.ts:33 | `Math.ceil(a / b)` through flooring division; `CeilDivBounds` states it is the ceiling |
| AnalyticsService.CeilDivBounds | backend/src/services/analyticsService.ts:33 | the ceiling covers the quotient and is less than one unit above it |
| AnalyticsService.CompletionRate | backend/src/services/analyticsService.ts:39 | 0 with no tasks; otherwise the exact percentage, within [0, 100] when completed never exceeds total |
| AnalyticsService.AverageTasksPerDay | backend/src/services/analyticsService.ts:33-34 | the average is non-negative and is the task count divided by the (never zero) day count |
| AnalyticsFacts.DaysOfMembers | backend/src/services/analyticsService.ts:108-113 | a day has a row exactly when some task was created on it |
| AnalyticsFacts.DaysOfDistinct | backend/src/services/analyticsService.ts:106-113 | each date key appears once |
| AnalyticsFacts.CompletedAtMostTotal | backend/src/services/analyticsService.ts:116-119 | a day's completed count never exceeds its total |
| AnalyticsFacts.TotalPositiveOnDays | backend/src/services/analyticsService.ts:111-116 | every day with a row has a total of at least 1 |
| AnalyticsFacts.TrendRowWellFormed | backend/src/services/analyticsService.ts:111-126 | every trend row has `total >= 1` and `completed <= total` |
| AnalyticsFacts.SumRowsIsSumTally | backend/src/services/analyticsService.ts:122-126 | summing the rows sums the per-day counts |
| AnalyticsFacts.SumTallySnocTask | backend/src/services/analyticsService.ts:115-119 | one more task raises the per-day sum by one exactly when its day is listed and it counts |
| AnalyticsFacts.SumTallyOfDaysOf | backend/src/services/analyticsService.ts:108-120 | over the distinct days, the per-day counts sum to the counted tasks |
| AnalyticsFacts.TrendSumsCountTasks | backend/src/services/analyticsService.ts:108-126 | the rows' `completed` sum to the completed tasks and their `total` to all tasks |
| AnalyticsFacts.TalliedAllIsLength | backend/src/services/analyticsService.ts:116 | counting every task gives the number of tasks |
| AnalyticsFacts.TrendTotalsSumToTaskCount | backend/src/services/analyticsService.ts:108-126 | the sum of `total` over the trend is the number of tasks |
| AnalyticsFacts.FirstIndex | backend/src/services/analyticsService.ts:111-113 | the first task created on a day, or none before the end |
| AnalyticsFacts.DaysOfFirstAppearanceOrder | backend/src/services/analyticsService.ts:106-126 | rows come in the order their days first appear |
| AnalyticsFacts.FirstIndexPrefix | backend/src/services/analyticsService.ts:108-113 | later tasks do not change where a day first appears |
| AnalyticsFacts.SortedTasksGiveAscendingDays | backend/src/services/analyticsService.ts:100-126 | with tasks sorted by `createdAt`, the trend's days strictly ascend |
| AnalyticsFacts.SumDurationsAppend | backend/src/services/analyticsService.ts:67 | the duration sum splits over concatenation |
| AnalyticsFacts.ScheduledTimeSplits | backend/src/services/analyticsService.ts:67-69 | scheduled time is completed time plus the time of open tasks |
| AnalyticsFacts.SumDurationsNonNegative | backend/src/services/analyticsService.ts:67 | non-negative durations sum to a non-negative total |
| AnalyticsFacts.CompletedTimeAtMostScheduled | backend/src/services/analyticsService.ts:67-69 | with non-negative durations, completed time never exceeds scheduled time |
| AnalyticsFacts.AbsentDurationAddsNothing | backend/src/services/analyticsService.ts:67 | an absent duration counts as 0 (`duration \|\| 0`) |
| AnalyticsFacts.CompletedMapKeys | backend/src/services/analyticsService.ts:164-166 | the completed map has a key exactly for priorities with a completed group |
| AnalyticsFacts.NoCompletedGroupReportsZero | backend/src/services/analyticsService.ts:168-172 | a priority with no completed group reports `completed = 0` |
| AnalyticsFacts.CompletedGroupIsReported | backend/src/services/analyticsService.ts:164-171 | a priority with a completed group reports that group's count, the last one winning |

## Left out

- Persistence and I/O: the Prisma queries, `userId` scoping, date-range `where` filters and ordering done by the database are inputs (the rows as returned), not modelled.
- Concurrency and async: every service call is modelled as a synchronous step over rows already fetched, except the un-awaited call in Findings.
- React scheduling: all `setState` updater functions are applied at once in the handler's order. The stale `tasks` closure of `handleDropToTimeline` and the listeners registered by `useEffect` are not modelled.
- `document.querySelector('.timeline-container')` returning null, and the pixel geometry of `getBoundingClientRect`/`scrollTop`. The pointer Y is given in timeline coordinates.
- Console logging (`console.log`, `console.error('Task not found:', taskId)` and the like) is not modelled; it changes no state.
- Rendering: colours, emojis, priority badges, the test button and the rest of JSX.
- Dates and clocks: `new Date`, `toISOString`, `setHours` and time zones. Days are whole day numbers and periods are millisecond integers. The mood streak assumes each calendar day is exactly one day-number apart, so DST days of 23 or 25 hours are not modelled.
- TimeText.NumberOrZero: models `Number(x) || 0` only for digit strings; signs, spaces, decimals, hex and other `Number` syntax all read as 0 here.
- TimeText.LexLe: `localeCompare` is modelled as code-unit order. The two agree on the zero-padded `HH:MM` times the code sorts.
- AnalyticsService.CompletionRate: an exact real, not an IEEE double.
- AnalyticsService.AverageTasksPerDay: an exact real, not an IEEE double.
- Floating-point statistics not modelled at all: `averageSessionLength`, `getMoodStats` percentages, `getMoodCorrelation` averages and `avgProductivity`.
- `getMoodEntries`, `getMoodStats`, `getMoodCorrelation`, `parsePeriod` and `getProductivityStats`'s counting queries are database reads with no logic beyond the parts above.
- MoodService.MoodJournal.UpdateMoodEntry: an update body that carries `date` (allowed by `Partial<CreateMoodData>`) would move the entry to another day; the patch here has only `mood`, `emoji` and `note`.
- MoodService.MoodJournal.CreateMoodEntry: the database id is a parameter, and entries are keyed by day because the 409 check keeps one entry per day.
- Task fields other than those the scheduling logic reads (`tags`, `createdAt`, `updatedAt`, projects) are not modelled.
- NaN: a `scheduledHour` or duration that is NaN, and non-integer durations.

## Findings

| source | as written | input that shows it | evidently intended | confidence | as-written member | corrected member |
|---|---|---|---|---|---|---|
| backend/src/services/timelineService.ts:94-98 | `checkTimeConflicts` returns a Promise and is called without `await`, so `hasConflict` is always truthy and no time is kept | any day, e.g. no tasks and `duration = 30`: the result is `[]` though "06:00" is free | `await` the check and keep each conflict-free probe | high, not executed | TimelineService.GetAvailableTimeSlotsAsWritten | TimelineService.GetAvailableTimeSlots |
| components/Timeline.tsx:205 | `task.scheduledHour \|\| 9` treats hour 0 like a missing hour | a card dropped on the 00:00 row (`scheduledHour = 0`) is drawn on the 09:00 row | fall back to 9 only when the hour is absent (`??`) | medium, not executed | TimelineFacts.MidnightCardDrawnAtNine | Timeline.CardTopIntended |
