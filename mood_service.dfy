/**
 * The mood journal of one user (backend/src/services/moodService.ts): at most
 * one entry per calendar day, kept as a map from the day to its entry, with
 * the create / update / delete rules of the service and the day-streak count.
 * Days are whole day numbers (local midnight divided by one day).
 */
module MoodService {
  import opened Wrappers

  datatype MoodEntry = MoodEntry(id: int, mood: string, emoji: Option<string>, note: Option<string>, date: int)

  /** The body of a create request. */
  datatype CreateMoodData = CreateMoodData(mood: string, emoji: Option<string>, note: Option<string>, date: int)

  /** The body of an update request: each field present or absent. */
  datatype MoodPatch = MoodPatch(mood: Option<string>, emoji: Option<string>, note: Option<string>)

  /** `AppError(message, statusCode)`. */
  datatype AppError = AppError(message: string, statusCode: int)

  const AlreadyExists := AppError("Mood entry already exists for this date", 409)
  const NotFound := AppError("Mood entry not found for this date", 404)

  /** The stored entry `prisma.moodEntry.update` leaves: present fields replace, absent ones stay. */
  function Patched(e: MoodEntry, p: MoodPatch): MoodEntry {
    MoodEntry(e.id, p.mood.GetOr(e.mood),
      if p.emoji.Some? then p.emoji else e.emoji,
      if p.note.Some? then p.note else e.note,
      e.date)
  }

  /** The entry `prisma.moodEntry.create` stores for `data` under the fresh `id`. */
  function Created(id: int, data: CreateMoodData): MoodEntry {
    MoodEntry(id, data.mood, data.emoji, data.note, data.date)
  }

  class MoodJournal {
    var entries: map<int, MoodEntry>

    /** Every entry sits under its own day. */
    ghost predicate Valid()
      reads this
    {
      forall d :: d in entries ==> entries[d].date == d
    }

    constructor ()
      ensures Valid() && entries == map[]
    {
      entries := map[];
    }

    /** `getMoodEntryByDate`: the entry of that day, if any. */
    function GetMoodEntryByDate(date: int): (r: Option<MoodEntry>)
      requires Valid()
      reads this
      ensures r.Some? <==> date in entries
      ensures r.Some? ==> r.value == entries[date] && r.value.date == date
    {
      if date in entries then Some(entries[date]) else None
    }

    /**
     * `createMoodEntry`: 409 when the day already has an entry; otherwise
     * exactly one entry, for that day, is added.
     */
    method CreateMoodEntry(id: int, data: CreateMoodData) returns (r: Result<MoodEntry, AppError>)
      requires Valid()
      modifies this
      ensures Valid()
      ensures data.date in old(entries) ==> r == Failure(AlreadyExists) && entries == old(entries)
      ensures data.date !in old(entries) ==>
        && r == Success(Created(id, data))
        && entries == old(entries)[data.date := Created(id, data)]
        && |entries| == |old(entries)| + 1
    {
      if data.date in entries {
        return Failure(AlreadyExists);
      }
      var entry := Created(id, data);
      entries := entries[data.date := entry];
      r := Success(entry);
    }

    /**
     * `updateMoodEntry`: 404 when the day has no entry; otherwise only that
     * day's entry changes, by the patch.
     */
    method UpdateMoodEntry(date: int, patch: MoodPatch) returns (r: Result<MoodEntry, AppError>)
      requires Valid()
      modifies this
      ensures Valid()
      ensures date !in old(entries) ==> r == Failure(NotFound) && entries == old(entries)
      ensures date in old(entries) ==>
        && r == Success(Patched(old(entries)[date], patch))
        && entries == old(entries)[date := Patched(old(entries)[date], patch)]
        && entries.Keys == old(entries).Keys
    {
      var existing := GetMoodEntryByDate(date);
      if existing.None? {
        return Failure(NotFound);
      }
      var updated := Patched(existing.value, patch);
      entries := entries[date := updated];
      r := Success(updated);
    }

    /**
     * `deleteMoodEntry`: 404 when the day has no entry; otherwise that day's
     * entry, and only it, is removed.
     */
    method DeleteMoodEntry(date: int) returns (r: Result<(), AppError>)
      requires Valid()
      modifies this
      ensures Valid()
      ensures date !in old(entries) ==> r == Failure(NotFound) && entries == old(entries)
      ensures date in old(entries) ==>
        && r == Success(())
        && entries == old(entries) - {date}
        && |entries| == |old(entries)| - 1
    {
      var existing := GetMoodEntryByDate(date);
      if existing.None? {
        return Failure(NotFound);
      }
      entries := entries - {date};
      r := Success(());
    }
  }

  /** `entries[0..n)` are each exactly one day before the previous one, and `n` cannot grow. */
  ghost predicate IsRunLength(dates: seq<int>, n: int) {
    && 1 <= n <= |dates|
    && (forall j :: 1 <= j < n ==> dates[j - 1] - dates[j] == 1)
    && (n == |dates| || dates[n - 1] - dates[n] != 1)
  }

  /** The length of the leading run of consecutive days, newest first. */
  function RunLength(dates: seq<int>): (n: nat)
    requires |dates| >= 1
    ensures 1 <= n <= |dates|
    decreases |dates|
  {
    if |dates| >= 2 && dates[0] - dates[1] == 1 then 1 + RunLength(dates[1..]) else 1
  }

  /** The streak `getMoodStreak` reports for entry days `dates` (newest first) on day `today`. */
  function Streak(dates: seq<int>, today: int): (streak: nat)
    ensures streak <= |dates|
    ensures streak > 0 ==> dates[0] == today || dates[0] == today - 1
  {
    if |dates| == 0 then 0
    else if dates[0] != today && dates[0] != today - 1 then 0
    else RunLength(dates)
  }

  lemma {:induction false} RunLengthIsRunLength(dates: seq<int>)
    requires |dates| >= 1
    ensures IsRunLength(dates, RunLength(dates))
    decreases |dates|
  {
    if |dates| >= 2 && dates[0] - dates[1] == 1 {
      var tail := dates[1..];
      RunLengthIsRunLength(tail);
      var n := RunLength(dates);
      assert n == 1 + RunLength(tail);
      forall j | 1 <= j < n
        ensures dates[j - 1] - dates[j] == 1
      {
        if j > 1 {
          assert dates[j - 1] == tail[j - 2] && dates[j] == tail[j - 1];
        }
      }
      if n < |dates| {
        assert dates[n - 1] == tail[n - 2] && dates[n] == tail[n - 1];
      }
    }
  }

  /** The run length is determined by the sequence. */
  lemma RunLengthUnique(dates: seq<int>, n: int, m: int)
    requires IsRunLength(dates, n) && IsRunLength(dates, m)
    ensures n == m
  {
  }

  /**
   * `getMoodStreak` over the entry days, newest first: 0 for no entries or a
   * newest entry older than yesterday, else counts consecutive days until the
   * first gap.
   */
  method GetMoodStreak(dates: seq<int>, today: int) returns (streak: nat)
    ensures streak == Streak(dates, today)
  {
    if |dates| == 0 {
      return 0;
    }
    streak := 1;
    var lastDate := dates[0];
    var yesterday := today - 1;
    if lastDate != today && lastDate != yesterday {
      return 0;
    }
    var i := 1;
    while i < |dates|
      invariant 1 <= i <= |dates| && streak == i
      invariant forall j :: 1 <= j < i ==> dates[j - 1] - dates[j] == 1
    {
      var diffDays := dates[i - 1] - dates[i];
      if diffDays == 1 {
        streak := streak + 1;
      } else {
        break;
      }
      i := i + 1;
    }
    assert IsRunLength(dates, streak);
    RunLengthIsRunLength(dates);
    RunLengthUnique(dates, streak, RunLength(dates));
  }
}

/** Properties of the mood journal rules and of the streak. */
module MoodFacts {
  import opened Wrappers
  import opened MoodService

  /** An update with no fields leaves the entry as it was. */
  lemma EmptyPatchIsIdentity(e: MoodEntry)
    ensures Patched(e, MoodPatch(None, None, None)) == e
  {
  }

  /** Applying the same update twice is the same as applying it once. */
  lemma PatchIdempotent(e: MoodEntry, p: MoodPatch)
    ensures Patched(Patched(e, p), p) == Patched(e, p)
  {
  }

  /** An update never moves an entry to another day or gives it another id. */
  lemma PatchKeepsIdentity(e: MoodEntry, p: MoodPatch)
    ensures Patched(e, p).id == e.id && Patched(e, p).date == e.date
    ensures p.mood.Some? ==> Patched(e, p).mood == p.mood.value
    ensures p.mood.None? ==> Patched(e, p).mood == e.mood
  {
  }

  lemma StreakOfNoEntries(today: int)
    ensures Streak([], today) == 0
  {
  }

  /** A newest entry older than yesterday means no streak. */
  lemma StreakBrokenWhenStale(dates: seq<int>, today: int)
    requires |dates| >= 1 && dates[0] < today - 1
    ensures Streak(dates, today) == 0
  {
  }

  /** An entry dated after today (clock skew) also means no streak. */
  lemma StreakBrokenWhenInFuture(dates: seq<int>, today: int)
    requires |dates| >= 1 && dates[0] > today
    ensures Streak(dates, today) == 0
  {
  }

  /**
   * With a newest entry today or yesterday, the streak is the length of the
   * leading run of consecutive days: at least 1, at most the number of
   * entries, and stopping at the first gap.
   */
  lemma StreakIsLeadingRun(dates: seq<int>, today: int)
    requires |dates| >= 1 && (dates[0] == today || dates[0] == today - 1)
    ensures IsRunLength(dates, Streak(dates, today))
  {
    RunLengthIsRunLength(dates);
  }

  /** Two entries on the same day stop the count: the duplicate does not extend the streak. */
  lemma DuplicateDayStopsStreak(dates: seq<int>, today: int)
    requires |dates| >= 2 && dates[0] == today && dates[1] == today
    ensures Streak(dates, today) == 1
  {
  }

  /** Entries on every day from today back are all counted. */
  lemma {:induction false} DailyEntriesCountFully(dates: seq<int>)
    requires |dates| >= 1
    requires forall j :: 1 <= j < |dates| ==> dates[j - 1] - dates[j] == 1
    ensures RunLength(dates) == |dates|
    decreases |dates|
  {
    if |dates| >= 2 {
      var tail := dates[1..];
      forall j | 1 <= j < |tail|
        ensures tail[j - 1] - tail[j] == 1
      {
        assert tail[j - 1] == dates[j] && tail[j] == dates[j + 1];
      }
      DailyEntriesCountFully(tail);
    }
  }

  /** Creating an entry for a new day and then deleting it restores the journal. */
  lemma CreateThenDeleteRestores(entries: map<int, MoodEntry>, id: int, data: CreateMoodData)
    requires data.date !in entries
    ensures entries[data.date := Created(id, data)] - {data.date} == entries
  {
  }
}
