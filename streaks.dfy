/** The two streak counters of the dashboard: a habit's own streak and the
    overall streak across all habits. Both scan backwards one day at a time
    from today (or from yesterday, when today is not yet done) for at most 365
    days. `HabitRun` and `OverallRun` specify the scans; the methods carry them
    out with the page's `while` loops. */
module Streaks {
  import opened Common
  import opened Habits

  /** The scan limit of both loops. */
  const MaxDaysToCheck: nat := 365

  // ---------------------------------------------------------------------------
  // One habit.

  /** Consecutive completed days counted backwards from `cursor`, stopping at a
      day before `start`, at a day not completed, or after `budget` days. */
  function HabitRun(completed: seq<Day>, start: Day, cursor: Day, budget: nat): (r: nat)
    ensures r <= budget
    decreases budget
  {
    if budget == 0 || cursor < start || cursor !in completed then 0
    else 1 + HabitRun(completed, start, cursor - 1, budget - 1)
  }

  /** Where the single-habit scan starts: today when today is completed,
      otherwise yesterday. */
  function HabitScanStart(completed: seq<Day>, today: Day): (r: Day)
    ensures r == today || r == today - 1
    ensures r == today <==> today in completed
  {
    if today in completed then today else today - 1
  }

  /** The streak `getHabitStreak` reports. */
  function HabitStreak(h: Habit, today: Day, parse: JsonParser): nat
  {
    var completed := Completed(h, parse);
    HabitRun(completed, h.createdDay, HabitScanStart(completed, today), MaxDaysToCheck)
  }

  /** A day that extends a habit's streak: on or after the habit's start and
      among its completion dates. */
  predicate StreakDay(completed: seq<Day>, start: Day, d: Day)
  {
    start <= d && d in completed
  }

  /** `HabitRun` counts exactly the leading run: every counted day is completed
      and not before `start`, and the day after the run (when the budget is
      not used up) is before `start` or not completed. */
  lemma {:induction false} HabitRunSpec(completed: seq<Day>, start: Day, cursor: Day, budget: nat)
    ensures var r := HabitRun(completed, start, cursor, budget);
            && (forall d :: cursor - r < d <= cursor ==> StreakDay(completed, start, d))
            && (r < budget ==> !StreakDay(completed, start, cursor - r))
    decreases budget
  {
    if budget > 0 && start <= cursor && cursor in completed {
      HabitRunSpec(completed, start, cursor - 1, budget - 1);
    }
  }

  /** What `getHabitStreak` promises: at most 365; the scan starts today when
      today is completed and yesterday otherwise; every counted day is
      completed and on or after the habit's creation day; and the scan stops
      at the first day that is not. */
  lemma HabitStreakSpec(h: Habit, today: Day, parse: JsonParser)
    ensures var completed := Completed(h, parse);
            var s := HabitStreak(h, today, parse);
            var first := if today in completed then today else today - 1;
            && s <= MaxDaysToCheck
            && (forall d :: first - s < d <= first ==> StreakDay(completed, h.createdDay, d))
            && (s < MaxDaysToCheck ==> !StreakDay(completed, h.createdDay, first - s))
  {
    var completed := Completed(h, parse);
    HabitRunSpec(completed, h.createdDay, HabitScanStart(completed, today), MaxDaysToCheck);
  }

  /** `getHabitStreak`: the backward scan with its `streak`, `daysChecked` and
      date cursor. */
  method GetHabitStreak(h: Habit, today: Day, parse: JsonParser) returns (streak: nat)
    ensures streak == HabitStreak(h, today, parse)
  {
    var completedDates := GetCompletedDates(h.completedDates, parse);
    var habitStartDate := h.createdDay;
    var currentDate := today;
    if today !in completedDates {
      currentDate := today - 1;
    }
    streak := 0;
    var daysChecked: nat := 0;
    ghost var remaining: nat := MaxDaysToCheck;
    ghost var total := HabitRun(completedDates, habitStartDate, currentDate, MaxDaysToCheck);
    while daysChecked < MaxDaysToCheck
      invariant daysChecked <= MaxDaysToCheck && remaining == MaxDaysToCheck - daysChecked
      invariant total == streak + HabitRun(completedDates, habitStartDate, currentDate, remaining)
    {
      if currentDate < habitStartDate {
        break;
      }
      if currentDate in completedDates {
        streak := streak + 1;
        currentDate := currentDate - 1;
        daysChecked := daysChecked + 1;
        remaining := remaining - 1;
      } else {
        break;
      }
    }
  }

  // ---------------------------------------------------------------------------
  // All habits.

  /** The habits active on day `d`: those created on or before it, in order. */
  function ActiveHabits(habits: seq<Habit>, d: Day): (r: seq<Habit>)
    ensures |r| <= |habits|
  {
    if habits == [] then []
    else (if habits[0].createdDay <= d then [habits[0]] else []) + ActiveHabits(habits[1..], d)
  }

  /** `hs.every(...)`: every habit of `hs` has `d` among its completion dates. */
  predicate AllCompletedOn(hs: seq<Habit>, d: Day, parse: JsonParser)
  {
    hs == [] || (d in Completed(hs[0], parse) && AllCompletedOn(hs[1..], d, parse))
  }

  lemma {:induction false} AllCompletedOnMembers(hs: seq<Habit>, d: Day, parse: JsonParser)
    ensures AllCompletedOn(hs, d, parse) <==> forall h :: h in hs ==> d in Completed(h, parse)
  {
    if hs != [] {
      AllCompletedOnMembers(hs[1..], d, parse);
      assert hs == [hs[0]] + hs[1..];
    }
  }

  /** A day counts for the overall streak: some habit is active on it and all
      active habits are completed on it. */
  predicate DayDone(habits: seq<Habit>, d: Day, parse: JsonParser)
  {
    |ActiveHabits(habits, d)| > 0 && AllCompletedOn(ActiveHabits(habits, d), d, parse)
  }

  /** The overall scan from `cursor` with `budget` days left: a day with no
      active habit uses a day of the budget without adding to the streak, a
      day with every active habit completed adds one, any other day ends it. */
  function OverallRun(habits: seq<Habit>, cursor: Day, budget: nat, parse: JsonParser): (r: nat)
    ensures r <= budget
    decreases budget
  {
    if budget == 0 then 0
    else if |ActiveHabits(habits, cursor)| == 0 then OverallRun(habits, cursor - 1, budget - 1, parse)
    else if AllCompletedOn(ActiveHabits(habits, cursor), cursor, parse) then 1 + OverallRun(habits, cursor - 1, budget - 1, parse)
    else 0
  }

  /** One step of the overall scan, for the loop that carries it out. */
  lemma OverallRunStep(habits: seq<Habit>, cursor: Day, budget: nat, parse: JsonParser)
    requires budget > 0
    ensures |ActiveHabits(habits, cursor)| == 0 ==>
              OverallRun(habits, cursor, budget, parse) == OverallRun(habits, cursor - 1, budget - 1, parse)
    ensures |ActiveHabits(habits, cursor)| > 0 && AllCompletedOn(ActiveHabits(habits, cursor), cursor, parse) ==>
              OverallRun(habits, cursor, budget, parse) == 1 + OverallRun(habits, cursor - 1, budget - 1, parse)
    ensures |ActiveHabits(habits, cursor)| > 0 && !AllCompletedOn(ActiveHabits(habits, cursor), cursor, parse) ==>
              OverallRun(habits, cursor, budget, parse) == 0
  {
  }

  /** The streak `getCurrentStreak` reports. */
  function CurrentStreak(habits: seq<Habit>, today: Day, parse: JsonParser): nat
  {
    OverallRun(habits, CurrentScanStart(habits, today, parse), MaxDaysToCheck, parse)
  }

  /** Where the overall scan starts: today when today is done, otherwise
      yesterday. */
  function CurrentScanStart(habits: seq<Habit>, today: Day, parse: JsonParser): Day
  {
    if DayDone(habits, today, parse) then today else today - 1
  }

  /** The active habits are exactly those created on or before the day. */
  lemma {:induction false} ActiveHabitsMembers(habits: seq<Habit>, d: Day)
    ensures forall h :: h in ActiveHabits(habits, d) <==> h in habits && h.createdDay <= d
  {
    if habits != [] {
      ActiveHabitsMembers(habits[1..], d);
      assert habits == [habits[0]] + habits[1..];
    }
  }

  /** A day with no active habit is preceded by another one: habits active on
      a day stay active on every later day. */
  lemma {:induction false} NoneActiveEarlier(habits: seq<Habit>, d: Day)
    requires |ActiveHabits(habits, d)| == 0
    ensures |ActiveHabits(habits, d - 1)| == 0
  {
    if habits != [] {
      NoneActiveEarlier(habits[1..], d);
    }
  }

  /** Once no habit is active, none is on any earlier day either, so the skipped
      days before the first habit was created add nothing. */
  lemma {:induction false} NoActiveHabitsNoStreak(habits: seq<Habit>, cursor: Day, budget: nat, parse: JsonParser)
    requires |ActiveHabits(habits, cursor)| == 0
    ensures OverallRun(habits, cursor, budget, parse) == 0
    decreases budget
  {
    if budget > 0 {
      NoneActiveEarlier(habits, cursor);
      NoActiveHabitsNoStreak(habits, cursor - 1, budget - 1, parse);
    }
  }

  /** `OverallRun` counts exactly the leading run of done days: each of the
      counted days has active habits, all completed (a skipped day never sits
      inside a streak), and the day after the run, when the budget is not used
      up, is not done. */
  lemma {:induction false} OverallRunSpec(habits: seq<Habit>, cursor: Day, budget: nat, parse: JsonParser)
    ensures var r := OverallRun(habits, cursor, budget, parse);
            && (forall d :: cursor - r < d <= cursor ==> DayDone(habits, d, parse))
            && (r < budget ==> !DayDone(habits, cursor - r, parse))
    decreases budget
  {
    if budget > 0 {
      if |ActiveHabits(habits, cursor)| == 0 {
        NoActiveHabitsNoStreak(habits, cursor, budget, parse);
      } else if AllCompletedOn(ActiveHabits(habits, cursor), cursor, parse) {
        OverallRunSpec(habits, cursor - 1, budget - 1, parse);
      }
    }
  }

  /** What `getCurrentStreak` promises: at most 365 days; the scan starts today
      when today is done and yesterday otherwise; every counted day has active
      habits that are all completed; the first day after the streak is not. */
  lemma CurrentStreakSpec(habits: seq<Habit>, today: Day, parse: JsonParser)
    ensures var s := CurrentStreak(habits, today, parse);
            var first := CurrentScanStart(habits, today, parse);
            && s <= MaxDaysToCheck
            && (forall d :: first - s < d <= first ==> DayDone(habits, d, parse))
            && (s < MaxDaysToCheck ==> !DayDone(habits, first - s, parse))
  {
    OverallRunSpec(habits, CurrentScanStart(habits, today, parse), MaxDaysToCheck, parse);
  }

  /** With no habit active at the scan's first day the overall streak is 0. */
  lemma NothingActiveNoStreak(habits: seq<Habit>, today: Day, parse: JsonParser)
    requires |ActiveHabits(habits, today)| == 0
    ensures CurrentStreak(habits, today, parse) == 0
  {
    NoneActiveEarlier(habits, today);
    NoActiveHabitsNoStreak(habits, today - 1, MaxDaysToCheck, parse);
  }

  /** `every` over one habit is that habit's own test. */
  lemma AllCompletedOnOne(h: Habit, d: Day, parse: JsonParser)
    ensures AllCompletedOn([h], d, parse) <==> d in Completed(h, parse)
  {
    assert [h][1..] == [];
  }

  /** The overall scan over a single habit is that habit's own scan. */
  lemma {:induction false} RunsAgree(h: Habit, cursor: Day, budget: nat, parse: JsonParser)
    ensures OverallRun([h], cursor, budget, parse) == HabitRun(Completed(h, parse), h.createdDay, cursor, budget)
    decreases budget
  {
    assert [h][1..] == [];
    if cursor < h.createdDay {
      NoActiveHabitsNoStreak([h], cursor, budget, parse);
    } else if budget > 0 {
      assert ActiveHabits([h], cursor) == [h];
      AllCompletedOnOne(h, cursor, parse);
      RunsAgree(h, cursor - 1, budget - 1, parse);
    }
  }

  /** With one habit, the overall streak and the habit's streak agree. */
  lemma SingleHabitAgrees(h: Habit, today: Day, parse: JsonParser)
    ensures CurrentStreak([h], today, parse) == HabitStreak(h, today, parse)
  {
    var completed := Completed(h, parse);
    assert [h][1..] == [];
    var first := if DayDone([h], today, parse) then today else today - 1;
    if today in completed && today < h.createdDay {
      assert ActiveHabits([h], today) == [];
      NoActiveHabitsNoStreak([h], first, MaxDaysToCheck, parse);
    } else {
      if h.createdDay <= today {
        assert ActiveHabits([h], today) == [h];
        AllCompletedOnOne(h, today, parse);
      } else {
        assert ActiveHabits([h], today) == [];
      }
      assert first == HabitScanStart(completed, today);
      RunsAgree(h, first, MaxDaysToCheck, parse);
    }
  }

  /** `getCurrentStreak`: the backward scan over all habits, skipping days on
      which no habit was active yet. */
  method GetCurrentStreak(habits: seq<Habit>, today: Day, parse: JsonParser) returns (streak: nat)
    ensures streak == CurrentStreak(habits, today, parse)
  {
    var isTodayCompleted := DayDone(habits, today, parse);
    var currentDate := today;
    if !isTodayCompleted {
      currentDate := today - 1;
    }
    streak := 0;
    var daysChecked: nat := 0;
    ghost var remaining: nat := MaxDaysToCheck;
    ghost var total := OverallRun(habits, currentDate, MaxDaysToCheck, parse);
    while daysChecked < MaxDaysToCheck
      invariant daysChecked <= MaxDaysToCheck && remaining == MaxDaysToCheck - daysChecked
      invariant total == streak + OverallRun(habits, currentDate, remaining, parse)
    {
      var dayHabits := ActiveHabits(habits, currentDate);
      OverallRunStep(habits, currentDate, remaining, parse);
      ghost var rest := OverallRun(habits, currentDate - 1, remaining - 1, parse);
      if |dayHabits| == 0 {
        currentDate := currentDate - 1;
        daysChecked := daysChecked + 1;
        remaining := remaining - 1;
        continue;
      }
      var allCompleted := AllCompletedOn(dayHabits, currentDate, parse);
      if allCompleted {
        streak := streak + 1;
        currentDate := currentDate - 1;
        daysChecked := daysChecked + 1;
        remaining := remaining - 1;
      } else {
        break;
      }
    }
  }
}
