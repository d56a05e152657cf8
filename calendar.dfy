/** The dashboard calendar: month navigation, the 42-cell grid of a month and
    the status colour of each cell. Day numbers count from 1970-01-01 (day 0,
    a Thursday). */
module Calendar {
  import opened Common
  import opened Habits
  import opened Streaks

  // ---------------------------------------------------------------------------
  // Month navigation.

  /** The displayed month (0 = January) and year. */
  datatype MonthView = MonthView(month: int, year: int)

  predicate ValidView(v: MonthView)
  {
    0 <= v.month <= 11
  }

  /** Months since year 0: consecutive months differ by one. */
  function MonthIndex(v: MonthView): int
  {
    v.year * 12 + v.month
  }

  /** `navigateMonth`: "prev" steps back a month, any other direction forward,
      wrapping the month and carrying into the year. */
  function NavigateMonth(direction: string, v: MonthView): MonthView
  {
    if direction == "prev" then
      if v.month == 0 then MonthView(11, v.year - 1) else MonthView(v.month - 1, v.year)
    else
      if v.month == 11 then MonthView(0, v.year + 1) else MonthView(v.month + 1, v.year)
  }

  /** Navigation keeps the month in 0..11, wraps at both ends, and moves exactly
      one month back or forward. */
  lemma NavigateSpec(direction: string, v: MonthView)
    requires ValidView(v)
    ensures ValidView(NavigateMonth(direction, v))
    ensures direction == "prev" ==> MonthIndex(NavigateMonth(direction, v)) == MonthIndex(v) - 1
    ensures direction != "prev" ==> MonthIndex(NavigateMonth(direction, v)) == MonthIndex(v) + 1
    ensures direction == "prev" && v.month == 0 ==> NavigateMonth(direction, v) == MonthView(11, v.year - 1)
    ensures direction != "prev" && v.month == 11 ==> NavigateMonth(direction, v) == MonthView(0, v.year + 1)
  {
  }

  /** A month is determined by its index. */
  lemma MonthIndexInjective(v: MonthView, w: MonthView)
    requires ValidView(v) && ValidView(w) && MonthIndex(v) == MonthIndex(w)
    ensures v == w
  {
  }

  /** "next" then "prev", and "prev" then "next", return to the same month. */
  lemma NavigateInverse(v: MonthView)
    requires ValidView(v)
    ensures NavigateMonth("prev", NavigateMonth("next", v)) == v
    ensures NavigateMonth("next", NavigateMonth("prev", v)) == v
  {
    NavigateSpec("next", v);
    NavigateSpec("prev", NavigateMonth("next", v));
    MonthIndexInjective(NavigateMonth("prev", NavigateMonth("next", v)), v);
    NavigateSpec("prev", v);
    NavigateSpec("next", NavigateMonth("prev", v));
    MonthIndexInjective(NavigateMonth("next", NavigateMonth("prev", v)), v);
  }

  // ---------------------------------------------------------------------------
  // Day status.

  datatype DayStatus = NormalDay | FutureDay | NoHabitsDay | CompletedDay | MissedDay

  /** `getHabitsForDay`: the habits completed on `d`, in order. */
  function HabitsForDay(habits: seq<Habit>, d: Day, parse: JsonParser): (r: seq<Habit>)
    ensures |r| <= |habits|
  {
    if habits == [] then []
    else (if d in Completed(habits[0], parse) then [habits[0]] else []) + HabitsForDay(habits[1..], d, parse)
  }

  lemma {:induction false} HabitsForDayMembers(habits: seq<Habit>, d: Day, parse: JsonParser)
    ensures forall h :: h in HabitsForDay(habits, d, parse) <==> h in habits && d in Completed(h, parse)
  {
    if habits != [] {
      HabitsForDayMembers(habits[1..], d, parse);
      assert habits == [habits[0]] + habits[1..];
    }
  }

  /** `hs.some(...)`: some habit of `hs` lacks `d`. */
  predicate AnyMissedOn(hs: seq<Habit>, d: Day, parse: JsonParser)
  {
    hs != [] && (d !in Completed(hs[0], parse) || AnyMissedOn(hs[1..], d, parse))
  }

  /** Some habit is missed exactly when not all are completed. */
  lemma {:induction false} AnyMissedIffNotAll(hs: seq<Habit>, d: Day, parse: JsonParser)
    ensures AnyMissedOn(hs, d, parse) <==> !AllCompletedOn(hs, d, parse)
  {
    if hs != [] {
      AnyMissedIffNotAll(hs[1..], d, parse);
    }
  }

  /** The status branches of `generateCalendarDays`, in their order. */
  function StatusOf(habits: seq<Habit>, d: Day, today: Day, parse: JsonParser): DayStatus
  {
    var active := ActiveHabits(habits, d);
    var allCompleted := |active| > 0 && AllCompletedOn(active, d, parse);
    var hasMissed := AnyMissedOn(active, d, parse);
    if d > today then FutureDay
    else if d < today then
      if |active| == 0 then NoHabitsDay
      else if allCompleted then CompletedDay
      else if hasMissed then MissedDay
      else NoHabitsDay
    else
      if |active| == 0 then NoHabitsDay
      else if allCompleted then CompletedDay
      else if hasMissed then MissedDay
      else NormalDay
  }

  /** The colour rules: a later day is future; an earlier day or today is
      no-habits with nothing active, completed when every active habit is
      done, and missed otherwise. The last fallback branches are never taken,
      so "normal" is never assigned. */
  lemma StatusRules(habits: seq<Habit>, d: Day, today: Day, parse: JsonParser)
    ensures StatusOf(habits, d, today, parse) == FutureDay <==> d > today
    ensures d <= today && |ActiveHabits(habits, d)| == 0 ==> StatusOf(habits, d, today, parse) == NoHabitsDay
    ensures d <= today ==> (StatusOf(habits, d, today, parse) == CompletedDay <==> DayDone(habits, d, parse))
    ensures d <= today && |ActiveHabits(habits, d)| > 0 && !AllCompletedOn(ActiveHabits(habits, d), d, parse)
            ==> StatusOf(habits, d, today, parse) == MissedDay
    ensures StatusOf(habits, d, today, parse) != NormalDay
  {
    AnyMissedIffNotAll(ActiveHabits(habits, d), d, parse);
  }

  // ---------------------------------------------------------------------------
  // The grid.

  /** The number of cells: six weeks. */
  const GridSize: nat := 42

  /** `getDay`: 0 for Sunday up to 6 for Saturday (day 0 is a Thursday). */
  function Weekday(d: Day): (r: int)
    ensures 0 <= r < 7
  {
    (d + 4) % 7
  }

  /** The grid starts on the Sunday on or before the first of the month. */
  function GridStart(firstOfMonth: Day): Day
  {
    firstOfMonth - Weekday(firstOfMonth)
  }

  /** The grid starts on a Sunday no more than six days before the first of the
      month, so all 31 possible days of the month fall inside its 42 cells. */
  lemma GridCoversMonth(firstOfMonth: Day)
    ensures Weekday(GridStart(firstOfMonth)) == 0
    ensures GridStart(firstOfMonth) <= firstOfMonth < GridStart(firstOfMonth) + 7
    ensures firstOfMonth + 30 < GridStart(firstOfMonth) + GridSize
  {
    var w := Weekday(firstOfMonth);
    var q := (firstOfMonth + 4) / 7;
    assert firstOfMonth + 4 == 7 * q + w;
    assert GridStart(firstOfMonth) + 4 == 7 * q;
  }

  /** One cell of the grid. `isCurrentMonth` compares the cell's month, as the
      local calendar gives it, with the displayed month. */
  datatype CalendarDay = CalendarDay(
    day: Day,
    isCurrentMonth: bool,
    isToday: bool,
    hasHabits: bool,
    dayHabits: seq<Habit>,
    allHabitsCompleted: bool,
    hasMissedHabits: bool,
    status: DayStatus,
    activeHabits: seq<Habit>)

  /** The cell for day `d`. `monthOf` is the local month of a day. */
  function Cell(habits: seq<Habit>, d: Day, today: Day, displayedMonth: int, monthOf: Day -> int, parse: JsonParser): CalendarDay
  {
    var dayHabits := HabitsForDay(habits, d, parse);
    var active := ActiveHabits(habits, d);
    CalendarDay(
      d,
      monthOf(d) == displayedMonth,
      d == today,
      |dayHabits| > 0,
      dayHabits,
      |active| > 0 && AllCompletedOn(active, d, parse),
      AnyMissedOn(active, d, parse),
      StatusOf(habits, d, today, parse),
      active)
  }

  /** `generateCalendarDays`: 42 consecutive days from the grid's Sunday, one
      cell each. */
  method GenerateCalendarDays(habits: seq<Habit>, firstOfMonth: Day, displayedMonth: int, monthOf: Day -> int,
                              today: Day, parse: JsonParser)
    returns (days: seq<CalendarDay>)
    ensures |days| == GridSize
    ensures forall i :: 0 <= i < |days| ==>
              days[i] == Cell(habits, GridStart(firstOfMonth) + i, today, displayedMonth, monthOf, parse)
  {
    var startDate := firstOfMonth - Weekday(firstOfMonth);
    days := [];
    for i := 0 to GridSize
      invariant |days| == i
      invariant forall j :: 0 <= j < i ==>
                  days[j] == Cell(habits, startDate + j, today, displayedMonth, monthOf, parse)
    {
      var currentDate := startDate + i;
      days := days + [Cell(habits, currentDate, today, displayedMonth, monthOf, parse)];
    }
  }
}
