/** The dashboard's habit list and the two handlers that replace it: adding a
    habit behind the free-tier cap, and toggling today's completion of a
    habit. The store's answers are parameters. */
module Dashboard {
  import opened Common
  import opened Habits

  /** The number of habits a free account may have. */
  const FreeHabitLimit: nat := 5

  /** `handleAddHabit` refuses a free account that already has five habits. */
  predicate AddBlocked(isPremium: bool, count: int)
  {
    !isPremium && count >= FreeHabitLimit
  }

  /** The answer of the habit insert: an error, the inserted row with the id
      the store assigned, or no rows returned. */
  datatype InsertResult = InsertFailed | InsertedRow(rowId: int) | NoRowsReturned

  /** The habit the page inserts: no completions yet, created now. */
  function NewHabit(rowId: int, name: string, category: string, now: Day): Habit
  {
    Habit(rowId, name, category, now, DateList([]))
  }

  /** The habit list after `handleAddHabit`. */
  function AfterAdd(habits: seq<Habit>, isPremium: bool, signedIn: bool, name: string, category: string,
                    now: Day, result: InsertResult): seq<Habit>
  {
    if AddBlocked(isPremium, |habits|) || !signedIn then habits
    else match result
      case InsertedRow(rowId) => habits + [NewHabit(rowId, name, category, now)]
      case _ => habits
  }

  /** The cap: a blocked add leaves the list as it was and a premium account is
      never blocked; otherwise the list grows only by the inserted row, at the
      end, and only when the insert returned it. */
  lemma AddHabitSpec(habits: seq<Habit>, isPremium: bool, signedIn: bool, name: string, category: string,
                     now: Day, result: InsertResult)
    ensures isPremium ==> !AddBlocked(isPremium, |habits|)
    ensures AddBlocked(isPremium, |habits|) ==> AfterAdd(habits, isPremium, signedIn, name, category, now, result) == habits
    ensures var after := AfterAdd(habits, isPremium, signedIn, name, category, now, result);
            && after[..|habits|] == habits
            && (|after| == |habits| + 1 <==> !AddBlocked(isPremium, |habits|) && signedIn && result.InsertedRow?)
            && (|after| != |habits| + 1 ==> after == habits)
            && (|after| == |habits| + 1 ==> after[|habits|] == NewHabit(result.rowId, name, category, now))
  {
  }

  /** A free account that starts within the cap stays within it. */
  lemma FreeCapKept(habits: seq<Habit>, signedIn: bool, name: string, category: string, now: Day, result: InsertResult)
    requires |habits| <= FreeHabitLimit
    ensures |AfterAdd(habits, false, signedIn, name, category, now, result)| <= FreeHabitLimit
  {
  }

  /** `habits.find(h => h.id === id)`: the first habit with that id. */
  function FindHabit(habits: seq<Habit>, id: int): (r: Option<Habit>)
    ensures r.Some? ==> r.value in habits && r.value.id == id
    ensures r.Some? ==> exists k :: 0 <= k < |habits| && habits[k] == r.value
                                    && forall j :: 0 <= j < k ==> habits[j].id != id
    ensures r.None? <==> forall h :: h in habits ==> h.id != id
  {
    if habits == [] then None
    else if habits[0].id == id then Some(habits[0])
    else
      var r := FindHabit(habits[1..], id);
      if r.Some? then
        var k :| 0 <= k < |habits[1..]| && habits[1..][k] == r.value
                 && forall j :: 0 <= j < k ==> habits[1..][j].id != id;
        assert habits[k + 1] == r.value;
        assert forall j :: 0 <= j < k + 1 ==> habits[j].id != id by {
          forall j | 0 <= j < k + 1
            ensures habits[j].id != id
          {
            if j > 0 {
              assert habits[j] == habits[1..][j - 1];
            }
          }
        }
        r
      else r
  }

  /** `habits.map(...)` giving every habit with that id the new dates. */
  function WithCompletedDates(habits: seq<Habit>, id: int, dates: seq<Day>): (r: seq<Habit>)
    ensures |r| == |habits|
  {
    if habits == [] then []
    else [if habits[0].id == id then habits[0].(completedDates := DateList(dates)) else habits[0]]
         + WithCompletedDates(habits[1..], id, dates)
  }

  lemma {:induction false} WithCompletedDatesAt(habits: seq<Habit>, id: int, dates: seq<Day>, i: int)
    requires 0 <= i < |habits|
    ensures WithCompletedDates(habits, id, dates)[i]
            == if habits[i].id == id then habits[i].(completedDates := DateList(dates)) else habits[i]
  {
    if i > 0 {
      WithCompletedDatesAt(habits[1..], id, dates, i - 1);
    }
  }

  /** The habit list after `toggleHabitCompletion`: unchanged without such a
      habit or when the update fails; otherwise the toggled dates of the found
      habit are stored, as an array, on every habit with that id. */
  function AfterToggle(habits: seq<Habit>, id: int, today: Day, parse: JsonParser, updateOk: bool): seq<Habit>
  {
    match FindHabit(habits, id)
    case None => habits
    case Some(h) => if updateOk then WithCompletedDates(habits, id, ToggleDates(Completed(h, parse), today)) else habits
  }

  /** Habit ids are the store's primary key. */
  predicate UniqueIds(habits: seq<Habit>)
  {
    forall i, j :: 0 <= i < j < |habits| ==> habits[i].id != habits[j].id
  }

  /** A successful toggle flips today's completion of the chosen habit, keeps its
      other dates in order, and leaves every other habit as it was. */
  lemma ToggleHabitSpec(habits: seq<Habit>, id: int, today: Day, parse: JsonParser, i: int)
    requires UniqueIds(habits) && 0 <= i < |habits|
    ensures var after := AfterToggle(habits, id, today, parse, true);
            && |after| == |habits|
            && (habits[i].id != id ==> after[i] == habits[i])
            && (habits[i].id == id ==>
                  && after[i] == habits[i].(completedDates := DateList(ToggleDates(Completed(habits[i], parse), today)))
                  && (today in Completed(after[i], parse) <==> today !in Completed(habits[i], parse))
                  && RemoveAll(Completed(after[i], parse), today) == RemoveAll(Completed(habits[i], parse), today))
  {
    var found := FindHabit(habits, id);
    if found.Some? {
      WithCompletedDatesAt(habits, id, ToggleDates(Completed(found.value, parse), today), i);
      if habits[i].id == id {
        var j :| 0 <= j < |habits| && habits[j] == found.value;
        assert j == i;
        ToggleSpec(Completed(habits[i], parse), today);
      }
    }
  }

  /** After a successful toggle the dates are stored as an array, so reading
      them back no longer depends on how stored JSON text is parsed. */
  lemma ToggleStoresArray(habits: seq<Habit>, id: int, today: Day, parse: JsonParser, i: int,
                          p1: JsonParser, p2: JsonParser)
    requires 0 <= i < |habits| && habits[i].id == id
    ensures var after := AfterToggle(habits, id, today, parse, true);
            && after[i].completedDates.DateList?
            && Completed(after[i], p1) == Completed(after[i], p2)
  {
    var found := FindHabit(habits, id);
    assert habits[i] in habits;
    WithCompletedDatesAt(habits, id, ToggleDates(Completed(found.value, parse), today), i);
  }

  /** A failed update, or an unknown id, leaves the list as it was. */
  lemma ToggleNoEffect(habits: seq<Habit>, id: int, today: Day, parse: JsonParser, updateOk: bool)
    requires !updateOk || forall h :: h in habits ==> h.id != id
    ensures AfterToggle(habits, id, today, parse, updateOk) == habits
  {
  }

  class HabitBoard {
    var habits: seq<Habit>
    var isPremium: bool
    var signedIn: bool
    var showUpgradeModal: bool
    var showHabitModal: bool

    constructor (isPremium: bool, signedIn: bool)
      ensures this.habits == [] && this.isPremium == isPremium && this.signedIn == signedIn
      ensures !showUpgradeModal && !showHabitModal
    {
      this.habits := [];
      this.isPremium := isPremium;
      this.signedIn := signedIn;
      showUpgradeModal := false;
      showHabitModal := false;
    }

    /** A free account has at most five habits. */
    predicate WithinFreeCap()
      reads this
    {
      isPremium || |habits| <= FreeHabitLimit
    }

    /** `handleAddHabit` followed by `addHabit`: the cap opens the upgrade
        dialog; without a user nothing happens; an insert error leaves the list
        and the dialog; otherwise the returned row is appended and the habit
        dialog is closed. */
    method HandleAddHabit(name: string, category: string, now: Day, result: InsertResult)
      modifies this
      ensures habits == AfterAdd(old(habits), isPremium, signedIn, name, category, now, result)
      ensures isPremium == old(isPremium) && signedIn == old(signedIn)
      ensures showUpgradeModal == (old(showUpgradeModal) || AddBlocked(isPremium, |old(habits)|))
      ensures showHabitModal
              == if !AddBlocked(isPremium, |old(habits)|) && signedIn && !result.InsertFailed? then false
                 else old(showHabitModal)
      ensures old(WithinFreeCap()) ==> WithinFreeCap()
    {
      if !isPremium && |habits| >= FreeHabitLimit {
        showUpgradeModal := true;
        return;
      }
      if !signedIn {
        return;
      }
      match result {
        case InsertFailed =>
          return;
        case InsertedRow(rowId) =>
          habits := habits + [NewHabit(rowId, name, category, now)];
        case NoRowsReturned =>
      }
      showHabitModal := false;
    }

    /** `toggleHabitCompletion`: find the habit, toggle today in its normalised
        dates, and store the new list once the update succeeded. */
    method ToggleHabitCompletion(habitId: int, today: Day, parse: JsonParser, updateOk: bool)
      modifies this
      ensures habits == AfterToggle(old(habits), habitId, today, parse, updateOk)
      ensures isPremium == old(isPremium) && signedIn == old(signedIn)
      ensures showUpgradeModal == old(showUpgradeModal) && showHabitModal == old(showHabitModal)
    {
      var habit := FindHabit(habits, habitId);
      if habit.None? {
        return;
      }
      var dates := GetCompletedDates(habit.value.completedDates, parse);
      var isCompleted := today in dates;
      var updatedDates := if isCompleted then RemoveAll(dates, today) else dates + [today];
      if updateOk {
        habits := WithCompletedDates(habits, habitId, updatedDates);
      }
    }
  }
}
