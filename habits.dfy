/** Habits and their completion dates, as the dashboard page reads them: the
    stored `completed_dates` value is normalised to a list of days, and the
    completion toggle adds or removes today's day. */
module Habits {
  import opened Common

  /** The `completed_dates` column as it may come back from the store: a JSON
      array already decoded, a string still holding JSON text, or some other
      value (null, a number, an object). */
  datatype DatesField = DateList(days: seq<Day>) | DateText(json: string) | OtherValue

  /** `JSON.parse` applied to a stored string: the decoded list of days, or None
      when it throws a syntax error. */
  type JsonParser = string -> Option<seq<Day>>

  /** A habit row: its id, its name and category, the day of its `created_at`,
      and its completion dates. */
  datatype Habit = Habit(id: int, name: string, category: string, createdDay: Day, completedDates: DatesField)

  /** `getCompletedDates`: an array as it is, a string parsed as JSON (an empty
      list when parsing fails), anything else an empty list. */
  function GetCompletedDates(field: DatesField, parse: JsonParser): seq<Day>
  {
    match field
    case DateList(days) => days
    case DateText(json) => if parse(json).Some? then parse(json).value else []
    case OtherValue => []
  }

  /** Normalising is idempotent: a normalised list stored back as an array reads
      back unchanged, whatever parser is in use. */
  lemma NormaliseIdempotent(field: DatesField, parse: JsonParser, parse2: JsonParser)
    ensures GetCompletedDates(DateList(GetCompletedDates(field, parse)), parse2) == GetCompletedDates(field, parse)
  {
  }

  /** A list written out as JSON text reads back as the same list, for a parser
      that inverts the serialiser. */
  lemma StoredTextRoundTrip(days: seq<Day>, serialise: seq<Day> -> string, parse: JsonParser)
    requires parse(serialise(days)) == Some(days)
    ensures GetCompletedDates(DateText(serialise(days)), parse) == GetCompletedDates(DateList(days), parse)
  {
  }

  /** The normalised completion dates of a habit. */
  function Completed(h: Habit, parse: JsonParser): seq<Day>
  {
    GetCompletedDates(h.completedDates, parse)
  }

  // ---------------------------------------------------------------------------
  // Toggling today.

  /** `dates.filter(date => date !== d)`: every copy of `d` goes, and every
      other date stays (with all its repeats by `RemoveAllCounts`, in order
      by `RemoveAllAppend`). */
  function RemoveAll(dates: seq<Day>, d: Day): (r: seq<Day>)
    ensures |r| <= |dates|
    ensures forall x :: x in r <==> x in dates && x != d
  {
    if dates == [] then []
    else (if dates[0] == d then [] else [dates[0]]) + RemoveAll(dates[1..], d)
  }

  /** The filter drops every copy of `d` and keeps every other date as often
      as it occurs. */
  lemma {:induction false} RemoveAllCounts(dates: seq<Day>, d: Day)
    ensures multiset(RemoveAll(dates, d)) == multiset(dates)[d := 0]
  {
    if dates != [] {
      RemoveAllCounts(dates[1..], d);
      assert dates == [dates[0]] + dates[1..];
    }
  }

  lemma {:induction false} RemoveAllAppend(a: seq<Day>, b: seq<Day>, d: Day)
    ensures RemoveAll(a + b, d) == RemoveAll(a, d) + RemoveAll(b, d)
  {
    if a == [] {
      assert a + b == b;
    } else {
      assert (a + b)[0] == a[0] && (a + b)[1..] == a[1..] + b;
      RemoveAllAppend(a[1..], b, d);
    }
  }

  lemma {:induction false} RemoveAllAbsent(dates: seq<Day>, d: Day)
    requires d !in dates
    ensures RemoveAll(dates, d) == dates
  {
    if dates != [] {
      RemoveAllAbsent(dates[1..], d);
      assert [dates[0]] + dates[1..] == dates;
    }
  }

  /** The completion toggle: with `today` present every occurrence of it is
      removed, otherwise it is appended. */
  function ToggleDates(dates: seq<Day>, today: Day): seq<Day>
  {
    if today in dates then RemoveAll(dates, today) else dates + [today]
  }

  /** Toggling flips whether today is completed, and leaves every other date in
      place and in order. */
  lemma ToggleSpec(dates: seq<Day>, today: Day)
    ensures today in ToggleDates(dates, today) <==> today !in dates
    ensures RemoveAll(ToggleDates(dates, today), today) == RemoveAll(dates, today)
    ensures today !in dates ==> ToggleDates(dates, today) == dates + [today]
    ensures today in dates ==> |ToggleDates(dates, today)| < |dates|
  {
    if today in dates {
      var r := RemoveAll(dates, today);
      RemoveAllAbsent(r, today);
      RemoveAllShrinks(dates, today);
    } else {
      RemoveAllAppend(dates, [today], today);
      assert RemoveAll([today], today) == [];
      assert RemoveAll(dates, today) + [] == RemoveAll(dates, today);
    }
  }

  /** Removing a value that is present makes the list shorter. */
  lemma {:induction false} RemoveAllShrinks(dates: seq<Day>, d: Day)
    requires d in dates
    ensures |RemoveAll(dates, d)| < |dates|
  {
    if dates[0] != d {
      RemoveAllShrinks(dates[1..], d);
    }
  }

  /** Toggling twice from a list without today gives back the original list. */
  lemma ToggleTwice(dates: seq<Day>, today: Day)
    requires today !in dates
    ensures ToggleDates(ToggleDates(dates, today), today) == dates
  {
    assert today in dates + [today];
    RemoveAllAppend(dates, [today], today);
    RemoveAllAbsent(dates, today);
    assert RemoveAll([today], today) == [];
    assert dates + [] == dates;
  }
}
