/**
 * `getAvailableDates` of the booking widget: the 21 days from today,
 * Sundays left out. Days are numbered consecutively (any fixed origin);
 * `weekday` is today's `getDay()`. The value of an entry is its date as
 * `toISOString` prints it, which is the UTC date of that day at the
 * current time of day, so it can be a day later (or earlier) than the day
 * the entry displays.
 */
module AvailableDates {
  import opened BusinessHours

  /** One button of the date picker: `day` is the local day it displays, `value` the day its value names. */
  datatype DateOption = DateOption(value: int, day: int)

  const DaysAhead: nat := 21

  /**
   * How many days the UTC date is ahead of the local date at `minuteOfDay`
   * local time, in a zone `utcOffset` minutes behind UTC (180 at UTC-03:00).
   */
  function UtcCarry(minuteOfDay: nat, utcOffset: int): (r: int)
    ensures minuteOfDay < 24 * 60 && -24 * 60 <= utcOffset <= 24 * 60 ==>
              -1 <= r <= 1 && (r == 0 <==> 0 <= minuteOfDay + utcOffset < 24 * 60)
  {
    (minuteOfDay + utcOffset) / (24 * 60)
  }

  /** The weekday `i` days after a day whose weekday is `weekday`. */
  function WeekdayAfter(weekday: Weekday, i: int): Weekday {
    (weekday + i) % 7
  }

  /** The first `n` days from `today`, Sundays left out, each valued `carry` days later. */
  function Upcoming(today: int, weekday: Weekday, n: nat, carry: int): (r: seq<DateOption>)
    ensures |r| <= n
    ensures forall i :: 0 <= i < |r| ==> r[i].value == r[i].day + carry
  {
    if n == 0 then []
    else Upcoming(today, weekday, n - 1, carry) +
         (if WeekdayAfter(weekday, n - 1) != 0 then [DateOption(today + n - 1 + carry, today + n - 1)] else [])
  }

  /** The loop: 21 days, pushing every day that is not a Sunday. */
  method GetAvailableDates(today: int, weekday: Weekday, minuteOfDay: nat, utcOffset: int) returns (dates: seq<DateOption>)
    ensures dates == Upcoming(today, weekday, DaysAhead, UtcCarry(minuteOfDay, utcOffset))
  {
    dates := [];
    for i := 0 to DaysAhead
      invariant dates == Upcoming(today, weekday, i, UtcCarry(minuteOfDay, utcOffset))
    {
      if WeekdayAfter(weekday, i) != 0 {
        var value := today + i + (minuteOfDay + utcOffset) / (24 * 60);
        dates := dates + [DateOption(value, today + i)];
      }
    }
  }

  /**
   * An entry is listed exactly for each non-Sunday among the first `n`
   * days, valued `carry` days after the day it shows.
   */
  lemma {:induction false} UpcomingMember(today: int, weekday: Weekday, n: nat, carry: int, e: DateOption)
    ensures e in Upcoming(today, weekday, n, carry) <==>
            today <= e.day < today + n && WeekdayAfter(weekday, e.day - today) != 0 && e.value == e.day + carry
  {
    if n > 0 {
      UpcomingMember(today, weekday, n - 1, carry, e);
    }
  }

  ghost predicate DaysAscending(s: seq<DateOption>) {
    forall i, j :: 0 <= i < j < |s| ==> s[i].day < s[j].day
  }

  /** The entries are in strictly ascending order of day. */
  lemma {:induction false} UpcomingAscending(today: int, weekday: Weekday, n: nat, carry: int)
    ensures DaysAscending(Upcoming(today, weekday, n, carry))
  {
    if n > 0 {
      var prev := Upcoming(today, weekday, n - 1, carry);
      UpcomingAscending(today, weekday, n - 1, carry);
      forall i | 0 <= i < |prev|
        ensures prev[i].day < today + n - 1
      {
        UpcomingMember(today, weekday, n - 1, carry, prev[i]);
      }
      var s := Upcoming(today, weekday, n, carry);
      forall i, j | 0 <= i < j < |s|
        ensures s[i].day < s[j].day
      {
        assert s[i] == prev[i];
        if j >= |prev| {
          assert s[j].day == today + n - 1;
        } else {
          assert s[j] == prev[j];
        }
      }
    }
  }

  /** The weekday after a Saturday is Sunday; after any other day, the next number. */
  lemma NextWeekday(weekday: Weekday, i: int)
    ensures WeekdayAfter(weekday, i + 1) == if WeekdayAfter(weekday, i) == 6 then 0 else WeekdayAfter(weekday, i) + 1
  {
  }

  /** One more day adds one entry, unless it is a Sunday. */
  lemma UpcomingStep(today: int, weekday: Weekday, n: nat, carry: int)
    ensures |Upcoming(today, weekday, n + 1, carry)| ==
            |Upcoming(today, weekday, n, carry)| + (if WeekdayAfter(weekday, n) != 0 then 1 else 0)
  {
  }

  /** Seven more days add exactly six entries: one of any seven consecutive days is a Sunday. */
  lemma WeekAddsSix(today: int, weekday: Weekday, n: nat, carry: int)
    ensures |Upcoming(today, weekday, n + 7, carry)| == |Upcoming(today, weekday, n, carry)| + 6
  {
    WeekLength(today, weekday, n, carry);
    SixOfSeven(weekday, n);
  }

  /** 1 when the day `i` days on is listed, 0 when it is a Sunday. */
  function Listed(weekday: Weekday, i: int): nat {
    if WeekdayAfter(weekday, i) != 0 then 1 else 0
  }

  lemma WeekLength(today: int, weekday: Weekday, n: nat, carry: int)
    ensures |Upcoming(today, weekday, n + 7, carry)| == |Upcoming(today, weekday, n, carry)| +
              Listed(weekday, n) + Listed(weekday, n + 1) + Listed(weekday, n + 2) + Listed(weekday, n + 3) +
              Listed(weekday, n + 4) + Listed(weekday, n + 5) + Listed(weekday, n + 6)
  {
    UpcomingStep(today, weekday, n, carry);
    UpcomingStep(today, weekday, n + 1, carry);
    UpcomingStep(today, weekday, n + 2, carry);
    UpcomingStep(today, weekday, n + 3, carry);
    UpcomingStep(today, weekday, n + 4, carry);
    UpcomingStep(today, weekday, n + 5, carry);
    UpcomingStep(today, weekday, n + 6, carry);
  }

  /** Exactly one of seven consecutive days is a Sunday. */
  lemma SixOfSeven(weekday: Weekday, n: int)
    ensures Listed(weekday, n) + Listed(weekday, n + 1) + Listed(weekday, n + 2) + Listed(weekday, n + 3) +
            Listed(weekday, n + 4) + Listed(weekday, n + 5) + Listed(weekday, n + 6) == 6
  {
    NextWeekday(weekday, n);
    NextWeekday(weekday, n + 1);
    NextWeekday(weekday, n + 2);
    NextWeekday(weekday, n + 3);
    NextWeekday(weekday, n + 4);
    NextWeekday(weekday, n + 5);
  }

  /** Twenty-one days hold three Sundays, so the picker shows eighteen dates. */
  lemma EighteenDates(today: int, weekday: Weekday, carry: int)
    ensures |Upcoming(today, weekday, DaysAhead, carry)| == 18
  {
    WeekAddsSix(today, weekday, 0, carry);
    WeekAddsSix(today, weekday, 7, carry);
    WeekAddsSix(today, weekday, 14, carry);
  }

  /**
   * As written: on a Saturday at 21:00 or later in UTC-03:00, the UTC date
   * is already Sunday, so the first button shows Saturday but sends
   * Sunday's date, for which the slot handler answers an empty list; every
   * other button sends the day after the one it shows.
   */
  lemma SaturdayEveningSendsSunday(today: int, minuteOfDay: nat)
    requires 21 * 60 <= minuteOfDay < 24 * 60
    ensures var dates := Upcoming(today, 6, DaysAhead, UtcCarry(minuteOfDay, 180));
            |dates| >= 1 && dates[0] == DateOption(today + 1, today) && WeekdayAfter(6, dates[0].value - today) == 0
  {
    assert UtcCarry(minuteOfDay, 180) == 1;
    FirstEntry(today, 6, DaysAhead, 1);
  }

  /** When today is not a Sunday, the first entry is today's, valued `carry` days later. */
  lemma {:induction false} FirstEntry(today: int, weekday: Weekday, n: nat, carry: int)
    requires n >= 1 && weekday != 0
    ensures |Upcoming(today, weekday, n, carry)| >= 1
    ensures Upcoming(today, weekday, n, carry)[0] == DateOption(today + carry, today)
  {
    if n > 1 {
      FirstEntry(today, weekday, n - 1, carry);
    } else {
      assert WeekdayAfter(weekday, 0) == weekday;
    }
  }

  /**
   * Corrected: valuing each entry with its own local date (`carry` 0) sends
   * exactly the 18 days the picker shows, none of them a Sunday.
   */
  lemma LocalDatesNeverSunday(today: int, weekday: Weekday)
    ensures |Upcoming(today, weekday, DaysAhead, 0)| == 18
    ensures forall e :: e in Upcoming(today, weekday, DaysAhead, 0) ==>
              e.value == e.day && WeekdayAfter(weekday, e.value - today) != 0
  {
    EighteenDates(today, weekday, 0);
    forall e | e in Upcoming(today, weekday, DaysAhead, 0)
      ensures e.value == e.day && WeekdayAfter(weekday, e.value - today) != 0
    {
      UpcomingMember(today, weekday, DaysAhead, 0, e);
    }
  }
}
