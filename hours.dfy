/**
 * The studio's weekly opening hours, `BUSINESS_HOURS` in the booking server,
 * with the fractional hours written as exact minutes after midnight
 * (9 -> 540, 18.5 -> 1110, 8 -> 480, 14 -> 840).
 */
module BusinessHours {
  import opened Wrappers

  /** Days of the week as `getDay()` numbers them: 0 is Sunday, 6 is Saturday. */
  type Weekday = d: nat | d < 7

  /** Opening and closing time of a day, in minutes after midnight. */
  datatype Hours = Hours(start: nat, end: nat)

  const Weekdays: Hours := Hours(9 * 60, 18 * 60 + 30)
  const Saturday: Hours := Hours(8 * 60, 14 * 60)

  /** The hours table: Sunday is closed, Saturday 08:00-14:00, every other day 09:00-18:30. */
  function WindowFor(day: Weekday): (w: Option<Hours>)
    ensures w.None? <==> day == 0
    ensures day == 6 ==> w == Some(Hours(480, 840))
    ensures 1 <= day <= 5 ==> w == Some(Hours(540, 1110))
  {
    if day == 0 then None
    else if day == 6 then Some(Saturday)
    else Some(Weekdays)
  }
}
