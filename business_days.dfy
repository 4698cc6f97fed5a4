/**
 * Calendar days and the business-day roll-forward applied to each due date.
 * A business day is a weekday of the default business-day calendar:
 * Monday to Friday, with no holidays.
 */
module BusinessDays {

  datatype Weekday = Monday | Tuesday | Wednesday | Thursday | Friday | Saturday | Sunday

  /** A calendar date, as a count of days from a fixed Monday (day 0). */
  type Date = int

  function WeekdayOf(d: Date): Weekday
  {
    var k := d % 7;
    if k == 0 then Monday
    else if k == 1 then Tuesday
    else if k == 2 then Wednesday
    else if k == 3 then Thursday
    else if k == 4 then Friday
    else if k == 5 then Saturday
    else Sunday
  }

  predicate IsBusinessDay(d: Date)
  {
    WeekdayOf(d) != Saturday && WeekdayOf(d) != Sunday
  }

  /**
   * The due-date adjustment: keep the date if it is a business day, else
   * take the next day if that one is, else the day after.
   */
  function RollForward(d: Date): (rolled: Date)
    ensures d <= rolled <= d + 2
    ensures IsBusinessDay(rolled)
    ensures forall e :: d <= e < rolled ==> !IsBusinessDay(e)
    ensures WeekdayOf(d) == Saturday ==> rolled == d + 2 && WeekdayOf(rolled) == Monday
    ensures WeekdayOf(d) == Sunday ==> rolled == d + 1 && WeekdayOf(rolled) == Monday
  {
    if IsBusinessDay(d) then d
    else if IsBusinessDay(d + 1) then d + 1
    else d + 2
  }

  /** A date that is already a business day is kept as it is. */
  lemma RollForwardKeepsBusinessDay(d: Date)
    requires IsBusinessDay(d)
    ensures RollForward(d) == d
  {
  }

  /** Rolling an already rolled date changes nothing. */
  lemma RollForwardIdempotent(d: Date)
    ensures RollForward(RollForward(d)) == RollForward(d)
  {
  }
}
