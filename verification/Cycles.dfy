/** Billing cycle boundaries: Tariff.get_last_cycle_start and Tariff.get_next_cycle_start. */
module Cycles {
  import opened Wrappers

  // Microseconds in UTC, the resolution of a Python datetime.
  type Time = int

  const SECOND: int := 1_000_000
  const DAY: int := 86_400_000_000

  /** Calendar months: when month m starts, and the month a time falls in. Months have at least 28 days. */
  datatype Months = Months(start: int -> Time, of: Time -> int) {
    ghost predicate Valid() {
      && (forall m :: start(m) + 28 * DAY <= start(m + 1))
      && (forall t :: start(of(t)) <= t < start(of(t) + 1))
    }
  }

  type Calendar = c: Months | c.Valid()
    ghost witness EvenMonths()

  // Months of 30 days each meet the calendar's contract.
  ghost function EvenMonths(): (c: Months)
    ensures c.Valid()
  {
    Months(m => m * 2_592_000_000_000, t => t / 2_592_000_000_000)
  }

  type MonthDay = d: int | 1 <= d <= 31 witness 1

  // The start days that every month has.
  type StartDay = d: MonthDay | d <= 28 witness 1

  // The day of month m on which a cycle starts, if the month is long enough.
  function Boundary(cal: Calendar, day: MonthDay, m: int): Time {
    cal.start(m) + (day - 1) * DAY
  }

  predicate HasDay(cal: Calendar, day: MonthDay, m: int) {
    Boundary(cal, day, m) < cal.start(m + 1)
  }

  ghost predicate IsBoundary(cal: Calendar, day: MonthDay, t: Time) {
    exists m :: HasDay(cal, day, m) && t == Boundary(cal, day, m)
  }

  // None is the ValueError for a month that is too short; the month of the date is always looked up.
  function GetLastCycleStart(cal: Calendar, day: MonthDay, date: Time): (r: Option<Time>)
    ensures day <= 28 ==> r.Some?
  {
    var m := cal.of(date);
    if !HasDay(cal, day, m) then None
    else if date >= Boundary(cal, day, m) then Some(Boundary(cal, day, m))
    else if HasDay(cal, day, m - 1) then Some(Boundary(cal, day, m - 1))
    else None
  }

  function GetNextCycleStart(cal: Calendar, day: MonthDay, daily: bool, date: Time): (r: Option<Time>)
    ensures day <= 28 ==> r.Some?
  {
    if daily then Some(date + DAY)
    else
      var m := cal.of(date);
      if !HasDay(cal, day, m) then None
      else if date < Boundary(cal, day, m) then Some(Boundary(cal, day, m))
      else if HasDay(cal, day, m + 1) then Some(Boundary(cal, day, m + 1))
      else None
  }

  function LastCycleStart(cal: Calendar, day: StartDay, date: Time): Time {
    GetLastCycleStart(cal, day, date).value
  }

  function NextCycleStart(cal: Calendar, day: StartDay, daily: bool, date: Time): Time {
    GetNextCycleStart(cal, day, daily, date).value
  }

  lemma {:induction false} MonthsIncrease(cal: Calendar, m: int, n: int)
    requires m < n
    ensures cal.start(m) + 28 * DAY <= cal.start(n)
    decreases n - m
  {
    assert cal.start(n - 1) + 28 * DAY <= cal.start(n - 1 + 1);
    if m < n - 1 {
      MonthsIncrease(cal, m, n - 1);
    }
  }

  // A time in month m or later is at or after every boundary of an earlier month, and the other way round.
  lemma BoundaryInMonth(cal: Calendar, day: MonthDay, n: int, m: int)
    requires HasDay(cal, day, n)
    ensures n < m ==> Boundary(cal, day, n) < cal.start(m)
    ensures m < n ==> cal.start(m + 1) <= Boundary(cal, day, n)
  {
    if n + 1 < m { MonthsIncrease(cal, n + 1, m); }
    if m + 1 < n { MonthsIncrease(cal, m + 1, n); }
  }

  // Some boundary lies in [since, before).
  ghost predicate BoundaryWithin(cal: Calendar, day: MonthDay, since: Time, before: Time) {
    exists t :: IsBoundary(cal, day, t) && since <= t < before
  }

  lemma MonthHasDay(cal: Calendar, day: MonthDay, m: int)
    ensures HasDay(cal, day, m) <==> BoundaryWithin(cal, day, cal.start(m), cal.start(m + 1))
  {
    if HasDay(cal, day, m) {
      assert IsBoundary(cal, day, Boundary(cal, day, m));
    }
    if BoundaryWithin(cal, day, cal.start(m), cal.start(m + 1)) {
      var t :| IsBoundary(cal, day, t) && cal.start(m) <= t < cal.start(m + 1);
      var n :| HasDay(cal, day, n) && t == Boundary(cal, day, n);
      BoundaryInMonth(cal, day, n, m);
    }
  }

  lemma BoundaryUpTo(cal: Calendar, day: MonthDay, date: Time, t: Time)
    requires IsBoundary(cal, day, t) && t <= date
    ensures
      var r := GetLastCycleStart(cal, day, date);
      && (r.Some? ==> t <= r.value)
      && (HasDay(cal, day, cal.of(date)) && cal.start(cal.of(date) - 1) <= t ==> r.Some?)
  {
    var m := cal.of(date);
    assert cal.start(m) <= date < cal.start(m + 1);
    var n :| HasDay(cal, day, n) && t == Boundary(cal, day, n);
    BoundaryInMonth(cal, day, n, m);
    BoundaryInMonth(cal, day, n, m - 1);
  }

  /**
   * The last cycle start is the greatest boundary at or before the date. It is found exactly when the month of the
   * date has a boundary and one lies between the start of the month before it and the date.
   */
  lemma LastCycleStartIsGreatest(cal: Calendar, day: MonthDay, date: Time)
    ensures
      var r := GetLastCycleStart(cal, day, date);
      var m := cal.of(date);
      && (r.Some? ==> IsBoundary(cal, day, r.value) && r.value <= date)
      && (r.Some? ==> forall t | IsBoundary(cal, day, t) && t <= date :: t <= r.value)
      && (r.Some? <==>
          && BoundaryWithin(cal, day, cal.start(m), cal.start(m + 1))
          && BoundaryWithin(cal, day, cal.start(m - 1), date + 1))
  {
    var r := GetLastCycleStart(cal, day, date);
    var m := cal.of(date);
    MonthHasDay(cal, day, m);
    forall t | IsBoundary(cal, day, t) && t <= date
      ensures r.Some? ==> t <= r.value
      ensures HasDay(cal, day, m) && cal.start(m - 1) <= t ==> r.Some?
    {
      BoundaryUpTo(cal, day, date, t);
    }
    if r.Some? {
      assert cal.start(m) <= date < cal.start(m + 1);
      assert cal.start(m - 1) <= cal.start(m - 1 + 1);
      assert IsBoundary(cal, day, r.value) && cal.start(m - 1) <= r.value < date + 1;
    }
  }

  lemma BoundaryAfter(cal: Calendar, day: MonthDay, date: Time, t: Time)
    requires IsBoundary(cal, day, t) && t > date
    ensures
      var r := GetNextCycleStart(cal, day, false, date);
      && (r.Some? ==> r.value <= t)
      && (HasDay(cal, day, cal.of(date)) && t < cal.start(cal.of(date) + 2) ==> r.Some?)
  {
    var m := cal.of(date);
    assert cal.start(m) <= date < cal.start(m + 1);
    var n :| HasDay(cal, day, n) && t == Boundary(cal, day, n);
    BoundaryInMonth(cal, day, n, m);
    BoundaryInMonth(cal, day, n, m + 1);
  }

  /**
   * A monthly plan bought at a date runs to the least boundary after it, any plan runs past the date. The end of a
   * monthly plan is found exactly when the month of the date has a boundary and one lies between the date and the
   * end of the next month.
   */
  lemma NextCycleStartIsLeast(cal: Calendar, day: MonthDay, daily: bool, date: Time)
    ensures
      var r := GetNextCycleStart(cal, day, daily, date);
      var m := cal.of(date);
      && (r.Some? ==> r.value > date)
      && (r.Some? && !daily ==> IsBoundary(cal, day, r.value))
      && (r.Some? && !daily ==> forall t | IsBoundary(cal, day, t) && t > date :: r.value <= t)
      && (r.Some? <==>
          || daily
          || (&& BoundaryWithin(cal, day, cal.start(m), cal.start(m + 1))
              && BoundaryWithin(cal, day, date + 1, cal.start(m + 2))))
  {
    if !daily {
      var r := GetNextCycleStart(cal, day, daily, date);
      var m := cal.of(date);
      MonthHasDay(cal, day, m);
      forall t | IsBoundary(cal, day, t) && t > date
        ensures r.Some? ==> r.value <= t
        ensures HasDay(cal, day, m) && t < cal.start(m + 2) ==> r.Some?
      {
        BoundaryAfter(cal, day, date, t);
      }
      if r.Some? {
        assert cal.start(m) <= date < cal.start(m + 1);
        assert cal.start(m + 1) <= cal.start(m + 1 + 1);
        assert IsBoundary(cal, day, r.value) && date + 1 <= r.value < cal.start(m + 2);
      }
    }
  }

  /** No date makes the last cycle start fail exactly when every month has the start day, as it has days up to 28. */
  lemma LastCycleStartNeverFails(cal: Calendar, day: MonthDay)
    ensures (forall date :: GetLastCycleStart(cal, day, date).Some?) <==> (forall m :: HasDay(cal, day, m))
    ensures day <= 28 ==> forall m :: HasDay(cal, day, m)
  {
    forall m | !HasDay(cal, day, m) ensures GetLastCycleStart(cal, day, cal.start(m)).None? {
      var n := cal.of(cal.start(m));
      assert cal.start(n) <= cal.start(m) < cal.start(n + 1);
      if n < m { MonthsIncrease(cal, n, m); if n + 1 < m { MonthsIncrease(cal, n + 1, m); } }
      if m < n { MonthsIncrease(cal, m, n); }
    }
  }

  // What billing needs of the start days it takes.
  lemma LastCycleStartIsBoundary(cal: Calendar, day: StartDay, date: Time)
    ensures IsBoundary(cal, day, LastCycleStart(cal, day, date)) && LastCycleStart(cal, day, date) <= date
  {
    LastCycleStartIsGreatest(cal, day, date);
  }

  lemma NextCycleStartIsLater(cal: Calendar, day: StartDay, daily: bool, date: Time)
    ensures NextCycleStart(cal, day, daily, date) > date
  {
    NextCycleStartIsLeast(cal, day, daily, date);
  }
}
