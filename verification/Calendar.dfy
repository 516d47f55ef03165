/**
  The proleptic Gregorian calendar of Python's `date`: day numbers and civil
  dates, one to one. Day 0 is 1970-01-01; the first day there is, 0001-01-01.
*/
module Calendar {

  datatype Date = Date(year: nat, month: nat, day: nat)

  const FIRST_DAY := -719_162
  const LAST_DAY := 2_932_896

  predicate IsLeap(year: nat) {
    year % 4 == 0 && (year % 100 != 0 || year % 400 == 0)
  }

  function DaysInMonth(year: nat, month: nat): nat {
    if month == 2 then (if IsLeap(year) then 29 else 28)
    else if month == 4 || month == 6 || month == 9 || month == 11 then 30
    else 31
  }

  predicate IsDate(d: Date) {
    d.year >= 1 && 1 <= d.month <= 12 && 1 <= d.day <= DaysInMonth(d.year, d.month)
  }

  function Tomorrow(d: Date): Date {
    if d.day < DaysInMonth(d.year, d.month) then Date(d.year, d.month, d.day + 1)
    else if d.month < 12 then Date(d.year, d.month + 1, 1)
    else Date(d.year + 1, 1, 1)
  }

  /** The date of a day number, counting on from the first day. */
  function DateOf(day: int): Date
    requires day >= FIRST_DAY
    decreases day - FIRST_DAY
  {
    if day == FIRST_DAY then Date(1, 1, 1) else Tomorrow(DateOf(day - 1))
  }

  // ----- the way back -----

  /** Days before the first of the year, leap years counted in closed form. */
  function DaysBeforeYear(year: nat): int
    requires year >= 1
  {
    var y := year - 1;
    365 * y + y / 4 - y / 100 + y / 400
  }

  function DaysBeforeMonth(year: nat, month: nat): nat {
    if month <= 1 then 0 else DaysBeforeMonth(year, month - 1) + DaysInMonth(year, month - 1)
  }

  function DayNumber(d: Date): int
    requires d.year >= 1
  {
    FIRST_DAY + DaysBeforeYear(d.year) + DaysBeforeMonth(d.year, d.month) + d.day - 1
  }

  lemma Multiples(y: int)
    ensures y / 4 - (y - 1) / 4 == if y % 4 == 0 then 1 else 0
    ensures y / 100 - (y - 1) / 100 == if y % 100 == 0 then 1 else 0
    ensures y / 400 - (y - 1) / 400 == if y % 400 == 0 then 1 else 0
    ensures (y % 400 == 0 ==> y % 100 == 0) && (y % 100 == 0 ==> y % 4 == 0)
  {}

  lemma YearLength(year: nat)
    requires year >= 1
    ensures DaysBeforeYear(year + 1) == DaysBeforeYear(year) + 365 + if IsLeap(year) then 1 else 0
  {
    Multiples(year);
  }

  lemma MonthsFillTheYear(year: nat)
    ensures DaysBeforeMonth(year, 12) + DaysInMonth(year, 12) == 365 + if IsLeap(year) then 1 else 0
  {
    var february := DaysInMonth(year, 2);
    assert DaysBeforeMonth(year, 1) == 0;
    assert DaysBeforeMonth(year, 3) == 31 + february;
    assert DaysBeforeMonth(year, 5) == 92 + february;
    assert DaysBeforeMonth(year, 7) == 153 + february;
    assert DaysBeforeMonth(year, 9) == 215 + february;
    assert DaysBeforeMonth(year, 11) == 276 + february;
  }

  lemma TomorrowIsNext(d: Date)
    requires IsDate(d)
    ensures IsDate(Tomorrow(d)) && DayNumber(Tomorrow(d)) == DayNumber(d) + 1
  {
    if d.day == DaysInMonth(d.year, d.month) && d.month == 12 {
      MonthsFillTheYear(d.year);
      YearLength(d.year);
    }
  }

  /** Counting on day by day and computing back agree. */
  lemma {:induction false} DayNumberOfDateOf(day: int)
    requires day >= FIRST_DAY
    ensures IsDate(DateOf(day)) && DayNumber(DateOf(day)) == day
    decreases day - FIRST_DAY
  {
    if day > FIRST_DAY {
      DayNumberOfDateOf(day - 1);
      TomorrowIsNext(DateOf(day - 1));
    }
  }

  /** Different days have different dates. */
  lemma DateOfInjective(a: int, b: int)
    requires a >= FIRST_DAY && b >= FIRST_DAY
    ensures DateOf(a) == DateOf(b) <==> a == b
  {
    DayNumberOfDateOf(a);
    DayNumberOfDateOf(b);
  }

  // ----- and different dates different days -----

  lemma {:induction false} MonthsBefore(year: nat, month: nat, later: nat)
    requires 1 <= month < later
    ensures DaysBeforeMonth(year, month) + DaysInMonth(year, month) <= DaysBeforeMonth(year, later)
  {
    if month < later - 1 {
      MonthsBefore(year, month, later - 1);
    }
  }

  lemma {:induction false} YearsBefore(year: nat, later: nat)
    requires 1 <= year < later
    ensures DaysBeforeYear(year + 1) <= DaysBeforeYear(later)
  {
    if year < later - 1 {
      YearsBefore(year, later - 1);
      YearLength(later - 1);
    }
  }

  lemma WithinYear(d: Date)
    requires IsDate(d)
    ensures FIRST_DAY + DaysBeforeYear(d.year) <= DayNumber(d) < FIRST_DAY + DaysBeforeYear(d.year + 1)
  {
    YearLength(d.year);
    MonthsFillTheYear(d.year);
    if d.month < 12 {
      MonthsBefore(d.year, d.month, 12);
    }
  }

  lemma EarlierNumber(a: Date, b: Date)
    requires IsDate(a) && IsDate(b)
    requires a.year < b.year || (a.year == b.year && a.month < b.month)
    ensures DayNumber(a) < DayNumber(b)
  {
    if a.year < b.year {
      WithinYear(a);
      WithinYear(b);
      YearsBefore(a.year, b.year);
    } else {
      MonthsBefore(a.year, a.month, b.month);
    }
  }

  lemma DayNumberInjective(a: Date, b: Date)
    requires IsDate(a) && IsDate(b) && DayNumber(a) == DayNumber(b)
    ensures a == b
  {
    if a.year < b.year || (a.year == b.year && a.month < b.month) {
      EarlierNumber(a, b);
    } else if b.year < a.year || (b.year == a.year && b.month < a.month) {
      EarlierNumber(b, a);
    }
  }

  /** Every date from the first day on is the date of its own day number; so day 0 is 1970-01-01. */
  lemma DateOfDayNumber(d: Date)
    requires IsDate(d)
    ensures DayNumber(d) >= FIRST_DAY && DateOf(DayNumber(d)) == d
    ensures DateOf(0) == Date(1970, 1, 1)
  {
    DateIsOfItsNumber(d);
    DateIsOfItsNumber(Date(1970, 1, 1));
    EpochIsDayZero();
  }

  lemma EpochIsDayZero()
    ensures DayNumber(Date(1970, 1, 1)) == 0
  {
    assert DaysBeforeYear(1970) == 719_162;
  }

  lemma DateIsOfItsNumber(d: Date)
    requires IsDate(d)
    ensures DayNumber(d) >= FIRST_DAY && DateOf(DayNumber(d)) == d
  {
    WithinYear(d);
    YearStart(d.year);
    DayNumberOfDateOf(DayNumber(d));
    DayNumberInjective(DateOf(DayNumber(d)), d);
  }

  /** The last day of the year 9999 is the last one Python has. */
  lemma FourDigitYears(day: int)
    requires FIRST_DAY <= day <= LAST_DAY
    ensures IsDate(DateOf(day)) && DateOf(day).year < 10_000
  {
    DayNumberOfDateOf(day);
    WithinYear(DateOf(day));
    YearsMonotone(10_000, DateOf(day).year);
  }

  lemma {:induction false} YearsMonotone(year: nat, later: nat)
    ensures 1 <= year <= later ==> DaysBeforeYear(year) <= DaysBeforeYear(later)
  {
    if 1 <= year < later {
      YearsMonotone(year, later - 1);
      YearLength(later - 1);
    }
  }

  lemma YearStart(year: nat)
    requires year >= 1
    ensures DaysBeforeYear(year) >= 0
  {}
}
