/** The UTC calendar of section 21.4.1 of ECMA-262: years, months and days as day numbers from 1970-01-01. */
module Calendar {
  const MS_PER_DAY := 86_400_000

  predicate IsLeap(year: int) { (year % 4 == 0 && year % 100 != 0) || year % 400 == 0 }

  function DaysInYear(year: int): int { if IsLeap(year) then 366 else 365 }

  /** The day a year begins on, counted year by year from 1970. */
  function DayFromYear(year: int): int
    decreases if year < 1970 then 1970 - year else year - 1970
  {
    if year == 1970 then 0
    else if year > 1970 then DayFromYear(year - 1) + DaysInYear(year - 1)
    else DayFromYear(year + 1) - DaysInYear(year)
  }

  lemma YearLength(year: int)
    ensures DayFromYear(year + 1) == DayFromYear(year) + DaysInYear(year)
  {
  }

  /** The closed form the standard gives, leap years included, is the count. */
  lemma {:induction false} ClosedForm(year: int)
    ensures DayFromYear(year) == 365 * (year - 1970) + (year - 1969) / 4 - (year - 1901) / 100 + (year - 1601) / 400
    decreases if year < 1970 then 1970 - year else year - 1970
  {
    if year > 1970 {
      ClosedForm(year - 1);
      LeapDays(year - 1);
    } else if year < 1970 {
      ClosedForm(year + 1);
      LeapDays(year);
    }
  }

  lemma LeapDays(year: int)
    ensures (year - 1968) / 4 - (year - 1900) / 100 + (year - 1600) / 400
         == (year - 1969) / 4 - (year - 1901) / 100 + (year - 1601) / 400 + if IsLeap(year) then 1 else 0
  {
    Fourths(year);
    Hundredths(year);
    FourHundredths(year);
    Nested(year);
  }

  lemma Nested(year: int)
    ensures (year % 400 == 0 ==> year % 100 == 0) && (year % 100 == 0 ==> year % 4 == 0)
  {
  }

  lemma Fourths(year: int)
    ensures (year - 1968) / 4 - (year - 1969) / 4 == if year % 4 == 0 then 1 else 0
  {
  }

  lemma Hundredths(year: int)
    ensures (year - 1900) / 100 - (year - 1901) / 100 == if year % 100 == 0 then 1 else 0
  {
  }

  lemma FourHundredths(year: int)
    ensures (year - 1600) / 400 - (year - 1601) / 400 == if year % 400 == 0 then 1 else 0
  {
  }

  lemma {:induction false} YearsIncrease(a: int, b: int)
    requires a <= b
    ensures DayFromYear(a) + 365 * (b - a) <= DayFromYear(b)
    decreases b - a
  {
    if a < b {
      YearLength(b - 1);
      YearsIncrease(a, b - 1);
    }
  }

  /** The year a day falls in, found by stepping from a first guess. */
  function YearFrom(day: int, guess: int): (year: int)
    ensures DayFromYear(year) <= day < DayFromYear(year + 1)
    decreases if day < DayFromYear(guess) then DayFromYear(guess) - day
              else if day >= DayFromYear(guess + 1) then day - DayFromYear(guess + 1) + 1 else 0
  {
    if day < DayFromYear(guess) then
      YearLength(guess - 1);
      YearFrom(day, guess - 1)
    else if day >= DayFromYear(guess + 1) then
      YearLength(guess + 1);
      YearFrom(day, guess + 1)
    else guess
  }

  function YearOf(day: int): int { YearFrom(day, 1970) }

  lemma YearOfUnique(day: int, year: int)
    requires DayFromYear(year) <= day < DayFromYear(year + 1)
    ensures YearOf(day) == year
  {
    if year < YearOf(day) { YearsIncrease(year + 1, YearOf(day)); }
    if YearOf(day) < year { YearsIncrease(YearOf(day) + 1, year); }
  }

  // ---------- Months ----------

  /** A month of a year, January being zero. */
  datatype MonthValue = MonthValue(year: int, month: int)

  type YearMonth = m: MonthValue | 0 <= m.month <= 11 witness MonthValue(1970, 0)

  function DaysInMonth(m: YearMonth): (days: int)
    ensures 28 <= days <= 31
  {
    if m.month == 1 then (if IsLeap(m.year) then 29 else 28)
    else if m.month == 3 || m.month == 5 || m.month == 8 || m.month == 10 then 30
    else 31
  }

  function NextMonth(m: YearMonth): YearMonth {
    if m.month == 11 then MonthValue(m.year + 1, 0) else MonthValue(m.year, m.month + 1)
  }

  /** The first day of a month. */
  function MonthStart(m: YearMonth): int
    decreases m.month
  {
    if m.month == 0 then DayFromYear(m.year)
    else MonthStart(MonthValue(m.year, m.month - 1)) + DaysInMonth(MonthValue(m.year, m.month - 1))
  }

  lemma AprilBegins(year: int)
    ensures MonthStart(MonthValue(year, 3)) == DayFromYear(year) + if IsLeap(year) then 91 else 90
  {
    assert MonthStart(MonthValue(year, 1)) == DayFromYear(year) + 31;
    assert MonthStart(MonthValue(year, 2)) == MonthStart(MonthValue(year, 1)) + if IsLeap(year) then 29 else 28;
  }

  lemma AugustBegins(year: int)
    ensures MonthStart(MonthValue(year, 7)) == MonthStart(MonthValue(year, 3)) + 122
  {
    assert MonthStart(MonthValue(year, 5)) == MonthStart(MonthValue(year, 3)) + 61 by {
      assert MonthStart(MonthValue(year, 4)) == MonthStart(MonthValue(year, 3)) + 30;
    }
    assert MonthStart(MonthValue(year, 6)) == MonthStart(MonthValue(year, 5)) + 30;
  }

  lemma DecemberBegins(year: int)
    ensures MonthStart(MonthValue(year, 11)) == MonthStart(MonthValue(year, 7)) + 122
  {
    assert MonthStart(MonthValue(year, 9)) == MonthStart(MonthValue(year, 7)) + 61 by {
      assert MonthStart(MonthValue(year, 8)) == MonthStart(MonthValue(year, 7)) + 31;
    }
    assert MonthStart(MonthValue(year, 10)) == MonthStart(MonthValue(year, 9)) + 31;
  }

  /** The day of the year each month begins on. */
  lemma MonthTable(year: int)
    ensures var leap := if (year % 4 == 0 && year % 100 != 0) || year % 400 == 0 then 1 else 0;
      var start := DayFromYear(year);
      && MonthStart(MonthValue(year, 0)) == start && MonthStart(MonthValue(year, 1)) == start + 31
      && MonthStart(MonthValue(year, 2)) == start + 59 + leap && MonthStart(MonthValue(year, 3)) == start + 90 + leap
      && MonthStart(MonthValue(year, 4)) == start + 120 + leap && MonthStart(MonthValue(year, 5)) == start + 151 + leap
      && MonthStart(MonthValue(year, 6)) == start + 181 + leap && MonthStart(MonthValue(year, 7)) == start + 212 + leap
      && MonthStart(MonthValue(year, 8)) == start + 243 + leap && MonthStart(MonthValue(year, 9)) == start + 273 + leap
      && MonthStart(MonthValue(year, 10)) == start + 304 + leap
      && MonthStart(MonthValue(year, 11)) == start + 334 + leap
  {
    AprilBegins(year);
    AugustBegins(year);
    DecemberBegins(year);
    SpringMonths(year);
    SummerMonths(year);
    AutumnMonths(year);
  }

  lemma SpringMonths(year: int)
    ensures MonthStart(MonthValue(year, 0)) == DayFromYear(year)
    ensures MonthStart(MonthValue(year, 1)) == DayFromYear(year) + 31
    ensures MonthStart(MonthValue(year, 2)) == DayFromYear(year) + if IsLeap(year) then 60 else 59
  {
  }

  lemma SummerMonths(year: int)
    ensures MonthStart(MonthValue(year, 4)) == MonthStart(MonthValue(year, 3)) + 30
    ensures MonthStart(MonthValue(year, 5)) == MonthStart(MonthValue(year, 3)) + 61
    ensures MonthStart(MonthValue(year, 6)) == MonthStart(MonthValue(year, 3)) + 91
  {
    assert MonthStart(MonthValue(year, 4)) == MonthStart(MonthValue(year, 3)) + 30;
  }

  lemma AutumnMonths(year: int)
    ensures MonthStart(MonthValue(year, 8)) == MonthStart(MonthValue(year, 7)) + 31
    ensures MonthStart(MonthValue(year, 9)) == MonthStart(MonthValue(year, 7)) + 61
    ensures MonthStart(MonthValue(year, 10)) == MonthStart(MonthValue(year, 7)) + 92
  {
    assert MonthStart(MonthValue(year, 8)) == MonthStart(MonthValue(year, 7)) + 31;
  }

  /** The month lengths of a year add up to the year. */
  lemma DecemberEnds(year: int)
    ensures MonthStart(MonthValue(year, 11)) + 31 == DayFromYear(year + 1)
  {
    AprilBegins(year);
    AugustBegins(year);
    DecemberBegins(year);
    YearLength(year);
  }

  lemma MonthLength(m: YearMonth)
    ensures MonthStart(NextMonth(m)) == MonthStart(m) + DaysInMonth(m)
  {
    if m.month == 11 { DecemberEnds(m.year); }
  }

  lemma {:induction false} MonthsIncrease(year: int, a: int, b: int)
    requires 0 <= a <= b <= 11
    ensures MonthStart(MonthValue(year, a)) + 28 * (b - a) <= MonthStart(MonthValue(year, b))
    decreases b - a
  {
    if a < b { MonthsIncrease(year, a, b - 1); }
  }

  lemma MonthWithinYear(m: YearMonth)
    ensures DayFromYear(m.year) <= MonthStart(m) && MonthStart(NextMonth(m)) <= DayFromYear(m.year + 1)
  {
    MonthsIncrease(m.year, 0, m.month);
    NextWithinYear(m);
  }

  lemma NextWithinYear(m: YearMonth)
    ensures MonthStart(NextMonth(m)) <= DayFromYear(m.year + 1)
  {
    if m.month < 11 {
      MonthsIncrease(m.year, m.month + 1, 11);
      DecemberEnds(m.year);
    } else {
      assert NextMonth(m) == MonthValue(m.year + 1, 0);
    }
  }

  /** The month of the year a day falls in, stepping up from a month that is not too late. */
  function MonthFrom(day: int, m: YearMonth): (r: YearMonth)
    requires MonthStart(m) <= day < DayFromYear(m.year + 1)
    ensures r.year == m.year && MonthStart(r) <= day < MonthStart(NextMonth(r))
    decreases 11 - m.month
  {
    MonthLength(m);
    if day < MonthStart(NextMonth(m)) then m else MonthFrom(day, NextMonth(m))
  }

  function MonthOf(day: int): (m: YearMonth)
    ensures MonthStart(m) <= day < MonthStart(NextMonth(m)) && m.year == YearOf(day)
  {
    MonthFrom(day, MonthValue(YearOf(day), 0))
  }

  lemma MonthOfUnique(day: int, m: YearMonth)
    requires MonthStart(m) <= day < MonthStart(NextMonth(m))
    ensures MonthOf(day) == m
  {
    MonthWithinYear(m);
    YearOfUnique(day, m.year);
    var r := MonthOf(day);
    if m.month < r.month { MonthsIncrease(m.year, m.month + 1, r.month); }
    if r.month < m.month { MonthsIncrease(m.year, r.month + 1, m.month); }
  }

  lemma FirstOfMonth(m: YearMonth)
    ensures MonthOf(MonthStart(m)) == m && DateOf(MonthStart(m)) == 1
  {
    MonthLength(m);
    MonthOfUnique(MonthStart(m), m);
  }

  // ---------- Dates ----------

  /** The day of the month, from one. */
  function DateOf(day: int): int { day - MonthStart(MonthOf(day)) + 1 }

  /** Sunday is zero. */
  function WeekDay(day: int): int { (day + 4) % 7 }

  /** The epoch is a Thursday, and every day is followed by the next of the week. */
  lemma WeekDaysCycle(day: int)
    ensures WeekDay(0) == 4 && 0 <= WeekDay(day) <= 6
    ensures WeekDay(day + 1) == if WeekDay(day) == 6 then 0 else WeekDay(day) + 1
  {
  }

  /** A month number out of range carries into the year. */
  function CarryMonth(year: int, month: int): YearMonth { MonthValue(year + month / 12, month % 12) }

  /** A date out of range carries into the neighbouring months. */
  function MakeDay(m: YearMonth, date: int): int { MonthStart(m) + date - 1 }

  /** `Date.UTC` takes a year from 0 to 99 to mean one of the twentieth century. */
  function UtcMonth(m: YearMonth): YearMonth {
    if 0 <= m.year <= 99 then MonthValue(1900 + m.year, m.month) else m
  }

  function DayOf(time: int): int { time / MS_PER_DAY }

  function TimeWithinDay(time: int): int { time % MS_PER_DAY }

  function MakeTime(day: int, within: int): int { day * MS_PER_DAY + within }

  function SetUtcDate(time: int, date: int): int {
    MakeTime(MakeDay(MonthOf(DayOf(time)), date), TimeWithinDay(time))
  }

  /** `setUTCMonth` on the current month plus some keeps the day of the month and lets it overflow. */
  function AddUtcMonths(time: int, months: int): int {
    var m := MonthOf(DayOf(time));
    MakeTime(MakeDay(CarryMonth(m.year, m.month + months), DateOf(DayOf(time))), TimeWithinDay(time))
  }
}
