/** The proleptic Gregorian calendar, by day numbers from 1 January 1970. */
module Calendar {
  /** `month` counts from 0, `date` from 1, as in JavaScript. */
  datatype Civil = Civil(year: int, month: nat, date: nat)

  predicate Leap(year: int) {
    year % 4 == 0 && (year % 100 != 0 || year % 400 == 0)
  }

  function YearLength(year: int): nat {
    if Leap(year) then 366 else 365
  }

  function MonthLength(year: int, month: nat): nat
    requires month < 12
  {
    if month == 1 then (if Leap(year) then 29 else 28)
    else if month in {3, 5, 8, 10} then 30
    else 31
  }

  predicate ValidCivil(c: Civil) {
    c.month < 12 && 1 <= c.date <= MonthLength(c.year, c.month)
  }

  /** ECMAScript's DayFromYear: days before 1 January of the year. */
  function DayFromYear(year: int): int {
    365 * (year - 1970) + (year - 1969) / 4 - (year - 1901) / 100 + (year - 1601) / 400
  }

  function DaysBefore(year: int, month: nat): nat
    requires month <= 12
  {
    if month == 0 then 0 else DaysBefore(year, month - 1) + MonthLength(year, month - 1)
  }

  /** ECMAScript's MakeDay for a month in range; `date` may lie outside the month. */
  function MakeDay(year: int, month: nat, date: int): int
    requires month < 12
  {
    DayFromYear(year) + DaysBefore(year, month) + date - 1
  }

  function DayNumber(c: Civil): int
    requires c.month < 12
  {
    MakeDay(c.year, c.month, c.date)
  }

  function NextDay(c: Civil): Civil
    requires ValidCivil(c)
  {
    if c.date < MonthLength(c.year, c.month) then c.(date := c.date + 1)
    else if c.month < 11 then Civil(c.year, c.month + 1, 1)
    else Civil(c.year + 1, 0, 1)
  }

  lemma EveryFourth(year: int)
    ensures (year - 1968) / 4 == (year - 1969) / 4 + (if year % 4 == 0 then 1 else 0)
  {
  }

  lemma EveryHundredth(year: int)
    ensures (year - 1900) / 100 == (year - 1901) / 100 + (if year % 100 == 0 then 1 else 0)
  {
  }

  lemma EveryFourHundredth(year: int)
    ensures (year - 1600) / 400 == (year - 1601) / 400 + (if year % 400 == 0 then 1 else 0)
  {
  }

  lemma Multiple(q: int, d: int)
    requires d == 4 || d == 100
    ensures d * q % d == 0
  {
  }

  lemma CenturiesAreFourths(year: int)
    ensures year % 100 == 0 ==> year % 4 == 0
    ensures year % 400 == 0 ==> year % 100 == 0
  {
    Multiple(25 * (year / 100), 4);
    Multiple(4 * (year / 400), 100);
  }

  lemma YearStep(year: int)
    ensures DayFromYear(year + 1) == DayFromYear(year) + YearLength(year)
  {
    EveryFourth(year);
    EveryHundredth(year);
    EveryFourHundredth(year);
    CenturiesAreFourths(year);
  }

  lemma MonthsFillYear(year: int)
    ensures DaysBefore(year, 12) == YearLength(year)
  {
    var y := year;
    assert DaysBefore(y, 2) == DaysBefore(y, 1) + MonthLength(y, 1) == 31 + MonthLength(y, 1);
    assert DaysBefore(y, 4) == DaysBefore(y, 3) + 30 == DaysBefore(y, 2) + 61;
    assert DaysBefore(y, 6) == DaysBefore(y, 5) + 30 == DaysBefore(y, 4) + 61;
    assert DaysBefore(y, 8) == DaysBefore(y, 7) + 31 == DaysBefore(y, 6) + 62;
    assert DaysBefore(y, 10) == DaysBefore(y, 9) + 31 == DaysBefore(y, 8) + 61;
    assert DaysBefore(y, 12) == DaysBefore(y, 11) + 31 == DaysBefore(y, 10) + 61;
  }

  /** Day numbers count days: the next calendar day has the next number. */
  lemma DayNumbersCount(c: Civil)
    requires ValidCivil(c)
    ensures ValidCivil(NextDay(c)) && DayNumber(NextDay(c)) == DayNumber(c) + 1
    ensures DayNumber(Civil(1970, 0, 1)) == 0
  {
    if c.month == 11 {
      YearStep(c.year);
      MonthsFillYear(c.year);
    }
  }

  // ---------------------------------------------------------------------------------------
  // From a day number to its date
  // ---------------------------------------------------------------------------------------

  function YearFrom(day: int, year: int): (y: int)
    requires DayFromYear(year) <= day
    ensures DayFromYear(y) <= day < DayFromYear(y + 1)
    decreases day - DayFromYear(year)
  {
    YearStep(year);
    if DayFromYear(year + 1) <= day then YearFrom(day, year + 1) else year
  }

  function YearFloor(day: int): (y: int)
    ensures DayFromYear(y) <= day
  {
    if day >= 0 then 1970 + day / 366 else 1970 + day / 365
  }

  function YearOf(day: int): int {
    YearFrom(day, YearFloor(day))
  }

  function MonthFrom(year: int, dayOfYear: nat, month: nat): (m: nat)
    requires month < 12 && DaysBefore(year, month) <= dayOfYear < DaysBefore(year, 12)
    ensures m < 12 && DaysBefore(year, m) <= dayOfYear < DaysBefore(year, m + 1)
    decreases 12 - month
  {
    if DaysBefore(year, month + 1) <= dayOfYear then MonthFrom(year, dayOfYear, month + 1) else month
  }

  function CivilOf(day: int): (c: Civil)
    ensures ValidCivil(c) && DayNumber(c) == day
  {
    var year := YearOf(day);
    YearStep(year);
    MonthsFillYear(year);
    var dayOfYear := day - DayFromYear(year);
    var month := MonthFrom(year, dayOfYear, 0);
    Civil(year, month, dayOfYear - DaysBefore(year, month) + 1)
  }

  lemma {:induction false} YearsIncrease(a: int, b: int)
    requires a <= b
    ensures DayFromYear(a) <= DayFromYear(b)
    decreases b - a
  {
    if a < b {
      YearStep(b - 1);
      YearsIncrease(a, b - 1);
    }
  }

  lemma {:induction false} MonthsIncrease(year: int, a: nat, b: nat)
    requires a <= b <= 12
    ensures DaysBefore(year, a) <= DaysBefore(year, b)
    decreases b
  {
    if a < b {
      MonthsIncrease(year, a, b - 1);
    }
  }

  lemma DayInYear(c: Civil)
    requires ValidCivil(c)
    ensures DayFromYear(c.year) <= DayNumber(c) < DayFromYear(c.year + 1)
  {
    YearStep(c.year);
    MonthsFillYear(c.year);
    MonthsIncrease(c.year, c.month + 1, 12);
  }

  /** No two dates share a day number, so the date of a date's number is that date. */
  lemma DatesAreDistinct(a: Civil, b: Civil)
    requires ValidCivil(a) && ValidCivil(b) && DayNumber(a) == DayNumber(b)
    ensures a == b
  {
    DayInYear(a);
    DayInYear(b);
    if a.year < b.year {
      YearsIncrease(a.year + 1, b.year);
    } else if b.year < a.year {
      YearsIncrease(b.year + 1, a.year);
    } else if a.month < b.month {
      MonthsIncrease(a.year, a.month + 1, b.month);
    } else if b.month < a.month {
      MonthsIncrease(a.year, b.month + 1, a.month);
    }
  }
}
