/** The proleptic Gregorian calendar of section 21.4.1 of ECMA-262, and the
    `Date` operations the deadline and payment-date code is built from. Days are
    counted from 1 January 1970; an instant is a whole number of milliseconds. */
module Calendar {

  const MS_PER_DAY: int := 86_400_000

  datatype Civil = Civil(year: int, month: int, day: int)

  predicate IsLeap(y: int) {
    y % 4 == 0 && (y % 100 != 0 || y % 400 == 0)
  }

  function DaysInYear(y: int): int {
    if IsLeap(y) then 366 else 365
  }

  /** The day number of 1 January: the lengths of the years in between, added
      up. */
  function DayFromYear(y: int): int
    decreases if y < 1970 then 1970 - y else y - 1970
  {
    if y == 1970 then 0
    else if y > 1970 then DayFromYear(y - 1) + DaysInYear(y - 1)
    else DayFromYear(y + 1) - DaysInYear(y)
  }

  lemma DivStep4(x: int)
    ensures (x + 1) / 4 == x / 4 + (if (x + 1) % 4 == 0 then 1 else 0)
  {
  }

  lemma DivStep100(x: int)
    ensures (x + 1) / 100 == x / 100 + (if (x + 1) % 100 == 0 then 1 else 0)
  {
  }

  lemma DivStep400(x: int)
    ensures (x + 1) / 400 == x / 400 + (if (x + 1) % 400 == 0 then 1 else 0)
  {
  }

  ghost function ClosedForm(y: int): int {
    365 * (y - 1970) + (y - 1969) / 4 - (y - 1901) / 100 + (y - 1601) / 400
  }

  lemma Remainder4(y: int)
    ensures (y - 1968) % 4 == y % 4
  {
  }

  lemma Remainder100(y: int)
    ensures (y - 1900) % 100 == y % 100
  {
  }

  lemma Remainder400(y: int)
    ensures (y - 1600) % 400 == y % 400
  {
  }

  lemma CenturyIsFourth(y: int)
    requires y % 100 == 0
    ensures y % 4 == 0
  {
    assert y == 4 * (25 * (y / 100));
  }

  lemma FourthCenturyIsCentury(y: int)
    requires y % 400 == 0
    ensures y % 100 == 0
  {
    assert y == 100 * (4 * (y / 400));
  }

  lemma LeapDays(y: int)
    ensures DaysInYear(y) == 365 + (if y % 4 == 0 then 1 else 0)
                             - (if y % 100 == 0 then 1 else 0) + (if y % 400 == 0 then 1 else 0)
  {
    if y % 400 == 0 {
      FourthCenturyIsCentury(y);
    }
    if y % 100 == 0 {
      CenturyIsFourth(y);
    }
  }

  lemma ClosedFormStep(y: int)
    ensures ClosedForm(y + 1) == ClosedForm(y) + DaysInYear(y)
  {
    LeapDays(y);
    assert (y - 1968) / 4 == (y - 1969) / 4 + (if y % 4 == 0 then 1 else 0) by {
      DivStep4(y - 1969);
      Remainder4(y);
    }
    assert (y - 1900) / 100 == (y - 1901) / 100 + (if y % 100 == 0 then 1 else 0) by {
      DivStep100(y - 1901);
      Remainder100(y);
    }
    assert (y - 1600) / 400 == (y - 1601) / 400 + (if y % 400 == 0 then 1 else 0) by {
      DivStep400(y - 1601);
      Remainder400(y);
    }
  }

  /** The formula ECMA-262 gives for DayFromYear. */
  lemma {:induction false} DayFromYearFormula(y: int)
    ensures DayFromYear(y) == 365 * (y - 1970) + (y - 1969) / 4 - (y - 1901) / 100 + (y - 1601) / 400
    decreases if y < 1970 then 1970 - y else y - 1970
  {
    if y > 1970 {
      DayFromYearFormula(y - 1);
      ClosedFormStep(y - 1);
    } else if y < 1970 {
      DayFromYearFormula(y + 1);
      ClosedFormStep(y);
    }
    assert DayFromYear(y) == ClosedForm(y);
  }

  /** Days of the year before the first day of month `m`, counting from 0. */
  function DaysBefore(m: int, leap: bool): int
    requires 0 <= m <= 12
  {
    var extra := if leap then 1 else 0;
    match m
    case 0 => 0
    case 1 => 31
    case 2 => 59 + extra
    case 3 => 90 + extra
    case 4 => 120 + extra
    case 5 => 151 + extra
    case 6 => 181 + extra
    case 7 => 212 + extra
    case 8 => 243 + extra
    case 9 => 273 + extra
    case 10 => 304 + extra
    case 11 => 334 + extra
    case _ => 365 + extra
  }

  function DaysInMonth(y: int, month: int): int
    requires 1 <= month <= 12
  {
    DaysBefore(month, IsLeap(y)) - DaysBefore(month - 1, IsLeap(y))
  }

  /** A date that exists on the calendar. */
  predicate IsReal(c: Civil) {
    1 <= c.month <= 12 && 1 <= c.day <= DaysInMonth(c.year, c.month)
  }

  /** MakeDay of ECMA-262: months and days outside their range roll over. The
      month counts from 0. */
  function MakeDay(year: int, month: int, date: int): int {
    var y := year + month / 12;
    DayFromYear(y) + DaysBefore(month % 12, IsLeap(y)) + date - 1
  }

  /** The day number of a date whose month is in range. */
  function DayOf(c: Civil): int
    requires 1 <= c.month <= 12
  {
    DayFromYear(c.year) + DaysBefore(c.month - 1, IsLeap(c.year)) + c.day - 1
  }

  lemma NextYear(y: int)
    ensures DayFromYear(y + 1) == DayFromYear(y) + DaysInYear(y)
  {
  }

  lemma MakeDayInRange(year: int, month: int, date: int)
    requires 0 <= month < 12
    ensures MakeDay(year, month, date) == DayFromYear(year) + DaysBefore(month, IsLeap(year)) + date - 1
  {
    hide DaysBefore, IsLeap, DayFromYear;
    assert month / 12 == 0 && month % 12 == month;
  }

  /** One year is 365 or 366 days, so years keep their order and their distance. */
  lemma {:induction false} YearsApart(y1: int, y2: int)
    requires y1 <= y2
    ensures DayFromYear(y1) + 365 * (y2 - y1) <= DayFromYear(y2) <= DayFromYear(y1) + 366 * (y2 - y1)
    decreases y2 - y1
  {
    if y1 < y2 {
      YearsApart(y1, y2 - 1);
      NextYear(y2 - 1);
    }
  }

  /** YearFromTime of ECMA-262: the year whose first day is the last one not
      after `n`. */
  function YearOf(n: int): (y: int)
    ensures DayFromYear(y) <= n < DayFromYear(y + 1)
  {
    YearsApart(1970, if n >= 0 then 1970 + n else 1970);
    YearsApart(if n < 0 then 1970 + n else 1970, 1970);
    if n >= 0 then SearchYear(n, 1970) else SearchYear(n, 1970 + n)
  }

  function SearchYear(n: int, from: int): (y: int)
    requires DayFromYear(from) <= n
    ensures DayFromYear(y) <= n < DayFromYear(y + 1)
    decreases n - DayFromYear(from)
  {
    NextYear(from);
    if n < DayFromYear(from + 1) then from else SearchYear(n, from + 1)
  }

  lemma YearUnique(n: int, y: int)
    requires DayFromYear(y) <= n < DayFromYear(y + 1)
    ensures YearOf(n) == y
  {
    var z := YearOf(n);
    if z < y {
      YearsApart(z + 1, y);
    } else if y < z {
      YearsApart(y + 1, z);
    }
  }

  /** The calendar date of a day number: `getUTCFullYear`, `getUTCMonth` + 1
      and `getUTCDate`. */
  function CivilOf(n: int): (c: Civil)
    ensures IsReal(c) && DayOf(c) == n
  {
    var y := YearOf(n);
    NextYear(y);
    var d := n - DayFromYear(y);
    var m := MonthWithin(d, IsLeap(y));
    Civil(y, m + 1, d - DaysBefore(m, IsLeap(y)) + 1)
  }

  function MonthWithin(d: int, leap: bool): (m: int)
    requires 0 <= d < DaysBefore(12, leap)
    ensures 0 <= m < 12 && DaysBefore(m, leap) <= d < DaysBefore(m + 1, leap)
  {
    if d < DaysBefore(1, leap) then 0
    else if d < DaysBefore(2, leap) then 1
    else if d < DaysBefore(3, leap) then 2
    else if d < DaysBefore(4, leap) then 3
    else if d < DaysBefore(5, leap) then 4
    else if d < DaysBefore(6, leap) then 5
    else if d < DaysBefore(7, leap) then 6
    else if d < DaysBefore(8, leap) then 7
    else if d < DaysBefore(9, leap) then 8
    else if d < DaysBefore(10, leap) then 9
    else if d < DaysBefore(11, leap) then 10
    else 11
  }

  lemma DaysBeforeMonotonic(m1: int, m2: int, leap: bool)
    requires 0 <= m1 <= m2 <= 12
    ensures DaysBefore(m1, leap) <= DaysBefore(m2, leap)
  {
  }

  lemma DayWithinYear(c: Civil)
    requires IsReal(c)
    ensures DayFromYear(c.year) <= DayOf(c) < DayFromYear(c.year + 1)
  {
    NextYear(c.year);
    DaysBeforeMonotonic(c.month, 12, IsLeap(c.year));
  }

  /** Year first, then month, then day: the order dates are compared in. */
  predicate Before(a: Civil, b: Civil) {
    || a.year < b.year
    || (a.year == b.year && a.month < b.month)
    || (a.year == b.year && a.month == b.month && a.day < b.day)
  }

  lemma BeforeIsEarlier(a: Civil, b: Civil)
    requires IsReal(a) && IsReal(b) && Before(a, b)
    ensures DayOf(a) < DayOf(b)
  {
    if a.year < b.year {
      DayWithinYear(a);
      DayWithinYear(b);
      YearsApart(a.year + 1, b.year);
    } else if a.month < b.month {
      DaysBeforeMonotonic(a.month, b.month - 1, IsLeap(a.year));
    }
  }

  /** Day numbers put real dates in calendar order, and tell them apart. */
  lemma DayOrder(a: Civil, b: Civil)
    requires IsReal(a) && IsReal(b)
    ensures Before(a, b) <==> DayOf(a) < DayOf(b)
    ensures a == b <==> DayOf(a) == DayOf(b)
  {
    if Before(a, b) {
      BeforeIsEarlier(a, b);
    } else if Before(b, a) {
      BeforeIsEarlier(b, a);
    } else {
      assert a == b;
    }
  }

  /** Every real date is read back from its own day number. */
  lemma CivilOfDayOf(c: Civil)
    requires IsReal(c)
    ensures CivilOf(DayOf(c)) == c
  {
    DayOrder(CivilOf(DayOf(c)), c);
  }

  lemma DaysBeforeSpread(m: int, leap: bool)
    requires 0 <= m < 12
    ensures 0 <= DaysBefore(m, leap) <= DaysBefore(12, leap) - 31
  {
  }

  lemma MakeDayWithinYear(y: int, m: int, d: int)
    requires 0 <= m < 12 && 1 <= d <= 31
    ensures DayFromYear(y) <= MakeDay(y, m, d) < DayFromYear(y + 1)
  {
    MakeDayInRange(y, m, d);
    DaysBeforeSpread(m, IsLeap(y));
    NextYear(y);
  }

  lemma DayOfMonthSmall(c: Civil)
    requires IsReal(c)
    ensures c.day <= 31
  {
  }

  function UtcDay(t: int): int {
    t / MS_PER_DAY
  }

  function UtcYear(t: int): int {
    CivilOf(UtcDay(t)).year
  }

  /** `Date.UTC(year, month, day)` in days: a year from 0 to 99 is taken to be
      in the twentieth century (section 21.4.3.4 of ECMA-262). */
  function DateUtc(year: int, month: int, date: int): int {
    MakeDay(if 0 <= year <= 99 then 1900 + year else year, month, date)
  }

  /** The round-trip test both date forms use: build the instant, read the
      parts back, compare. The month counts from 1. */
  predicate RoundTrips(d: int, m: int, y: int) {
    CivilOf(DateUtc(y, m - 1, d)) == Civil(y, m, d)
  }

  /** The test accepts exactly the dates that exist, except in the years 0 to
      99, where `Date.UTC` answers for another century and it accepts none. */
  lemma RoundTripsExactly(d: int, m: int, y: int)
    ensures RoundTrips(d, m, y) <==> IsReal(Civil(y, m, d)) && !(0 <= y <= 99)
  {
    var c := Civil(y, m, d);
    if RoundTrips(d, m, y) {
      assert IsReal(c);
      if 0 <= y <= 99 {
        LaterYearIsLater(c, 1900 + c.year);
      }
    }
    if IsReal(c) && !(0 <= y <= 99) {
      MakeDayInRange(y, m - 1, d);
      CivilOfDayOf(c);
    }
  }

  lemma LaterYearIsLater(c: Civil, year: int)
    requires IsReal(c) && c.year < year
    ensures MakeDay(year, c.month - 1, c.day) > DayOf(c)
  {
    MakeDayInRange(year, c.month - 1, c.day);
    DaysBeforeMonotonic(0, c.month - 1, IsLeap(year));
    YearsApart(c.year + 1, year);
    DayWithinYear(c);
  }

  /** `startOfUtcDay`, in days: the parts of an instant put back through
      `Date.UTC`. */
  function StartOfUtcDay(t: int): int {
    var c := CivilOf(UtcDay(t));
    DateUtc(c.year, c.month - 1, c.day)
  }

  /** It is the day the instant falls in exactly when the year is not one that
      `Date.UTC` moves. */
  lemma StartOfUtcDayExactly(t: int)
    ensures StartOfUtcDay(t) == UtcDay(t) <==> !(0 <= UtcYear(t) <= 99)
  {
    hide MakeDay, DaysInMonth, DayOf;
    RebuiltDay(CivilOf(UtcDay(t)));
  }

  lemma RebuiltDay(c: Civil)
    requires IsReal(c)
    ensures DateUtc(c.year, c.month - 1, c.day) == DayOf(c) <==> !(0 <= c.year <= 99)
  {
    if 0 <= c.year <= 99 {
      LaterYearIsLater(c, 1900 + c.year);
    } else {
      MakeDayInRange(c.year, c.month - 1, c.day);
    }
  }
}
