/** Calendar dates as the regulator reckons them: Europe/London is UTC, or one
    hour ahead of it between 01:00 UTC on the last Sunday of March and 01:00
    UTC on the last Sunday of October. */
module London {
  import opened Calendar

  const MS_PER_HOUR: int := 3_600_000

  // 0 is Sunday; 1 January 1970 was a Thursday.
  function WeekDay(day: int): int {
    (day + 4) % 7
  }

  /** The last Sunday of a month; the month counts from 1. */
  function LastSunday(year: int, month: int): (day: int)
    requires 1 <= month <= 12
    ensures WeekDay(day) == 0
    ensures DayOf(Civil(year, month, DaysInMonth(year, month))) - 6 <= day
    ensures day <= DayOf(Civil(year, month, DaysInMonth(year, month)))
  {
    var last := DayOf(Civil(year, month, DaysInMonth(year, month)));
    SundayBefore(last);
    last - WeekDay(last)
  }

  lemma SundayBefore(day: int)
    ensures 0 <= WeekDay(day) <= 6 && WeekDay(day - WeekDay(day)) == 0
  {
  }

  function SpringForward(year: int): int {
    LastSunday(year, 3) * MS_PER_DAY + MS_PER_HOUR
  }

  function AutumnBack(year: int): int {
    LastSunday(year, 10) * MS_PER_DAY + MS_PER_HOUR
  }

  predicate IsSummerTime(t: int) {
    SpringForward(UtcYear(t)) <= t < AutumnBack(UtcYear(t))
  }

  /** The London calendar day an instant falls in. */
  function LondonDay(t: int): int {
    UtcDay(if IsSummerTime(t) then t + MS_PER_HOUR else t)
  }

  function LondonYear(t: int): int {
    CivilOf(LondonDay(t)).year
  }

  lemma FirstOf2026(y: int)
    requires y == 2026
    ensures DayFromYear(y) == 20_454 && !IsLeap(y)
  {
    DayFromYearFormula(y);
  }

  /** In 2026 the clocks go forward on 29 March and back on 25 October. */
  lemma SwitchesOf2026(y: int)
    requires y == 2026
    ensures LastSunday(y, 3) == DayOf(Civil(y, 3, 29)) && LastSunday(y, 10) == DayOf(Civil(y, 10, 25))
  {
    FirstOf2026(y);
  }

  /** In London it is tomorrow exactly in the last hour of a UTC day from the
      spring change on and before the day of the autumn change. */
  lemma TomorrowExactly(t: int)
    ensures LondonDay(t) == UtcDay(t) + 1
            <==> && t >= UtcDay(t) * MS_PER_DAY + 23 * MS_PER_HOUR
                 && LastSunday(UtcYear(t), 3) <= UtcDay(t) < LastSunday(UtcYear(t), 10)
  {
    hide LastSunday, CivilOf, DayOf, DaysInMonth;
    UtcDayBounds(t);
    if t < UtcDay(t) * MS_PER_DAY + 23 * MS_PER_HOUR {
      UtcDayIs(t + MS_PER_HOUR, UtcDay(t));
    } else {
      UtcDayIs(t + MS_PER_HOUR, UtcDay(t) + 1);
    }
  }

  lemma EveningOf(day: int)
    ensures var t := day * MS_PER_DAY + 23 * MS_PER_HOUR + MS_PER_HOUR / 2;
            LondonDay(t) == if LastSunday(CivilOf(day).year, 3) <= day < LastSunday(CivilOf(day).year, 10) then day + 1 else day
  {
    hide LastSunday, CivilOf, DayOf, DaysInMonth;
    var t := day * MS_PER_DAY + 23 * MS_PER_HOUR + MS_PER_HOUR / 2;
    UtcDayIs(t, day);
    TomorrowExactly(t);
    LondonDayIsNear(t);
  }

  /** At 23:30 UTC on 15 June 2026 it is already 16 June in London; at 23:30 UTC
      on 25 October, the day the clocks go back, it is still the 25th. */
  lemma LateEvenings(y: int, june: int, october: int)
    requires y == 2026
    requires june == DayOf(Civil(y, 6, 15)) && october == DayOf(Civil(y, 10, 25))
    ensures LondonDay(june * MS_PER_DAY + 23 * MS_PER_HOUR + MS_PER_HOUR / 2) == june + 1
    ensures LondonDay(october * MS_PER_DAY + 23 * MS_PER_HOUR + MS_PER_HOUR / 2) == october
  {
    SwitchesOf2026(y);
    FirstOf2026(y);
    CivilOfDayOf(Civil(y, 6, 15));
    CivilOfDayOf(Civil(y, 10, 25));
    EveningOf(june);
    EveningOf(october);
  }

  lemma UtcDayBounds(t: int)
    ensures UtcDay(t) * MS_PER_DAY <= t < (UtcDay(t) + 1) * MS_PER_DAY
  {
  }

  lemma UtcDayMonotonic(t1: int, t2: int)
    requires t1 <= t2
    ensures UtcDay(t1) <= UtcDay(t2)
  {
    UtcDayBounds(t1);
    UtcDayBounds(t2);
  }

  lemma UtcDayIs(t: int, day: int)
    requires day * MS_PER_DAY <= t < (day + 1) * MS_PER_DAY
    ensures UtcDay(t) == day
  {
    UtcDayBounds(t);
  }

  /** The autumn change falls inside its own year. */
  lemma AutumnWithinYear(y: int)
    ensures DayFromYear(y) <= LastSunday(y, 10) < DayFromYear(y + 1) - 1
    ensures UtcDay(AutumnBack(y)) == LastSunday(y, 10)
  {
    NextYear(y);
    UtcDayIs(AutumnBack(y), LastSunday(y, 10));
  }

  lemma SummerDayBeforeAutumn(t: int)
    requires IsSummerTime(t)
    ensures LondonDay(t) <= LastSunday(UtcYear(t), 10)
  {
    var d := LastSunday(UtcYear(t), 10);
    UtcDayIs(d * MS_PER_DAY + MS_PER_HOUR + MS_PER_HOUR, d);
    UtcDayMonotonic(t + MS_PER_HOUR, d * MS_PER_DAY + MS_PER_HOUR + MS_PER_HOUR);
  }

  lemma UtcYearBounds(t: int)
    ensures DayFromYear(UtcYear(t)) <= UtcDay(t) < DayFromYear(UtcYear(t) + 1)
  {
    DayWithinYear(CivilOf(UtcDay(t)));
  }

  /** The London day is the UTC day or the one after it. */
  lemma LondonDayIsNear(t: int)
    ensures UtcDay(t) <= LondonDay(t) <= UtcDay(t) + 1
  {
    UtcDayBounds(t);
    UtcDayMonotonic(t, t + MS_PER_HOUR);
    UtcDayIs(t - t % MS_PER_DAY + MS_PER_DAY + MS_PER_HOUR, UtcDay(t) + 1);
    UtcDayMonotonic(t + MS_PER_HOUR, t - t % MS_PER_DAY + MS_PER_DAY + MS_PER_HOUR);
  }

  /** The London year is always the UTC year: the clocks are never ahead at
      New Year. */
  lemma LondonYearIsUtcYear(t: int)
    ensures LondonYear(t) == UtcYear(t)
  {
    var y := UtcYear(t);
    UtcYearBounds(t);
    if IsSummerTime(t) {
      SummerDayBeforeAutumn(t);
      AutumnWithinYear(y);
      LondonDayIsNear(t);
      YearOfDay(LondonDay(t), y);
    }
  }

  lemma YearOfDay(n: int, y: int)
    requires DayFromYear(y) <= n < DayFromYear(y + 1)
    ensures CivilOf(n).year == y
  {
    YearUnique(n, y);
  }

  /** The first instant of a year. */
  function NewYear(y: int): int {
    DayFromYear(y) * MS_PER_DAY
  }

  lemma NewYearIs(y: int)
    ensures UtcYear(NewYear(y)) == y
  {
    UtcDayIs(NewYear(y), DayFromYear(y));
    YearsApart(y, y + 1);
    YearOfDay(DayFromYear(y), y);
  }

  /** As time advances the London day never goes back, not even when the
      clocks do in October. */
  lemma LondonDayMonotonic(t1: int, t2: int)
    requires t1 <= t2
    ensures LondonDay(t1) <= LondonDay(t2)
  {
    UtcDayMonotonic(t1, t2);
    UtcDayMonotonic(t1 + MS_PER_HOUR, t2 + MS_PER_HOUR);
    UtcDayMonotonic(t1, t2 + MS_PER_HOUR);
    if IsSummerTime(t1) && !IsSummerTime(t2) {
      var y1, y2 := UtcYear(t1), UtcYear(t2);
      SummerDayBeforeAutumn(t1);
      AutumnWithinYear(y1);
      UtcYearBounds(t1);
      UtcYearBounds(t2);
      if y2 < y1 {
        YearsApart(y2 + 1, y1);
        assert false;
      } else if y1 < y2 {
        YearsApart(y1 + 1, y2);
        assert LastSunday(y1, 10) <= UtcDay(t2);
      } else {
        UtcDayMonotonic(AutumnBack(y1), t2);
      }
    }
  }
}
