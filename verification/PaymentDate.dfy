/** The payment date of duly making: its validation, the twelve-month floor, and
    reading the stored date back. */
module PaymentDate {
  import opened Prelude
  import opened Calendar
  import opened DateText
  import Deadline
  import Text

  datatype ErrorCode = Required | Invalid | InFuture | TooOld

  datatype Verdict = Accepted(value: string) | Refused(errorCode: ErrorCode)

  const MAX_AGE_MONTHS := 12

  /** `setUTCMonth(getUTCMonth() - MAX_AGE_MONTHS)` on the UTC midnight of a day. */
  function FloorFor(today: int): int {
    var c := CivilOf(today);
    MakeDay(c.year, c.month - 1 - MAX_AGE_MONTHS, c.day)
  }

  /** The checks on three numbers, once the boxes hold digits. */
  function CheckDate(c: Civil, today: int): Option<ErrorCode> {
    var asUtc := DateUtc(c.year, c.month - 1, c.day);
    var readBack := CivilOf(asUtc);
    if readBack.year != c.year || readBack.month - 1 != c.month - 1 || readBack.day != c.day then Some(Invalid)
    else if asUtc > today then Some(InFuture)
    else if asUtc < FloorFor(today) then Some(TooOld)
    else None
  }

  /** `validatePaymentDate` */
  function ValidatePaymentDate(input: DateInput, now: int): Verdict {
    if IsEmpty(input) then Refused(Required)
    else
      var typed := TypedParts(input);
      if typed.None? then Refused(Invalid)
      else
        var fault := CheckDate(typed.value, StartOfUtcDay(now));
        if fault.Some? then Refused(fault.value) else Accepted(IsoDate(typed.value))
  }

  /** `readPaymentDate`: the stored text, and the same date as `dd/mm/yyyy`. */
  function ReadPaymentDate(raw: Option<string>): Option<(string, string)> {
    if raw.None? || ReadIsoDate(raw.value).None? then None
    else
      var (year, month, day) := ReadIsoDate(raw.value).value;
      Some((raw.value, day + "/" + month + "/" + year))
  }

  // ---- The floor ----

  predicate IsLeapDay(c: Civil) {
    c.month == 2 && c.day == 29
  }

  lemma TwelveMonthsBack(year: int, month: int, day: int)
    requires 1 <= month <= 12
    ensures MakeDay(year, month - 1 - MAX_AGE_MONTHS, day) == MakeDay(year - 1, month - 1, day)
  {
    var m := month - 1;
    assert (m - 12) / 12 == -1 && (m - 12) % 12 == m;
    assert m / 12 == 0 && m % 12 == m;
  }

  lemma LeapYearsApart(y: int)
    ensures !(IsLeap(y) && IsLeap(y - 1))
  {
    if y % 4 == 0 {
      assert (y - 1) % 4 == 3;
    }
  }

  /** The floor is the same date a year earlier; on 29 February, which has none,
      it is 1 March. */
  function YearEarlier(c: Civil): Civil {
    if IsLeapDay(c) then Civil(c.year - 1, 3, 1) else c.(year := c.year - 1)
  }

  lemma YearEarlierIsReal(c: Civil)
    requires IsReal(c)
    ensures IsReal(YearEarlier(c))
    ensures 365 <= DayOf(c) - DayOf(YearEarlier(c)) <= 366
  {
    LeapYearsApart(c.year);
    NextYear(c.year - 1);
  }

  lemma FloorIsYearEarlier(today: int)
    ensures FloorFor(today) == DayOf(YearEarlier(CivilOf(today)))
    ensures 365 <= today - FloorFor(today) <= 366
  {
    var c := CivilOf(today);
    TwelveMonthsBack(c.year, c.month, c.day);
    YearBackIs(c);
    YearEarlierIsReal(c);
  }

  lemma YearBackIs(c: Civil)
    requires IsReal(c)
    ensures MakeDay(c.year - 1, c.month - 1, c.day) == DayOf(YearEarlier(c))
  {
    MakeDayInRange(c.year - 1, c.month - 1, c.day);
    LeapYearsApart(c.year);
  }

  /** The floor never falls as today moves on. */
  lemma FloorMonotonic(today1: int, today2: int)
    requires today1 <= today2
    ensures FloorFor(today1) <= FloorFor(today2)
  {
    var c1, c2 := CivilOf(today1), CivilOf(today2);
    FloorIsYearEarlier(today1);
    FloorIsYearEarlier(today2);
    DayOrder(c1, c2);
    YearEarlierIsReal(c1);
    YearEarlierIsReal(c2);
    DayOrder(YearEarlier(c1), YearEarlier(c2));
    DayOrder(YearEarlier(c2), YearEarlier(c1));
    LeapDayIsLast(c1);
    LeapDayIsLast(c2);
  }

  lemma LeapDayIsLast(c: Civil)
    requires IsReal(c)
    ensures c.month == 2 ==> c.day <= 29
  {
  }

  // ---- What is accepted ----

  lemma CheckedDate(c: Civil, today: int)
    ensures CheckDate(c, today) == Some(Invalid) <==> !(IsReal(c) && !(0 <= c.year <= 99))
    ensures IsReal(c) && !(0 <= c.year <= 99) ==>
              CheckDate(c, today) == if DayOf(c) > today then Some(InFuture)
                                     else if DayOf(c) < FloorFor(today) then Some(TooOld)
                                     else None
  {
    RoundTripsExactly(c.day, c.month, c.year);
    if IsReal(c) {
      MakeDayInRange(c.year, c.month - 1, c.day);
    }
  }

  /** Accepted are exactly the real dates from the year 100 on that lie between
      the floor and today, both included. */
  lemma AcceptsExactly(input: DateInput, now: int, c: Civil)
    requires TypedParts(input) == Some(c)
    ensures ValidatePaymentDate(input, now).Accepted?
            <==> IsReal(c) && c.year >= 100 && FloorFor(StartOfUtcDay(now)) <= DayOf(c) <= StartOfUtcDay(now)
  {
    CheckedDate(c, StartOfUtcDay(now));
    assert !IsEmpty(input);
  }

  lemma AcceptsOnlyTyped(input: DateInput, now: int)
    requires TypedParts(input).None?
    ensures ValidatePaymentDate(input, now)
            == Refused(if IsBlank(input.day) && IsBlank(input.month) && IsBlank(input.year) then Required else Invalid)
  {
    EmptyExactly(input);
  }

  /** An accepted date is at most 366 days before the UTC day of `now` and not
      after it, exactly when `now` is not in the years 0 to 99, which `Date.UTC`
      takes for later ones; the 366 only when the floor is that far back. */
  lemma WindowIsLastYearExactly(input: DateInput, now: int, c: Civil)
    requires TypedParts(input) == Some(c) && ValidatePaymentDate(input, now).Accepted?
    ensures IsReal(c)
    ensures 0 <= UtcDay(now) - DayOf(c) <= 366 <==> !(0 <= UtcYear(now) <= 99)
    ensures !(0 <= UtcYear(now) <= 99) ==> FloorFor(UtcDay(now)) <= DayOf(c)
  {
    hide MakeDay, DaysInMonth, StartOfUtcDay, ValidatePaymentDate, FloorFor, DayOf, TypedParts;
    AcceptsExactly(input, now, c);
    StartOfUtcDayExactly(now);
    FloorIsYearEarlier(StartOfUtcDay(now));
    if 0 <= UtcYear(now) <= 99 {
      DayWithinYear(c);
      DayWithinYear(CivilOf(UtcDay(now)));
      YearsApart(UtcYear(now) + 1, 100);
      YearsApart(100, c.year);
    }
  }

  /** An unreal date is refused before its age is looked at, and a future date
      before an old one. */
  lemma RefusesInOrder(input: DateInput, now: int, c: Civil)
    requires Deadline.TypesRealDate(input, c)
    ensures ValidatePaymentDate(input, now) == Refused(InFuture) <==> DayOf(c) > StartOfUtcDay(now)
    ensures ValidatePaymentDate(input, now) == Refused(TooOld)
            <==> DayOf(c) <= StartOfUtcDay(now) && DayOf(c) < FloorFor(StartOfUtcDay(now))
  {
    CheckedDate(c, StartOfUtcDay(now));
    assert !IsEmpty(input);
  }

  /** What is stored for an accepted date is read back as the same day, month
      and year. */
  lemma StoredDateReadsBack(input: DateInput, now: int, c: Civil)
    requires TypedParts(input) == Some(c) && ValidatePaymentDate(input, now).Accepted?
    ensures var stored := ValidatePaymentDate(input, now).value;
            && ReadsAs(stored, c)
            && ReadPaymentDate(Some(stored)).Some?
            && ReadPaymentDate(Some(stored)).value.0 == stored
            && DisplaysAs(ReadPaymentDate(Some(stored)).value.1, c)
  {
    AcceptedStores(input, now, c);
    StoredReads(c);
  }

  lemma AcceptedStores(input: DateInput, now: int, c: Civil)
    requires TypedParts(input) == Some(c) && ValidatePaymentDate(input, now).Accepted?
    ensures ValidatePaymentDate(input, now).value == IsoDate(c)
    ensures IsReal(c) && 0 <= c.year < 10_000
  {
    hide MakeDay, DaysInMonth, FloorFor, IsoDate;
    AcceptsExactly(input, now, c);
    TypedYearBound(input);
  }

  lemma StoredReads(c: Civil)
    requires IsReal(c) && 0 <= c.year < 10_000
    ensures var stored := IsoDate(c);
            && ReadsAs(stored, c)
            && ReadPaymentDate(Some(stored)).Some?
            && ReadPaymentDate(Some(stored)).value.0 == stored
            && DisplaysAs(ReadPaymentDate(Some(stored)).value.1, c)
  {
    IsoDateRoundTrip(c);
    hide IsoDate, DaysInMonth;
    var (y, m, d) := ReadIsoDate(IsoDate(c)).value;
    var shown := d + "/" + m + "/" + y;
    assert shown[..2] == d && shown[3..5] == m && shown[6..] == y;
  }

  /** `s` is a `dd/mm/yyyy` text naming the date `c`. */
  ghost predicate DisplaysAs(s: string, c: Civil) {
    && |s| == 10 && s[2] == '/' && s[5] == '/'
    && Text.AllDigits(s[..2]) && Text.AllDigits(s[3..5]) && Text.AllDigits(s[6..])
    && Civil(Text.ParseNat(s[6..]), Text.ParseNat(s[3..5]), Text.ParseNat(s[..2])) == c
  }

  /** The two forms agree on which typed triples are dates. */
  lemma RealDateTestsAgree(input: DateInput, now: int)
    requires !IsEmpty(input)
    ensures ValidatePaymentDate(input, now) == Refused(Invalid) <==> Deadline.ParseCalendarDate(input).None?
  {
    if TypedParts(input).Some? {
      var c := TypedParts(input).value;
      CheckedDate(c, StartOfUtcDay(now));
      RoundTripsExactly(c.day, c.month, c.year);
    }
  }
}
