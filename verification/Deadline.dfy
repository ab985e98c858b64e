/** Changing the determination deadline: the floor under the new date, the
    checks in the order the form reports them, and the duration sent on. */
module Deadline {
  import opened Prelude
  import opened Calendar
  import opened London
  import opened DateText
  import opened SlaDuration

  /** `Intl` writes a year before 1 AD as its number before Christ. */
  function EraYear(year: int): int {
    if year <= 0 then 1 - year else year
  }

  /** `ukCalendarPartsOf`: the London date of an instant, as printed. */
  function UkCalendarParts(t: int): Civil {
    var c := CivilOf(LondonDay(t));
    Civil(EraYear(c.year), c.month, c.day)
  }

  /** `ukCalendarDayOf`, in days. */
  function UkCalendarDayOf(t: int): int {
    var parts := UkCalendarParts(t);
    DateUtc(parts.year, parts.month - 1, parts.day)
  }

  function UkCalendarYearOf(t: int): int {
    UkCalendarParts(t).year
  }

  /** It is the London day exactly from the year 100 on; before that the parts
      name a later year. */
  lemma UkCalendarDayExactly(t: int)
    ensures UkCalendarDayOf(t) == LondonDay(t) <==> UtcYear(t) >= 100
    ensures UkCalendarYearOf(t) == if UtcYear(t) >= 1 then UtcYear(t) else 1 - UtcYear(t)
  {
    hide MakeDay, IsSummerTime;
    LondonYearIsUtcYear(t);
    PrintedDay(CivilOf(LondonDay(t)));
  }

  lemma PrintedDay(c: Civil)
    requires IsReal(c)
    ensures DateUtc(EraYear(c.year), c.month - 1, c.day) == DayOf(c) <==> c.year >= 100
    ensures DateUtc(EraYear(c.year), c.month - 1, c.day) >= DayOf(c)
    ensures EraYear(c.year) == c.year <==> c.year >= 1
  {
    if c.year >= 100 {
      MakeDayInRange(c.year, c.month - 1, c.day);
    } else {
      var e := EraYear(c.year);
      LaterYearIsLater(c, if e <= 99 then 1900 + e else e);
    }
  }

  /** Which bound an error message names. */
  datatype Bound = FirstOfJanuary(year: int) | DulyMadeOn(startedAt: int)

  datatype Floor = Floor(day: int, bound: Bound)

  /** `deadlineFloor` */
  function DeadlineFloor(startedAt: int, now: int): Floor {
    var dulyMade := UkCalendarDayOf(startedAt);
    var currentYear := UkCalendarYearOf(now);
    var yearFloor := DateUtc(currentYear, 0, 1);
    if yearFloor >= dulyMade
    then Floor(yearFloor, FirstOfJanuary(currentYear))
    else Floor(dulyMade, DulyMadeOn(startedAt))
  }

  function Later(a: int, b: int): int {
    if a >= b then a else b
  }

  /** 1 January of the London year of an instant. */
  function January(now: int): int {
    DayFromYear(UtcYear(now))
  }

  /** 1 January as the code reckons it. */
  function JanuaryAsPrinted(now: int): int {
    DateUtc(UkCalendarYearOf(now), 0, 1)
  }

  /** The code's two bounds are never before the true ones, and are them exactly
      from the year 100 on. */
  lemma BoundsAreNotBefore(t: int)
    ensures UkCalendarDayOf(t) >= LondonDay(t) && JanuaryAsPrinted(t) >= January(t)
    ensures UkCalendarDayOf(t) == LondonDay(t) <==> UtcYear(t) >= 100
    ensures JanuaryAsPrinted(t) == January(t) <==> UtcYear(t) >= 100
  {
    hide DateUtc, DayOf, DaysInMonth, LondonDay, EraYear;
    LondonYearIsUtcYear(t);
    var c := CivilOf(LondonDay(t));
    assert c.year == UtcYear(t);
    PrintedDay(c);
    FirstOfJanuaryIs(c.year);
    PrintedDay(Civil(c.year, 1, 1));
  }

  lemma FirstOfJanuaryIs(y: int)
    ensures IsReal(Civil(y, 1, 1)) && DayOf(Civil(y, 1, 1)) == DayFromYear(y)
  {
  }

  /** The floor is the later of the two bounds as the code reckons them, a tie
      naming the year. */
  lemma FloorIsLaterAsReckoned(startedAt: int, now: int)
    ensures DeadlineFloor(startedAt, now)
            == if UkCalendarDayOf(startedAt) > JanuaryAsPrinted(now)
               then Floor(UkCalendarDayOf(startedAt), DulyMadeOn(startedAt))
               else Floor(JanuaryAsPrinted(now), FirstOfJanuary(UkCalendarYearOf(now)))
  {
    hide MakeDay;
  }

  /** For any two instants, the floor is the later of the London day the clock
      started and 1 January of the current London year, exactly when each of the
      two is from the year 100 on, or what the code reckons it to be does not
      pass the other. From the year 100 on the message names the bound that is the
      floor, on a tie the year. */
  lemma FloorIsLaterBoundExactly(startedAt: int, now: int)
    ensures DeadlineFloor(startedAt, now).day == Later(LondonDay(startedAt), January(now))
            <==> && (UtcYear(startedAt) >= 100 || UkCalendarDayOf(startedAt) <= January(now))
                 && (UtcYear(now) >= 100 || JanuaryAsPrinted(now) <= LondonDay(startedAt))
    ensures UtcYear(startedAt) >= 100 && UtcYear(now) >= 100 ==>
              DeadlineFloor(startedAt, now).bound
              == if LondonDay(startedAt) > January(now) then DulyMadeOn(startedAt) else FirstOfJanuary(UtcYear(now))
  {
    UkCalendarDayExactly(now);
    hide UkCalendarDayOf, UkCalendarYearOf, JanuaryAsPrinted, January, DeadlineFloor, LondonDay;
    FloorIsLaterAsReckoned(startedAt, now);
    BoundsAreNotBefore(startedAt);
    BoundsAreNotBefore(now);
  }

  lemma UtcYearMonotonic(t1: int, t2: int)
    requires t1 <= t2
    ensures UtcYear(t1) <= UtcYear(t2)
  {
    UtcDayMonotonic(t1, t2);
    UtcYearBounds(t1);
    UtcYearBounds(t2);
    if UtcYear(t2) < UtcYear(t1) {
      YearsApart(UtcYear(t2) + 1, UtcYear(t1));
    }
  }

  lemma JanuaryMonotonic(now1: int, now2: int)
    requires now1 <= now2
    ensures January(now1) <= January(now2)
  {
    UtcYearMonotonic(now1, now2);
    YearsApart(UtcYear(now1), UtcYear(now2));
  }

  /** The year the code reckons an instant to be in. */
  function ReckonedYear(t: int): int {
    var printed := EraYear(UtcYear(t));
    if printed <= 99 then 1900 + printed else printed
  }

  /** Both bounds are reckoned within that year. */
  lemma BoundsAreInReckonedYear(t: int)
    ensures DayFromYear(ReckonedYear(t)) <= UkCalendarDayOf(t) < DayFromYear(ReckonedYear(t) + 1)
    ensures JanuaryAsPrinted(t) == DayFromYear(ReckonedYear(t))
  {
    hide DateUtc, DaysInMonth, LondonDay, EraYear, DayOf, DayFromYear;
    LondonYearIsUtcYear(t);
    var c := CivilOf(LondonDay(t));
    assert c.year == UtcYear(t);
    PrintedWithinYear(c);
    PrintedJanuary(c.year);
  }

  lemma PrintedWithinYear(c: Civil)
    requires IsReal(c)
    ensures var e := EraYear(c.year);
            var y := if e <= 99 then 1900 + e else e;
            DayFromYear(y) <= DateUtc(e, c.month - 1, c.day) < DayFromYear(y + 1)
  {
    hide MakeDay;
    DayOfMonthSmall(c);
    var e := EraYear(c.year);
    MakeDayWithinYear(if e <= 99 then 1900 + e else e, c.month - 1, c.day);
  }

  lemma PrintedJanuary(year: int)
    ensures var e := EraYear(year);
            DateUtc(e, 0, 1) == DayFromYear(if e <= 99 then 1900 + e else e)
  {
    hide MakeDay;
    var e := EraYear(year);
    var y := if e <= 99 then 1900 + e else e;
    FirstOfJanuaryIs(y);
    MakeDayInRange(y, 0, 1);
  }

  lemma YearsOrder(y1: int, y2: int)
    ensures DayFromYear(y1) <= DayFromYear(y2) <==> y1 <= y2
  {
    if y1 < y2 {
      YearsApart(y1, y2);
    } else if y2 < y1 {
      YearsApart(y2, y1);
    }
  }

  /** Days compare as the years they are in, and within a year as days. */
  lemma DaysByYears(n1: int, y1: int, n2: int, y2: int)
    requires DayFromYear(y1) <= n1 < DayFromYear(y1 + 1) && DayFromYear(y2) <= n2 < DayFromYear(y2 + 1)
    ensures n1 <= n2 <==> y1 < y2 || (y1 == y2 && n1 <= n2)
  {
    hide DayFromYear;
    YearsOrder(y1 + 1, y2);
    YearsOrder(y2 + 1, y1);
  }

  /** As the clock start and the present move later the floor does not fall,
      exactly when the earlier clock start and the earlier present are each from
      the year 100 on, or in a reckoned year that comes before that of the later
      clock start or of the later present; where the years are the same, the
      clock start must not be reckoned later in the year. */
  lemma FloorMonotonicExactly(startedAt1: int, now1: int, startedAt2: int, now2: int)
    requires startedAt1 <= startedAt2 && now1 <= now2
    ensures var start, present := ReckonedYear(startedAt1), ReckonedYear(now1);
            DeadlineFloor(startedAt1, now1).day <= DeadlineFloor(startedAt2, now2).day
            <==> && (|| UtcYear(startedAt1) >= 100
                     || start < ReckonedYear(startedAt2) || start < ReckonedYear(now2)
                     || (start == ReckonedYear(startedAt2) && UkCalendarDayOf(startedAt1) <= UkCalendarDayOf(startedAt2))
                     || (start == ReckonedYear(now2) && UkCalendarDayOf(startedAt1) == DayFromYear(start)))
                 && (UtcYear(now1) >= 100 || present <= ReckonedYear(startedAt2) || present <= ReckonedYear(now2))
  {
    hide UkCalendarDayOf, JanuaryAsPrinted, January, DeadlineFloor, LondonDay, ReckonedYear, DayFromYear;
    FloorIsLaterAsReckoned(startedAt1, now1);
    FloorIsLaterAsReckoned(startedAt2, now2);
    LaterBoundsGrow(startedAt1, now1, startedAt2, now2);
    BoundsAreInReckonedYear(startedAt1);
    BoundsAreInReckonedYear(startedAt2);
    BoundsAreInReckonedYear(now1);
    BoundsAreInReckonedYear(now2);
    var start, present, start2, present2 :=
      ReckonedYear(startedAt1), ReckonedYear(now1), ReckonedYear(startedAt2), ReckonedYear(now2);
    DaysByYears(UkCalendarDayOf(startedAt1), start, UkCalendarDayOf(startedAt2), start2);
    YearsOrder(present2, present2 + 1);
    YearsOrder(present2 + 1, present2);
    DaysByYears(UkCalendarDayOf(startedAt1), start, DayFromYear(present2), present2);
    YearsOrder(present, present + 1);
    YearsOrder(present + 1, present);
    DaysByYears(DayFromYear(present), present, UkCalendarDayOf(startedAt2), start2);
    YearsOrder(present, present2);
  }

  /** From the year 100 on neither bound is reckoned past the later one. */
  lemma LaterBoundsGrow(startedAt1: int, now1: int, startedAt2: int, now2: int)
    requires startedAt1 <= startedAt2 && now1 <= now2
    ensures UtcYear(startedAt1) >= 100 ==> UkCalendarDayOf(startedAt1) <= UkCalendarDayOf(startedAt2)
    ensures UtcYear(now1) >= 100 ==> JanuaryAsPrinted(now1) <= JanuaryAsPrinted(now2)
  {
    hide UkCalendarDayOf, JanuaryAsPrinted, January, LondonDay;
    BoundsAreNotBefore(startedAt1);
    BoundsAreNotBefore(startedAt2);
    BoundsAreNotBefore(now1);
    BoundsAreNotBefore(now2);
    LondonDayMonotonic(startedAt1, startedAt2);
    JanuaryMonotonic(now1, now2);
  }

  /** So with a present from the year 2000 on it never falls for any clock start
      from the year 1 on. */
  lemma FloorMonotonicToday(startedAt1: int, now1: int, startedAt2: int, now2: int)
    requires startedAt1 <= startedAt2 && now1 <= now2
    requires UtcYear(startedAt1) >= 1 && UtcYear(now1) >= 2000
    ensures DeadlineFloor(startedAt1, now1).day <= DeadlineFloor(startedAt2, now2).day
  {
    hide UkCalendarDayOf, DeadlineFloor, DayFromYear, UtcYear;
    FloorMonotonicExactly(startedAt1, now1, startedAt2, now2);
    UtcYearMonotonic(now1, now2);
  }

  /** In the second century it does fall: a clock started in the year 99 is
      reckoned in 1999, one started in the year 100 is not. */
  lemma FloorFalls(startedAt1: int, startedAt2: int, now: int)
    requires UtcYear(startedAt1) == 99 && UtcYear(startedAt2) == 100 && 100 <= UtcYear(now) < 1999
    ensures startedAt1 < startedAt2
    ensures DeadlineFloor(startedAt2, now).day < DeadlineFloor(startedAt1, now).day
  {
    hide UkCalendarDayOf, DeadlineFloor, DayFromYear, UtcYear;
    if startedAt2 <= startedAt1 {
      UtcYearMonotonic(startedAt2, startedAt1);
      assert false;
    }
    FloorMonotonicExactly(startedAt1, now, startedAt2, now);
  }

  /** For instance under a present of 1 January 150. */
  lemma FloorFallsExample()
    ensures NewYear(99) <= NewYear(100)
    ensures DeadlineFloor(NewYear(100), NewYear(150)).day < DeadlineFloor(NewYear(99), NewYear(150)).day
  {
    hide DeadlineFloor, NewYear;
    NewYearIs(99);
    NewYearIs(100);
    NewYearIs(150);
    FloorFalls(NewYear(99), NewYear(100), NewYear(150));
  }

  lemma LondonDayWithinYear(t: int)
    ensures DayFromYear(UtcYear(t)) <= LondonDay(t) < DayFromYear(UtcYear(t) + 1)
  {
    hide MakeDay, IsSummerTime, DaysInMonth, DayOf;
    LondonYearIsUtcYear(t);
    DayWithinYear(CivilOf(LondonDay(t)));
  }

  /** Why a new deadline is refused, in the form's order. */
  datatype Refusal = EnterDeadline | NotARealDate | NoDeadlineToChange | BelowFloor(bound: Bound) | Unchanged

  /** What the checks decide: move the deadline to a date, so many days away. */
  datatype Decision = Move(to: Civil, days: int) | Refuse(why: Refusal)

  datatype Verdict = Accepted(value: string, additionalDuration: string) | Refused(reason: Refusal)

  /** A parsed date: the day of its UTC midnight, and its parts. */
  datatype Parsed = Parsed(day: int, date: Civil)

  /** `parseCalendarDate` */
  function ParseCalendarDate(input: DateInput): (r: Option<Parsed>) {
    var typed := TypedParts(input);
    if typed.None? then None
    else
      var Civil(y, m, d) := typed.value;
      if RoundTrips(d, m, y) then Some(Parsed(DateUtc(y, m - 1, d), typed.value)) else None
  }

  /** The gap in days between two UTC midnights, as the code divides it. */
  function DayGap(newDay: int, currentDay: int): int {
    (newDay * MS_PER_DAY - currentDay * MS_PER_DAY) / MS_PER_DAY
  }

  /** The rule checks of `validateExtendDeadline`, once the shape is known. */
  function CheckRules(c: Civil, newDay: int, currentDay: int, floor: Floor): (d: Decision)
    ensures d.Move? ==> d.to == c
  {
    if newDay < floor.day then Refuse(BelowFloor(floor.bound))
    else if newDay == currentDay then Refuse(Unchanged)
    else Move(c, DayGap(newDay, currentDay))
  }

  /** The shape checks, then the rule checks. The two instants are what
      `parseInstant` made of the work item's `slaDueDate` and `slaStartedAt`. */
  function Decide(input: DateInput, currentDue: Option<int>, startedAt: Option<int>, now: int): (d: Decision)
    ensures d.Move? ==> TypedParts(input) == Some(d.to)
  {
    if IsEmpty(input) then Refuse(EnterDeadline)
    else
      var parsed := ParseCalendarDate(input);
      if parsed.None? then Refuse(NotARealDate)
      else if currentDue.None? || startedAt.None? then Refuse(NoDeadlineToChange)
      else
        CheckRules(parsed.value.date, parsed.value.day, StartOfUtcDay(currentDue.value),
                   DeadlineFloor(startedAt.value, now))
  }

  /** `validateExtendDeadline` */
  function ValidateExtendDeadline(
    input: DateInput, currentDue: Option<int>, startedAt: Option<int>, now: int): Verdict
  {
    var d := Decide(input, currentDue, startedAt, now);
    if d.Move? then Accepted(IsoDate(d.to), IsoDayDuration(d.days)) else Refused(d.why)
  }

  /** The real date typed into the boxes, if there is one. */
  ghost predicate TypesRealDate(input: DateInput, c: Civil) {
    TypedParts(input) == Some(c) && IsReal(c) && c.year >= 100
  }

  lemma ParsedDate(input: DateInput)
    ensures ParseCalendarDate(input).Some? <==> TypedParts(input).Some? && TypesRealDate(input, TypedParts(input).value)
    ensures ParseCalendarDate(input).Some? ==>
              var c := TypedParts(input).value;
              ParseCalendarDate(input) == Some(Parsed(DayOf(c), c))
  {
    if TypedParts(input).Some? {
      var c := TypedParts(input).value;
      RoundTripsExactly(c.day, c.month, c.year);
      if IsReal(c) && c.year >= 100 {
        MakeDayInRange(c.year, c.month - 1, c.day);
      }
    }
  }

  /** The rule checks as they read once a real date has been typed. */
  lemma Decided(input: DateInput, currentDue: int, startedAt: int, now: int)
    requires ParseCalendarDate(input).Some?
    ensures var c := TypedParts(input).value;
            Decide(input, Some(currentDue), Some(startedAt), now)
            == CheckRules(c, DayOf(c), StartOfUtcDay(currentDue), DeadlineFloor(startedAt, now))
  {
    hide MakeDay, DeadlineFloor;
    ParsedDate(input);
    assert !IsEmpty(input);
  }

  lemma DayGapExact(newDay: int, currentDay: int)
    ensures DayGap(newDay, currentDay) == newDay - currentDay
  {
  }

  /** A change is accepted exactly when a real date from the year 100 on is
      typed, the item has both its dates, and the date is on or above the floor
      and is not the day the deadline already reads as. */
  lemma AcceptsExactly(input: DateInput, currentDue: Option<int>, startedAt: Option<int>, now: int, c: Civil)
    requires TypedParts(input) == Some(c)
    ensures ValidateExtendDeadline(input, currentDue, startedAt, now).Accepted?
            <==> && IsReal(c) && c.year >= 100
                 && currentDue.Some? && startedAt.Some?
                 && DayOf(c) >= DeadlineFloor(startedAt.value, now).day
                 && DayOf(c) != StartOfUtcDay(currentDue.value)
  {
    ParsedDate(input);
    if ParseCalendarDate(input).Some? && currentDue.Some? && startedAt.Some? {
      Decided(input, currentDue.value, startedAt.value, now);
    }
  }

  lemma MoveDecided(input: DateInput, currentDue: int, startedAt: int, now: int, c: Civil)
    requires TypedParts(input) == Some(c)
    requires Decide(input, Some(currentDue), Some(startedAt), now).Move?
    ensures TypesRealDate(input, c)
    ensures Decide(input, Some(currentDue), Some(startedAt), now) == Move(c, DayOf(c) - StartOfUtcDay(currentDue))
  {
    hide MakeDay, DeadlineFloor;
    ParsedDate(input);
    Decided(input, currentDue, startedAt, now);
    DayGapExact(DayOf(c), StartOfUtcDay(currentDue));
  }

  /** What an accepted change sends: the typed date as text, and the signed gap
      from the day the deadline reads as. */
  lemma AcceptedSends(input: DateInput, currentDue: int, startedAt: int, now: int, c: Civil)
    requires TypedParts(input) == Some(c)
    requires ValidateExtendDeadline(input, Some(currentDue), Some(startedAt), now).Accepted?
    ensures TypesRealDate(input, c)
    ensures ValidateExtendDeadline(input, Some(currentDue), Some(startedAt), now)
            == Accepted(IsoDate(c), IsoDayDuration(DayOf(c) - StartOfUtcDay(currentDue)))
    ensures ReadsAs(IsoDate(c), c)
  {
    hide ReadIsoDate, IsoDayDuration, MakeDay, Decide;
    MoveDecided(input, currentDue, startedAt, now, c);
    TypedYearBound(input);
    IsoDateRoundTrip(c);
  }

  /** When a real date is refused, the floor is the reason if it applies, and
      otherwise that nothing would change. */
  lemma RefusesInOrder(input: DateInput, currentDue: int, startedAt: int, now: int, c: Civil)
    requires TypesRealDate(input, c)
    ensures var floor := DeadlineFloor(startedAt, now);
            var v := ValidateExtendDeadline(input, Some(currentDue), Some(startedAt), now);
            && (v == Refused(BelowFloor(floor.bound)) <==> DayOf(c) < floor.day)
            && (v == Refused(Unchanged) <==> DayOf(c) >= floor.day && DayOf(c) == StartOfUtcDay(currentDue))
  {
    ParsedDate(input);
    Decided(input, currentDue, startedAt, now);
  }

  /** Nothing is accepted unless the boxes hold digits of the right lengths. */
  lemma AcceptsOnlyTyped(input: DateInput, currentDue: Option<int>, startedAt: Option<int>, now: int)
    requires TypedParts(input).None?
    ensures ValidateExtendDeadline(input, currentDue, startedAt, now)
            == Refused(if IsBlank(input.day) && IsBlank(input.month) && IsBlank(input.year) then EnterDeadline else NotARealDate)
  {
    ParsedDate(input);
    EmptyExactly(input);
  }

  lemma ShiftByDays(t: int, days: int)
    ensures UtcDay(t + days * MS_PER_DAY) == UtcDay(t) + days
    ensures (t + days * MS_PER_DAY) % MS_PER_DAY == t % MS_PER_DAY
  {
    UtcDayBounds(t);
    UtcDayIs(t + days * MS_PER_DAY, UtcDay(t) + days);
    assert t == UtcDay(t) * MS_PER_DAY + t % MS_PER_DAY;
  }

  /** The instant the backend moves the deadline to: the current one plus the
      duration sent. */
  function MovedDeadline(currentDue: int, additionalDuration: string): (r: Option<int>) {
    var ms := ParseSlaDurationMs(Some(additionalDuration));
    if ms.None? then None else Some(currentDue + ms.value.Floor)
  }

  /** The instant behind `slaDeadlineDisplay`: the clock start plus the target
      duration, which is how the backend projects the due date too. */
  function SlaDeadline(startedAt: Option<int>, targetDuration: Option<string>): Option<int> {
    var ms := ParseSlaDurationMs(targetDuration);
    if startedAt.None? || ms.None? then None else Some(WholeMs(startedAt.value as real + ms.value))
  }

  /** The whole milliseconds a `Date` keeps of a time: what is over is cut off. */
  function WholeMs(t: real): int {
    if t >= 0.0 then t.Floor else -((-t).Floor)
  }

  lemma WholeMsOfInt(n: int)
    ensures WholeMs(n as real) == n
  {
  }

  /** Without a clock start or with a target that is no duration no deadline is
      shown; otherwise it is the clock start and the target together, cut to whole
      milliseconds towards 1970, and for a target of whole days to the millisecond. */
  lemma SlaDeadlineExactly(startedAt: int, target: Option<string>, days: int)
    ensures SlaDeadline(None, target) == None
    ensures SlaDeadline(Some(startedAt), target).None? <==> ParseSlaDurationMs(target).None?
    ensures var ms, shown := ParseSlaDurationMs(target), SlaDeadline(Some(startedAt), target);
            ms.Some? ==>
              var sum := startedAt as real + ms.value;
              if sum >= 0.0 then sum - 1.0 < shown.value as real <= sum else sum <= shown.value as real < sum + 1.0
    ensures SlaDeadline(Some(startedAt), Some(IsoDayDuration(days))) == Some(startedAt + days * 86_400_000)
  {
    hide ParseSlaDurationMs, IsoDayDuration;
    DayDurationRoundTrip(days);
    WholeMsOfInt(startedAt + days * 86_400_000);
  }

  /** A target extended by some days shows the deadline moved by those days. */
  lemma ExtensionsAddUp(startedAt: int, target: int, extra: int)
    ensures var before := SlaDeadline(Some(startedAt), Some(IsoDayDuration(target)));
            && before == Some(startedAt + target * 86_400_000)
            && SlaDeadline(Some(startedAt), Some(IsoDayDuration(target + extra)))
               == MovedDeadline(before.value, IsoDayDuration(extra))
               == Some(before.value + extra * 86_400_000)
  {
    hide ParseSlaDurationMs, IsoDayDuration, SlaDeadline;
    SlaDeadlineExactly(startedAt, None, target);
    SlaDeadlineExactly(startedAt, None, target + extra);
    DayDurationRoundTrip(extra);
  }

  /** The moved deadline falls on a day, at its old time of day, exactly when
      the current one is not in the years 0 to 99. */
  ghost predicate LandsUnlessEarly(moved: Option<int>, currentDue: int, day: int) {
    && moved.Some?
    && (UtcDay(moved.value) == day <==> !(0 <= UtcYear(currentDue) <= 99))
    && moved.value % MS_PER_DAY == currentDue % MS_PER_DAY
  }

  /** An accepted change lands on the typed date, whatever the time of day and
      whichever the direction, exactly when the current due date is not in the
      years 0 to 99. In those years `Date.UTC` measures the gap from another
      century. */
  lemma LandsExactly(input: DateInput, currentDue: int, startedAt: int, now: int, c: Civil)
    requires TypedParts(input) == Some(c)
    requires ValidateExtendDeadline(input, Some(currentDue), Some(startedAt), now).Accepted?
    ensures TypesRealDate(input, c)
    ensures LandsUnlessEarly(
              MovedDeadline(currentDue,
                            ValidateExtendDeadline(input, Some(currentDue), Some(startedAt), now).additionalDuration),
              currentDue, DayOf(c))
  {
    hide MakeDay, Decide, ParseSlaDurationMs;
    AcceptedSends(input, currentDue, startedAt, now, c);
    StartOfUtcDayExactly(currentDue);
    LandsFrom(currentDue, StartOfUtcDay(currentDue), DayOf(c));
  }

  lemma LandsFrom(currentDue: int, start: int, day: int)
    requires start == UtcDay(currentDue) <==> !(0 <= UtcYear(currentDue) <= 99)
    ensures LandsUnlessEarly(MovedDeadline(currentDue, IsoDayDuration(day - start)), currentDue, day)
  {
    hide ParseSlaDurationMs, IsoDayDuration;
    MovedByGap(currentDue, day - start);
    ShiftByDays(currentDue, day - start);
  }

  lemma MovedByGap(currentDue: int, gap: int)
    ensures MovedDeadline(currentDue, IsoDayDuration(gap)) == Some(currentDue + gap * MS_PER_DAY)
  {
    DayDurationRoundTrip(gap);
  }

  /** A due date in those years: any date from 2000 on that clears the floor is
      accepted, and the deadline moves somewhere else. */
  lemma EarlyDeadlineMisses(input: DateInput, c: Civil, currentDue: int, startedAt: int, now: int)
    requires TypesRealDate(input, c) && c.year >= 2000 && 0 <= UtcYear(currentDue) <= 99
    requires DeadlineFloor(startedAt, now).day <= DayOf(c)
    ensures var v := ValidateExtendDeadline(input, Some(currentDue), Some(startedAt), now);
            && v.Accepted? && MovedDeadline(currentDue, v.additionalDuration).Some?
            && UtcDay(MovedDeadline(currentDue, v.additionalDuration).value) != DayOf(c)
  {
    StartOfEarlyDay(currentDue);
    DayWithinYear(c);
    YearsApart(2000, c.year);
    AcceptsExactly(input, Some(currentDue), Some(startedAt), now, c);
    LandsExactly(input, currentDue, startedAt, now, c);
  }

  lemma StartOfEarlyDay(t: int)
    requires 0 <= UtcYear(t) <= 99
    ensures StartOfUtcDay(t) < DayFromYear(2000)
  {
    var c := CivilOf(UtcDay(t));
    DayOfMonthSmall(c);
    MakeDayWithinYear(1900 + c.year, c.month - 1, c.day);
    YearsApart(1900 + c.year + 1, 2000);
  }

  /** From such a due date, any date from 2007 on moves the deadline to an earlier
      day, in a year `Date.UTC` reads rightly: the form would take the same date
      again. */
  lemma EarlyDeadlineReadsElsewhere(due: int, c: Civil)
    requires 0 <= UtcYear(due) <= 99 && IsReal(c) && c.year >= 2007
    ensures var moved := due + (DayOf(c) - StartOfUtcDay(due)) * MS_PER_DAY;
            UtcYear(moved) >= 100 && StartOfUtcDay(moved) != DayOf(c)
  {
    hide MakeDay, DayOf, DaysInMonth, StartOfUtcDay, CivilOf, DayFromYear;
    var gap := DayOf(c) - StartOfUtcDay(due);
    ShiftByDays(due, gap);
    EarlyShift(due);
    DayWithinYear(c);
    YearsApart(100, 2007);
    YearsApart(2007, c.year);
    YearAtLeast(due + gap * MS_PER_DAY, 100);
    StartOfUtcDayExactly(due + gap * MS_PER_DAY);
  }

  lemma EarlyShift(t: int)
    requires 0 <= UtcYear(t) <= 99
    ensures 0 < StartOfUtcDay(t) - UtcDay(t) <= 366 * 1901
  {
    hide MakeDay, DayOf;
    var c := CivilOf(UtcDay(t));
    DayOfMonthSmall(c);
    MakeDayWithinYear(1900 + c.year, c.month - 1, c.day);
    DayWithinYear(c);
    YearsApart(c.year, c.year + 1901);
    YearsApart(c.year + 1, c.year + 1900);
  }

  lemma YearAtLeast(t: int, y: int)
    requires DayFromYear(y) <= UtcDay(t)
    ensures UtcYear(t) >= y
  {
    UtcYearBounds(t);
    if UtcYear(t) < y {
      YearsApart(UtcYear(t) + 1, y);
    }
  }

  lemma StartedBeforeThisYear(startedAt: int, now: int)
    requires 100 <= UtcYear(startedAt) < UtcYear(now)
    ensures DeadlineFloor(startedAt, now).day == DayOf(Civil(UtcYear(now), 1, 1))
  {
    hide UkCalendarDayOf, JanuaryAsPrinted, DeadlineFloor, LondonDay, DayOf;
    FloorIsLaterBoundExactly(startedAt, now);
    LondonDayWithinYear(startedAt);
    YearsApart(UtcYear(startedAt) + 1, UtcYear(now));
    FirstOfJanuaryIs(UtcYear(now));
  }

  /** For instance 1 December 2026, submitted in 2026 for a deadline in the year
      50. */
  lemma EarlyDeadlineExample(currentDue: int, startedAt: int, now: int)
    requires UtcYear(currentDue) == 50 && UtcYear(now) == 2026 && 100 <= UtcYear(startedAt) < 2026
    ensures var input := DateInput(Some("1"), Some("12"), Some("2026"));
            var v := ValidateExtendDeadline(input, Some(currentDue), Some(startedAt), now);
            && TypesRealDate(input, Civil(2026, 12, 1))
            && v.Accepted? && MovedDeadline(currentDue, v.additionalDuration).Some?
            && UtcDay(MovedDeadline(currentDue, v.additionalDuration).value) != DayOf(Civil(2026, 12, 1))
  {
    var c := Civil(UtcYear(now), 12, 1);
    TypedExample();
    StartedBeforeThisYear(startedAt, now);
    DayOrder(Civil(UtcYear(now), 1, 1), c);
    EarlyDeadlineMisses(DateInput(Some("1"), Some("12"), Some("2026")), c, currentDue, startedAt, now);
  }

  lemma TypedExample()
    ensures TypedParts(DateInput(Some("1"), Some("12"), Some("2026"))) == Some(Civil(2026, 12, 1))
  {
    var d, m, y := "1", "12", "2026";
    Text.TrimKeeps(d);
    Text.TrimKeeps(m);
    Text.TrimKeeps(y);
    assert m[..1] == "1" && y[..3] == "202" && y[..3][..2] == "20" && y[..3][..2][..1] == "2";
    assert d[..0] == "";
    assert "1"[..0] == "" && "2"[..0] == "";
    assert Text.ParseNat("1") == 1 && Text.ParseNat("2") == 2;
    assert Text.ParseNat("20") == 20 && Text.ParseNat("202") == 202;
    assert Text.ParseNat(y) == 2026 && Text.ParseNat(m) == 12;
  }
}
