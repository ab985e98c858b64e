/** The three text boxes of a date input, and the `YYYY-MM-DD` text the date
    forms send on. */
module DateText {
  import opened Prelude
  import opened Text
  import opened Calendar

  /** What was posted for a date input; `None` for a missing field. */
  datatype DateInput = DateInput(day: Option<string>, month: Option<string>, year: Option<string>)

  function TextOf(value: Option<string>): string {
    if value.Some? then Trim(value.value) else ""
  }

  predicate IsEmpty(input: DateInput) {
    TextOf(input.day) == "" && TextOf(input.month) == "" && TextOf(input.year) == ""
  }

  predicate Digits(s: string, least: nat, most: nat) {
    least <= |s| <= most && AllDigits(s)
  }

  /** The numbers typed, when the boxes hold one or two, one or two and four
      digits. They need not be a date. */
  function TypedParts(input: DateInput): (r: Option<Civil>)
    ensures r.Some? ==> 0 <= r.value.year && 0 <= r.value.month && 0 <= r.value.day
  {
    var day, month, year := TextOf(input.day), TextOf(input.month), TextOf(input.year);
    if Digits(day, 1, 2) && Digits(month, 1, 2) && Digits(year, 4, 4)
    then Some(Civil(ParseNat(year), ParseNat(month), ParseNat(day)))
    else None
  }

  /** The box is missing, or nothing is in it but white space. */
  predicate IsBlank(box: Option<string>) {
    box.None? || AllWhite(box.value)
  }

  lemma EmptyExactly(input: DateInput)
    ensures IsEmpty(input) <==> IsBlank(input.day) && IsBlank(input.month) && IsBlank(input.year)
  {
    hide Trim, AllWhite;
    if input.day.Some? {
      TrimmedAway(input.day.value);
    }
    if input.month.Some? {
      TrimmedAway(input.month.value);
    }
    if input.year.Some? {
      TrimmedAway(input.year.value);
    }
  }

  /** The box holds `digits`, white space aside. */
  predicate Holds(box: Option<string>, digits: string) {
    box.Some? && Trim(box.value) == digits && digits != "" && AllDigits(digits)
  }

  /** A date is read from the boxes exactly when the first two hold one or two digits
      each and the last holds four: the day, the month and the year, in that order. */
  lemma TypedExactly(input: DateInput, c: Civil)
    ensures TypedParts(input) == Some(c)
            <==> exists d, m, y :: Holds(input.day, d) && Holds(input.month, m) && Holds(input.year, y)
                                   && |d| <= 2 && |m| <= 2 && |y| == 4
                                   && c == Civil(ParseNat(y), ParseNat(m), ParseNat(d))
  {
    hide Trim, ParseNat;
    if TypedParts(input) == Some(c) {
      var d, m, y := TextOf(input.day), TextOf(input.month), TextOf(input.year);
      assert Holds(input.day, d) && Holds(input.month, m) && Holds(input.year, y);
    }
  }

  lemma {:induction false} ParseNatBound(s: string)
    requires AllDigits(s)
    ensures ParseNat(s) < Pow10(|s|)
  {
    if s != "" {
      ParseNatBound(s[..|s| - 1]);
    }
  }

  lemma TypedYearBound(input: DateInput)
    requires TypedParts(input).Some?
    ensures TypedParts(input).value.year < 10_000
  {
    ParseNatBound(TextOf(input.year));
    assert Pow10(4) == 10_000 by { assert Pow10(2) == 100; }
  }

  /** `${pad(y, 4)}-${pad(m, 2)}-${pad(d, 2)}` */
  function IsoDate(c: Civil): string
    requires 0 <= c.year && 0 <= c.month && 0 <= c.day
  {
    PadStart(PrintNat(c.year), 4) + "-" + PadStart(PrintNat(c.month), 2) + "-" + PadStart(PrintNat(c.day), 2)
  }

  /** The pattern `^(\d{4})-(\d{2})-(\d{2})$`: the year, month and day texts. */
  function ReadIsoDate(s: string): Option<(string, string, string)> {
    if |s| == 10 && AllDigits(s[..4]) && s[4] == '-' && AllDigits(s[5..7]) && s[7] == '-' && AllDigits(s[8..])
    then Some((s[..4], s[5..7], s[8..]))
    else None
  }

  /** Which texts have that form. */
  lemma IsoFormExactly(s: string, y: string, m: string, d: string)
    ensures ReadIsoDate(s) == Some((y, m, d))
            <==> && |y| == 4 && |m| == 2 && |d| == 2 && AllDigits(y) && AllDigits(m) && AllDigits(d)
                 && s == y + "-" + m + "-" + d
  {
    if |y| == 4 && |m| == 2 && |d| == 2 && s == y + "-" + m + "-" + d {
      assert s[..4] == y && s[5..7] == m && s[8..] == d;
    }
    if ReadIsoDate(s) == Some((y, m, d)) {
      assert s == s[..4] + [s[4]] + s[5..7] + [s[7]] + s[8..];
    }
  }

  /** `s` is a `YYYY-MM-DD` text naming the date `c`. */
  ghost predicate ReadsAs(s: string, c: Civil) {
    ReadIsoDate(s).Some? &&
    var (y, m, d) := ReadIsoDate(s).value;
    && AllDigits(y) && AllDigits(m) && AllDigits(d)
    && Civil(ParseNat(y), ParseNat(m), ParseNat(d)) == c
  }

  lemma PaddedLength(n: nat, k: nat)
    requires 1 <= k && n < Pow10(k)
    ensures |PadStart(PrintNat(n), k)| == k
    ensures AllDigits(PadStart(PrintNat(n), k)) && ParseNat(PadStart(PrintNat(n), k)) == n
  {
    PrintNatLength(n, k);
    PadStartValue(PrintNat(n), k);
    ParsePrintNat(n);
  }

  /** A printed date is read back as the same year, month and day. */
  lemma IsoDateRoundTrip(c: Civil)
    requires IsReal(c) && 0 <= c.year < 10_000
    ensures ReadsAs(IsoDate(c), c)
  {
    var y, m, d := PadStart(PrintNat(c.year), 4), PadStart(PrintNat(c.month), 2), PadStart(PrintNat(c.day), 2);
    assert Pow10(2) == 100;
    assert Pow10(4) == 10_000;
    DaysBeforeMonotonic(0, c.month - 1, IsLeap(c.year));
    DayOfMonthSmall(c);
    PaddedLength(c.year, 4);
    PaddedLength(c.month, 2);
    PaddedLength(c.day, 2);
    var s := IsoDate(c);
    assert s[..4] == y && s[5..7] == m && s[8..] == d;
  }
}
