/** The signed day-time durations of the determination deadline: what the
    deadline form prints (`isoDayDuration`) and what the audit log parses
    (`parseSlaDurationMs`). */
module SlaDuration {
  import opened Prelude
  import opened Text
  import opened Calendar

  /** The components a duration may carry, as the digits written. */
  datatype Components = Components(
    days: Option<string>,
    hours: Option<string>,
    minutes: Option<string>,
    seconds: Option<Decimal>)

  datatype Decimal = Decimal(whole: string, fraction: Option<string>)

  // ---- The language, written out independently of the parser ----

  predicate IsNumber(s: string) {
    s != "" && AllDigits(s)
  }

  predicate WellFormed(c: Components) {
    && (c.days.Some? ==> IsNumber(c.days.value))
    && (c.hours.Some? ==> IsNumber(c.hours.value))
    && (c.minutes.Some? ==> IsNumber(c.minutes.value))
    && (c.seconds.Some? ==>
          && IsNumber(c.seconds.value.whole)
          && (c.seconds.value.fraction.Some? ==> IsNumber(c.seconds.value.fraction.value)))
  }

  predicate HasComponent(c: Components) {
    c.days.Some? || c.hours.Some? || c.minutes.Some? || c.seconds.Some?
  }

  function UnitText(n: Option<string>, u: char): string {
    if n.Some? then n.value + [u] else ""
  }

  function DecimalText(d: Decimal): string {
    d.whole + (if d.fraction.Some? then "." + d.fraction.value else "")
  }

  function SecondsText(d: Option<Decimal>): string {
    if d.Some? then DecimalText(d.value) + "S" else ""
  }

  function TimeText(c: Components): string {
    UnitText(c.hours, 'H') + (UnitText(c.minutes, 'M') + SecondsText(c.seconds))
  }

  /** What follows the `P` of a spelling. */
  function SpelledBody(c: Components): string {
    UnitText(c.days, 'D') + (if TimeText(c) == "" then "" else "T" + TimeText(c))
  }

  /** The duration `negative`, `c` spells: the sign goes before the `P`, and the
      `T` is there exactly when something follows it. */
  function Spell(negative: bool, c: Components): string {
    (if negative then "-" else "") + ("P" + SpelledBody(c))
  }

  function Number(n: Option<string>): real
    requires n.Some? ==> AllDigits(n.value)
  {
    if n.Some? then ParseNat(n.value) as real else 0.0
  }

  function SecondsValue(d: Option<Decimal>): real
    requires d.Some? ==> AllDigits(d.value.whole)
    requires d.Some? && d.value.fraction.Some? ==> AllDigits(d.value.fraction.value)
  {
    if d.None? then 0.0
    else if d.value.fraction.None? then ParseNat(d.value.whole) as real
    else ParseNat(d.value.whole) as real
         + ParseNat(d.value.fraction.value) as real / Pow10(|d.value.fraction.value|) as real
  }

  function Milliseconds(c: Components): real
    requires WellFormed(c)
  {
    Number(c.days) * 86_400_000.0 + Number(c.hours) * 3_600_000.0
    + Number(c.minutes) * 60_000.0 + SecondsValue(c.seconds) * 1000.0
  }

  function Signed(negative: bool, ms: real): real {
    if negative then -ms else ms
  }

  // ---- The parser, pattern by pattern ----

  /** An optional `(\d+)U` at the front of `s`, and what follows it. */
  function TakeUnit(s: string, u: char): (Option<string>, string) {
    var d := TakeDigits(s);
    if d != "" && |d| < |s| && s[|d|] == u then (Some(d), s[|d| + 1..]) else (None, s)
  }

  /** An optional `(\d+(?:\.\d+)?)S` at the front of `s`, and what follows it. */
  function TakeSeconds(s: string): (Option<Decimal>, string) {
    var d := TakeDigits(s);
    if d == "" || |d| == |s| then (None, s)
    else if s[|d|] == 'S' then (Some(Decimal(d, None)), s[|d| + 1..])
    else if s[|d|] != '.' then (None, s)
    else
      var (f, rest) := TakeUnit(s[|d| + 1..], 'S');
      if f.Some? then (Some(Decimal(d, f)), rest) else (None, s)
  }

  predicate IsLineTerminator(c: char) {
    c as int in {0xA, 0xD, 0x2028, 0x2029}
  }

  /** What `.` matches throughout. */
  predicate IsOneLine(s: string) {
    forall c :: c in s ==> !IsLineTerminator(c)
  }

  /** Up to the first `T`: what `[^T]*` takes. */
  function BeforeT(s: string): (r: string)
    ensures r <= s && 'T' !in r && (|r| < |s| ==> s[|r|] == 'T')
  {
    if s == "" || s[0] == 'T' then "" else [s[0]] + BeforeT(s[1..])
  }

  /** DURATION_SHAPE: sign, date half and time half, or `None`. */
  function MatchShape(v: string): Option<(bool, string, Option<string>)> {
    var negative := v != "" && v[0] == '-';
    MatchHalves(negative, if negative then v[1..] else v)
  }

  function MatchHalves(negative: bool, body: string): Option<(bool, string, Option<string>)> {
    if body == "" || body[0] != 'P' then None
    else
      var datePart := BeforeT(body[1..]);
      var rest := body[1..][|datePart|..];
      if rest == "" then Some((negative, datePart, None))
      else if |rest| == 1 || !IsOneLine(rest[1..]) then None
      else Some((negative, datePart, Some(rest[1..])))
  }

  /** `durationBodyToMs`, up to the sum: the components the two halves carry. */
  function MatchBody(datePart: string, timePart: Option<string>): (r: Option<Components>)
    ensures r.Some? ==> WellFormed(r.value) && HasComponent(r.value)
  {
    var (days, afterDays) := TakeUnit(datePart, 'D');
    var (hours, afterHours) := TakeUnit(if timePart.Some? then timePart.value else "", 'H');
    var (minutes, afterMinutes) := TakeUnit(afterHours, 'M');
    var (seconds, afterSeconds) := TakeSeconds(afterMinutes);
    var c := Components(days, hours, minutes, seconds);
    if afterDays != "" || afterSeconds != "" || !HasComponent(c) then None else Some(c)
  }

  /** Both patterns on the trimmed text: the sign and the components. */
  function ParseComponents(value: string): (r: Option<(bool, Components)>)
    ensures r.Some? ==> WellFormed(r.value.1) && HasComponent(r.value.1)
  {
    var shape := MatchShape(Trim(value));
    if shape.None? then None
    else
      var c := MatchBody(shape.value.1, shape.value.2);
      if c.None? then None else Some((shape.value.0, c.value))
  }

  /** `parseSlaDurationMs`; `None` for a value that is not a string. */
  function ParseSlaDurationMs(value: Option<string>): Option<real> {
    if value.None? then None
    else
      var parts := ParseComponents(value.value);
      if parts.None? then None else Some(Signed(parts.value.0, Milliseconds(parts.value.1)))
  }

  // ---- The parser accepts exactly the language ----

  lemma TakeUnitSplits(s: string, u: char)
    requires !IsDigit(u)
    ensures var (n, rest) := TakeUnit(s, u);
            s == UnitText(n, u) + rest && (n.Some? ==> IsNumber(n.value))
  {
  }

  lemma DecimalGlue(s: string, d: string, f: string, after: string, rest: string)
    requires s == d + "." + after && after == (f + "S") + rest
    ensures s == ((d + ("." + f)) + "S") + rest
  {
  }

  lemma WholeGlue(s: string, d: string)
    requires d <= s && |d| < |s|
    ensures s == (d + [s[|d|]]) + s[|d| + 1..]
  {
  }

  lemma TakeSecondsSplits(s: string)
    ensures s == SecondsText(TakeSeconds(s).0) + TakeSeconds(s).1
  {
    hide TakeDigits, AllDigits, TakeUnit;
    var d := TakeDigits(s);
    if d == "" || |d| == |s| {
      assert "" + s == s;
    } else if s[|d|] == 'S' {
      WholeGlue(s, d);
    } else if s[|d|] == '.' {
      var after := s[|d| + 1..];
      TakeUnitSplits(after, 'S');
      var (f, rest) := TakeUnit(after, 'S');
      if f.Some? {
        WholeGlue(s, d);
        DecimalGlue(s, d, f.value, after, rest);
      } else {
        assert "" + s == s;
      }
    } else {
      assert "" + s == s;
    }
  }

  lemma MatchBodySpells(datePart: string, timePart: Option<string>, c: Components)
    requires MatchBody(datePart, timePart) == Some(c)
    ensures datePart == UnitText(c.days, 'D')
    ensures TimeText(c) == if timePart.Some? then timePart.value else ""
  {
    var time := if timePart.Some? then timePart.value else "";
    TakeUnitSplits(datePart, 'D');
    TakeUnitSplits(time, 'H');
    var afterHours := TakeUnit(time, 'H').1;
    TakeUnitSplits(afterHours, 'M');
    var afterMinutes := TakeUnit(afterHours, 'M').1;
    TakeSecondsSplits(afterMinutes);
    assert SecondsText(c.seconds) + "" == SecondsText(c.seconds);
    assert UnitText(c.days, 'D') + "" == UnitText(c.days, 'D');
  }

  lemma MatchShapeSplits(v: string)
    requires MatchShape(v).Some?
    ensures var (negative, datePart, timePart) := MatchShape(v).value;
            && v == (if negative then "-" else "") + ("P" + (datePart + (if timePart.Some? then "T" + timePart.value else "")))
            && (timePart.Some? ==> timePart.value != "")
  {
    var (negative, datePart, timePart) := MatchShape(v).value;
    var body := if negative then v[1..] else v;
    assert v == (if negative then "-" else "") + body;
    BodySplits(body);
  }

  lemma BodySplits(body: string)
    requires body != "" && body[0] == 'P'
    ensures var datePart := BeforeT(body[1..]);
            var rest := body[1..][|datePart|..];
            && body == "P" + (datePart + rest)
            && (rest != "" ==> rest == "T" + rest[1..])
  {
    hide BeforeT;
    var datePart := BeforeT(body[1..]);
    assert body[1..] == datePart + body[1..][|datePart|..];
    assert body == "P" + body[1..];
  }

  /** Whatever the parser accepts is, without the surrounding white space, the
      spelling of a sign and at least one component. */
  lemma ParserIsSound(value: string)
    requires ParseComponents(value).Some?
    ensures var (negative, c) := ParseComponents(value).value;
            WellFormed(c) && HasComponent(c) && Trim(value) == Spell(negative, c)
  {
    var v := Trim(value);
    MatchShapeSplits(v);
    var (negative, datePart, timePart) := MatchShape(v).value;
    MatchBodySpells(datePart, timePart, MatchBody(datePart, timePart).value);
  }

  /** A number followed by the unit is taken; a number followed by a later unit
      is left for it. */
  lemma TakeUnitReads(n: Option<string>, u: char, rest: string)
    requires n.Some? ==> IsNumber(n.value)
    requires !IsDigit(u)
    requires n.None? ==> rest == "" || (var d := TakeDigits(rest); |d| < |rest| && rest[|d|] != u)
    ensures TakeUnit(UnitText(n, u) + rest, u) == (n, rest)
  {
    if n.Some? {
      TakeNumberReads(n.value, u, rest);
    } else {
      assert UnitText(n, u) + rest == rest;
    }
  }

  lemma TakeNumberReads(n: string, u: char, rest: string)
    requires IsNumber(n) && !IsDigit(u)
    ensures TakeUnit((n + [u]) + rest, u) == (Some(n), rest)
  {
    var s := (n + [u]) + rest;
    assert s == n + ([u] + rest);
    TakeDigitsStops(n, [u] + rest);
    assert s[|n| + 1..] == rest;
  }

  /** What stands after the first number of `s`, when `s` is not empty. */
  ghost predicate NextMark(s: string, marks: set<char>) {
    s == "" || (var d := TakeDigits(s); |d| < |s| && s[|d|] in marks)
  }

  lemma UnitMark(n: Option<string>, u: char, rest: string, marks: set<char>)
    requires n.Some? ==> IsNumber(n.value)
    requires !IsDigit(u) && NextMark(rest, marks)
    ensures NextMark(UnitText(n, u) + rest, marks + {u})
  {
    if n.Some? {
      assert UnitText(n, u) + rest == n.value + ([u] + rest);
      TakeDigitsStops(n.value, [u] + rest);
    } else {
      assert UnitText(n, u) + rest == rest;
    }
  }

  lemma TakeWholeReads(w: string)
    requires IsNumber(w)
    ensures TakeSeconds(w + "S") == (Some(Decimal(w, None)), "") && NextMark(w + "S", {'S', '.'})
  {
    hide TakeDigits, AllDigits;
    TakeDigitsStops(w, "S");
    assert (w + "S")[|w|..] == "S";
    assert (w + "S")[|w| + 1..] == "";
  }

  lemma TakeDecimalReads(w: string, n: string)
    requires IsNumber(w) && IsNumber(n)
    ensures TakeSeconds(w + ("." + (n + "S"))) == (Some(Decimal(w, Some(n))), "")
    ensures NextMark(w + ("." + (n + "S")), {'S', '.'})
  {
    hide TakeDigits, AllDigits;
    var tail := n + "S";
    var s := w + ("." + tail);
    TakeDigitsStops(w, "." + tail);
    assert s[|w|..] == "." + tail;
    assert s[|w| + 1..] == tail;
    TakeNumberReads(n, 'S', "");
    assert (n + ['S']) + "" == tail;
  }

  lemma TakeSecondsReads(d: Option<Decimal>)
    requires d.Some? ==> IsNumber(d.value.whole)
    requires d.Some? && d.value.fraction.Some? ==> IsNumber(d.value.fraction.value)
    ensures TakeSeconds(SecondsText(d)) == (d, "") && NextMark(SecondsText(d), {'S', '.'})
  {
    if d.Some? {
      var w := d.value.whole;
      if d.value.fraction.Some? {
        var n := d.value.fraction.value;
        assert SecondsText(d) == w + ("." + (n + "S"));
        hide TakeSeconds, NextMark;
        TakeDecimalReads(w, n);
      } else {
        assert SecondsText(d) == w + "S";
        hide TakeSeconds, NextMark;
        TakeWholeReads(w);
      }
    }
  }

  lemma MatchBodyReads(c: Components)
    requires WellFormed(c) && HasComponent(c)
    ensures MatchBody(UnitText(c.days, 'D'), Some(TimeText(c))) == Some(c)
  {
    var s := SecondsText(c.seconds);
    var ms := UnitText(c.minutes, 'M') + s;
    assert TimeText(c) == UnitText(c.hours, 'H') + ms;
    TakeSecondsReads(c.seconds);
    UnitMark(c.minutes, 'M', s, {'S', '.'});
    TakeUnitReads(c.minutes, 'M', s);
    TakeUnitReads(c.hours, 'H', ms);
    TakeUnitReads(c.days, 'D', "");
    assert UnitText(c.days, 'D') + "" == UnitText(c.days, 'D');
  }

  lemma {:induction false} BeforeTStops(s: string, rest: string)
    requires 'T' !in s && (rest == "" || rest[0] == 'T')
    ensures BeforeT(s + rest) == s && (s + rest)[|s|..] == rest
  {
    if s == "" {
      assert s + rest == rest;
    } else {
      assert (s + rest)[1..] == s[1..] + rest;
      BeforeTStops(s[1..], rest);
    }
  }

  lemma TimeTextIsOneLine(c: Components)
    requires WellFormed(c)
    ensures IsOneLine(TimeText(c))
  {
    assert forall x :: IsDigit(x) ==> !IsLineTerminator(x);
    forall x | x in TimeText(c) ensures !IsLineTerminator(x) {
      if !IsDigit(x) {
        assert x in ['H', 'M', 'S', '.'];
      }
    }
  }

  lemma LastOfSum(a: string, b: string)
    requires b != ""
    ensures (a + b)[|a + b| - 1] == b[|b| - 1]
  {
  }

  lemma UnitEnds(n: Option<string>, u: char)
    ensures UnitText(n, u) != "" ==> UnitText(n, u)[|UnitText(n, u)| - 1] == u
  {
  }

  predicate EndsInUnit(s: string) {
    s != "" && s[|s| - 1] in ['D', 'H', 'M', 'S']
  }

  lemma SumEnds(a: string, b: string)
    requires b == "" || EndsInUnit(b)
    requires a == "" || EndsInUnit(a)
    ensures a + b == "" || EndsInUnit(a + b)
  {
    if b == "" {
      assert a + b == a;
    } else {
      LastOfSum(a, b);
    }
  }

  lemma TimeTextEnds(c: Components)
    ensures TimeText(c) == "" || EndsInUnit(TimeText(c))
  {
    hide UnitText;
    UnitEnds(c.hours, 'H');
    UnitEnds(c.minutes, 'M');
    SumEnds(UnitText(c.minutes, 'M'), SecondsText(c.seconds));
    SumEnds(UnitText(c.hours, 'H'), UnitText(c.minutes, 'M') + SecondsText(c.seconds));
  }

  lemma BodyEnds(c: Components)
    requires WellFormed(c) && HasComponent(c)
    ensures SpelledBody(c) != "" && EndsInUnit(SpelledBody(c))
  {
    SpellingNotEmpty(c);
    UnitEnds(c.days, 'D');
    TimeTextEnds(c);
    hide UnitText, TimeText, WellFormed, HasComponent;
    if TimeText(c) != "" {
      LastOfSum("T", TimeText(c));
    }
    SumEnds(UnitText(c.days, 'D'), if TimeText(c) == "" then "" else "T" + TimeText(c));
  }

  lemma SpellingEnds(negative: bool, c: Components)
    requires WellFormed(c) && HasComponent(c)
    ensures IsTrimmed(Spell(negative, c))
  {
    var body := SpelledBody(c);
    assert Spell(negative, c) == (if negative then "-" else "") + ("P" + body);
    BodyEnds(c);
    hide SpelledBody, Spell, WellFormed, HasComponent;
    TrimmedAfter("P", body);
    TrimmedAfter(if negative then "-" else "", "P" + body);
  }

  lemma TrimmedAfter(sign: string, s: string)
    requires s != "" && !IsWhite(s[|s| - 1])
    requires !IsWhite(if sign == "" then s[0] else sign[0])
    ensures IsTrimmed(sign + s) && sign + s != ""
  {
    LastOfSum(sign, s);
  }

  lemma SpellingNotEmpty(c: Components)
    requires HasComponent(c)
    ensures SpelledBody(c) != ""
  {
    if c.days.None? {
      assert TimeText(c) != "";
    }
  }

  lemma MatchHalvesOf(negative: bool, datePart: string, timePart: string)
    requires 'T' !in datePart && IsOneLine(timePart)
    ensures MatchHalves(negative, "P" + (datePart + (if timePart == "" then "" else "T" + timePart)))
            == Some((negative, datePart, if timePart == "" then None else Some(timePart)))
  {
    hide IsOneLine, BeforeT;
    var rest := if timePart == "" then "" else "T" + timePart;
    assert ("P" + (datePart + rest))[1..] == datePart + rest;
    BeforeTStops(datePart, rest);
    if timePart != "" {
      assert rest[1..] == timePart;
    }
  }

  lemma MatchShapeOf(negative: bool, datePart: string, timePart: string)
    requires 'T' !in datePart && IsOneLine(timePart)
    ensures MatchShape((if negative then "-" else "")
                       + ("P" + (datePart + (if timePart == "" then "" else "T" + timePart))))
            == Some((negative, datePart, if timePart == "" then None else Some(timePart)))
  {
    var body := "P" + (datePart + (if timePart == "" then "" else "T" + timePart));
    MatchHalvesOf(negative, datePart, timePart);
    hide MatchHalves, IsOneLine;
    if negative {
      assert ("-" + body)[1..] == body;
    } else {
      assert "" + body == body;
    }
  }

  lemma MatchShapeReads(negative: bool, c: Components)
    requires WellFormed(c)
    ensures MatchShape(Spell(negative, c))
            == Some((negative, UnitText(c.days, 'D'), if TimeText(c) == "" then None else Some(TimeText(c))))
  {
    TimeTextIsOneLine(c);
    assert 'T' !in UnitText(c.days, 'D');
    MatchShapeOf(negative, UnitText(c.days, 'D'), TimeText(c));
  }

  /** Every spelling, with any white space around it, is accepted and read as
      the sign and the components it spells. */
  lemma ParserIsComplete(pre: string, negative: bool, c: Components, post: string)
    requires AllWhite(pre) && AllWhite(post)
    requires WellFormed(c) && HasComponent(c)
    ensures ParseComponents(pre + Spell(negative, c) + post) == Some((negative, c))
  {
    SpellingEnds(negative, c);
    TrimDrops(pre, Spell(negative, c), post);
    MatchShapeReads(negative, c);
    MatchBodyReads(c);
    if TimeText(c) == "" {
      assert MatchBody(UnitText(c.days, 'D'), None) == MatchBody(UnitText(c.days, 'D'), Some(""));
    }
  }

  /** The two directions together: a value is accepted exactly when it is a
      spelling inside white space, and the answer is then the signed sum of the
      components spelled. */
  lemma ParserAcceptsExactly(value: string, negative: bool, c: Components)
    requires WellFormed(c) && HasComponent(c)
    ensures ParseComponents(value) == Some((negative, c)) <==> Trim(value) == Spell(negative, c)
    ensures Trim(value) == Spell(negative, c) ==>
              ParseSlaDurationMs(Some(value)) == Some(Signed(negative, Milliseconds(c)))
  {
    if ParseComponents(value) == Some((negative, c)) {
      ParserIsSound(value);
    }
    if Trim(value) == Spell(negative, c) {
      var pre, post := TrimSplits(value);
      ParserIsComplete(pre, negative, c, post);
    }
  }

  /** Anything that is no spelling is refused. */
  lemma ParserRefusesTheRest(value: string)
    requires forall negative, c :: WellFormed(c) && HasComponent(c) ==> Trim(value) != Spell(negative, c)
    ensures ParseSlaDurationMs(Some(value)) == None
  {
    if ParseComponents(value).Some? {
      ParserIsSound(value);
    }
  }

  // ---- What the components are worth, on the texts alone ----

  lemma ReadsAlone(text: string, c: Components)
    requires WellFormed(c) && HasComponent(c) && text == Spell(false, c)
    ensures ParseSlaDurationMs(Some(text)) == Some(Milliseconds(c))
  {
    hide Spell, Milliseconds, ParseSlaDurationMs;
    SpelledIs(false, c);
  }

  lemma OnlyDaysSpelled(days: Option<string>)
    requires days.Some?
    ensures Spell(false, Components(days, None, None, None)) == "P" + days.value + "D"
  {
    assert UnitText(days, 'D') + "" == days.value + "D";
    assert "" + ("P" + (days.value + "D")) == "P" + days.value + "D";
  }

  lemma TimeSpelled(c: Components, text: string)
    requires c.days.None? && TimeText(c) == text && text != ""
    ensures Spell(false, c) == "PT" + text
  {
    assert UnitText(c.days, 'D') + ("T" + text) == "T" + text;
    assert "" + ("P" + ("T" + text)) == "PT" + text;
  }

  lemma DaysSpelled(digits: string)
    ensures Spell(false, Components(Some(digits), None, None, None)) == "P" + digits + "D"
  {
    OnlyDaysSpelled(Some(digits));
  }

  lemma DaysWorth(digits: string)
    requires IsNumber(digits)
    ensures Milliseconds(Components(Some(digits), None, None, None)) == (ParseNat(digits) * 86_400_000) as real
  {
    hide ParseNat;
  }

  lemma HoursSpelled(digits: string)
    ensures Spell(false, Components(None, Some(digits), None, None)) == "PT" + digits + "H"
  {
    assert TimeText(Components(None, Some(digits), None, None)) == digits + "H";
    TimeSpelled(Components(None, Some(digits), None, None), digits + "H");
    assert "PT" + (digits + "H") == "PT" + digits + "H";
  }

  lemma HoursWorth(digits: string)
    requires IsNumber(digits)
    ensures Milliseconds(Components(None, Some(digits), None, None)) == (ParseNat(digits) * 3_600_000) as real
  {
    hide ParseNat;
  }

  lemma MinutesSpelled(digits: string)
    ensures Spell(false, Components(None, None, Some(digits), None)) == "PT" + digits + "M"
  {
    assert TimeText(Components(None, None, Some(digits), None)) == digits + "M";
    TimeSpelled(Components(None, None, Some(digits), None), digits + "M");
    assert "PT" + (digits + "M") == "PT" + digits + "M";
  }

  lemma MinutesWorth(digits: string)
    requires IsNumber(digits)
    ensures Milliseconds(Components(None, None, Some(digits), None)) == (ParseNat(digits) * 60_000) as real
  {
    hide ParseNat;
  }

  lemma SecondsSpelled(digits: string)
    ensures Spell(false, Components(None, None, None, Some(Decimal(digits, None)))) == "PT" + digits + "S"
  {
    assert digits + "" == digits;
    assert TimeText(Components(None, None, None, Some(Decimal(digits, None)))) == digits + "S";
    TimeSpelled(Components(None, None, None, Some(Decimal(digits, None))), digits + "S");
    assert "PT" + (digits + "S") == "PT" + digits + "S";
  }

  lemma SecondsWorth(digits: string)
    requires IsNumber(digits)
    ensures Milliseconds(Components(None, None, None, Some(Decimal(digits, None)))) == (ParseNat(digits) * 1000) as real
  {
    hide ParseNat;
  }

  /** A whole number of days, hours, minutes or seconds, however many digits it is
      written with, is worth that many times 86 400 000, 3 600 000, 60 000 or 1000
      milliseconds. */
  lemma WholeUnits(digits: string)
    requires IsNumber(digits)
    ensures ParseSlaDurationMs(Some("P" + digits + "D")) == Some((ParseNat(digits) * 86_400_000) as real)
    ensures ParseSlaDurationMs(Some("PT" + digits + "H")) == Some((ParseNat(digits) * 3_600_000) as real)
    ensures ParseSlaDurationMs(Some("PT" + digits + "M")) == Some((ParseNat(digits) * 60_000) as real)
    ensures ParseSlaDurationMs(Some("PT" + digits + "S")) == Some((ParseNat(digits) * 1000) as real)
  {
    hide ParseSlaDurationMs, ParseNat, Spell, Milliseconds;
    DaysSpelled(digits);
    HoursSpelled(digits);
    MinutesSpelled(digits);
    SecondsSpelled(digits);
    DaysWorth(digits);
    HoursWorth(digits);
    MinutesWorth(digits);
    SecondsWorth(digits);
    ReadsAlone("P" + digits + "D", Components(Some(digits), None, None, None));
    ReadsAlone("PT" + digits + "H", Components(None, Some(digits), None, None));
    ReadsAlone("PT" + digits + "M", Components(None, None, Some(digits), None));
    ReadsAlone("PT" + digits + "S", Components(None, None, None, Some(Decimal(digits, None))));
  }

  /** So a printed number is worth itself, in each unit. */
  lemma PrintedUnits(n: nat)
    ensures ParseSlaDurationMs(Some("P" + PrintNat(n) + "D")) == Some((n * 86_400_000) as real)
    ensures ParseSlaDurationMs(Some("PT" + PrintNat(n) + "H")) == Some((n * 3_600_000) as real)
    ensures ParseSlaDurationMs(Some("PT" + PrintNat(n) + "M")) == Some((n * 60_000) as real)
    ensures ParseSlaDurationMs(Some("PT" + PrintNat(n) + "S")) == Some((n * 1000) as real)
  {
    hide ParseSlaDurationMs, ParseNat, PrintNat;
    ParsePrintNat(n);
    WholeUnits(PrintNat(n));
  }

  /** A fraction of a second of `k` digits is worth its number times 1000 over ten
      to the `k`. */
  lemma FractionalSeconds(whole: string, fraction: string)
    requires IsNumber(whole) && IsNumber(fraction)
    ensures ParseSlaDurationMs(Some("PT" + whole + "." + fraction + "S"))
            == Some((ParseNat(whole) * 1000) as real + (ParseNat(fraction) * 1000) as real / Pow10(|fraction|) as real)
  {
    hide ParseSlaDurationMs, ParseNat, Spell, Milliseconds, Pow10;
    FractionSpelled(whole, fraction);
    FractionWorth(whole, fraction);
    ReadsAlone("PT" + whole + "." + fraction + "S", Components(None, None, None, Some(Decimal(whole, Some(fraction)))));
  }

  lemma FractionSpelled(whole: string, fraction: string)
    ensures Spell(false, Components(None, None, None, Some(Decimal(whole, Some(fraction)))))
            == "PT" + whole + "." + fraction + "S"
  {
    var c := Components(None, None, None, Some(Decimal(whole, Some(fraction))));
    var text := whole + "." + fraction + "S";
    assert whole + ("." + fraction) == whole + "." + fraction;
    assert TimeText(c) == text;
    TimeSpelled(c, text);
    assert "PT" + text == "PT" + whole + "." + fraction + "S";
  }

  lemma FractionWorth(whole: string, fraction: string)
    requires IsNumber(whole) && IsNumber(fraction)
    ensures Milliseconds(Components(None, None, None, Some(Decimal(whole, Some(fraction)))))
            == (ParseNat(whole) * 1000) as real + (ParseNat(fraction) * 1000) as real / Pow10(|fraction|) as real
  {
    hide ParseNat, Pow10;
    TimesAThousand(ParseNat(fraction), Pow10(|fraction|));
  }

  lemma TimesAThousand(n: nat, p: nat)
    requires p >= 1
    ensures n as real / p as real * 1000.0 == (n * 1000) as real / p as real
  {
  }

  /** What a component spelled alone is read as; nothing if it is not there. */
  function AloneValue(c: Components): real {
    if HasComponent(c) && ParseSlaDurationMs(Some(Spell(false, c))).Some? then ParseSlaDurationMs(Some(Spell(false, c))).value
    else 0.0
  }

  function AloneSum(c: Components): real {
    AloneValue(Components(c.days, None, None, None)) + AloneValue(Components(None, c.hours, None, None))
    + AloneValue(Components(None, None, c.minutes, None)) + AloneValue(Components(None, None, None, c.seconds))
  }

  lemma AloneSumIs(c: Components)
    requires WellFormed(c)
    ensures AloneSum(c) == Milliseconds(c)
  {
    PartsAreWellFormed(c);
    hide AloneValue, Milliseconds, WellFormed;
    MillisecondsAdd(c);
    AloneIs(Components(c.days, None, None, None));
    AloneIs(Components(None, c.hours, None, None));
    AloneIs(Components(None, None, c.minutes, None));
    AloneIs(Components(None, None, None, c.seconds));
  }

  /** A spelling is read as the sum of what its components are read as, each spelled
      alone, and a sign negates it. */
  lemma SpellingIsSum(negative: bool, c: Components)
    requires WellFormed(c) && HasComponent(c)
    ensures ParseSlaDurationMs(Some(Spell(negative, c))) == Some(if negative then -AloneSum(c) else AloneSum(c))
  {
    hide AloneSum, Spell, ParseSlaDurationMs, Milliseconds, WellFormed, HasComponent;
    AloneSumIs(c);
    SpelledIs(negative, c);
  }

  lemma PartsAreWellFormed(c: Components)
    requires WellFormed(c)
    ensures WellFormed(Components(c.days, None, None, None)) && WellFormed(Components(None, c.hours, None, None))
    ensures WellFormed(Components(None, None, c.minutes, None)) && WellFormed(Components(None, None, None, c.seconds))
  {
  }

  lemma MillisecondsAdd(c: Components)
    requires WellFormed(c)
    ensures Milliseconds(c)
            == Milliseconds(Components(c.days, None, None, None)) + Milliseconds(Components(None, c.hours, None, None))
               + Milliseconds(Components(None, None, c.minutes, None)) + Milliseconds(Components(None, None, None, c.seconds))
  {
    assert Number(None) == 0.0 && SecondsValue(None) == 0.0;
    hide SecondsValue, Number;
  }

  lemma SpelledIs(negative: bool, c: Components)
    requires WellFormed(c) && HasComponent(c)
    ensures ParseSlaDurationMs(Some(Spell(negative, c))) == Some(if negative then -Milliseconds(c) else Milliseconds(c))
  {
    hide Spell, Milliseconds, ParseSlaDurationMs;
    SpellingEnds(negative, c);
    TrimKeeps(Spell(negative, c));
    ParserAcceptsExactly(Spell(negative, c), negative, c);
  }

  lemma AloneIs(c: Components)
    requires WellFormed(c)
    ensures AloneValue(c) == Milliseconds(c)
  {
    hide Spell, Milliseconds, ParseSlaDurationMs;
    if HasComponent(c) {
      ReadsAlone(Spell(false, c), c);
    } else {
      NothingIsZero(c);
    }
  }

  lemma NothingIsZero(c: Components)
    requires WellFormed(c) && !HasComponent(c)
    ensures Milliseconds(c) == 0.0
  {
  }

  // ---- What the deadline form prints ----

  /** `isoDayDuration`. */
  function IsoDayDuration(days: int): string {
    if days < 0 then "-P" + PrintNat(-days) + "D" else "P" + PrintNat(days) + "D"
  }

  function OnlyDays(n: nat): Components {
    Components(Some(PrintNat(n)), None, None, None)
  }

  lemma DayDurationSpelled(days: int, n: nat)
    requires n == if days < 0 then -days else days
    ensures IsoDayDuration(days) == Spell(days < 0, OnlyDays(n))
  {
    assert UnitText(OnlyDays(n).days, 'D') + "" == PrintNat(n) + "D";
  }

  lemma OnlyDaysMilliseconds(days: int, n: nat)
    requires n == if days < 0 then -days else days
    ensures Signed(days < 0, Milliseconds(OnlyDays(n))) == (days * MS_PER_DAY) as real
  {
    ParsePrintNat(n);
  }

  lemma OnlyDaysParsed(text: string, negative: bool, n: nat)
    requires text == Spell(negative, OnlyDays(n))
    ensures ParseSlaDurationMs(Some(text)) == Some(Signed(negative, Milliseconds(OnlyDays(n))))
  {
    SpellingEnds(negative, OnlyDays(n));
    TrimKeeps(text);
    ParserAcceptsExactly(text, negative, OnlyDays(n));
  }

  /** Every whole number of days, forwards or backwards, is read back as that
      many days. */
  lemma DayDurationRoundTrip(days: int)
    ensures ParseSlaDurationMs(Some(IsoDayDuration(days))) == Some((days * MS_PER_DAY) as real)
  {
    var n := if days < 0 then -days else days;
    DayDurationSpelled(days, n);
    OnlyDaysParsed(IsoDayDuration(days), days < 0, n);
    OnlyDaysMilliseconds(days, n);
  }
}
