/** Strings as the source reads and prints them: trimming, decimal digits and
    `Number.parseInt`. */
module Text {
  import opened Prelude

  // The white space and line terminators `String.prototype.trim` removes
  // (sections 12.2 and 12.3 of ECMA-262).
  predicate IsWhite(c: char) {
    var n := c as int;
    || 0x9 <= n <= 0xD || n == 0x20 || n == 0xA0 || n == 0x1680
    || 0x2000 <= n <= 0x200A || n == 0x2028 || n == 0x2029
    || n == 0x202F || n == 0x205F || n == 0x3000 || n == 0xFEFF
  }

  predicate AllWhite(s: string) {
    forall i :: 0 <= i < |s| ==> IsWhite(s[i])
  }

  predicate IsTrimmed(s: string) {
    s == "" || (!IsWhite(s[0]) && !IsWhite(s[|s| - 1]))
  }

  function TrimStart(s: string): string {
    if s != "" && IsWhite(s[0]) then TrimStart(s[1..]) else s
  }

  function TrimEnd(s: string): string {
    if s != "" && IsWhite(s[|s| - 1]) then TrimEnd(s[..|s| - 1]) else s
  }

  function Trim(s: string): string {
    TrimEnd(TrimStart(s))
  }

  lemma {:induction false} TrimStartSplits(s: string) returns (pre: string)
    ensures AllWhite(pre) && s == pre + TrimStart(s)
    ensures TrimStart(s) == "" || !IsWhite(TrimStart(s)[0])
  {
    if s != "" && IsWhite(s[0]) {
      var p := TrimStartSplits(s[1..]);
      pre := [s[0]] + p;
    } else {
      pre := "";
    }
  }

  lemma {:induction false} TrimEndSplits(s: string) returns (post: string)
    ensures AllWhite(post) && s == TrimEnd(s) + post
    ensures TrimEnd(s) == "" || !IsWhite(TrimEnd(s)[|TrimEnd(s)| - 1])
    ensures TrimEnd(s) <= s
  {
    if s != "" && IsWhite(s[|s| - 1]) {
      var p := TrimEndSplits(s[..|s| - 1]);
      post := p + [s[|s| - 1]];
    } else {
      post := "";
    }
  }

  /** Trimming removes white space from both ends and nothing else. */
  lemma TrimSplits(s: string) returns (pre: string, post: string)
    ensures AllWhite(pre) && AllWhite(post)
    ensures s == pre + Trim(s) + post
    ensures IsTrimmed(Trim(s))
  {
    pre := TrimStartSplits(s);
    post := TrimEndSplits(TrimStart(s));
    if Trim(s) != "" {
      assert Trim(s)[0] == TrimStart(s)[0];
    }
  }

  /** Nothing is left exactly of white space. */
  lemma TrimmedAway(s: string)
    ensures Trim(s) == "" <==> AllWhite(s)
  {
    var pre, post := TrimSplits(s);
    if Trim(s) != "" {
      assert s[|pre|] == Trim(s)[0];
    }
    if Trim(s) == "" {
      assert s == pre + post;
    }
  }

  /** Text that starts and ends with something else is left alone. */
  lemma TrimKeeps(s: string)
    requires IsTrimmed(s)
    ensures Trim(s) == s
  {
  }

  lemma {:induction false} TrimStartDrops(pre: string, s: string)
    requires AllWhite(pre) && (s == "" || !IsWhite(s[0]))
    ensures TrimStart(pre + s) == s
  {
    if pre == "" {
      assert pre + s == s;
    } else {
      assert (pre + s)[1..] == pre[1..] + s;
      TrimStartDrops(pre[1..], s);
    }
  }

  lemma {:induction false} TrimEndDrops(s: string, post: string)
    requires AllWhite(post) && (s == "" || !IsWhite(s[|s| - 1]))
    ensures TrimEnd(s + post) == s
  {
    if post == "" {
      assert s + post == s;
    } else {
      assert (s + post)[..|s + post| - 1] == s + post[..|post| - 1];
      TrimEndDrops(s, post[..|post| - 1]);
    }
  }

  /** Surrounding white space never reaches what is read. */
  lemma TrimDrops(pre: string, s: string, post: string)
    requires AllWhite(pre) && AllWhite(post) && IsTrimmed(s) && s != ""
    ensures Trim(pre + s + post) == s
  {
    assert pre + s + post == pre + (s + post);
    TrimStartDrops(pre, s + post);
    TrimEndDrops(s, post);
  }

  predicate IsDigit(c: char) {
    '0' <= c <= '9'
  }

  predicate AllDigits(s: string) {
    forall i :: 0 <= i < |s| ==> IsDigit(s[i])
  }

  function DigitValue(c: char): nat
    requires IsDigit(c)
  {
    c as int - '0' as int
  }

  function DigitChar(d: nat): (c: char)
    requires d < 10
    ensures IsDigit(c) && DigitValue(c) == d
  {
    ('0' as int + d) as char
  }

  /** `Number(text)` for a run of decimal digits. */
  function ParseNat(s: string): nat
    requires AllDigits(s)
  {
    if s == "" then 0
    else 10 * ParseNat(s[..|s| - 1]) + DigitValue(s[|s| - 1])
  }

  /** `String(n)` for a whole number that is not negative. */
  function PrintNat(n: nat): (s: string)
    ensures s != "" && AllDigits(s)
  {
    if n < 10 then [DigitChar(n)] else PrintNat(n / 10) + [DigitChar(n % 10)]
  }

  lemma {:induction false} ParsePrintNat(n: nat)
    ensures ParseNat(PrintNat(n)) == n
  {
    if n < 10 {
      assert PrintNat(n)[..0] == "";
    } else {
      var s := PrintNat(n);
      assert s[..|s| - 1] == PrintNat(n / 10);
      ParsePrintNat(n / 10);
    }
  }

  /** `padStart(length, '0')`. */
  function PadStart(s: string, length: nat): (r: string)
    ensures |r| == if |s| < length then length else |s|
    decreases length - |s|
  {
    if |s| < length then PadStart("0" + s, length) else s
  }

  lemma {:induction false} ParseLeadingZero(s: string)
    requires AllDigits(s)
    ensures AllDigits("0" + s) && ParseNat("0" + s) == ParseNat(s)
  {
    var z := "0" + s;
    assert forall i :: 0 < i < |z| ==> z[i] == s[i - 1];
    if s == "" {
      assert z[..0] == "";
    } else {
      assert z[..|z| - 1] == "0" + s[..|s| - 1];
      ParseLeadingZero(s[..|s| - 1]);
    }
  }

  lemma {:induction false} PadStartValue(s: string, length: nat)
    requires AllDigits(s)
    ensures AllDigits(PadStart(s, length)) && ParseNat(PadStart(s, length)) == ParseNat(s)
    decreases length - |s|
  {
    if |s| < length {
      ParseLeadingZero(s);
      PadStartValue("0" + s, length);
    }
  }

  /** A number below ten to the `k` prints in at most `k` digits. */
  lemma {:induction false} PrintNatLength(n: nat, k: nat)
    requires 1 <= k && n < Pow10(k)
    ensures |PrintNat(n)| <= k
  {
    if n >= 10 {
      PrintNatLength(n / 10, k - 1);
    }
  }

  function Pow10(k: nat): (p: nat)
    ensures p >= 1
  {
    if k == 0 then 1 else 10 * Pow10(k - 1)
  }

  /** The longest run of digits `s` begins with. */
  function TakeDigits(s: string): (r: string)
    ensures r <= s && AllDigits(r)
    ensures |r| < |s| ==> !IsDigit(s[|r|])
  {
    if s != "" && IsDigit(s[0]) then [s[0]] + TakeDigits(s[1..]) else ""
  }

  lemma {:induction false} TakeDigitsStops(d: string, rest: string)
    requires AllDigits(d) && (rest == "" || !IsDigit(rest[0]))
    ensures TakeDigits(d + rest) == d && (d + rest)[|d|..] == rest
  {
    if d == "" {
      assert d + rest == rest;
    } else {
      assert (d + rest)[1..] == d[1..] + rest;
      TakeDigitsStops(d[1..], rest);
    }
  }

  /** `Number.parseInt(s, 10)`: leading white space, an optional sign, then
      digits; whatever follows is ignored. `None` is NaN. */
  function ParseInt(s: string): Option<int> {
    var t := TrimStart(s);
    if t != "" && t[0] == '-' then Leading(t[1..], true)
    else if t != "" && t[0] == '+' then Leading(t[1..], false)
    else Leading(t, false)
  }

  function Leading(body: string, negative: bool): Option<int> {
    var digits := TakeDigits(body);
    if digits == "" then None
    else if negative then Some(-(ParseNat(digits) as int))
    else Some(ParseNat(digits))
  }

  lemma ParseIntPrint(n: nat)
    ensures ParseInt(PrintNat(n)) == Some(n)
  {
    var s := PrintNat(n);
    assert IsDigit(s[0]);
    assert TrimStart(s) == s;
    TakeDigitsStops(s, "");
    assert s + "" == s;
    ParsePrintNat(n);
  }

  /** After any white space and at most one sign, the digits are what counts, up to
      the first character that is none; without a digit there is no number. */
  lemma ParseIntReads(pre: string, sign: string, digits: string, rest: string)
    requires AllWhite(pre) && AllDigits(digits) && sign in ["", "-", "+"]
    requires rest == "" || !IsDigit(rest[0])
    requires digits == "" && sign == "" ==> rest == "" || (!IsWhite(rest[0]) && rest[0] != '-' && rest[0] != '+')
    ensures ParseInt(pre + (sign + (digits + rest)))
            == if digits == "" then None
               else Some(if sign == "-" then -(ParseNat(digits) as int) else ParseNat(digits) as int)
  {
    hide ParseNat, Leading, TakeDigits;
    var body := digits + rest;
    assert digits != "" ==> body[0] == digits[0];
    assert sign != "" ==> (sign + body)[0] == sign[0] && (sign + body)[1..] == body;
    assert sign == "" ==> sign + body == body;
    TrimStartDrops(pre, sign + body);
    LeadingReads(digits, rest, sign == "-");
  }

  lemma LeadingReads(digits: string, rest: string, negative: bool)
    requires AllDigits(digits) && (rest == "" || !IsDigit(rest[0]))
    ensures Leading(digits + rest, negative)
            == if digits == "" then None
               else Some(if negative then -(ParseNat(digits) as int) else ParseNat(digits) as int)
  {
    hide ParseNat, TakeDigits, Leading;
    TakeDigitsStops(digits, rest);
    LeadingOf(digits + rest, negative);
  }

  lemma LeadingOf(body: string, negative: bool)
    ensures var digits := TakeDigits(body);
            Leading(body, negative)
            == if digits == "" then None
               else Some(if negative then -(ParseNat(digits) as int) else ParseNat(digits) as int)
  {
  }

  predicate StartsWith(s: string, prefix: string) {
    prefix <= s
  }

  lemma TrimIsIdempotent(s: string)
    ensures Trim(Trim(s)) == Trim(s)
  {
    var pre, post := TrimSplits(s);
    TrimKeeps(Trim(s));
  }

  /** `toLowerCase`, for the letters of ASCII. */
  function LowerChar(c: char): char {
    if 'A' <= c <= 'Z' then (c as int + 32) as char else c
  }

  /** A letter changes only from upper case to its own lower case. */
  lemma LowerCharExactly(c: char)
    ensures 'A' <= c <= 'Z' ==> LowerChar(c) as int - 'a' as int == c as int - 'A' as int
    ensures !('A' <= c <= 'Z') ==> LowerChar(c) == c
  {
  }

  function Lower(s: string): (r: string)
    ensures |r| == |s|
  {
    Map(s, LowerChar)
  }
}
