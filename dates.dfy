/** Calendar dates as the ingestor handles them: `datetime.date` values parsed
    from `YYYY-MM-DD` text, compared by SQL's `<`, and the `YYYYMMDD` text that
    the public APIs send, rewritten as `YYYY-MM-DD`. */
module Dates {
  import opened Wrappers
  import opened Text

  datatype Date = Date(year: int, month: int, day: int)

  predicate LeapYear(y: int) {
    y % 4 == 0 && (y % 100 != 0 || y % 400 == 0)
  }

  function DaysInMonth(y: int, m: int): int
    requires 1 <= m <= 12
  {
    if m == 2 then (if LeapYear(y) then 29 else 28)
    else if m == 4 || m == 6 || m == 9 || m == 11 then 30
    else 31
  }

  /** The dates `datetime.date` can represent (years 1 to 9999). */
  predicate ValidDate(d: Date) {
    1 <= d.year <= 9999 && 1 <= d.month <= 12 && 1 <= d.day <= DaysInMonth(d.year, d.month)
  }

  /** `a < b` on dates (SQL's comparison of two DATE values). */
  predicate Before(a: Date, b: Date) {
    a.year < b.year || (a.year == b.year && (a.month < b.month || (a.month == b.month && a.day < b.day)))
  }

  /** `Before` is a strict total order: exactly one of a < b, a == b, b < a. */
  lemma BeforeTrichotomy(a: Date, b: Date)
    ensures Before(a, b) || a == b || Before(b, a)
    ensures !(Before(a, b) && Before(b, a))
    ensures !Before(a, a)
  {
  }

  predicate AllDigits(s: string) {
    forall i :: 0 <= i < |s| ==> IsDigit(s[i])
  }

  function Num2(s: string): nat
    requires |s| == 2 && AllDigits(s)
  {
    DigitValue(s[0]) * 10 + DigitValue(s[1])
  }

  function Num4(s: string): nat
    requires |s| == 4 && AllDigits(s)
  {
    DigitValue(s[0]) * 1000 + DigitValue(s[1]) * 100 + DigitValue(s[2]) * 10 + DigitValue(s[3])
  }

  function Pad2(n: nat): (r: string)
    requires n < 100
    ensures |r| == 2 && AllDigits(r)
  {
    [DigitChar(n / 10), DigitChar(n % 10)]
  }

  function Pad4(n: nat): (r: string)
    requires n < 10000
    ensures |r| == 4 && AllDigits(r)
  {
    [DigitChar(n / 1000), DigitChar(n / 100 % 10), DigitChar(n / 10 % 10), DigitChar(n % 10)]
  }

  /** `date.isoformat()`. */
  function FormatIso(d: Date): (r: string)
    requires ValidDate(d)
    ensures |r| == 10 && r[4] == '-' && r[7] == '-'
  {
    Pad4(d.year) + "-" + Pad2(d.month) + "-" + Pad2(d.day)
  }

  /** `datetime.date.fromisoformat(s)` for the `YYYY-MM-DD` form: `None` where
      Python raises `ValueError` (wrong shape, or no such calendar day). */
  function ParseIsoDate(s: string): (r: Option<Date>)
    ensures r.Some? ==> ValidDate(r.value) && |s| == 10 && s[4] == '-' && s[7] == '-'
  {
    if |s| == 10 && s[4] == '-' && s[7] == '-'
       && AllDigits(s[..4]) && AllDigits(s[5..7]) && AllDigits(s[8..]) then
      var d := Date(Num4(s[..4]), Num2(s[5..7]), Num2(s[8..]));
      if ValidDate(d) then Some(d) else None
    else None
  }

  lemma DigitRoundTrip(c: char)
    requires IsDigit(c)
    ensures DigitChar(DigitValue(c)) == c
  {
  }

  lemma Pad2Num2(s: string)
    requires |s| == 2 && AllDigits(s)
    ensures Num2(s) < 100 && Pad2(Num2(s)) == s
  {
    var n := Num2(s);
    DigitRoundTrip(s[0]);
    DigitRoundTrip(s[1]);
    assert n / 10 == DigitValue(s[0]);
    assert n % 10 == DigitValue(s[1]);
  }

  lemma Pad4Num4(s: string)
    requires |s| == 4 && AllDigits(s)
    ensures Num4(s) < 10000 && Pad4(Num4(s)) == s
  {
    var a, b, c, d := DigitValue(s[0]), DigitValue(s[1]), DigitValue(s[2]), DigitValue(s[3]);
    var n := Num4(s);
    DigitRoundTrip(s[0]);
    DigitRoundTrip(s[1]);
    DigitRoundTrip(s[2]);
    DigitRoundTrip(s[3]);
    assert n == a * 1000 + (b * 100 + c * 10 + d);
    assert n / 1000 == a;
    assert n / 100 == a * 10 + b;
    assert n / 100 % 10 == b;
    assert n / 10 == a * 100 + b * 10 + c;
    assert n / 10 % 10 == c;
    assert n % 10 == d;
  }

  /** Whatever `fromisoformat` accepts is exactly what `isoformat` prints. */
  lemma {:induction false} FormatParseIso(s: string)
    requires ParseIsoDate(s).Some?
    ensures FormatIso(ParseIsoDate(s).value) == s
  {
    Pad4Num4(s[..4]);
    Pad2Num2(s[5..7]);
    Pad2Num2(s[8..]);
    assert s == s[..4] + "-" + s[5..7] + "-" + s[8..];
  }

  lemma Num2Pad2(n: nat)
    requires n < 100
    ensures Num2(Pad2(n)) == n
  {
    assert DigitValue(DigitChar(n / 10)) == n / 10;
    assert DigitValue(DigitChar(n % 10)) == n % 10;
  }

  /** The four decimal digits of a number below 10000 make it up again. */
  lemma Digits4(n: nat)
    requires n < 10000
    ensures n == (n / 1000) * 1000 + (n / 100 % 10) * 100 + (n / 10 % 10) * 10 + n % 10
  {
    var q := n / 10;
    var p := q / 10;
    assert n == q * 10 + n % 10;
    assert q == p * 10 + q % 10;
    assert p == (p / 10) * 10 + p % 10;
    assert n / 100 == p && n / 1000 == p / 10;
  }

  lemma Num4Pad4(n: nat)
    requires n < 10000
    ensures Num4(Pad4(n)) == n
  {
    var a, b, c, d := n / 1000, n / 100 % 10, n / 10 % 10, n % 10;
    var s := Pad4(n);
    assert DigitValue(s[0]) == a && DigitValue(s[1]) == b;
    assert DigitValue(s[2]) == c && DigitValue(s[3]) == d;
    Digits4(n);
  }

  /** `isoformat` prints only digits and dashes. */
  lemma FormatIsoChars(d: Date)
    requires ValidDate(d)
    ensures forall i :: 0 <= i < |FormatIso(d)| ==> IsDigit(FormatIso(d)[i]) || FormatIso(d)[i] == '-'
  {
    var iso := FormatIso(d);
    assert iso == Pad4(d.year) + "-" + Pad2(d.month) + "-" + Pad2(d.day);
  }

  /** What `isoformat` prints, `fromisoformat` reads back as the same date. */
  lemma {:induction false} ParseFormatIso(d: Date)
    requires ValidDate(d)
    ensures ParseIsoDate(FormatIso(d)) == Some(d)
  {
    var s := FormatIso(d);
    assert s[..4] == Pad4(d.year) && s[5..7] == Pad2(d.month) && s[8..] == Pad2(d.day);
    Num4Pad4(d.year);
    Num2Pad2(d.month);
    Num2Pad2(d.day);
  }

  /** `_format_date`: an 8-character `YYYYMMDD` text becomes `YYYY-MM-DD`;
      a missing, empty or differently sized text gives `None`. */
  function FormatCompactDate(ymd: Option<string>): (r: Option<string>)
    ensures r.Some? <==> ymd.Some? && |ymd.value| == 8
    ensures r.Some? ==> |r.value| == 10 && r.value[4] == '-' && r.value[7] == '-'
    ensures r.Some? ==> r.value[..4] + r.value[5..7] + r.value[8..] == ymd.value
  {
    if Truthy(ymd) && |ymd.value| == 8 then
      var s := ymd.value;
      var t := s[..4] + "-" + s[4..6] + "-" + s[6..];
      assert t[..4] == s[..4] && t[5..7] == s[4..6] && t[8..] == s[6..];
      assert s == s[..4] + s[4..6] + s[6..];
      Some(t)
    else None
  }
}
