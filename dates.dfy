/** Proleptic Gregorian calendar dates as Python's `datetime.date` has them:
    years 1 to 9999, the day ordinal of `date.toordinal()`, the difference
    `(b - a).days`, the comparison `a < b`, and a strict `YYYY-MM-DD`
    reading and rendering of dates. */
module Dates {
  import opened Text
  import opened Wrappers

  datatype Date = Date(year: int, month: int, day: int)

  const MinYear := 1
  const MaxYear := 9999

  predicate IsLeap(y: int) {
    y % 4 == 0 && (y % 100 != 0 || y % 400 == 0)
  }

  function DaysInMonth(y: int, m: int): (n: int)
    requires 1 <= m <= 12
    ensures 28 <= n <= 31
  {
    if m == 2 then (if IsLeap(y) then 29 else 28)
    else if m == 4 || m == 6 || m == 9 || m == 11 then 30
    else 31
  }

  function DaysInYear(y: int): int {
    if IsLeap(y) then 366 else 365
  }

  /** A date `datetime.date` accepts. */
  predicate ValidDate(d: Date) {
    && MinYear <= d.year <= MaxYear
    && 1 <= d.month <= 12
    && 1 <= d.day <= DaysInMonth(d.year, d.month)
  }

  /** Days in the years before `y`, counted from year 1. */
  function DaysBeforeYear(y: int): int {
    var p := y - 1;
    p * 365 + p / 4 - p / 100 + p / 400
  }

  /** Days in the months of year `y` before month `m`. */
  function DaysBeforeMonth(y: int, m: int): int
    requires 1 <= m <= 12
  {
    [0, 31, 59, 90, 120, 151, 181, 212, 243, 273, 304, 334][m - 1]
      + (if m > 2 && IsLeap(y) then 1 else 0)
  }

  /** `date.toordinal()`: 0001-01-01 is day 1. */
  function ToOrdinal(d: Date): int
    requires 1 <= d.month <= 12
  {
    DaysBeforeYear(d.year) + DaysBeforeMonth(d.year, d.month) + d.day
  }

  /** `(b - a).days`. */
  function DaysBetween(a: Date, b: Date): int
    requires ValidDate(a) && ValidDate(b)
  {
    ToOrdinal(b) - ToOrdinal(a)
  }

  /** `a < b` on `datetime.date`: year, then month, then day. */
  predicate Before(a: Date, b: Date) {
    || a.year < b.year
    || (a.year == b.year && a.month < b.month)
    || (a.year == b.year && a.month == b.month && a.day < b.day)
  }

  /** `a <= b` on `datetime.date`. */
  predicate NotAfter(a: Date, b: Date) {
    Before(a, b) || a == b
  }

  /** A year has as many days as the leap rule gives it. */
  lemma DaysBeforeYearStep(y: int)
    ensures DaysBeforeYear(y + 1) == DaysBeforeYear(y) + DaysInYear(y)
  {
    var p := y - 1;
    assert y / 4 == p / 4 + (if y % 4 == 0 then 1 else 0);
    assert y / 100 == p / 100 + (if y % 100 == 0 then 1 else 0);
    assert y / 400 == p / 400 + (if y % 400 == 0 then 1 else 0);
  }

  lemma DaysBeforeYearMonotone(y1: int, y2: int)
    requires y1 < y2
    ensures DaysBeforeYear(y1) + DaysInYear(y1) <= DaysBeforeYear(y2)
    decreases y2 - y1
  {
    DaysBeforeYearStep(y1);
    if y1 + 1 < y2 {
      DaysBeforeYearMonotone(y1 + 1, y2);
    }
  }

  lemma DaysBeforeMonthStep(y: int, m: int)
    requires 1 <= m <= 12
    ensures m < 12 ==> DaysBeforeMonth(y, m + 1) == DaysBeforeMonth(y, m) + DaysInMonth(y, m)
    ensures m == 12 ==> DaysBeforeMonth(y, m) + DaysInMonth(y, m) == DaysInYear(y)
  {
  }

  lemma DaysBeforeMonthMonotone(y: int, m1: int, m2: int)
    requires 1 <= m1 < m2 <= 12
    ensures DaysBeforeMonth(y, m1) + DaysInMonth(y, m1) <= DaysBeforeMonth(y, m2)
    decreases m2 - m1
  {
    DaysBeforeMonthStep(y, m1);
    if m1 + 1 < m2 {
      DaysBeforeMonthMonotone(y, m1 + 1, m2);
    }
  }

  /** Every valid date falls inside its own year's run of ordinals. */
  lemma OrdinalInYear(d: Date)
    requires ValidDate(d)
    ensures DaysBeforeYear(d.year) < ToOrdinal(d) <= DaysBeforeYear(d.year) + DaysInYear(d.year)
  {
    if d.month < 12 {
      DaysBeforeMonthMonotone(d.year, d.month, 12);
    }
    DaysBeforeMonthStep(d.year, 12);
  }

  /** The calendar order and the ordinal order agree, and the ordinal is
      one-to-one on valid dates; so `(b - a).days > 0` exactly when `a < b`. */
  lemma {:induction false} OrdinalOrder(a: Date, b: Date)
    requires ValidDate(a) && ValidDate(b)
    ensures Before(a, b) <==> ToOrdinal(a) < ToOrdinal(b)
    ensures a == b <==> ToOrdinal(a) == ToOrdinal(b)
  {
    OrdinalInYear(a);
    OrdinalInYear(b);
    if a.year < b.year {
      DaysBeforeYearMonotone(a.year, b.year);
    } else if b.year < a.year {
      DaysBeforeYearMonotone(b.year, a.year);
    } else if a.month < b.month {
      DaysBeforeMonthMonotone(a.year, a.month, b.month);
    } else if b.month < a.month {
      DaysBeforeMonthMonotone(a.year, b.month, a.month);
    }
  }

  /** `(b - a).days` compared with 0 is the calendar comparison of `a` and `b`. */
  lemma DaysBetweenSign(a: Date, b: Date)
    requires ValidDate(a) && ValidDate(b)
    ensures DaysBetween(a, b) > 0 <==> Before(a, b)
    ensures DaysBetween(a, b) == 0 <==> a == b
    ensures DaysBetween(a, b) < 0 <==> Before(b, a)
  {
    OrdinalOrder(a, b);
    OrdinalOrder(b, a);
  }

  // ---- Strict YYYY-MM-DD text form ----

  function DigitValue(c: char): int {
    c as int - '0' as int
  }

  function Num2(s: string): int
    requires |s| == 2
  {
    10 * DigitValue(s[0]) + DigitValue(s[1])
  }

  function Num4(s: string): int
    requires |s| == 4
  {
    1000 * DigitValue(s[0]) + 100 * DigitValue(s[1]) + 10 * DigitValue(s[2]) + DigitValue(s[3])
  }

  /** The shape `DDDD-DD-DD`. */
  predicate IsoShape(s: string) {
    && |s| == 10
    && s[4] == '-' && s[7] == '-'
    && All(s[0..4], IsAsciiDigit) && All(s[5..7], IsAsciiDigit) && All(s[8..10], IsAsciiDigit)
  }

  /** `datetime.strptime(s, '%Y-%m-%d').date()` restricted to the strict
      zero-padded form: `None` where Python raises `ValueError`. */
  function ParseIso(s: string): (r: Option<Date>)
    ensures r.Some? ==> ValidDate(r.value)
  {
    if IsoShape(s) then
      var d := Date(Num4(s[0..4]), Num2(s[5..7]), Num2(s[8..10]));
      if ValidDate(d) then Some(d) else None
    else
      None
  }

  function Pad2(n: int): string
    requires 0 <= n < 100
  {
    [DigitChar(n / 10), DigitChar(n % 10)]
  }

  function Pad4(n: int): string
    requires 0 <= n < 10000
  {
    [DigitChar(n / 1000), DigitChar(n / 100 % 10), DigitChar(n / 10 % 10), DigitChar(n % 10)]
  }

  /** `date.isoformat()`. */
  function FormatIso(d: Date): string
    requires ValidDate(d)
  {
    Pad4(d.year) + "-" + Pad2(d.month) + "-" + Pad2(d.day)
  }

  lemma Pad2Digits(n: int)
    requires 0 <= n < 100
    ensures All(Pad2(n), IsAsciiDigit) && Num2(Pad2(n)) == n
  {
  }

  lemma Pad4Digits(n: int)
    requires 0 <= n < 10000
    ensures All(Pad4(n), IsAsciiDigit) && Num4(Pad4(n)) == n
  {
    var q3, q2, q1 := n / 1000, n / 100, n / 10;
    assert q2 / 10 == q3;
    assert q1 / 10 == q2;
    assert q2 % 10 == q2 - 10 * q3;
    assert q1 % 10 == q1 - 10 * q2;
    assert n % 10 == n - 10 * q1;
  }

  lemma Num2Pad(s: string)
    requires |s| == 2 && All(s, IsAsciiDigit)
    ensures 0 <= Num2(s) < 100 && Pad2(Num2(s)) == s
  {
    var n := Num2(s);
    assert n / 10 == DigitValue(s[0]) && n % 10 == DigitValue(s[1]);
  }

  lemma Num4Pad(s: string)
    requires |s| == 4 && All(s, IsAsciiDigit)
    ensures 0 <= Num4(s) < 10000 && Pad4(Num4(s)) == s
  {
    var n := Num4(s);
    var a, b, c, d := DigitValue(s[0]), DigitValue(s[1]), DigitValue(s[2]), DigitValue(s[3]);
    assert n / 1000 == a;
    assert n / 100 == 10 * a + b;
    assert n / 10 == 100 * a + 10 * b + c;
    assert n / 100 % 10 == b;
    assert n / 10 % 10 == c;
    assert n % 10 == d;
  }

  /** Reading back a rendered date gives the date. */
  lemma {:induction false} ParseFormat(d: Date)
    requires ValidDate(d)
    ensures ParseIso(FormatIso(d)) == Some(d)
  {
    var s := FormatIso(d);
    Pad4Digits(d.year);
    Pad2Digits(d.month);
    Pad2Digits(d.day);
    assert s[0..4] == Pad4(d.year);
    assert s[5..7] == Pad2(d.month);
    assert s[8..10] == Pad2(d.day);
  }

  /** A string that reads as a date is exactly that date's rendering. */
  lemma {:induction false} FormatParse(s: string)
    requires ParseIso(s).Some?
    ensures FormatIso(ParseIso(s).value) == s
  {
    Num4Pad(s[0..4]);
    Num2Pad(s[5..7]);
    Num2Pad(s[8..10]);
    assert s == s[0..4] + "-" + s[5..7] + "-" + s[8..10];
  }
}
