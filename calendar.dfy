/**
 * Proleptic Gregorian calendar dates, day numbers counted from 1970-01-01 (the
 * representation pandas uses for timestamps), instants within a day, and the
 * strftime/strptime formats the pipeline uses: %Y-%m-%d, %Y%m%d and %Y%m%d_%H%M%S.
 */
module Calendar {
  import opened Wrappers

  datatype Date = Date(year: int, month: int, day: int)

  predicate IsLeapYear(y: int)
  {
    y % 4 == 0 && (y % 100 != 0 || y % 400 == 0)
  }

  function DaysInMonth(y: int, m: int): (n: int)
    ensures 28 <= n <= 31
  {
    if m == 2 then (if IsLeapYear(y) then 29 else 28)
    else if m == 4 || m == 6 || m == 9 || m == 11 then 30
    else 31
  }

  /** A date that exists on the calendar. */
  predicate Valid(d: Date)
  {
    1 <= d.month <= 12 && 1 <= d.day <= DaysInMonth(d.year, d.month)
  }

  /** The following calendar day. */
  function Next(d: Date): (r: Date)
    requires Valid(d)
    ensures Valid(r)
  {
    if d.day < DaysInMonth(d.year, d.month) then Date(d.year, d.month, d.day + 1)
    else if d.month < 12 then Date(d.year, d.month + 1, 1)
    else Date(d.year + 1, 1, 1)
  }

  /** The preceding calendar day: Next undoes it. */
  function Prev(d: Date): (r: Date)
    requires Valid(d)
    ensures Valid(r) && Next(r) == d
  {
    if d.day > 1 then Date(d.year, d.month, d.day - 1)
    else if d.month > 1 then Date(d.year, d.month - 1, DaysInMonth(d.year, d.month - 1))
    else Date(d.year - 1, 12, 31)
  }

  const Epoch := Date(1970, 1, 1)

  function YearLength(y: int): int
  {
    if IsLeapYear(y) then 366 else 365
  }

  /** Days from 1970-01-01 to January 1st of year `y` (negative before 1970). */
  function DaysBeforeYear(y: int): int
    decreases if y >= 1970 then y - 1970 else 1970 - y
  {
    if y == 1970 then 0
    else if y > 1970 then DaysBeforeYear(y - 1) + YearLength(y - 1)
    else DaysBeforeYear(y + 1) - YearLength(y)
  }

  /** Days from January 1st to the first day of month `m` of year `y`. */
  function DaysBeforeMonth(y: int, m: int): int
    requires 1 <= m <= 12
  {
    if m == 1 then 0 else DaysBeforeMonth(y, m - 1) + DaysInMonth(y, m - 1)
  }

  /** The day number of a date: days elapsed since 1970-01-01. */
  function DateToDay(d: Date): int
    requires Valid(d)
  {
    DaysBeforeYear(d.year) + DaysBeforeMonth(d.year, d.month) + d.day - 1
  }

  lemma MonthsFillYear(y: int)
    ensures DaysBeforeMonth(y, 12) + 31 == YearLength(y)
  {
    var leap := if IsLeapYear(y) then 1 else 0;
    assert DaysBeforeMonth(y, 2) == 31;
    assert DaysBeforeMonth(y, 3) == 59 + leap;
    assert DaysBeforeMonth(y, 4) == 90 + leap;
    assert DaysBeforeMonth(y, 5) == 120 + leap;
    assert DaysBeforeMonth(y, 6) == 151 + leap;
    assert DaysBeforeMonth(y, 7) == 181 + leap;
    assert DaysBeforeMonth(y, 8) == 212 + leap;
    assert DaysBeforeMonth(y, 9) == 243 + leap;
    assert DaysBeforeMonth(y, 10) == 273 + leap;
    assert DaysBeforeMonth(y, 11) == 304 + leap;
    assert DaysBeforeMonth(y, 12) == 334 + leap;
  }

  /** Next moves the day number forward by exactly one. */
  lemma NextIsOneDayLater(d: Date)
    requires Valid(d)
    ensures DateToDay(Next(d)) == DateToDay(d) + 1
  {
    if d.day == DaysInMonth(d.year, d.month) && d.month == 12 {
      MonthsFillYear(d.year);
      assert DaysBeforeYear(d.year + 1) == DaysBeforeYear(d.year) + YearLength(d.year);
    }
  }

  /** The date of a day number. */
  function DayToDate(n: int): (d: Date)
    ensures Valid(d)
    decreases if n >= 0 then n else -n
  {
    if n == 0 then Epoch
    else if n > 0 then Next(DayToDate(n - 1))
    else Prev(DayToDate(n + 1))
  }

  /** DateToDay undoes DayToDate: every day number names its own date. */
  lemma {:induction false} DayToDateInverse(n: int)
    ensures DateToDay(DayToDate(n)) == n
    decreases if n >= 0 then n else -n
  {
    if n > 0 {
      var before := DayToDate(n - 1);
      assert DayToDate(n) == Next(before);
      DayToDateInverse(n - 1);
      NextIsOneDayLater(before);
    } else if n < 0 {
      var after := DayToDate(n + 1);
      var d := Prev(after);
      assert DayToDate(n) == d;
      DayToDateInverse(n + 1);
      NextIsOneDayLater(d);
    }
  }

  /** Distinct day numbers are distinct dates. */
  lemma DayToDateInjective(n: int, m: int)
    requires n != m
    ensures DayToDate(n) != DayToDate(m)
  {
    DayToDateInverse(n);
    DayToDateInverse(m);
  }

  /** Consecutive day numbers are consecutive calendar days. */
  lemma DayToDateSuccessor(n: int)
    ensures DayToDate(n + 1) == Next(DayToDate(n))
  {
    if n + 1 < 0 {
      assert DayToDate(n) == Prev(DayToDate(n + 1));
    }
  }

  // ---- decimal digits ----

  predicate IsDigit(c: char)
  {
    '0' <= c <= '9'
  }

  function DigitChar(n: int): (c: char)
    requires 0 <= n <= 9
    ensures IsDigit(c)
  {
    ('0' as int + n) as char
  }

  /** `n` in decimal, zero-padded on the left to at least `width` digits. */
  function Digits(n: nat, width: nat): (s: string)
    ensures |s| >= 1 && |s| >= width
    ensures forall i :: 0 <= i < |s| ==> IsDigit(s[i])
    decreases n + width
  {
    if n < 10 && width <= 1 then [DigitChar(n)]
    else Digits(n / 10, if width == 0 then 0 else width - 1) + [DigitChar(n % 10)]
  }

  /** The number a string of digits denotes; any other character counts as 0. */
  function DigitsValue(s: string): nat
  {
    if s == [] then 0
    else
      var last := s[|s| - 1];
      DigitsValue(s[..|s| - 1]) * 10 + (if IsDigit(last) then last as int - '0' as int else 0)
  }

  /** Reading the digits back gives the number. */
  lemma {:induction false} DigitsValueOfDigits(n: nat, width: nat)
    ensures DigitsValue(Digits(n, width)) == n
    decreases n + width
  {
    var s := Digits(n, width);
    if !(n < 10 && width <= 1) {
      var w := if width == 0 then 0 else width - 1;
      DigitsValueOfDigits(n / 10, w);
      assert s[..|s| - 1] == Digits(n / 10, w);
    }
  }

  lemma TwoDigits(n: nat)
    requires n < 100
    ensures Digits(n, 2) == [DigitChar(n / 10), DigitChar(n % 10)]
  {
  }

  lemma FourDigits(n: nat)
    requires n < 10000
    ensures |Digits(n, 4)| == 4
  {
    assert Digits(n, 4) == Digits(n / 10, 3) + [DigitChar(n % 10)];
    assert Digits(n / 10, 3) == Digits(n / 100, 2) + [DigitChar((n / 10) % 10)];
    TwoDigits(n / 100);
  }

  /** strftime's %Y: the year with at least four digits. */
  function YearDigits(y: int): string
  {
    if y >= 0 then Digits(y, 4) else "-" + Digits(-y, 4)
  }

  /** strftime("%Y-%m-%d") */
  function FormatIsoDate(d: Date): (s: string)
    requires Valid(d)
  {
    YearDigits(d.year) + "-" + Digits(d.month, 2) + "-" + Digits(d.day, 2)
  }

  /** strftime("%Y%m%d") */
  function FormatCompactDate(d: Date): (s: string)
    requires Valid(d)
  {
    YearDigits(d.year) + Digits(d.month, 2) + Digits(d.day, 2)
  }

  /** A date of a four-digit year is written as ten characters `YYYY-MM-DD`. */
  lemma IsoDateShape(d: Date)
    requires Valid(d) && 0 <= d.year <= 9999
    ensures var s := FormatIsoDate(d);
      |s| == 10 && s[4] == '-' && s[7] == '-'
      && forall i :: 0 <= i < 10 && i != 4 && i != 7 ==> IsDigit(s[i])
  {
    FourDigits(d.year);
    TwoDigits(d.month);
    TwoDigits(d.day);
  }

  /** A date of a four-digit year is written as eight digits `YYYYMMDD`. */
  lemma CompactDateShape(d: Date)
    requires Valid(d) && 0 <= d.year <= 9999
    ensures var s := FormatCompactDate(d);
      |s| == 8 && forall i :: 0 <= i < 8 ==> IsDigit(s[i])
  {
    FourDigits(d.year);
    TwoDigits(d.month);
    TwoDigits(d.day);
  }

  // ---- strptime("%Y-%m-%d") ----

  /** The %Y field: exactly four digits. */
  predicate YearField(f: string)
  {
    |f| == 4 && forall i :: 0 <= i < 4 ==> IsDigit(f[i])
  }

  /** The %m field: `1[0-2]`, `0[1-9]` or `[1-9]`. */
  predicate MonthField(f: string)
  {
    (|f| == 1 && '1' <= f[0] <= '9')
    || (|f| == 2 && ((f[0] == '1' && '0' <= f[1] <= '2') || (f[0] == '0' && '1' <= f[1] <= '9')))
  }

  /** The %d field: `3[01]`, `[12][0-9]`, `0[1-9]`, `[1-9]` or a space and `[1-9]`. */
  predicate DayField(f: string)
  {
    (|f| == 1 && '1' <= f[0] <= '9')
    || (|f| == 2 && ((f[0] == '3' && '0' <= f[1] <= '1')
                     || ('1' <= f[0] <= '2' && IsDigit(f[1]))
                     || ((f[0] == '0' || f[0] == ' ') && '1' <= f[1] <= '9')))
  }

  /**
   * `datetime.strptime(s, '%Y-%m-%d')`: the whole string must match the three fields,
   * and the result must be a real date of a year from 1 on; otherwise ValueError (None).
   */
  function ParseIsoDate(s: string): (r: Option<Date>)
    ensures r.Some? ==> Valid(r.value) && 1 <= r.value.year <= 9999
    ensures r.Some? ==> 8 <= |s| <= 10 && YearField(s[..4]) && s[4] == '-'
  {
    if |s| < 5 || !YearField(s[..4]) || s[4] != '-' then None
    else
      var rest := s[5..];
      var monthLength := if |rest| >= 2 && rest[1] == '-' then 1 else 2;
      if |rest| < monthLength + 1 || rest[monthLength] != '-'
         || !MonthField(rest[..monthLength]) || !DayField(rest[monthLength + 1..])
      then None
      else
        var d := Date(DigitsValue(s[..4]), DigitsValue(rest[..monthLength]), DigitsValue(rest[monthLength + 1..]));
        DigitsValueBelow(s[..4]);
        if d.year == 0 || !Valid(d) then None else Some(d)
  }

  function Pow10(k: nat): nat
  {
    if k == 0 then 1 else 10 * Pow10(k - 1)
  }

  /** A string of `k` digits denotes a number below 10^k. */
  lemma {:induction false} DigitsValueBelow(s: string)
    requires forall i :: 0 <= i < |s| ==> IsDigit(s[i])
    ensures DigitsValue(s) < Pow10(|s|)
  {
    if s != [] {
      DigitsValueBelow(s[..|s| - 1]);
    }
  }

  /** Parsing a formatted date gives the date back. */
  lemma ParseFormatIsoDate(d: Date)
    requires Valid(d) && 1 <= d.year <= 9999
    ensures ParseIsoDate(FormatIsoDate(d)) == Some(d)
  {
    var y, m, dd := Digits(d.year, 4), Digits(d.month, 2), Digits(d.day, 2);
    FourDigits(d.year);
    MonthDigits(d.month);
    DayDigits(d.day);
    ParseThreeFields(y, m, dd);
    DigitsValueOfDigits(d.year, 4);
    DigitsValueOfDigits(d.month, 2);
    DigitsValueOfDigits(d.day, 2);
  }

  /** `YYYY-MM-DD` parses field by field. */
  lemma ParseThreeFields(y: string, m: string, dd: string)
    requires YearField(y) && |m| == 2 && MonthField(m) && |dd| == 2 && DayField(dd)
    ensures var d := Date(DigitsValue(y), DigitsValue(m), DigitsValue(dd));
      ParseIsoDate(y + "-" + m + "-" + dd) == if d.year == 0 || !Valid(d) then None else Some(d)
  {
    var s := y + "-" + m + "-" + dd;
    assert |s| == 10 && s[..4] == y && s[4] == '-';
    var rest := s[5..];
    assert rest == m + "-" + dd;
    assert rest[1] == m[1] && rest[1] != '-';
    assert rest[2] == '-' && rest[..2] == m && rest[3..] == dd;
  }

  lemma MonthDigits(month: int)
    requires 1 <= month <= 12
    ensures |Digits(month, 2)| == 2 && MonthField(Digits(month, 2))
  {
    TwoDigits(month);
  }

  lemma DayDigits(day: int)
    requires 1 <= day <= 31
    ensures |Digits(day, 2)| == 2 && DayField(Digits(day, 2))
  {
    TwoDigits(day);
  }

  // ---- instants ----

  type SecondOfDay = s: int | 0 <= s < 86400

  /** A point in time: a day number and the second within that day. */
  datatype Instant = Instant(day: int, second: SecondOfDay)

  /** strftime("%Y%m%d_%H%M%S") */
  function FormatTimestamp(t: Instant): string
  {
    FormatCompactDate(DayToDate(t.day)) + "_"
    + Digits(t.second / 3600, 2) + Digits(t.second / 60 % 60, 2) + Digits(t.second % 60, 2)
  }

  /** A timestamp string begins with the `%Y%m%d` of its own day. */
  lemma TimestampStartsWithDay(t: Instant)
    ensures var day := FormatCompactDate(DayToDate(t.day));
      |day| <= |FormatTimestamp(t)| && FormatTimestamp(t)[..|day|] == day
  {
  }
}
