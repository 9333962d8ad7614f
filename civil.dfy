/** Proleptic Gregorian calendar dates as Python's `datetime.date` and pandas'
    `Timestamp` see them: day numbers (`toordinal`), weekdays, the next day,
    the range of dates a `Timestamp` can hold, and the strict `'%d.%m.%Y'`
    parser and formatter. */
module Civil {
  import opened Prelude

  datatype Date = Date(year: int, month: int, day: int)

  predicate Leap(y: int)
  {
    y % 4 == 0 && (y % 100 != 0 || y % 400 == 0)
  }

  function DaysInMonth(y: int, m: int): (n: int)
    requires 1 <= m <= 12
    ensures 28 <= n <= 31
    ensures m == 2 ==> (n == 29 <==> Leap(y))
  {
    if m == 2 then (if Leap(y) then 29 else 28)
    else if m == 4 || m == 6 || m == 9 || m == 11 then 30
    else 31
  }

  function DaysInYear(y: int): int
  {
    if Leap(y) then 366 else 365
  }

  /** What Python's `date(year, month, day)` accepts. */
  predicate ValidDate(d: Date)
  {
    1 <= d.year <= 9999 && 1 <= d.month <= 12 && 1 <= d.day <= DaysInMonth(d.year, d.month)
  }

  /** Days in the years before `y` (Python's `_days_before_year`). */
  function DaysBeforeYear(y: int): int
    requires y >= 1
  {
    var p := y - 1;
    365 * p + p / 4 - p / 100 + p / 400
  }

  /** Days in the months of year `y` before month `m`. */
  function DaysBeforeMonth(y: int, m: int): (n: int)
    requires 1 <= m <= 12
    ensures 0 <= n <= 31 * (m - 1)
  {
    if m == 1 then 0 else DaysBeforeMonth(y, m - 1) + DaysInMonth(y, m - 1)
  }

  /** `date.toordinal()`: 1 for 0001-01-01, one more for each following day. */
  function Ordinal(d: Date): int
    requires ValidDate(d)
  {
    DaysBeforeYear(d.year) + DaysBeforeMonth(d.year, d.month) + d.day
  }

  /** `date.weekday()`: Monday is 0, Sunday is 6. */
  function Weekday(d: Date): (w: int)
    requires ValidDate(d)
    ensures 0 <= w < 7
  {
    (Ordinal(d) + 6) % 7
  }

  /** A date that exists on the calendar, as every pandas `Timestamp` does. */
  type CivilDate = d: Date | ValidDate(d) witness Date(1970, 1, 1)

  /** Python's `<` on dates: by year, then month, then day. */
  predicate Before(a: Date, b: Date)
  {
    a.year < b.year
    || (a.year == b.year && a.month < b.month)
    || (a.year == b.year && a.month == b.month && a.day < b.day)
  }

  const MaxDate := Date(9999, 12, 31)

  /** `d + timedelta(days=1)`. */
  function NextDay(d: Date): (r: Date)
    requires ValidDate(d) && d != MaxDate
    ensures ValidDate(r) && Before(d, r)
  {
    if d.day < DaysInMonth(d.year, d.month) then Date(d.year, d.month, d.day + 1)
    else if d.month < 12 then Date(d.year, d.month + 1, 1)
    else Date(d.year + 1, 1, 1)
  }

  /** `d - timedelta(days=1)` on the first of a month. */
  function LastOfPreviousMonth(y: int, m: int): (r: Date)
    requires 1 <= m <= 12 && 1 <= y <= 9999 && (m > 1 || y > 1)
    ensures ValidDate(r)
  {
    if m == 1 then Date(y - 1, 12, 31) else Date(y, m - 1, DaysInMonth(y, m - 1))
  }

  lemma YearLength(y: int)
    requires y >= 1
    ensures DaysBeforeYear(y + 1) == DaysBeforeYear(y) + DaysInYear(y)
  {
    var p := y - 1;
    assert y / 4 == p / 4 + (if y % 4 == 0 then 1 else 0);
    assert y / 100 == p / 100 + (if y % 100 == 0 then 1 else 0);
    assert y / 400 == p / 400 + (if y % 400 == 0 then 1 else 0);
  }

  lemma {:induction false} DaysBeforeMonthGrows(y: int, m: int, k: int)
    requires 1 <= m <= k <= 12
    ensures DaysBeforeMonth(y, k) >= DaysBeforeMonth(y, m) + 28 * (k - m)
  {
    if m < k {
      DaysBeforeMonthGrows(y, m, k - 1);
    }
  }

  lemma DecemberStart(y: int)
    ensures DaysBeforeMonth(y, 12) + 31 == DaysInYear(y)
  {
    var f := DaysInMonth(y, 2);
    assert DaysBeforeMonth(y, 3) == 31 + f;
    assert DaysBeforeMonth(y, 4) == 62 + f;
    assert DaysBeforeMonth(y, 5) == 92 + f;
    assert DaysBeforeMonth(y, 6) == 123 + f;
    assert DaysBeforeMonth(y, 7) == 153 + f;
    assert DaysBeforeMonth(y, 8) == 184 + f;
    assert DaysBeforeMonth(y, 9) == 215 + f;
    assert DaysBeforeMonth(y, 10) == 245 + f;
    assert DaysBeforeMonth(y, 11) == 276 + f;
  }

  /** The next day is the next day number. */
  lemma NextDayOrdinal(d: Date)
    requires ValidDate(d) && d != MaxDate
    ensures Ordinal(NextDay(d)) == Ordinal(d) + 1
  {
    if d.day == DaysInMonth(d.year, d.month) && d.month == 12 {
      YearLength(d.year);
      DecemberStart(d.year);
    }
  }

  lemma NextDayWeekday(d: Date)
    requires ValidDate(d) && d != MaxDate
    ensures Weekday(NextDay(d)) == (Weekday(d) + 1) % 7
  {
    NextDayOrdinal(d);
    ModSevenStep(Ordinal(d) + 6);
  }

  lemma ModSevenStep(x: int)
    ensures (x + 1) % 7 == (x % 7 + 1) % 7
  {
  }

  /** Day numbers of a year lie between its first and its last day. */
  lemma OrdinalInYear(d: Date)
    requires ValidDate(d)
    ensures DaysBeforeYear(d.year) < Ordinal(d) <= DaysBeforeYear(d.year) + DaysInYear(d.year)
  {
    DaysBeforeMonthGrows(d.year, d.month, 12);
    DecemberStart(d.year);
    if d.month < 12 {
      assert DaysBeforeMonth(d.year, d.month + 1) == DaysBeforeMonth(d.year, d.month) + DaysInMonth(d.year, d.month);
      DaysBeforeMonthGrows(d.year, d.month + 1, 12);
    }
  }

  lemma {:induction false} DaysBeforeYearGrows(a: int, b: int)
    requires 1 <= a <= b
    ensures DaysBeforeYear(a) + 365 * (b - a) <= DaysBeforeYear(b)
    decreases b - a
  {
    if a < b {
      YearLength(a);
      DaysBeforeYearGrows(a + 1, b);
    }
  }

  /** Earlier dates have smaller day numbers. */
  lemma BeforeOrdinal(a: Date, b: Date)
    requires ValidDate(a) && ValidDate(b) && Before(a, b)
    ensures Ordinal(a) < Ordinal(b)
  {
    if a.year < b.year {
      OrdinalInYear(a);
      OrdinalInYear(b);
      YearLength(a.year);
      DaysBeforeYearGrows(a.year + 1, b.year);
    } else if a.month < b.month {
      DaysBeforeMonthStep(a.year, a.month, b.month);
    }
  }

  lemma {:induction false} DaysBeforeMonthStep(y: int, m: int, k: int)
    requires 1 <= m < k <= 12
    ensures DaysBeforeMonth(y, k) >= DaysBeforeMonth(y, m) + DaysInMonth(y, m)
  {
    if m + 1 < k {
      DaysBeforeMonthStep(y, m, k - 1);
    }
  }

  /** Python's date order and the order of day numbers agree; in particular two
      valid dates with one day number are one date. */
  lemma OrdinalOrder(a: Date, b: Date)
    requires ValidDate(a) && ValidDate(b)
    ensures Before(a, b) <==> Ordinal(a) < Ordinal(b)
    ensures a == b <==> Ordinal(a) == Ordinal(b)
  {
    if Before(a, b) {
      BeforeOrdinal(a, b);
    } else if Before(b, a) {
      BeforeOrdinal(b, a);
    }
  }

  // ---------------------------------------------------------------------------
  // pandas Timestamp range
  // ---------------------------------------------------------------------------

  /** Midnight of the first and the last day a nanosecond `Timestamp` can
      hold: 1677-09-22 and 2262-04-11. */
  const MinStamp := Date(1677, 9, 22)
  const MaxStamp := Date(2262, 4, 11)

  predicate InStampRange(d: Date)
  {
    ValidDate(d) && !Before(d, MinStamp) && !Before(MaxStamp, d)
  }

  // ---------------------------------------------------------------------------
  // '%d.%m.%Y'
  // ---------------------------------------------------------------------------

  function DigitValue(c: char): int
  {
    (c as int) - ('0' as int)
  }

  /** `%d`: `3[01]|[12]\d|0[1-9]|[1-9]| [1-9]`. */
  function DayField(t: string): (r: Option<int>)
    ensures r.Some? ==> 1 <= r.value <= 31
  {
    if |t| == 1 && '1' <= t[0] <= '9' then Some(DigitValue(t[0]))
    else if |t| == 2 && t[0] == ' ' && '1' <= t[1] <= '9' then Some(DigitValue(t[1]))
    else if |t| == 2 && IsDigit(t[0]) && IsDigit(t[1]) && 1 <= DigitValue(t[0]) * 10 + DigitValue(t[1]) <= 31 then
      Some(DigitValue(t[0]) * 10 + DigitValue(t[1]))
    else None
  }

  /** `%m`: `1[0-2]|0[1-9]|[1-9]`. */
  function MonthField(t: string): (r: Option<int>)
    ensures r.Some? ==> 1 <= r.value <= 12
  {
    if |t| == 1 && '1' <= t[0] <= '9' then Some(DigitValue(t[0]))
    else if |t| == 2 && IsDigit(t[0]) && IsDigit(t[1]) && 1 <= DigitValue(t[0]) * 10 + DigitValue(t[1]) <= 12 then
      Some(DigitValue(t[0]) * 10 + DigitValue(t[1]))
    else None
  }

  /** `%Y`: exactly four digits. */
  function YearField(t: string): (r: Option<int>)
    ensures r.Some? ==> 0 <= r.value <= 9999
  {
    if |t| == 4 && AllDigits(t) then Some(DigitsValue(t)) else None
  }

  /** `pd.to_datetime(s, format='%d.%m.%Y', errors='coerce')`: `None` stands for
      NaT. The three fields are separated by the only two dots of the text; the
      date must exist and fit in a `Timestamp`. */
  function ParseDmy(s: string): (r: Option<Date>)
    ensures r.Some? ==> InStampRange(r.value)
  {
    var i := IndexOf(s, '.');
    if i == |s| then None
    else
      var rest := s[i + 1..];
      var j := IndexOf(rest, '.');
      if j == |rest| then None
      else
        var d, m, y := DayField(s[..i]), MonthField(rest[..j]), YearField(rest[j + 1..]);
        if d.None? || m.None? || y.None? then None
        else
          var date := Date(y.value, m.value, d.value);
          if InStampRange(date) then Some(date) else None
  }

  /** Two-digit zero-padded decimal. */
  function Pad2(n: int): (s: string)
    requires 0 <= n < 100
    ensures |s| == 2 && AllDigits(s) && DigitsValue(s) == n
  {
    var s := ['0' + ((n / 10) as char), '0' + ((n % 10) as char)];
    assert DigitsValue(s) == DigitsValue(s[..1]) * 10 + n % 10;
    s
  }

  function Pad4(n: int): (s: string)
    requires 0 <= n < 10000
    ensures |s| == 4 && AllDigits(s) && DigitsValue(s) == n
  {
    var s := Pad2(n / 100) + Pad2(n % 100);
    DigitsValueAppend(Pad2(n / 100), Pad2(n % 100));
    s
  }

  /** `d.strftime('%d.%m.%Y')`. */
  function FormatDmy(d: Date): (s: string)
    requires ValidDate(d)
    ensures |s| == 10
  {
    Pad2(d.day) + "." + Pad2(d.month) + "." + Pad4(d.year)
  }

  /** Every date a `Timestamp` can hold is read back from its own
      `'%d.%m.%Y'` text. */
  lemma ParseFormatDmy(d: Date)
    requires InStampRange(d)
    ensures ParseDmy(FormatDmy(d)) == Some(d)
  {
    var dd, mm, yy := Pad2(d.day), Pad2(d.month), Pad4(d.year);
    var s := FormatDmy(d);
    assert s == dd + "." + (mm + "." + yy);
    assert IndexOf(s, '.') == 2 by {
      assert s[2] == '.' && s[0] == dd[0] && s[1] == dd[1];
    }
    var rest := s[3..];
    assert rest == mm + "." + yy;
    assert IndexOf(rest, '.') == 2 by {
      assert rest[2] == '.' && rest[0] == mm[0] && rest[1] == mm[1];
    }
    assert s[..2] == dd;
    assert rest[..2] == mm;
    assert rest[3..] == yy;
    assert DigitsValue(dd) == DigitValue(dd[0]) * 10 + DigitValue(dd[1]) by {
      assert dd[..1] == [dd[0]];
    }
    assert DigitsValue(mm) == DigitValue(mm[0]) * 10 + DigitValue(mm[1]) by {
      assert mm[..1] == [mm[0]];
    }
  }
}
