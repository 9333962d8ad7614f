/** Workday capacity: the Monday-to-Friday dates of a month or a year, clamped
    to today and to an employment window, less the holidays. */
module DateUtils {
  import opened Prelude
  import opened Civil

  // ---------------------------------------------------------------------------
  // Counting workdays
  // ---------------------------------------------------------------------------

  /** One step of a day range: a day strictly before the end has a next day,
      one day number further, still not after the end. */
  lemma StepBefore(a: CivilDate, b: CivilDate)
    requires !Before(b, a) && a != b
    ensures a != MaxDate
    ensures Ordinal(a) < Ordinal(b)
    ensures Ordinal(NextDay(a)) == Ordinal(a) + 1
    ensures !Before(b, NextDay(a))
  {
    assert Before(a, b);
    OrdinalOrder(a, b);
    NextDayOrdinal(a);
    OrdinalOrder(b, NextDay(a));
  }

  /** Whether `d` is counted: a Monday to Friday that is not a holiday. */
  predicate Workday(d: CivilDate, hol: set<Date>)
  {
    Weekday(d) < 5 && d !in hol
  }

  /** `len([d for d in pd.date_range(a, b) if d.weekday() < 5 and d not in hol])`:
      the dates from `a` to `b` inclusive that are workdays. */
  function Workdays(a: CivilDate, b: CivilDate, hol: set<Date>): nat
    decreases Ordinal(b) - Ordinal(a)
  {
    if Before(b, a) then 0
    else
      var here := if Workday(a, hol) then 1 else 0;
      if a == b then here
      else
        StepBefore(a, b);
        here + Workdays(NextDay(a), b, hol)
  }

  /** A date between `a` and `b`, both included. */
  predicate InRange(d: Date, a: CivilDate, b: CivilDate)
  {
    ValidDate(d) && !Before(d, a) && !Before(b, d)
  }

  /** Each new holiday removes exactly one day, and only when it falls on a
      counted weekday of the range. */
  lemma {:induction false} WorkdaysHoliday(a: CivilDate, b: CivilDate, hol: set<Date>, h: Date)
    ensures Workdays(a, b, hol + {h}) ==
      Workdays(a, b, hol) - (if InRange(h, a, b) && h !in hol && Weekday(h) < 5 then 1 else 0)
    decreases Ordinal(b) - Ordinal(a)
  {
    if !Before(b, a) && a != b {
      StepBefore(a, b);
      var n: CivilDate := NextDay(a);
      WorkdaysHoliday(n, b, hol, h);
      if InRange(h, a, b) {
        if h != a {
          OrdinalOrder(a, h);
          OrdinalOrder(h, n);
          assert InRange(h, n, b);
        }
      } else if ValidDate(h) && !Before(b, h) {
        assert Before(h, a);
        OrdinalOrder(h, a);
        OrdinalOrder(h, n);
      }
    }
  }

  /** The range holds at most as many workdays as it holds days. */
  lemma {:induction false} WorkdaysAtMostDays(a: CivilDate, b: CivilDate, hol: set<Date>)
    ensures Workdays(a, b, hol) <= if Before(b, a) then 0 else Ordinal(b) - Ordinal(a) + 1
    decreases Ordinal(b) - Ordinal(a)
  {
    if !Before(b, a) && a != b {
      StepBefore(a, b);
      WorkdaysAtMostDays(NextDay(a), b, hol);
    } else if !Before(b, a) {
      OrdinalOrder(a, b);
    }
  }

  /** A narrower range never holds more workdays. */
  lemma {:induction false} WorkdaysNarrower(a: CivilDate, b: CivilDate, a2: CivilDate, b2: CivilDate, hol: set<Date>)
    requires !Before(a2, a) && !Before(b, b2)
    ensures Workdays(a2, b2, hol) <= Workdays(a, b, hol)
    decreases Ordinal(b) - Ordinal(a)
  {
    if Before(b2, a2) {
    } else if a == a2 {
      WorkdaysEndNarrower(a, b, b2, hol);
    } else {
      OrdinalOrder(a, a2);
      OrdinalOrder(a2, b2);
      OrdinalOrder(b2, b);
      StepBefore(a, b);
      var n: CivilDate := NextDay(a);
      OrdinalOrder(a2, n);
      WorkdaysNarrower(n, b, a2, b2, hol);
    }
  }

  /** Moving the end back never adds workdays. */
  lemma {:induction false} WorkdaysEndNarrower(a: CivilDate, b: CivilDate, b2: CivilDate, hol: set<Date>)
    requires !Before(b, b2)
    ensures Workdays(a, b2, hol) <= Workdays(a, b, hol)
    decreases Ordinal(b) - Ordinal(a)
  {
    if !Before(b2, a) && a != b2 {
      StepBefore(a, b2);
      OrdinalOrder(b2, b);
      assert a != b;
      StepBefore(a, b);
      WorkdaysEndNarrower(NextDay(a), b, b2, hol);
    } else if !Before(b2, a) {
      assert a == b2;
      if a != b {
        StepBefore(a, b);
      }
    }
  }

  // ---------------------------------------------------------------------------
  // The period of a month or a year
  // ---------------------------------------------------------------------------

  /** The first and the last day of the month (`month` non-zero) or of the
      year (`month` 0, Python's None), or `None` where `date(...)` raises:
      outside years 1 to 9999, outside months 1 to 12, and for December 9999,
      whose end is computed from 1 January 10000. */
  function Period(year: int, month: int): (p: Option<(CivilDate, CivilDate)>)
    ensures p.Some? <==> 1 <= year <= 9999 && (month == 0 || (1 <= month <= 12 && !(month == 12 && year == 9999)))
    ensures p.Some? && month != 0 ==> p.value == (Date(year, month, 1), Date(year, month, DaysInMonth(year, month)))
    ensures p.Some? && month == 0 ==> p.value == (Date(year, 1, 1), Date(year, 12, 31))
  {
    if month != 0 then
      if !(1 <= year <= 9999 && 1 <= month <= 12) then None
      else if month == 12 && year + 1 > 9999 then None
      else
        var first: CivilDate := Date(year, month, 1);
        var last: CivilDate := if month == 12 then LastOfPreviousMonth(year + 1, 1) else LastOfPreviousMonth(year, month + 1);
        Some((first, last))
    else if 1 <= year <= 9999 then
      var first: CivilDate := Date(year, 1, 1);
      var last: CivilDate := Date(year, 12, 31);
      Some((first, last))
    else None
  }

  // ---------------------------------------------------------------------------
  // Holidays
  // ---------------------------------------------------------------------------

  /** An element of the holiday collection: a `Timestamp` or `datetime`, a
      `date`, a text, or anything else. */
  datatype Holiday = AtStamp(d: CivilDate) | OnDate(d: CivilDate) | AsText(s: string) | Other

  /** What `get_weekday_count` adds to its holiday set for one element:
      the date of a timestamp, a date itself, a text the day-first parser
      reads (text it cannot read is skipped); anything else is added as it is
      and never equals a workday. */
  function CountedHoliday(h: Holiday, dayFirst: string -> Option<CivilDate>): Option<Date>
  {
    match h
    case AtStamp(d) => Some(d)
    case OnDate(d) => Some(d)
    case AsText(s) => if dayFirst(s).Some? then Some(dayFirst(s).value) else None
    case Other => None
  }

  /** The holiday set `get_weekday_count` builds. */
  function HolidaySet(hs: seq<Holiday>, dayFirst: string -> Option<CivilDate>): set<Date>
  {
    if hs == [] then {}
    else
      var h := CountedHoliday(hs[|hs| - 1], dayFirst);
      HolidaySet(hs[..|hs| - 1], dayFirst) + (if h.Some? then {h.value} else {})
  }

  /** The holiday set holds exactly the dates of its elements. */
  lemma {:induction false} HolidaySetMembers(hs: seq<Holiday>, dayFirst: string -> Option<CivilDate>, d: Date)
    ensures d in HolidaySet(hs, dayFirst) <==> exists i :: 0 <= i < |hs| && CountedHoliday(hs[i], dayFirst) == Some(d)
  {
    if hs != [] {
      var n := |hs| - 1;
      HolidaySetMembers(hs[..n], dayFirst, d);
      if exists i :: 0 <= i < |hs| && CountedHoliday(hs[i], dayFirst) == Some(d) {
        var i :| 0 <= i < |hs| && CountedHoliday(hs[i], dayFirst) == Some(d);
        if i < n {
          assert hs[..n][i] == hs[i];
        }
      }
    }
  }

  /** The loop that fills `holiday_dates`. */
  method CollectHolidays(hs: seq<Holiday>, dayFirst: string -> Option<CivilDate>) returns (dates: set<Date>)
    ensures dates == HolidaySet(hs, dayFirst)
  {
    dates := {};
    var i := 0;
    while i < |hs|
      invariant 0 <= i <= |hs|
      invariant dates == HolidaySet(hs[..i], dayFirst)
    {
      var h := CountedHoliday(hs[i], dayFirst);
      if h.Some? {
        dates := dates + {h.value};
      }
      assert hs[..i + 1][..i] == hs[..i];
      i := i + 1;
    }
    assert hs[..|hs|] == hs;
  }

  /** What `calculate_effective_workdays` keeps of one element: timestamps,
      datetimes and dates; text and anything else are ignored. */
  function EffectiveHoliday(h: Holiday): Option<Date>
  {
    match h
    case AtStamp(d) => Some(d)
    case OnDate(d) => Some(d)
    case AsText(_) => None
    case Other => None
  }

  /** The holiday list `calculate_effective_workdays` builds, in order. */
  function HolidayList(hs: seq<Holiday>): seq<Date>
  {
    FilterMap(hs, EffectiveHoliday)
  }

  /** The loop that fills `holiday_list`. */
  method CollectHolidayList(hs: seq<Holiday>) returns (list: seq<Date>)
    ensures list == HolidayList(hs)
  {
    list := [];
    var i := 0;
    while i < |hs|
      invariant 0 <= i <= |hs|
      invariant list == HolidayList(hs[..i])
    {
      var h := EffectiveHoliday(hs[i]);
      if h.Some? {
        list := list + [h.value];
      }
      assert hs[..i + 1][..i] == hs[..i];
      i := i + 1;
    }
    assert hs[..|hs|] == hs;
  }

  /** Text holidays count for `get_weekday_count` but not for
      `calculate_effective_workdays`: the list is the set without them. */
  lemma {:induction false} HolidayListInSet(hs: seq<Holiday>, dayFirst: string -> Option<CivilDate>)
    ensures Elems(HolidayList(hs)) <= HolidaySet(hs, dayFirst)
    ensures (forall i :: 0 <= i < |hs| ==> !hs[i].AsText?) ==> Elems(HolidayList(hs)) == HolidaySet(hs, dayFirst)
  {
    if hs != [] {
      var n := |hs| - 1;
      HolidayListInSet(hs[..n], dayFirst);
      assert HolidayList(hs) == HolidayList(hs[..n]) + (if EffectiveHoliday(hs[n]).Some? then [EffectiveHoliday(hs[n]).value] else []);
      assert (forall i :: 0 <= i < |hs| ==> !hs[i].AsText?) ==> forall i :: 0 <= i < n ==> !hs[..n][i].AsText?;
    }
  }

  // ---------------------------------------------------------------------------
  // `get_weekday_count`
  // ---------------------------------------------------------------------------

  /** The value returned when `date(...)` or `pd.date_range` raises. */
  function Fallback(month: int): nat
  {
    if month != 0 then 22 else 260
  }

  /** What `get_weekday_count(year, month, until_today, holidays)` returns,
      given the holiday set and today's date. */
  function WeekdayCount(year: int, month: int, untilToday: bool, hol: set<Date>, today: CivilDate): nat
  {
    match Period(year, month)
    case None => Fallback(month)
    case Some((start, last)) =>
      var end: CivilDate := if untilToday && Before(today, last) then today else last;
      if Before(end, start) then 0
      else if !InStampRange(start) || !InStampRange(end) then Fallback(month)
      else Workdays(start, end, hol)
  }

  /** `get_weekday_count(year, month, until_today, holidays)` with `today` as a
      parameter and the day-first parser of holiday texts as another; a
      `month` of 0 stands for None. */
  method GetWeekdayCount(year: int, month: int, untilToday: bool, holidays: seq<Holiday>, today: CivilDate,
                         dayFirst: string -> Option<CivilDate>) returns (n: nat)
    ensures n == WeekdayCount(year, month, untilToday, HolidaySet(holidays, dayFirst), today)
  {
    var period := Period(year, month);
    if period.None? {
      return Fallback(month);
    }
    var start := period.value.0;
    var end := period.value.1;
    if untilToday && Before(today, end) {
      end := today;
    }
    if Before(end, start) {
      return 0;
    }
    if !InStampRange(start) || !InStampRange(end) {
      return Fallback(month);
    }
    var hol: set<Date> := {};
    if |holidays| > 0 {
      hol := CollectHolidays(holidays, dayFirst);
    }
    n := Workdays(start, end, hol);
  }

  /** With `until_today` the count stops at today: a period that starts after
      today counts 0, and days after today never count. */
  lemma WeekdayCountUntilToday(year: int, month: int, hol: set<Date>, today: CivilDate)
    requires Period(year, month).Some? && Before(today, Period(year, month).value.0)
    ensures WeekdayCount(year, month, true, hol, today) == 0
  {
    var (start, last) := Period(year, month).value;
    OrdinalOrder(today, start);
    OrdinalOrder(start, last);
  }

  /** Clamping to today never adds days. */
  lemma WeekdayCountClamped(year: int, month: int, hol: set<Date>, today: CivilDate)
    requires Period(year, month).Some?
    requires InStampRange(Period(year, month).value.0) && InStampRange(Period(year, month).value.1)
    requires InStampRange(today)
    ensures WeekdayCount(year, month, true, hol, today) <= WeekdayCount(year, month, false, hol, today)
  {
    var (start, last) := Period(year, month).value;
    if Before(today, last) && !Before(today, start) {
      WorkdaysEndNarrower(start, last, today, hol);
    }
  }

  /** 1 March 2024 is a Friday, so the 2nd and 3rd fall on the weekend. */
  lemma March2024Weekdays()
    ensures Weekday(Date(2024, 3, 1)) == 4 && Weekday(Date(2024, 3, 2)) == 5
    ensures Weekday(Date(2024, 3, 3)) == 6 && Weekday(Date(2024, 3, 4)) == 0
  {
    assert Ordinal(Date(2024, 3, 1)) == 738946;
    NextDayWeekday(Date(2024, 3, 1));
    NextDayWeekday(Date(2024, 3, 2));
    NextDayWeekday(Date(2024, 3, 3));
  }

  /** Friday 1 March to Monday 4 March 2024 holds two workdays, one once
      1 March is a holiday. */
  lemma WeekendSkipped()
    ensures Workdays(Date(2024, 3, 1), Date(2024, 3, 4), {}) == 2
    ensures Workdays(Date(2024, 3, 1), Date(2024, 3, 4), {Date(2024, 3, 1)}) == 1
  {
    var d1: CivilDate, d2: CivilDate, d3: CivilDate, d4: CivilDate :=
      Date(2024, 3, 1), Date(2024, 3, 2), Date(2024, 3, 3), Date(2024, 3, 4);
    March2024Weekdays();
    assert Workdays(d4, d4, {}) == 1;
    assert Workdays(d3, d4, {}) == 1 by { StepBefore(d3, d4); }
    assert Workdays(d2, d4, {}) == 1 by { StepBefore(d2, d4); }
    assert Workdays(d1, d4, {}) == 2 by { StepBefore(d1, d4); }
    WorkdaysHoliday(d1, d4, {}, d1);
  }

  // ---------------------------------------------------------------------------
  // `calculate_effective_workdays`
  // ---------------------------------------------------------------------------

  /** An employment bound: missing (None, NaN, NaT or a non-date), a date
      (a `date`, `datetime` or `Timestamp`), or text for the day-first parser. */
  datatype Bound = NoBound | BoundDate(d: CivilDate) | BoundText(s: string)

  /** The date a bound constrains the range with, if any. */
  function BoundOf(b: Bound, dayFirst: string -> Option<CivilDate>): Option<CivilDate>
  {
    match b
    case NoBound => None
    case BoundDate(d) => Some(d)
    case BoundText(s) => dayFirst(s)
  }

  /** What `calculate_effective_workdays(year, month, start_date, end_date,
      holidays)` returns, given the holiday dates and today's date. */
  function EffectiveWorkdays(year: int, month: int, startBound: Option<CivilDate>, endBound: Option<CivilDate>,
                             hol: set<Date>, today: CivilDate): nat
  {
    match Period(year, month)
    case None => 0
    case Some((periodStart, last)) =>
      var periodEnd: CivilDate := if Before(today, last) then today else last;
      if Before(periodEnd, periodStart) then 0
      else Windowed(periodStart, periodEnd, startBound, endBound, hol)
  }

  /** The workdays of a period cut down to the employment window. */
  function Windowed(periodStart: CivilDate, periodEnd: CivilDate, startBound: Option<CivilDate>,
                    endBound: Option<CivilDate>, hol: set<Date>): nat
  {
    var start: CivilDate := if startBound.Some? && Before(periodStart, startBound.value) then startBound.value else periodStart;
    var end: CivilDate := if endBound.Some? && Before(endBound.value, periodEnd) then endBound.value else periodEnd;
    if Before(end, start) then 0
    else if !InStampRange(start) || !InStampRange(end) then 0
    else Workdays(start, end, hol)
  }

  /** `calculate_effective_workdays`, with `today` and the day-first parser as
      parameters; a `month` of 0 stands for None. */
  method CalculateEffectiveWorkdays(year: int, month: int, startDate: Bound, endDate: Bound, holidays: seq<Holiday>,
                                    today: CivilDate, dayFirst: string -> Option<CivilDate>) returns (n: nat)
    ensures n == EffectiveWorkdays(year, month, BoundOf(startDate, dayFirst), BoundOf(endDate, dayFirst),
                                   Elems(HolidayList(holidays)), today)
  {
    var period := Period(year, month);
    if period.None? {
      return 0;
    }
    var periodStart := period.value.0;
    var periodEnd := period.value.1;
    if Before(today, periodEnd) {
      periodEnd := today;
    }
    if Before(periodEnd, periodStart) {
      return 0;
    }
    var effectiveStart := periodStart;
    var effectiveEnd := periodEnd;
    var s := BoundOf(startDate, dayFirst);
    var e := BoundOf(endDate, dayFirst);
    if s.Some? && Before(periodStart, s.value) {
      effectiveStart := s.value;
    }
    if e.Some? && Before(e.value, periodEnd) {
      effectiveEnd := e.value;
    }
    if Before(effectiveEnd, effectiveStart) {
      return 0;
    }
    if !InStampRange(effectiveStart) || !InStampRange(effectiveEnd) {
      return 0;
    }
    var list: seq<Date> := [];
    if |holidays| > 0 {
      list := CollectHolidayList(holidays);
    }
    n := Workdays(effectiveStart, effectiveEnd, Elems(list));
  }

  /** Without employment bounds the effective count is the count up to
      today; the two differ only where a date cannot be built, where one
      falls back to 22 or 260 and the other to 0. */
  lemma EffectiveUnbounded(year: int, month: int, hol: set<Date>, today: CivilDate)
    requires Period(year, month).Some?
    requires InStampRange(Period(year, month).value.0) && InStampRange(today)
    requires InStampRange(Period(year, month).value.1)
    ensures EffectiveWorkdays(year, month, None, None, hol, today) == WeekdayCount(year, month, true, hol, today)
  {
  }

  /** The employment window only narrows the period: the effective count
      never exceeds the count up to today. */
  lemma EffectiveWithinPeriod(year: int, month: int, startBound: Option<CivilDate>, endBound: Option<CivilDate>,
                              hol: set<Date>, today: CivilDate)
    requires Period(year, month).Some?
    requires InStampRange(Period(year, month).value.0) && InStampRange(today)
    requires InStampRange(Period(year, month).value.1)
    ensures EffectiveWorkdays(year, month, startBound, endBound, hol, today) <= WeekdayCount(year, month, true, hol, today)
  {
    var (periodStart, last) := Period(year, month).value;
    var periodEnd: CivilDate := if Before(today, last) then today else last;
    if !Before(periodEnd, periodStart) {
      WindowedWithin(periodStart, periodEnd, startBound, endBound, hol);
    }
  }

  /** A window inside the period counts no more workdays than the period. */
  lemma WindowedWithin(periodStart: CivilDate, periodEnd: CivilDate, startBound: Option<CivilDate>,
                       endBound: Option<CivilDate>, hol: set<Date>)
    requires !Before(periodEnd, periodStart) && InStampRange(periodStart) && InStampRange(periodEnd)
    ensures Windowed(periodStart, periodEnd, startBound, endBound, hol) <= Workdays(periodStart, periodEnd, hol)
  {
    var start: CivilDate := if startBound.Some? && Before(periodStart, startBound.value) then startBound.value else periodStart;
    var end: CivilDate := if endBound.Some? && Before(endBound.value, periodEnd) then endBound.value else periodEnd;
    if !Before(end, start) && InStampRange(start) && InStampRange(end) {
      OrdinalOrder(periodStart, start);
      OrdinalOrder(end, periodEnd);
      WorkdaysNarrower(periodStart, periodEnd, start, end, hol);
    }
  }
}
