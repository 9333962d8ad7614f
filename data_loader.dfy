/** The pure steps of `load_data` (core/data_loader.py): the monthly rate
    table built from the rates sheet, the holiday set, the filter on zero EUR
    amounts, the owner label of the customer master, the split of open quotes
    from orders, and the clean-up of the field-service log. Reading the sheets,
    the thread pool, caching and progress reporting are not part of this model. */
module DataLoader {
  import opened Prelude
  import opened Civil
  import opened Utils
  import opened Transforms
  import opened DateUtils

  // ---------------------------------------------------------------------------
  // The rates sheet
  // ---------------------------------------------------------------------------

  /** One row of the rates sheet, keyed by its header after `strip().lower()`.
      The sheet is read as raw text, so a cell left empty is the text "";
      `Blank` (a missing value) does not arise from it, and the model keeps
      it only to follow the `or` chain's treatment of `pd.NA`. */
  type RateRow = map<string, Cell>

  /** What an `row.get(a) or row.get(b) or ... or default` chain lands on:
      the default literal, or a non-empty text. */
  datatype Arg = Default | Given(s: string)

  /** Whether `row.get(n)` ends the `or` chain: the column is there and its
      cell is not the empty (falsy) text. */
  predicate Decisive(row: RateRow, n: string)
  {
    n in row && row[n] != Text("")
  }

  /** The `or` chain over `names`: an absent column (None) and an empty text
      are falsy and pass on to the next name; a non-empty text is the value;
      the truth value of `pd.NA` raises TypeError, here None; when every name
      passes, the chain ends on its default literal. */
  function Pick(row: RateRow, names: seq<string>): (r: Option<Arg>)
    ensures r == Some(Default) <==> forall i :: 0 <= i < |names| ==> !Decisive(row, names[i])
    ensures r.Some? && r.value.Given? ==>
      r.value.s != [] &&
      exists i :: 0 <= i < |names| && names[i] in row && row[names[i]] == Text(r.value.s) &&
        forall j :: 0 <= j < i ==> !Decisive(row, names[j])
    ensures r.None? ==>
      exists i :: 0 <= i < |names| && names[i] in row && row[names[i]] == Blank &&
        forall j :: 0 <= j < i ==> !Decisive(row, names[j])
  {
    if names == [] then Some(Default)
    else if !Decisive(row, names[0]) then
      var r := Pick(row, names[1..]);
      assert forall i :: 0 < i < |names| ==> names[1..][i - 1] == names[i];
      r
    else
      match row[names[0]]
      case Blank => None
      case Text(s) => Some(Given(s))
  }

  /** The `parse` helper: a default literal and a text of blanks read as 1.0;
      otherwise the text, with its decimal commas made points and its blanks
      removed, goes through `float` (None when that raises). */
  function ParseArg(a: Arg): (r: Option<real>)
    ensures a.Default? ==> r == Some(1.0)
    ensures a.Given? && Strip(a.s) == [] ==> r == Some(1.0)
  {
    match a
    case Default => Some(1.0)
    case Given(s) =>
      if Strip(s) == [] then Some(1.0)
      else ParseFloat(RemoveChar(ReplaceChar(s, ',', '.'), ' '))
  }

  const YearNames: seq<string> := ["yil", "yıl", "year"]
  const MonthNames: seq<string> := ["ay", "month"]

  /** The year or month of a row: `int(parse(...))` of its `or` chain (which
      defaults to 0, read as 1.0); None when the chain or the parse raises. */
  function ReadInt(row: RateRow, names: seq<string>): Option<int>
  {
    var a := Pick(row, names);
    if a.None? then None
    else
      var x := ParseArg(a.value);
      if x.None? then None else Some(Trunc(x.value))
  }

  /** A rate of a row: `parse` of its `or` chain (which defaults to 1). */
  function ReadRate(row: RateRow, names: seq<string>): Option<real>
  {
    var a := Pick(row, names);
    if a.None? then None else ParseArg(a.value)
  }

  /** The five assignments of a row, in order: each currency with the column
      names its rate is read from. */
  const RateColumns: seq<(string, seq<string>)> := [
    ("EUR", ["eur", "euro"]),
    ("USD", ["usd", "dolar"]),
    ("GBP", ["gbp", "sterlin"]),
    ("TL", ["tl", "try"]),
    ("TRY", ["tl", "try"])
  ]

  /** The assignments `monthly_rates[(yil, ay, code)] = ...` from the first
      column on: the first one whose rate raises ends the row, and the ones
      made before it stay. */
  function WriteRates(rates: MonthlyRates, y: int, m: int, row: RateRow, cols: seq<(string, seq<string>)>): MonthlyRates
    decreases |cols|
  {
    if cols == [] then rates
    else
      var v := ReadRate(row, cols[0].1);
      if v.None? then rates
      else WriteRates(rates[(y, m, cols[0].0) := v.value], y, m, row, cols[1..])
  }

  /** The table after one row: a row whose year or month raises, or is not
      positive, changes nothing. */
  function RowApplied(rates: MonthlyRates, row: RateRow): MonthlyRates
  {
    var y := ReadInt(row, YearNames);
    var m := ReadInt(row, MonthNames);
    if y.None? || m.None? then rates
    else if y.value > 0 && m.value > 0 then WriteRates(rates, y.value, m.value, row, RateColumns)
    else rates
  }

  /** The table the loop over the rates sheet builds. */
  function MonthlyRatesOf(rows: seq<RateRow>): MonthlyRates
  {
    if rows == [] then map[]
    else RowApplied(MonthlyRatesOf(rows[..|rows| - 1]), rows[|rows| - 1])
  }

  /** The body of the loop for one row, inside its `try`: a `parse` that
      raises ends the row, and the assignments made before it stay. */
  method ApplyRateRow(rates: MonthlyRates, row: RateRow) returns (r: MonthlyRates)
    ensures r == RowApplied(rates, row)
  {
    r := rates;
    var yil := ReadInt(row, YearNames);
    if yil.None? {
      return;
    }
    var ay := ReadInt(row, MonthNames);
    if ay.None? {
      return;
    }
    var y, m := yil.value, ay.value;
    if y > 0 && m > 0 {
      ghost var cols := RateColumns;
      WriteRatesStep(r, y, m, row, cols);
      var eur := ReadRate(row, ["eur", "euro"]);
      if eur.None? {
        return;
      }
      r := r[(y, m, "EUR") := eur.value];
      cols := cols[1..];
      WriteRatesStep(r, y, m, row, cols);
      var usd := ReadRate(row, ["usd", "dolar"]);
      if usd.None? {
        return;
      }
      r := r[(y, m, "USD") := usd.value];
      cols := cols[1..];
      WriteRatesStep(r, y, m, row, cols);
      var gbp := ReadRate(row, ["gbp", "sterlin"]);
      if gbp.None? {
        return;
      }
      r := r[(y, m, "GBP") := gbp.value];
      cols := cols[1..];
      WriteRatesStep(r, y, m, row, cols);
      var tl := ReadRate(row, ["tl", "try"]);
      if tl.None? {
        return;
      }
      r := r[(y, m, "TL") := tl.value];
      cols := cols[1..];
      WriteRatesStep(r, y, m, row, cols);
      var try := ReadRate(row, ["tl", "try"]);
      if try.None? {
        return;
      }
      cols := cols[1..];
      assert cols == [];
      r := r[(y, m, "TRY") := try.value];
    }
  }

  /** The loop over the rows of the rates sheet. */
  method BuildMonthlyRates(rows: seq<RateRow>) returns (rates: MonthlyRates)
    ensures rates == MonthlyRatesOf(rows)
  {
    rates := map[];
    var i := 0;
    while i < |rows|
      invariant 0 <= i <= |rows|
      invariant rates == MonthlyRatesOf(rows[..i])
    {
      TakeSnoc(rows, i);
      assert rows[..i + 1][..i] == rows[..i];
      rates := ApplyRateRow(rates, rows[i]);
      i := i + 1;
    }
    assert rows[..|rows|] == rows;
  }

  /** A row writes only keys of its own year and month with a code from its
      columns, keeps every key it had, and changes no other month's rate. */
  lemma {:induction false} WriteRatesFrame(rates: MonthlyRates, y: int, m: int, row: RateRow,
                                           cols: seq<(string, seq<string>)>, codes: set<string>)
    requires forall i :: 0 <= i < |cols| ==> cols[i].0 in codes
    ensures var w := WriteRates(rates, y, m, row, cols);
      (forall k :: k in w ==> k in rates || (k.0 == y && k.1 == m && k.2 in codes)) &&
      (forall k :: k in rates ==> k in w) &&
      (forall k :: k in rates && (k.0 != y || k.1 != m || k.2 !in codes) ==> w[k] == rates[k])
    decreases |cols|
  {
    if cols != [] {
      var v := ReadRate(row, cols[0].1);
      if v.Some? {
        var next := rates[(y, m, cols[0].0) := v.value];
        assert cols[0].0 in codes;
        assert forall i :: 0 <= i < |cols| - 1 ==> cols[1..][i] == cols[i + 1];
        assert WriteRates(rates, y, m, row, cols) == WriteRates(next, y, m, row, cols[1..]);
        WriteRatesFrame(next, y, m, row, cols[1..], codes);
      }
    }
  }

  lemma RateColumnCodes()
    ensures forall i :: 0 <= i < |RateColumns| ==> RateColumns[i].0 in Currencies
  {
  }

  /** Every key of the monthly table has a positive year and month and one of
      the five known codes. */
  lemma {:induction false} MonthlyRatesKeys(rows: seq<RateRow>)
    ensures forall k :: k in MonthlyRatesOf(rows) ==> k.0 > 0 && k.1 > 0 && k.2 in Currencies
  {
    if rows != [] {
      var prev := MonthlyRatesOf(rows[..|rows| - 1]);
      MonthlyRatesKeys(rows[..|rows| - 1]);
      var row := rows[|rows| - 1];
      var y := ReadInt(row, YearNames);
      var m := ReadInt(row, MonthNames);
      if y.Some? && m.Some? && y.value > 0 && m.value > 0 {
        RateColumnCodes();
        WriteRatesFrame(prev, y.value, m.value, row, RateColumns, Currencies);
      }
    }
  }

  /** The TL and TRY rates of a month are both present or both absent, and
      equal when present. */
  ghost predicate Paired(rates: MonthlyRates)
  {
    forall y: int, m: int ::
      ((y, m, "TL") in rates <==> (y, m, "TRY") in rates) &&
      ((y, m, "TL") in rates ==> rates[(y, m, "TL")] == rates[(y, m, "TRY")])
  }

  lemma PairedUpdate(rates: MonthlyRates, k: (int, int, string), v: real)
    requires Paired(rates) && k.2 != "TL" && k.2 != "TRY"
    ensures Paired(rates[k := v])
  {
  }

  lemma PairedBoth(rates: MonthlyRates, y: int, m: int, v: real)
    requires Paired(rates)
    ensures Paired(rates[(y, m, "TL") := v][(y, m, "TRY") := v])
  {
  }

  /** One assignment of a row, unfolded. */
  lemma WriteRatesStep(rates: MonthlyRates, y: int, m: int, row: RateRow, cols: seq<(string, seq<string>)>)
    requires cols != []
    ensures ReadRate(row, cols[0].1).None? ==> WriteRates(rates, y, m, row, cols) == rates
    ensures ReadRate(row, cols[0].1).Some? ==>
      WriteRates(rates, y, m, row, cols) ==
      WriteRates(rates[(y, m, cols[0].0) := ReadRate(row, cols[0].1).value], y, m, row, cols[1..])
  {
  }

  /** A row writes TL and TRY together, with the one rate read from the `tl`
      or `try` column, or writes neither. */
  lemma RowAppliedPaired(rates: MonthlyRates, row: RateRow)
    requires Paired(rates)
    ensures Paired(RowApplied(rates, row))
  {
    var y := ReadInt(row, YearNames);
    var m := ReadInt(row, MonthNames);
    if y.Some? && m.Some? && y.value > 0 && m.value > 0 {
      RowAppliedPairedFrom(rates, y.value, m.value, row);
    }
  }

  lemma RowAppliedPairedFrom(rates: MonthlyRates, y: int, m: int, row: RateRow)
    requires Paired(rates)
    ensures Paired(WriteRates(rates, y, m, row, RateColumns))
  {
    var cols := RateColumns;
    WriteRatesStep(rates, y, m, row, cols);
    var eur := ReadRate(row, cols[0].1);
    if eur.Some? {
      var r1 := rates[(y, m, "EUR") := eur.value];
      PairedUpdate(rates, (y, m, "EUR"), eur.value);
      WriteRatesStep(r1, y, m, row, cols[1..]);
      var usd := ReadRate(row, cols[1].1);
      if usd.Some? {
        var r2 := r1[(y, m, "USD") := usd.value];
        PairedUpdate(r1, (y, m, "USD"), usd.value);
        WriteRatesStep(r2, y, m, row, cols[2..]);
        var gbp := ReadRate(row, cols[2].1);
        if gbp.Some? {
          var r3 := r2[(y, m, "GBP") := gbp.value];
          PairedUpdate(r2, (y, m, "GBP"), gbp.value);
          WriteRatesTail(r3, y, m, row);
        }
      }
    }
  }

  /** The TL and TRY assignments at the end of a row. */
  lemma WriteRatesTail(rates: MonthlyRates, y: int, m: int, row: RateRow)
    requires Paired(rates)
    ensures Paired(WriteRates(rates, y, m, row, RateColumns[3..]))
  {
    var cols := RateColumns[3..];
    WriteRatesStep(rates, y, m, row, cols);
    var tl := ReadRate(row, cols[0].1);
    if tl.Some? {
      WriteRatesStep(rates[(y, m, "TL") := tl.value], y, m, row, cols[1..]);
      assert cols[1..][1..] == [];
      PairedBoth(rates, y, m, tl.value);
    }
  }

  /** The table of the whole sheet keeps TL and TRY paired. */
  lemma {:induction false} MonthlyRatesPaired(rows: seq<RateRow>)
    ensures Paired(MonthlyRatesOf(rows))
  {
    if rows != [] {
      MonthlyRatesPaired(rows[..|rows| - 1]);
      RowAppliedPaired(MonthlyRatesOf(rows[..|rows| - 1]), rows[|rows| - 1]);
    }
  }

  /** A row whose rates all read sets each of them, when no code repeats. */
  lemma {:induction false} WriteRatesAll(rates: MonthlyRates, y: int, m: int, row: RateRow, cols: seq<(string, seq<string>)>)
    requires forall i :: 0 <= i < |cols| ==> ReadRate(row, cols[i].1).Some?
    requires forall i, j :: 0 <= i < j < |cols| ==> cols[i].0 != cols[j].0
    ensures var w := WriteRates(rates, y, m, row, cols);
      forall i :: 0 <= i < |cols| ==> (y, m, cols[i].0) in w && w[(y, m, cols[i].0)] == ReadRate(row, cols[i].1).value
    decreases |cols|
  {
    if cols != [] {
      var v := ReadRate(row, cols[0].1).value;
      var r := rates[(y, m, cols[0].0) := v];
      var tail := cols[1..];
      assert forall i :: 0 <= i < |tail| ==> tail[i] == cols[i + 1];
      WriteRatesAll(r, y, m, row, tail);
      var codes := set i | 0 <= i < |tail| :: tail[i].0;
      WriteRatesFrame(r, y, m, row, tail, codes);
    }
  }

  /** A row whose year, month and five rates all read sets those five rates
      for its month, whatever earlier rows of the sheet wrote there. */
  lemma CompleteRowWins(rows: seq<RateRow>, row: RateRow, y: int, m: int)
    requires ReadInt(row, YearNames) == Some(y) && ReadInt(row, MonthNames) == Some(m) && y > 0 && m > 0
    requires forall i :: 0 <= i < |RateColumns| ==> ReadRate(row, RateColumns[i].1).Some?
    ensures forall i :: 0 <= i < |RateColumns| ==>
      (y, m, RateColumns[i].0) in MonthlyRatesOf(rows + [row]) &&
      MonthlyRatesOf(rows + [row])[(y, m, RateColumns[i].0)] == ReadRate(row, RateColumns[i].1).value
  {
    var prev := MonthlyRatesOf(rows);
    assert (rows + [row])[..|rows|] == rows;
    assert MonthlyRatesOf(rows + [row]) == RowApplied(prev, row);
    RowAppliedWrites(prev, row, y, m);
    RateColumnsDistinct();
    WriteRatesAll(prev, y, m, row, RateColumns);
  }

  /** The five assignments write five different codes. */
  lemma RateColumnsDistinct()
    ensures forall i, j :: 0 <= i < j < |RateColumns| ==> RateColumns[i].0 != RateColumns[j].0
  {
  }

  /** A sheet without a year column files its rows under year 1 (the chain
      ends on `or 0`, which `parse` reads as 1.0). */
  lemma MissingYearIsOne(row: RateRow)
    requires forall i :: 0 <= i < |YearNames| ==> YearNames[i] !in row
    ensures ReadInt(row, YearNames) == Some(1)
  {
  }

  /** The rates sheet is read as raw text, so an empty `yil` cell is the
      text "", which the `or` chain passes over. With no other year column
      filled in, the chain ends on `or 0`, which `parse` reads as 1.0: the
      row is not skipped but filed under year 1. */
  lemma EmptyYearIsOne(rates: MonthlyRates, row: RateRow, m: int)
    requires "yil" in row && row["yil"] == Text("")
    requires forall i :: 1 <= i < |YearNames| ==> YearNames[i] !in row || row[YearNames[i]] == Text("")
    requires ReadInt(row, MonthNames) == Some(m) && m > 0
    ensures ReadInt(row, YearNames) == Some(1)
    ensures RowApplied(rates, row) == WriteRates(rates, 1, m, row, RateColumns)
  {
    EmptyYearReadsOne(row);
    RowAppliedWrites(rates, row, 1, m);
  }

  /** A row whose year and month read as positive numbers writes its rates
      under that year and month. */
  lemma RowAppliedWrites(rates: MonthlyRates, row: RateRow, y: int, m: int)
    requires ReadInt(row, YearNames) == Some(y) && ReadInt(row, MonthNames) == Some(m)
    requires y > 0 && m > 0
    ensures RowApplied(rates, row) == WriteRates(rates, y, m, row, RateColumns)
  {
  }

  /** Empty year texts leave the year chain on its default. */
  lemma EmptyYearReadsOne(row: RateRow)
    requires forall i :: 0 <= i < |YearNames| ==> YearNames[i] !in row || row[YearNames[i]] == Text("")
    ensures ReadInt(row, YearNames) == Some(1)
  {
    assert forall i :: 0 <= i < |YearNames| ==> !Decisive(row, YearNames[i]);
  }

  /** A rate written with a decimal comma reads as the number it denotes. */
  lemma ParseArgComma(ip: string, fp: string)
    requires AllDigits(ip) && AllDigits(fp) && ip != []
    ensures ParseArg(Given(ip + "," + fp)) == Some(DecimalValue(ip, fp))
  {
    var s := ip + "," + fp;
    NumberEnds(ip, ',', fp);
    StripClean(s);
    CommaToPoint(ip, fp);
    PointKeptBlankFree(ip, fp);
    ParseFloatPoint(ip, fp);
  }

  lemma ParseFloatPoint(ip: string, fp: string)
    requires AllDigits(ip) && AllDigits(fp) && ip != []
    ensures ParseFloat(ip + "." + fp) == Some(DecimalValue(ip, fp))
  {
    NumberEnds(ip, '.', fp);
    StripClean(ip + "." + fp);
    ParseDecimalPoint(ip, fp);
  }

  lemma CommaToPoint(ip: string, fp: string)
    requires AllDigits(ip) && AllDigits(fp)
    ensures ReplaceChar(ip + "," + fp, ',', '.') == ip + "." + fp
  {
    var s := ip + "," + fp;
    var t := ip + "." + fp;
    var u := ReplaceChar(s, ',', '.');
    forall i | 0 <= i < |t|
      ensures u[i] == t[i]
    {
      if i < |ip| {
        assert s[i] == ip[i] && t[i] == ip[i];
      } else if i > |ip| {
        assert s[i] == fp[i - |ip| - 1] && t[i] == fp[i - |ip| - 1];
      }
    }
  }

  lemma PointKeptBlankFree(ip: string, fp: string)
    requires AllDigits(ip) && AllDigits(fp)
    ensures RemoveChar(ip + "." + fp, ' ') == ip + "." + fp
  {
    var t := ip + "." + fp;
    forall i | 0 <= i < |t| ensures t[i] != ' ' {
      if i < |ip| {
        assert t[i] == ip[i];
      } else if i > |ip| {
        assert t[i] == fp[i - |ip| - 1];
      }
    }
    RemoveCharAbsent(t, ' ');
  }

  lemma NumberEnds(ip: string, c: char, fp: string)
    requires AllDigits(ip) && AllDigits(fp) && ip != [] && !IsSpace(c)
    ensures var s := ip + [c] + fp; !IsSpace(s[0]) && !IsSpace(s[|s| - 1])
  {
    var s := ip + [c] + fp;
    assert s[0] == ip[0];
    if fp != [] {
      assert s[|s| - 1] == fp[|fp| - 1];
    }
  }

  /** In the project's yearly table TL and TRY share one rate every year. */
  lemma YearlyTlIsTry(y: int)
    requires y in YearlyExchangeRates
    ensures "TL" in YearlyExchangeRates[y] && "TRY" in YearlyExchangeRates[y]
    ensures YearlyExchangeRates[y]["TL"] == YearlyExchangeRates[y]["TRY"]
  {
  }

  lemma CleanTl()
    ensures Strip("TL") == "TL" && Upper("TL") == "TL"
  {
    StripClean("TL");
    UpperMap("TL");
  }

  lemma CleanTry()
    ensures Strip("TRY") == "TRY" && Upper("TRY") == "TRY"
  {
    StripClean("TRY");
    UpperMap("TRY");
  }

  /** The yearly fallback gives TL and TRY one rate in every year. */
  lemma ExchangeTlIsTry(y: int)
    ensures YearlyExchangeRates != map[]
    ensures GetExchangeRate(Str("TL"), y, YearlyExchangeRates) == GetExchangeRate(Str("TRY"), y, YearlyExchangeRates)
  {
    LatestRateYear();
    CleanTl();
    CleanTry();
    YearlyTlIsTry(if y in YearlyExchangeRates then y else 2026);
  }

  /** `get_rate` gives TL and TRY amounts the same rate in every month. */
  lemma TlRateIsTry(rows: seq<RateRow>, y: int, m: int)
    ensures YearlyExchangeRates != map[]
    ensures RateFor(y, m, "TL", MonthlyRatesOf(rows), YearlyExchangeRates)
         == RateFor(y, m, "TRY", MonthlyRatesOf(rows), YearlyExchangeRates)
  {
    MonthlyRatesPaired(rows);
    ExchangeTlIsTry(y);
  }

  // ---------------------------------------------------------------------------
  // Holidays
  // ---------------------------------------------------------------------------

  /** The holiday set: the dates the day-first parser reads from the texts of
      the holiday sheet's `Tarih` column (unreadable text and empty cells
      become NaT and are dropped); None stands for an empty sheet or one
      without the column, which gives the empty set. */
  function HolidayDates(column: Option<seq<Cell>>, dayFirst: string -> Option<CivilDate>): (hs: set<CivilDate>)
    ensures forall d :: d in hs <==>
      column.Some? && exists i :: 0 <= i < |column.value| && column.value[i].Text? && dayFirst(column.value[i].s) == Some(d)
  {
    if column.None? then {}
    else
      var cells := column.value;
      set i | 0 <= i < |cells| && cells[i].Text? && dayFirst(cells[i].s).Some? :: dayFirst(cells[i].s).value
  }

  /** The loaded dates as `date` objects, in any order the set hands them out. */
  function OnDates(ds: seq<CivilDate>): (hs: seq<Holiday>)
    ensures |hs| == |ds| && forall i :: 0 <= i < |ds| ==> hs[i] == OnDate(ds[i])
  {
    seq(|ds|, i requires 0 <= i < |ds| => OnDate(ds[i]))
  }

  /** Handed to `get_weekday_count` or `calculate_effective_workdays`, the
      loaded dates are exactly the holidays those functions skip. */
  lemma LoadedHolidaysCounted(ds: seq<CivilDate>, dayFirst: string -> Option<CivilDate>)
    ensures forall d: Date :: d in HolidaySet(OnDates(ds), dayFirst) <==> d in ds
    ensures forall d: Date :: d in HolidayList(OnDates(ds)) <==> d in ds
  {
    var hs := OnDates(ds);
    forall d: Date
      ensures d in HolidaySet(hs, dayFirst) <==> d in ds
      ensures d in HolidayList(hs) <==> d in ds
    {
      HolidaySetMembers(hs, dayFirst, d);
      FilterMapMember(hs, EffectiveHoliday, d);
      if d in ds {
        var i :| 0 <= i < |ds| && ds[i] == d;
        assert CountedHoliday(hs[i], dayFirst) == Some(d);
        assert EffectiveHoliday(hs[i]) == Some(d);
      }
    }
  }

  // ---------------------------------------------------------------------------
  // Quotes and orders
  // ---------------------------------------------------------------------------

  /** The rows `df[df["Tutar_EUR"] != 0]` keeps. */
  function NonZeroEur(f: FinanceFact): Option<FinanceFact>
  {
    if f.amountEur != 0.0 then Some(f) else None
  }

  /** The processed frame without its rows of zero EUR amount. */
  function DropZeroEur(fs: seq<FinanceFact>): seq<FinanceFact>
  {
    FilterMap(fs, NonZeroEur)
  }

  /** Exactly the rows with a non-zero EUR amount are kept. */
  lemma DropZeroEurKeeps(fs: seq<FinanceFact>)
    ensures forall f :: f in DropZeroEur(fs) <==> f in fs && f.amountEur != 0.0
  {
    forall f ensures f in DropZeroEur(fs) <==> f in fs && f.amountEur != 0.0 {
      FilterMapMember(fs, NonZeroEur, f);
    }
  }

  /** Filtering a second time keeps everything. */
  lemma DropZeroEurIdempotent(fs: seq<FinanceFact>)
    ensures DropZeroEur(DropZeroEur(fs)) == DropZeroEur(fs)
  {
    FilterMapFilterTwice(fs, NonZeroEur);
  }

  /** A row of the quote or order table with its `Durum` and `Teklif_No`. */
  datatype Tagged = Tagged(fact: FinanceFact, status: string, quoteNo: string)

  const QuoteStatus := "Teklif"
  const OrderStatus := "Sipariş"

  /** `set(df_siparis_processed["Siparis_No"].unique())`. */
  function OrderIds(orders: seq<FinanceFact>): (ids: set<string>)
    ensures forall n :: n in ids <==> exists i :: 0 <= i < |orders| && orders[i].id == n
  {
    set i | 0 <= i < |orders| :: orders[i].id
  }

  function OpenQuote(ids: set<string>): FinanceFact -> Option<Tagged>
  {
    (f: FinanceFact) => if f.id in ids then None else Some(Tagged(f, QuoteStatus, f.id))
  }

  /** The open quotes: the processed quotes whose number no order carries,
      tagged "Teklif". */
  function OpenQuotes(quotes: seq<FinanceFact>, orders: seq<FinanceFact>): seq<Tagged>
  {
    FilterMap(quotes, OpenQuote(OrderIds(orders)))
  }

  /** The final orders: every processed order tagged "Sipariş", with its own
      number as its quote number. */
  function FinalOrders(orders: seq<FinanceFact>): seq<Tagged>
  {
    seq(|orders|, i requires 0 <= i < |orders| => Tagged(orders[i], OrderStatus, orders[i].id))
  }

  /** A quote stays open exactly when no order carries its number; an open
      quote is tagged as a quote and keeps its own number. */
  lemma OpenQuotesExact(quotes: seq<FinanceFact>, orders: seq<FinanceFact>)
    ensures forall t :: t in OpenQuotes(quotes, orders) ==>
      t.fact in quotes && t.status == QuoteStatus && t.quoteNo == t.fact.id
    ensures forall q :: q in quotes ==>
      (Tagged(q, QuoteStatus, q.id) in OpenQuotes(quotes, orders) <==> forall o :: o in orders ==> o.id != q.id)
  {
    var f := OpenQuote(OrderIds(orders));
    forall t | t in OpenQuotes(quotes, orders)
      ensures t.fact in quotes && t.status == QuoteStatus && t.quoteNo == t.fact.id
    {
      FilterMapMember(quotes, f, t);
    }
    forall q | q in quotes
      ensures Tagged(q, QuoteStatus, q.id) in OpenQuotes(quotes, orders) <==> forall o :: o in orders ==> o.id != q.id
    {
      FilterMapMember(quotes, f, Tagged(q, QuoteStatus, q.id));
    }
  }

  /** No quote number is both open and ordered. */
  lemma OpenQuotesDisjoint(quotes: seq<FinanceFact>, orders: seq<FinanceFact>)
    ensures forall t, u :: t in OpenQuotes(quotes, orders) && u in FinalOrders(orders) ==> t.quoteNo != u.quoteNo
  {
    OpenQuotesExact(quotes, orders);
    forall t, u | t in OpenQuotes(quotes, orders) && u in FinalOrders(orders)
      ensures t.quoteNo != u.quoteNo
    {
      FilterMapMember(quotes, OpenQuote(OrderIds(orders)), t);
    }
  }

  /** Every processed quote is open or has an order with its number. */
  lemma QuotesCovered(quotes: seq<FinanceFact>, orders: seq<FinanceFact>)
    ensures forall q :: q in quotes ==>
      Tagged(q, QuoteStatus, q.id) in OpenQuotes(quotes, orders) ||
      exists u :: u in FinalOrders(orders) && u.quoteNo == q.id
  {
    OpenQuotesExact(quotes, orders);
    forall q | q in quotes && Tagged(q, QuoteStatus, q.id) !in OpenQuotes(quotes, orders)
      ensures exists u :: u in FinalOrders(orders) && u.quoteNo == q.id
    {
      var o :| o in orders && o.id == q.id;
      var i :| 0 <= i < |orders| && orders[i] == o;
      assert FinalOrders(orders)[i].quoteNo == q.id;
    }
  }

  /** `get_rate` as `load_data` hands it to `process_finance_dataframe`: the
      monthly table, then the project's yearly table. */
  function GetRate(monthly: MonthlyRates): ((int, int, string)) -> real
  {
    LatestRateYear();
    (k: (int, int, string)) => RateFor(k.0, k.1, k.2, monthly, YearlyExchangeRates)
  }

  /** The finance tables of `load_data`: the open quotes, the final orders
      and every processed quote. */
  datatype FinanceTables = FinanceTables(openQuotes: seq<Tagged>, orders: seq<Tagged>, allQuotes: seq<FinanceFact>)

  /** What the finance part of `load_data` yields. An empty quote or order
      sheet comes back from `process_finance_dataframe` untouched, without a
      `Tutar_EUR` column; the filter on that column raises KeyError and
      `load_data` returns its empty result, None here. */
  function FinanceTablesOf(quoteRows: seq<FinanceRow>, orderRows: seq<FinanceRow>,
                           monthly: MonthlyRates, names: PersonnelNames): Option<FinanceTables>
  {
    if |quoteRows| == 0 || |orderRows| == 0 then None
    else
      var qs := DropZeroEur(FinanceFacts(quoteRows, GetRate(monthly), names));
      var os := DropZeroEur(FinanceFacts(orderRows, GetRate(monthly), names));
      Some(FinanceTables(OpenQuotes(qs, os), FinalOrders(os), qs))
  }

  /** The finance statements of `load_data`, in order: process the quotes and
      drop their zero rows, the same for the orders, then split the open
      quotes from the orders. Both sheets' frames are cleaned in place. */
  method LoadFinance(quoteFrame: FinanceFrame, orderFrame: FinanceFrame, monthly: MonthlyRates, names: PersonnelNames)
    returns (r: Option<FinanceTables>)
    requires quoteFrame != orderFrame
    modifies quoteFrame, orderFrame
    ensures r == FinanceTablesOf(old(quoteFrame.rows), old(orderFrame.rows), monthly, names)
    ensures quoteFrame.rows == Cleaned(old(quoteFrame.rows))
    ensures orderFrame.rows == if |old(quoteFrame.rows)| == 0 then old(orderFrame.rows) else Cleaned(old(orderFrame.rows))
  {
    var getRate := GetRate(monthly);
    var quoteRows, orderRows := quoteFrame.rows, orderFrame.rows;
    var quotes := ProcessFinance(quoteFrame, getRate, names);
    if |quoteRows| == 0 {
      return None;
    }
    quotes := DropZeroEur(quotes);
    var orders := ProcessFinance(orderFrame, getRate, names);
    if |orderRows| == 0 {
      return None;
    }
    orders := DropZeroEur(orders);
    var open := OpenQuotes(quotes, orders);
    var ordered := FinalOrders(orders);
    r := Some(FinanceTables(open, ordered, quotes));
  }

  // ---------------------------------------------------------------------------
  // The customer master's owner label
  // ---------------------------------------------------------------------------

  const Unowned := "BOŞ / SAHİPSİZ"

  /** `Sorumlu_Clean`: the owner in Turkish upper case without surrounding
      blanks, or the unowned label for an empty or blank cell. */
  function OwnerLabel(c: Cell): string
  {
    match c
    case Blank => Unowned
    case Text(s) => if Strip(s) == [] then Unowned else TrUpper(Strip(s))
  }

  lemma UnownedClean()
    ensures Strip(Unowned) == Unowned && TrUpper(Unowned) == Unowned
  {
    UnownedStripped();
    UnownedUpper();
  }

  lemma UnownedStripped()
    ensures Strip(Unowned) == Unowned
  {
    assert CleanEnds(Unowned);
    StripCleanEnds(Unowned);
  }

  lemma UnownedUpper()
    ensures TrUpper(Unowned) == Unowned
  {
    forall i | 0 <= i < |Unowned| ensures TrFixed(Unowned[i]) {
      assert Unowned[i] in "BOŞ /SAHİPZ";
    }
    TrUpperOfFixed(Unowned);
  }

  /** A label is never empty, has no surrounding blanks and is its own
      Turkish upper case; empty and blank cells get the unowned label. */
  lemma OwnerLabelShape(c: Cell)
    ensures var r := OwnerLabel(c); r != [] && Strip(r) == r && TrUpper(r) == r
    ensures c.Blank? || Strip(c.s) == [] ==> OwnerLabel(c) == Unowned
  {
    if c.Blank? || Strip(c.s) == [] {
      assert OwnerLabel(c) == Unowned;
      UnownedClean();
    } else {
      var t := Strip(c.s);
      assert OwnerLabel(c) == TrUpper(t);
      StripIdempotent(c.s);
      OwnerTextShape(t);
    }
  }

  lemma OwnerTextShape(t: string)
    requires t != [] && Strip(t) == t
    ensures var r := TrUpper(t); r != [] && Strip(r) == r && TrUpper(r) == r
  {
    TrUpperKeepsStripped(t);
    TrUpperIdempotent(t);
  }

  /** Cleaning a cleaned label changes nothing. */
  lemma OwnerLabelIdempotent(c: Cell)
    ensures OwnerLabel(Text(OwnerLabel(c))) == OwnerLabel(c)
  {
    OwnerLabelShape(c);
  }

  // ---------------------------------------------------------------------------
  // The field-service log
  // ---------------------------------------------------------------------------

  /** The concatenated yearly field-service sheets: whether they have a
      `Tarih`, a `Teknisyen 1` and a `Teknisyen 2` column, and their rows.
      The sheets are read as raw text, so a cell left empty is the text ""
      (`Raw("")`, a `Text("")` cell). A missing value (NoDate, Blank) arises
      only where `pd.concat` fills with NaN a column that one year's sheet
      lacks; `astype(str)` prints that NaN as "nan". */
  datatype FieldLog = FieldLog(hasDate: bool, hasTech1: bool, hasTech2: bool, rows: seq<FieldRow>)

  /** A row of the cleaned log with its `Yil` and `Ay` (None for NaT and
      without a `Tarih` column) and its `Durum`. */
  datatype FieldEntry = FieldEntry(row: FieldRow, period: Option<(int, int)>, status: SahaStatus)

  /** `df['Tarih'].astype(str).str.strip() != ''`: an empty or all-blank
      text goes; the NaN of a missing column prints as "nan" and stays. */
  function KeepDated(r: FieldRow): Option<FieldRow>
  {
    if r.date.Raw? && Strip(r.date.s) == [] then None else Some(r)
  }

  /** `pd.to_datetime(..., dayfirst=True, errors='coerce')` on one cell: text
      the parser cannot read becomes NaT. */
  function ParsedDate(t: SahaDate, dayFirst: string -> Option<CivilDate>): SahaDate
  {
    match t
    case Raw(s) => if dayFirst(s).Some? then Stamp(dayFirst(s).value) else NoDate
    case _ => t
  }

  function ParseDated(dayFirst: string -> Option<CivilDate>): FieldRow -> Option<FieldRow>
  {
    (r: FieldRow) => Some(r.(date := ParsedDate(r.date, dayFirst)))
  }

  /** The date statements, which run only when the log has a `Tarih` column. */
  function DateStep(log: FieldLog, dayFirst: string -> Option<CivilDate>): FieldRow -> Option<FieldRow>
  {
    if log.hasDate then Then(KeepDated, ParseDated(dayFirst)) else Keep()
  }

  datatype TechColumn = Tech1 | Tech2

  const TechColumns: seq<TechColumn> := [Tech1, Tech2]

  predicate HasTech(log: FieldLog, c: TechColumn)
  {
    match c
    case Tech1 => log.hasTech1
    case Tech2 => log.hasTech2
  }

  /** `df[col] = df[col].apply(normalize_personel_name)` on one row. */
  function NormalizeTech(r: FieldRow, c: TechColumn): FieldRow
  {
    match c
    case Tech1 => r.(tech1 := Text(NormalizePersonelName(r.tech1)))
    case Tech2 => r.(tech2 := Text(NormalizePersonelName(r.tech2)))
  }

  function NormalizeColumn(c: TechColumn): FieldRow -> Option<FieldRow>
  {
    (r: FieldRow) => Some(NormalizeTech(r, c))
  }

  /** A row after the first `k` rounds of the loop over the technician
      columns: each present column is normalised. */
  function NormalizedTechs(log: FieldLog, r: FieldRow, k: nat): FieldRow
    requires k <= |TechColumns|
  {
    if k == 0 then r
    else
      var p := NormalizedTechs(log, r, k - 1);
      if HasTech(log, TechColumns[k - 1]) then NormalizeTech(p, TechColumns[k - 1]) else p
  }

  function TechStep(log: FieldLog, k: nat): FieldRow -> Option<FieldRow>
    requires k <= |TechColumns|
  {
    (r: FieldRow) => Some(NormalizedTechs(log, r, k))
  }

  /** `df[df['Teknisyen 1'] != '']`, when that column is there. */
  function KeepStaffed(r: FieldRow): Option<FieldRow>
  {
    if r.tech1 == Text("") then None else Some(r)
  }

  function StaffStep(log: FieldLog): FieldRow -> Option<FieldRow>
  {
    if log.hasTech1 then KeepStaffed else Keep()
  }

  /** `Yil`, `Ay` and `Durum` of a cleaned row. */
  function EntryStep(log: FieldLog, dayFirst: string -> Option<CivilDate>): FieldRow -> Option<FieldEntry>
  {
    (r: FieldRow) => Some(FieldEntry(r, if log.hasDate && r.date.Stamp? then Some((r.date.d.year, r.date.d.month)) else None,
                         SahaStatusOf(r, dayFirst)))
  }

  /** What the clean-up makes of one row of the log, if it keeps it. */
  function FieldOutcome(log: FieldLog, dayFirst: string -> Option<CivilDate>): FieldRow -> Option<FieldEntry>
  {
    Then(Then(Then(DateStep(log, dayFirst), TechStep(log, |TechColumns|)), StaffStep(log)), EntryStep(log, dayFirst))
  }

  /** The statements of `load_data` that clean the concatenated field log, in
      order: drop blank dates and parse the rest, normalise the technician
      columns, drop rows without a first technician, and add the status. */
  method CleanFieldLog(log: FieldLog, dayFirst: string -> Option<CivilDate>) returns (entries: seq<FieldEntry>)
    ensures entries == FilterMap(log.rows, FieldOutcome(log, dayFirst))
  {
    var rows := log.rows;
    if log.hasDate {
      rows := FilterMap(rows, KeepDated);
      rows := FilterMap(rows, ParseDated(dayFirst));
      FilterMapThen(log.rows, KeepDated, ParseDated(dayFirst));
    } else {
      FilterMapKeep(log.rows);
    }
    ghost var dated := rows;
    FilterMapKeep(dated);
    FilterMapAgree(dated, Keep(), TechStep(log, 0));
    var cols := TechColumns;
    var i := 0;
    while i < |cols|
      invariant 0 <= i <= |cols| && cols == TechColumns
      invariant rows == FilterMap(dated, TechStep(log, i))
    {
      if HasTech(log, cols[i]) {
        rows := FilterMap(rows, NormalizeColumn(cols[i]));
        FilterMapThen(dated, TechStep(log, i), NormalizeColumn(cols[i]));
        FilterMapAgree(dated, Then(TechStep(log, i), NormalizeColumn(cols[i])), TechStep(log, i + 1));
      } else {
        FilterMapAgree(dated, TechStep(log, i), TechStep(log, i + 1));
      }
      i := i + 1;
    }
    ghost var normalized := rows;
    if log.hasTech1 {
      rows := FilterMap(rows, KeepStaffed);
    } else {
      FilterMapKeep(normalized);
    }
    entries := FilterMap(rows, EntryStep(log, dayFirst));
    FieldOutcomeSteps(log, dayFirst);
  }

  /** The four stages of the clean-up, composed one row at a time. */
  lemma FieldOutcomeSteps(log: FieldLog, dayFirst: string -> Option<CivilDate>)
    ensures FilterMap(FilterMap(FilterMap(FilterMap(log.rows, DateStep(log, dayFirst)), TechStep(log, |TechColumns|)),
                                StaffStep(log)), EntryStep(log, dayFirst))
         == FilterMap(log.rows, FieldOutcome(log, dayFirst))
  {
    var f1 := DateStep(log, dayFirst);
    var f2 := Then(f1, TechStep(log, |TechColumns|));
    var f3 := Then(f2, StaffStep(log));
    FilterMapThen(log.rows, f1, TechStep(log, |TechColumns|));
    FilterMapThen(log.rows, f2, StaffStep(log));
    FilterMapThen(log.rows, f3, EntryStep(log, dayFirst));
  }

  /** Both rounds of the technician loop. */
  lemma NormalizedTechsAll(log: FieldLog, r: FieldRow)
    ensures NormalizedTechs(log, r, |TechColumns|) ==
      r.(tech1 := if log.hasTech1 then Text(NormalizePersonelName(r.tech1)) else r.tech1,
         tech2 := if log.hasTech2 then Text(NormalizePersonelName(r.tech2)) else r.tech2)
  {
    assert TechColumns[0] == Tech1 && TechColumns[1] == Tech2;
    assert NormalizedTechs(log, r, 0) == r;
    var p := NormalizedTechs(log, r, 1);
    assert HasTech(log, Tech1) == log.hasTech1;
    assert p == if log.hasTech1 then NormalizeTech(r, Tech1) else r;
  }

  /** Whether the clean-up keeps a row: its date is not a text of blanks
      (with a `Tarih` column) and its first technician's normalised name is
      not empty (with a `Teknisyen 1` column). */
  predicate FieldKept(log: FieldLog, r: FieldRow)
  {
    (!log.hasDate || !(r.date.Raw? && Strip(r.date.s) == [])) &&
    (!log.hasTech1 || NormalizePersonelName(r.tech1) != "")
  }

  /** What the clean-up makes of one row: the rows it keeps, their parsed
      date, normalised technicians and untouched other cells, the year and
      month of a parsed date, and the status of the cleaned row. */
  lemma FieldOutcomeRow(log: FieldLog, dayFirst: string -> Option<CivilDate>, r: FieldRow)
    ensures FieldOutcome(log, dayFirst)(r).Some? <==> FieldKept(log, r)
    ensures FieldKept(log, r) ==>
      var e := FieldOutcome(log, dayFirst)(r).value;
      e.row.date == (if log.hasDate then ParsedDate(r.date, dayFirst) else r.date) &&
      e.row.tech1 == (if log.hasTech1 then Text(NormalizePersonelName(r.tech1)) else r.tech1) &&
      e.row.tech2 == (if log.hasTech2 then Text(NormalizePersonelName(r.tech2)) else r.tech2) &&
      e.row.customer == r.customer && e.row.product == r.product && e.row.owner == r.owner &&
      e.period == (if log.hasDate && e.row.date.Stamp? then Some((e.row.date.d.year, e.row.date.d.month)) else None) &&
      e.status == SahaStatusOf(e.row, dayFirst)
  {
    var d := DateStep(log, dayFirst)(r);
    if log.hasDate {
      ThenApply(KeepDated, ParseDated(dayFirst), r);
    } else {
      KeepApply(r);
    }
    assert d.Some? <==> !log.hasDate || !(r.date.Raw? && Strip(r.date.s) == []);
    var t := Then(DateStep(log, dayFirst), TechStep(log, |TechColumns|));
    var u := Then(t, StaffStep(log));
    ThenApply(u, EntryStep(log, dayFirst), r);
    ThenApply(t, StaffStep(log), r);
    ThenApply(DateStep(log, dayFirst), TechStep(log, |TechColumns|), r);
    if d.Some? {
      var c := d.value;
      assert c == if log.hasDate then r.(date := ParsedDate(r.date, dayFirst)) else r;
      NormalizedTechsAll(log, c);
      var n := NormalizedTechs(log, c, |TechColumns|);
      assert t(r) == Some(n);
      if !log.hasTech1 {
        KeepApply(n);
      }
    }
  }

  /** Every row the clean-up keeps has its entry in the cleaned log. */
  lemma CleanFieldLogComplete(log: FieldLog, dayFirst: string -> Option<CivilDate>)
    ensures forall k :: 0 <= k < |log.rows| && FieldKept(log, log.rows[k]) ==>
      FieldOutcome(log, dayFirst)(log.rows[k]).Some? &&
      FieldOutcome(log, dayFirst)(log.rows[k]).value in FilterMap(log.rows, FieldOutcome(log, dayFirst))
  {
    var f := FieldOutcome(log, dayFirst);
    forall k | 0 <= k < |log.rows| && FieldKept(log, log.rows[k])
      ensures f(log.rows[k]).Some? && f(log.rows[k]).value in FilterMap(log.rows, f)
    {
      FieldOutcomeRow(log, dayFirst, log.rows[k]);
      FilterMapMember(log.rows, f, f(log.rows[k]).value);
    }
  }

  /** In the cleaned log no date is left as text, the technicians are
      normalised names and the first one is never empty, and each status is
      that of its cleaned row. */
  lemma CleanFieldLogEntries(log: FieldLog, dayFirst: string -> Option<CivilDate>)
    ensures forall e: FieldEntry :: e in FilterMap(log.rows, FieldOutcome(log, dayFirst)) ==>
      (log.hasDate ==> !e.row.date.Raw?) &&
      (log.hasTech1 ==> e.row.tech1.Text? && e.row.tech1.s != [] &&
                        NormalizePersonelName(e.row.tech1) == e.row.tech1.s) &&
      (log.hasTech2 ==> e.row.tech2.Text? && NormalizePersonelName(e.row.tech2) == e.row.tech2.s) &&
      e.status == SahaStatusOf(e.row, dayFirst)
  {
    var f := FieldOutcome(log, dayFirst);
    forall e: FieldEntry | e in FilterMap(log.rows, f)
      ensures log.hasDate ==> !e.row.date.Raw?
      ensures log.hasTech1 ==> e.row.tech1.Text? && e.row.tech1.s != [] &&
                               NormalizePersonelName(e.row.tech1) == e.row.tech1.s
      ensures log.hasTech2 ==> e.row.tech2.Text? && NormalizePersonelName(e.row.tech2) == e.row.tech2.s
      ensures e.status == SahaStatusOf(e.row, dayFirst)
    {
      FilterMapMember(log.rows, f, e);
      var k :| 0 <= k < |log.rows| && f(log.rows[k]) == Some(e);
      EntryShape(log, dayFirst, log.rows[k]);
    }
  }

  lemma EntryShape(log: FieldLog, dayFirst: string -> Option<CivilDate>, r: FieldRow)
    requires FieldOutcome(log, dayFirst)(r).Some?
    ensures var e := FieldOutcome(log, dayFirst)(r).value;
      (log.hasDate ==> !e.row.date.Raw?) &&
      (log.hasTech1 ==> e.row.tech1.Text? && e.row.tech1.s != [] &&
                        NormalizePersonelName(e.row.tech1) == e.row.tech1.s) &&
      (log.hasTech2 ==> e.row.tech2.Text? && NormalizePersonelName(e.row.tech2) == e.row.tech2.s) &&
      e.status == SahaStatusOf(e.row, dayFirst)
  {
    FieldOutcomeRow(log, dayFirst, r);
    var e := FieldOutcome(log, dayFirst)(r).value;
    assert FieldKept(log, r);
    if log.hasDate {
      ParsedDateNotRaw(r.date, dayFirst);
    }
    if log.hasTech1 {
      assert e.row.tech1 == Text(NormalizePersonelName(r.tech1));
      NormalizePersonelNameIdempotent(r.tech1);
    }
    if log.hasTech2 {
      assert e.row.tech2 == Text(NormalizePersonelName(r.tech2));
      NormalizePersonelNameIdempotent(r.tech2);
    }
  }

  lemma ParsedDateNotRaw(t: SahaDate, dayFirst: string -> Option<CivilDate>)
    ensures !ParsedDate(t, dayFirst).Raw?
  {
  }
}
