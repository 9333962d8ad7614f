/** The validation report of a sheet: required fields left blank, dates not in
    `DD.MM.YYYY`, and amounts that do not read as numbers, one error per
    offending cell. */
module Validator {
  import opened Prelude
  import opened Civil

  /** A frame row: its index label and its cells by column name. */
  datatype Row = Row(index: int, cells: map<string, Cell>)

  /** A frame: its column names and its rows. */
  datatype Frame = Frame(columns: seq<string>, rows: seq<Row>)

  /** The cell of `r` in column `col`. */
  function Get(r: Row, col: string): Cell
  {
    if col in r.cells then r.cells[col] else Blank
  }

  /** One line of the error report: `Satir_No`, `Sutun`, `Hata`, `Deger`. */
  datatype Error = Error(rowNo: int, column: string, reason: string, value: string)

  /** The three checks, in the order they run. */
  datatype Check = Required | DateFormat | Numeric

  const RequiredReason := "Zorunlu alan boş"
  const DateReason := "Geçersiz tarih formatı (Beklenen: GG.AA.YYYY)"
  const NumericReason := "Sayısal değer bekleniyor"

  function Reason(k: Check): string
  {
    match k
    case Required => RequiredReason
    case DateFormat => DateReason
    case Numeric => NumericReason
  }

  // ---------------------------------------------------------------------------
  // `is_clean_number`
  // ---------------------------------------------------------------------------

  /** `"".join(c for c in s if c.isdigit() or c == '.')` */
  function KeepNumeric(s: string): (r: string)
    ensures forall i :: 0 <= i < |r| ==> IsDigit(r[i]) || r[i] == '.'
  {
    if s == [] then []
    else (if IsDigit(s[0]) || s[0] == '.' then [s[0]] else []) + KeepNumeric(s[1..])
  }

  /** The text `is_clean_number` hands to `float`: the first space-delimited
      token of the stripped text, thousands dots deleted, the decimal comma
      turned into a dot, everything but digits and dots dropped. */
  function NumberText(s: string): string
  {
    KeepNumeric(ReplaceChar(RemoveChar(FirstToken(Strip(s)), '.'), ',', '.'))
  }

  /** `is_clean_number`: NA and blank text pass, everything else must leave
      a text `float` accepts. */
  predicate IsCleanNumber(c: Cell)
  {
    match c
    case Blank => true
    case Text(s) => Strip(s) == [] || ParseDecimal(NumberText(s)).Some?
  }

  lemma HasDigitCons(c: char, t: string)
    ensures HasDigit([c] + t) <==> IsDigit(c) || HasDigit(t)
  {
    var s := [c] + t;
    if HasDigit(s) {
      var i :| 0 <= i < |s| && IsDigit(s[i]);
      if i > 0 { assert t[i - 1] == s[i]; }
    }
    if HasDigit(t) {
      var i :| 0 <= i < |t| && IsDigit(t[i]);
      assert s[i + 1] == t[i];
    }
    if IsDigit(c) {
      assert s[0] == c;
    }
  }

  lemma {:induction false} RemoveDotsKeeps(s: string)
    ensures CountChar(RemoveChar(s, '.'), ',') == CountChar(s, ',')
    ensures HasDigit(RemoveChar(s, '.')) <==> HasDigit(s)
  {
    if s != [] {
      RemoveDotsKeeps(s[1..]);
      assert s == [s[0]] + s[1..];
      HasDigitCons(s[0], s[1..]);
      if s[0] != '.' {
        HasDigitCons(s[0], RemoveChar(s[1..], '.'));
      }
    }
  }

  lemma CommaToDot(t: string)
    requires '.' !in t
    ensures CountChar(ReplaceChar(t, ',', '.'), '.') == CountChar(t, ',')
    ensures HasDigit(ReplaceChar(t, ',', '.')) <==> HasDigit(t)
  {
    CommaToDotCount(t);
    var r := ReplaceChar(t, ',', '.');
    assert forall i :: 0 <= i < |t| ==> (IsDigit(r[i]) <==> IsDigit(t[i]));
  }

  lemma {:induction false} CommaToDotCount(t: string)
    requires '.' !in t
    ensures CountChar(ReplaceChar(t, ',', '.'), '.') == CountChar(t, ',')
  {
    if t != [] {
      var u := t[1..];
      assert '.' !in u by {
        assert forall i :: 0 <= i < |u| ==> u[i] == t[i + 1];
      }
      CommaToDotCount(u);
      var r := ReplaceChar(t, ',', '.');
      assert r[1..] == ReplaceChar(u, ',', '.');
    }
  }

  lemma {:induction false} KeepNumericKeeps(u: string)
    ensures CountChar(KeepNumeric(u), '.') == CountChar(u, '.')
    ensures HasDigit(KeepNumeric(u)) <==> HasDigit(u)
  {
    if u != [] {
      var rest := KeepNumeric(u[1..]);
      KeepNumericKeeps(u[1..]);
      assert u == [u[0]] + u[1..];
      HasDigitCons(u[0], u[1..]);
      if IsDigit(u[0]) || u[0] == '.' {
        assert KeepNumeric(u) == [u[0]] + rest;
        assert ([u[0]] + rest)[1..] == rest;
        HasDigitCons(u[0], rest);
      } else {
        assert KeepNumeric(u) == rest;
      }
    }
  }

  /** A non-blank text passes exactly when its first token holds a digit and
      at most one comma: dots are taken as thousands separators and every
      other character is ignored. */
  lemma CleanNumberIff(s: string)
    requires Strip(s) != []
    ensures IsCleanNumber(Text(s)) <==>
      HasDigit(FirstToken(Strip(s))) && CountChar(FirstToken(Strip(s)), ',') <= 1
  {
    var t0 := FirstToken(Strip(s));
    var t1 := RemoveChar(t0, '.');
    var t2 := ReplaceChar(t1, ',', '.');
    RemoveDotsKeeps(t0);
    CommaToDot(t1);
    KeepNumericKeeps(t2);
    ParseDecimalSucceeds(KeepNumeric(t2));
  }

  // ---------------------------------------------------------------------------
  // The three checks on one cell
  // ---------------------------------------------------------------------------

  /** `pd.to_datetime(cell, format='%d.%m.%Y', errors='coerce')`; NA is NaT. */
  function CellDate(c: Cell): Option<Date>
  {
    match c
    case Blank => None
    case Text(s) => ParseDmy(s)
  }

  /** Whether check `k` flags cell `c`. */
  predicate Flagged(k: Check, c: Cell)
  {
    match k
    case Required => Strip(CellStr(c)) == []
    case DateFormat => Strip(CellStr(c)) != [] && CellDate(c).None?
    case Numeric => !IsCleanNumber(c)
  }

  /** NA renders as `<NA>`, so the required check flags only text that is
      blank after stripping, and the date check flags every NA cell. */
  lemma FlaggedCells(c: Cell)
    ensures Flagged(Required, c) <==> c.Text? && Strip(c.s) == []
    ensures c.Blank? ==> Flagged(DateFormat, c) && !Flagged(Numeric, c)
    ensures c.Text? ==> (Flagged(DateFormat, c) <==> Strip(c.s) != [] && ParseDmy(c.s).None?)
    ensures Flagged(Required, c) ==> !Flagged(DateFormat, c) && !Flagged(Numeric, c)
  {
    if c.Blank? {
      FlaggedBlank();
    }
  }

  lemma FlaggedBlank()
    ensures !Flagged(Required, Blank) && Flagged(DateFormat, Blank) && !Flagged(Numeric, Blank)
  {
    assert CleanEnds("<NA>");
    StripCleanEnds("<NA>");
  }

  /** The error check `k` reports for row `r` in column `col`, if any: the
      row label plus two (header and 1-based numbering), and the value as
      `str` shows it. */
  function CellError(k: Check, col: string, r: Row): (e: Option<Error>)
    ensures e.Some? <==> Flagged(k, Get(r, col))
    ensures e.Some? ==> e.value.rowNo == r.index + 2 && e.value.column == col && e.value.reason == Reason(k)
  {
    if !Flagged(k, Get(r, col)) then None
    else
      var shown := if k == Required then "(Boş)" else CellStr(Get(r, col));
      Some(Error(r.index + 2, col, Reason(k), shown))
  }

  /** The check of one column, as a function of a row. */
  function CheckOf(k: Check, col: string): Row -> Option<Error>
  {
    r => CellError(k, col, r)
  }

  /** The errors of one column, in row order; none for a missing column. */
  function ColumnErrors(k: Check, f: Frame, col: string): seq<Error>
  {
    if col in f.columns then FilterMap(f.rows, CheckOf(k, col)) else []
  }

  /** The check of a frame, as a function of a column. */
  function ColumnsOf(k: Check, f: Frame): string -> seq<Error>
  {
    col => ColumnErrors(k, f, col)
  }

  /** The errors of one check over its columns, in column order. */
  function CheckErrors(k: Check, f: Frame, cols: seq<string>): seq<Error>
  {
    ConcatMap(cols, ColumnsOf(k, f))
  }

  lemma AppendAssoc<T>(a: seq<T>, b: seq<T>, c: seq<T>)
    ensures a + b + c == a + (b + c)
  {
  }

  lemma AppendFromEmpty<T>(a: seq<T>, b: seq<T>, c: seq<T>)
    ensures [] + a + b + c == a + b + c
  {
  }

  /** The whole report: required checks, then dates, then numbers. */
  function Report(f: Frame, required: seq<string>, dates: seq<string>, numbers: seq<string>): seq<Error>
  {
    CheckErrors(Required, f, required) + CheckErrors(DateFormat, f, dates) + CheckErrors(Numeric, f, numbers)
  }

  /** `validate_dataframe(df, required_columns, date_columns, numeric_columns)`:
      an empty frame is valid with no report; otherwise the frame is valid
      exactly when the report is empty. */
  function Validate(f: Frame, required: seq<string>, dates: seq<string>, numbers: seq<string>): (v: (bool, seq<Error>))
    ensures v.0 <==> v.1 == []
    ensures f.rows == [] || f.columns == [] ==> v == (true, [])
  {
    if f.rows == [] || f.columns == [] then (true, [])
    else
      var errors := Report(f, required, dates, numbers);
      (errors == [], errors)
  }

  // ---------------------------------------------------------------------------
  // The scan
  // ---------------------------------------------------------------------------

  /** The inner loop of `validate_dataframe`: one error appended per
      flagged row of a present column. */
  method ScanColumn(k: Check, f: Frame, col: string, errors: seq<Error>) returns (out: seq<Error>)
    ensures out == errors + ColumnErrors(k, f, col)
  {
    out := errors;
    if col in f.columns {
      var check := CheckOf(k, col);
      var j := 0;
      while j < |f.rows|
        invariant 0 <= j <= |f.rows|
        invariant out == errors + FilterMap(f.rows[..j], check)
      {
        var e := check(f.rows[j]);
        ghost var kept := if e.Some? then [e.value] else [];
        if e.Some? {
          out := out + [e.value];
        }
        FilterMapSnoc(f.rows[..j], f.rows[j], check);
        AppendAssoc(errors, FilterMap(f.rows[..j], check), kept);
        TakeSnoc(f.rows, j);
        j := j + 1;
      }
      assert f.rows[..|f.rows|] == f.rows;
    }
  }

  /** One of the three outer loops of `validate_dataframe`: the listed
      columns in order. */
  method ScanColumns(k: Check, f: Frame, cols: seq<string>, errors: seq<Error>) returns (out: seq<Error>)
    ensures out == errors + CheckErrors(k, f, cols)
  {
    out := errors;
    var i := 0;
    while i < |cols|
      invariant 0 <= i <= |cols|
      invariant out == errors + CheckErrors(k, f, cols[..i])
    {
      out := ScanColumn(k, f, cols[i], out);
      ConcatMapSnoc(cols[..i], cols[i], ColumnsOf(k, f));
      AppendAssoc(errors, CheckErrors(k, f, cols[..i]), ColumnErrors(k, f, cols[i]));
      TakeSnoc(cols, i);
      i := i + 1;
    }
    assert cols[..|cols|] == cols;
  }

  /** `validate_dataframe`, its three loops appending to one error list. */
  method ValidateDataframe(f: Frame, required: seq<string>, dates: seq<string>, numbers: seq<string>)
    returns (valid: bool, report: seq<Error>)
    ensures (valid, report) == Validate(f, required, dates, numbers)
  {
    if f.rows == [] || f.columns == [] {
      return true, [];
    }
    var errors: seq<Error> := [];
    errors := ScanColumns(Required, f, required, errors);
    errors := ScanColumns(DateFormat, f, dates, errors);
    errors := ScanColumns(Numeric, f, numbers, errors);
    AppendFromEmpty(CheckErrors(Required, f, required), CheckErrors(DateFormat, f, dates), CheckErrors(Numeric, f, numbers));
    if |errors| > 0 {
      return false, errors;
    }
    return true, [];
  }

  // ---------------------------------------------------------------------------
  // What the report says
  // ---------------------------------------------------------------------------

  /** The errors of a present column are exactly its flagged rows, in row
      order, each naming the row, the column and the check. */
  lemma ColumnErrorsRows(k: Check, f: Frame, col: string) returns (idx: seq<nat>)
    requires col in f.columns
    ensures |idx| == |ColumnErrors(k, f, col)|
    ensures forall i :: 0 <= i < |idx| ==> idx[i] < |f.rows| && CellError(k, col, f.rows[idx[i]]) == Some(ColumnErrors(k, f, col)[i])
    ensures forall i, j :: 0 <= i < j < |idx| ==> idx[i] < idx[j]
    ensures forall j :: 0 <= j < |f.rows| && Flagged(k, Get(f.rows[j], col)) ==> j in idx
  {
    var found := FilterMapIndices(f.rows, CheckOf(k, col));
    idx := found;
    assert ColumnErrors(k, f, col) == FilterMap(f.rows, CheckOf(k, col));
    assert forall r :: CheckOf(k, col)(r) == CellError(k, col, r);
  }

  /** Column `col` is missing or none of its rows is flagged by `k`. */
  predicate ColumnClean(k: Check, f: Frame, col: string)
  {
    col !in f.columns || forall j :: 0 <= j < |f.rows| ==> !Flagged(k, Get(f.rows[j], col))
  }

  /** A check reports nothing exactly when none of its present columns has a
      flagged row. */
  predicate Clean(k: Check, f: Frame, cols: seq<string>)
  {
    forall i :: 0 <= i < |cols| ==> ColumnClean(k, f, cols[i])
  }

  lemma ColumnErrorsEmpty(k: Check, f: Frame, col: string)
    ensures ColumnErrors(k, f, col) == [] <==> ColumnClean(k, f, col)
  {
    if col in f.columns {
      FilterMapEmpty(f.rows, CheckOf(k, col));
      assert ColumnErrors(k, f, col) == FilterMap(f.rows, CheckOf(k, col));
      assert forall r :: CheckOf(k, col)(r) == CellError(k, col, r);
    }
  }

  lemma CheckErrorsEmpty(k: Check, f: Frame, cols: seq<string>)
    ensures CheckErrors(k, f, cols) == [] <==> Clean(k, f, cols)
  {
    ConcatMapEmpty(cols, ColumnsOf(k, f));
    forall i | 0 <= i < |cols|
      ensures ColumnsOf(k, f)(cols[i]) == [] <==> ColumnClean(k, f, cols[i])
    {
      ColumnErrorsEmpty(k, f, cols[i]);
    }
  }

  /** The verdict: a non-empty frame is valid exactly when no required
      column has a blank text, no date column an unreadable value and no
      numeric column a non-number. */
  lemma ValidateVerdict(f: Frame, required: seq<string>, dates: seq<string>, numbers: seq<string>)
    ensures Validate(f, required, dates, numbers).0 <==>
      f.rows == [] || f.columns == [] ||
      (Clean(Required, f, required) && Clean(DateFormat, f, dates) && Clean(Numeric, f, numbers))
  {
    CheckErrorsEmpty(Required, f, required);
    CheckErrorsEmpty(DateFormat, f, dates);
    CheckErrorsEmpty(Numeric, f, numbers);
  }

  /** Every error of a check carries that check's reason. */
  lemma CheckErrorsReason(k: Check, f: Frame, cols: seq<string>)
    ensures forall e :: e in CheckErrors(k, f, cols) ==> e.reason == Reason(k)
  {
    forall e | e in CheckErrors(k, f, cols)
      ensures e.reason == Reason(k)
    {
      ConcatMapMember(cols, ColumnsOf(k, f), e);
      var i :| 0 <= i < |cols| && e in ColumnErrors(k, f, cols[i]);
      var idx := ColumnErrorsRows(k, f, cols[i]);
    }
  }

  /** The position of a reason in the report's order. */
  function ReasonRank(reason: string): nat
  {
    if reason == RequiredReason then 0 else if reason == DateReason then 1 else 2
  }

  /** Three runs of errors, one reason each, concatenated in check order. */
  lemma SectionsOrdered(a: seq<Error>, b: seq<Error>, c: seq<Error>)
    requires forall e :: e in a ==> e.reason == RequiredReason
    requires forall e :: e in b ==> e.reason == DateReason
    requires forall e :: e in c ==> e.reason == NumericReason
    ensures forall i, j :: 0 <= i < j < |a + b + c| ==> ReasonRank((a + b + c)[i].reason) <= ReasonRank((a + b + c)[j].reason)
  {
    assert |RequiredReason| != |DateReason| && |RequiredReason| != |NumericReason| && |DateReason| != |NumericReason|;
    var r := a + b + c;
    forall i | 0 <= i < |r|
      ensures ReasonRank(r[i].reason) == if i < |a| then 0 else if i < |a| + |b| then 1 else 2
    {
      if i < |a| { assert r[i] in a; }
      else if i < |a| + |b| { assert r[i] == b[i - |a|]; assert r[i] in b; }
      else { assert r[i] == c[i - |a| - |b|]; assert r[i] in c; }
    }
  }

  /** Required-field errors come first, then date errors, then numeric ones. */
  lemma ReportOrdered(f: Frame, required: seq<string>, dates: seq<string>, numbers: seq<string>)
    ensures var r := Report(f, required, dates, numbers);
      forall i, j :: 0 <= i < j < |r| ==> ReasonRank(r[i].reason) <= ReasonRank(r[j].reason)
  {
    CheckErrorsReason(Required, f, required);
    CheckErrorsReason(DateFormat, f, dates);
    CheckErrorsReason(Numeric, f, numbers);
    SectionsOrdered(CheckErrors(Required, f, required), CheckErrors(DateFormat, f, dates), CheckErrors(Numeric, f, numbers));
  }
}
