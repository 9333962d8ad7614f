/** The frame transformations of the dashboard: the finance pipeline shared by
    quotes and orders, revision roots and the latest-revision filter, the CRM
    segmentation, the field-personnel name normaliser and the field-log status
    rule. */
module Transforms {
  import opened Prelude
  import opened Civil
  import opened Utils

  // ---------------------------------------------------------------------------
  // Revision numbers: `parse_revision`
  // ---------------------------------------------------------------------------

  /** `[\s\-]`: whitespace or a hyphen between a root and its revision tag. */
  predicate RevSep(c: char)
  {
    IsSpace(c) || c == '-'
  }

  /** The text after the longest run of separators at its head. */
  function SkipSeps(t: string): (r: string)
    ensures |r| <= |t| && r == t[|t| - |r|..]
    ensures r == [] || !RevSep(r[0])
  {
    if t != [] && RevSep(t[0]) then SkipSeps(t[1..]) else t
  }

  /** `(?:R|REV)(\d+)` matched against the whole of `u`, `R` tried first. */
  function RevisionTag(u: string): (r: Option<nat>)
  {
    if |u| >= 2 && u[0] == 'R' && AllDigits(u[1..]) then Some(DigitsValue(u[1..]))
    else if |u| >= 4 && u[0] == 'R' && u[1] == 'E' && u[2] == 'V' && AllDigits(u[3..]) then Some(DigitsValue(u[3..]))
    else None
  }

  /** Whether the whole of `t` matches `[\s\-]*(?:R|REV)(\d+)`, and the number.
      The separator run cannot end early, since the tag does not start with a
      separator. */
  function RevisionSuffix(t: string): (r: Option<nat>)
  {
    RevisionTag(SkipSeps(t))
  }

  /** The lazy group `^(.*?)` of the revision pattern: the first cut point at or
      after `i` whose suffix matches, where the group (which cannot hold a line
      break) may only grow while it meets no newline. */
  function FindRevision(val: string, i: nat): (r: Option<(nat, nat)>)
    requires i <= |val|
    ensures r.Some? ==> i <= r.value.0 <= |val| && RevisionSuffix(val[r.value.0..]) == Some(r.value.1)
    decreases |val| - i
  {
    var m := RevisionSuffix(val[i..]);
    if m.Some? then Some((i, m.value))
    else if i < |val| && val[i] != '\n' then FindRevision(val, i + 1)
    else None
  }

  /** The search walks past cut points whose suffix does not match and that
      are not newlines. */
  lemma {:induction false} FindRevisionSkip(val: string, i: nat, m: nat)
    requires i <= m <= |val|
    requires forall j :: i <= j < m ==> RevisionSuffix(val[j..]).None? && val[j] != '\n'
    ensures FindRevision(val, i) == FindRevision(val, m)
    decreases m - i
  {
    if i < m {
      var none := RevisionSuffix(val[i..]).None? && val[i] != '\n';
      assert none;
      assert FindRevision(val, i) == FindRevision(val, i + 1);
      FindRevisionSkip(val, i + 1, m);
    }
  }

  /** The cut the search returns is the leftmost matching one: no earlier cut
      matches and the group before it holds no newline. */
  lemma FindRevisionLeftmost(val: string, i: nat)
    requires i <= |val|
    ensures FindRevision(val, i).Some? ==>
      forall j :: i <= j < FindRevision(val, i).value.0 ==>
        RevisionSuffix(val[j..]).None? && val[j] != '\n'
  {
    if FindRevision(val, i).Some? {
      forall j | i <= j < FindRevision(val, i).value.0
        ensures RevisionSuffix(val[j..]).None? && val[j] != '\n'
      {
        FindRevisionPassed(val, i, j);
      }
    }
  }

  /** One cut point before the returned one. */
  lemma {:induction false} FindRevisionPassed(val: string, i: nat, j: nat)
    requires i <= j <= |val| && FindRevision(val, i).Some? && j < FindRevision(val, i).value.0
    ensures RevisionSuffix(val[j..]).None? && val[j] != '\n'
    decreases j - i
  {
    assert RevisionSuffix(val[i..]).None? && i < |val| && val[i] != '\n';
    if i < j {
      assert FindRevision(val, i) == FindRevision(val, i + 1);
      FindRevisionPassed(val, i + 1, j);
    }
  }

  /** `parse_revision(val)` on the trimmed, upper-cased number: `(val, -1)` for
      the empty text; `(root, n)` when the text ends in a revision tag `Rn` or
      `REVn` after a non-blank root; `(val, 0)` otherwise. */
  function ParseRevision(val: string): (p: (string, int))
    ensures p.1 == -1 <==> val == []
    ensures val != [] ==> p.0 != [] && p.1 >= 0
    ensures p.0 != val ==> var r := FindRevision(val, 0);
      r.Some? && 0 < r.value.0 < |val| && p == (Strip(val[..r.value.0]), r.value.1 as int)
  {
    if val == [] then (val, -1 as int)
    else
      match FindRevision(val, 0)
      case Some((i, n)) =>
        var root := Strip(val[..i]);
        if root == [] then (val, 0)
        else
          assert 0 < i;
          NoEmptyRevision(val);
          assert i < |val|;
          (root, n)
      case None => (val, 0)
  }

  lemma NoEmptyRevision(val: string)
    ensures RevisionSuffix(val[|val|..]).None?
  {
    var e := val[|val|..];
    assert |e| == 0;
    assert |SkipSeps(e)| == 0;
  }

  /** When the root differs from the text, the text splits at the leftmost
      cut whose suffix is a revision tag: the root is the stripped text before
      the cut and the revision is the tag's number. */
  lemma ParseRevisionSplit(val: string) returns (i: nat)
    requires ParseRevision(val).0 != val
    ensures 0 < i < |val| && ParseRevision(val).0 == Strip(val[..i])
    ensures RevisionSuffix(val[i..]).Some? && RevisionSuffix(val[i..]).value == ParseRevision(val).1
    ensures forall j :: 0 <= j < i ==> RevisionSuffix(val[j..]).None? && val[j] != '\n'
  {
    var p := ParseRevision(val);
    var r := FindRevision(val, 0);
    assert r.Some? && 0 < r.value.0 < |val| && p == (Strip(val[..r.value.0]), r.value.1 as int);
    FindRevisionLeftmost(val, 0);
    i := r.value.0;
  }

  /** A tag `R` and its digits, after separators, match the revision
      pattern. */
  lemma TaggedSuffixR(sep: string, n: string)
    requires forall k :: 0 <= k < |sep| ==> RevSep(sep[k])
    requires n != [] && AllDigits(n)
    ensures RevisionSuffix(sep + ['R'] + n) == Some(DigitsValue(n))
  {
    var u := ['R'] + n;
    assert sep + ['R'] + n == sep + u;
    SkipSepsOver(sep, u);
    assert u[1..] == n;
  }

  /** So do a tag `REV` and its digits. */
  lemma TaggedSuffixRev(sep: string, n: string)
    requires forall k :: 0 <= k < |sep| ==> RevSep(sep[k])
    requires n != [] && AllDigits(n)
    ensures RevisionSuffix(sep + ['R', 'E', 'V'] + n) == Some(DigitsValue(n))
  {
    var u := ['R', 'E', 'V'] + n;
    assert sep + ['R', 'E', 'V'] + n == sep + u;
    SkipSepsOver(sep, u);
    RevTag(n);
  }

  lemma RevTag(n: string)
    requires n != [] && AllDigits(n)
    ensures RevisionTag(['R', 'E', 'V'] + n) == Some(DigitsValue(n))
  {
    var u := ['R', 'E', 'V'] + n;
    assert !IsDigit(u[1]);
    assert u[3..] == n;
  }

  /** A number made of digits followed by a revision suffix (`1234R1`,
      `1234 R2`, `1234-REV3`, by the two lemmas above) splits into the digits
      and the revision. */
  lemma ParseRevisionTagged(d: string, t: string, v: nat)
    requires d != [] && AllDigits(d)
    requires RevisionSuffix(t) == Some(v)
    ensures ParseRevision(d + t) == (d, v as int)
  {
    var val := d + t;
    assert val[|d|..] == t;
    assert val[..|d|] == d;
    ParseRevisionDigitsRoot(val, |d|, v);
  }

  /** A matching cut right after a run of leading digits is the one found. */
  lemma FindRevisionAt(val: string, m: nat, v: nat)
    requires m <= |val| && AllDigits(val[..m]) && RevisionSuffix(val[m..]) == Some(v)
    ensures FindRevision(val, 0) == Some((m, v))
  {
    DigitHeadsNoRevision(val, m);
    FindRevisionSkip(val, 0, m);
    var x := FindRevision(val, m);
    assert x == Some((m, v));
  }

  lemma ParseRevisionDigitsRoot(val: string, m: nat, v: nat)
    requires 0 < m <= |val| && AllDigits(val[..m]) && RevisionSuffix(val[m..]) == Some(v)
    ensures ParseRevision(val) == (val[..m], v as int)
  {
    DigitsHaveCleanEnds(val, m);
    FindRevisionAt(val, m, v);
    ParseRevisionCut(val, m, v);
  }

  lemma DigitsHaveCleanEnds(val: string, m: nat)
    requires 0 < m <= |val| && AllDigits(val[..m])
    ensures !IsSpace(val[0]) && !IsSpace(val[m - 1])
  {
    assert IsDigit(val[..m][0]) && IsDigit(val[..m][m - 1]);
  }

  /** A found cut after a clean non-empty root gives that root. */
  lemma ParseRevisionCut(val: string, m: nat, v: nat)
    requires 0 < m <= |val| && FindRevision(val, 0) == Some((m, v))
    requires !IsSpace(val[0]) && !IsSpace(val[m - 1])
    ensures ParseRevision(val) == (val[..m], v as int)
  {
    StripClean(val[..m]);
  }

  /** A number without a revision tag is its own root, at revision 0. */
  lemma ParseRevisionPlain(d: string)
    requires d != [] && AllDigits(d)
    ensures ParseRevision(d) == (d, 0)
  {
    assert d[..|d|] == d;
    DigitHeadsNoRevision(d, |d|);
    FindRevisionSkip(d, 0, |d|);
    assert d[|d|..] == [];
    var none := RevisionSuffix(d[|d|..]).None?;
    assert none;
    assert FindRevision(d, 0).None?;
  }

  lemma {:induction false} SkipSepsOver(sep: string, u: string)
    requires forall k :: 0 <= k < |sep| ==> RevSep(sep[k])
    requires u == [] || !RevSep(u[0])
    ensures SkipSeps(sep + u) == u
  {
    if sep != [] {
      assert (sep + u)[1..] == sep[1..] + u;
      SkipSepsOver(sep[1..], u);
    }
  }

  /** No cut point inside a run of leading digits matches the revision
      pattern or is a newline. */
  lemma DigitHeadsNoRevision(val: string, m: nat)
    requires m <= |val| && AllDigits(val[..m])
    ensures forall j :: 0 <= j < m ==> RevisionSuffix(val[j..]).None? && val[j] != '\n'
  {
    forall j | 0 <= j < m ensures RevisionSuffix(val[j..]).None? && val[j] != '\n' {
      assert val[j] == val[..m][j];
      DigitHeadNoRevision(val[j..]);
    }
  }

  /** A text that starts with a digit is not a revision tag: a digit is
      neither a separator nor the tag's `R`. */
  lemma DigitHeadNoRevision(t: string)
    requires t != [] && IsDigit(t[0])
    ensures RevisionSuffix(t).None? && t[0] != '\n'
  {
    assert !RevSep(t[0]);
    assert SkipSeps(t) == t;
  }

  // ---------------------------------------------------------------------------
  // `filter_latest_revisions`
  // ---------------------------------------------------------------------------

  /** The root and revision of a row's number: `astype(str).strip().upper()`
      then `parse_revision`. */
  function RevisionOf<T>(key: T -> Cell, x: T): (string, int)
  {
    ParseRevision(Upper(Strip(CellStr(key(x)))))
  }

  function Revisions<T>(key: T -> Cell, rows: seq<T>): (revs: seq<(string, int)>)
    ensures |revs| == |rows|
    ensures forall i :: 0 <= i < |rows| ==> revs[i] == RevisionOf(key, rows[i])
  {
    seq(|rows|, i requires 0 <= i < |rows| => RevisionOf(key, rows[i]))
  }

  function Roots(revs: seq<(string, int)>): (rs: seq<string>)
    ensures |rs| == |revs|
    ensures forall i :: 0 <= i < |revs| ==> rs[i] == revs[i].0
  {
    seq(|revs|, i requires 0 <= i < |revs| => revs[i].0)
  }

  /** Among the first `n` rows, the one a sort on (root ascending, revision
      descending) followed by `drop_duplicates(keep="first")` keeps for
      `root`: the highest revision, the earliest row among equals. */
  function BestIndex(revs: seq<(string, int)>, root: string, n: nat): (b: Option<nat>)
    requires n <= |revs|
    ensures b.None? <==> forall k :: 0 <= k < n ==> revs[k].0 != root
    ensures b.Some? ==> b.value < n && revs[b.value].0 == root
    ensures b.Some? ==> forall k :: 0 <= k < n && revs[k].0 == root ==>
      revs[k].1 < revs[b.value].1 || (revs[k].1 == revs[b.value].1 && b.value <= k)
  {
    if n == 0 then None
    else
      var b := BestIndex(revs, root, n - 1);
      if revs[n - 1].0 != root then b
      else if b.None? || revs[n - 1].1 > revs[b.value].1 then Some(n - 1)
      else b
  }

  /** The kept row of each root, in the order of the roots. */
  function BestIndices(revs: seq<(string, int)>, roots: seq<string>): (idx: seq<nat>)
    requires forall j :: 0 <= j < |roots| ==> roots[j] in Roots(revs)
    ensures |idx| == |roots|
    ensures forall j :: 0 <= j < |roots| ==>
      idx[j] < |revs| && BestIndex(revs, roots[j], |revs|) == Some(idx[j])
  {
    if roots == [] then []
    else
      var b := BestIndex(revs, roots[0], |revs|);
      assert b.Some? by {
        assert roots[0] in Roots(revs);
        var k :| 0 <= k < |Roots(revs)| && Roots(revs)[k] == roots[0];
        assert revs[k].0 == roots[0];
      }
      [b.value] + BestIndices(revs, roots[1..])
  }

  /** The kept rows: one per distinct root, in ascending root order. */
  function LatestIndices(revs: seq<(string, int)>): (idx: seq<nat>)
    ensures |idx| == |SortDistinct(Roots(revs))|
    ensures forall j :: 0 <= j < |idx| ==>
      idx[j] < |revs| && BestIndex(revs, SortDistinct(Roots(revs))[j], |revs|) == Some(idx[j])
  {
    var rs := SortDistinct(Roots(revs));
    assert forall j :: 0 <= j < |rs| ==> rs[j] in Roots(revs) by {
      forall j | 0 <= j < |rs| ensures rs[j] in Roots(revs) {
        assert rs[j] in Elems(rs);
      }
    }
    BestIndices(revs, rs)
  }

  /** The rows at the given positions, in the order of the positions. */
  function AtPositions<T>(rows: seq<T>, idx: seq<nat>): (out: seq<T>)
    requires forall j :: 0 <= j < |idx| ==> idx[j] < |rows|
    ensures |out| == |idx| && forall j :: 0 <= j < |idx| ==> out[j] == rows[idx[j]]
  {
    if idx == [] then [] else [rows[idx[0]]] + AtPositions(rows, idx[1..])
  }

  /** `filter_latest_revisions(df, col)`: an empty frame or one without the
      column comes back as it is; otherwise one row per revision root, in
      ascending root order (`df.loc` on the kept index labels). */
  function LatestRevisions<T>(key: T -> Cell, hasColumn: bool, rows: seq<T>): (out: seq<T>)
  {
    if rows == [] || !hasColumn then rows
    else
      AtPositions(rows, LatestIndices(Revisions(key, rows)))
  }

  /** Every kept row is an input row: the `j`-th is the input row at
      `LatestIndices(...)[j]`. */
  lemma LatestRevisionsKept<T>(key: T -> Cell, rows: seq<T>)
    requires rows != []
    ensures var out := LatestRevisions(key, true, rows);
      var idx := LatestIndices(Revisions(key, rows));
      |out| == |idx| && forall j :: 0 <= j < |out| ==> idx[j] < |rows| && out[j] == rows[idx[j]]
  {
  }

  /** One row per root: the roots of the kept rows are strictly ascending and
      are exactly the roots of the input rows. */
  lemma LatestRevisionsRoots<T>(key: T -> Cell, rows: seq<T>)
    requires rows != []
    ensures var out := LatestRevisions(key, true, rows);
      StrictlySorted(Roots(Revisions(key, out)))
      && Elems(Roots(Revisions(key, out))) == Elems(Roots(Revisions(key, rows)))
  {
    var out := LatestRevisions(key, true, rows);
    LatestRootsAreSorted(key, rows);
    assert Roots(Revisions(key, out)) == SortDistinct(Roots(Revisions(key, rows)));
  }

  /** The roots of the kept rows, in order, are the sorted distinct roots. */
  lemma LatestRootsAreSorted<T>(key: T -> Cell, rows: seq<T>)
    requires rows != []
    ensures Roots(Revisions(key, LatestRevisions(key, true, rows))) == SortDistinct(Roots(Revisions(key, rows)))
  {
    var revs := Revisions(key, rows);
    var out := LatestRevisions(key, true, rows);
    var rs := SortDistinct(Roots(revs));
    var idx := LatestIndices(revs);
    LatestRevisionsKept(key, rows);
    var outRoots := Roots(Revisions(key, out));
    forall j | 0 <= j < |rs| ensures outRoots[j] == rs[j] {
      assert outRoots[j] == RevisionOf(key, out[j]).0;
      assert out[j] == rows[idx[j]];
      assert RevisionOf(key, rows[idx[j]]) == revs[idx[j]];
      assert BestIndex(revs, rs[j], |revs|) == Some(idx[j]);
    }
  }

  lemma StrictlySortedInjective(rs: seq<string>, a: nat, b: nat)
    requires StrictlySorted(rs) && a < |rs| && b < |rs| && rs[a] == rs[b]
    ensures a == b
  {
    if a < b {
      assert StrLt(rs[a], rs[b]);
      StrLtIrreflexive(rs[a]);
    } else if b < a {
      assert StrLt(rs[b], rs[a]);
      StrLtIrreflexive(rs[a]);
    }
  }

  /** The kept row of a root carries its highest revision, and no earlier
      input row has that root and revision. */
  lemma LatestRevisionsNewest<T>(key: T -> Cell, rows: seq<T>, j: nat, k: nat)
    requires rows != []
    requires j < |LatestRevisions(key, true, rows)| && k < |rows|
    requires RevisionOf(key, rows[k]).0 == RevisionOf(key, LatestRevisions(key, true, rows)[j]).0
    ensures RevisionOf(key, rows[k]).1 <= RevisionOf(key, LatestRevisions(key, true, rows)[j]).1
    ensures RevisionOf(key, rows[k]).1 == RevisionOf(key, LatestRevisions(key, true, rows)[j]).1 ==>
      LatestIndices(Revisions(key, rows))[j] <= k
  {
    var revs := Revisions(key, rows);
    var rs := SortDistinct(Roots(revs));
    var idx := LatestIndices(revs);
    assert LatestRevisions(key, true, rows)[j] == rows[idx[j]];
    assert BestIndex(revs, rs[j], |revs|) == Some(idx[j]);
  }

  /** Filtering twice keeps what filtering once kept. */
  lemma LatestRevisionsIdempotent<T>(key: T -> Cell, hasColumn: bool, rows: seq<T>)
    ensures LatestRevisions(key, hasColumn, LatestRevisions(key, hasColumn, rows))
         == LatestRevisions(key, hasColumn, rows)
  {
    if rows != [] && hasColumn {
      var out := LatestRevisions(key, true, rows);
      LatestIndicesOfKept(key, rows);
      var idx2 := LatestIndices(Revisions(key, out));
      var again := LatestRevisions(key, true, out);
      assert |again| == |out|;
      forall j | 0 <= j < |out| ensures again[j] == out[j] {
        assert again[j] == out[idx2[j]];
      }
    }
  }

  /** On kept rows, every root's latest revision is the row itself. */
  lemma LatestIndicesOfKept<T>(key: T -> Cell, rows: seq<T>)
    requires rows != []
    ensures var out := LatestRevisions(key, true, rows);
      var idx2 := LatestIndices(Revisions(key, out));
      out != [] && |idx2| == |out| && forall j :: 0 <= j < |idx2| ==> idx2[j] == j
  {
    var out := LatestRevisions(key, true, rows);
    var idx2 := LatestIndices(Revisions(key, out));
    KeptRoots(key, rows);
    assert |idx2| == |out|;
    forall j | 0 <= j < |idx2| ensures idx2[j] == j {
      KeptIndexAt(Revisions(key, out), j);
    }
  }

  /** Where the roots are already strictly ascending, the latest row of the
      `j`-th root is row `j`. */
  lemma KeptIndexAt(revs: seq<(string, int)>, j: nat)
    requires StrictlySorted(Roots(revs)) && SortDistinct(Roots(revs)) == Roots(revs)
    requires j < |LatestIndices(revs)|
    ensures LatestIndices(revs)[j] == j
  {
    var rs := Roots(revs);
    var b := LatestIndices(revs)[j];
    assert BestIndex(revs, rs[j], |revs|) == Some(b);
    assert rs[b] == rs[j];
    StrictlySortedInjective(rs, b, j);
  }

  /** The roots of the kept rows are strictly ascending, none missing, so
      sorting them again changes nothing. */
  lemma KeptRoots<T>(key: T -> Cell, rows: seq<T>)
    requires rows != []
    ensures var outRoots := Roots(Revisions(key, LatestRevisions(key, true, rows)));
      outRoots != [] && StrictlySorted(outRoots) && SortDistinct(outRoots) == outRoots
  {
    var rs := SortDistinct(Roots(Revisions(key, rows)));
    LatestRootsAreSorted(key, rows);
    var outRoots := Roots(Revisions(key, LatestRevisions(key, true, rows)));
    assert outRoots == rs;
    assert rs != [] by {
      assert Roots(Revisions(key, rows))[0] in Elems(Roots(Revisions(key, rows)));
      ElemsEmpty(rs);
    }
    StrictlySortedUnique(SortDistinct(outRoots), outRoots);
  }

  // ---------------------------------------------------------------------------
  // `process_finance_dataframe`
  // ---------------------------------------------------------------------------

  /** One row of the quote or order sheet, as far as the finance pipeline reads
      it: the number column (`Teklif_No` or `Siparis_No`), `Para_Birimi`,
      `Tarih`, `Tutar_Ham`, `Maliyet_Ham`, `Personel` and `Musteri`. */
  datatype FinanceRow = FinanceRow(id: Cell, currency: Cell, date: Cell, amount: Cell,
                                   cost: Cell, personnel: Cell, customer: Cell)

  /** The caller's frame: the pipeline overwrites its number and currency
      columns before it filters a copy. */
  class FinanceFrame {
    var rows: seq<FinanceRow>

    constructor (rows: seq<FinanceRow>)
      ensures this.rows == rows
    {
      this.rows := rows;
    }
  }

  /** A processed row: the number, the currency code, the date and its year and
      month (`Ay_Sira` repeats the month), the two amounts, their EUR values,
      the profit, and the personnel code and name. */
  datatype FinanceFact = FinanceFact(id: string, currency: string, date: Date, year: int, month: int,
                                     amount: real, cost: real, amountEur: real, costEur: real, profitEur: real,
                                     personnelCode: string, personnelName: string, customer: Cell)

  /** The monthly table read from the rates sheet, keyed by year, month and code. */
  type MonthlyRates = map<(int, int, string), real>

  /** The personnel code to name table. */
  type PersonnelNames = map<string, string>

  /** A row with the two columns the pipeline overwrites in the caller's
      frame: the number as stripped text, the currency as its clean code or
      missing. */
  function CleanedRow(r: FinanceRow): FinanceRow
  {
    var code := CleanCurrencyCode(CellValue(r.currency));
    r.(id := Text(Strip(CellStr(r.id))), currency := if code.Some? then Text(code.value) else Blank)
  }

  /** A cleaned row's number is its own stripped text, its currency is the
      stripped upper-case code or missing, and nothing else changes. */
  lemma CleanedRowFacts(r: FinanceRow)
    ensures CleanedRow(r).id == Text(Strip(CellStr(r.id))) && Strip(CleanedRow(r).id.s) == CleanedRow(r).id.s
    ensures CleanedRow(r).currency.Text? <==> r.currency.Text? && Upper(Strip(r.currency.s)) in Currencies
    ensures CleanedRow(r).currency.Text? ==>
      CleanedRow(r).currency.s in Currencies && CleanedRow(r).currency.s == Upper(Strip(r.currency.s))
    ensures CleanedRow(r).(id := r.id, currency := r.currency) == r
  {
    StripIdempotent(CellStr(r.id));
    CleanedCurrency(r);
  }

  /** The currency column of a cleaned row. */
  lemma CleanedCurrency(r: FinanceRow)
    ensures CleanedRow(r).currency.Text? <==> r.currency.Text? && Upper(Strip(r.currency.s)) in Currencies
    ensures CleanedRow(r).currency.Text? ==>
      CleanedRow(r).currency.s in Currencies && CleanedRow(r).currency.s == Upper(Strip(r.currency.s))
  {
    var code := CleanCurrencyCode(CellValue(r.currency));
    assert CleanedRow(r).currency == if code.Some? then Text(code.value) else Blank;
  }

  /** Lines 20 and 23 on the whole frame: every number becomes its own
      stripped text, every currency the stripped upper-case code when it is
      one of the five known codes and missing otherwise, and no other column
      changes. */
  function Cleaned(rows: seq<FinanceRow>): (cl: seq<FinanceRow>)
    ensures |cl| == |rows|
    ensures forall k :: 0 <= k < |rows| ==> cl[k] == CleanedRow(rows[k])
    ensures forall k :: 0 <= k < |rows| ==>
      cl[k].id.Text? && Strip(cl[k].id.s) == cl[k].id.s && cl[k].id.s == Strip(CellStr(rows[k].id))
    ensures forall k :: 0 <= k < |rows| ==>
      (cl[k].currency.Text? <==> rows[k].currency.Text? && Upper(Strip(rows[k].currency.s)) in Currencies) &&
      (cl[k].currency.Text? ==> cl[k].currency.s in Currencies && cl[k].currency.s == Upper(Strip(rows[k].currency.s)))
    ensures forall k :: 0 <= k < |rows| ==> cl[k].(id := rows[k].id, currency := rows[k].currency) == rows[k]
  {
    forall k | 0 <= k < |rows| {
      CleanedRowFacts(rows[k]);
    }
    seq(|rows|, k requires 0 <= k < |rows| => CleanedRow(rows[k]))
  }

  /** `pd.to_datetime(col, format='%d.%m.%Y', errors='coerce')` on one cell. */
  function DateOf(c: Cell): (d: Option<Date>)
    ensures d.Some? ==> InStampRange(d.value)
  {
    match c
    case Blank => None
    case Text(s) => ParseDmy(s)
  }

  /** `get_rate(yil, ay, pb)`: the monthly table when it has the key, the
      yearly rate otherwise. */
  function RateFor(year: int, month: int, code: string, monthly: MonthlyRates, yearly: RateTable): real
    requires yearly != map[]
  {
    if (year, month, code) in monthly then monthly[(year, month, code)]
    else GetExchangeRate(Str(code), year, yearly)
  }

  /** A cleaned row that survived both `dropna` calls, with its code and date. */
  datatype Staged = Staged(row: FinanceRow, code: string, date: Date)

  /** Whether a raw row survives: a known currency and a parsable date. */
  predicate Admissible(r: FinanceRow)
  {
    CleanCurrencyCode(CellValue(r.currency)).Some? && DateOf(r.date).Some?
  }

  /** A cleaned row as it leaves the two `dropna` calls: with its code and
      date when both are present, dropped otherwise. */
  function StageRow(r: FinanceRow): (st: Option<Staged>)
    ensures st.Some? <==> r.currency.Text? && DateOf(r.date).Some?
    ensures st.Some? ==> st.value == Staged(r, r.currency.s, DateOf(r.date).value)
  {
    var d := DateOf(r.date);
    if r.currency.Text? && d.Some? then Some(Staged(r, r.currency.s, d.value)) else None
  }

  /** The cleaned rows that keep a currency code and a date, in order. */
  function Admitted(cl: seq<FinanceRow>): seq<Staged>
  {
    FilterMap(cl, StageRow)
  }

  /** A cleaned row survives iff its raw row is admissible. */
  lemma CleanedSurvives(r: FinanceRow)
    ensures StageRow(CleanedRow(r)).Some? <==> Admissible(r)
    ensures Admissible(r) ==>
      StageRow(CleanedRow(r)).value == Staged(CleanedRow(r), CleanCurrencyCode(CellValue(r.currency)).value, DateOf(r.date).value)
  {
  }

  /** The output row of a surviving row, given its cleaned amount and cost
      and its rate. */
  function FactOf(st: Staged, amount: real, cost: real, rate: real, names: PersonnelNames): FinanceFact
  {
    var code := TrUpper(Strip(CellStr(st.row.personnel)));
    FinanceFact(CellStr(st.row.id), st.code, st.date, st.date.year, st.date.month,
                amount, cost, amount * rate, cost * rate, amount * rate - cost * rate,
                code, if code in names then names[code] else code, st.row.customer)
  }

  /** The `Tutar_Ham` and `Maliyet_Ham` columns of the surviving rows. */
  function AmountCells(st: seq<Staged>): (c: seq<Cell>)
    ensures |c| == |st| && forall i :: 0 <= i < |st| ==> c[i] == st[i].row.amount
  {
    seq(|st|, i requires 0 <= i < |st| => st[i].row.amount)
  }

  function CostCells(st: seq<Staged>): (c: seq<Cell>)
    ensures |c| == |st| && forall i :: 0 <= i < |st| ==> c[i] == st[i].row.cost
  {
    seq(|st|, i requires 0 <= i < |st| => st[i].row.cost)
  }

  function KeyOf(st: Staged): (int, int, string)
  {
    (st.date.year, st.date.month, st.code)
  }


  /** What `process_finance_dataframe` returns for the given rows. */
  function FinanceFacts(rows: seq<FinanceRow>, getRate: ((int, int, string)) -> real,
                        names: PersonnelNames): (facts: seq<FinanceFact>)
  {
    FactsOfCleaned(Cleaned(rows), getRate, names)
  }

  /** The rows a cleaned frame turns into. */
  function FactsOfCleaned(cl: seq<FinanceRow>, getRate: ((int, int, string)) -> real,
                          names: PersonnelNames): (facts: seq<FinanceFact>)
  {
    var st := Admitted(cl);
    var amounts := CleanMoneySeries(AmountCells(st));
    var costs := CleanMoneySeries(CostCells(st));
    seq(|st|, i requires 0 <= i < |st| => FactOf(st[i], amounts[i], costs[i], getRate(KeyOf(st[i])), names))
  }

  /** `process_finance_dataframe(df, id_col, monthly_rates, personel_dict)`,
      with `get_rate` (the monthly table, then the yearly one) as a parameter.
      The number and currency columns of the caller's frame are overwritten in
      place (an empty frame is returned untouched); the result keeps the rows
      with a known currency and a `'%d.%m.%Y'` date, prices them through a
      rate map filled once per (year, month, code) key, and converts them to
      EUR. */
  method ProcessFinance(frame: FinanceFrame, getRate: ((int, int, string)) -> real, names: PersonnelNames)
    returns (facts: seq<FinanceFact>)
    modifies frame
    ensures frame.rows == Cleaned(old(frame.rows))
    ensures facts == FinanceFacts(old(frame.rows), getRate, names)
  {
    var rows := frame.rows;
    if |rows| == 0 {
      return [];
    }
    // The number and currency columns, overwritten in the caller's frame.
    var cl := Cleaned(rows);
    frame.rows := cl;
    facts := PriceRows(cl, getRate, names);
  }

  /** The rest of the pipeline, on the filtered copy: the two `dropna`
      filters, the money columns, the rate map, the EUR and personnel
      columns. */
  method PriceRows(cl: seq<FinanceRow>, getRate: ((int, int, string)) -> real, names: PersonnelNames)
    returns (facts: seq<FinanceFact>)
    ensures facts == FactsOfCleaned(cl, getRate, names)
  {
    var kept := Admitted(cl);
    var amounts := CleanMoneySeries(AmountCells(kept));
    var costs := CleanMoneySeries(CostCells(kept));
    var rates := BuildRateMap(kept, getRate);
    facts := seq(|kept|, i requires 0 <= i < |kept| =>
      FactOf(kept[i], amounts[i], costs[i], rates[KeyOf(kept[i])], names));
  }

  /** What the pipeline promises about an output row built from the raw row
      `r`: the stripped number, the clean currency code, the strict date and
      its year and month, the cleaned amounts, their product with the rate of
      the (year, month, code) key, the profit as their difference, and the
      personnel code with its mapped name (or the code itself). */
  predicate FactFrom(f: FinanceFact, r: FinanceRow, getRate: ((int, int, string)) -> real, names: PersonnelNames)
  {
    FactKeyFrom(f, r) && FactValuesFrom(f, r, getRate, names)
  }

  /** The number, the currency code and the date of an output row. */
  predicate FactKeyFrom(f: FinanceFact, r: FinanceRow)
  {
    && f.id == Strip(CellStr(r.id))
    && CleanCurrencyCode(CellValue(r.currency)) == Some(f.currency)
    && DateOf(r.date) == Some(f.date)
    && f.year == f.date.year && f.month == f.date.month
  }

  /** The amounts, the EUR columns and the personnel columns of an output row. */
  predicate FactValuesFrom(f: FinanceFact, r: FinanceRow, getRate: ((int, int, string)) -> real, names: PersonnelNames)
  {
    var rate := getRate((f.year, f.month, f.currency));
    var code := TrUpper(Strip(CellStr(r.personnel)));
    && f.amount == CleanMoneyCell(r.amount) && f.cost == CleanMoneyCell(r.cost)
    && f.amountEur == f.amount * rate && f.costEur == f.cost * rate
    && f.profitEur == f.amountEur - f.costEur
    && f.personnelCode == code
    && f.personnelName == (if code in names then names[code] else code)
    && f.customer == r.customer
  }

  /** Every output row comes from an admissible input row, in input order,
      and every admissible input row gives exactly one output row: the
      pipeline drops a row only for its currency or its date, never for an
      unmapped person. */
  lemma FinanceFactsSource(rows: seq<FinanceRow>, getRate: ((int, int, string)) -> real, names: PersonnelNames)
    returns (idx: seq<nat>)
    ensures |idx| == |FinanceFacts(rows, getRate, names)|
    ensures forall i :: 0 <= i < |idx| ==>
      idx[i] < |rows| && Admissible(rows[idx[i]]) && FactFrom(FinanceFacts(rows, getRate, names)[i], rows[idx[i]], getRate, names)
    ensures forall i, j :: 0 <= i < j < |idx| ==> idx[i] < idx[j]
    ensures forall k :: 0 <= k < |rows| && Admissible(rows[k]) ==> k in idx
  {
    var cl := Cleaned(rows);
    var st := Admitted(cl);
    idx := FilterMapIndices(cl, StageRow);
    var facts := FinanceFacts(rows, getRate, names);
    forall i | 0 <= i < |idx|
      ensures idx[i] < |rows| && Admissible(rows[idx[i]]) && FactFrom(facts[i], rows[idx[i]], getRate, names)
    {
      var r := rows[idx[i]];
      CleanedSurvives(r);
      FactOfRow(r, st[i], CleanMoneySeries(AmountCells(st))[i], CleanMoneySeries(CostCells(st))[i], getRate, names);
    }
    forall k | 0 <= k < |rows| && Admissible(rows[k])
      ensures k in idx
    {
      CleanedSurvives(rows[k]);
    }
  }

  /** One output row against its raw row. */
  lemma FactOfRow(r: FinanceRow, st: Staged, amount: real, cost: real,
                  getRate: ((int, int, string)) -> real, names: PersonnelNames)
    requires StageRow(CleanedRow(r)) == Some(st)
    requires amount == CleanMoneyCell(st.row.amount) && cost == CleanMoneyCell(st.row.cost)
    ensures Admissible(r)
    ensures FactFrom(FactOf(st, amount, cost, getRate(KeyOf(st)), names), r, getRate, names)
  {
    CleanedSurvives(r);
    FactKeyOfRow(r, st, amount, cost, getRate(KeyOf(st)), names);
    assert st.row == CleanedRow(r);
    FactValuesOfRow(r, st, amount, cost, getRate, names);
  }

  lemma FactKeyOfRow(r: FinanceRow, st: Staged, amount: real, cost: real, rate: real, names: PersonnelNames)
    requires StageRow(CleanedRow(r)) == Some(st)
    ensures FactKeyFrom(FactOf(st, amount, cost, rate, names), r)
  {
    CleanedSurvives(r);
  }

  lemma FactValuesOfRow(r: FinanceRow, st: Staged, amount: real, cost: real,
                        getRate: ((int, int, string)) -> real, names: PersonnelNames)
    requires st.row.amount == r.amount && st.row.cost == r.cost
    requires st.row.personnel == r.personnel && st.row.customer == r.customer
    requires amount == CleanMoneyCell(r.amount) && cost == CleanMoneyCell(r.cost)
    ensures FactValuesFrom(FactOf(st, amount, cost, getRate(KeyOf(st)), names), r, getRate, names)
  {
    FactEurOf(st, amount, cost, getRate, names);
  }

  /** The EUR columns of an output row, on its own: nonlinear real
      arithmetic is kept away from the money parser's definition. */
  lemma FactEurOf(st: Staged, amount: real, cost: real, getRate: ((int, int, string)) -> real, names: PersonnelNames)
    ensures var f := FactOf(st, amount, cost, getRate(KeyOf(st)), names);
      var rate := getRate((f.year, f.month, f.currency));
      f.amount == amount && f.cost == cost && f.amountEur == f.amount * rate && f.costEur == f.cost * rate
  {
  }

  /** `rates_map`: one `get_rate` call per distinct (year, month, code). */
  method BuildRateMap(kept: seq<Staged>, getRate: ((int, int, string)) -> real) returns (rates: MonthlyRates)
    ensures forall k :: 0 <= k < |kept| ==> KeyOf(kept[k]) in rates
    ensures forall key :: key in rates ==> rates[key] == getRate(key)
  {
    rates := map[];
    var i := 0;
    while i < |kept|
      invariant 0 <= i <= |kept|
      invariant forall k :: 0 <= k < i ==> KeyOf(kept[k]) in rates
      invariant forall key :: key in rates ==> rates[key] == getRate(key)
    {
      var key := KeyOf(kept[i]);
      if key !in rates {
        rates := rates[key := getRate(key)];
      }
      i := i + 1;
    }
  }

  /** `Exchange_Rate` from the map, then `Tutar_EUR`, `Maliyet_EUR`, `Kar_EUR`
      and the personnel columns. */

  // ---------------------------------------------------------------------------
  // `prepare_crm_data`
  // ---------------------------------------------------------------------------

  /** A row of the customer master list: `Kisa_Ad`, `Uzun_Ad`, `Sorumlu_Clean`. */
  datatype Customer = Customer(short: Cell, long: Cell, owner: Cell)

  /** The order columns of a customer: `Total_Ciro_EUR`, `Siparis_Adedi`,
      `Son_Siparis_Tarihi`, `Ilk_Siparis_Tarihi`, `Gun_Farki` and
      `Purchase_Frequency`. */
  datatype OrderSummary = OrderSummary(total: real, count: nat, last: Date, first: Date, dayGap: int, frequency: real)

  /** The quote columns of a customer: `Total_Teklif_EUR`, `Teklif_Sayisi`,
      `Son_Teklif_Tarihi`, `Ilk_Teklif_Tarihi`, `Son_Teklif_No` and
      `Son_Teklif_Tutar`. */
  datatype QuoteSummary = QuoteSummary(total: real, count: nat, last: Date, first: Date,
                                       lastNumber: string, lastAmount: real)

  /** A master row after the two left joins (a missing side is `None`) and
      the zero fill of the two totals and the two counts. */
  datatype CrmRow = CrmRow(customer: Customer, orders: Option<OrderSummary>, quotes: Option<QuoteSummary>,
                           totalRevenue: real, orderCount: nat, totalQuotes: real, quoteCount: nat)

  /** The `Segment` column. */
  datatype Segment = Pasif | Vip | Gold | Standart

  /** A row of the result: the joined row, `Cum_Quote`, `Revenue_Share`,
      `Segment`, `Recency_Days` and `Riskli`. */
  datatype CrmFact = CrmFact(row: CrmRow, cumQuote: real, share: real, segment: Segment, recency: int, risky: bool)

  /** The processed rows carry real calendar dates. */
  predicate ValidFacts(fs: seq<FinanceFact>)
  {
    forall f :: f in fs ==> ValidDate(f.date)
  }

  /** `groupby("Musteri")` drops rows with a missing customer. */
  predicate InGroup(f: FinanceFact, c: string)
  {
    f.customer == Text(c)
  }

  predicate HasGroup(fs: seq<FinanceFact>, c: string)
  {
    exists i :: 0 <= i < |fs| && InGroup(fs[i], c)
  }

  /** The `sum` of `Tutar_EUR` over a customer's rows. */
  function GroupTotal(fs: seq<FinanceFact>, c: string): real
  {
    if fs == [] then 0.0
    else
      var f := fs[|fs| - 1];
      GroupTotal(fs[..|fs| - 1], c) + (if InGroup(f, c) then f.amountEur else 0.0)
  }

  /** The numbers of a customer's rows, whose size is the `nunique` count. */
  function GroupIds(fs: seq<FinanceFact>, c: string): set<string>
  {
    set i | 0 <= i < |fs| && InGroup(fs[i], c) :: fs[i].id
  }

  /** The row the `max` date and the `sort_values("Tarih")` then
      `drop_duplicates(keep="last")` pair pick: a latest row of the customer,
      the one furthest down among equally late rows. */
  function LastIndex(fs: seq<FinanceFact>, c: string): (r: Option<nat>)
    ensures r.None? <==> !HasGroup(fs, c)
    ensures r.Some? ==> r.value < |fs| && InGroup(fs[r.value], c)
    ensures r.Some? ==> forall i :: 0 <= i < |fs| && InGroup(fs[i], c) ==> !Before(fs[r.value].date, fs[i].date)
    ensures r.Some? ==> forall i :: r.value < i < |fs| && InGroup(fs[i], c) ==> Before(fs[i].date, fs[r.value].date)
  {
    if fs == [] then None
    else
      var n := |fs| - 1;
      var p := LastIndex(fs[..n], c);
      if !InGroup(fs[n], c) then p
      else if p.Some? && Before(fs[n].date, fs[p.value].date) then p
      else Some(n)
  }

  /** The row of the `min` date of a customer. */
  function FirstIndex(fs: seq<FinanceFact>, c: string): (r: Option<nat>)
    ensures r.None? <==> !HasGroup(fs, c)
    ensures r.Some? ==> r.value < |fs| && InGroup(fs[r.value], c)
    ensures r.Some? ==> forall i :: 0 <= i < |fs| && InGroup(fs[i], c) ==> !Before(fs[i].date, fs[r.value].date)
  {
    if fs == [] then None
    else
      var n := |fs| - 1;
      var p := FirstIndex(fs[..n], c);
      if !InGroup(fs[n], c) then p
      else if p.Some? && !Before(fs[n].date, fs[p.value].date) then p
      else Some(n)
  }

  /** The order aggregation of one customer, `None` when it has no order. */
  function OrderSummaryOf(os: seq<FinanceFact>, c: string): (o: Option<OrderSummary>)
    requires ValidFacts(os)
  {
    match LastIndex(os, c)
    case None => None
    case Some(l) =>
      var f := FirstIndex(os, c).value;
      var gap := Ordinal(os[l].date) - Ordinal(os[f].date);
      var count := |GroupIds(os, c)|;
      Some(OrderSummary(GroupTotal(os, c), count, os[l].date, os[f].date, gap, Frequency(gap, count)))
  }

  /** `Purchase_Frequency`: the day gap spread over the intervals between
      orders, 0 for a single order. */
  function Frequency(gap: int, count: nat): real
  {
    if count > 1 then gap as real / (count - 1) as real else 0.0
  }

  /** The quote aggregation of one customer, with its last quote. */
  function QuoteSummaryOf(qs: seq<FinanceFact>, c: string): (q: Option<QuoteSummary>)
  {
    match LastIndex(qs, c)
    case None => None
    case Some(l) =>
      var f := FirstIndex(qs, c).value;
      Some(QuoteSummary(GroupTotal(qs, c), |GroupIds(qs, c)|, qs[l].date, qs[f].date, qs[l].id, qs[l].amountEur))
  }

  /** The customers of the orders (`cust_sip["Musteri"]`), missing ones dropped. */
  function OrderCustomer(f: FinanceFact): Option<string>
  {
    if f.customer.Text? then Some(f.customer.s) else None
  }

  /** `all_customers`: the master list, or when it is empty one row per
      ordering customer in the sorted order of the grouped keys, with the
      customer as its long name and "Genel" as its owner. */
  function CrmCustomers(os: seq<FinanceFact>, master: seq<Customer>): (cs: seq<Customer>)
  {
    if master != [] then master
    else
      var names := SortDistinct(FilterMap(os, OrderCustomer));
      seq(|names|, i requires 0 <= i < |names| => Customer(Text(names[i]), Text(names[i]), Text("Genel")))
  }

  /** One master row joined with its order and quote columns, the totals and
      counts zero-filled. */
  function JoinCustomer(c: Customer, qs: seq<FinanceFact>, os: seq<FinanceFact>): (r: CrmRow)
    requires ValidFacts(os)
  {
    var o := if c.short.Text? then OrderSummaryOf(os, c.short.s) else None;
    var q := if c.short.Text? then QuoteSummaryOf(qs, c.short.s) else None;
    CrmRow(c, o, q, if o.Some? then o.value.total else 0.0, if o.Some? then o.value.count else 0,
           if q.Some? then q.value.total else 0.0, if q.Some? then q.value.count else 0)
  }

  /** The number key the revision filter reads. */
  function NumberKey(f: FinanceFact): Cell
  {
    Text(f.id)
  }

  /** The rows a revision filter keeps are rows of its input. */
  lemma LatestRevisionsFrom<T>(key: T -> Cell, hasColumn: bool, rows: seq<T>)
    ensures forall x :: x in LatestRevisions(key, hasColumn, rows) ==> x in rows
  {
    if rows != [] && hasColumn {
      LatestRevisionsKept(key, rows);
    }
  }

  /** The joined frame before the Pareto step: the master rows (or the
      ordering customers) with their columns from the latest revisions of the
      quotes and orders. */
  function CrmBase(quotes: seq<FinanceFact>, orders: seq<FinanceFact>, master: seq<Customer>): (rows: seq<CrmRow>)
    requires ValidFacts(orders)
  {
    var qs := LatestRevisions(NumberKey, true, quotes);
    var os := LatestRevisions(NumberKey, true, orders);
    LatestRevisionsFrom(NumberKey, true, orders);
    var cs := CrmCustomers(os, master);
    seq(|cs|, i requires 0 <= i < |cs| => JoinCustomer(cs[i], qs, os))
  }

  predicate DescendingByQuotes(rows: seq<CrmRow>)
  {
    forall i, j :: 0 <= i < j < |rows| ==> rows[j].totalQuotes <= rows[i].totalQuotes
  }

  /** Puts `x` in front of the first row whose total it is not below. */
  function InsertByQuotes(x: CrmRow, rows: seq<CrmRow>): (r: seq<CrmRow>)
    requires DescendingByQuotes(rows)
    ensures DescendingByQuotes(r)
    ensures multiset(r) == multiset(rows) + multiset{x}
  {
    if rows == [] || rows[0].totalQuotes <= x.totalQuotes then [x] + rows
    else
      var t := InsertByQuotes(x, rows[1..]);
      InsertedBehindTop(x, rows, t);
      [rows[0]] + t
  }

  /** The head, then the insertion into the tail: still descending, and the
      same rows with `x` added. */
  lemma InsertedBehindTop(x: CrmRow, rows: seq<CrmRow>, t: seq<CrmRow>)
    requires DescendingByQuotes(rows) && rows != [] && x.totalQuotes < rows[0].totalQuotes
    requires DescendingByQuotes(t) && multiset(t) == multiset(rows[1..]) + multiset{x}
    ensures DescendingByQuotes([rows[0]] + t)
    ensures multiset([rows[0]] + t) == multiset(rows) + multiset{x}
  {
    assert rows == [rows[0]] + rows[1..];
    InsertedBelow(x, rows, t);
    var r := [rows[0]] + t;
    forall i, j | 0 <= i < j < |r| ensures r[j].totalQuotes <= r[i].totalQuotes {
      if i > 0 {
        assert r[i] == t[i - 1] && r[j] == t[j - 1];
      } else {
        assert r[j] == t[j - 1];
      }
    }
  }

  /** Every total of the insertion into the tail is at most the head's. */
  lemma InsertedBelow(x: CrmRow, rows: seq<CrmRow>, t: seq<CrmRow>)
    requires DescendingByQuotes(rows) && rows != [] && x.totalQuotes < rows[0].totalQuotes
    requires multiset(t) == multiset(rows[1..]) + multiset{x}
    ensures forall j :: 0 <= j < |t| ==> t[j].totalQuotes <= rows[0].totalQuotes
  {
    forall j | 0 <= j < |t| ensures t[j].totalQuotes <= rows[0].totalQuotes {
      assert t[j] in multiset(t);
      if t[j] != x {
        assert t[j] in rows[1..];
      }
    }
  }

  /** `sort_values("Total_Teklif_EUR", ascending=False)`. */
  function SortByQuotes(rows: seq<CrmRow>): (r: seq<CrmRow>)
    ensures DescendingByQuotes(r)
    ensures multiset(r) == multiset(rows)
  {
    if rows == [] then []
    else
      assert rows == [rows[0]] + rows[1..];
      InsertByQuotes(rows[0], SortByQuotes(rows[1..]))
  }

  /** The sum of `Total_Teklif_EUR` over the first `n` rows. */
  function PrefixQuotes(rows: seq<CrmRow>, n: nat): real
    requires n <= |rows|
  {
    if n == 0 then 0.0 else PrefixQuotes(rows, n - 1) + rows[n - 1].totalQuotes
  }

  /** `assign_segment`. */
  function SegmentOf(total: real, share: real): Segment
  {
    if total == 0.0 then Pasif
    else if share <= 0.80 then Vip
    else if share <= 0.95 then Gold
    else Standart
  }

  /** The text of a segment. */
  function SegmentLabel(s: Segment): string
  {
    match s
    case Pasif => "Pasif"
    case Vip => "\U{1F947} VIP"
    case Gold => "\U{1F948} Gold"
    case Standart => "\U{1F949} Standart"
  }

  /** The latest quote dates are real calendar dates. */
  predicate DatedRows(rows: seq<CrmRow>)
  {
    forall r :: r in rows && r.quotes.Some? ==> ValidDate(r.quotes.value.last)
  }

  /** The columns the Pareto step gives one sorted row, from its running
      total `cum` and the grand total `total`. */
  function SegmentRow(r: CrmRow, cum: real, total: real, today: Date): CrmFact
    requires ValidDate(today) && (r.quotes.Some? ==> ValidDate(r.quotes.value.last))
  {
    var share := ShareOf(cum, total);
    var seg := SegmentOf(r.totalQuotes, share);
    var recency := if r.quotes.Some? then Ordinal(today) - Ordinal(r.quotes.value.last) else 9999;
    CrmFact(r, cum, share, seg, recency, Contains(SegmentLabel(seg), "VIP") && recency > 90)
  }

  /** `out` is the Pareto step applied to the sorted rows `rows`. */
  predicate Segmented(out: seq<CrmFact>, rows: seq<CrmRow>, today: Date)
    requires ValidDate(today) && DatedRows(rows)
  {
    |out| == |rows| &&
    forall i :: 0 <= i < |rows| ==> out[i] == SegmentRow(rows[i], PrefixQuotes(rows, i + 1), PrefixQuotes(rows, |rows|), today)
  }

  /** The Pareto step of `prepare_crm_data`: the grand total, then the
      running total, the share, the segment, the recency and the risk flag of
      each row in turn. */
  method AssignSegments(rows: seq<CrmRow>, today: Date) returns (out: seq<CrmFact>)
    requires ValidDate(today) && DatedRows(rows)
    ensures Segmented(out, rows, today)
  {
    var total := QuoteTotal(rows);
    var cum := 0.0;
    out := [];
    var i := 0;
    while i < |rows|
      invariant 0 <= i <= |rows|
      invariant cum == PrefixQuotes(rows, i)
      invariant out == SegmentPrefix(rows, i, total, today)
    {
      cum := cum + rows[i].totalQuotes;
      DatedAt(rows, i);
      out := out + [SegmentRow(rows[i], cum, total, today)];
      i := i + 1;
    }
    forall k | 0 <= k < |rows|
      ensures out[k] == SegmentRow(rows[k], PrefixQuotes(rows, k + 1), total, today)
    {
      SegmentPrefixAt(rows, |rows|, total, today, k);
    }
  }

  /** The Pareto rows of the first `n` sorted rows, given the grand total. */
  function SegmentPrefix(rows: seq<CrmRow>, n: nat, total: real, today: Date): (r: seq<CrmFact>)
    requires ValidDate(today) && DatedRows(rows) && n <= |rows|
    ensures |r| == n
  {
    if n == 0 then []
    else
      DatedAt(rows, n - 1);
      SegmentPrefix(rows, n - 1, total, today) + [SegmentRow(rows[n - 1], PrefixQuotes(rows, n), total, today)]
  }

  /** Row `k` of a Pareto prefix is the Pareto step applied to sorted row `k`
      with its own running total. */
  lemma {:induction false} SegmentPrefixAt(rows: seq<CrmRow>, n: nat, total: real, today: Date, k: nat)
    requires ValidDate(today) && DatedRows(rows) && k < n <= |rows|
    ensures SegmentPrefix(rows, n, total, today)[k] == SegmentRow(rows[k], PrefixQuotes(rows, k + 1), total, today)
    decreases n
  {
    if k < n - 1 {
      SegmentPrefixAt(rows, n - 1, total, today, k);
    }
  }

  /** `df["Total_Teklif_EUR"].sum()`: the quote volume of all rows. */
  method QuoteTotal(rows: seq<CrmRow>) returns (total: real)
    ensures total == PrefixQuotes(rows, |rows|)
  {
    total := 0.0;
    var i := 0;
    while i < |rows|
      invariant 0 <= i <= |rows|
      invariant total == PrefixQuotes(rows, i)
    {
      total := total + rows[i].totalQuotes;
      i := i + 1;
    }
  }

  /** The row at `i` of dated rows is dated. */
  lemma DatedAt(rows: seq<CrmRow>, i: nat)
    requires DatedRows(rows) && i < |rows|
    ensures rows[i].quotes.Some? ==> ValidDate(rows[i].quotes.value.last)
  {
    assert rows[i] in rows;
  }

  /** `prepare_crm_data(df_teklif, df_siparis, df_musteri)`, with "now" as the
      parameter `today`. */
  method PrepareCrm(quotes: seq<FinanceFact>, orders: seq<FinanceFact>, master: seq<Customer>, today: Date)
    returns (crm: seq<CrmFact>)
    requires ValidDate(today) && ValidFacts(quotes) && ValidFacts(orders)
    ensures DatedRows(SortByQuotes(CrmBase(quotes, orders, master)))
    ensures Segmented(crm, SortByQuotes(CrmBase(quotes, orders, master)), today)
  {
    var base := CrmBase(quotes, orders, master);
    var sorted := SortByQuotes(base);
    CrmBaseDated(quotes, orders, master);
    DatedPermutation(base, sorted);
    crm := AssignSegments(sorted, today);
  }

  /** The last quote dates of the joined rows come from the quotes. */
  lemma CrmBaseDated(quotes: seq<FinanceFact>, orders: seq<FinanceFact>, master: seq<Customer>)
    requires ValidFacts(quotes) && ValidFacts(orders)
    ensures DatedRows(CrmBase(quotes, orders, master))
  {
    var qs := LatestRevisions(NumberKey, true, quotes);
    LatestRevisionsFrom(NumberKey, true, quotes);
    var rows := CrmBase(quotes, orders, master);
    forall r | r in rows && r.quotes.Some?
      ensures ValidDate(r.quotes.value.last)
    {
      var l := LastIndex(qs, r.customer.short.s).value;
      assert qs[l] in qs;
    }
  }

  lemma DatedPermutation(a: seq<CrmRow>, b: seq<CrmRow>)
    requires DatedRows(a) && multiset(a) == multiset(b)
    ensures DatedRows(b)
  {
    forall r | r in b
      ensures r in a
    {
      assert r in multiset(b);
    }
  }

  /** Running totals of non-negative totals never decrease. */
  lemma {:induction false} PrefixQuotesGrow(rows: seq<CrmRow>, m: nat, n: nat)
    requires m <= n <= |rows|
    requires forall r :: r in rows ==> r.totalQuotes >= 0.0
    ensures PrefixQuotes(rows, m) <= PrefixQuotes(rows, n)
    ensures PrefixQuotes(rows, m) >= 0.0
    decreases n
  {
    if m < n {
      assert rows[n - 1] in rows;
      PrefixQuotesGrow(rows, m, n - 1);
    } else if n > 0 {
      assert rows[n - 1] in rows;
      PrefixQuotesGrow(rows, n - 1, n - 1);
    }
  }

  /** With non-negative totals the shares climb down the table, stay in
      [0, 1] and reach 1 on the last row when there is any quote volume. */
  lemma {:induction false} SharesClimb(out: seq<CrmFact>, rows: seq<CrmRow>, today: Date, i: nat, j: nat)
    requires ValidDate(today) && DatedRows(rows) && Segmented(out, rows, today)
    requires forall r :: r in rows ==> r.totalQuotes >= 0.0
    requires i <= j < |out|
    ensures 0.0 <= out[i].share <= out[j].share <= 1.0
    ensures j == |out| - 1 && PrefixQuotes(rows, |rows|) > 0.0 ==> out[j].share == 1.0
  {
    SegmentedAt(out, rows, today, i);
    SegmentedAt(out, rows, today, j);
    SharesOrdered(rows, i, j);
  }

  /** The running shares of two rows, the later one no smaller. */
  lemma SharesOrdered(rows: seq<CrmRow>, i: nat, j: nat)
    requires forall r :: r in rows ==> r.totalQuotes >= 0.0
    requires i <= j < |rows|
    ensures var total := PrefixQuotes(rows, |rows|);
      0.0 <= ShareOf(PrefixQuotes(rows, i + 1), total) <= ShareOf(PrefixQuotes(rows, j + 1), total) <= 1.0
      && (j == |rows| - 1 && total > 0.0 ==> ShareOf(PrefixQuotes(rows, j + 1), total) == 1.0)
  {
    PrefixQuotesGrow(rows, i + 1, j + 1);
    PrefixQuotesGrow(rows, j + 1, |rows|);
    ShareOfClimbs(PrefixQuotes(rows, i + 1), PrefixQuotes(rows, j + 1), PrefixQuotes(rows, |rows|));
  }

  /** The share and the segment of one row of the Pareto step. */
  lemma SegmentedAt(out: seq<CrmFact>, rows: seq<CrmRow>, today: Date, i: nat)
    requires ValidDate(today) && DatedRows(rows) && Segmented(out, rows, today)
    requires i < |out|
    ensures out[i].row == rows[i]
    ensures out[i].share == ShareOf(PrefixQuotes(rows, i + 1), PrefixQuotes(rows, |rows|))
    ensures out[i].segment == SegmentOf(rows[i].totalQuotes, out[i].share)
  {
  }

  /** `Revenue_Share` of a row whose running total is `cum`. */
  function ShareOf(cum: real, total: real): real
  {
    if total > 0.0 then cum / total else 0.0
  }

  lemma ShareOfClimbs(a: real, b: real, t: real)
    requires 0.0 <= a <= b <= t
    ensures 0.0 <= ShareOf(a, t) <= ShareOf(b, t) <= 1.0
    ensures b == t && t > 0.0 ==> ShareOf(b, t) == 1.0
  {
    if t > 0.0 {
      DivideMonotone(a, b, t);
      DivideMonotone(b, t, t);
      DivideSelf(t);
    }
  }

  lemma DivideSelf(t: real)
    requires t > 0.0
    ensures t / t == 1.0
  {
  }

  lemma DivideMonotone(a: real, b: real, t: real)
    requires 0.0 <= a <= b && t > 0.0
    ensures 0.0 <= a / t <= b / t
  {
  }

  /** The position of a segment in the Pareto order. */
  function Rank(s: Segment): nat
  {
    match s
    case Vip => 0
    case Gold => 1
    case Standart => 2
    case Pasif => 3
  }

  /** Down the sorted table the segments run VIP, then Gold, then Standart,
      then Pasif; Pasif is exactly a zero quote volume. */
  lemma {:induction false} SegmentsInOrder(out: seq<CrmFact>, rows: seq<CrmRow>, today: Date, i: nat, j: nat)
    requires ValidDate(today) && DatedRows(rows) && Segmented(out, rows, today)
    requires DescendingByQuotes(rows)
    requires forall r :: r in rows ==> r.totalQuotes >= 0.0
    requires i <= j < |out|
    ensures out[i].segment == Pasif <==> rows[i].totalQuotes == 0.0
    ensures Rank(out[i].segment) <= Rank(out[j].segment)
  {
    SharesClimb(out, rows, today, i, j);
    SegmentedAt(out, rows, today, i);
    SegmentedAt(out, rows, today, j);
    assert rows[i] in rows && rows[j] in rows;
    if i < j {
      assert rows[j].totalQuotes <= rows[i].totalQuotes;
    }
    SegmentOfRank(rows[i].totalQuotes, out[i].share, rows[j].totalQuotes, out[j].share);
  }

  /** A larger volume with a smaller share never gets a later segment, and
      only a zero volume is Pasif. */
  lemma SegmentOfRank(ti: real, si: real, tj: real, sj: real)
    requires 0.0 <= tj <= ti && si <= sj
    ensures Rank(SegmentOf(ti, si)) <= Rank(SegmentOf(tj, sj))
    ensures SegmentOf(ti, si) == Pasif <==> ti == 0.0
  {
  }

  /** Only the VIP label holds the text "VIP". */
  lemma SegmentLabelVip(s: Segment)
    ensures Contains(SegmentLabel(s), "VIP") <==> s == Vip
  {
    match s
    case Vip =>
      ContainsAt(SegmentLabel(s), "VIP", 2);
    case Pasif =>
      LabelWithoutV(SegmentLabel(s));
    case Gold =>
      LabelWithoutV(SegmentLabel(s));
    case Standart =>
      LabelWithoutV(SegmentLabel(s));
  }

  /** A text without the letter V does not contain "VIP". */
  lemma {:induction false} LabelWithoutV(s: string)
    requires forall k :: 0 <= k < |s| ==> s[k] != 'V'
    ensures !Contains(s, "VIP")
    decreases |s|
  {
    if s != [] {
      LabelWithoutV(s[1..]);
      assert |s| < 3 || s[..3][0] != 'V';
    }
  }

  /** A row is risky exactly when it is VIP and its last quote is more than
      90 days old; a customer without quotes has recency 9999. */
  lemma {:induction false} RiskyRows(out: seq<CrmFact>, rows: seq<CrmRow>, today: Date, i: nat)
    requires ValidDate(today) && DatedRows(rows) && Segmented(out, rows, today)
    requires i < |out|
    ensures out[i].risky <==> out[i].segment == Vip && out[i].recency > 90
    ensures rows[i].quotes.None? ==> out[i].recency == 9999
    ensures rows[i].quotes.Some? ==> out[i].recency == Ordinal(today) - Ordinal(rows[i].quotes.value.last)
  {
    SegmentLabelVip(out[i].segment);
  }

  /** A sum of non-negative amounts is non-negative. */
  lemma {:induction false} GroupTotalNonNegative(fs: seq<FinanceFact>, c: string)
    requires forall f :: f in fs ==> f.amountEur >= 0.0
    ensures GroupTotal(fs, c) >= 0.0
    decreases |fs|
  {
    if fs != [] {
      var n := |fs| - 1;
      assert forall f :: f in fs[..n] ==> f in fs;
      assert fs[n] in fs;
      GroupTotalNonNegative(fs[..n], c);
    }
  }

  /** A customer with rows has at least one distinct number. */
  lemma GroupIdsNonEmpty(fs: seq<FinanceFact>, c: string)
    requires HasGroup(fs, c)
    ensures |GroupIds(fs, c)| >= 1
  {
    var i :| 0 <= i < |fs| && InGroup(fs[i], c);
    assert fs[i].id in GroupIds(fs, c);
  }

  /** The order columns: present iff the customer has an order; the first
      date is not after the last and the day gap is their distance. */
  lemma OrderSummaryFacts(os: seq<FinanceFact>, c: string)
    requires ValidFacts(os)
    ensures OrderSummaryOf(os, c).Some? <==> HasGroup(os, c)
    ensures OrderSummaryOf(os, c).Some? ==>
      var o := OrderSummaryOf(os, c).value;
      && o.total == GroupTotal(os, c)
      && o.count == |GroupIds(os, c)| >= 1
      && !Before(o.last, o.first)
      && o.dayGap == Ordinal(o.last) - Ordinal(o.first) >= 0
      && o.frequency == Frequency(o.dayGap, o.count)
  {
    if HasGroup(os, c) {
      GroupIdsNonEmpty(os, c);
      var l := LastIndex(os, c).value;
      var f := FirstIndex(os, c).value;
      assert os[l] in os && os[f] in os;
      var o := OrderSummaryOf(os, c).value;
      assert o.last == os[l].date && o.first == os[f].date;
      OrdinalOrder(o.last, o.first);
    }
  }

  /** With more than one order the frequency times (count - 1) is the gap. */
  lemma FrequencyTimesCount(gap: int, count: nat)
    ensures count > 1 ==> Frequency(gap, count) * (count - 1) as real == gap as real
    ensures count <= 1 ==> Frequency(gap, count) == 0.0
  {
  }

  /** The quote columns: present iff the customer has a quote; the last
      quote is one of the latest quotes of the customer. */
  lemma QuoteSummaryFacts(qs: seq<FinanceFact>, c: string)
    ensures QuoteSummaryOf(qs, c).Some? <==> HasGroup(qs, c)
    ensures QuoteSummaryOf(qs, c).Some? ==>
      var q := QuoteSummaryOf(qs, c).value;
      && q.total == GroupTotal(qs, c)
      && q.count == |GroupIds(qs, c)| >= 1
      && !Before(q.last, q.first)
      && exists l :: 0 <= l < |qs| && InGroup(qs[l], c) && qs[l].date == q.last && qs[l].id == q.lastNumber
           && qs[l].amountEur == q.lastAmount
           && forall i :: 0 <= i < |qs| && InGroup(qs[i], c) ==> !Before(q.last, qs[i].date)
  {
    if HasGroup(qs, c) {
      GroupIdsNonEmpty(qs, c);
      var l := LastIndex(qs, c).value;
      var f := FirstIndex(qs, c).value;
      assert InGroup(qs[l], c);
    }
  }

  /** Without a master list the customers are the ordering customers, each
      once, in ascending order, named after themselves and owned by "Genel". */
  lemma CrmCustomersFromOrders(os: seq<FinanceFact>)
    ensures var cs := CrmCustomers(os, []);
      && (forall i :: 0 <= i < |cs| ==> cs[i].short.Text? && cs[i].long == cs[i].short && cs[i].owner == Text("Genel"))
      && (forall i, j :: 0 <= i < j < |cs| ==> StrLt(cs[i].short.s, cs[j].short.s))
      && (forall c :: (exists i :: 0 <= i < |cs| && cs[i].short == Text(c)) <==> HasGroup(os, c))
  {
    var cs := CrmCustomers(os, []);
    CrmCustomersNamed(os);
    forall c
      ensures (exists i :: 0 <= i < |cs| && cs[i].short == Text(c)) <==> HasGroup(os, c)
    {
      CrmCustomerListed(os, c);
    }
  }

  /** The customers built from the orders, one per sorted distinct name. */
  lemma CrmCustomersNamed(os: seq<FinanceFact>)
    ensures var names := SortDistinct(FilterMap(os, OrderCustomer));
      var cs := CrmCustomers(os, []);
      |cs| == |names| &&
      forall i :: 0 <= i < |cs| ==> cs[i] == Customer(Text(names[i]), Text(names[i]), Text("Genel"))
  {
  }

  /** One customer name is listed exactly when it has a group. */
  lemma CrmCustomerListed(os: seq<FinanceFact>, c: string)
    ensures var cs := CrmCustomers(os, []);
      (exists i :: 0 <= i < |cs| && cs[i].short == Text(c)) <==> HasGroup(os, c)
  {
    var names := SortDistinct(FilterMap(os, OrderCustomer));
    var cs := CrmCustomers(os, []);
    CrmCustomersNamed(os);
    OrderNamesExact(os, c);
    if c in names {
      var i :| 0 <= i < |names| && names[i] == c;
      assert cs[i].short == Text(c);
    }
  }

  /** The ordering customers are exactly the customers with a group. */
  lemma OrderNamesExact(os: seq<FinanceFact>, c: string)
    ensures c in SortDistinct(FilterMap(os, OrderCustomer)) <==> HasGroup(os, c)
  {
    var xs := FilterMap(os, OrderCustomer);
    var names := SortDistinct(xs);
    assert c in names <==> c in Elems(names);
    assert c in xs <==> c in Elems(xs);
    FilterMapMember(os, OrderCustomer, c);
    if HasGroup(os, c) {
      var k :| 0 <= k < |os| && InGroup(os[k], c);
      assert OrderCustomer(os[k]) == Some(c);
    }
  }

  /** Non-negative quote amounts give non-negative quote volumes, the
      condition under which the segments come out in Pareto order. */
  lemma CrmBaseQuotesNonNegative(quotes: seq<FinanceFact>, orders: seq<FinanceFact>, master: seq<Customer>)
    requires ValidFacts(orders)
    requires forall f :: f in quotes ==> f.amountEur >= 0.0
    ensures forall r :: r in CrmBase(quotes, orders, master) ==> r.totalQuotes >= 0.0
  {
    var qs := LatestRevisions(NumberKey, true, quotes);
    LatestRevisionsFrom(NumberKey, true, quotes);
    forall c
      ensures GroupTotal(qs, c) >= 0.0
    {
      GroupTotalNonNegative(qs, c);
    }
  }

  // ---------------------------------------------------------------------------
  // `normalize_personel_name`
  // ---------------------------------------------------------------------------

  /** `normalize_personel_name(name)`: "" for a missing name, otherwise the
      stripped text in Turkish upper case with whitespace runs collapsed to
      one blank, and "" again when that reads "NAN". */
  function NormalizePersonelName(c: Cell): string
  {
    match c
    case Blank => ""
    case Text(s) =>
      var r := CollapseSpaces(TrUpper(Strip(s)));
      if r == "NAN" then "" else r
  }

  /** A normalised name has single blanks between words only, is in upper
      case, and is never "NAN". */
  lemma NormalizedNameShape(c: Cell)
    ensures var r := NormalizePersonelName(c);
      Collapsed(r) && AllChars(r, TrFixed) && TrUpper(r) == r && Strip(r) == r && r != "NAN"
  {
    var r := NormalizePersonelName(c);
    if c.Text? {
      CollapsedUpper(c.s);
    }
    assert Collapsed(r) && AllChars(r, TrFixed);
    UpperCollapsed(r);
  }

  /** The collapsed upper-case text a name becomes before the "NAN" test. */
  lemma CollapsedUpper(s: string)
    ensures Collapsed(CollapseSpaces(TrUpper(Strip(s))))
    ensures AllChars(CollapseSpaces(TrUpper(Strip(s))), TrFixed)
  {
    CollapseSpacesShape(TrUpper(Strip(s)));
    UpperCollapsedChars(s);
  }

  lemma UpperCollapsedChars(s: string)
    ensures AllChars(CollapseSpaces(TrUpper(Strip(s))), TrFixed)
  {
    TrUpperFixed(Strip(s));
    CollapseSpacesChars(TrUpper(Strip(s)), TrFixed);
  }

  /** Collapsed upper-case text is left alone by strip and `tr_upper`. */
  lemma UpperCollapsed(x: string)
    requires Collapsed(x) && AllChars(x, TrFixed)
    ensures TrUpper(x) == x && Strip(x) == x
  {
    TrUpperOfFixed(x);
    CollapsedStrip(x);
  }

  /** Collapsed text has no whitespace at its ends. */
  lemma CollapsedStrip(r: string)
    requires Collapsed(r)
    ensures Strip(r) == r
  {
    if r != [] {
      assert !IsSpace(r[0]) && !IsSpace(r[|r| - 1]);
      StripClean(r);
    }
  }

  /** Normalising a normalised name changes nothing. */
  lemma NormalizePersonelNameIdempotent(c: Cell)
    ensures NormalizePersonelName(Text(NormalizePersonelName(c))) == NormalizePersonelName(c)
  {
    var r := NormalizePersonelName(c);
    NormalizedNameShape(c);
    if c.Text? && r != [] {
      CollapseSpacesIdempotent(TrUpper(Strip(c.s)));
      assert r == CollapseSpaces(TrUpper(Strip(c.s)));
    } else {
      assert r == [];
      assert Words([]) == [];
    }
    NormalizeFixedPoint(r);
  }

  lemma NormalizeFixedPoint(r: string)
    requires TrUpper(r) == r && Strip(r) == r && r != "NAN" && CollapseSpaces(r) == r
    ensures NormalizePersonelName(Text(r)) == r
  {
  }

  // ---------------------------------------------------------------------------
  // `determine_saha_status`
  // ---------------------------------------------------------------------------

  /** The `Tarih` value of a field-log row: missing (None, NaN or NaT), a
      timestamp, or text that the day-first parser may or may not read. */
  datatype SahaDate = NoDate | Stamp(d: CivilDate) | Raw(s: string)

  /** The columns `determine_saha_status` reads: `Teknisyen 1`, `Teknisyen 2`,
      `Müşteri`, `Servis Ürünü`, `Sorumlu` (an absent column reads as missing)
      and `Tarih`. */
  datatype FieldRow = FieldRow(tech1: Cell, tech2: Cell, customer: Cell, product: Cell, owner: Cell, date: SahaDate)

  /** The three statuses: AKTİF, ATÖLYE and İZİNLİ. */
  datatype SahaStatus = Aktif | Atolye | Izinli

  function SahaStatusLabel(s: SahaStatus): string
  {
    match s
    case Aktif => "AKTİF"
    case Atolye => "ATÖLYE"
    case Izinli => "İZİNLİ"
  }

  /** The workshop customer marker and the leave marker. */
  const WorkshopCustomer := "DHE ENDÜSTRİYEL"
  const OnLeave := "İZİNLİ"

  /** `safe_str`: "" for a missing value or for text that reads "nan" in any
      case once stripped, the stripped text otherwise. */
  function SafeStr(c: Cell): (r: string)
    ensures r == [] || (Strip(r) == r && Lower(r) != "nan")
  {
    match c
    case Blank => ""
    case Text(s) =>
      var t := Strip(s);
      StripIdempotent(s);
      if Lower(t) == "nan" then "" else t
  }

  /** Whether the row's date falls on a Saturday or a Sunday; text is read
      by the day-first parser, and text it cannot read counts as a weekday. */
  predicate IsWeekend(t: SahaDate, dayFirst: string -> Option<CivilDate>)
  {
    match t
    case NoDate => false
    case Stamp(d) => Weekday(d) >= 5
    case Raw(s) => dayFirst(s).Some? && Weekday(dayFirst(s).value) >= 5
  }

  function SahaCustomer(r: FieldRow): string
  {
    TrUpper(SafeStr(r.customer))
  }

  predicate HasTechnician(r: FieldRow)
  {
    SafeStr(r.tech1) != "" || SafeStr(r.tech2) != ""
  }

  predicate HasWorkInfo(r: FieldRow)
  {
    SahaCustomer(r) != "" || SafeStr(r.product) != "" || SafeStr(r.owner) != ""
  }

  /** `determine_saha_status(row)`, with the day-first parser as a parameter. */
  function SahaStatusOf(r: FieldRow, dayFirst: string -> Option<CivilDate>): SahaStatus
  {
    var customer := SahaCustomer(r);
    if Contains(customer, WorkshopCustomer) then
      if IsWeekend(r.date, dayFirst) then Aktif else Atolye
    else if customer == OnLeave then Izinli
    else if HasTechnician(r) && HasWorkInfo(r) then Aktif
    else Atolye
  }

  /** A text is at least as long as anything it contains. */
  lemma ContainsLength(s: string, sub: string)
    requires Contains(s, sub)
    ensures |sub| <= |s|
  {
    var i := ContainsWitness(s, sub);
  }

  /** Each status with the exact condition that gives it: İZİNLİ for the leave
      marker alone; AKTİF for weekend work at the workshop or for a row with
      a technician and some work information; ATÖLYE otherwise. */
  lemma SahaStatusCases(r: FieldRow, dayFirst: string -> Option<CivilDate>)
    ensures SahaStatusOf(r, dayFirst) == Izinli <==> SahaCustomer(r) == OnLeave
    ensures SahaStatusOf(r, dayFirst) == Aktif <==>
      if Contains(SahaCustomer(r), WorkshopCustomer) then IsWeekend(r.date, dayFirst)
      else SahaCustomer(r) != OnLeave && HasTechnician(r) && HasWorkInfo(r)
    ensures SahaStatusOf(r, dayFirst) == Atolye <==>
      if Contains(SahaCustomer(r), WorkshopCustomer) then !IsWeekend(r.date, dayFirst)
      else SahaCustomer(r) != OnLeave && !(HasTechnician(r) && HasWorkInfo(r))
  {
    if SahaCustomer(r) == OnLeave && Contains(SahaCustomer(r), WorkshopCustomer) {
      ContainsLength(SahaCustomer(r), WorkshopCustomer);
    }
  }
}
