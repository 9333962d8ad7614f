/** The text and number normalisers: money parsing (the scalar parser and the
    per-cell rules of the vectorised one), currency codes, the yearly exchange
    rate, the percentage delta and Turkish case folding. */
module Utils {
  import opened Prelude

  // ---------------------------------------------------------------------------
  // Case mapping
  // ---------------------------------------------------------------------------

  /** Python's `str.upper()` on one character, for ASCII, Latin-1 and the
      Turkish letters ı, ğ, ş (ß becomes "SS", ÿ becomes Ÿ, the micro sign µ
      becomes the Greek capital Μ). */
  function UpperChar(c: char): (r: string)
    ensures |r| >= 1
  {
    if 'a' <= c <= 'z' then [(c as int - 32) as char]
    else if ('à' <= c <= 'þ') && c != '÷' then [(c as int - 32) as char]
    else if c == 'ß' then "SS"
    else if c == 'ÿ' then "Ÿ"
    else if c == '\U{00B5}' then "\U{039C}"
    else if c == 'ı' then "I"
    else if c == 'ğ' then "Ğ"
    else if c == 'ş' then "Ş"
    else [c]
  }

  /** Python's `str.lower()` on one character, for the same letters (İ becomes
      "i" followed by a combining dot above). */
  function LowerChar(c: char): (r: string)
    ensures |r| >= 1
  {
    if 'A' <= c <= 'Z' then [(c as int + 32) as char]
    else if ('À' <= c <= 'Þ') && c != '×' then [(c as int + 32) as char]
    else if c == 'Ÿ' then "ÿ"
    else if c == 'İ' then "i̇"
    else if c == 'Ğ' then "ğ"
    else if c == 'Ş' then "ş"
    else [c]
  }

  /** `str.upper()` */
  function Upper(s: string): string
  {
    if s == [] then [] else UpperChar(s[0]) + Upper(s[1..])
  }

  /** `str.lower()` */
  function Lower(s: string): string
  {
    if s == [] then [] else LowerChar(s[0]) + Lower(s[1..])
  }

  /** One character of `tr_upper`: the translation table (i→İ, ı→I, ğ→Ğ, ü→Ü,
      ş→Ş, ö→Ö, ç→Ç) followed by `upper()`. */
  function TrUpperChar(c: char): string
  {
    if c == 'i' then "İ" else UpperChar(c)
  }

  /** One character of `tr_lower`: İ→i, I→ı, Ğ→ğ, Ü→ü, Ş→ş, Ö→ö, Ç→ç, then
      `lower()`. */
  function TrLowerChar(c: char): (r: string)
    ensures |r| == 1
  {
    if c == 'İ' then "i" else if c == 'I' then "ı" else LowerChar(c)
  }

  /** `tr_upper(text)` for a str argument. */
  function TrUpper(s: string): string
  {
    if s == [] then [] else TrUpperChar(s[0]) + TrUpper(s[1..])
  }

  /** `tr_lower(text)` for a str argument: every character maps to exactly
      one character. */
  function TrLower(s: string): (r: string)
    ensures |r| == |s|
    ensures forall i :: 0 <= i < |s| ==> r[i] == TrLowerChar(s[i])[0]
  {
    if s == [] then [] else TrLowerChar(s[0]) + TrLower(s[1..])
  }

  lemma {:induction false} TrUpperAppend(a: string, b: string)
    ensures TrUpper(a + b) == TrUpper(a) + TrUpper(b)
  {
    if a != [] {
      assert (a + b)[1..] == a[1..] + b;
      TrUpperAppend(a[1..], b);
    } else {
      assert a + b == b;
    }
  }

  lemma {:induction false} TrLowerAppend(a: string, b: string)
    ensures TrLower(a + b) == TrLower(a) + TrLower(b)
  {
    if a != [] {
      assert (a + b)[1..] == a[1..] + b;
      TrLowerAppend(a[1..], b);
    } else {
      assert a + b == b;
    }
  }

  lemma TrUpperCharIdempotent(c: char)
    ensures TrUpper(TrUpperChar(c)) == TrUpperChar(c)
  {
    var u := TrUpperChar(c);
    if c == 'ß' {
      assert u == "S" + "S";
      TrUpperAppend("S", "S");
    } else {
      assert |u| == 1;
      assert TrUpper(u) == TrUpperChar(u[0]) + TrUpper([]);
    }
  }

  /** Upper-casing twice changes nothing more: `tr_upper` is idempotent. */
  lemma {:induction false} TrUpperIdempotent(s: string)
    ensures TrUpper(TrUpper(s)) == TrUpper(s)
  {
    if s != [] {
      TrUpperAppend(TrUpperChar(s[0]), TrUpper(s[1..]));
      TrUpperCharIdempotent(s[0]);
      TrUpperIdempotent(s[1..]);
    }
  }

  /** The lower-case letters `tr_upper` and `tr_lower` translate back and
      forth: a-z, ı and the Latin-1 and Turkish lower-case letters except ß. */
  predicate TrLowerLetter(c: char)
  {
    ('a' <= c <= 'z') || c == 'ı' || c == 'ğ' || c == 'ş'
    || (('à' <= c <= 'ÿ') && c != '÷' && c != 'ß')
  }

  /** Their upper-case partners: A-Z, İ and the Latin-1 and Turkish capitals. */
  predicate TrUpperLetter(c: char)
  {
    ('A' <= c <= 'Z') || c == 'İ' || c == 'Ğ' || c == 'Ş' || c == 'Ÿ'
    || (('À' <= c <= 'Þ') && c != '×')
  }

  lemma TrLowerUpperChar(c: char)
    requires TrLowerLetter(c)
    ensures |TrUpperChar(c)| == 1 && TrUpperLetter(TrUpperChar(c)[0])
    ensures TrLowerChar(TrUpperChar(c)[0]) == [c]
  {
  }

  lemma TrUpperLowerChar(c: char)
    requires TrUpperLetter(c)
    ensures |TrLowerChar(c)| == 1 && TrLowerLetter(TrLowerChar(c)[0])
    ensures TrUpperChar(TrLowerChar(c)[0]) == [c]
  {
  }

  /** Lower-case Turkish text survives `tr_upper` followed by `tr_lower`. */
  lemma {:induction false} TrLowerOfTrUpper(s: string)
    requires forall i :: 0 <= i < |s| ==> TrLowerLetter(s[i])
    ensures TrLower(TrUpper(s)) == s
  {
    if s != [] {
      TrLowerUpperChar(s[0]);
      var u := TrUpperChar(s[0]);
      TrLowerAppend(u, TrUpper(s[1..]));
      assert TrLower(u) == TrLowerChar(u[0]) + TrLower([]);
      TrLowerOfTrUpper(s[1..]);
      assert s == [s[0]] + s[1..];
    }
  }

  /** Upper-case Turkish text survives `tr_lower` followed by `tr_upper`. */
  lemma {:induction false} TrUpperOfTrLower(s: string)
    requires forall i :: 0 <= i < |s| ==> TrUpperLetter(s[i])
    ensures TrUpper(TrLower(s)) == s
  {
    if s != [] {
      TrUpperLowerChar(s[0]);
      var l := TrLowerChar(s[0]);
      TrUpperAppend(l, TrLower(s[1..]));
      assert TrUpper(l) == TrUpperChar(l[0]) + TrUpper([]);
      TrUpperOfTrLower(s[1..]);
      assert s == [s[0]] + s[1..];
    }
  }

  /** Text without ß keeps its length under `upper()`, character by character. */
  lemma {:induction false} UpperMap(s: string)
    requires forall i :: 0 <= i < |s| ==> s[i] != 'ß'
    ensures |Upper(s)| == |s|
    ensures forall i :: 0 <= i < |s| ==> Upper(s)[i] == UpperChar(s[i])[0]
  {
    if s != [] {
      UpperMap(s[1..]);
      assert |UpperChar(s[0])| == 1;
    }
  }

  /** The same for `tr_upper`. */
  lemma {:induction false} TrUpperMap(s: string)
    requires forall i :: 0 <= i < |s| ==> s[i] != 'ß'
    ensures |TrUpper(s)| == |s|
    ensures forall i :: 0 <= i < |s| ==> TrUpper(s)[i] == TrUpperChar(s[i])[0]
  {
    if s != [] {
      TrUpperMap(s[1..]);
      assert |TrUpperChar(s[0])| == 1;
    }
  }

  /** A character `tr_upper` leaves as it is. */
  predicate TrFixed(c: char)
  {
    TrUpperChar(c) == [c]
  }

  /** Every character `tr_upper` writes is one it leaves alone. */
  lemma TrUpperCharFixed(c: char)
    ensures AllChars(TrUpperChar(c), TrFixed)
  {
    var u := TrUpperChar(c);
    if c == 'ß' {
      assert u == "SS";
    } else {
      assert |u| == 1;
    }
  }

  lemma {:induction false} TrUpperFixed(s: string)
    ensures AllChars(TrUpper(s), TrFixed)
  {
    if s != [] {
      TrUpperCharFixed(s[0]);
      TrUpperFixed(s[1..]);
      var a, b := TrUpperChar(s[0]), TrUpper(s[1..]);
      assert forall k :: 0 <= k < |a + b| ==> (a + b)[k] == if k < |a| then a[k] else b[k - |a|];
    }
  }

  /** Text made of characters `tr_upper` leaves alone is its own upper case. */
  lemma {:induction false} TrUpperOfFixed(s: string)
    requires AllChars(s, TrFixed)
    ensures TrUpper(s) == s
  {
    if s != [] {
      assert TrFixed(s[0]);
      SuffixChars(s, 1, TrFixed);
      TrUpperOfFixed(s[1..]);
      assert s == [s[0]] + s[1..];
    }
  }

  /** Examples the project's unit tests check. */
  lemma TrUpperExamples()
    ensures TrUpper("izmir") == "İZMİR"
    ensures TrUpper("istanbul") == "İSTANBUL"
  {
    TrUpperIzmir();
    TrUpperIstanbul();
  }

  lemma TrUpperIzmir()
    ensures TrUpper("izmir") == "İZMİR"
  {
    TrUpperMap("izmir");
  }

  lemma TrUpperIstanbul()
    ensures TrUpper("istanbul") == "İSTANBUL"
  {
    TrUpperMap("istanbul");
  }

  /** Examples the project's unit tests check. */
  lemma TrLowerExamples()
    ensures TrLower("IĞDIR") == "ığdır"
    ensures TrLower("ÇORUM") == "çorum"
  {
  }

  // ---------------------------------------------------------------------------
  // Currency codes
  // ---------------------------------------------------------------------------

  const Currencies: set<string> := {"EUR", "USD", "GBP", "TL", "TRY"}

  /** The Python value a sheet cell holds. */
  function CellValue(c: Cell): (v: Scalar)
    ensures v.Missing? <==> c.Blank?
    ensures c.Text? ==> v == Str(c.s)
  {
    match c
    case Blank => Missing
    case Text(s) => Str(s)
  }

  /** `clean_currency_code(val)`: the trimmed, upper-cased code when it is one
      of the five known currencies, `None` otherwise (a number's text is never
      a currency code). */
  function CleanCurrencyCode(v: Scalar): (r: Option<string>)
    ensures r.Some? ==> r.value in Currencies
    ensures r.Some? <==> v.Str? && Upper(Strip(v.s)) in Currencies
    ensures r.Some? ==> r.value == Upper(Strip(v.s))
  {
    match v
    case Str(s) =>
      var u := Upper(Strip(s));
      if u in Currencies then Some(u) else None
    case _ => None
  }

  lemma {:induction false} UpperAppend(a: string, b: string)
    ensures Upper(a + b) == Upper(a) + Upper(b)
  {
    if a != [] {
      assert (a + b)[1..] == a[1..] + b;
      UpperAppend(a[1..], b);
    } else {
      assert a + b == b;
    }
  }

  lemma UpperCharIdempotent(c: char)
    ensures Upper(UpperChar(c)) == UpperChar(c)
  {
    var u := UpperChar(c);
    if c == 'ß' {
      assert u == "S" + "S";
      UpperAppend("S", "S");
    } else {
      assert |u| == 1;
      assert Upper(u) == UpperChar(u[0]) + Upper([]);
    }
  }

  /** Upper-casing twice changes nothing more. */
  lemma {:induction false} UpperIdempotent(s: string)
    ensures Upper(Upper(s)) == Upper(s)
  {
    if s != [] {
      UpperAppend(UpperChar(s[0]), Upper(s[1..]));
      UpperCharIdempotent(s[0]);
      UpperIdempotent(s[1..]);
    }
  }

  /** The micro sign upper-cases to the Greek capital mu: "5 µm" gives "5 ΜM". */
  lemma UpperMicroSign()
    ensures Upper("5 \U{00B5}m") == "5 \U{039C}M"
  {
    assert Upper("m") == "M" + Upper([]);
    assert Upper("\U{00B5}m") == "\U{039C}" + Upper("m");
  }

  lemma UpperCharNotSpace(c: char)
    requires !IsSpace(c)
    ensures !IsSpace(UpperChar(c)[0]) && !IsSpace(UpperChar(c)[|UpperChar(c)| - 1])
  {
  }

  lemma UpperEnds(s: string)
    requires s != []
    ensures |Upper(s)| > 0
    ensures Upper(s)[0] == UpperChar(s[0])[0]
    ensures Upper(s)[|Upper(s)| - 1] == UpperChar(s[|s| - 1])[|UpperChar(s[|s| - 1])| - 1]
  {
    var n := |s| - 1;
    assert s == s[..n] + [s[n]];
    UpperAppend(s[..n], [s[n]]);
    assert Upper([s[n]]) == UpperChar(s[n]) + Upper([]);
  }

  /** Upper-casing keeps the ends of a stripped text free of whitespace. */
  lemma UpperKeepsStripped(s: string)
    requires s == [] || (!IsSpace(s[0]) && !IsSpace(s[|s| - 1]))
    ensures Strip(Upper(s)) == Upper(s)
  {
    if s != [] {
      UpperCleanEnds(s);
    } else {
      assert Upper(s) == [];
      StripClean([]);
    }
  }

  lemma UpperCleanEnds(s: string)
    requires s != [] && !IsSpace(s[0]) && !IsSpace(s[|s| - 1])
    ensures Strip(Upper(s)) == Upper(s)
  {
    UpperEndsNotSpace(s);
    StripCleanEnds(Upper(s));
  }

  lemma UpperEndsNotSpace(s: string)
    requires CleanEnds(s)
    ensures CleanEnds(Upper(s))
  {
    var u, a, b := Upper(s), UpperChar(s[0]), UpperChar(s[|s| - 1]);
    UpperEnds(s);
    UpperCharNotSpace(s[0]);
    UpperCharNotSpace(s[|s| - 1]);
    assert u[0] == a[0] && !IsSpace(a[0]);
    assert u[|u| - 1] == b[|b| - 1] && !IsSpace(b[|b| - 1]);
  }

  lemma TrUpperCharNotSpace(c: char)
    requires !IsSpace(c)
    ensures |TrUpperChar(c)| >= 1
    ensures !IsSpace(TrUpperChar(c)[0]) && !IsSpace(TrUpperChar(c)[|TrUpperChar(c)| - 1])
  {
    if c != 'i' {
      UpperCharNotSpace(c);
    }
  }

  lemma TrUpperEnds(s: string)
    requires s != []
    ensures |TrUpper(s)| > 0
    ensures TrUpper(s)[0] == TrUpperChar(s[0])[0]
    ensures TrUpper(s)[|TrUpper(s)| - 1] == TrUpperChar(s[|s| - 1])[|TrUpperChar(s[|s| - 1])| - 1]
  {
    var n := |s| - 1;
    assert s == s[..n] + [s[n]];
    TrUpperAppend(s[..n], [s[n]]);
    assert TrUpper([s[n]]) == TrUpperChar(s[n]) + TrUpper([]);
  }

  /** `tr_upper` keeps the ends of a stripped text free of whitespace. */
  lemma TrUpperKeepsStripped(s: string)
    requires s == [] || (!IsSpace(s[0]) && !IsSpace(s[|s| - 1]))
    ensures Strip(TrUpper(s)) == TrUpper(s)
    ensures s != [] ==> TrUpper(s) != []
  {
    if s != [] {
      TrUpperCleanEnds(s);
    } else {
      assert TrUpper(s) == [];
    }
    StripClean(TrUpper(s));
  }

  lemma TrUpperCleanEnds(s: string)
    requires s != [] && !IsSpace(s[0]) && !IsSpace(s[|s| - 1])
    ensures TrUpper(s) != [] && !IsSpace(TrUpper(s)[0]) && !IsSpace(TrUpper(s)[|TrUpper(s)| - 1])
  {
    TrUpperEnds(s);
    TrUpperHeadNotSpace(s);
    TrUpperLastNotSpace(s);
  }

  lemma TrUpperHeadNotSpace(s: string)
    requires s != [] && !IsSpace(s[0])
    requires |TrUpper(s)| > 0 && TrUpper(s)[0] == TrUpperChar(s[0])[0]
    ensures !IsSpace(TrUpper(s)[0])
  {
    TrUpperCharNotSpace(s[0]);
  }

  lemma TrUpperLastNotSpace(s: string)
    requires s != [] && !IsSpace(s[|s| - 1])
    requires |TrUpper(s)| > 0
    requires TrUpper(s)[|TrUpper(s)| - 1] == TrUpperChar(s[|s| - 1])[|TrUpperChar(s[|s| - 1])| - 1]
    ensures !IsSpace(TrUpper(s)[|TrUpper(s)| - 1])
  {
    TrUpperCharNotSpace(s[|s| - 1]);
  }

  /** A cleaned code is its own clean code. */
  lemma CleanCurrencyCodeIdempotent(v: Scalar)
    requires CleanCurrencyCode(v).Some?
    ensures CleanCurrencyCode(Str(CleanCurrencyCode(v).value)) == CleanCurrencyCode(v)
  {
    var t := Strip(v.s);
    var u := Upper(t);
    UpperKeepsStripped(t);
    UpperIdempotent(t);
    assert Upper(Strip(u)) == u;
  }

  /** Examples the project's unit tests check. */
  lemma CleanCurrencyCodeExamples()
    ensures CleanCurrencyCode(Str("EUR")) == Some("EUR")
    ensures CleanCurrencyCode(Missing) == None
  {
    StripClean("EUR");
    UpperMap("EUR");
    assert Upper("EUR") == "EUR";
  }

  /** An example the project's unit tests check: unknown codes are refused. */
  lemma CleanCurrencyCodeUnknown()
    ensures CleanCurrencyCode(Str("XYZ")) == None
  {
    StripClean("XYZ");
    UpperMap("XYZ");
  }

  /** Examples the project's unit tests check: surrounding blanks and lower
      case are cleaned away. */
  lemma CleanCurrencyCodePadded()
    ensures CleanCurrencyCode(Str("usd ")) == Some("USD")
  {
    StripPadded("", "usd", " ");
    assert "" + "usd" + " " == "usd ";
    UpperMap("usd");
    assert Upper("usd") == "USD";
  }

  // ---------------------------------------------------------------------------
  // Yearly exchange rate and percentage delta
  // ---------------------------------------------------------------------------

  /** Per year, the EUR value of one unit of each currency. */
  type RateTable = map<int, map<string, real>>

  /** The project's yearly average rates, 2017 to 2026. */
  const YearlyExchangeRates: RateTable := map[
    2017 := map["EUR" := 1.0, "USD" := 0.89, "GBP" := 1.14, "TL" := 0.235, "TRY" := 0.235],
    2018 := map["EUR" := 1.0, "USD" := 0.85, "GBP" := 1.13, "TL" := 0.185, "TRY" := 0.185],
    2019 := map["EUR" := 1.0, "USD" := 0.89, "GBP" := 1.14, "TL" := 0.160, "TRY" := 0.160],
    2020 := map["EUR" := 1.0, "USD" := 0.88, "GBP" := 1.13, "TL" := 0.125, "TRY" := 0.125],
    2021 := map["EUR" := 1.0, "USD" := 0.85, "GBP" := 1.17, "TL" := 0.096, "TRY" := 0.096],
    2022 := map["EUR" := 1.0, "USD" := 0.96, "GBP" := 1.18, "TL" := 0.058, "TRY" := 0.058],
    2023 := map["EUR" := 1.0, "USD" := 0.93, "GBP" := 1.15, "TL" := 0.039, "TRY" := 0.039],
    2024 := map["EUR" := 1.0, "USD" := 0.93, "GBP" := 1.18, "TL" := 0.029, "TRY" := 0.029],
    2025 := map["EUR" := 1.0, "USD" := 0.90, "GBP" := 1.17, "TL" := 0.023, "TRY" := 0.023],
    2026 := map["EUR" := 1.0, "USD" := 0.92, "GBP" := 1.18, "TL" := 0.022, "TRY" := 0.022]
  ]

  lemma NoMemberEmpty(s: set<int>)
    requires forall x :: x !in s
    ensures s == {}
  {
    assert forall x :: x in s <==> x in {};
  }

  /** A non-empty finite set of integers has a largest element. */
  lemma {:induction false} MaxOf(s: set<int>) returns (m: int)
    requires s != {}
    ensures m in s && forall y :: y in s ==> y <= m
    decreases |s|
  {
    if forall x :: x !in s {
      NoMemberEmpty(s);
      assert false;
    }
    var x :| x in s;
    if s == {x} {
      m := x;
    } else {
      var m' := MaxOf(s - {x});
      m := if x > m' then x else m';
      forall y | y in s ensures y <= m {
        if y != x { assert y in s - {x}; }
      }
    }
  }

  lemma MaxExists(s: set<int>)
    requires s != {}
    ensures exists m :: m in s && forall y :: y in s ==> y <= m
  {
    var m := MaxOf(s);
  }

  /** `max(keys)` of a non-empty set of years. */
  function MaxYear(s: set<int>): (m: int)
    requires s != {}
    ensures m in s && forall y :: y in s ==> y <= m
  {
    MaxExists(s);
    var m :| m in s && forall y :: y in s ==> y <= m;
    m
  }

  /** `get_exchange_rate(currency, year)` over a yearly table: 0 for a blank or
      unknown currency; otherwise the rate in that year's table, or in the
      latest year's table when the year is absent, 0 when the table lacks the
      currency. The table is a non-empty constant in the program. */
  function GetExchangeRate(currency: Scalar, year: int, table: RateTable): (r: real)
    requires table != map[]
    ensures !(currency.Str? && Upper(Strip(currency.s)) in Currencies) ==> r == 0.0
    ensures currency.Str? && Upper(Strip(currency.s)) in Currencies ==>
      var code := Upper(Strip(currency.s));
      var target := if year in table then year else MaxYear(table.Keys);
      target in table && r == (if code in table[target] then table[target][code] else 0.0)
  {
    match currency
    case Str(s) =>
      var code := Upper(Strip(s));
      if Strip(s) == [] || code !in Currencies then 0.0
      else
        var target := if year in table then year else MaxYear(table.Keys);
        if code in table[target] then table[target][code] else 0.0
    case _ => 0.0
  }

  /** A year missing from the table is served from the latest year. */
  lemma GetExchangeRateFallback(currency: Scalar, year: int, table: RateTable)
    requires table != map[] && year !in table
    ensures GetExchangeRate(currency, year, table)
         == GetExchangeRate(currency, MaxYear(table.Keys), table)
  {
  }

  /** The latest year of the project's table is 2026. */
  lemma LatestRateYear()
    ensures YearlyExchangeRates != map[]
    ensures MaxYear(YearlyExchangeRates.Keys) == 2026
  {
    var ks := YearlyExchangeRates.Keys;
    assert ks == {2017, 2018, 2019, 2020, 2021, 2022, 2023, 2024, 2025, 2026};
    assert 2026 in ks;
  }

  /** An example the project's unit tests check. */
  lemma GetExchangeRateExample()
    ensures YearlyExchangeRates != map[]
    ensures GetExchangeRate(Str("USD"), 2024, YearlyExchangeRates) == 0.93
  {
    UsdCode();
    Usd2024();
    GetExchangeRateOfCode("USD", 2024, YearlyExchangeRates);
  }

  /** A clean, known code of a year in the table gets that year's rate. */
  lemma GetExchangeRateOfCode(code: string, year: int, table: RateTable)
    requires CleanEnds(code) && Upper(code) == code && code in Currencies
    requires year in table && code in table[year]
    ensures GetExchangeRate(Str(code), year, table) == table[year][code]
  {
    StripCleanEnds(code);
  }

  lemma Usd2024()
    ensures 2024 in YearlyExchangeRates && "USD" in YearlyExchangeRates[2024]
    ensures YearlyExchangeRates[2024]["USD"] == 0.93
  {
  }

  lemma UsdCode()
    ensures CleanEnds("USD") && Upper("USD") == "USD" && "USD" in Currencies
  {
    UpperMap("USD");
    assert Upper("USD") == "USD";
  }

  /** `calculate_delta(current, previous)`: percentage change, with 100 for
      growth from 0 and 0 otherwise when the previous value is 0. */
  function CalculateDelta(current: real, previous: real): (r: real)
    ensures previous != 0.0 ==> previous + r * previous / 100.0 == current
    ensures previous == 0.0 ==> (r == 100.0 <==> current > 0.0) && (r == 0.0 <==> current <= 0.0)
  {
    if previous == 0.0 then (if current > 0.0 then 100.0 else 0.0)
    else ((current - previous) / previous) * 100.0
  }

  /** Against a positive previous value the delta has the sign of the change. */
  lemma CalculateDeltaSign(current: real, previous: real)
    requires previous > 0.0
    ensures CalculateDelta(current, previous) > 0.0 <==> current > previous
    ensures CalculateDelta(current, previous) < 0.0 <==> current < previous
  {
    var r := CalculateDelta(current, previous);
    assert r * previous == (current - previous) * 100.0;
  }

  lemma CalculateDeltaExamples()
    ensures CalculateDelta(150.0, 100.0) == 50.0
    ensures CalculateDelta(50.0, 100.0) == -50.0
    ensures CalculateDelta(100.0, 100.0) == 0.0
    ensures CalculateDelta(100.0, 0.0) == 100.0
    ensures CalculateDelta(0.0, 0.0) == 0.0
  {
  }

  // ---------------------------------------------------------------------------
  // Money: shared pieces
  // ---------------------------------------------------------------------------

  predicate MoneyChar(c: char)
  {
    IsDigit(c) || c == '.' || c == ','
  }

  predicate MoneyText(s: string)
  {
    forall i :: 0 <= i < |s| ==> MoneyChar(s[i])
  }

  /** `str(val).strip().split(' ')[0]`: the first blank-delimited token. */
  function MoneyToken(s: string): string
  {
    FirstToken(Strip(s))
  }

  /** `"".join(c for c in s if c.isdigit() or c in ".,")`, or the regex
      replacement of `[^0-9.,]` by "". */
  function KeepMoneyChars(s: string): (r: string)
    ensures MoneyText(r) && |r| <= |s|
    ensures MoneyText(s) ==> r == s
    ensures (forall i :: 0 <= i < |s| ==> !MoneyChar(s[i])) ==> r == []
  {
    if s == [] then []
    else if MoneyChar(s[0]) then [s[0]] + KeepMoneyChars(s[1..])
    else KeepMoneyChars(s[1..])
  }

  /** `float(s)`, or `to_numeric(s, errors="coerce")` followed by `fillna(0)`. */
  function ParseOrZero(s: string): (r: real)
    ensures r >= 0.0
  {
    match ParseDecimal(s)
    case Some(x) => x
    case None => 0.0
  }

  /** A money token followed by nothing or by a blank and anything. */
  lemma MoneyTokenOf(t: string, rest: string)
    requires t != [] && MoneyText(t)
    requires rest == [] || rest[0] == ' '
    ensures MoneyToken(t + rest) == t
  {
    var s := t + rest;
    assert !IsSpace(s[0]);
    assert TrimLeft(s) == s;
    var r := TrimRight(s);
    assert !IsSpace(s[|t| - 1]);
    assert |r| >= |t|;
    assert r == t + r[|t|..];
    FirstTokenOfPrefix(t, r[|t|..]);
  }

  // ----- digit groups -----

  predicate DigitGroups(gs: seq<string>)
  {
    |gs| >= 1 && forall i :: 0 <= i < |gs| ==> gs[i] != [] && AllDigits(gs[i])
  }

  /** Digit groups joined by a separator: ["1", "000"] and '.' give "1.000". */
  function Grouped(gs: seq<string>, sep: char): string
  {
    if gs == [] then []
    else if |gs| == 1 then gs[0]
    else gs[0] + [sep] + Grouped(gs[1..], sep)
  }

  /** The digits of all groups. */
  function Ungrouped(gs: seq<string>): (r: string)
    ensures (forall i :: 0 <= i < |gs| ==> AllDigits(gs[i])) ==> AllDigits(r)
  {
    if gs == [] then [] else gs[0] + Ungrouped(gs[1..])
  }

  lemma GroupedShape(gs: seq<string>, sep: char)
    requires DigitGroups(gs) && !IsDigit(sep)
    ensures |Grouped(gs, sep)| > 0 && IsDigit(Grouped(gs, sep)[0])
    ensures forall i :: 0 <= i < |Grouped(gs, sep)| ==> IsDigit(Grouped(gs, sep)[i]) || Grouped(gs, sep)[i] == sep
    ensures sep in Grouped(gs, sep) <==> |gs| >= 2
    ensures RemoveChar(Grouped(gs, sep), sep) == Ungrouped(gs)
    ensures AllDigits(Ungrouped(gs)) && Ungrouped(gs) != []
  {
    GroupedChars(gs, sep);
    GroupedDigits(gs, sep);
    assert gs[0] != [] && Ungrouped(gs) == gs[0] + Ungrouped(gs[1..]);
  }

  /** The characters of grouped digits: digits and separators, a digit first,
      and a separator exactly when there are two groups or more. */
  lemma {:induction false} GroupedChars(gs: seq<string>, sep: char)
    requires DigitGroups(gs) && !IsDigit(sep)
    ensures |Grouped(gs, sep)| > 0 && IsDigit(Grouped(gs, sep)[0])
    ensures forall i :: 0 <= i < |Grouped(gs, sep)| ==> IsDigit(Grouped(gs, sep)[i]) || Grouped(gs, sep)[i] == sep
    ensures sep in Grouped(gs, sep) <==> |gs| >= 2
  {
    if |gs| > 1 {
      GroupedChars(gs[1..], sep);
      var g, t := gs[0], Grouped(gs[1..], sep);
      assert Grouped(gs, sep) == g + [sep] + t;
      assert Grouped(gs, sep)[|g|] == sep;
    }
  }

  /** Dropping the separators of grouped digits leaves the digits of the groups. */
  lemma {:induction false} GroupedDigits(gs: seq<string>, sep: char)
    requires DigitGroups(gs) && !IsDigit(sep)
    ensures RemoveChar(Grouped(gs, sep), sep) == Ungrouped(gs)
  {
    var g := gs[0];
    assert sep !in g by {
      assert AllDigits(g);
    }
    RemoveCharAbsent(g, sep);
    if |gs| == 1 {
      assert Ungrouped(gs) == g + [];
    } else {
      var rest := gs[1..];
      assert DigitGroups(rest) by {
        assert forall i :: 0 <= i < |rest| ==> rest[i] == gs[i + 1];
      }
      GroupedDigits(rest, sep);
      var t := Grouped(rest, sep);
      assert Grouped(gs, sep) == g + [sep] + t;
      assert Ungrouped(gs) == g + Ungrouped(rest);
      RemoveCharMid(g, sep, t, sep);
    }
  }

  lemma {:induction false} RemoveCharAppend(a: string, b: string, c: char)
    ensures RemoveChar(a + b, c) == RemoveChar(a, c) + RemoveChar(b, c)
  {
    if a != [] {
      assert (a + b)[1..] == a[1..] + b;
      RemoveCharAppend(a[1..], b, c);
    } else {
      assert a + b == b;
    }
  }

  lemma {:induction false} RemoveCharAbsent(s: string, c: char)
    requires c !in s
    ensures RemoveChar(s, c) == s
  {
    if s != [] {
      RemoveCharAbsent(s[1..], c);
      assert s == [s[0]] + s[1..];
    }
  }

  lemma RemoveCharMid(a: string, x: char, b: string, c: char)
    ensures RemoveChar(a + [x] + b, c) == RemoveChar(a, c) + (if x == c then [] else [x]) + RemoveChar(b, c)
  {
    RemoveCharAppend(a + [x], b, c);
    RemoveCharAppend(a, [x], c);
  }

  lemma ReplaceCharMid(a: string, x: char, b: string, y: char)
    requires x !in a && x !in b
    ensures ReplaceChar(a + [x] + b, x, y) == a + [y] + b
  {
    var s := a + [x] + b;
    assert forall i :: 0 <= i < |a| ==> s[i] == a[i];
    assert forall i :: |a| < i < |s| ==> s[i] == b[i - |a| - 1];
  }

  lemma LastIndexOfMid(a: string, x: char, b: string, c: char)
    requires c !in b
    ensures x == c ==> LastIndexOf(a + [x] + b, c) == |a|
    ensures x != c ==> LastIndexOf(a + [x] + b, c) < |a|
  {
    var s := a + [x] + b;
    assert s[|a|] == x;
    assert forall i :: |a| < i < |s| ==> s[i] == b[i - |a| - 1];
  }

  lemma IndexOfMid(a: string, x: char, b: string)
    requires x !in a
    ensures IndexOf(a + [x] + b, x) == |a|
  {
    var s := a + [x] + b;
    assert s[|a|] == x;
    assert forall i :: 0 <= i < |a| ==> s[i] == a[i];
  }

  lemma CountCharMid(a: string, x: char, b: string)
    requires x !in a && x !in b
    ensures CountChar(a + [x] + b, x) == 1
  {
    CountCharAppend(a + [x], b, x);
    CountCharAppend(a, [x], x);
    CountCharZero(a, x);
    CountCharZero(b, x);
  }

  // ---------------------------------------------------------------------------
  // Money: clean_money_text
  // ---------------------------------------------------------------------------

  /** Exactly one dot with exactly three characters after it
      (`len(s.split('.')) == 2 and len(parts[1]) == 3`). */
  predicate DotThousands(k: string)
  {
    CountChar(k, '.') == 1 && |k| - IndexOf(k, '.') - 1 == 3
  }

  /** The separator rules of `clean_money_text`: with both separators the
      later one is the decimal separator, a lone comma is decimal, and a lone
      dot followed by exactly three characters is a thousands separator. */
  function NormalizeSeparators(k: string): string
  {
    if '.' in k && ',' in k then
      if LastIndexOf(k, '.') > LastIndexOf(k, ',') then RemoveChar(k, ',')
      else ReplaceChar(RemoveChar(k, '.'), ',', '.')
    else if ',' in k then ReplaceChar(k, ',', '.')
    else if '.' in k && DotThousands(k) then RemoveChar(k, '.')
    else k
  }

  /** `clean_money_text(val)`: None/NaN gives 0, a number is returned as is,
      text is reduced to its first token's digits and separators, the
      separators are resolved, and anything `float()` rejects gives 0. */
  function CleanMoneyText(v: Scalar): (r: real)
    ensures v.Missing? ==> r == 0.0
    ensures v.Num? ==> r == v.v
    ensures v.Str? ==> r >= 0.0
    ensures v.Str? && KeepMoneyChars(MoneyToken(v.s)) == [] ==> r == 0.0
  {
    match v
    case Missing => 0.0
    case Num(x) => x
    case Str(s) =>
      var k := KeepMoneyChars(MoneyToken(s));
      if k == [] then 0.0 else ParseOrZero(NormalizeSeparators(k))
  }

  /** Text that begins with a money token is read from that token alone. */
  lemma CleanMoneyTextOfToken(k: string, rest: string)
    requires k != [] && MoneyText(k)
    requires rest == [] || rest[0] == ' '
    ensures CleanMoneyText(Str(k + rest)) == ParseOrZero(NormalizeSeparators(k))
  {
    MoneyTokenOf(k, rest);
  }

  lemma NormalizeTurkish(gs: seq<string>, fp: string)
    requires DigitGroups(gs) && AllDigits(fp)
    ensures NormalizeSeparators(Grouped(gs, '.') + [','] + fp) == Ungrouped(gs) + ['.'] + fp
  {
    var g := Grouped(gs, '.');
    GroupedShape(gs, '.');
    var k := g + [','] + fp;
    var ip := Ungrouped(gs);
    assert ',' !in g && ',' !in ip;
    assert '.' !in fp && ',' !in fp;
    assert k[|g|] == ',';
    if |gs| >= 2 {
      var i :| 0 <= i < |g| && g[i] == '.';
      assert k[i] == '.';
      LastIndexOfMid(g, ',', fp, ',');
      LastIndexOfMid(g, ',', fp, '.');
      RemoveCharMid(g, ',', fp, '.');
      RemoveCharAbsent(fp, '.');
      ReplaceCharMid(ip, ',', fp, '.');
    } else {
      assert '.' !in k;
      RemoveCharAbsent(g, '.');
      ReplaceCharMid(g, ',', fp, '.');
    }
  }

  lemma NormalizeUSGrouped(gs: seq<string>, fp: string)
    requires DigitGroups(gs) && |gs| >= 2 && AllDigits(fp)
    ensures NormalizeSeparators(Grouped(gs, ',') + ['.'] + fp) == Ungrouped(gs) + ['.'] + fp
  {
    var g := Grouped(gs, ',');
    GroupedShape(gs, ',');
    var k := g + ['.'] + fp;
    assert '.' !in g;
    assert '.' !in fp && ',' !in fp;
    assert k[|g|] == '.';
    var i :| 0 <= i < |g| && g[i] == ',';
    assert k[i] == ',';
    LastIndexOfMid(g, '.', fp, ',');
    LastIndexOfMid(g, '.', fp, '.');
    RemoveCharMid(g, '.', fp, ',');
    RemoveCharAbsent(fp, ',');
  }

  lemma NormalizeUSPlain(ip: string, fp: string)
    requires ip != [] && AllDigits(ip) && AllDigits(fp) && |fp| != 3
    ensures NormalizeSeparators(ip + ['.'] + fp) == ip + ['.'] + fp
  {
    var k := ip + ['.'] + fp;
    assert '.' !in ip && ',' !in k;
    assert k[|ip|] == '.';
    IndexOfMid(ip, '.', fp);
  }

  lemma NormalizeUS(gs: seq<string>, fp: string)
    requires DigitGroups(gs) && AllDigits(fp)
    requires |gs| >= 2 || |fp| != 3
    ensures NormalizeSeparators(Grouped(gs, ',') + ['.'] + fp) == Ungrouped(gs) + ['.'] + fp
  {
    if |gs| >= 2 {
      NormalizeUSGrouped(gs, fp);
    } else {
      GroupedShape(gs, ',');
      assert ',' !in Grouped(gs, ',');
      RemoveCharAbsent(Grouped(gs, ','), ',');
      NormalizeUSPlain(Ungrouped(gs), fp);
    }
  }

  lemma NormalizeDotThousands(ip: string, fp: string)
    requires AllDigits(ip) && AllDigits(fp) && |fp| == 3
    ensures NormalizeSeparators(ip + ['.'] + fp) == ip + fp
  {
    var k := ip + ['.'] + fp;
    assert '.' !in ip && '.' !in fp && ',' !in k;
    assert k[|ip|] == '.';
    IndexOfMid(ip, '.', fp);
    CountCharMid(ip, '.', fp);
    RemoveDotMid(ip, fp);
  }

  /** Turkish convention: dot-grouped integer part and a decimal comma
      ("1.000,50 TL" is 1000.50). */
  lemma CleanMoneyTextTurkish(gs: seq<string>, fp: string, rest: string)
    requires DigitGroups(gs) && AllDigits(fp)
    requires rest == [] || rest[0] == ' '
    ensures CleanMoneyText(Str(Grouped(gs, '.') + [','] + fp + rest)) == DecimalValue(Ungrouped(gs), fp)
  {
    GroupedToken(gs, '.', ',', fp);
    CleanMoneyTextOfToken(Grouped(gs, '.') + [','] + fp, rest);
    NormalizeTurkish(gs, fp);
    ParseDecimalPoint(Ungrouped(gs), fp);
  }

  /** US convention: comma-grouped integer part and a decimal point; a lone
      point followed by exactly three digits is read as a thousands separator
      instead, so that case is excluded here. */
  lemma CleanMoneyTextUS(gs: seq<string>, fp: string, rest: string)
    requires DigitGroups(gs) && AllDigits(fp)
    requires |gs| >= 2 || |fp| != 3
    requires rest == [] || rest[0] == ' '
    ensures CleanMoneyText(Str(Grouped(gs, ',') + ['.'] + fp + rest)) == DecimalValue(Ungrouped(gs), fp)
  {
    GroupedToken(gs, ',', '.', fp);
    CleanMoneyTextOfToken(Grouped(gs, ',') + ['.'] + fp, rest);
    NormalizeUS(gs, fp);
    ParseDecimalPoint(Ungrouped(gs), fp);
  }

  /** A lone point followed by exactly three digits is a thousands separator
      ("1.234" is 1234). */
  lemma CleanMoneyTextDotThousands(ip: string, fp: string, rest: string)
    requires ip != [] && AllDigits(ip) && |fp| == 3 && AllDigits(fp)
    requires rest == [] || rest[0] == ' '
    ensures AllDigits(ip + fp)
    ensures CleanMoneyText(Str(ip + ['.'] + fp + rest)) == DigitsValue(ip + fp) as real
  {
    CleanMoneyTextOfToken(ip + ['.'] + fp, rest);
    NormalizeDotThousands(ip, fp);
    ParseDigits(ip + fp);
  }

  /** Plain digits are read as an integer. */
  lemma CleanMoneyTextInteger(ip: string, rest: string)
    requires ip != [] && AllDigits(ip)
    requires rest == [] || rest[0] == ' '
    ensures CleanMoneyText(Str(ip + rest)) == DigitsValue(ip) as real
  {
    CleanMoneyTextOfToken(ip, rest);
    ParseDecimalInteger(ip);
  }

  lemma TwoDotsKept(a: string, b: string, c: string)
    requires AllDigits(a) && AllDigits(b) && AllDigits(c)
    ensures NormalizeSeparators(a + ['.'] + b + ['.'] + c) == a + ['.'] + b + ['.'] + c
  {
    var k := a + ['.'] + b + ['.'] + c;
    assert '.' !in a && '.' !in b && '.' !in c && ',' !in k;
    assert k == (a + ['.'] + b) + (['.'] + c);
    CountCharAppend(a + ['.'] + b, ['.'] + c, '.');
    CountCharMid(a, '.', b);
    CountCharAppend(['.'], c, '.');
    CountCharZero(c, '.');
  }

  lemma TwoDotsRejected(a: string, b: string, c: string)
    requires AllDigits(a) && AllDigits(b) && AllDigits(c)
    ensures ParseDecimal(a + ['.'] + b + ['.'] + c) == None
  {
    var t := b + ['.'] + c;
    var k := a + ['.'] + t;
    assert '.' !in a;
    IndexOfMid(a, '.', t);
    assert k[|a| + 1..] == t;
    assert t[|b|] == '.';
    assert a + ['.'] + b + ['.'] + c == k;
  }

  /** Two dots and no comma: `float()` rejects the text and the value is 0. */
  lemma CleanMoneyTextTwoDots(a: string, b: string, c: string)
    requires AllDigits(a) && AllDigits(b) && AllDigits(c) && a != []
    ensures CleanMoneyText(Str(a + ['.'] + b + ['.'] + c)) == 0.0
  {
    var k := a + ['.'] + b + ['.'] + c;
    assert MoneyText(k);
    assert k + [] == k;
    CleanMoneyTextOfToken(k, []);
    TwoDotsKept(a, b, c);
    TwoDotsRejected(a, b, c);
  }

  // ---------------------------------------------------------------------------
  // Money: clean_money_series, one cell at a time
  // ---------------------------------------------------------------------------

  /** `match(r".*\..*,.*")`: some dot comes before some comma. */
  predicate DotBeforeComma(s: string)
  {
    exists i, j :: 0 <= i < j < |s| && s[i] == '.' && s[j] == ','
  }

  /** `match(r"^\d+\.\d{3}$")` */
  predicate ThousandsShape(s: string)
  {
    var k := IndexOf(s, '.');
    0 < k < |s| && |s| - k - 1 == 3 && AllDigits(s[..k]) && AllDigits(s[k + 1..])
  }

  /** The three rewrites of `clean_money_series` on one text of digits, dots
      and commas: Turkish both-separator and comma-only texts lose their dots
      and get a decimal point; other both-separator texts lose their commas;
      then a comma-free text of the shape digits.ddd loses its dot. */
  function SeriesSeparators(s0: string): string
  {
    ThousandsRewrite(UsRewrite(s0, TrRewrite(s0)))
  }

  predicate BothSeparators(s: string)
  {
    '.' in s && ',' in s
  }

  /** First rewrite: Turkish both-separator texts and comma-only texts. */
  function TrRewrite(s0: string): string
  {
    if (BothSeparators(s0) && DotBeforeComma(s0)) || (!BothSeparators(s0) && ',' in s0)
    then ReplaceChar(RemoveChar(s0, '.'), ',', '.')
    else s0
  }

  /** Second rewrite, chosen on the original text: the other both-separator
      texts lose their commas. */
  function UsRewrite(s0: string, s1: string): string
  {
    if BothSeparators(s0) && !DotBeforeComma(s0) then RemoveChar(s1, ',') else s1
  }

  /** Third rewrite: a comma-free digits.ddd loses its dot. */
  function ThousandsRewrite(s2: string): string
  {
    if ',' !in s2 && '.' in s2 && ThousandsShape(s2) then RemoveChar(s2, '.') else s2
  }

  /** The text a cell has before the separator rewrites: `astype(str)`,
      strip, first blank-delimited token, digits and separators only, and
      "" replaced by "0". */
  function SeriesToken(c: Cell): (r: string)
    ensures r != [] && MoneyText(r)
  {
    var k := KeepMoneyChars(MoneyToken(CellStr(c)));
    if k == [] then "0" else k
  }

  /** The value `clean_money_series` gives one cell. */
  function CleanMoneyCell(c: Cell): (r: real)
    ensures r >= 0.0
  {
    ParseOrZero(SeriesSeparators(SeriesToken(c)))
  }

  /** `clean_money_series(series)`: the cell rule applied to every row (an
      empty series is returned as it is). */
  function CleanMoneySeries(cells: seq<Cell>): (r: seq<real>)
    ensures |r| == |cells|
    ensures forall i :: 0 <= i < |cells| ==> r[i] == CleanMoneyCell(cells[i]) && r[i] >= 0.0
  {
    seq(|cells|, i requires 0 <= i < |cells| => CleanMoneyCell(cells[i]))
  }

  /** A cell beginning with a money token is read from that token alone. */
  lemma CleanMoneyCellOfToken(k: string, rest: string)
    requires k != [] && MoneyText(k)
    requires rest == [] || rest[0] == ' '
    ensures CleanMoneyCell(Text(k + rest)) == ParseOrZero(SeriesSeparators(k))
  {
    MoneyTokenOf(k, rest);
  }

  /** Text without separators passes the rewrites unchanged. */
  lemma SeriesNoSeparators(s: string)
    requires '.' !in s && ',' !in s
    ensures SeriesSeparators(s) == s
  {
  }

  lemma {:induction false} ZerosValue(z: string)
    requires forall i :: 0 <= i < |z| ==> z[i] == '0'
    ensures AllDigits(z) && DigitsValue(z) == 0
  {
    if z != [] {
      ZerosValue(z[..|z| - 1]);
    }
  }

  /** A blank cell, or one without digits or separators, is worth 0. */
  lemma CleanMoneyCellEmpty(c: Cell)
    requires KeepMoneyChars(MoneyToken(CellStr(c))) == []
    ensures CleanMoneyCell(c) == 0.0
  {
    ZeroParses(SeriesToken(c));
  }

  lemma ZeroParses(z: string)
    requires |z| == 1 && z[0] == '0'
    ensures ParseOrZero(SeriesSeparators(z)) == 0.0
  {
    SeriesNoSeparators(z);
    ZerosValue(z);
    ParseDigits(z);
  }

  lemma NotDotBeforeComma(s: string, n: nat)
    requires n <= |s| && ',' !in s[n..] && '.' !in s[..n]
    ensures !DotBeforeComma(s)
  {
    assert forall i :: 0 <= i < n ==> s[i] == s[..n][i];
    assert forall j :: n <= j < |s| ==> s[j] == s[n..][j - n];
  }

  lemma ThousandsShapeMid(ip: string, fp: string)
    requires ip != [] && AllDigits(ip) && AllDigits(fp)
    ensures ThousandsShape(ip + ['.'] + fp) <==> |fp| == 3
  {
    var s := ip + ['.'] + fp;
    assert '.' !in ip;
    IndexOfMid(ip, '.', fp);
    assert s[..|ip|] == ip;
    assert s[|ip| + 1..] == fp;
  }

  lemma RemoveDotMid(ip: string, fp: string)
    requires AllDigits(ip) && AllDigits(fp)
    ensures RemoveChar(ip + ['.'] + fp, '.') == ip + fp
  {
    assert '.' !in ip && '.' !in fp;
    RemoveCharMid(ip, '.', fp, '.');
    RemoveCharAbsent(ip, '.');
    RemoveCharAbsent(fp, '.');
  }

  lemma ParseDigits(x: string)
    requires x != [] && AllDigits(x)
    ensures ParseOrZero(x) == DigitsValue(x) as real
  {
    ParseDecimalInteger(x);
  }

  /** Exactly three digits after the point: the point goes and the text
      is an integer. */
  lemma ParseThousands(ip: string, fp: string)
    requires ip != [] && AllDigits(ip) && AllDigits(fp)
    ensures AllDigits(ip + fp)
    ensures ParseOrZero(RemoveChar(ip + ['.'] + fp, '.')) == DigitsValue(ip + fp) as real
  {
    RemoveDotMid(ip, fp);
    ParseDigits(ip + fp);
  }

  lemma ParseDecimalText(ip: string, fp: string)
    requires ip != [] && AllDigits(ip) && AllDigits(fp)
    ensures ParseOrZero(ip + ['.'] + fp) == DecimalValue(ip, fp)
  {
    ParseDecimalPoint(ip, fp);
  }

  lemma TrRewriteTurkish(gs: seq<string>, fp: string)
    requires DigitGroups(gs) && AllDigits(fp)
    ensures TrRewrite(Grouped(gs, '.') + [','] + fp) == Ungrouped(gs) + ['.'] + fp
    ensures BothSeparators(Grouped(gs, '.') + [','] + fp) ==> DotBeforeComma(Grouped(gs, '.') + [','] + fp)
  {
    var g := Grouped(gs, '.');
    GroupedShape(gs, '.');
    var k := g + [','] + fp;
    var ip := Ungrouped(gs);
    assert ',' !in g && ',' !in ip;
    assert '.' !in fp && ',' !in fp;
    assert k[|g|] == ',';
    if |gs| >= 2 {
      var i :| 0 <= i < |g| && g[i] == '.';
      assert k[i] == '.';
      assert DotBeforeComma(k);
      RemoveCharMid(g, ',', fp, '.');
      RemoveCharAbsent(fp, '.');
    } else {
      assert '.' !in k;
      RemoveCharAbsent(k, '.');
      RemoveCharAbsent(g, '.');
    }
    ReplaceCharMid(ip, ',', fp, '.');
  }

  lemma ThousandsRewriteDecimal(ip: string, fp: string)
    requires ip != [] && AllDigits(ip) && AllDigits(fp)
    ensures ThousandsRewrite(ip + ['.'] + fp)
         == if |fp| == 3 then RemoveChar(ip + ['.'] + fp, '.') else ip + ['.'] + fp
  {
    var s1 := ip + ['.'] + fp;
    assert ',' !in s1 && s1[|ip|] == '.';
    ThousandsShapeMid(ip, fp);
  }

  lemma SeriesTurkish(gs: seq<string>, fp: string)
    requires DigitGroups(gs) && AllDigits(fp)
    ensures SeriesSeparators(Grouped(gs, '.') + [','] + fp)
         == var s1 := Ungrouped(gs) + ['.'] + fp;
            if |fp| == 3 then RemoveChar(s1, '.') else s1
  {
    GroupedShape(gs, '.');
    TrRewriteTurkish(gs, fp);
    ThousandsRewriteDecimal(Ungrouped(gs), fp);
  }

  lemma UsRewriteUS(gs: seq<string>, fp: string)
    requires DigitGroups(gs) && |gs| >= 2 && AllDigits(fp)
    ensures TrRewrite(Grouped(gs, ',') + ['.'] + fp) == Grouped(gs, ',') + ['.'] + fp
    ensures UsRewrite(Grouped(gs, ',') + ['.'] + fp, Grouped(gs, ',') + ['.'] + fp) == Ungrouped(gs) + ['.'] + fp
  {
    UsSeparators(gs, fp);
    UsCommasRemoved(gs, fp);
  }

  /** A US amount has both separators, its dot after every comma. */
  lemma UsSeparators(gs: seq<string>, fp: string)
    requires DigitGroups(gs) && |gs| >= 2 && AllDigits(fp)
    ensures BothSeparators(Grouped(gs, ',') + ['.'] + fp)
    ensures !DotBeforeComma(Grouped(gs, ',') + ['.'] + fp)
  {
    var g := Grouped(gs, ',');
    GroupedChars(gs, ',');
    var tail := ['.'] + fp;
    var k := g + tail;
    assert k == g + ['.'] + fp;
    assert '.' !in g;
    assert ',' !in tail;
    assert k[|g|] == '.';
    var i :| 0 <= i < |g| && g[i] == ',';
    assert k[i] == ',';
    assert k[..|g|] == g && k[|g|..] == tail;
    NotDotBeforeComma(k, |g|);
  }

  /** Dropping the commas of a US amount leaves its digits and its dot. */
  lemma UsCommasRemoved(gs: seq<string>, fp: string)
    requires DigitGroups(gs) && AllDigits(fp)
    ensures RemoveChar(Grouped(gs, ',') + ['.'] + fp, ',') == Ungrouped(gs) + ['.'] + fp
  {
    GroupedDigits(gs, ',');
    assert ',' !in fp;
    RemoveCharMid(Grouped(gs, ','), '.', fp, ',');
    RemoveCharAbsent(fp, ',');
  }

  lemma SeriesUS(gs: seq<string>, fp: string)
    requires DigitGroups(gs) && |gs| >= 2 && AllDigits(fp)
    ensures SeriesSeparators(Grouped(gs, ',') + ['.'] + fp)
         == var s1 := Ungrouped(gs) + ['.'] + fp;
            if |fp| == 3 then RemoveChar(s1, '.') else s1
  {
    GroupedShape(gs, ',');
    UsRewriteUS(gs, fp);
    ThousandsRewriteDecimal(Ungrouped(gs), fp);
  }

  /** A digit group text with one more separator and a digit tail is a money
      token. */
  lemma GroupedToken(gs: seq<string>, sep: char, x: char, fp: string)
    requires DigitGroups(gs) && (sep == '.' || sep == ',') && (x == '.' || x == ',') && AllDigits(fp)
    ensures MoneyText(Grouped(gs, sep) + [x] + fp) && Grouped(gs, sep) != []
    ensures AllDigits(Ungrouped(gs)) && Ungrouped(gs) != []
  {
    GroupedShape(gs, sep);
  }

  lemma SeriesTurkishValue(gs: seq<string>, fp: string)
    requires DigitGroups(gs) && AllDigits(fp)
    ensures AllDigits(Ungrouped(gs)) && AllDigits(Ungrouped(gs) + fp)
    ensures |fp| != 3 ==> ParseOrZero(SeriesSeparators(Grouped(gs, '.') + [','] + fp)) == DecimalValue(Ungrouped(gs), fp)
    ensures |fp| == 3 ==> ParseOrZero(SeriesSeparators(Grouped(gs, '.') + [','] + fp)) == DigitsValue(Ungrouped(gs) + fp) as real
  {
    GroupedShape(gs, '.');
    SeriesTurkish(gs, fp);
    if |fp| == 3 {
      ParseThousands(Ungrouped(gs), fp);
    } else {
      ParseDecimalText(Ungrouped(gs), fp);
    }
  }

  lemma SeriesUSValue(gs: seq<string>, fp: string)
    requires DigitGroups(gs) && |gs| >= 2 && AllDigits(fp)
    ensures AllDigits(Ungrouped(gs)) && AllDigits(Ungrouped(gs) + fp)
    ensures |fp| != 3 ==> ParseOrZero(SeriesSeparators(Grouped(gs, ',') + ['.'] + fp)) == DecimalValue(Ungrouped(gs), fp)
    ensures |fp| == 3 ==> ParseOrZero(SeriesSeparators(Grouped(gs, ',') + ['.'] + fp)) == DigitsValue(Ungrouped(gs) + fp) as real
  {
    GroupedShape(gs, ',');
    SeriesUS(gs, fp);
    if |fp| == 3 {
      ParseThousands(Ungrouped(gs), fp);
    } else {
      ParseDecimalText(Ungrouped(gs), fp);
    }
  }

  /** Turkish convention in the vectorised parser: the scalar parser's value,
      except that exactly three decimals after the comma are read as a
      thousands group ("1.234,567" is 1234567). */
  lemma CleanMoneyCellTurkish(gs: seq<string>, fp: string, rest: string)
    requires DigitGroups(gs) && AllDigits(fp)
    requires rest == [] || rest[0] == ' '
    ensures AllDigits(Ungrouped(gs)) && AllDigits(Ungrouped(gs) + fp)
    ensures |fp| != 3 ==> CleanMoneyCell(Text(Grouped(gs, '.') + [','] + fp + rest)) == DecimalValue(Ungrouped(gs), fp)
    ensures |fp| == 3 ==> CleanMoneyCell(Text(Grouped(gs, '.') + [','] + fp + rest)) == DigitsValue(Ungrouped(gs) + fp) as real
  {
    GroupedToken(gs, '.', ',', fp);
    CleanMoneyCellOfToken(Grouped(gs, '.') + [','] + fp, rest);
    SeriesTurkishValue(gs, fp);
  }

  /** US convention in the vectorised parser: with at least one comma group,
      the decimal point is kept unless exactly three digits follow it
      ("1,234.567" is 1234567). */
  lemma CleanMoneyCellUS(gs: seq<string>, fp: string, rest: string)
    requires DigitGroups(gs) && |gs| >= 2 && AllDigits(fp)
    requires rest == [] || rest[0] == ' '
    ensures AllDigits(Ungrouped(gs)) && AllDigits(Ungrouped(gs) + fp)
    ensures |fp| != 3 ==> CleanMoneyCell(Text(Grouped(gs, ',') + ['.'] + fp + rest)) == DecimalValue(Ungrouped(gs), fp)
    ensures |fp| == 3 ==> CleanMoneyCell(Text(Grouped(gs, ',') + ['.'] + fp + rest)) == DigitsValue(Ungrouped(gs) + fp) as real
  {
    GroupedToken(gs, ',', '.', fp);
    CleanMoneyCellOfToken(Grouped(gs, ',') + ['.'] + fp, rest);
    SeriesUSValue(gs, fp);
  }

  lemma SingleGroup(ip: string, sep: char)
    requires ip != [] && AllDigits(ip)
    ensures DigitGroups([ip]) && Grouped([ip], sep) == ip && Ungrouped([ip]) == ip
  {
    assert Ungrouped([ip]) == ip + Ungrouped([]);
  }

  /** The scalar parser reads a lone comma as the decimal separator. */
  lemma CleanMoneyTextComma(ip: string, fp: string)
    requires ip != [] && AllDigits(ip) && AllDigits(fp)
    ensures CleanMoneyText(Str(ip + [','] + fp)) == DecimalValue(ip, fp)
  {
    SingleGroup(ip, '.');
    assert ip + [','] + fp + [] == ip + [','] + fp;
    CleanMoneyTextTurkish([ip], fp, []);
  }

  /** The vectorised parser reads a lone comma followed by three digits as
      a thousands separator. */
  lemma CleanMoneyCellCommaThousands(ip: string, fp: string)
    requires ip != [] && AllDigits(ip) && AllDigits(fp) && |fp| == 3
    ensures AllDigits(ip + fp)
    ensures CleanMoneyCell(Text(ip + [','] + fp)) == DigitsValue(ip + fp) as real
  {
    SingleGroup(ip, '.');
    assert ip + [','] + fp + [] == ip + [','] + fp;
    CleanMoneyCellTurkish([ip], fp, []);
  }

  lemma ThousandsExceedDecimals(ip: string, fp: string)
    requires AllDigits(ip) && AllDigits(fp) && |fp| == 3 && DigitsValue(ip) > 0
    ensures AllDigits(ip + fp)
    ensures DecimalValue(ip, fp) < DigitsValue(ip + fp) as real
  {
    DigitsValueAppend(ip, fp);
    assert Pow10(3) == 1000;
  }

  /** The two parsers disagree on a comma followed by three digits: the scalar
      parser reads "1,234" as 1.234, the vectorised one as 1234. */
  lemma MoneyParsersDisagree(ip: string, fp: string)
    requires ip != [] && AllDigits(ip) && |fp| == 3 && AllDigits(fp)
    requires DigitsValue(ip) > 0
    ensures CleanMoneyText(Str(ip + [','] + fp)) < CleanMoneyCell(Text(ip + [','] + fp))
  {
    CleanMoneyTextComma(ip, fp);
    CleanMoneyCellCommaThousands(ip, fp);
    ThousandsExceedDecimals(ip, fp);
  }
}
