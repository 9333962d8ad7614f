# dhe_dashboard_v2 data-cleaning core, modelled in Dafny

This project models the data-cleaning core of the DHE sales and field-service dashboard. The dashboard reads its
finance, CRM, field-service (saha), exchange-rate, holiday and Bellis machine-census sheets. It turns them into
frames that the Streamlit pages then draw. The model covers the steps between reading a sheet and drawing it:

- `Prelude`: string and collection helpers that stand in for Python and pandas built-ins. These are `strip`,
  `split`, `rfind`, `float()` on decimal text, truncation, `sorted(set(..))`, filtering and `value_counts`.
- `Civil`: the proleptic Gregorian calendar, weekdays, and the strict `DD.MM.YYYY` date format.
- `Utils` (core/utils.py): exchange-rate lookup with its currency whitelist and latest-year fallback;
  `calculate_delta`; Turkish-aware `tr_upper`/`tr_lower`; the scalar money parser `clean_money_text` and the
  vectorised `clean_money_series`, with their Turkish and US separator rules; and `clean_currency_code`.
- `DateUtils` (core/date_utils.py): `get_weekday_count` and `calculate_effective_workdays`. These count Monday
  to Friday workdays in a month, minus holidays. The count is clamped to "today" and narrowed to an optional
  window.
- `Validator` (core/validator.py): `validate_dataframe`. It reports missing required values, unparseable dates
  and non-numeric amounts row by row, in column order.
- `Transforms` (core/transforms.py): `process_finance_dataframe`, which cleans ids, currencies, dates and
  amounts and converts to EUR through a per-month rate map; `filter_latest_revisions`; `prepare_crm_data`,
  which builds customer order and quote statistics, the Pareto segments and the risk flag;
  `normalize_personel_name`; and `determine_saha_status`.
- `DataLoader` (core/data_loader.py): what `load_data` does after the sheets arrive. It fills the monthly-rates
  map, collects holidays, applies the personnel mapping, filters open quotes and orders, and prepares the saha
  frame.
- `Bellis` (core/bellis_loader.py): `normalize_city_name` and `prepare_bellis_summary`, the census KPIs and
  per-city DHE shares.
- `DayRuns` and `IslemOzeti` (views/islem_ozeti.py): `clean_action_type`, and `prepare_islem_ozeti_data`, which
  groups one technician's rows by customer and action type and merges consecutive days into one visit.

Pure Python code is modelled as functions with lemmas. Code that updates state step by step is modelled as
methods with loop invariants, each proved against a specification function. Examples are the rate-map loop, the
holiday loops, the validator's error list, the Bellis frame enrichment and the visit-grouping loop.

Two behaviours of the code worth knowing:
- `filter_latest_revisions` returns the kept rows in the order of their sorted root numbers, not in the caller's
  row order (core/transforms.py lines 293 and 306).
- `prepare_crm_data` joins the order and quote statistics onto the customer master list with LEFT joins, not
  outer joins (core/transforms.py lines 123-124).

## Model

| member | source | states |
|---|---|---|
| Prelude.Strip | dhe_dashboard_v2/core/utils.py:56 | `str.strip()` leaves a text, no longer than the input and contained in it, that neither starts nor ends with whitespace |
| Prelude.StripIdempotent | dhe_dashboard_v2/core/utils.py:56 | stripping twice is stripping once |
| Prelude.StripAllSpace | dhe_dashboard_v2/core/utils.py:53 | a text of whitespace strips to "" |
| Prelude.StripPadded | dhe_dashboard_v2/core/utils.py:209 | surrounding whitespace is exactly what strip removes |
| Prelude.FirstToken | dhe_dashboard_v2/core/utils.py:125 | `split(' ')[0]` is the prefix before the first blank |
| Prelude.Words | dhe_dashboard_v2/core/transforms.py:174 | `split()` gives nonempty words without whitespace |
| Prelude.WordsOfJoin | dhe_dashboard_v2/core/transforms.py:174 | splitting blank-joined words gives the words back |
| Prelude.CollapseSpacesShape | dhe_dashboard_v2/core/transforms.py:174 | `" ".join(s.split())` leaves single blanks between non-blank characters, and no other whitespace |
| Prelude.CollapseSpacesIdempotent | dhe_dashboard_v2/core/transforms.py:174 | collapsing whitespace twice is collapsing it once |
| Prelude.RemoveChar | dhe_dashboard_v2/core/utils.py:140 | `replace(c, "")` removes every `c` and keeps every other character |
| Prelude.ReplaceChar | dhe_dashboard_v2/core/utils.py:145 | `replace(a, b)` changes exactly the occurrences of `a` and keeps the length |
| Prelude.LastIndexOf | dhe_dashboard_v2/core/utils.py:137-138 | `rfind` gives the last occurrence, or -1 |
| Prelude.LastIndexOfPresent | dhe_dashboard_v2/core/utils.py:137-139 | `rfind` finds the character exactly when it is present |
| Prelude.ParseDecimal | dhe_dashboard_v2/core/utils.py:158-161 | `float()` on digits and dots never gives a negative value |
| Prelude.ParseDecimalSucceeds | dhe_dashboard_v2/core/utils.py:158-161 | `float()` accepts a text of digits and dots exactly when it has at most one dot and at least one digit |
| Prelude.ParseDecimalPoint | dhe_dashboard_v2/core/utils.py:158-159 | digits, a point and digits parse to the decimal they denote |
| Prelude.ParseFloat | dhe_dashboard_v2/core/data_loader.py:283 | `float()` ignores surrounding whitespace |
| Prelude.Trunc | dhe_dashboard_v2/core/data_loader.py:289-290 | `int()` of a float truncates toward zero |
| Prelude.StrLtTotal | dhe_dashboard_v2/core/transforms.py:293 | two different texts are ordered one way or the other |
| Prelude.SortDistinct | dhe_dashboard_v2/core/transforms.py:293-296 | the distinct texts of a column, in strictly ascending code-point order, none added and none lost |
| Prelude.StrictlySortedUnique | dhe_dashboard_v2/core/transforms.py:293-296 | a strictly sorted sequence is determined by its set of elements |
| Prelude.FilterMapIndices | dhe_dashboard_v2/core/data_loader.py:317 | a boolean-mask filter keeps exactly the accepted rows, in their order |
| Prelude.FilterMapThen | dhe_dashboard_v2/core/data_loader.py:353-369 | two filters in a row act as one filter by their composition |
| Prelude.FilterMapFilterTwice | dhe_dashboard_v2/core/data_loader.py:317 | running a pure filter a second time changes nothing |
| Prelude.ValueCounts | dhe_dashboard_v2/core/bellis_loader.py:204 | `value_counts().to_dict()` maps exactly the values present, each to the number of times it occurs |
| Prelude.RoundTenth | dhe_dashboard_v2/core/bellis_loader.py:219 | `round(x, 1)` gives a multiple of 0.1 within 0.05 of x |
| Prelude.RoundTenthPercent | dhe_dashboard_v2/core/bellis_loader.py:225 | rounding keeps a percentage between 0 and 100 |
| Civil.DaysInMonth | dhe_dashboard_v2/core/date_utils.py:17-22 | a month has 28 to 31 days, and February has 29 exactly in leap years |
| Civil.LastOfPreviousMonth | dhe_dashboard_v2/core/date_utils.py:19-22 | the day before the first of a month is a valid date |
| Civil.NextDay | dhe_dashboard_v2/core/date_utils.py:36 | `pd.date_range` steps to a valid date strictly after the current one |
| Civil.NextDayOrdinal | dhe_dashboard_v2/core/date_utils.py:36 | the next day has the next day number |
| Civil.Weekday | dhe_dashboard_v2/core/date_utils.py:37 | `weekday()` is between 0 (Monday) and 6 (Sunday) |
| Civil.NextDayWeekday | dhe_dashboard_v2/core/date_utils.py:37 | each step of the range moves the weekday on by one, modulo 7 |
| Civil.OrdinalOrder | dhe_dashboard_v2/core/date_utils.py:28-32 | Python's comparison of dates agrees with the order of their day numbers, and two dates with one day number are the same date |
| Civil.ParseDmy | dhe_dashboard_v2/core/transforms.py:27 | `to_datetime` with format '%d.%m.%Y' only returns dates a `Timestamp` can hold (1677-09-22 to 2262-04-11) |
| Civil.FormatDmy | dhe_dashboard_v2/views/islem_ozeti.py:106 | `strftime('%d.%m.%Y')` writes ten characters |
| Civil.ParseFormatDmy | dhe_dashboard_v2/core/transforms.py:27 | every date a `Timestamp` can hold is parsed back from its own '%d.%m.%Y' text |
| Utils.TrLower | dhe_dashboard_v2/core/utils.py:99-112 | `tr_lower` keeps the length and lowers character by character through the Turkish table (İ→i, I→ı, Ğ→ğ, Ü→ü, Ş→ş, Ö→ö, Ç→ç) and then `lower()` |
| Utils.TrUpperIdempotent | dhe_dashboard_v2/core/utils.py:91-96 | applying `tr_upper` twice gives the same text as applying it once |
| Utils.TrLowerUpperChar | dhe_dashboard_v2/core/utils.py:91-112 | for every lower-case Turkish letter, `tr_upper` writes one capital, and `tr_lower` turns that capital back into the original letter |
| Utils.TrUpperLowerChar | dhe_dashboard_v2/core/utils.py:91-112 | for every Turkish capital, `tr_lower` writes one lower-case letter, and `tr_upper` turns that letter back into the original capital |
| Utils.TrLowerOfTrUpper | dhe_dashboard_v2/core/utils.py:83-112 | lower-case Turkish text survives `tr_upper` followed by `tr_lower` unchanged |
| Utils.TrUpperOfTrLower | dhe_dashboard_v2/core/utils.py:83-112 | upper-case Turkish text survives `tr_lower` followed by `tr_upper` unchanged |
| Utils.UpperMap | dhe_dashboard_v2/core/utils.py:56 | for text without ß, `upper()` keeps the length and works character by character |
| Utils.TrUpperMap | dhe_dashboard_v2/core/utils.py:91-96 | for text without ß, `tr_upper` keeps the length and works character by character |
| Utils.TrUpperFixed | dhe_dashboard_v2/core/utils.py:91-96 | every character `tr_upper` writes is one it leaves as it is |
| Utils.TrUpperOfFixed | dhe_dashboard_v2/core/utils.py:91-96 | text made only of characters `tr_upper` leaves alone is its own upper case |
| Utils.TrUpperExamples | dhe_dashboard_v2/core/utils.py:91-96 | "izmir" becomes "İZMİR" and "istanbul" becomes "İSTANBUL" |
| Utils.TrLowerExamples | dhe_dashboard_v2/core/utils.py:107-112 | "IĞDIR" becomes "ığdır" and "ÇORUM" becomes "çorum" |
| Utils.TrUpperKeepsStripped | dhe_dashboard_v2/core/utils.py:96 | `tr_upper` of stripped text is still stripped, and it is nonempty when the input is |
| Utils.UpperIdempotent | dhe_dashboard_v2/core/utils.py:209 | `upper()` applied twice is `upper()` applied once |
| Utils.UpperMicroSign | dhe_dashboard_v2/core/utils.py:209 | `upper()` turns the micro sign into the Greek capital mu: "5 µm" gives "5 ΜM" |
| Utils.UpperKeepsStripped | dhe_dashboard_v2/core/utils.py:209 | upper-casing stripped text leaves nothing for a second strip to remove |
| Utils.CleanCurrencyCode | dhe_dashboard_v2/core/utils.py:205-214 | `clean_currency_code` returns a code exactly when the value is text whose stripped upper case is EUR, USD, GBP, TL or TRY; the code returned is that form; otherwise (None, NaN, numbers, other text) it returns None |
| Utils.CleanCurrencyCodeIdempotent | dhe_dashboard_v2/core/utils.py:205-214 | cleaning a code that is already clean returns it unchanged |
| Utils.CleanCurrencyCodeExamples | dhe_dashboard_v2/core/utils.py:207-214 | "EUR" is kept and NaN gives None |
| Utils.CleanCurrencyCodeUnknown | dhe_dashboard_v2/core/utils.py:211-213 | an unknown code such as "XYZ" gives None |
| Utils.CleanCurrencyCodePadded | dhe_dashboard_v2/core/utils.py:209 | surrounding blanks and lower case are cleaned away: "usd " gives "USD" |
| Utils.MaxYear | dhe_dashboard_v2/core/utils.py:60 | `max(keys)` is a key of the table and is at least every other key |
| Utils.GetExchangeRate | dhe_dashboard_v2/core/utils.py:42-63 | a blank, missing or unknown currency gives 0; otherwise the rate is the one in the table for that year (or for the latest year when that year is absent), and 0 when that year's table has no entry for the code |
| Utils.GetExchangeRateFallback | dhe_dashboard_v2/core/utils.py:60-61 | a year missing from the table is priced exactly as the latest year |
| Utils.LatestRateYear | dhe_dashboard_v2/config/constants.py:44-54 | the table is not empty and its latest year is 2026 |
| Utils.GetExchangeRateOfCode | dhe_dashboard_v2/core/utils.py:56-63 | a clean, known code in a year the table lists gets exactly that year's entry |
| Utils.GetExchangeRateExample | dhe_dashboard_v2/core/utils.py:42-63 | USD in 2024 is worth 0.93 EUR |
| Utils.CalculateDelta | dhe_dashboard_v2/core/utils.py:66-80 | for a nonzero previous value, adding the delta percent to it gives the current value back; from a previous value of 0 the delta is 100 exactly when the current value is positive, and 0 otherwise |
| Utils.CalculateDeltaSign | dhe_dashboard_v2/core/utils.py:80 | against a positive previous value, the delta is positive exactly when the value grew and negative exactly when it shrank |
| Utils.CalculateDeltaExamples | dhe_dashboard_v2/core/utils.py:77-80 | 150 against 100 gives 50, 50 gives -50, 100 gives 0; from 0 the result is 100 for growth and 0 otherwise |
| Utils.KeepMoneyChars | dhe_dashboard_v2/core/utils.py:130 | the filter keeps only digits, dots and commas and never lengthens the text; text already made of these is kept whole, and text with none of them becomes empty |
| Utils.ParseOrZero | dhe_dashboard_v2/core/utils.py:158-161 | parsing text made of digits and dots never gives a negative amount, and a rejected text is worth 0 |
| Utils.MoneyTokenOf | dhe_dashboard_v2/core/utils.py:125 | a money token followed by a blank (or by nothing) is the first token read |
| Utils.CleanMoneyText | dhe_dashboard_v2/core/utils.py:115-161 | None or NaN gives 0; a number is returned as it is; text gives an amount that is never negative, and 0 when its first token has no digit, dot or comma |
| Utils.CleanMoneyTextOfToken | dhe_dashboard_v2/core/utils.py:125-161 | text that begins with a money token is read from that token alone, through the separator rules and `float()` |
| Utils.NormalizeTurkish | dhe_dashboard_v2/core/utils.py:136-142 | with dot groups before a comma, the dots go and the comma becomes the decimal point |
| Utils.NormalizeUS | dhe_dashboard_v2/core/utils.py:136-156 | with comma groups before a dot, the commas go and the dot stays (a lone dot included, when it is not followed by exactly three characters) |
| Utils.NormalizeUSGrouped | dhe_dashboard_v2/core/utils.py:136-140 | with at least two comma groups before a dot, the commas go and the dot stays |
| Utils.NormalizeUSPlain | dhe_dashboard_v2/core/utils.py:148-156 | a lone dot not followed by exactly three characters is kept as the decimal point |
| Utils.NormalizeDotThousands | dhe_dashboard_v2/core/utils.py:148-154 | a lone dot followed by exactly three characters is a thousands separator and is removed |
| Utils.CleanMoneyTextTurkish | dhe_dashboard_v2/core/utils.py:115-161 | Turkish convention: dot-grouped digits, a decimal comma and any blank-separated suffix ("1.000,50 TL") give the decimal value of the digits |
| Utils.CleanMoneyTextUS | dhe_dashboard_v2/core/utils.py:115-161 | US convention: comma-grouped digits and a decimal point give the decimal value, except for the lone dot with three digits after it |
| Utils.CleanMoneyTextDotThousands | dhe_dashboard_v2/core/utils.py:148-154 | "1.234" is 1234 |
| Utils.CleanMoneyTextInteger | dhe_dashboard_v2/core/utils.py:125-159 | plain digits followed by a blank or nothing give their integer value |
| Utils.CleanMoneyTextComma | dhe_dashboard_v2/core/utils.py:144-145 | a lone comma is the decimal separator |
| Utils.TwoDotsKept | dhe_dashboard_v2/core/utils.py:152-156 | two dots and no comma are left as they are by the separator rules |
| Utils.TwoDotsRejected | dhe_dashboard_v2/core/utils.py:158-161 | `float()` rejects a text with two dots |
| Utils.CleanMoneyTextTwoDots | dhe_dashboard_v2/core/utils.py:148-161 | a text with two dots and no comma is worth 0 |
| Utils.SeriesToken | dhe_dashboard_v2/core/utils.py:173-179 | each cell becomes a nonempty text of digits, dots and commas before the separator rewrites ("" becomes "0") |
| Utils.CleanMoneyCell | dhe_dashboard_v2/core/utils.py:173-202 | the value of one cell of `clean_money_series` is never negative |
| Utils.CleanMoneySeries | dhe_dashboard_v2/core/utils.py:164-202 | `clean_money_series` keeps the length and gives each row the nonnegative value of its own cell |
| Utils.CleanMoneyCellOfToken | dhe_dashboard_v2/core/utils.py:173-202 | a cell beginning with a money token is read from that token alone |
| Utils.SeriesNoSeparators | dhe_dashboard_v2/core/utils.py:183-200 | text with no dot and no comma passes the three rewrites unchanged |
| Utils.CleanMoneyCellEmpty | dhe_dashboard_v2/core/utils.py:176-202 | a blank cell, or one with no digit or separator, is worth 0 |
| Utils.TrRewriteTurkish | dhe_dashboard_v2/core/utils.py:183-192 | Turkish text is recognised as dot-before-comma, and the first rewrite drops its dots and turns its comma into a point |
| Utils.UsRewriteUS | dhe_dashboard_v2/core/utils.py:183-194 | US text is left alone by the first rewrite and loses its commas in the second |
| Utils.UsSeparators | dhe_dashboard_v2/core/utils.py:183-188 | US text has both separators, and no dot comes before a comma |
| Utils.ThousandsRewriteDecimal | dhe_dashboard_v2/core/utils.py:197-200 | after the rewrites, digits, a point and exactly three digits lose the point; any other number of digits after the point keeps it |
| Utils.SeriesTurkish | dhe_dashboard_v2/core/utils.py:183-200 | the three rewrites turn Turkish text into its digits and a decimal point, and then drop that point when exactly three decimals follow it |
| Utils.SeriesUS | dhe_dashboard_v2/core/utils.py:183-200 | the three rewrites turn US text into its digits and a decimal point, and then drop that point when exactly three decimals follow it |
| Utils.SeriesTurkishValue | dhe_dashboard_v2/core/utils.py:183-202 | the value `to_numeric` gives rewritten Turkish text |
| Utils.SeriesUSValue | dhe_dashboard_v2/core/utils.py:183-202 | the value `to_numeric` gives rewritten US text |
| Utils.CleanMoneyCellTurkish | dhe_dashboard_v2/core/utils.py:164-202 | in a series, "1.000,50 TL" is 1000.50, while exactly three decimals after the comma are read as a thousands group ("1.234,567" is 1234567) |
| Utils.CleanMoneyCellUS | dhe_dashboard_v2/core/utils.py:164-202 | in a series, comma groups and a decimal point give the decimal value, while exactly three decimals are read as a thousands group |
| Utils.CleanMoneyCellCommaThousands | dhe_dashboard_v2/core/utils.py:188-200 | in a series, a lone comma followed by three digits is read as a thousands separator |
| Utils.MoneyParsersDisagree | dhe_dashboard_v2/core/utils.py:144-200 | the two parsers disagree on a lone comma followed by three digits: the scalar one reads "1,234" as 1.234 and the series one reads it as 1234 |
| DateUtils.StepBefore | dhe_dashboard_v2/core/date_utils.py:36 | a day strictly before the end of a range has a next day, one day number further and not after the end |
| DateUtils.WorkdaysHoliday | dhe_dashboard_v2/core/date_utils.py:54-56 | adding one holiday removes exactly one day from the count, and only when it is a new holiday on a weekday inside the range |
| DateUtils.WorkdaysAtMostDays | dhe_dashboard_v2/core/date_utils.py:36-58 | a range never holds more workdays than days |
| DateUtils.WorkdaysNarrower | dhe_dashboard_v2/core/date_utils.py:139-155 | a narrower range never holds more workdays |
| DateUtils.WorkdaysEndNarrower | dhe_dashboard_v2/core/date_utils.py:28-29 | moving the end of the range back never adds workdays |
| DateUtils.Period | dhe_dashboard_v2/core/date_utils.py:16-25 | the period is the whole month (first to last day) or the whole year; it is undefined exactly where `date(...)` raises |
| DateUtils.HolidaySetMembers | dhe_dashboard_v2/core/date_utils.py:40-52 | the holiday set holds exactly the dates of the collection's elements: timestamps and dates as they are, texts that the day-first parser reads, and never any text it cannot read |
| DateUtils.CollectHolidays | dhe_dashboard_v2/core/date_utils.py:42-52 | the loop builds exactly the holiday set |
| DateUtils.CollectHolidayList | dhe_dashboard_v2/core/date_utils.py:144-151 | the loop builds the list of the timestamp, datetime and date elements, in order |
| DateUtils.HolidayListInSet | dhe_dashboard_v2/core/date_utils.py:40-52 | the effective-workday list is contained in the weekday-count set, and equal to it when no holiday is given as text |
| DateUtils.GetWeekdayCount | dhe_dashboard_v2/core/date_utils.py:6-63 | the result is the number of Monday-to-Friday non-holidays from the period start to its end (cut at today with `until_today`); it is 0 for an empty range, and 22 or 260 when a date cannot be built |
| DateUtils.WeekdayCountUntilToday | dhe_dashboard_v2/core/date_utils.py:28-33 | with `until_today`, a period that starts after today counts 0 |
| DateUtils.WeekdayCountClamped | dhe_dashboard_v2/core/date_utils.py:28-29 | clamping to today never adds days |
| DateUtils.March2024Weekdays | dhe_dashboard_v2/core/date_utils.py:37 | 1 March 2024 is a Friday, the 2nd and 3rd fall on the weekend, and the 4th is a Monday |
| DateUtils.WeekendSkipped | dhe_dashboard_v2/core/date_utils.py:36-56 | Friday 1 March to Monday 4 March 2024 holds two workdays, and one once 1 March is a holiday |
| DateUtils.CalculateEffectiveWorkdays | dhe_dashboard_v2/core/date_utils.py:66-160 | the result is the number of workdays in the period, clamped to today and narrowed to the employment window; a missing or unreadable bound does not narrow it; it is 0 when the window is empty or a date cannot be built |
| DateUtils.EffectiveUnbounded | dhe_dashboard_v2/core/date_utils.py:66-155 | without employment bounds, the effective count equals `get_weekday_count` up to today |
| DateUtils.EffectiveWithinPeriod | dhe_dashboard_v2/core/date_utils.py:126-155 | the employment window only narrows the period: the effective count never exceeds the count up to today |
| DateUtils.WindowedWithin | dhe_dashboard_v2/core/date_utils.py:126-136 | the workdays of the employment window are at most those of the period |
| Validator.KeepNumeric | dhe_dashboard_v2/core/validator.py:79 | the filter leaves only digits and dots |
| Validator.RemoveDotsKeeps | dhe_dashboard_v2/core/validator.py:78 | deleting the dots keeps every comma and every digit |
| Validator.CommaToDot | dhe_dashboard_v2/core/validator.py:78 | in dot-free text, turning commas into dots gives one dot per comma and keeps the digits |
| Validator.KeepNumericKeeps | dhe_dashboard_v2/core/validator.py:79 | the filter keeps every dot and every digit |
| Validator.CleanNumberIff | dhe_dashboard_v2/core/validator.py:73-84 | a non-blank value passes `is_clean_number` exactly when its first token holds a digit and at most one comma: dots are read as thousands separators and other characters are ignored |
| Validator.FlaggedCells | dhe_dashboard_v2/core/validator.py:37-87 | the required check flags exactly the text that is blank after stripping; an NA cell renders as `<NA>`, so it escapes the required check, is flagged by the date check and passes the numeric check; a date text is flagged exactly when it is non-blank and does not parse as DD.MM.YYYY; a cell the required check flags is flagged by no other check |
| Validator.FlaggedBlank | dhe_dashboard_v2/core/validator.py:37-87 | an NA cell is flagged by the date check only |
| Validator.CellError | dhe_dashboard_v2/core/validator.py:39-97 | a check reports a row exactly when it flags the row's cell; the report gives the row label plus two, the column and that check's reason |
| Validator.Validate | dhe_dashboard_v2/core/validator.py:13-104 | the frame is valid exactly when the report is empty, and an empty frame is valid with no report |
| Validator.ScanColumn | dhe_dashboard_v2/core/validator.py:35-47 | the inner loop appends exactly the column's errors, in row order |
| Validator.ScanColumns | dhe_dashboard_v2/core/validator.py:34-97 | an outer loop appends the errors of the listed columns, in column order |
| Validator.ValidateDataframe | dhe_dashboard_v2/core/validator.py:13-104 | the three loops build the verdict and the report of the specification function |
| Validator.ColumnErrorsRows | dhe_dashboard_v2/core/validator.py:37-45 | the errors of a present column are exactly its flagged rows, in row order, each naming the row, the column and the check |
| Validator.ColumnErrorsEmpty | dhe_dashboard_v2/core/validator.py:35-47 | a column reports nothing exactly when it is missing or none of its rows is flagged |
| Validator.CheckErrorsEmpty | dhe_dashboard_v2/core/validator.py:34-97 | a check reports nothing exactly when none of its present columns has a flagged row |
| Validator.ValidateVerdict | dhe_dashboard_v2/core/validator.py:28-104 | a non-empty frame is valid exactly when no required column has blank text, no date column an unreadable value, and no numeric column a non-number |
| Validator.CheckErrorsReason | dhe_dashboard_v2/core/validator.py:40-96 | every error of a check carries that check's reason |
| Validator.SectionsOrdered | dhe_dashboard_v2/core/validator.py:31-97 | runs of errors with one reason each, joined in check order, are ordered by reason |
| Validator.ReportOrdered | dhe_dashboard_v2/core/validator.py:31-102 | required-field errors come first, then date errors, then numeric ones |
| Transforms.SkipSeps | dhe_dashboard_v2/core/transforms.py:270 | the separator run `[\s\-]*` is skipped whole: what remains is a suffix that does not start with a separator |
| Transforms.FindRevision | dhe_dashboard_v2/core/transforms.py:270 | a cut the lazy group `^(.*?)` finds is a position whose suffix matches the tag pattern, and the number is the tag's |
| Transforms.FindRevisionSkip | dhe_dashboard_v2/core/transforms.py:270 | the lazy search moves past cut points that do not match and are not newlines |
| Transforms.FindRevisionLeftmost | dhe_dashboard_v2/core/transforms.py:270 | the cut found is the leftmost match: no earlier cut matches, and the group before it holds no newline |
| Transforms.ParseRevision | dhe_dashboard_v2/core/transforms.py:256-282 | `parse_revision` gives revision -1 exactly for the empty text; otherwise a nonempty root and a revision of at least 0; the root differs from the text only when the text splits at a found cut, and then it is the stripped text before the cut and the revision is the tag's number |
| Transforms.ParseRevisionSplit | dhe_dashboard_v2/core/transforms.py:270-277 | when the root differs from the text, the text splits at the leftmost cut whose suffix is a revision tag; the root is the stripped text before it and the revision is the tag's number |
| Transforms.TaggedSuffixR | dhe_dashboard_v2/core/transforms.py:270 | separators, the tag R and digits match the revision pattern with the digits' value |
| Transforms.TaggedSuffixRev | dhe_dashboard_v2/core/transforms.py:270 | separators, the tag REV and digits match with the digits' value |
| Transforms.ParseRevisionTagged | dhe_dashboard_v2/core/transforms.py:267-277 | "1234R1", "1234 R2" and "1234-REV3" give root 1234 and their revision |
| Transforms.ParseRevisionPlain | dhe_dashboard_v2/core/transforms.py:279-282 | a number without a revision tag is its own root, at revision 0 |
| Transforms.BestIndex | dhe_dashboard_v2/core/transforms.py:293-296 | the row a sort on (root ascending, revision descending) followed by keep-first keeps for a root: it has the root (and there is none exactly when no row has it), its revision is the highest, and it is the earliest row with that revision |
| Transforms.LatestIndices | dhe_dashboard_v2/core/transforms.py:293-296 | one kept row per distinct root, in ascending root order |
| Transforms.AtPositions | dhe_dashboard_v2/core/transforms.py:306 | `df.loc` on the kept labels gives the rows at those positions, in that order |
| Transforms.LatestRevisionsKept | dhe_dashboard_v2/core/transforms.py:235-306 | every kept row is an input row: the j-th is the row at the j-th kept index |
| Transforms.LatestRevisionsRoots | dhe_dashboard_v2/core/transforms.py:293-296 | the kept rows have strictly ascending roots, and these are exactly the roots of the input rows |
| Transforms.LatestRootsAreSorted | dhe_dashboard_v2/core/transforms.py:293-306 | the roots of the kept rows, in order, are the sorted distinct roots of the input |
| Transforms.LatestRevisionsNewest | dhe_dashboard_v2/core/transforms.py:237-241 | the kept row of a root carries its highest revision, and no earlier input row has that root and revision |
| Transforms.LatestRevisionsIdempotent | dhe_dashboard_v2/core/transforms.py:235-306 | filtering twice keeps what filtering once kept |
| Transforms.LatestRevisionsFrom | dhe_dashboard_v2/core/transforms.py:306 | the filter only ever returns input rows |
| Transforms.FinanceFrame.constructor | dhe_dashboard_v2/core/transforms.py:11 | the caller's frame holds the given rows |
| Transforms.Cleaned | dhe_dashboard_v2/core/transforms.py:20-23 | the frame keeps its length; every number becomes its own stripped text; every currency becomes the stripped upper-case code when that is one of the five known codes, and missing otherwise; no other column changes |
| Transforms.CleanedRowFacts | dhe_dashboard_v2/core/transforms.py:20-23 | the same three facts for one row |
| Transforms.DateOf | dhe_dashboard_v2/core/transforms.py:27 | a parsed date lies in the range a `Timestamp` can hold |
| Transforms.CleanedSurvives | dhe_dashboard_v2/core/transforms.py:20-28 | a row survives exactly when its raw currency is one of the five codes and its date parses as DD.MM.YYYY |
| Transforms.ProcessFinance | dhe_dashboard_v2/core/transforms.py:11-67 | the caller's frame ends with its number and currency columns cleaned, and the result is the priced rows of the specification |
| Transforms.PriceRows | dhe_dashboard_v2/core/transforms.py:24-67 | the filtered copy becomes the priced rows of the specification |
| Transforms.FinanceFactsSource | dhe_dashboard_v2/core/transforms.py:11-67 | every output row comes from an admissible input row, in input order, and every admissible input row gives exactly one output row: its stripped number, its clean code, its date and year and month, its cleaned amounts, their EUR values at the rate `get_rate` gives, the profit, the `tr_upper` personnel code and its name (or the code itself) |
| Transforms.FactOfRow | dhe_dashboard_v2/core/transforms.py:30-65 | each output row stands in that relation to its raw row |
| Transforms.FactKeyOfRow | dhe_dashboard_v2/core/transforms.py:20-32 | the number, the currency code, the date, the year and the month of an output row come from its raw row |
| Transforms.FactValuesOfRow | dhe_dashboard_v2/core/transforms.py:35-65 | the amounts, the EUR values, the profit and the personnel columns of an output row come from its raw row |
| Transforms.FactEurOf | dhe_dashboard_v2/core/transforms.py:53-58 | the EUR columns are the amounts times the row's rate for (year, month, code) |
| Transforms.BuildRateMap | dhe_dashboard_v2/core/transforms.py:39-51 | the rate map has a key for every surviving row's (year, month, code), each with the value `get_rate` gives it |
| Transforms.LastIndex | dhe_dashboard_v2/core/transforms.py:83-96 | a customer's last row exists exactly when the customer has rows; it has the latest date, and every later row of the customer is strictly earlier |
| Transforms.FirstIndex | dhe_dashboard_v2/core/transforms.py:84 | a customer's first row exists exactly when the customer has rows, and it has the earliest date |
| Transforms.InsertByQuotes | dhe_dashboard_v2/core/transforms.py:133 | inserting a row keeps the table in descending quote-volume order and adds exactly that row |
| Transforms.SortByQuotes | dhe_dashboard_v2/core/transforms.py:133 | `sort_values("Total_Teklif_EUR", ascending=False)` gives a permutation of the rows in descending quote-volume order |
| Transforms.AssignSegments | dhe_dashboard_v2/core/transforms.py:132-159 | the loop gives each sorted row its running total, share, segment, recency and risk flag |
| Transforms.QuoteTotal | dhe_dashboard_v2/core/transforms.py:134 | the grand total is the quote volume summed over all rows |
| Transforms.PrepareCrm | dhe_dashboard_v2/core/transforms.py:70-161 | the result is the Pareto step applied to the joined customers sorted by quote volume |
| Transforms.CrmBaseDated | dhe_dashboard_v2/core/transforms.py:76-124 | the last quote dates of the joined rows are real calendar dates |
| Transforms.PrefixQuotesGrow | dhe_dashboard_v2/core/transforms.py:135 | running totals of nonnegative volumes never decrease and never go negative |
| Transforms.SharesClimb | dhe_dashboard_v2/core/transforms.py:135-136 | with nonnegative volumes the shares never decrease down the table and stay in [0, 1]; the last row's share is 1 whenever there is any quote volume |
| Transforms.SharesOrdered | dhe_dashboard_v2/core/transforms.py:135-136 | the running share of a later row is no smaller, and the last one is 1 when the total is positive |
| Transforms.SegmentedAt | dhe_dashboard_v2/core/transforms.py:135-149 | each output row is its sorted row, with its running share and the segment `assign_segment` gives |
| Transforms.ShareOfClimbs | dhe_dashboard_v2/core/transforms.py:136 | a larger running total gives a share no smaller, in [0, 1], and 1 for the grand total |
| Transforms.SegmentsInOrder | dhe_dashboard_v2/core/transforms.py:139-149 | Pasif is exactly a zero quote volume, and down the sorted table the segments run VIP, then Gold, then Standart, then Pasif |
| Transforms.SegmentLabelVip | dhe_dashboard_v2/core/transforms.py:143-157 | only the VIP label contains the text "VIP" |
| Transforms.RiskyRows | dhe_dashboard_v2/core/transforms.py:151-159 | a row is risky exactly when it is VIP and its last quote is more than 90 days old; a customer without quotes has recency 9999 |
| Transforms.GroupTotalNonNegative | dhe_dashboard_v2/core/transforms.py:81 | a sum of nonnegative amounts is nonnegative |
| Transforms.GroupIdsNonEmpty | dhe_dashboard_v2/core/transforms.py:82 | a customer with rows has at least one distinct number |
| Transforms.OrderSummaryFacts | dhe_dashboard_v2/core/transforms.py:80-92 | a customer has order columns exactly when it has an order; then the total is the sum, the count is the number of distinct order numbers, the first date is not after the last, the day gap is their distance and the frequency is derived from it |
| Transforms.FrequencyTimesCount | dhe_dashboard_v2/core/transforms.py:90-92 | with more than one order, the frequency times (count - 1) is the day gap; otherwise the frequency is 0 |
| Transforms.QuoteSummaryFacts | dhe_dashboard_v2/core/transforms.py:96-112 | a customer has quote columns exactly when it has a quote; then the totals and counts are as for orders, and the last quote's number and amount are those of one of its latest quotes |
| Transforms.CrmCustomersFromOrders | dhe_dashboard_v2/core/transforms.py:115-118 | without a master list the customers are exactly the ordering customers, each once, in ascending order, named after themselves and owned by "Genel" |
| Transforms.OrderNamesExact | dhe_dashboard_v2/core/transforms.py:116 | the grouped customer keys are exactly the customers with an order |
| Transforms.CrmBaseQuotesNonNegative | dhe_dashboard_v2/core/transforms.py:123-127 | nonnegative quote amounts give nonnegative quote volumes after the joins and the zero fill |
| Transforms.NormalizedNameShape | dhe_dashboard_v2/core/transforms.py:167-177 | a normalised name has single blanks between words only, is upper case, is stripped and is never "NAN" |
| Transforms.NormalizePersonelNameIdempotent | dhe_dashboard_v2/core/transforms.py:167-177 | normalising a normalised name changes nothing |
| Transforms.SafeStr | dhe_dashboard_v2/core/transforms.py:182-188 | `safe_str` gives "" or a stripped text that does not read "nan" in lower case |
| Transforms.SahaStatusCases | dhe_dashboard_v2/core/transforms.py:179-229 | each status and exactly what gives it: AKTİF for weekend work at the workshop customer, or for a row with a technician and some work information; İZİNLİ for the leave marker alone; ATÖLYE otherwise |
| DataLoader.Pick | dhe_dashboard_v2/core/data_loader.py:286-297 | the `or` chain gives the default exactly when no name is decisive; otherwise it gives the nonempty text of the first decisive column; and it raises (None) exactly when an earlier name reaches an empty sheet cell, whose truth test raises |
| DataLoader.ParseArg | dhe_dashboard_v2/core/data_loader.py:283 | `parse` reads the default literal and a text of blanks as 1.0 |
| DataLoader.ApplyRateRow | dhe_dashboard_v2/core/data_loader.py:282-299 | the body of the loop for one row gives the table of the specification function |
| DataLoader.BuildMonthlyRates | dhe_dashboard_v2/core/data_loader.py:276-299 | the loop over the sheet builds the monthly table of the specification function |
| DataLoader.WriteRatesFrame | dhe_dashboard_v2/core/data_loader.py:293-297 | a row writes only keys of its own year and month with a code from its columns, keeps every key there was, and changes no other rate |
| DataLoader.RateColumnCodes | dhe_dashboard_v2/core/data_loader.py:293-297 | the five assignments write only the five known currency codes |
| DataLoader.MonthlyRatesKeys | dhe_dashboard_v2/core/data_loader.py:292-297 | every key of the monthly table has a positive year and month and one of the five known codes |
| DataLoader.WriteRatesStep | dhe_dashboard_v2/core/data_loader.py:293-298 | one assignment: a `parse` that raises ends the row, and otherwise the rate is written and the next assignment follows |
| DataLoader.RowAppliedPaired | dhe_dashboard_v2/core/data_loader.py:296-297 | a row writes TL and TRY together with the one rate read from the `tl` or `try` column, or writes neither |
| DataLoader.MonthlyRatesPaired | dhe_dashboard_v2/core/data_loader.py:276-299 | in the table of the whole sheet, the TL and TRY rates of a month are both present or both absent, and equal when present |
| DataLoader.WriteRatesAll | dhe_dashboard_v2/core/data_loader.py:293-297 | a row whose rates all read sets each of them |
| DataLoader.CompleteRowWins | dhe_dashboard_v2/core/data_loader.py:281-297 | a row whose year, month and five rates all read sets those five rates for its month, whatever earlier rows wrote there |
| DataLoader.MissingYearIsOne | dhe_dashboard_v2/core/data_loader.py:283-289 | a sheet without a year column files its rows under year 1, because the chain ends on `or 0` and `parse` reads 0 as 1.0 |
| DataLoader.EmptyYearIsOne | dhe_dashboard_v2/core/data_loader.py:283-297 | an empty `yil` cell is the text "", which the `or` chain passes over; with no other year column filled in, the row is filed under year 1 with its month, not skipped |
| DataLoader.ParseArgComma | dhe_dashboard_v2/core/data_loader.py:283 | a rate written with a decimal comma reads as the number it denotes |
| DataLoader.YearlyTlIsTry | dhe_dashboard_v2/config/constants.py:44-54 | in the yearly table TL and TRY share one rate every year |
| DataLoader.ExchangeTlIsTry | dhe_dashboard_v2/core/utils.py:42-63 | the yearly fallback gives TL and TRY the same rate in every year |
| DataLoader.TlRateIsTry | dhe_dashboard_v2/core/transforms.py:39-45 | `get_rate` gives TL and TRY amounts the same rate in every month |
| DataLoader.LoadedHolidaysCounted | dhe_dashboard_v2/core/data_loader.py:301-305 | handed to either workday counter, the loaded dates are exactly the holidays it skips |
| DataLoader.DropZeroEurKeeps | dhe_dashboard_v2/core/data_loader.py:317 | exactly the rows with a nonzero EUR amount are kept |
| DataLoader.DropZeroEurIdempotent | dhe_dashboard_v2/core/data_loader.py:317 | filtering a second time keeps everything |
| DataLoader.OpenQuotesExact | dhe_dashboard_v2/core/data_loader.py:328-330 | a quote stays open exactly when no order carries its number; an open quote is tagged "Teklif" and keeps its own number |
| DataLoader.OpenQuotesDisjoint | dhe_dashboard_v2/core/data_loader.py:328-334 | no quote number is both open and ordered |
| DataLoader.QuotesCovered | dhe_dashboard_v2/core/data_loader.py:328-334 | every processed quote is open or has an order with its number |
| DataLoader.LoadFinance | dhe_dashboard_v2/core/data_loader.py:316-334 | the finance statements give the open quotes, the final orders and all processed quotes of the specification function, and clean the number and currency columns of the sheets' frames |
| DataLoader.OwnerLabelShape | dhe_dashboard_v2/core/data_loader.py:323-325 | an owner label is never empty, has no surrounding blanks and is its own Turkish upper case; an empty or blank cell gets "BOŞ / SAHİPSİZ" |
| DataLoader.OwnerLabelIdempotent | dhe_dashboard_v2/core/data_loader.py:323-325 | cleaning a cleaned label changes nothing |
| DataLoader.UnownedClean | dhe_dashboard_v2/core/data_loader.py:324 | the unowned label is stripped and its own Turkish upper case |
| DataLoader.CleanFieldLog | dhe_dashboard_v2/core/data_loader.py:345-369 | the clean-up statements give the entries of the specification function |
| DataLoader.FieldOutcomeSteps | dhe_dashboard_v2/core/data_loader.py:353-369 | the four stages (blank dates, technician names, empty first technician, status), run one after the other, act as one filter row by row |
| DataLoader.NormalizedTechsAll | dhe_dashboard_v2/core/data_loader.py:361-363 | both rounds of the loop normalise each technician column that is present |
| DataLoader.FieldOutcomeRow | dhe_dashboard_v2/core/data_loader.py:353-369 | a row is kept exactly when its date is not a text of blanks and its first technician's normalised name is not empty; the kept row has its date parsed, its technicians normalised and its other cells unchanged, the year and month of a parsed date, and the status of the cleaned row |
| DataLoader.CleanFieldLogComplete | dhe_dashboard_v2/core/data_loader.py:353-369 | every row the clean-up keeps has its entry in the cleaned log |
| DataLoader.CleanFieldLogEntries | dhe_dashboard_v2/core/data_loader.py:353-369 | in the cleaned log no date is left as text, the technicians are normalised names and the first is never empty, and each status is that of its cleaned row |
| DataLoader.ParsedDateNotRaw | dhe_dashboard_v2/core/data_loader.py:356 | after `to_datetime` with `errors='coerce'` no date is left as text |
| Bellis.AllCapitalsFixed | dhe_dashboard_v2/core/bellis_loader.py:33-36 | text in Turkish capitals is changed neither by strip nor by `tr_upper` |
| Bellis.CorrectionsCapitals | dhe_dashboard_v2/core/bellis_loader.py:39-56 | every corrected name is written in Turkish capitals |
| Bellis.CorrectionsFinal | dhe_dashboard_v2/core/bellis_loader.py:39-56 | a corrected name needs no further correction |
| Bellis.CorrectionsNonEmpty | dhe_dashboard_v2/core/bellis_loader.py:39-56 | no name is corrected to the empty text |
| Bellis.NormalizeCityNameIdempotent | dhe_dashboard_v2/core/bellis_loader.py:24-58 | a normalised name is its own normal form, so normalising the city table a second time is harmless |
| Bellis.NormalizeCityNameEmpty | dhe_dashboard_v2/core/bellis_loader.py:29-58 | the name is empty exactly when the cell is blank or only whitespace |
| Bellis.NormalizeCityNameMersin | dhe_dashboard_v2/core/bellis_loader.py:27 | "Mersin", "MERSİN" and "mersın" all give "MERSİN" |
| Bellis.MersinCorrected | dhe_dashboard_v2/core/bellis_loader.py:43 | "MERSIN" is corrected to "MERSİN", which is not corrected again |
| Bellis.RegionIdOfNat | dhe_dashboard_v2/core/bellis_loader.py:176 | an id written as a whole number reads back as that number |
| Bellis.RegionIdOfFraction | dhe_dashboard_v2/core/bellis_loader.py:176 | a fractional id is cut toward zero: "3.9" is region 3 |
| Bellis.RegionIdOfNotNumber | dhe_dashboard_v2/core/bellis_loader.py:176 | text that is not a number is region 0 |
| Bellis.RegionMapOf | dhe_dashboard_v2/core/bellis_loader.py:171-178 | the map exists exactly when no city appears twice once normalised; it then has exactly the table's cities as keys, each with its coerced region id and its region name |
| Bellis.BellisFrame.constructor | dhe_dashboard_v2/core/bellis_loader.py:156 | the census frame holds the given rows |
| Bellis.Enriched | dhe_dashboard_v2/core/bellis_loader.py:184-186 | enriching keeps one row per machine |
| Bellis.Servicers | dhe_dashboard_v2/core/bellis_loader.py:197 | the `Servisci` column has one entry per machine |
| Bellis.PrepareBellisSummary | dhe_dashboard_v2/core/bellis_loader.py:156-231 | the frame gains its region columns in place, and the result is the outcome of the specification function: no KPIs for an empty census, an error for a repeated city, the KPIs otherwise |
| Bellis.MachineInTable | dhe_dashboard_v2/core/bellis_loader.py:178-193 | a machine whose city the table lists takes that city's region id and name, is in Turkey exactly when the id is positive, and keeps every other column |
| Bellis.MachineAbroad | dhe_dashboard_v2/core/bellis_loader.py:180-193 | a machine whose city the table does not list is region 0, "Yurt Dışı", and not in Turkey |
| Bellis.NoCityTable | dhe_dashboard_v2/core/bellis_loader.py:187-201 | without a city table no machine is counted in Turkey |
| Bellis.DuplicateCityRaises | dhe_dashboard_v2/core/bellis_loader.py:178 | a city repeated in the table ends the summary with an error, before any region column is written |
| Bellis.PercentRange | dhe_dashboard_v2/core/bellis_loader.py:198 | a part of a whole is between 0 and 100 percent |
| Bellis.HeadlineKpis | dhe_dashboard_v2/core/bellis_loader.py:196-225 | every machine is counted; DHE machines and machines in Turkey are among them; the market share is a percentage within rounding of the exact one |
| Bellis.CitySummariesCover | dhe_dashboard_v2/core/bellis_loader.py:212-219 | the map summary lists, in sorted order and once each, exactly the cities of the machines on the map; a city's DHE share is missing exactly when it has no named owner |
| Bellis.CityShareBounded | dhe_dashboard_v2/core/bellis_loader.py:212-219 | when every machine on the map has a named owner, every DHE share the map summary gives is a percentage |
| Bellis.OwnerlessDheShare | dhe_dashboard_v2/core/bellis_loader.py:212-219 | `Toplam` counts named owners but the DHE count does not, so one owned and one owner-less DHE machine in a city give a share of 200 |
| DayRuns.InsertByDay | dhe_dashboard_v2/views/islem_ozeti.py:90 | inserting a row keeps the rows in ascending date order and adds exactly that row |
| DayRuns.SortByDay | dhe_dashboard_v2/views/islem_ozeti.py:90 | `sort_values('Tarih')` gives the same rows in ascending date order |
| DayRuns.Runs | dhe_dashboard_v2/views/islem_ozeti.py:92-95 | there are runs exactly when there are rows, and no run is empty |
| DayRuns.RunsFlatten | dhe_dashboard_v2/views/islem_ozeti.py:95-97 | the runs split the rows without dropping or reordering any |
| DayRuns.RunsLast | dhe_dashboard_v2/views/islem_ozeti.py:95-97 | the last run ends with the last row |
| DayRuns.RunsSteps | dhe_dashboard_v2/views/islem_ozeti.py:92-95 | cut from rows sorted by date, every run steps by at most one day |
| DayRuns.RunsSeparated | dhe_dashboard_v2/views/islem_ozeti.py:95 | consecutive runs are more than one day apart |
| DayRuns.StepsBetween | dhe_dashboard_v2/views/islem_ozeti.py:99-103 | inside a run a later row is no earlier, and at most as many days later as it is rows further on |
| DayRuns.FlattenMember | dhe_dashboard_v2/views/islem_ozeti.py:97 | every row lies in some run |
| IslemOzeti.CleanActionTypeNormalForm | dhe_dashboard_v2/views/islem_ozeti.py:15-26 | only the stripped upper-case text decides the category: case and surrounding blanks never change it |
| IslemOzeti.CapitalsNormal | dhe_dashboard_v2/views/islem_ozeti.py:15 | capitals with single inner blanks are their own stripped upper case |
| IslemOzeti.LabelsReadBack | dhe_dashboard_v2/views/islem_ozeti.py:10-26 | each category label, classified again, gives its own category |
| IslemOzeti.ClassifyFault | dhe_dashboard_v2/views/islem_ozeti.py:17-20 | text with "ARIZA" but without "BAKIM" is a fault |
| IslemOzeti.ClassifyCommissioning | dhe_dashboard_v2/views/islem_ozeti.py:17-22 | text with "DEVREYE ALMA" or the word "DA", and neither "BAKIM" nor "ARIZA", is commissioning |
| IslemOzeti.ClassifyInspection | dhe_dashboard_v2/views/islem_ozeti.py:17-24 | text with "KONTROL" and none of the earlier keywords is an inspection |
| IslemOzeti.ClassifyOther | dhe_dashboard_v2/views/islem_ozeti.py:17-26 | text with no keyword is "DİĞER" |
| IslemOzeti.MaintenanceReadBack | dhe_dashboard_v2/views/islem_ozeti.py:17-18 | "BAKIM" is maintenance |
| IslemOzeti.FaultReadBack | dhe_dashboard_v2/views/islem_ozeti.py:19-20 | "ARIZA" is a fault |
| IslemOzeti.CommissioningReadBack | dhe_dashboard_v2/views/islem_ozeti.py:21-22 | "DEVREYE ALMA" is commissioning |
| IslemOzeti.InspectionReadBack | dhe_dashboard_v2/views/islem_ozeti.py:23-24 | "KONTROL" is an inspection |
| IslemOzeti.OtherReadBack | dhe_dashboard_v2/views/islem_ozeti.py:25-26 | "DİĞER" is classified as "DİĞER" |
| IslemOzeti.DaWordIsCommissioning | dhe_dashboard_v2/views/islem_ozeti.py:15-22 | "da" on its own is upper-cased and read as commissioning |
| IslemOzeti.KindRankOrdersLabels | dhe_dashboard_v2/views/islem_ozeti.py:87-89 | the category labels compare in the order ARIZA, BAKIM, DEVREYE ALMA, DİĞER, KONTROL, which is the order `groupby` visits them |
| IslemOzeti.StrippedNames | dhe_dashboard_v2/views/islem_ozeti.py:44 | the column names are stripped one by one |
| IslemOzeti.FirstMatch | dhe_dashboard_v2/views/islem_ozeti.py:43-46 | the search stops at the first column whose stripped name is listed, and no earlier column matches |
| IslemOzeti.FindColumn | dhe_dashboard_v2/views/islem_ozeti.py:43-46 | the `for`/`break` loop finds the first matching column, or none |
| IslemOzeti.AssignedRowsExact | dhe_dashboard_v2/views/islem_ozeti.py:49-55 | the filter keeps exactly the rows whose responsible cell, in Turkish upper case, contains the upper-cased technician name |
| IslemOzeti.AssignedRowsCaseBlind | dhe_dashboard_v2/views/islem_ozeti.py:51 | naming the technician in upper or lower case selects the same rows |
| IslemOzeti.ShownDateReadsBack | dhe_dashboard_v2/views/islem_ozeti.py:105-108 | a date shown in '%d.%m.%Y' form reads back as that date |
| IslemOzeti.KeysOfExact | dhe_dashboard_v2/views/islem_ozeti.py:89 | there is one key for each (customer, category) group, and a group for each key |
| IslemOzeti.KindsOfInOrder | dhe_dashboard_v2/views/islem_ozeti.py:89 | one customer's groups come in category-label order |
| IslemOzeti.KeysOfInOrder | dhe_dashboard_v2/views/islem_ozeti.py:87-89 | the groups are visited by customer in code-point order, then by category label |
| IslemOzeti.VisitOfRun | dhe_dashboard_v2/views/islem_ozeti.py:97-116 | a visit spans its run: it starts on the run's first day and ends on its last; it lasts as many days as that span (at least one, at most one per row, and exactly one when start and end are the same day); its row is one of the run's rows on the start day; its year is the start's year |
| IslemOzeti.ShownForm | dhe_dashboard_v2/views/islem_ozeti.py:105-108 | the date text is the start day in '%d.%m.%Y' form, followed for a longer visit by " - " and the end day |
| IslemOzeti.ShownReadsBack | dhe_dashboard_v2/views/islem_ozeti.py:105-108 | read back day-first, the date text gives the visit's first and last day |
| IslemOzeti.DatedExact | dhe_dashboard_v2/views/islem_ozeti.py:89-90 | the dated rows of a group are exactly its entries with a date |
| IslemOzeti.GroupRunsWellFormed | dhe_dashboard_v2/views/islem_ozeti.py:90-97 | every run of a group holds rows of the group and steps by at most one day |
| IslemOzeti.GroupVisitsSeparated | dhe_dashboard_v2/views/islem_ozeti.py:92-97 | the visits of a group follow each other with at least one day without a visit between them |
| IslemOzeti.GroupVisitsCover | dhe_dashboard_v2/views/islem_ozeti.py:89-118 | every dated row of a group falls inside one of the group's visits |
| IslemOzeti.GroupVisitsFromGroup | dhe_dashboard_v2/views/islem_ozeti.py:97-118 | every visit of a group belongs to that group, and its row is a row of the group dated on the visit's first day |
| IslemOzeti.AllVisitsMember | dhe_dashboard_v2/views/islem_ozeti.py:89-118 | the report rows are exactly the visits of the groups |
| IslemOzeti.EntryOfRow | dhe_dashboard_v2/views/islem_ozeti.py:73-89 | an entry describes its own row: its customer, its category and its parsed date |
| IslemOzeti.RowHasEntry | dhe_dashboard_v2/views/islem_ozeti.py:73-89 | a row with a customer and a date has an entry |
| IslemOzeti.VisitsSound | dhe_dashboard_v2/views/islem_ozeti.py:89-118 | every visit is one of the entries, with the visit's customer, category and first day |
| IslemOzeti.VisitsCover | dhe_dashboard_v2/views/islem_ozeti.py:89-118 | every entry with a date falls inside a visit of its customer and category |
| IslemOzeti.ReportVisits | dhe_dashboard_v2/views/islem_ozeti.py:29-125 | a sheet that yields report rows has a responsible column and a process column, and its report rows are the visits of the technician's rows |
| IslemOzeti.ReportSound | dhe_dashboard_v2/views/islem_ozeti.py:29-125 | every report row is a sheet row assigned to the technician, with the visit's customer, category and first day |
| IslemOzeti.ReportCovers | dhe_dashboard_v2/views/islem_ozeti.py:29-125 | every dated row of the technician with a customer falls inside a report row of its customer and category |
| IslemOzeti.PrepareIslemOzeti | dhe_dashboard_v2/views/islem_ozeti.py:29-125 | the statements give the report of the specification function: an empty frame, an exception, or the visits |
| IslemOzeti.GroupVisitRows | dhe_dashboard_v2/views/islem_ozeti.py:89-118 | the two nested loops give the visits of the groups in order, or raise for a group without a dated row |
| IslemOzeti.AppendRunVisits | dhe_dashboard_v2/views/islem_ozeti.py:97-118 | the inner loop appends one report row per run |

## Left out

- Sheet, Excel and network I/O: gspread access, `pd.read_excel`, the `load_*` functions, and the fetching part of `get_monthly_rates_map_gsheet`. The model starts from the rows these return. This includes the older `load_saha_data` (core/data_loader.py:32) and the I/O of `load_holidays` (core/data_loader.py:396).
- The `ThreadPoolExecutor` fan-out in `load_data`, the `@st.cache_data` caches and `retry_on_exception` (core/utils.py:14): concurrency, caching and sleeping have no counterpart in the model.
- `format_currency_eur` and `get_theme_colors` (core/utils.py:217, 224), and every Streamlit rendering function, including the render part of views/islem_ozeti.py: presentation only.
- Header normalisation and duplicate-column dropping done while reading a sheet: the model's rows already carry named fields.
- Clock reads: `date.today()` and `datetime.now()` are parameters named `today`.
- pandas' day-first `to_datetime` heuristics are a parameter (a partial function from text to a date). Only the strict `DD.MM.YYYY` format is modelled concretely, as `Civil.ParseDmy`.
- Floating point: amounts, rates and shares are reals. IEEE rounding, infinities and NaN propagation are not modelled. Where pandas yields `inf` or NaN, as in a Bellis DHE share over zero machines, the model yields `None`.
- Prelude.RoundTenth: rounds halves up, while Python's `round` rounds ties to even. The two differ only on exact ties.
- Prelude.ParseFloat: accepts the decimal forms `[sign] digits [. digits]` only. Exponents, `inf`, `nan` and underscores, which Python's `float()` also accepts, yield `None`.
- `pd.to_numeric` is modelled by the same decimal parser. Its other accepted forms are not modelled.
- Unicode: `str.upper`/`str.lower` are modelled for ASCII, Latin-1 (the micro sign µ upper-cases to the Greek Μ) and Turkish letters; other scripts, Greek included, are left unchanged by both. Unicode whitespace and digits outside those handled by the model are not recognised.
- Exceptions: a raised exception is a `Raised`/`None` result where the source lets it escape. Where the source catches it, the model yields the fallback value.
- An unhashable holiday value, which makes building the holiday set raise `TypeError`, is not modelled.
- Sort ties: pandas' default `sort_values` is an unstable quicksort. The model sorts stably, so among rows with equal keys it may keep a different order, and pick a different first row of a visit, than pandas would.
- `prepare_crm_data` with mixed-type customer keys, and its exception path beyond the empty-input case, is not modelled.
- `value_counts` and the Bellis service and region distributions are maps from label to count, so the model does not capture their order.
- Map coordinates: whether a city appears on the Bellis map is an input field (`onMap`). The latitude and longitude table is not modelled.
- `PERSONEL_MAP` and the city coordinates table are parameters. `YEARLY_EXCHANGE_RATES` and the city corrections table are written out, because lemmas depend on their contents.
- The upper-casing of the `Musteri` column of the product sheet in `load_data` (core/data_loader.py:308-309) is not modelled. No modelled step reads that sheet.
- The `Tarih_Gosterim` column of the İşlem Özeti report is the function `IslemOzeti.Shown` of a visit's first and last day, not a stored field.
