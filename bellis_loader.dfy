/*
 * The Bellis machine census: city names normalised to Turkish upper case,
 * machines joined to the city table's regions, and the market-share
 * figures the map page shows (core/bellis_loader.py).
 */
module Bellis {
  import opened Prelude
  import opened Utils

  // ---------------------------------------------------------------------
  // City names
  // ---------------------------------------------------------------------

  /** Spellings without Turkish letters, mapped to the official name. */
  const Corrections: map<string, string> := map[
    "KOCAELI" := "KOCAELİ",
    "IZMIR" := "İZMİR",
    "ISTANBUL" := "İSTANBUL",
    "MERSIN" := "MERSİN",
    "ELAZIG" := "ELAZIĞ",
    "OSMANIYE" := "OSMANİYE",
    "RIZE" := "RİZE",
    "DIYARBAKIR" := "DİYARBAKIR",
    "GAZIANTEP" := "GAZİANTEP",
    "SANLIURFA" := "ŞANLIURFA",
    "KAHRAMANMARAS" := "KAHRAMANMARAŞ",
    "TEKIRDAG" := "TEKİRDAĞ",
    "ESKISEHIR" := "ESKİŞEHİR",
    "NEVSEHIR" := "NEVŞEHİR",
    "KIRSEHIR" := "KIRŞEHİR",
    "AFYON" := "AFYONKARAHISAR"
  ]

  /** `normalize_city_name(city)`: a blank cell is "", anything else is
      stripped, put in Turkish upper case and corrected. */
  function NormalizeCityName(c: Cell): string
  {
    match c
    case Blank => ""
    case Text(s) =>
      var u := TrUpper(Strip(s));
      if u in Corrections then Corrections[u] else u
  }

  /** A capital letter of the Turkish alphabet. */
  predicate Capital(c: char)
  {
    'A' <= c <= 'Z' || c == 'İ' || c == 'Ğ' || c == 'Ş'
  }

  predicate AllCapitals(s: string)
  {
    forall i :: 0 <= i < |s| ==> Capital(s[i])
  }

  lemma CapitalFixed(c: char)
    requires Capital(c)
    ensures TrFixed(c)
    ensures !IsSpace(c)
  {
  }

  /** Capitals are neither changed by `tr_upper` nor stripped. */
  lemma AllCapitalsFixed(s: string)
    requires AllCapitals(s)
    ensures TrUpper(s) == s
    ensures Strip(s) == s
  {
    forall i | 0 <= i < |s|
      ensures TrFixed(s[i])
    {
      CapitalFixed(s[i]);
    }
    TrUpperOfFixed(s);
    if s != [] {
      CapitalFixed(s[0]);
      CapitalFixed(s[|s| - 1]);
      StripClean(s);
    }
  }

  /** Every corrected name is written in capitals. */
  lemma CorrectionsCapitals(k: string)
    requires k in Corrections
    ensures AllCapitals(Corrections[k])
  {
  }

  /** A corrected name needs no further correction. */
  lemma CorrectionsFinal(k: string)
    requires k in Corrections
    ensures Corrections[k] !in Corrections
  {
  }

  /** A normalised name is its own normal form, which is why normalising
      the city table a second time is harmless. */
  lemma NormalizeCityNameIdempotent(c: Cell)
    ensures NormalizeCityName(Text(NormalizeCityName(c))) == NormalizeCityName(c)
  {
    var v := NormalizeCityName(c);
    if c.Text? {
      var u := TrUpper(Strip(c.s));
      TrUpperKeepsStripped(Strip(c.s));
      TrUpperIdempotent(Strip(c.s));
      if u in Corrections {
        CorrectionsCapitals(u);
        CorrectionsFinal(u);
        AllCapitalsFixed(v);
      } else {
        assert v == u;
      }
    }
  }

  /** No name is corrected to the empty text. */
  lemma CorrectionsNonEmpty(k: string)
    requires k in Corrections
    ensures Corrections[k] != ""
  {
  }

  lemma EmptyNotCorrected()
    ensures "" !in Corrections
  {
  }

  /** The name is empty exactly when the cell is blank or only whitespace. */
  lemma NormalizeCityNameEmpty(c: Cell)
    ensures NormalizeCityName(c) == "" <==> c.Blank? || Strip(c.s) == ""
  {
    if c.Text? {
      if Strip(c.s) == "" {
        WhitespaceNameEmpty(c.s);
      } else {
        NameNotEmpty(c.s);
      }
    }
  }

  lemma WhitespaceNameEmpty(s: string)
    requires Strip(s) == ""
    ensures NormalizeCityName(Text(s)) == ""
  {
    EmptyNotCorrected();
    assert TrUpper(Strip(s)) == "";
  }

  lemma NameNotEmpty(s: string)
    requires Strip(s) != ""
    ensures NormalizeCityName(Text(s)) != ""
  {
    var u := TrUpper(Strip(s));
    TrUpperKeepsStripped(Strip(s));
    if u in Corrections {
      CorrectionsNonEmpty(u);
    }
  }

  lemma MersinCorrected()
    ensures "MERSIN" in Corrections && Corrections["MERSIN"] == "MERSİN"
    ensures "MERSİN" !in Corrections
  {
    CorrectionsFinal("MERSIN");
  }

  /** "Mersin", "MERSİN" and "mersın" all name MERSİN. */
  lemma NormalizeCityNameMersin()
    ensures NormalizeCityName(Text("Mersin")) == "MERSİN"
    ensures NormalizeCityName(Text("MERSİN")) == "MERSİN"
    ensures NormalizeCityName(Text("mersın")) == "MERSİN"
  {
    MersinCorrected();
    MersinUpper();
  }

  lemma MersinUpper()
    ensures Strip("Mersin") == "Mersin" && TrUpper("Mersin") == "MERSİN"
    ensures Strip("MERSİN") == "MERSİN" && TrUpper("MERSİN") == "MERSİN"
    ensures Strip("mersın") == "mersın" && TrUpper("mersın") == "MERSIN"
  {
    MixedCaseUpper();
    UpperCaseUpper();
    DotlessUpper();
  }

  lemma MixedCaseUpper()
    ensures Strip("Mersin") == "Mersin" && TrUpper("Mersin") == "MERSİN"
  {
    StripClean("Mersin");
    TrUpperMap("Mersin");
  }

  lemma UpperCaseUpper()
    ensures Strip("MERSİN") == "MERSİN" && TrUpper("MERSİN") == "MERSİN"
  {
    AllCapitalsFixed("MERSİN");
  }

  lemma DotlessUpper()
    ensures Strip("mersın") == "mersın" && TrUpper("mersın") == "MERSIN"
  {
    StripClean("mersın");
    TrUpperMap("mersın");
  }

  // ---------------------------------------------------------------------
  // The city table
  // ---------------------------------------------------------------------

  /** One row of the city sheet: Sehir_Ad, Bolge_Id, Bolge_Ad. */
  datatype CityRow = CityRow(name: Cell, regionId: Cell, regionName: Cell)

  /** The region a city outside the table belongs to. */
  const Abroad := "Yurt Dışı"

  /** `pd.to_numeric(errors='coerce').fillna(0).astype(int)` on one cell:
      a number is cut toward zero, anything else is 0. */
  function RegionIdOf(c: Cell): int
  {
    match c
    case Blank => 0
    case Text(s) =>
      var x := ParseFloat(s);
      if x.None? then 0 else Trunc(x.value)
  }

  /** An id written as a whole number reads back as that number, so
      coercing the column a second time changes nothing. */
  lemma RegionIdOfNat(n: nat)
    ensures RegionIdOf(Text(NatText(n))) == n
  {
    var t := NatText(n);
    assert IsDigit(t[0]) && IsDigit(t[|t| - 1]);
    StripClean(t);
    ParseDecimalInteger(t);
  }

  /** Text that starts with a digit is read without sign. */
  lemma ParseFloatDigits(t: string)
    requires t != [] && IsDigit(t[0]) && !IsSpace(t[|t| - 1])
    ensures ParseFloat(t) == ParseDecimal(t)
  {
    assert CleanEnds(t);
    StripCleanEnds(t);
    assert t[0] != '+' && t[0] != '-';
  }

  lemma FractionParses(ip: string, fp: string)
    requires AllDigits(ip) && AllDigits(fp) && ip != []
    ensures ParseFloat(ip + "." + fp) == Some(DecimalValue(ip, fp))
  {
    var t := ip + "." + fp;
    assert t[0] == ip[0];
    assert !IsSpace(t[|t| - 1]) by {
      if fp == [] {
        assert t[|t| - 1] == '.';
      } else {
        assert t[|t| - 1] == fp[|fp| - 1];
      }
    }
    ParseFloatDigits(t);
    ParseDecimalPoint(ip, fp);
  }

  /** A fractional id is cut toward zero: "3.9" is region 3. */
  lemma RegionIdOfFraction(ip: string, fp: string)
    requires AllDigits(ip) && AllDigits(fp) && ip != []
    ensures RegionIdOf(Text(ip + "." + fp)) == DigitsValue(ip)
  {
    FractionParses(ip, fp);
    DecimalValueBetween(ip, fp);
    TruncBetween(DigitsValue(ip), DecimalValue(ip, fp));
  }

  /** The whole part of a decimal is the number before the point. */
  lemma DecimalValueBetween(ip: string, fp: string)
    requires AllDigits(ip) && AllDigits(fp)
    ensures DigitsValue(ip) as real <= DecimalValue(ip, fp) < DigitsValue(ip) as real + 1.0
  {
    FractionBelowOne(DigitsValue(fp), Pow10(|fp|));
  }

  lemma TruncBetween(d: nat, x: real)
    requires d as real <= x < d as real + 1.0
    ensures Trunc(x) == d
  {
    var n := Trunc(x);
    assert n as real <= x < n as real + 1.0;
    assert n <= d && d <= n;
  }

  lemma FractionBelowOne(a: nat, b: nat)
    requires a < b
    ensures 0.0 <= a as real / b as real < 1.0
  {
    var q := a as real / b as real;
    assert q * b as real == a as real;
  }

  /** Text that is no number is region 0. */
  lemma RegionIdOfNotNumber()
    ensures RegionIdOf(Text("x")) == 0
  {
    StripClean("x");
    assert IndexOf("x", '.') == 1;
    assert !AllDigits("x");
  }

  function CityKey(r: CityRow): string
  {
    NormalizeCityName(r.name)
  }

  /** No two rows of the city table name the same city once normalised. */
  predicate UniqueCities(cities: seq<CityRow>)
  {
    forall i, j :: 0 <= i < j < |cities| ==> CityKey(cities[i]) != CityKey(cities[j])
  }

  /** Each city's region id and region name. */
  type RegionMap = map<string, (int, Cell)>

  /** `set_index("Sehir_Ad")[...].to_dict("index")`, which raises when a
      city appears twice. */
  function RegionMapOf(cities: seq<CityRow>): (m: Option<RegionMap>)
    ensures m.Some? <==> UniqueCities(cities)
    ensures m.Some? ==> forall k :: k in m.value <==> exists i :: 0 <= i < |cities| && CityKey(cities[i]) == k
    ensures m.Some? ==> forall i :: 0 <= i < |cities| ==>
      CityKey(cities[i]) in m.value && m.value[CityKey(cities[i])] == (RegionIdOf(cities[i].regionId), cities[i].regionName)
  {
    if !UniqueCities(cities) then None
    else Some(map i | 0 <= i < |cities| :: CityKey(cities[i]) := (RegionIdOf(cities[i].regionId), cities[i].regionName))
  }

  /** `get_bolge_info(sehir)`: the table's entry, or region 0 abroad. */
  function RegionOf(m: RegionMap, city: string): (int, Cell)
  {
    if city in m then m[city] else (0, Text(Abroad))
  }

  // ---------------------------------------------------------------------
  // Machines and the summary
  // ---------------------------------------------------------------------

  /** One machine of the census after loading: owner, normalised city,
      normalised servicer, whether the city has map coordinates
      (Turkiye_Ici), and the region columns this module adds. */
  datatype Machine = Machine(customer: Cell, city: string, servicer: string, onMap: bool,
                             regionId: int, regionName: Cell, isTurkey: bool)

  /** The census frame, whose region columns are written in place. */
  class BellisFrame {
    var rows: seq<Machine>

    constructor (rows: seq<Machine>)
      ensures this.rows == rows
    {
      this.rows := rows;
    }
  }

  function WithRegion(r: Machine, region: (int, Cell)): Machine
  {
    r.(regionId := region.0, regionName := region.1, isTurkey := region.0 > 0)
  }

  /** Every machine given the region of its city. */
  function Enriched(rows: seq<Machine>, m: RegionMap): (r: seq<Machine>)
    ensures |r| == |rows|
  {
    seq(|rows|, i requires 0 <= i < |rows| => WithRegion(rows[i], RegionOf(m, rows[i].city)))
  }

  /** The servicer name that counts as DHE. */
  const Dhe := "DHE"

  /** One row of the per-city map summary. */
  datatype CitySummary = CitySummary(city: string, total: nat, dhe: nat, dheShare: Option<real>)

  /** The KPI dictionary. */
  datatype Kpis = Kpis(total: nat, dhe: nat, inTurkey: nat, marketShare: real,
                       services: map<string, nat>, regions: map<string, nat>,
                       cities: seq<CitySummary>)

  /** What `prepare_bellis_summary` ends with: no KPIs for an empty census,
      the ValueError `to_dict` raises on a repeated city, or the KPIs. */
  datatype Outcome = NoKpis | DuplicateCity | Summary(kpis: Kpis)

  function Percent(part: nat, whole: nat): real
    requires whole > 0
  {
    part as real / whole as real * 100.0
  }

  function Servicers(rows: seq<Machine>): (r: seq<string>)
    ensures |r| == |rows|
  {
    seq(|rows|, i requires 0 <= i < |rows| => rows[i].servicer)
  }

  /** The region names `groupby` keeps: blank names are dropped. */
  function RegionNames(rows: seq<Machine>): seq<string>
  {
    FilterMap(rows, (r: Machine) => if r.regionName.Text? then Some(r.regionName.s) else None)
  }

  /** The cities of the machines shown on the map. */
  function MapCities(rows: seq<Machine>): seq<string>
  {
    FilterMap(rows, (r: Machine) => if r.onMap then Some(r.city) else None)
  }

  /** One city's group: `count` of owners, DHE machines, and their
      rounded percentage (no number when the city has no named owner). */
  function CitySummaryOf(rows: seq<Machine>, city: string): CitySummary
  {
    var total := CountIf(rows, (r: Machine) => r.onMap && r.city == city && r.customer.Text?);
    var dhe := CountIf(rows, (r: Machine) => r.onMap && r.city == city && r.servicer == Dhe);
    CitySummary(city, total, dhe, if total == 0 then None else Some(RoundTenth(Percent(dhe, total))))
  }

  /** The map summary, one row per city in sorted order. */
  function CitySummaries(rows: seq<Machine>): seq<CitySummary>
  {
    var names := SortDistinct(MapCities(rows));
    seq(|names|, i requires 0 <= i < |names| => CitySummaryOf(rows, names[i]))
  }

  function KpisOf(rows: seq<Machine>): Kpis
  {
    var dhe := CountIf(rows, (r: Machine) => r.servicer == Dhe);
    Kpis(|rows|, dhe, CountIf(rows, (r: Machine) => r.isTurkey),
         if |rows| > 0 then RoundTenth(Percent(dhe, |rows|)) else 0.0,
         ValueCounts(Servicers(rows)), ValueCounts(RegionNames(rows)), CitySummaries(rows))
  }

  /** The frame's rows once `prepare_bellis_summary` has run. */
  function EnrichedFrame(rows: seq<Machine>, cities: seq<CityRow>): seq<Machine>
  {
    if rows == [] || RegionMapOf(cities).None? then rows
    else Enriched(rows, RegionMapOf(cities).value)
  }

  /** The value `prepare_bellis_summary` returns beside the frame. */
  function SummaryOf(rows: seq<Machine>, cities: seq<CityRow>): Outcome
  {
    if rows == [] then NoKpis
    else if RegionMapOf(cities).None? then DuplicateCity
    else Summary(KpisOf(Enriched(rows, RegionMapOf(cities).value)))
  }

  /** `prepare_bellis_summary(df_bellis, df_sehirler)`. */
  method PrepareBellisSummary(frame: BellisFrame, cities: seq<CityRow>) returns (out: Outcome)
    modifies frame
    ensures out == SummaryOf(old(frame.rows), cities)
    ensures frame.rows == EnrichedFrame(old(frame.rows), cities)
  {
    var rows := frame.rows;
    if rows == [] {
      return NoKpis;
    }
    if cities != [] {
      var m := RegionMapOf(cities);
      if m.None? {
        return DuplicateCity;
      }
      frame.rows := Enriched(rows, m.value);
    } else {
      frame.rows := seq(|rows|, i requires 0 <= i < |rows| => WithRegion(rows[i], (0, Text(Abroad))));
      assert RegionMapOf(cities) == Some(map[]);
      assert frame.rows == Enriched(rows, map[]);
    }
    out := Summary(KpisOf(frame.rows));
  }

  // ---------------------------------------------------------------------
  // What the summary promises
  // ---------------------------------------------------------------------

  /** A machine whose city the table lists takes that city's region, is in
      Turkey exactly when the region id is positive, and keeps everything
      else. */
  lemma MachineInTable(rows: seq<Machine>, cities: seq<CityRow>, i: int, j: int)
    requires UniqueCities(cities)
    requires 0 <= i < |rows| && 0 <= j < |cities| && CityKey(cities[j]) == rows[i].city
    ensures |EnrichedFrame(rows, cities)| == |rows|
    ensures EnrichedFrame(rows, cities)[i].regionId == RegionIdOf(cities[j].regionId)
    ensures EnrichedFrame(rows, cities)[i].regionName == cities[j].regionName
    ensures EnrichedFrame(rows, cities)[i].isTurkey <==> RegionIdOf(cities[j].regionId) > 0
    ensures EnrichedFrame(rows, cities)[i].(regionId := 0, regionName := Blank, isTurkey := false)
         == rows[i].(regionId := 0, regionName := Blank, isTurkey := false)
  {
  }

  /** A machine whose city the table does not list is region 0, "Yurt
      Dışı", and not in Turkey. */
  lemma MachineAbroad(rows: seq<Machine>, cities: seq<CityRow>, i: int)
    requires UniqueCities(cities)
    requires 0 <= i < |rows|
    requires forall j :: 0 <= j < |cities| ==> CityKey(cities[j]) != rows[i].city
    ensures |EnrichedFrame(rows, cities)| == |rows|
    ensures EnrichedFrame(rows, cities)[i].regionId == 0
    ensures EnrichedFrame(rows, cities)[i].regionName == Text(Abroad)
    ensures !EnrichedFrame(rows, cities)[i].isTurkey
  {
    assert rows[i].city !in RegionMapOf(cities).value;
  }

  /** Without a city table no machine is counted in Turkey. */
  lemma NoCityTable(rows: seq<Machine>)
    requires rows != []
    ensures SummaryOf(rows, []).Summary?
    ensures SummaryOf(rows, []).kpis.inTurkey == 0
  {
    var m: RegionMap := map[];
    assert RegionMapOf([]) == Some(m);
    var e := Enriched(rows, m);
    CountIfZero(e, (r: Machine) => r.isTurkey);
  }

  /** A repeated city in the table ends the summary with an error. */
  lemma DuplicateCityRaises(rows: seq<Machine>, cities: seq<CityRow>, i: int, j: int)
    requires rows != []
    requires 0 <= i < j < |cities| && CityKey(cities[i]) == CityKey(cities[j])
    ensures SummaryOf(rows, cities) == DuplicateCity
    ensures EnrichedFrame(rows, cities) == rows
  {
  }

  lemma PercentRange(part: nat, whole: nat)
    requires 0 < whole && part <= whole
    ensures 0.0 <= Percent(part, whole) <= 100.0
  {
    var q := part as real / whole as real;
    assert q * whole as real == part as real;
    assert q <= 1.0;
  }

  /** The headline figures: every machine counted, DHE machines and
      machines in Turkey among them, and the market share a percentage
      within rounding of the exact one. */
  lemma HeadlineKpis(rows: seq<Machine>, cities: seq<CityRow>)
    requires rows != [] && UniqueCities(cities)
    ensures SummaryOf(rows, cities).Summary?
    ensures var k := SummaryOf(rows, cities).kpis;
      k.total == |rows| && k.dhe <= k.total && k.inTurkey <= k.total
      && 0.0 <= k.marketShare <= 100.0
      && -0.05 < k.marketShare - Percent(k.dhe, k.total) <= 0.05
  {
    var e := Enriched(rows, RegionMapOf(cities).value);
    var dhe := CountIf(e, (r: Machine) => r.servicer == Dhe);
    PercentRange(dhe, |e|);
    RoundTenthPercent(Percent(dhe, |e|));
  }

  function SummaryCities(cs: seq<CitySummary>): seq<string>
  {
    seq(|cs|, a requires 0 <= a < |cs| => cs[a].city)
  }

  /** The map summary lists, in sorted order and once each, exactly the
      cities of the machines on the map; a city's DHE share is missing
      exactly when it has no named owner. */
  lemma CitySummariesCover(rows: seq<Machine>)
    ensures var cs := CitySummaries(rows);
      (forall a, b :: 0 <= a < b < |cs| ==> StrLt(cs[a].city, cs[b].city))
      && (forall c :: c in SummaryCities(cs) <==>
                      (exists i :: 0 <= i < |rows| && rows[i].onMap && rows[i].city == c))
      && (forall a :: 0 <= a < |cs| ==> (cs[a].dheShare.None? <==> cs[a].total == 0))
  {
    var names := SortDistinct(MapCities(rows));
    var cs := CitySummaries(rows);
    assert SummaryCities(cs) == names;
    forall c
      ensures c in SummaryCities(cs) <==>
              (exists i :: 0 <= i < |rows| && rows[i].onMap && rows[i].city == c)
    {
      FilterMapMember(rows, (r: Machine) => if r.onMap then Some(r.city) else None, c);
      assert c in names <==> c in MapCities(rows) by {
        assert c in names <==> c in Elems(names);
      }
    }
  }

  /** When every machine on the map has a named owner, each city's DHE share
      is a percentage. */
  lemma CityShareBounded(rows: seq<Machine>)
    requires forall i :: 0 <= i < |rows| && rows[i].onMap ==> rows[i].customer.Text?
    ensures forall a :: 0 <= a < |CitySummaries(rows)| && CitySummaries(rows)[a].dheShare.Some? ==>
      0.0 <= CitySummaries(rows)[a].dheShare.value <= 100.0
  {
    var cs := CitySummaries(rows);
    forall a | 0 <= a < |cs| && cs[a].dheShare.Some?
      ensures 0.0 <= cs[a].dheShare.value <= 100.0
    {
      var c := cs[a].city;
      var p := (r: Machine) => r.onMap && r.city == c && r.servicer == Dhe;
      var q := (r: Machine) => r.onMap && r.city == c && r.customer.Text?;
      CountIfOn(rows, p, q);
      PercentRange(CountIf(rows, p), CountIf(rows, q));
      RoundTenthPercent(Percent(CountIf(rows, p), CountIf(rows, q)));
    }
  }
  /** `Toplam` counts named owners while the DHE count does not look at the
      owner, so DHE machines without an owner push a city's share above 100:
      one owned and one owner-less DHE machine give 200. */
  lemma OwnerlessDheShare()
    ensures var owned := Machine(Text("Foo"), "ANKARA", Dhe, true, 6, Text("İç Anadolu"), true);
      var ownerless := owned.(customer := Blank);
      CitySummaryOf([owned, ownerless], "ANKARA") == CitySummary("ANKARA", 1, 2, Some(200.0))
  {
    var owned := Machine(Text("Foo"), "ANKARA", Dhe, true, 6, Text("İç Anadolu"), true);
    var rows := [owned, owned.(customer := Blank)];
    assert rows[..1] == [owned];
    assert CountIf(rows, (r: Machine) => r.onMap && r.city == "ANKARA" && r.customer.Text?) == 1;
    assert CountIf(rows, (r: Machine) => r.onMap && r.city == "ANKARA" && r.servicer == Dhe) == 2;
    assert Percent(2, 1) == 200.0;
    assert (200.0 * 10.0 + 0.5).Floor == 2000;
  }
}
