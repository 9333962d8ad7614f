/*
 * The "İşlem Özeti" report (views/islem_ozeti.py): the field-service log of
 * one technician, its actions sorted into five kinds, and consecutive days
 * of work for one customer and kind merged into visits.
 */
module IslemOzeti {
  import opened Prelude
  import opened Civil
  import opened Utils
  import opened DayRuns

  // ---------------------------------------------------------------------
  // Kinds of action
  // ---------------------------------------------------------------------

  datatype ActionType = Maintenance | Fault | Commissioning | Inspection | Other

  /** The label the report shows for each kind. */
  function Label(a: ActionType): string
  {
    match a
    case Maintenance => "BAKIM"
    case Fault => "ARIZA"
    case Commissioning => "DEVREYE ALMA"
    case Inspection => "KONTROL"
    case Other => "DİĞER"
  }

  /** The keyword test of `clean_action_type` on the normalised text: the
      first keyword found decides; "DA" counts only as a word of its own. */
  function Classify(u: string): ActionType
  {
    if Contains(u, "BAKIM") then Maintenance
    else if Contains(u, "ARIZA") then Fault
    else if Contains(u, "DEVREYE ALMA") || Contains(" " + u + " ", " DA ") then Commissioning
    else if Contains(u, "KONTROL") then Inspection
    else Other
  }

  /** `clean_action_type(action)`: a blank cell is another kind of action;
      any other text is stripped and upper-cased before the test. */
  function CleanActionType(c: Cell): ActionType
  {
    match c
    case Blank => Other
    case Text(s) => Classify(Upper(Strip(s)))
  }

  /** Only the stripped upper-case text matters: case and surrounding blanks
      never change the kind. */
  lemma CleanActionTypeNormalForm(s: string)
    ensures CleanActionType(Text(Upper(Strip(s)))) == CleanActionType(Text(s))
  {
    var t := Strip(s);
    StripIdempotent(s);
    UpperKeepsStripped(t);
    UpperIdempotent(t);
    assert Upper(Strip(Upper(t))) == Upper(t);
  }

  /** Capitals, with single inner spaces allowed. */
  predicate PlainCapitals(s: string)
  {
    forall i :: 0 <= i < |s| ==> 'A' <= s[i] <= 'Z' || s[i] == 'İ' || s[i] == 'Ğ' || (s[i] == ' ' && 0 < i < |s| - 1)
  }

  /** Text already in capitals is its own stripped upper case. */
  lemma CapitalsNormal(s: string)
    requires PlainCapitals(s)
    ensures Upper(Strip(s)) == s
  {
    if s != [] {
      StripClean(s);
    }
    UpperMap(s);
  }

  /** A text lacks every word holding a character the text lacks. */
  lemma {:induction false} MissingChar(s: string, sub: string, c: char)
    requires c in sub && c !in s
    ensures !Contains(s, sub)
  {
    if s != [] {
      assert forall x :: x in s[1..] ==> x in s;
      MissingChar(s[1..], sub, c);
    }
  }

  lemma ContainsSelf(s: string)
    ensures Contains(s, s)
  {
    assert IsPrefix(s, s);
  }

  /** The word " DA " needs a letter the padded text lacks. */
  lemma NoDaWord(u: string, c: char)
    requires (c == 'D' || c == 'A') && c !in u
    ensures !Contains(" " + u + " ", " DA ")
  {
    assert c in " DA ";
    MissingChar(" " + u + " ", " DA ", c);
  }

  /** The keyword test, decided by letters the text lacks. */
  lemma ClassifyFault(u: string)
    requires 'B' !in u && Contains(u, "ARIZA")
    ensures Classify(u) == Fault
  {
    MissingChar(u, "BAKIM", 'B');
  }

  lemma ClassifyCommissioning(u: string)
    requires 'B' !in u && 'Z' !in u && Contains(u, "DEVREYE ALMA")
    ensures Classify(u) == Commissioning
  {
    MissingChar(u, "BAKIM", 'B');
    MissingChar(u, "ARIZA", 'Z');
  }

  lemma ClassifyInspection(u: string)
    requires 'B' !in u && 'Z' !in u && 'D' !in u && Contains(u, "KONTROL")
    ensures Classify(u) == Inspection
  {
    MissingChar(u, "BAKIM", 'B');
    MissingChar(u, "ARIZA", 'Z');
    MissingChar(u, "DEVREYE ALMA", 'D');
    NoDaWord(u, 'D');
  }

  lemma ClassifyOther(u: string)
    requires 'B' !in u && 'Z' !in u && 'V' !in u && 'A' !in u && 'K' !in u
    ensures Classify(u) == Other
  {
    MissingChar(u, "BAKIM", 'B');
    MissingChar(u, "ARIZA", 'Z');
    MissingChar(u, "DEVREYE ALMA", 'V');
    NoDaWord(u, 'A');
    MissingChar(u, "KONTROL", 'K');
  }

  lemma ClassifiedAs(s: string, u: string, a: ActionType)
    requires Upper(Strip(s)) == u && Classify(u) == a
    ensures CleanActionType(Text(s)) == a
  {
  }

  /** Capital text is classified as it stands. */
  lemma ReadBack(s: string, a: ActionType)
    requires PlainCapitals(s) && Classify(s) == a
    ensures CleanActionType(Text(s)) == a
  {
    CapitalsNormal(s);
  }

  /** Each label is read back as its own kind. */
  lemma LabelsReadBack(a: ActionType)
    ensures CleanActionType(Text(Label(a))) == a
  {
    match a
    case Maintenance => MaintenanceReadBack();
    case Fault => FaultReadBack();
    case Commissioning => CommissioningReadBack();
    case Inspection => InspectionReadBack();
    case Other => OtherReadBack();
  }

  lemma MaintenanceReadBack()
    ensures CleanActionType(Text("BAKIM")) == Maintenance
  {
    MaintenanceKeywords();
    ReadBack("BAKIM", Maintenance);
  }

  lemma MaintenanceKeywords()
    ensures Classify("BAKIM") == Maintenance
  {
    ContainsSelf("BAKIM");
  }

  lemma FaultReadBack()
    ensures CleanActionType(Text("ARIZA")) == Fault
  {
    FaultKeywords();
    ReadBack("ARIZA", Fault);
  }

  lemma FaultKeywords()
    ensures Classify("ARIZA") == Fault
  {
    ContainsSelf("ARIZA");
    ClassifyFault("ARIZA");
  }

  lemma CommissioningReadBack()
    ensures CleanActionType(Text("DEVREYE ALMA")) == Commissioning
  {
    CommissioningPlain();
    CommissioningKeywords();
    ReadBack("DEVREYE ALMA", Commissioning);
  }

  lemma CommissioningPlain()
    ensures PlainCapitals("DEVREYE ALMA")
  {
  }

  lemma CommissioningKeywords()
    ensures Classify("DEVREYE ALMA") == Commissioning
  {
    ContainsSelf("DEVREYE ALMA");
    ClassifyCommissioning("DEVREYE ALMA");
  }

  lemma InspectionReadBack()
    ensures CleanActionType(Text("KONTROL")) == Inspection
  {
    InspectionKeywords();
    ReadBack("KONTROL", Inspection);
  }

  lemma InspectionKeywords()
    ensures Classify("KONTROL") == Inspection
  {
    ContainsSelf("KONTROL");
    ClassifyInspection("KONTROL");
  }

  lemma OtherReadBack()
    ensures CleanActionType(Text("DİĞER")) == Other
  {
    OtherKeywords();
    ReadBack("DİĞER", Other);
  }

  lemma OtherKeywords()
    ensures Classify("DİĞER") == Other
  {
    ClassifyOther("DİĞER");
  }

  /** "da" on its own is read as commissioning ("devreye alma"). */
  lemma DaWordIsCommissioning()
    ensures CleanActionType(Text("da")) == Commissioning
  {
    DaKeywords();
    DaNormal();
    ClassifiedAs("da", "DA", Commissioning);
  }

  lemma DaNormal()
    ensures Upper(Strip("da")) == "DA"
  {
    StripClean("da");
    UpperMap("da");
  }

  lemma DaKeywords()
    ensures Classify("DA") == Commissioning
  {
    MissingChar("DA", "BAKIM", 'B');
    MissingChar("DA", "ARIZA", 'Z');
    ContainsSelf(" DA ");
  }

  /** The order pandas sorts the labels in (code-point order): ARIZA, BAKIM,
      DEVREYE ALMA, DİĞER, KONTROL. */
  function KindRank(a: ActionType): nat
  {
    match a
    case Fault => 0
    case Maintenance => 1
    case Commissioning => 2
    case Other => 3
    case Inspection => 4
  }

  const KindOrder: seq<ActionType> := [Fault, Maintenance, Commissioning, Other, Inspection]

  /** Ranks order kinds as their labels compare. */
  lemma KindRankOrdersLabels(a: ActionType, b: ActionType)
    requires KindRank(a) < KindRank(b)
    ensures StrLt(Label(a), Label(b))
  {
    LabelSteps();
    var l := [Label(Fault), Label(Maintenance), Label(Commissioning), Label(Other), Label(Inspection)];
    assert Label(a) == l[KindRank(a)] && Label(b) == l[KindRank(b)];
    if KindRank(b) - KindRank(a) >= 2 {
      StrLtTransitive(l[KindRank(a)], l[KindRank(a) + 1], l[KindRank(a) + 2]);
    }
    if KindRank(b) - KindRank(a) >= 3 {
      StrLtTransitive(l[KindRank(a)], l[KindRank(a) + 2], l[KindRank(a) + 3]);
    }
    if KindRank(b) - KindRank(a) == 4 {
      StrLtTransitive(l[0], l[3], l[4]);
    }
  }

  lemma LabelSteps()
    ensures StrLt("ARIZA", "BAKIM")
    ensures StrLt("BAKIM", "DEVREYE ALMA")
    ensures StrLt("DEVREYE ALMA", "DİĞER")
    ensures StrLt("DİĞER", "KONTROL")
  {
    assert StrLt("EVREYE ALMA", "İĞER");
  }

  // ---------------------------------------------------------------------
  // The field-service sheet
  // ---------------------------------------------------------------------

  /** A value of the Tarih column: a timestamp, NaT, or text that
      `pd.to_datetime(dayfirst=True)` still has to read. */
  datatype When = Day(d: CivilDate) | NoDay | Written(s: string)

  /** One row: its cells by column name (a name it lacks is blank) and its
      date. */
  datatype ServiceRow = ServiceRow(cells: map<string, Cell>, date: When)

  /** The sheet: its column names in order, and its rows. */
  datatype ServiceSheet = ServiceSheet(columns: seq<string>, rows: seq<ServiceRow>)

  function CellOf(r: ServiceRow, column: string): Cell
  {
    if column in r.cells then r.cells[column] else Blank
  }

  const ResponsibleColumns: seq<string> := ["Sorumlu", "Sorumlu Personel", "Personel"]
  const ProcessColumns: seq<string> := ["İşlem", "Islem", "Yapılan İşlem", "Açıklama"]
  const DateColumn := "Tarih"
  const CustomerColumn := "Müşteri"

  /** `str(col).strip()` for every column name. */
  function StrippedNames(columns: seq<string>): (r: seq<string>)
    ensures |r| == |columns|
  {
    seq(|columns|, i requires 0 <= i < |columns| => Strip(columns[i]))
  }

  /** The position of the first name, from `from` on, that is one of
      `names` (`|keys|` when there is none). */
  function FirstMatch(keys: seq<string>, names: seq<string>, from: nat): (k: nat)
    requires from <= |keys|
    ensures from <= k <= |keys|
    ensures forall j :: from <= j < k ==> keys[j] !in names
    ensures k < |keys| ==> keys[k] in names
    decreases |keys| - from
  {
    if from == |keys| || keys[from] in names then from
    else FirstMatch(keys, names, from + 1)
  }

  /** The first column whose stripped name is one of `names`. */
  function FirstColumn(columns: seq<string>, names: seq<string>): Option<string>
  {
    var k := FirstMatch(StrippedNames(columns), names, 0);
    if k < |columns| then Some(columns[k]) else None
  }

  /** The `for col in df.columns` search for the first matching column. */
  method FindColumn(columns: seq<string>, names: seq<string>) returns (r: Option<string>)
    ensures r == FirstColumn(columns, names)
  {
    var i := 0;
    while i < |columns|
      invariant 0 <= i <= |columns|
      invariant FirstMatch(StrippedNames(columns), names, i) == FirstMatch(StrippedNames(columns), names, 0)
    {
      if Strip(columns[i]) in names {
        return Some(columns[i]);
      }
      i := i + 1;
    }
    return None;
  }

  /** `astype(str)` on a cell of the field-service frame: the NaN that
      `pd.concat` leaves where a sheet lacks the column prints as "nan". */
  function FieldStr(c: Cell): string
  {
    match c
    case Blank => "nan"
    case Text(s) => s
  }

  /** The row is the technician's: the upper-cased search term occurs in the
      Turkish upper case of the responsible cell's text. */
  predicate Assigned(r: ServiceRow, column: string, term: string)
  {
    Contains(TrUpper(FieldStr(CellOf(r, column))), term)
  }

  function AssignedRows(rows: seq<ServiceRow>, column: string, personnel: string): seq<ServiceRow>
  {
    FilterMap(rows, (r: ServiceRow) => if Assigned(r, column, TrUpper(personnel)) then Some(r) else None)
  }

  /** The filter keeps exactly the technician's rows, in sheet order. */
  lemma AssignedRowsExact(rows: seq<ServiceRow>, column: string, personnel: string, r: ServiceRow)
    ensures r in AssignedRows(rows, column, personnel) <==> r in rows && Assigned(r, column, TrUpper(personnel))
  {
    FilterMapMember(rows, (r: ServiceRow) => if Assigned(r, column, TrUpper(personnel)) then Some(r) else None, r);
  }

  /** Naming the technician in upper or lower case selects the same rows. */
  lemma AssignedRowsCaseBlind(rows: seq<ServiceRow>, column: string, personnel: string)
    ensures AssignedRows(rows, column, TrUpper(personnel)) == AssignedRows(rows, column, personnel)
  {
    TrUpperIdempotent(personnel);
  }

  // ---------------------------------------------------------------------------
  // Dates
  // ---------------------------------------------------------------------------

  /** `pd.to_datetime(..., dayfirst=True)` on one `Tarih` cell: `Some(Some(d))`
      for a date, `Some(None)` for `NaT`, `None` when pandas raises. `parse`
      stands for pandas' day-first reading of a non-empty text. */
  function Reading(w: When, parse: string -> Option<CivilDate>): Option<Option<CivilDate>>
  {
    match w
    case Day(d) => Some(Some(d))
    case NoDay => Some(None)
    case Written(s) =>
      if s == "" then Some(None)
      else if parse(s).Some? then Some(Some(parse(s).value))
      else None
  }

  /** The `'%d.%m.%Y'` reading of a text, for the texts that name a calendar
      date. */
  function DayFirst(s: string): Option<CivilDate>
  {
    match ParseDmy(s)
    case Some(d) => if ValidDate(d) then var c: CivilDate := d; Some(c) else None
    case None => None
  }

  /** A date shown in the report's `'%d.%m.%Y'` form reads back as that date. */
  lemma ShownDateReadsBack(d: CivilDate)
    requires InStampRange(d)
    ensures Reading(Written(FormatDmy(d)), DayFirst) == Some(Some(d))
  {
    ParseFormatDmy(d);
  }

  /** Every date cell of the rows can be read. */
  predicate Readable(rows: seq<ServiceRow>, parse: string -> Option<CivilDate>)
  {
    forall i :: 0 <= i < |rows| ==> Reading(rows[i].date, parse).Some?
  }

  // ---------------------------------------------------------------------------
  // Groups by customer and category
  // ---------------------------------------------------------------------------

  /** A row with a customer: its `Müşteri`, its `Kategori` and its date (`None`
      for `NaT`). */
  datatype Entry = Entry(row: ServiceRow, customer: string, kind: ActionType, day: Option<CivilDate>)

  /** `groupby` drops the rows whose customer is missing. */
  function EntryOf(r: ServiceRow, process: string, parse: string -> Option<CivilDate>): Option<Entry>
  {
    match CellOf(r, CustomerColumn)
    case Blank => None
    case Text(c) =>
      var day := Reading(r.date, parse);
      Some(Entry(r, c, CleanActionType(CellOf(r, process)), if day.Some? then day.value else None))
  }

  function Entries(rows: seq<ServiceRow>, process: string, parse: string -> Option<CivilDate>): seq<Entry>
  {
    FilterMap(rows, (r: ServiceRow) => EntryOf(r, process, parse))
  }

  /** The key of one `groupby(['Müşteri', 'Kategori'])` group. */
  datatype Key = Key(customer: string, kind: ActionType)

  predicate HasGroup(entries: seq<Entry>, k: Key)
  {
    exists i :: 0 <= i < |entries| && entries[i].customer == k.customer && entries[i].kind == k.kind
  }

  function Customers(entries: seq<Entry>): (cs: seq<string>)
    ensures |cs| == |entries|
  {
    seq(|entries|, i requires 0 <= i < |entries| => entries[i].customer)
  }

  /** The groups of one customer, in category order. */
  function KindsOf(entries: seq<Entry>, c: string): seq<Key>
  {
    FilterMap(KindOrder, (a: ActionType) => if HasGroup(entries, Key(c, a)) then Some(Key(c, a)) else None)
  }

  /** The group keys in the order `groupby` visits them: customers in
      code-point order, then categories in label order. */
  function KeysOf(entries: seq<Entry>): seq<Key>
  {
    ConcatMap(SortDistinct(Customers(entries)), (c: string) => KindsOf(entries, c))
  }

  lemma KindOrderComplete(a: ActionType)
    ensures a in KindOrder
  {
    assert KindOrder[KindRank(a)] == a;
  }

  /** There is one key for each group, and a group for each key. */
  lemma KeysOfExact(entries: seq<Entry>, k: Key)
    ensures k in KeysOf(entries) <==> HasGroup(entries, k)
  {
    var cs := SortDistinct(Customers(entries));
    var g := (c: string) => KindsOf(entries, c);
    var f := (a: ActionType) => if HasGroup(entries, Key(k.customer, a)) then Some(Key(k.customer, a)) else None;
    if k in KeysOf(entries) {
      ConcatMapMember(cs, g, k);
      var i :| 0 <= i < |cs| && k in KindsOf(entries, cs[i]);
      FilterMapMember(KindOrder, (a: ActionType) => if HasGroup(entries, Key(cs[i], a)) then Some(Key(cs[i], a)) else None, k);
    }
    if HasGroup(entries, k) {
      var i :| 0 <= i < |entries| && entries[i].customer == k.customer && entries[i].kind == k.kind;
      assert Customers(entries)[i] == k.customer;
      assert k.customer in Elems(Customers(entries));
      var j :| 0 <= j < |cs| && cs[j] == k.customer;
      KindOrderComplete(k.kind);
      var m :| 0 <= m < |KindOrder| && KindOrder[m] == k.kind;
      FilterMapMember(KindOrder, f, k);
      assert f(KindOrder[m]) == Some(k);
      ConcatMapIn(cs, g, j, k);
    }
  }

  /** `groupby` order on the keys: by customer, then by category label. */
  predicate KeyBefore(a: Key, b: Key)
  {
    StrLt(a.customer, b.customer) || (a.customer == b.customer && StrLt(Label(a.kind), Label(b.kind)))
  }

  predicate KeysInOrder(ks: seq<Key>)
  {
    forall i, j :: 0 <= i < j < |ks| ==> KeyBefore(ks[i], ks[j])
  }

  /** The groups of one customer come in label order. */
  lemma KindsOfInOrder(entries: seq<Entry>, c: string)
    ensures KeysInOrder(KindsOf(entries, c))
    ensures forall k :: k in KindsOf(entries, c) ==> k.customer == c
  {
    var ks := KindsOf(entries, c);
    var idx := KindsOfPositions(entries, c);
    KindOrderRanks();
    forall i, j | 0 <= i < j < |ks| ensures KeyBefore(ks[i], ks[j]) {
      KindRankOrdersLabels(KindOrder[idx[i]], KindOrder[idx[j]]);
    }
    forall k | k in ks ensures k.customer == c {
      var i :| 0 <= i < |ks| && ks[i] == k;
    }
  }

  /** Each group key of a customer is that customer with a category at an
      ascending position of `KindOrder`. */
  lemma KindsOfPositions(entries: seq<Entry>, c: string) returns (idx: seq<nat>)
    ensures |idx| == |KindsOf(entries, c)|
    ensures forall i :: 0 <= i < |idx| ==> idx[i] < |KindOrder| && KindsOf(entries, c)[i] == Key(c, KindOrder[idx[i]])
    ensures forall i, j :: 0 <= i < j < |idx| ==> idx[i] < idx[j]
  {
    var f := (a: ActionType) => if HasGroup(entries, Key(c, a)) then Some(Key(c, a)) else None;
    idx := FilterMapIndices(KindOrder, f);
    forall i | 0 <= i < |idx| ensures KindsOf(entries, c)[i] == Key(c, KindOrder[idx[i]]) {
      assert f(KindOrder[idx[i]]) == Some(KindsOf(entries, c)[i]);
    }
  }

  /** The rank of a category is its position in `KindOrder`. */
  lemma KindOrderRanks()
    ensures forall m :: 0 <= m < |KindOrder| ==> KindRank(KindOrder[m]) == m
  {
  }

  /** Blocks of keys for strictly ascending customers are in `groupby` order. */
  lemma {:induction false} CustomerBlocksInOrder(entries: seq<Entry>, cs: seq<string>)
    requires StrictlySorted(cs)
    ensures KeysInOrder(ConcatMap(cs, (c: string) => KindsOf(entries, c)))
    ensures forall k :: k in ConcatMap(cs, (c: string) => KindsOf(entries, c)) ==> k.customer in cs
  {
    var g := (c: string) => KindsOf(entries, c);
    if cs != [] {
      var n := |cs| - 1;
      var front := ConcatMap(cs[..n], g);
      var block := KindsOf(entries, cs[n]);
      CustomerBlocksInOrder(entries, cs[..n]);
      KindsOfInOrder(entries, cs[n]);
      assert ConcatMap(cs, g) == front + block;
      forall k | k in front ensures StrLt(k.customer, cs[n]) {
        var m :| 0 <= m < n && cs[m] == k.customer;
      }
      AppendInOrder(front, block, cs[n]);
    }
  }

  lemma AppendInOrder(front: seq<Key>, block: seq<Key>, c: string)
    requires KeysInOrder(front) && KeysInOrder(block)
    requires forall k :: k in front ==> StrLt(k.customer, c)
    requires forall k :: k in block ==> k.customer == c
    ensures KeysInOrder(front + block)
  {
    var s := front + block;
    forall i, j | 0 <= i < j < |s| ensures KeyBefore(s[i], s[j]) {
      if j >= |front| && i < |front| {
        assert s[i] in front && s[j] in block;
      } else if i >= |front| {
        assert s[i] == block[i - |front|] && s[j] == block[j - |front|];
      }
    }
  }

  /** The groups are visited in `groupby` order: customers in code-point
      order, and one customer's categories in label order. */
  lemma KeysOfInOrder(entries: seq<Entry>)
    ensures KeysInOrder(KeysOf(entries))
  {
    CustomerBlocksInOrder(entries, SortDistinct(Customers(entries)));
  }

  // ---------------------------------------------------------------------------
  // Days of one group, in order
  // ---------------------------------------------------------------------------

  /** A row of a group together with its date. */
  datatype DatedRow = DatedRow(day: CivilDate, row: ServiceRow)

  /** The dated rows of the group `k`, in sheet order, each with its day
      number. A row whose date is `NaT` sorts behind the dated rows, joins the
      last run and is skipped by `min` and `max`, so it never shows in a
      visit. */
  function Dated(entries: seq<Entry>, k: Key): seq<Stamped<DatedRow>>
  {
    FilterMap(entries, (e: Entry) => DatedOf(e, k))
  }

  function DatedOf(e: Entry, k: Key): Option<Stamped<DatedRow>>
  {
    if e.customer == k.customer && e.kind == k.kind && e.day.Some? then
      Some(Stamped(Ordinal(e.day.value), DatedRow(e.day.value, e.row)))
    else None
  }

  /** Each row carries the day number of its own date. */
  predicate DayNumbered(s: seq<Stamped<DatedRow>>)
  {
    forall x :: x in s ==> x.n == Ordinal(x.item.day)
  }

  // ---------------------------------------------------------------------------
  // Visits
  // ---------------------------------------------------------------------------

  /** One row of the report: the first row of a run, with `Tarih` (`start`),
      `Bitis_Tarihi` (`end`), `Sure` (`days`) and `Yil` (`year`) set. Its
      `Tarih_Gosterim` text is `Shown` of the visit. */
  datatype Visit = Visit(row: ServiceRow, customer: string, kind: ActionType,
                         start: CivilDate, end: CivilDate, days: int, year: int)

  /** `Tarih_Gosterim`: the day, or the first and last day of the run. */
  function Shown(v: Visit): string
  {
    if v.start == v.end then FormatDmy(v.start) else FormatDmy(v.start) + " - " + FormatDmy(v.end)
  }

  /** The report row of one run of sorted rows. */
  function VisitOf(k: Key, run: seq<Stamped<DatedRow>>): Visit
    requires run != []
  {
    var start := run[0].item.day;
    var end := Last(run).item.day;
    Visit(run[0].item.row, k.customer, k.kind, start, end,
          Last(run).n - run[0].n + 1, start.year)
  }

  /** A visit spans its run: it starts on the run's first day and ends on its
      last, lasts as many days as that span (at least one, at most one per
      row, exactly one when it starts and ends on the same day), and its row
      is a row of the run dated on its first day. */
  lemma VisitOfRun(k: Key, run: seq<Stamped<DatedRow>>)
    requires run != [] && Steps(run) && DayNumbered(run)
    ensures var v := VisitOf(k, run);
      && v.customer == k.customer && v.kind == k.kind
      && (forall i :: 0 <= i < |run| ==> Ordinal(v.start) <= Ordinal(run[i].item.day) <= Ordinal(v.end))
      && v.days == Ordinal(v.end) - Ordinal(v.start) + 1
      && 1 <= v.days <= |run|
      && (v.days == 1 <==> v.start == v.end)
      && (exists i :: 0 <= i < |run| && run[i].item == DatedRow(v.start, v.row))
      && v.year == v.start.year
  {
    var v := VisitOf(k, run);
    var m := |run| - 1;
    assert run[0] in run && run[m] in run;
    forall i | 0 <= i < |run| ensures Ordinal(v.start) <= Ordinal(run[i].item.day) <= Ordinal(v.end) {
      assert run[i] in run;
      StepsBetween(run, 0, i);
      StepsBetween(run, i, m);
    }
    StepsBetween(run, 0, m);
    OrdinalOrder(v.start, v.end);
  }

  /** The date text is the start's `'%d.%m.%Y'` form, followed for a longer
      visit by `" - "` and the end's. */
  lemma ShownForm(v: Visit)
    ensures |Shown(v)| == if v.start == v.end then 10 else 23
    ensures Shown(v)[..10] == FormatDmy(v.start)
    ensures v.start != v.end ==> Shown(v)[10..13] == " - " && Shown(v)[13..] == FormatDmy(v.end)
  {
  }

  /** Read back day-first, the date text gives the visit's first and last
      day. */
  lemma ShownReadsBack(v: Visit)
    requires InStampRange(v.start) && InStampRange(v.end)
    ensures Reading(Written(Shown(v)[..10]), DayFirst) == Some(Some(v.start))
    ensures v.start != v.end ==> Reading(Written(Shown(v)[13..]), DayFirst) == Some(Some(v.end))
  {
    ShownForm(v);
    ShownDateReadsBack(v.start);
    ShownDateReadsBack(v.end);
  }

  function VisitsOf(k: Key, rs: seq<seq<Stamped<DatedRow>>>): (vs: seq<Visit>)
    requires forall i :: 0 <= i < |rs| ==> rs[i] != []
    ensures |vs| == |rs|
  {
    if rs == [] then [] else VisitsOf(k, rs[..|rs| - 1]) + [VisitOf(k, rs[|rs| - 1])]
  }

  /** The runs of the group `k`. */
  function GroupRuns(entries: seq<Entry>, k: Key): seq<seq<Stamped<DatedRow>>>
  {
    Runs(SortByDay(Dated(entries, k)))
  }

  function GroupVisits(entries: seq<Entry>, k: Key): seq<Visit>
  {
    VisitsOf(k, GroupRuns(entries, k))
  }

  /** The dated rows of a group are exactly its entries with a date. */
  lemma DatedExact(entries: seq<Entry>, k: Key, x: Stamped<DatedRow>)
    ensures x in Dated(entries, k) <==> exists i :: 0 <= i < |entries| && DatedOf(entries[i], k) == Some(x)
  {
    FilterMapMember(entries, (e: Entry) => DatedOf(e, k), x);
  }

  lemma DatedDayNumbered(entries: seq<Entry>, k: Key)
    ensures DayNumbered(Dated(entries, k))
  {
    forall x | x in Dated(entries, k) ensures x.n == Ordinal(x.item.day) {
      DatedExact(entries, k, x);
    }
  }

  /** Every run of a group holds rows of the group, steps by at most a day,
      and carries the rows' own day numbers. */
  lemma GroupRunsWellFormed(entries: seq<Entry>, k: Key, i: nat)
    requires i < |GroupRuns(entries, k)|
    ensures Steps(GroupRuns(entries, k)[i])
    ensures forall x :: x in GroupRuns(entries, k)[i] ==> x in Dated(entries, k)
    ensures DayNumbered(GroupRuns(entries, k)[i])
  {
    var d := Dated(entries, k);
    var sorted := SortByDay(d);
    var rs := Runs(sorted);
    RunsSteps(sorted);
    RunsFlatten(sorted);
    DatedDayNumbered(entries, k);
    forall x | x in rs[i] ensures x in d {
      FlattenIn(rs, i, x);
      assert x in multiset(sorted);
    }
  }

  lemma VisitsOfAt(k: Key, rs: seq<seq<Stamped<DatedRow>>>, i: nat)
    requires forall j :: 0 <= j < |rs| ==> rs[j] != []
    requires i < |rs|
    ensures VisitsOf(k, rs)[i] == VisitOf(k, rs[i])
  {
    var m := |rs| - 1;
    if i < m {
      assert rs[..m][i] == rs[i];
      VisitsOfAt(k, rs[..m], i);
    }
  }

  /** The visits of a group follow each other with at least one day without
      a visit between them. */
  lemma GroupVisitsSeparated(entries: seq<Entry>, k: Key, i: nat)
    requires i + 1 < |GroupVisits(entries, k)|
    ensures var vs := GroupVisits(entries, k);
      Ordinal(vs[i].start) <= Ordinal(vs[i].end) && Ordinal(vs[i].end) + 1 < Ordinal(vs[i + 1].start)
  {
    var rs := GroupRuns(entries, k);
    VisitsOfAt(k, rs, i);
    VisitsOfAt(k, rs, i + 1);
    GroupRunsWellFormed(entries, k, i);
    GroupRunsWellFormed(entries, k, i + 1);
    VisitOfRun(k, rs[i]);
    RunsSeparated(SortByDay(Dated(entries, k)));
    assert Last(rs[i]) in rs[i] && rs[i + 1][0] in rs[i + 1];
  }

  /** Every dated row of a group falls inside one of the group's visits. */
  lemma GroupVisitsCover(entries: seq<Entry>, k: Key, e: Entry)
    requires e in entries && e.customer == k.customer && e.kind == k.kind && e.day.Some?
    ensures exists v :: (v in GroupVisits(entries, k)
                         && Ordinal(v.start) <= Ordinal(e.day.value) <= Ordinal(v.end))
  {
    var x := Stamped(Ordinal(e.day.value), DatedRow(e.day.value, e.row));
    var d := Dated(entries, k);
    var sorted := SortByDay(d);
    var rs := Runs(sorted);
    var j :| 0 <= j < |entries| && entries[j] == e;
    assert DatedOf(entries[j], k) == Some(x);
    DatedExact(entries, k, x);
    assert x in multiset(d);
    RunsFlatten(sorted);
    FlattenMember(rs, x);
    var i :| 0 <= i < |rs| && x in rs[i];
    var p :| 0 <= p < |rs[i]| && rs[i][p] == x;
    GroupRunsWellFormed(entries, k, i);
    VisitOfRun(k, rs[i]);
    VisitsOfAt(k, rs, i);
    assert VisitsOf(k, rs)[i] in GroupVisits(entries, k);
  }

  /** Every visit of a group is that group's, and its row is a row of the
      group dated on the visit's first day. */
  lemma GroupVisitsFromGroup(entries: seq<Entry>, k: Key, v: Visit)
    requires v in GroupVisits(entries, k)
    ensures v.customer == k.customer && v.kind == k.kind
    ensures Entry(v.row, v.customer, v.kind, Some(v.start)) in entries
  {
    var rs := GroupRuns(entries, k);
    var i :| 0 <= i < |rs| && VisitsOf(k, rs)[i] == v;
    VisitsOfAt(k, rs, i);
    GroupRunsWellFormed(entries, k, i);
    VisitOfRun(k, rs[i]);
    var p :| 0 <= p < |rs[i]| && rs[i][p].item == DatedRow(v.start, v.row);
    assert rs[i][p] in rs[i];
    DatedExact(entries, k, rs[i][p]);
  }

  /** The report rows of the groups `keys`, group after group. */
  function AllVisits(entries: seq<Entry>, keys: seq<Key>): seq<Visit>
  {
    ConcatMap(keys, (k: Key) => GroupVisits(entries, k))
  }

  // ---------------------------------------------------------------------------
  // The report
  // ---------------------------------------------------------------------------

  /** `prepare_islem_ozeti_data`: an empty frame (`NoReport`), an exception
      (`Raised`), or the report rows. */
  datatype Report = NoReport | Raised | Visits(visits: seq<Visit>)

  function ReportOf(sheet: ServiceSheet, personnel: string, parse: string -> Option<CivilDate>): Report
  {
    var target := FirstColumn(sheet.columns, ResponsibleColumns);
    if target.None? then NoReport
    else
      var rows := AssignedRows(sheet.rows, target.value, personnel);
      var process := FirstColumn(sheet.columns, ProcessColumns);
      if rows == [] || process.None? then NoReport
      else if DateColumn !in sheet.columns || CustomerColumn !in sheet.columns || !Readable(rows, parse) then Raised
      else
        var entries := Entries(rows, process.value, parse);
        GroupsReport(entries, KeysOf(entries))
  }

  /** Every group of `keys` has a dated row. */
  predicate AllDated(entries: seq<Entry>, keys: seq<Key>)
  {
    forall i :: 0 <= i < |keys| ==> Dated(entries, keys[i]) != []
  }

  /** The grouping step over the groups `keys`: `strftime` on `NaT` raises for
      a group without a dated row. */
  function GroupsReport(entries: seq<Entry>, keys: seq<Key>): Report
  {
    if AllDated(entries, keys) then Visits(AllVisits(entries, keys)) else Raised
  }

  lemma AllDatedSnoc(entries: seq<Entry>, keys: seq<Key>, i: nat)
    requires i < |keys| && AllDated(entries, keys[..i]) && Dated(entries, keys[i]) != []
    ensures AllDated(entries, keys[..i + 1])
  {
    assert forall m :: 0 <= m < i ==> keys[..i + 1][m] == keys[..i][m];
  }

  lemma AllVisitsSnoc(entries: seq<Entry>, keys: seq<Key>, i: nat)
    requires i < |keys|
    ensures AllVisits(entries, keys[..i + 1]) == AllVisits(entries, keys[..i]) + GroupVisits(entries, keys[i])
  {
    assert keys[..i + 1] == keys[..i] + [keys[i]];
    ConcatMapSnoc(keys[..i], keys[i], (k: Key) => GroupVisits(entries, k));
  }

  lemma VisitsOfSnoc(k: Key, rs: seq<seq<Stamped<DatedRow>>>, j: nat)
    requires j < |rs| && forall i :: 0 <= i < |rs| ==> rs[i] != []
    ensures VisitsOf(k, rs[..j + 1]) == VisitsOf(k, rs[..j]) + [VisitOf(k, rs[j])]
  {
    assert rs[..j + 1][..j] == rs[..j];
  }

  lemma AllVisitsMember(entries: seq<Entry>, keys: seq<Key>, v: Visit)
    ensures v in AllVisits(entries, keys) <==> exists i :: 0 <= i < |keys| && v in GroupVisits(entries, keys[i])
  {
    var g := (k: Key) => GroupVisits(entries, k);
    if v in AllVisits(entries, keys) {
      ConcatMapMember(keys, g, v);
    }
    if exists i :: 0 <= i < |keys| && v in GroupVisits(entries, keys[i]) {
      var i :| 0 <= i < |keys| && v in GroupVisits(entries, keys[i]);
      ConcatMapIn(keys, g, i, v);
    }
  }

  lemma EntriesExact(rows: seq<ServiceRow>, process: string, parse: string -> Option<CivilDate>, e: Entry)
    ensures e in Entries(rows, process, parse) <==> exists i :: 0 <= i < |rows| && EntryOf(rows[i], process, parse) == Some(e)
  {
    FilterMapMember(rows, (r: ServiceRow) => EntryOf(r, process, parse), e);
  }

  /** An entry describes its own row. */
  lemma EntryOfRow(rows: seq<ServiceRow>, process: string, parse: string -> Option<CivilDate>, e: Entry)
    requires e in Entries(rows, process, parse)
    ensures e.row in rows
    ensures CellOf(e.row, CustomerColumn) == Text(e.customer)
    ensures CleanActionType(CellOf(e.row, process)) == e.kind
    ensures e.day.Some? ==> Reading(e.row.date, parse) == Some(e.day)
  {
    EntriesExact(rows, process, parse, e);
    var i :| 0 <= i < |rows| && EntryOf(rows[i], process, parse) == Some(e);
  }

  /** A row with a customer has an entry. */
  lemma RowHasEntry(rows: seq<ServiceRow>, process: string, parse: string -> Option<CivilDate>, r: ServiceRow, d: CivilDate)
    requires r in rows && CellOf(r, CustomerColumn).Text? && Reading(r.date, parse) == Some(Some(d))
    ensures Entry(r, CellOf(r, CustomerColumn).s, CleanActionType(CellOf(r, process)), Some(d)) in Entries(rows, process, parse)
  {
    var j :| 0 <= j < |rows| && rows[j] == r;
    EntriesExact(rows, process, parse, Entry(r, CellOf(r, CustomerColumn).s, CleanActionType(CellOf(r, process)), Some(d)));
  }

  /** Every visit is one of the entries, with the visit's customer, category
      and first day. */
  lemma VisitsSound(entries: seq<Entry>, v: Visit)
    requires v in AllVisits(entries, KeysOf(entries))
    ensures Entry(v.row, v.customer, v.kind, Some(v.start)) in entries
  {
    var keys := KeysOf(entries);
    AllVisitsMember(entries, keys, v);
    var i :| 0 <= i < |keys| && v in GroupVisits(entries, keys[i]);
    GroupVisitsFromGroup(entries, keys[i], v);
  }

  /** Every entry with a date falls inside a visit of its customer and
      category. */
  lemma VisitsCover(entries: seq<Entry>, e: Entry)
    requires e in entries && e.day.Some?
    ensures exists v :: (v in AllVisits(entries, KeysOf(entries))
                         && v.customer == e.customer && v.kind == e.kind
                         && Ordinal(v.start) <= Ordinal(e.day.value) <= Ordinal(v.end))
  {
    var keys := KeysOf(entries);
    var k := Key(e.customer, e.kind);
    var ei :| 0 <= ei < |entries| && entries[ei] == e;
    KeysOfExact(entries, k);
    var i :| 0 <= i < |keys| && keys[i] == k;
    GroupVisitsCover(entries, k, e);
    var v :| v in GroupVisits(entries, k) && Ordinal(v.start) <= Ordinal(e.day.value) <= Ordinal(v.end);
    GroupVisitsFromGroup(entries, k, v);
    AllVisitsMember(entries, keys, v);
  }

  /** The report rows of a sheet that has them: the visits of the
      technician's rows. */
  lemma ReportVisits(sheet: ServiceSheet, personnel: string, parse: string -> Option<CivilDate>)
    requires ReportOf(sheet, personnel, parse).Visits?
    ensures FirstColumn(sheet.columns, ResponsibleColumns).Some?
    ensures FirstColumn(sheet.columns, ProcessColumns).Some?
    ensures var rows := AssignedRows(sheet.rows, FirstColumn(sheet.columns, ResponsibleColumns).value, personnel);
      var entries := Entries(rows, FirstColumn(sheet.columns, ProcessColumns).value, parse);
      ReportOf(sheet, personnel, parse).visits == AllVisits(entries, KeysOf(entries))
  {
  }

  /** Every report row is a row of the sheet assigned to the technician, with
      the visit's customer, category and first day. */
  lemma ReportSound(sheet: ServiceSheet, personnel: string, parse: string -> Option<CivilDate>, v: Visit)
    requires ReportOf(sheet, personnel, parse).Visits?
    requires v in ReportOf(sheet, personnel, parse).visits
    ensures FirstColumn(sheet.columns, ResponsibleColumns).Some?
    ensures FirstColumn(sheet.columns, ProcessColumns).Some?
    ensures v.row in sheet.rows
    ensures Assigned(v.row, FirstColumn(sheet.columns, ResponsibleColumns).value, TrUpper(personnel))
    ensures CellOf(v.row, CustomerColumn) == Text(v.customer)
    ensures CleanActionType(CellOf(v.row, FirstColumn(sheet.columns, ProcessColumns).value)) == v.kind
    ensures Reading(v.row.date, parse) == Some(Some(v.start))
  {
    ReportVisits(sheet, personnel, parse);
    var target := FirstColumn(sheet.columns, ResponsibleColumns).value;
    var process := FirstColumn(sheet.columns, ProcessColumns).value;
    var rows := AssignedRows(sheet.rows, target, personnel);
    var entries := Entries(rows, process, parse);
    VisitsSound(entries, v);
    EntryOfRow(rows, process, parse, Entry(v.row, v.customer, v.kind, Some(v.start)));
    AssignedRowsExact(sheet.rows, target, personnel, v.row);
  }

  /** Every dated row of the technician's with a customer falls inside a
      report row of its customer and category. */
  lemma ReportCovers(sheet: ServiceSheet, personnel: string, parse: string -> Option<CivilDate>, r: ServiceRow, d: CivilDate)
    requires ReportOf(sheet, personnel, parse).Visits?
    requires FirstColumn(sheet.columns, ResponsibleColumns).Some?
    requires FirstColumn(sheet.columns, ProcessColumns).Some?
    requires r in sheet.rows
    requires Assigned(r, FirstColumn(sheet.columns, ResponsibleColumns).value, TrUpper(personnel))
    requires CellOf(r, CustomerColumn).Text? && Reading(r.date, parse) == Some(Some(d))
    ensures exists v :: (v in ReportOf(sheet, personnel, parse).visits
                         && v.customer == CellOf(r, CustomerColumn).s
                         && v.kind == CleanActionType(CellOf(r, FirstColumn(sheet.columns, ProcessColumns).value))
                         && Ordinal(v.start) <= Ordinal(d) <= Ordinal(v.end))
  {
    ReportVisits(sheet, personnel, parse);
    var target := FirstColumn(sheet.columns, ResponsibleColumns).value;
    var process := FirstColumn(sheet.columns, ProcessColumns).value;
    var rows := AssignedRows(sheet.rows, target, personnel);
    var entries := Entries(rows, process, parse);
    AssignedRowsExact(sheet.rows, target, personnel, r);
    RowHasEntry(rows, process, parse, r, d);
    VisitsCover(entries, Entry(r, CellOf(r, CustomerColumn).s, CleanActionType(CellOf(r, process)), Some(d)));
  }

  method PrepareIslemOzeti(sheet: ServiceSheet, personnel: string, parse: string -> Option<CivilDate>)
    returns (out: Report)
    ensures out == ReportOf(sheet, personnel, parse)
  {
    var target := FindColumn(sheet.columns, ResponsibleColumns);
    if target.None? {
      return NoReport;
    }
    var rows := AssignedRows(sheet.rows, target.value, personnel);
    if rows == [] {
      return NoReport;
    }
    var process := FindColumn(sheet.columns, ProcessColumns);
    if process.None? {
      return NoReport;
    }
    if DateColumn !in sheet.columns || CustomerColumn !in sheet.columns || !Readable(rows, parse) {
      return Raised;
    }
    var entries := Entries(rows, process.value, parse);
    out := GroupVisitRows(entries, KeysOf(entries));
  }

  /** The two nested `for` loops over the groups and their runs. */
  method GroupVisitRows(entries: seq<Entry>, keys: seq<Key>) returns (out: Report)
    ensures out == GroupsReport(entries, keys)
  {
    var visits: seq<Visit> := [];
    var i := 0;
    while i < |keys|
      invariant 0 <= i <= |keys|
      invariant AllDated(entries, keys[..i])
      invariant visits == AllVisits(entries, keys[..i])
    {
      var k := keys[i];
      if Dated(entries, k) == [] {
        return Raised;
      }
      visits := AppendRunVisits(visits, k, GroupRuns(entries, k));
      AllDatedSnoc(entries, keys, i);
      AllVisitsSnoc(entries, keys, i);
      i := i + 1;
    }
    assert keys[..i] == keys;
    return Visits(visits);
  }

  /** The inner `for` loop: one report row per run of the group `k`. */
  method AppendRunVisits(visits: seq<Visit>, k: Key, rs: seq<seq<Stamped<DatedRow>>>) returns (out: seq<Visit>)
    requires forall i :: 0 <= i < |rs| ==> rs[i] != []
    ensures out == visits + VisitsOf(k, rs)
  {
    out := visits;
    var j := 0;
    while j < |rs|
      invariant 0 <= j <= |rs|
      invariant out == visits + VisitsOf(k, rs[..j])
    {
      VisitsOfSnoc(k, rs, j);
      out := out + [VisitOf(k, rs[j])];
      j := j + 1;
    }
    assert rs[..j] == rs;
  }
}
