/** Loading the dataset (`cargar_datos`): clean the fetched rows, fall back
    to the sample rows when nothing survives, derive the text and duration
    columns, and fall back to the error rows when loading failed. */
module Loader {
  import opened Wrappers
  import opened Text
  import opened Seqs
  import opened Calendar

  /** One spreadsheet row as text, with the four columns the chart uses. */
  datatype RawRow = RawRow(rn: string, estado: string, inicio: string, fin: string)

  /** What the fetch produced: the rows, or an exception somewhere between
      the request and the parsed table. */
  datatype Fetch = FetchFailed | Fetched(rows: seq<RawRow>)

  /** A row after cleaning: identifier normalised, both dates present. */
  datatype Dated = Dated(rn: string, estado: string, inicio: Date, fin: Date)

  /** A row of the loaded dataset, with its derived columns
      `Inicio_str`, `Fin_str`, `Duracion` and `Mes`. */
  datatype Item = Item(rn: string, estado: string, inicio: Date, fin: Date,
                       inicioStr: string, finStr: string, duracion: int, mes: string)

  /** The dataset and the flag saying whether loading succeeded. */
  datatype LoadOutcome = LoadOutcome(items: seq<Item>, ok: bool)

  // ---------------------------------------------------------------------
  // Cleaning
  // ---------------------------------------------------------------------

  /** A row is kept when both of its dates read as `%m/%d/%Y`. */
  predicate Survives(r: RawRow)
  {
    ParseMdy(r.inicio).Some? && ParseMdy(r.fin).Some?
  }

  /** One row through the cleaning steps: its identifier's whitespace is
      normalised and its two dates are read; it is dropped (`None`) when
      either date is missing. */
  function CleanRow(r: RawRow): (d: Option<Dated>)
    ensures d.Some? <==> Survives(r)
    ensures d.Some? ==>
      d.value.rn == NormalizeId(r.rn) && d.value.estado == r.estado &&
      Some(d.value.inicio) == ParseMdy(r.inicio) && Some(d.value.fin) == ParseMdy(r.fin) &&
      Supported(d.value.inicio) && Supported(d.value.fin)
  {
    var inicio, fin := ParseMdy(r.inicio), ParseMdy(r.fin);
    if inicio.Some? && fin.Some? then Some(Dated(NormalizeId(r.rn), r.estado, inicio.value, fin.value))
    else None
  }

  /** The rows that survive cleaning, cleaned, in input order. */
  function Clean(rows: seq<RawRow>): (r: seq<Dated>)
  {
    FilterMap(rows, CleanRow)
  }

  /** Cleaning the rows one at a time, as the column-wise cleaning does for
      the whole table. */
  method CleanRows(rows: seq<RawRow>) returns (cleaned: seq<Dated>)
    ensures cleaned == Clean(rows)
  {
    cleaned := [];
    for i := 0 to |rows|
      invariant cleaned == Clean(rows[..i])
    {
      var d := CleanRow(rows[i]);
      CleanStep(rows, i);
      if d.Some? {
        cleaned := cleaned + [d.value];
      }
    }
    assert rows[..|rows|] == rows;
  }

  /** Cleaning one more row appends its cleaned form, if it survives. */
  lemma CleanStep(rows: seq<RawRow>, i: int)
    requires 0 <= i < |rows|
    ensures var d := CleanRow(rows[i]);
      Clean(rows[..i + 1]) == Clean(rows[..i]) + (if d.Some? then [d.value] else [])
  {
    assert rows[..i + 1][..i] == rows[..i];
    assert rows[..i + 1][i] == rows[i];
  }

  /** Cleaning keeps exactly the rows whose two dates read, in their
      original order, and cleans each of them. */
  lemma CleanIsSurvivorsCleaned(rows: seq<RawRow>)
    ensures |Clean(rows)| == |Where(rows, Survives)|
    ensures forall i :: 0 <= i < |Clean(rows)| ==> CleanRow(Where(rows, Survives)[i]) == Some(Clean(rows)[i])
    ensures Subseq(Where(rows, Survives), rows)
  {
    FilterMapIsWhere(rows, CleanRow, Survives);
    WhereIsSubseq(rows, Survives);
  }

  /** Every cleaned row has a normalised identifier and two dates a
      timestamp can hold, and comes from some fetched row. */
  lemma CleanedRowFacts(rows: seq<RawRow>, d: Dated)
    requires d in Clean(rows)
    ensures IsNormalId(d.rn) && Supported(d.inicio) && Supported(d.fin)
    ensures exists r :: r in rows && Survives(r) && CleanRow(r) == Some(d)
  {
    FilterMapMembers(rows, CleanRow, d);
    var r :| r in rows && CleanRow(r) == Some(d);
    NormalizeIdShape(r.rn);
  }

  /** Nothing survives exactly when no row has two readable dates. */
  lemma CleanEmpty(rows: seq<RawRow>)
    ensures Clean(rows) == [] <==> forall r :: r in rows ==> !Survives(r)
  {
    if Clean(rows) == [] {
      forall r | r in rows
        ensures !Survives(r)
      {
        if Survives(r) {
          FilterMapMembers(rows, CleanRow, CleanRow(r).value);
        }
      }
    } else {
      CleanedRowFacts(rows, Clean(rows)[0]);
    }
  }

  // ---------------------------------------------------------------------
  // Fallback rows
  // ---------------------------------------------------------------------

  /** The end dates of the three sample rows: 30 days after 2023-01-01,
      2023-01-02 and 2023-01-03. */
  lemma SampleEnds()
    ensures AddDays(Date(2023, 1, 1), 30) == Date(2023, 1, 31)
    ensures AddDays(Date(2023, 1, 2), 30) == Date(2023, 2, 1)
    ensures AddDays(Date(2023, 1, 3), 30) == Date(2023, 2, 2)
  {
    AddDaysOrdinal(Date(2023, 1, 1), 30);
    OrdinalOrder(AddDays(Date(2023, 1, 1), 30), Date(2023, 1, 31));
    AddDaysOrdinal(Date(2023, 1, 2), 30);
    OrdinalOrder(AddDays(Date(2023, 1, 2), 30), Date(2023, 2, 1));
    AddDaysOrdinal(Date(2023, 1, 3), 30);
    OrdinalOrder(AddDays(Date(2023, 1, 3), 30), Date(2023, 2, 2));
  }

  /** Day `i` of the three consecutive days starting 2023-01-01 used by
      both fallbacks. */
  function SampleDay(i: nat): (d: Date)
    requires i < 3
    ensures d == Date(2023, 1, 1 + i) && Supported(d) && Supported(AddDays(d, 30))
  {
    var start := Date(2023, 1, 1);
    AddDaysOrdinal(start, i);
    OrdinalOrder(AddDays(start, i), Date(2023, 1, 1 + i));
    SampleEnds();
    assert Supported(Date(2023, 1, 31)) && Supported(Date(2023, 2, 1)) && Supported(Date(2023, 2, 2));
    AddDays(start, i)
  }

  const SampleIds: seq<string> := ["Ejemplo 1", "Ejemplo 2", "Ejemplo 3"]
  const SampleStatuses: seq<string> := ["En desarrollo", "Entregado", "Backlog"]
  const ErrorIds: seq<string> := ["Error - Sin datos", "Ejemplo 2", "Ejemplo 3"]

  /** The sample rows used when cleaning leaves nothing: each ends 30 days
      after it starts. */
  function SampleRows(): (r: seq<Dated>)
    ensures |r| == 3
    ensures forall i :: 0 <= i < 3 ==> Supported(r[i].inicio) && Supported(r[i].fin)
  {
    seq(3, i requires 0 <= i < 3 =>
      Dated(SampleIds[i], SampleStatuses[i], SampleDay(i), AddDays(SampleDay(i), 30)))
  }

  /** The rows used when loading failed. Their month bucket is taken from
      the start dates, and their duration is the constant 30. */
  function ErrorItems(): (r: seq<Item>)
    ensures |r| == 3
  {
    seq(3, i requires 0 <= i < 3 =>
      var start := SampleDay(i);
      var end := AddDays(start, 30);
      Item(ErrorIds[i], "Error", start, end, FormatIso(start), FormatIso(end), 30, FormatMonth(start)))
  }

  // ---------------------------------------------------------------------
  // Derived columns
  // ---------------------------------------------------------------------

  /** What every row derived from its dates looks like. */
  predicate WellFormed(it: Item)
  {
    Supported(it.inicio) && Supported(it.fin) &&
    it.inicioStr == FormatIso(it.inicio) && it.finStr == FormatIso(it.fin) &&
    it.duracion == DaysBetween(it.inicio, it.fin) && it.mes == FormatMonth(it.fin)
  }

  /** A row with its four derived columns. */
  function Derive(d: Dated): (it: Item)
    requires Supported(d.inicio) && Supported(d.fin)
    ensures WellFormed(it)
    ensures it.rn == d.rn && it.estado == d.estado && it.inicio == d.inicio && it.fin == d.fin
  {
    Item(d.rn, d.estado, d.inicio, d.fin, FormatIso(d.inicio), FormatIso(d.fin),
         DaysBetween(d.inicio, d.fin), FormatMonth(d.fin))
  }

  /** Appending the four derived columns, row by row. */
  method DeriveColumns(rows: seq<Dated>) returns (items: seq<Item>)
    requires forall i :: 0 <= i < |rows| ==> Supported(rows[i].inicio) && Supported(rows[i].fin)
    ensures |items| == |rows| && forall k :: 0 <= k < |rows| ==> items[k] == Derive(rows[k])
  {
    items := [];
    for i := 0 to |rows|
      invariant |items| == i && forall k :: 0 <= k < i ==> items[k] == Derive(rows[k])
    {
      items := items + [Derive(rows[i])];
    }
  }

  /** Derived rows keep their identifier, status and dates, and their
      duration leads from the start date to the end date. */
  lemma DerivedRowFacts(it: Item)
    requires WellFormed(it)
    ensures AddDays(it.inicio, it.duracion) == it.fin
    ensures it.mes == it.finStr[..7] && |it.inicioStr| == 10 && |it.finStr| == 10
  {
    DaysBetweenRoundTrip(it.inicio, it.fin);
    MonthIsIsoPrefix(it.fin);
  }

  // ---------------------------------------------------------------------
  // Loading
  // ---------------------------------------------------------------------

  /** Every cleaned row has dates a timestamp can hold. */
  lemma CleanSupported(rows: seq<RawRow>)
    ensures forall i :: 0 <= i < |Clean(rows)| ==> Supported(Clean(rows)[i].inicio) && Supported(Clean(rows)[i].fin)
  {
    forall i | 0 <= i < |Clean(rows)|
      ensures Supported(Clean(rows)[i].inicio) && Supported(Clean(rows)[i].fin)
    {
      CleanedRowFacts(rows, Clean(rows)[i]);
    }
  }

  /** The rows that go on to have their columns derived. */
  function Kept(rows: seq<RawRow>): (r: seq<Dated>)
    ensures forall i :: 0 <= i < |r| ==> Supported(r[i].inicio) && Supported(r[i].fin)
  {
    CleanSupported(rows);
    var cleaned := Clean(rows);
    if cleaned == [] then SampleRows() else cleaned
  }

  /** Every row's end date minus its start date fits a `Timedelta`, so
      computing the durations raises nothing. */
  predicate SpansFit(rows: seq<Dated>)
  {
    forall i :: 0 <= i < |rows| ==> SpanFits(DaysBetween(rows[i].inicio, rows[i].fin))
  }

  /** The sample rows last 30 days each, so their durations fit. */
  lemma SampleSpansFit()
    ensures SpansFit(SampleRows())
  {
    var sample := SampleRows();
    forall i | 0 <= i < 3
      ensures SpanFits(DaysBetween(sample[i].inicio, sample[i].fin))
    {
      AddDaysRoundTrip(SampleDay(i), 30);
      SpanFitsRange(30);
    }
  }

  /** The outcome of a load, as a value: the error rows, flagged as not
      succeeded, when the fetch fails or a duration overflows. */
  function Loaded(fetch: Fetch): (r: LoadOutcome)
    ensures r.ok <==> fetch.Fetched? && SpansFit(Kept(fetch.rows))
    ensures !r.ok ==> r.items == ErrorItems()
    ensures |r.items| >= 1
  {
    match fetch
    case FetchFailed => LoadOutcome(ErrorItems(), false)
    case Fetched(rows) =>
      var kept := Kept(rows);
      if SpansFit(kept) then LoadOutcome(Map(kept, Derive), true)
      else LoadOutcome(ErrorItems(), false)
  }

  /** Loading the dataset step by step. */
  method Load(fetch: Fetch) returns (outcome: LoadOutcome)
    ensures outcome == Loaded(fetch)
  {
    if fetch.FetchFailed? {
      return LoadOutcome(ErrorItems(), false);
    }
    var dated := CleanRows(fetch.rows);
    CleanSupported(fetch.rows);
    if |dated| == 0 {
      dated := SampleRows();
    }
    if !SpansFit(dated) {
      return LoadOutcome(ErrorItems(), false);
    }
    var items := DeriveColumns(dated);
    MapEqual(dated, Derive, items);
    outcome := LoadOutcome(items, true);
  }

  /** When some row survives, the dataset holds the cleaned rows (see
      `CleanIsSurvivorsCleaned`), one for one and each with its derived
      columns. */
  lemma LoadedRows(rows: seq<RawRow>)
    requires exists r :: r in rows && Survives(r)
    requires SpansFit(Clean(rows))
    ensures Loaded(Fetched(rows)).ok
    ensures Loaded(Fetched(rows)).items == Map(Clean(rows), Derive)
    ensures |Loaded(Fetched(rows)).items| == |Where(rows, Survives)|
  {
    CleanEmpty(rows);
    CleanIsSurvivorsCleaned(rows);
  }

  /** A cleaned row whose end lies more than `MaxSpanDays` days from its
      start makes the duration overflow, and the whole load falls back to
      the error rows. */
  lemma OverflowingSpanFailsLoad(rows: seq<RawRow>, d: Dated)
    requires d in Clean(rows)
    requires DaysBetween(d.inicio, d.fin) > MaxSpanDays || DaysBetween(d.inicio, d.fin) < -MaxSpanDays
    ensures Loaded(Fetched(rows)) == LoadOutcome(ErrorItems(), false)
  {
    SpanFitsRange(DaysBetween(d.inicio, d.fin));
    var i :| 0 <= i < |Clean(rows)| && Clean(rows)[i] == d;
    assert !SpansFit(Kept(rows));
  }

  /** Every row of a successful load, sample rows included, carries derived
      columns that agree with its dates. */
  lemma LoadedRowsWellFormed(fetch: Fetch)
    ensures Loaded(fetch).ok ==> forall it :: it in Loaded(fetch).items ==> WellFormed(it)
  {
  }

  /** When no row survives cleaning, the dataset is exactly the sample. */
  lemma EmptyCleaningGivesSample(rows: seq<RawRow>)
    requires forall r :: r in rows ==> !Survives(r)
    ensures var r := Loaded(Fetched(rows));
      r.ok && |r.items| == 3 &&
      (forall i :: 0 <= i < 3 ==>
        r.items[i].rn == SampleIds[i] && r.items[i].estado == SampleStatuses[i] &&
        r.items[i].inicio == Date(2023, 1, 1 + i) &&
        r.items[i].fin == AddDays(r.items[i].inicio, 30) &&
        r.items[i].duracion == 30)
    ensures var r := Loaded(Fetched(rows));
      r.items[0].fin == Date(2023, 1, 31) && r.items[1].fin == Date(2023, 2, 1) &&
      r.items[2].fin == Date(2023, 2, 2)
  {
    SampleLoaded(rows);
    SampleItems();
  }

  /** The three sample rows with their derived columns. */
  lemma SampleItems()
    ensures var items := Map(SampleRows(), Derive);
      |items| == 3 &&
      (forall i :: 0 <= i < 3 ==>
        items[i].rn == SampleIds[i] && items[i].estado == SampleStatuses[i] &&
        items[i].inicio == Date(2023, 1, 1 + i) &&
        items[i].fin == AddDays(items[i].inicio, 30) &&
        items[i].duracion == 30) &&
      items[0].fin == Date(2023, 1, 31) && items[1].fin == Date(2023, 2, 1) &&
      items[2].fin == Date(2023, 2, 2)
  {
    var items := Map(SampleRows(), Derive);
    forall i | 0 <= i < 3
      ensures items[i].duracion == 30
    {
      AddDaysRoundTrip(SampleDay(i), 30);
    }
    SampleEnds();
  }

  /** When no row survives cleaning, the load succeeds on the sample rows. */
  lemma SampleLoaded(rows: seq<RawRow>)
    requires forall r :: r in rows ==> !Survives(r)
    ensures Loaded(Fetched(rows)) == LoadOutcome(Map(SampleRows(), Derive), true)
  {
    CleanEmpty(rows);
    SampleSpansFit();
  }

  /** A failed load, whether the fetch failed or a duration overflowed,
      yields the three error rows. */
  lemma FailedLoadGivesErrorRows(fetch: Fetch)
    requires !Loaded(fetch).ok
    ensures var r := Loaded(fetch);
      |r.items| == 3 &&
      (forall i :: 0 <= i < 3 ==>
        r.items[i].rn == ErrorIds[i] && r.items[i].estado == "Error" &&
        r.items[i].duracion == 30 && r.items[i].mes == "2023-01" &&
        r.items[i].inicio == Date(2023, 1, 1 + i) &&
        r.items[i].fin == AddDays(r.items[i].inicio, 30))
  {
    var r := Loaded(fetch);
    forall i | 0 <= i < 3
      ensures r.items[i].mes == "2023-01"
    {
      MonthOfJanuary2023(1 + i);
    }
  }

  lemma MonthOfJanuary2023(day: int)
    requires 1 <= day <= 31
    ensures FormatMonth(Date(2023, 1, day)) == "2023-01"
  {
    var d := Date(2023, 1, day);
    assert Supported(d);
    var r := FormatMonth(d);
    assert r == Pad(2023, 4) + "-" + Pad(1, 2);
    assert Pad(1, 2) == "01";
    assert Pad(2023, 4) == "2023" by {
      assert Pad(2, 1) == "2";
      assert Pad(20, 2) == "20";
      assert Pad(202, 3) == "202";
    }
  }

  /** `2023-02` and `2023-01` are different month buckets. */
  lemma FebruaryIsNotJanuary()
    ensures FormatMonth(Date(2023, 2, 1)) != "2023-01"
  {
    FormatMonthFields(Date(2023, 2, 1));
    assert Value(FormatMonth(Date(2023, 2, 1))[5..]) == 2;
    assert "2023-01"[5..] == "01";
    assert Value("01") == 1 by {
      assert "01"[..1] == "0";
    }
  }

  lemma SampleStatusesAreNotError(i: int)
    requires 0 <= i < 3
    ensures SampleStatuses[i] != "Error"
  {
  }

  /** The sample rows never carry the status `Error`, which every error
      row carries, so the two fallbacks stay distinguishable by status. */
  lemma SampleHasNoErrorStatus(rows: seq<RawRow>)
    requires forall r :: r in rows ==> !Survives(r)
    ensures forall i :: 0 <= i < |Loaded(Fetched(rows)).items| ==> Loaded(Fetched(rows)).items[i].estado != "Error"
  {
    CleanEmpty(rows);
    SampleSpansFit();
    var sample := Loaded(Fetched(rows)).items;
    forall i | 0 <= i < |sample|
      ensures sample[i].estado != "Error"
    {
      SampleStatusesAreNotError(i);
    }
  }

  /** The second rows of the two fallbacks fall in different month
      buckets: the error rows take the bucket from the start date while
      every other row takes it from the end date, so the second error row
      is not one the derivation would produce. */
  lemma FallbackMonthsDiffer(rows: seq<RawRow>)
    requires forall r :: r in rows ==> !Survives(r)
    ensures var sample, err := Loaded(Fetched(rows)).items, Loaded(FetchFailed).items;
      |sample| == |err| == 3 && sample[1].mes != err[1].mes && !WellFormed(err[1])
  {
    var sample, err := Loaded(Fetched(rows)).items, Loaded(FetchFailed).items;
    FailedLoadGivesErrorRows(FetchFailed);
    EmptyCleaningGivesSample(rows);
    assert sample[1].mes == FormatMonth(Date(2023, 2, 1)) by {
      LoadedRowsWellFormed(Fetched(rows));
      assert sample[1] in sample;
    }
    assert err[1].mes == "2023-01";
    FebruaryIsNotJanuary();
    assert err[1].fin == Date(2023, 2, 1) by {
      SampleEnds();
    }
  }
}
