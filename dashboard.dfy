/** One run of the dashboard script, from the parsed CSV and the widget
    selections to everything the page shows, or to the point where the
    script stops. */
module Dashboard {
  import opened Wrappers
  import opened Seqs
  import opened Text
  import opened Table
  import opened Loader
  import opened Filters
  import opened Aggregates
  import opened Categories

  /** What the sidebar and the map's multiselects hand to the script. */
  datatype Selection = Selection(
    pollutant: Pollutant,
    low: int,
    high: int,
    countries: seq<string>,
    cities: seq<string>,
    categories: seq<string>)

  /** Why a run ends before the page is complete: `dropna` finds no `lat` or
      `lng` column, the schema check stops the script, or the slider's
      `int(min())` meets the NaN of an empty column. */
  datatype Halt = LoadHalt(error: LoadError) | SchemaHalt(missing: seq<string>) | EmptyColumn

  /** Everything a completed run computes, in the order the page shows it. */
  datatype Report = Report(
    data: Table,
    sliderMin: int,
    sliderMax: int,
    filtered: seq<Record>,
    stats: Option<Summary>,
    top: seq<Record>,
    pivot: map<string, Group>,
    levels: seq<Option<int>>,
    categoryOrder: seq<string>,
    categoryCounts: map<string, nat>,
    mapView: seq<Record>,
    aqiColumns: seq<string>)

  /** `[c for c in data.columns if 'AQI' in c]`. */
  function AqiColumns(columns: seq<string>): (r: seq<string>)
    ensures forall c :: c in r <==> c in columns && exists i :: 0 <= i <= |c| && "AQI" <= c[i..]
    ensures forall c :: multiset(r)[c] == if exists i :: 0 <= i <= |c| && "AQI" <= c[i..] then multiset(columns)[c] else 0
    ensures SubseqOf(r, columns)
  {
    var hasAqi := (c: string) => Contains(c, "AQI");
    WhereMembers(columns, hasAqi);
    WhereCount(columns, hasAqi);
    WhereSubseq(columns, hasAqi);
    forall c ensures Contains(c, "AQI") <==> exists i :: 0 <= i <= |c| && "AQI" <= c[i..] {
      ContainsAt(c, "AQI");
    }
    Where(columns, hasAqi)
  }

  /** The page a run produces once the data has loaded and passed the
      schema check; `data` has at least one row. */
  function Page(data: Table, sel: Selection): Report
    requires data.rows != []
  {
    var p := sel.pollutant;
    var filtered := RangeCountryView(data.rows, p, sel.low, sel.high, sel.countries);
    Report(
      data,
      Least(data.rows, p),
      Greatest(data.rows, p),
      filtered,
      GetStats(filtered, p),
      NLargest(filtered, p, TOP_COUNT),
      PivotByCountry(filtered, p),
      LevelColumn(filtered),
      KeyOrder(filtered),
      CategoryCounts(filtered),
      MapView(data.rows, sel.cities, sel.categories),
      AqiColumns(data.columns))
  }

  /** The slider spans the whole table: its bounds are the least and the
      greatest value of the chosen pollutant. */
  lemma PageSlider(data: Table, sel: Selection)
    requires data.rows != []
    ensures Page(data, sel).data == data
    ensures forall x :: x in data.rows ==>
      Page(data, sel).sliderMin <= Value(x, sel.pollutant) <= Page(data, sel).sliderMax
    ensures exists x :: x in data.rows && Value(x, sel.pollutant) == Page(data, sel).sliderMin
    ensures exists x :: x in data.rows && Value(x, sel.pollutant) == Page(data, sel).sliderMax
  {
  }

  /** The filtered view holds the rows in range of the chosen countries, in
      table order. */
  lemma PageFiltered(data: Table, sel: Selection)
    requires data.rows != []
    ensures forall x :: x in Page(data, sel).filtered <==>
      x in data.rows && sel.low <= Value(x, sel.pollutant) <= sel.high && x.country in sel.countries
    ensures SubseqOf(Page(data, sel).filtered, data.rows)
  {
  }

  /** The map view and the AQI column list are drawn from the whole table. */
  lemma PageMapAndColumns(data: Table, sel: Selection)
    requires data.rows != []
    ensures forall x :: x in Page(data, sel).mapView <==>
      x in data.rows && (sel.cities == [] || x.city in sel.cities) && (sel.categories == [] || x.category in sel.categories)
    ensures forall c :: c in Page(data, sel).aqiColumns <==>
      c in data.columns && exists i :: 0 <= i <= |c| && "AQI" <= c[i..]
  {
  }

  /** The metrics, the top rows, the pivot, the level codes and the
      category counts of a page all describe its filtered view. */
  lemma PageSummarisesView(data: Table, sel: Selection)
    requires data.rows != []
    ensures var rep := Page(data, sel);
      && (rep.stats.None? <==> rep.filtered == [])
      && (rep.stats.Some? ==>
            rep.stats.value.count == |rep.filtered| && rep.stats.value.total == Total(rep.filtered, sel.pollutant))
      && |rep.top| == (if TOP_COUNT < |rep.filtered| then TOP_COUNT else |rep.filtered|)
      && Descending(rep.top, sel.pollutant) && multiset(rep.top) <= multiset(rep.filtered)
      && IsPivot(rep.filtered, sel.pollutant, rep.pivot)
      && |rep.levels| == |rep.filtered|
    ensures var rep := Page(data, sel);
      && rep.categoryOrder == Dedup(CategoryColumn(rep.filtered))
      && (forall c :: c in rep.categoryCounts ==> rep.categoryCounts[c] == CountOf(rep.filtered, c) > 0)
      && (forall c :: c in rep.categoryCounts <==> c in rep.categoryOrder)
  {
    var filtered := Page(data, sel).filtered;
    CategoryCountsMeaning(filtered);
    KeyOrderMeaning(filtered);
  }

  /** The script from top to bottom: load, check the schema, size the
      slider, then build the page. A completed run shows the page of the
      loaded table, which has rows and every required column; a halted run
      names its cause. */
  function Run(parsed: Option<Table>, sel: Selection): (out: Result<Report, Halt>)
    ensures out.Success? ==>
      && parsed.Some?
      && LoadData(parsed) == Success(out.value.data)
      && out.value.data.rows != []
      && (forall c :: c in REQUIRED_COLUMNS ==> c in out.value.data.columns)
      && out.value == Page(out.value.data, sel)
    ensures out.Failure? && out.error.LoadHalt? ==>
      && parsed.Some? && out.error.error.absent != []
      && forall c :: c in out.error.error.absent ==> c in ["lat", "lng"] && c !in parsed.value.columns
    ensures out.Failure? && out.error.SchemaHalt? ==>
      && LoadData(parsed).Success? && out.error.missing != []
      && forall c :: c in out.error.missing <==> c in REQUIRED_COLUMNS && c !in LoadData(parsed).value.columns
    ensures out.Failure? && out.error.EmptyColumn? ==>
      && LoadData(parsed).Success? && LoadData(parsed).value.rows == []
      && forall c :: c in REQUIRED_COLUMNS ==> c in LoadData(parsed).value.columns
  {
    match LoadData(parsed)
    case Failure(e) => Failure(LoadHalt(e))
    case Success(data) =>
      match CheckSchema(data)
      case Some(missing) => Failure(SchemaHalt(missing))
      case None =>
        if data.rows == [] then Failure(EmptyColumn)
        else Success(Page(data, sel))
  }

  /** A completed run shows, in its filtered view and in its map view,
      the rows of the file that have coordinates and pass the selections. */
  lemma RunShowsFile(parsed: Option<Table>, sel: Selection)
    requires Run(parsed, sel).Success?
    ensures parsed.Some?
    ensures forall x :: x in Run(parsed, sel).value.filtered <==>
      && x in parsed.value.rows && HasGeo(x)
      && sel.low <= Value(x, sel.pollutant) <= sel.high && x.country in sel.countries
    ensures forall x :: x in Run(parsed, sel).value.mapView <==>
      && x in parsed.value.rows && HasGeo(x)
      && (sel.cities == [] || x.city in sel.cities) && (sel.categories == [] || x.category in sel.categories)
  {
    var data := Run(parsed, sel).value.data;
    PageFiltered(data, sel);
    PageMapAndColumns(data, sel);
  }

  /** The script itself: the same run, with the category counts built by
      the row-by-row loop. */
  method RunDashboard(parsed: Option<Table>, sel: Selection) returns (out: Result<Report, Halt>)
    ensures out == Run(parsed, sel)
    ensures out.Success? ==> SumOver(out.value.categoryCounts, out.value.categoryOrder) == |out.value.filtered|
  {
    var loaded := LoadData(parsed);
    if loaded.Failure? {
      return Failure(LoadHalt(loaded.error));
    }
    var data := loaded.value;
    var missing := CheckSchema(data);
    if missing.Some? {
      return Failure(SchemaHalt(missing.value));
    }
    if data.rows == [] {
      return Failure(EmptyColumn);
    }
    var p := sel.pollutant;
    var filtered := RangeCountryView(data.rows, p, sel.low, sel.high, sel.countries);
    var order, counts := CountCategories(filtered);
    out := Success(Report(
      data,
      Least(data.rows, p),
      Greatest(data.rows, p),
      filtered,
      GetStats(filtered, p),
      NLargest(filtered, p, TOP_COUNT),
      PivotByCountry(filtered, p),
      LevelColumn(filtered),
      order,
      counts,
      MapView(data.rows, sel.cities, sel.categories),
      AqiColumns(data.columns)));
  }

  /** The script stops exactly when the coordinates columns are absent, a
      required column is missing, or no row survives the clean-up; a read
      failure always stops it at the schema check. */
  lemma HaltsExactly(parsed: Option<Table>, sel: Selection)
    ensures Run(parsed, sel).Failure? <==>
      || LoadData(parsed).Failure?
      || MissingColumns(LoadData(parsed).value.columns) != []
      || LoadData(parsed).value.rows == []
    ensures parsed.None? ==> Run(parsed, sel) == Failure(SchemaHalt(REQUIRED_COLUMNS))
  {
    FailedReadHalts();
  }

  /** The map view starts again from the loaded data: the range and the
      country selection do not change it. */
  lemma MapIgnoresRangeAndCountries(data: Table, sel: Selection, other: Selection)
    requires data.rows != []
    requires sel.cities == other.cities && sel.categories == other.categories
    ensures Page(data, sel).mapView == Page(data, other).mapView
    ensures forall x :: x in Page(data, sel).mapView ==> x in data.rows
  {
  }
}
