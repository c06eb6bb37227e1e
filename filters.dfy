/** The views the dashboard derives from the loaded table: the range and
    country view that feeds the metrics and charts, and the city and
    category view that feeds the map and the CSV export. */
module Filters {
  import opened Seqs
  import opened Table

  /** Mask of `filter_data`: the pollutant value lies in `[low, high]`. */
  function InRange(p: Pollutant, low: int, high: int): Record -> bool {
    (r: Record) => low <= Value(r, p) <= high
  }

  function CountryIn(countries: seq<string>): Record -> bool {
    (r: Record) => r.country in countries
  }

  function CityIn(cities: seq<string>): Record -> bool {
    (r: Record) => r.city in cities
  }

  function CategoryIn(categories: seq<string>): Record -> bool {
    (r: Record) => r.category in categories
  }

  /** `filter_data(df, pollutant, low, high)`: the rows whose value is
      within both bounds, inclusive, in table order, each kept as often as
      it occurs. */
  function FilterData(rows: seq<Record>, p: Pollutant, low: int, high: int): (r: seq<Record>)
    ensures forall x :: x in r <==> x in rows && low <= Value(x, p) <= high
    ensures forall x :: multiset(r)[x] == if low <= Value(x, p) <= high then multiset(rows)[x] else 0
    ensures SubseqOf(r, rows)
  {
    WhereSubseq(rows, InRange(p, low, high));
    WhereMembers(rows, InRange(p, low, high));
    WhereCount(rows, InRange(p, low, high));
    Where(rows, InRange(p, low, high))
  }

  /** Filtering an already filtered view with the same bounds changes
      nothing. */
  lemma FilterDataIdempotent(rows: seq<Record>, p: Pollutant, low: int, high: int)
    ensures FilterData(FilterData(rows, p, low, high), p, low, high) == FilterData(rows, p, low, high)
  {
    WhereIdempotent(rows, InRange(p, low, high));
  }

  /** `filtered[filtered['Country'].isin(countries)]`, applied whatever the
      selection: an empty selection keeps no row. */
  function FilterCountries(rows: seq<Record>, countries: seq<string>): (r: seq<Record>)
    ensures forall x :: x in r <==> x in rows && x.country in countries
    ensures forall x :: multiset(r)[x] == if x.country in countries then multiset(rows)[x] else 0
    ensures SubseqOf(r, rows)
    ensures countries == [] ==> r == []
  {
    WhereSubseq(rows, CountryIn(countries));
    WhereMembers(rows, CountryIn(countries));
    WhereCount(rows, CountryIn(countries));
    Where(rows, CountryIn(countries))
  }

  /** The city filter of the map view: skipped for an empty selection,
      otherwise `isin(selected_cities)`. */
  function SelectCities(rows: seq<Record>, cities: seq<string>): (r: seq<Record>)
    ensures cities == [] ==> r == rows
    ensures cities != [] ==> forall x :: x in r <==> x in rows && x.city in cities
    ensures forall x :: multiset(r)[x] == if cities == [] || x.city in cities then multiset(rows)[x] else 0
    ensures SubseqOf(r, rows)
  {
    if cities == [] then
      SubseqRefl(rows);
      rows
    else
      WhereSubseq(rows, CityIn(cities));
      WhereMembers(rows, CityIn(cities));
      WhereCount(rows, CityIn(cities));
      Where(rows, CityIn(cities))
  }

  /** The category filter of the map view: skipped for an empty selection,
      otherwise `isin(selected_categories)`. */
  function SelectCategories(rows: seq<Record>, categories: seq<string>): (r: seq<Record>)
    ensures categories == [] ==> r == rows
    ensures categories != [] ==> forall x :: x in r <==> x in rows && x.category in categories
    ensures forall x :: multiset(r)[x] == if categories == [] || x.category in categories then multiset(rows)[x] else 0
    ensures SubseqOf(r, rows)
  {
    if categories == [] then
      SubseqRefl(rows);
      rows
    else
      WhereSubseq(rows, CategoryIn(categories));
      WhereMembers(rows, CategoryIn(categories));
      WhereCount(rows, CategoryIn(categories));
      Where(rows, CategoryIn(categories))
  }

  /** The view of the range and country filters (`filtered`). */
  function RangeCountryView(rows: seq<Record>, p: Pollutant, low: int, high: int, countries: seq<string>): (r: seq<Record>)
    ensures forall x :: x in r <==> x in rows && low <= Value(x, p) <= high && x.country in countries
    ensures forall x :: multiset(r)[x] ==
                        if low <= Value(x, p) <= high && x.country in countries then multiset(rows)[x] else 0
    ensures SubseqOf(r, rows)
  {
    var inRange := FilterData(rows, p, low, high);
    SubseqTrans(FilterCountries(inRange, countries), inRange, rows);
    FilterCountries(inRange, countries)
  }

  /** The view of the city and category filters (`filtered_data`). It
      starts again from the whole table, so neither the pollutant range nor
      the country selection plays a part in it. */
  function MapView(rows: seq<Record>, cities: seq<string>, categories: seq<string>): (r: seq<Record>)
    ensures forall x :: x in r <==>
      x in rows && (cities == [] || x.city in cities) && (categories == [] || x.category in categories)
    ensures forall x :: multiset(r)[x] ==
                        if (cities == [] || x.city in cities) && (categories == [] || x.category in categories) then multiset(rows)[x] else 0
    ensures SubseqOf(r, rows)
  {
    var byCity := SelectCities(rows, cities);
    SubseqTrans(SelectCategories(byCity, categories), byCity, rows);
    SelectCategories(byCity, categories)
  }

  /** The two map filters may be applied in either order. */
  lemma MapViewOrderIrrelevant(rows: seq<Record>, cities: seq<string>, categories: seq<string>)
    ensures MapView(rows, cities, categories) == SelectCities(SelectCategories(rows, categories), cities)
  {
    if cities != [] && categories != [] {
      WhereCommute(rows, CityIn(cities), CategoryIn(categories));
    }
  }

  /** The range and country filters may be applied in either order. */
  lemma RangeCountryOrderIrrelevant(rows: seq<Record>, p: Pollutant, low: int, high: int, countries: seq<string>)
    ensures RangeCountryView(rows, p, low, high, countries) == FilterData(FilterCountries(rows, countries), p, low, high)
  {
    WhereCommute(rows, InRange(p, low, high), CountryIn(countries));
  }
}
