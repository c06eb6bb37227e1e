/** The air-quality table: one record per monitoring station, the header of
    column names, and the fixed pollutant selector of the sidebar. */
module Table {
  import opened Wrappers

  /** The five pollutants a user can choose, in the order of the sidebar's
      drop-down list. */
  datatype Pollutant = Overall | CarbonMonoxide | Ozone | NitrogenDioxide | Pm25

  /** One row of the CSV. `lat` and `lng` are `None` where the cell was
      empty (NaN); `others` holds the remaining cells (the per-pollutant
      category texts), which only take part in whole-row comparisons. */
  datatype Record = Record(
    city: string,
    country: string,
    category: string,
    lat: Option<real>,
    lng: Option<real>,
    aqi: int,
    co: int,
    ozone: int,
    no2: int,
    pm25: int,
    others: seq<string>)

  /** A data frame: its header and its rows, in file order. */
  datatype Table = Table(columns: seq<string>, rows: seq<Record>)

  /** The columns the schema check insists on, in the order it reports them. */
  const REQUIRED_COLUMNS: seq<string> :=
    ["AQI Value", "CO AQI Value", "Ozone AQI Value", "NO2 AQI Value", "PM2.5 AQI Value"]

  /** The sidebar's pollutant labels, in the order they are offered. */
  const POLLUTANT_LABELS: seq<string> :=
    ["Overall AQI", "Carbon Monoxide", "Ozone", "Nitrogen Dioxide", "PM2.5"]

  /** The cell of the chosen pollutant's AQI column. */
  function Value(r: Record, p: Pollutant): int {
    match p
    case Overall => r.aqi
    case CarbonMonoxide => r.co
    case Ozone => r.ozone
    case NitrogenDioxide => r.no2
    case Pm25 => r.pm25
  }

  /** Position of a pollutant in the drop-down list and in the required
      columns. */
  function Index(p: Pollutant): (i: nat)
    ensures i < 5
  {
    match p
    case Overall => 0
    case CarbonMonoxide => 1
    case Ozone => 2
    case NitrogenDioxide => 3
    case Pm25 => 4
  }

  /** The column a pollutant's values are read from: the pollutant
      dictionary maps every label to one of the required columns. */
  function Column(p: Pollutant): (c: string)
    ensures c in REQUIRED_COLUMNS
  {
    REQUIRED_COLUMNS[Index(p)]
  }

  /** The label shown for a pollutant. */
  function Label(p: Pollutant): string {
    POLLUTANT_LABELS[Index(p)]
  }

  /** The pollutant dictionary lookup `pollutant_dict[label]`; a label that
      is not a key has no pollutant. */
  function PollutantOf(name: string): (r: Option<Pollutant>)
    ensures r.Some? ==> Label(r.value) == name
    ensures r.None? ==> name !in POLLUTANT_LABELS
  {
    if name == "Overall AQI" then Some(Overall)
    else if name == "Carbon Monoxide" then Some(CarbonMonoxide)
    else if name == "Ozone" then Some(Ozone)
    else if name == "Nitrogen Dioxide" then Some(NitrogenDioxide)
    else if name == "PM2.5" then Some(Pm25)
    else None
  }

  /** Every offered label finds its pollutant, and different pollutants read
      different columns. */
  lemma SelectorIsBijective(p: Pollutant, q: Pollutant)
    ensures PollutantOf(Label(p)) == Some(p)
    ensures p != q ==> Column(p) != Column(q)
  {
  }
}
