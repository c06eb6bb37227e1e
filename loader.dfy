/** `load_data` and the required-column check that follows it. */
module Loader {
  import opened Wrappers
  import opened Seqs
  import opened Text
  import opened Table

  /** Why loading stops the script: `dropna(subset=['lat', 'lng'])` raises
      a KeyError naming the subset columns the header lacks. */
  datatype LoadError = MissingGeoColumns(absent: seq<string>)

  /** The row has both coordinates. */
  predicate HasGeo(r: Record) {
    r.lat.Some? && r.lng.Some?
  }

  /** `df.drop_duplicates()` followed by `df.dropna(subset=['lat', 'lng'])`. */
  function CleanRows(rows: seq<Record>): (r: seq<Record>)
    ensures NoDup(r)
    ensures forall x :: x in r <==> x in rows && HasGeo(x)
    ensures SubseqOf(r, rows)
  {
    var d := Dedup(rows);
    WhereNoDup(d, HasGeo);
    WhereSubseq(d, HasGeo);
    DedupSubseq(rows);
    SubseqTrans(Where(d, HasGeo), d, rows);
    WhereMembers(d, HasGeo);
    Where(d, HasGeo)
  }

  /** The clean-up reads the rows in file order: cleaning the first `i` rows
      gives a prefix of cleaning all of them, so each kept row is the first
      occurrence of its value and the kept rows keep their relative order. */
  lemma CleanRowsInOrder(rows: seq<Record>, i: nat)
    requires i <= |rows|
    ensures CleanRows(rows[..i]) <= CleanRows(rows)
  {
    DedupPrefix(rows, i);
    WherePrefix(Dedup(rows[..i]), Dedup(rows), HasGeo);
  }

  /** The header after `df.columns.str.strip()`. */
  function StripColumns(columns: seq<string>): (r: seq<string>)
    ensures |r| == |columns|
  {
    seq(|columns|, i requires 0 <= i < |columns| => Strip(columns[i]))
  }

  /** Subset columns of `dropna` that the raw header lacks, in subset order. */
  function AbsentGeoColumns(columns: seq<string>): (r: seq<string>)
    ensures forall c :: c in r <==> c in ["lat", "lng"] && c !in columns
  {
    Where(["lat", "lng"], c => c !in columns)
  }

  /** `load_data`: `parsed` is what `pd.read_csv` produced, `None` when it
      raised, in which case the result is an empty frame. Otherwise rows are
      de-duplicated, rows without coordinates are dropped (which needs the
      exact header names `lat` and `lng`), and header names are stripped. */
  function LoadData(parsed: Option<Table>): (r: Result<Table, LoadError>)
    ensures parsed.None? ==> r == Success(Table([], []))
    ensures parsed.Some? && r.Failure? ==>
      r.error.absent != [] && forall c :: c in r.error.absent ==> c in ["lat", "lng"] && c !in parsed.value.columns
    ensures parsed.Some? && r.Success? ==>
      && "lat" in parsed.value.columns && "lng" in parsed.value.columns
      && |r.value.columns| == |parsed.value.columns|
      && (forall i :: 0 <= i < |r.value.columns| ==> r.value.columns[i] == Strip(parsed.value.columns[i]))
      && NoDup(r.value.rows)
      && (forall x :: x in r.value.rows <==> x in parsed.value.rows && HasGeo(x))
      && SubseqOf(r.value.rows, parsed.value.rows)
  {
    match parsed
    case None => Success(Table([], []))
    case Some(raw) =>
      var absent := AbsentGeoColumns(raw.columns);
      if absent != [] then
        Failure(MissingGeoColumns(absent))
      else
        assert "lat" in ["lat", "lng"] && "lng" in ["lat", "lng"];
        Success(Table(StripColumns(raw.columns), CleanRows(raw.rows)))
  }

  /** `[col for col in required_cols if col not in data.columns]`. */
  function MissingColumns(columns: seq<string>): (m: seq<string>)
    ensures forall c :: c in m <==> c in REQUIRED_COLUMNS && c !in columns
    ensures SubseqOf(m, REQUIRED_COLUMNS)
    ensures m == [] <==> forall c :: c in REQUIRED_COLUMNS ==> c in columns
  {
    var absent := (c: string) => c !in columns;
    WhereSubseq(REQUIRED_COLUMNS, absent);
    Where(REQUIRED_COLUMNS, absent)
  }

  /** The schema check: `None` lets the script go on, `Some(missing)` is the
      error message's list, after which `st.stop()` halts the run. */
  function CheckSchema(data: Table): (r: Option<seq<string>>)
    ensures r.None? <==> forall c :: c in REQUIRED_COLUMNS ==> c in data.columns
    ensures r.Some? ==> r.value == MissingColumns(data.columns) && r.value != []
  {
    var missing := MissingColumns(data.columns);
    if missing != [] then Some(missing) else None
  }

  /** A read failure leaves an empty frame, so the schema check reports
      every required column and the script halts. */
  lemma FailedReadHalts()
    ensures LoadData(None).Success?
    ensures CheckSchema(LoadData(None).value) == Some(REQUIRED_COLUMNS)
  {
    var m := MissingColumns([]);
    WhereKeepsAll(REQUIRED_COLUMNS, (c: string) => c !in []);
  }
}
