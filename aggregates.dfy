/** What the dashboard computes over the filtered view: the three metrics,
    the ten highest rows and the mean per country. */
module Aggregates {
  import opened Wrappers
  import opened Seqs
  import opened Table

  /** Sum of the pollutant's values over the rows. */
  function Total(rows: seq<Record>, p: Pollutant): int {
    if rows == [] then 0 else Value(rows[0], p) + Total(rows[1..], p)
  }

  /** The smallest value of the pollutant (`Series.min()`). */
  function Least(rows: seq<Record>, p: Pollutant): (m: int)
    requires rows != []
    ensures exists x :: x in rows && Value(x, p) == m
    ensures forall x :: x in rows ==> m <= Value(x, p)
  {
    if |rows| == 1 then Value(rows[0], p)
    else
      var rest := Least(rows[1..], p);
      assert forall x :: x in rows[1..] ==> x in rows;
      assert forall x :: x in rows ==> x == rows[0] || x in rows[1..];
      if Value(rows[0], p) <= rest then Value(rows[0], p) else rest
  }

  /** The largest value of the pollutant (`Series.max()`). */
  function Greatest(rows: seq<Record>, p: Pollutant): (m: int)
    requires rows != []
    ensures exists x :: x in rows && Value(x, p) == m
    ensures forall x :: x in rows ==> Value(x, p) <= m
  {
    if |rows| == 1 then Value(rows[0], p)
    else
      var rest := Greatest(rows[1..], p);
      assert forall x :: x in rows[1..] ==> x in rows;
      assert forall x :: x in rows ==> x == rows[0] || x in rows[1..];
      if Value(rows[0], p) >= rest then Value(rows[0], p) else rest
  }

  lemma MulSucc(n: nat, a: int)
    ensures (n + 1) * a == n * a + a
  {
  }

  /** A sum of values each within `[lo, hi]` lies between `n * lo` and `n * hi`. */
  lemma {:induction false} TotalBounds(rows: seq<Record>, p: Pollutant, lo: int, hi: int)
    requires forall x :: x in rows ==> lo <= Value(x, p) <= hi
    ensures |rows| * lo <= Total(rows, p) <= |rows| * hi
  {
    if rows != [] {
      var n := |rows| - 1;
      assert forall x :: x in rows[1..] ==> x in rows;
      TotalBounds(rows[1..], p, lo, hi);
      MulSucc(n, lo);
      MulSucc(n, hi);
    }
  }

  /** The three metrics of `get_stats`: the mean as its exact total and
      count (the mean is `total / count`), the minimum and the maximum. */
  datatype Summary = Summary(total: int, count: nat, least: int, greatest: int)

  /** `get_stats(df, col)`: `None` for an empty view, where pandas gives NaN
      for all three metrics. */
  function GetStats(rows: seq<Record>, p: Pollutant): (s: Option<Summary>)
    ensures s.None? <==> rows == []
    ensures s.Some? ==>
      && s.value.count == |rows| && s.value.total == Total(rows, p)
      && (forall x :: x in rows ==> s.value.least <= Value(x, p) <= s.value.greatest)
      && (exists x :: x in rows && Value(x, p) == s.value.least)
      && (exists x :: x in rows && Value(x, p) == s.value.greatest)
  {
    if rows == [] then None
    else Some(Summary(Total(rows, p), |rows|, Least(rows, p), Greatest(rows, p)))
  }

  /** The mean metric lies between the minimum and maximum metrics:
      `count * least <= total <= count * greatest`. */
  lemma MeanWithinBounds(rows: seq<Record>, p: Pollutant)
    requires rows != []
    ensures GetStats(rows, p).Some?
    ensures var s := GetStats(rows, p).value;
      s.count > 0 && s.count * s.least <= s.total <= s.count * s.greatest
  {
    var s := GetStats(rows, p).value;
    TotalBounds(rows, p, s.least, s.greatest);
  }

  // ---------------------------------------------------------------- pivot

  /** Total and count of one country's values; their quotient is the pivot's
      mean. */
  datatype Group = Group(total: int, count: nat)

  function InCountry(country: string): Record -> bool {
    (r: Record) => r.country == country
  }

  /** The rows of one country, in table order. */
  function CountryRows(rows: seq<Record>, country: string): seq<Record> {
    Where(rows, InCountry(country))
  }

  /** `m` is the pivot of `rows`: exactly the countries that occur, each
      with the total and the number of its values. */
  ghost predicate IsPivot(rows: seq<Record>, p: Pollutant, m: map<string, Group>) {
    && (forall k :: k in m <==> exists x :: x in rows && x.country == k)
    && (forall k :: k in m ==>
         && m[k].count == |CountryRows(rows, k)| > 0
         && m[k].total == Total(CountryRows(rows, k), p))
  }

  /** `pivot_table(index='Country', values=col, aggfunc='mean')`: one entry
      per country that occurs in the view, holding the total and the number
      of that country's values. */
  function PivotByCountry(rows: seq<Record>, p: Pollutant): (m: map<string, Group>)
    ensures IsPivot(rows, p, m)
  {
    if rows == [] then map[]
    else
      var m := PivotByCountry(rows[1..], p);
      PivotStep(rows, p, m);
      AddRow(m, rows[0], p)
  }

  /** Counts one more row towards its country's entry. */
  function AddRow(m: map<string, Group>, x: Record, p: Pollutant): map<string, Group> {
    var g := if x.country in m then m[x.country] else Group(0, 0);
    m[x.country := Group(Value(x, p) + g.total, g.count + 1)]
  }

  lemma CountryRowsCons(rows: seq<Record>, k: string)
    requires rows != []
    ensures CountryRows(rows, k) == (if rows[0].country == k then [rows[0]] else []) + CountryRows(rows[1..], k)
  {
  }

  lemma TotalCons(x: Record, rows: seq<Record>, p: Pollutant)
    ensures Total([x] + rows, p) == Value(x, p) + Total(rows, p)
  {
    assert ([x] + rows)[1..] == rows;
  }

  /** Adding the first row's value to its country's entry turns the pivot of
      the remaining rows into the pivot of all rows. */
  lemma PivotStep(rows: seq<Record>, p: Pollutant, m: map<string, Group>)
    requires rows != [] && IsPivot(rows[1..], p, m)
    ensures IsPivot(rows, p, AddRow(m, rows[0], p))
  {
    var m' := AddRow(m, rows[0], p);
    forall k ensures k in m' <==> exists y :: y in rows && y.country == k {
      PivotKey(rows, p, m, k);
    }
    forall k | k in m'
      ensures m'[k].count == |CountryRows(rows, k)| > 0
      ensures m'[k].total == Total(CountryRows(rows, k), p)
    {
      if k !in m {
        PivotAbsent(rows[1..], p, m, k);
      }
      PivotEntry(rows, p, m, k);
    }
  }

  /** A country without an entry in the pivot has no rows. */
  lemma PivotAbsent(rows: seq<Record>, p: Pollutant, m: map<string, Group>, k: string)
    requires IsPivot(rows, p, m) && k !in m
    ensures CountryRows(rows, k) == []
  {
    WhereEmpty(rows, InCountry(k));
  }

  lemma PivotEntry(rows: seq<Record>, p: Pollutant, m: map<string, Group>, k: string)
    requires rows != [] && (k == rows[0].country || k in m)
    requires k in m ==> m[k].count == |CountryRows(rows[1..], k)| > 0 && m[k].total == Total(CountryRows(rows[1..], k), p)
    requires k !in m ==> CountryRows(rows[1..], k) == []
    ensures k in AddRow(m, rows[0], p)
    ensures AddRow(m, rows[0], p)[k].count == |CountryRows(rows, k)| > 0
    ensures AddRow(m, rows[0], p)[k].total == Total(CountryRows(rows, k), p)
  {
    var x := rows[0];
    var rest := CountryRows(rows[1..], k);
    CountryRowsCons(rows, k);
    if k == x.country {
      assert CountryRows(rows, k) == [x] + rest;
      TotalCons(x, rest, p);
    } else {
      assert CountryRows(rows, k) == rest;
    }
  }

  lemma PivotKey(rows: seq<Record>, p: Pollutant, m: map<string, Group>, k: string)
    requires rows != [] && IsPivot(rows[1..], p, m)
    ensures k in AddRow(m, rows[0], p) <==> exists y :: y in rows && y.country == k
  {
    assert rows == [rows[0]] + rows[1..];
    if k in m {
      var y :| y in rows[1..] && y.country == k;
      assert y in rows;
    }
    if exists y :: y in rows && y.country == k {
      var y :| y in rows && y.country == k;
      if k != rows[0].country {
        assert y in rows[1..];
      }
    }
  }

  // ---------------------------------------------------------------- top ten

  /** Rows are in non-increasing order of the pollutant value. */
  ghost predicate Descending(s: seq<Record>, p: Pollutant) {
    forall i, j :: 0 <= i < j < |s| ==> Value(s[i], p) >= Value(s[j], p)
  }

  /** Inserts `x` in front of the first row whose value is not larger, so
      that `x` precedes every row of equal value. */
  function Insert(x: Record, t: seq<Record>, p: Pollutant): (r: seq<Record>)
    ensures |r| == |t| + 1
    ensures multiset(r) == multiset(t) + multiset{x}
    ensures Descending(t, p) ==> Descending(r, p)
  {
    if t == [] || Value(x, p) >= Value(t[0], p) then [x] + t
    else
      var rest := Insert(x, t[1..], p);
      assert t == [t[0]] + t[1..];
      assert Descending(t, p) ==> Descending([t[0]] + rest, p) by {
        if Descending(t, p) {
          HeadDominates(t[0], rest, x, t[1..], p);
        }
      }
      [t[0]] + rest
  }

  /** A row no smaller than everything after it can lead a descending
      sequence. */
  lemma HeadDominates(h: Record, rest: seq<Record>, x: Record, tail: seq<Record>, p: Pollutant)
    requires multiset(rest) == multiset(tail) + multiset{x}
    requires Value(x, p) <= Value(h, p)
    requires forall j :: 0 <= j < |tail| ==> Value(tail[j], p) <= Value(h, p)
    requires Descending(rest, p)
    ensures Descending([h] + rest, p)
  {
    forall j | 0 <= j < |rest| ensures Value(rest[j], p) <= Value(h, p) {
      assert rest[j] in multiset(rest);
      if rest[j] != x {
        assert rest[j] in multiset(tail);
        var i :| 0 <= i < |tail| && tail[i] == rest[j];
      }
    }
    var r := [h] + rest;
    forall i, j | 0 <= i < j < |r| ensures Value(r[i], p) >= Value(r[j], p) {
      assert r[j] == rest[j - 1];
      if i > 0 {
        assert r[i] == rest[i - 1];
      }
    }
  }

  /** A stable sort in descending order of the pollutant value. */
  function SortDescending(rows: seq<Record>, p: Pollutant): (r: seq<Record>)
    ensures |r| == |rows|
    ensures multiset(r) == multiset(rows)
    ensures Descending(r, p)
  {
    if rows == [] then []
    else
      assert rows == [rows[0]] + rows[1..];
      Insert(rows[0], SortDescending(rows[1..], p), p)
  }

  function HasValue(p: Pollutant, v: int): Record -> bool {
    (r: Record) => Value(r, p) == v
  }

  lemma {:induction false} InsertStable(x: Record, t: seq<Record>, p: Pollutant, v: int)
    ensures Where(Insert(x, t, p), HasValue(p, v)) ==
      (if Value(x, p) == v then [x] else []) + Where(t, HasValue(p, v))
  {
    if t == [] || Value(x, p) >= Value(t[0], p) {
      InsertStops(x, t, p);
      WhereCons(x, t, HasValue(p, v));
      assert HasValue(p, v)(x) == (Value(x, p) == v);
    } else {
      InsertStable(x, t[1..], p, v);
      InsertStablePass(x, t, p, v);
    }
  }

  /** Passing a larger head row keeps the selection's order. */
  lemma InsertStablePass(x: Record, t: seq<Record>, p: Pollutant, v: int)
    requires t != [] && Value(x, p) < Value(t[0], p)
    requires Where(Insert(x, t[1..], p), HasValue(p, v)) ==
      (if Value(x, p) == v then [x] else []) + Where(t[1..], HasValue(p, v))
    ensures Where(Insert(x, t, p), HasValue(p, v)) ==
      (if Value(x, p) == v then [x] else []) + Where(t, HasValue(p, v))
  {
    var head, tail := t[0], t[1..];
    InsertPasses(x, t, p);
    assert t == [head] + tail;
    assert Value(x, p) == v ==> !HasValue(p, v)(head);
    WherePass(head, Insert(x, tail, p), tail, if Value(x, p) == v then [x] else [], HasValue(p, v));
  }

  lemma InsertStops(x: Record, t: seq<Record>, p: Pollutant)
    requires t == [] || Value(x, p) >= Value(t[0], p)
    ensures Insert(x, t, p) == [x] + t
  {
  }

  lemma InsertPasses(x: Record, t: seq<Record>, p: Pollutant)
    requires t != [] && Value(x, p) < Value(t[0], p)
    ensures Insert(x, t, p) == [t[0]] + Insert(x, t[1..], p)
  {
  }

  /** The sort keeps rows of equal value in table order. */
  lemma {:induction false} SortStable(rows: seq<Record>, p: Pollutant, v: int)
    ensures Where(SortDescending(rows, p), HasValue(p, v)) == Where(rows, HasValue(p, v))
  {
    if rows != [] {
      SortStable(rows[1..], p, v);
      InsertStable(rows[0], SortDescending(rows[1..], p), p, v);
    }
  }

  /** How many rows `nlargest` returns for the dashboard's bar chart. */
  const TOP_COUNT: nat := 10

  /** `nlargest(n, col)` with pandas' default `keep='first'`: the first `n`
      rows of the stable descending sort. */
  function NLargest(rows: seq<Record>, p: Pollutant, n: nat): (r: seq<Record>)
    ensures |r| == if n < |rows| then n else |rows|
    ensures Descending(r, p)
    ensures multiset(r) <= multiset(rows)
    ensures forall y, z :: y in multiset(rows) - multiset(r) && z in r ==> Value(y, p) <= Value(z, p)
  {
    var sorted := SortDescending(rows, p);
    var k := if n < |rows| then n else |rows|;
    TakeLargest(rows, sorted, k, p);
    sorted[..k]
  }

  /** In a descending sequence every row after position `k` is no larger
      than any row before it. */
  lemma TakeLargest(rows: seq<Record>, s: seq<Record>, k: nat, p: Pollutant)
    requires multiset(s) == multiset(rows) && Descending(s, p) && k <= |s|
    ensures Descending(s[..k], p)
    ensures multiset(s[..k]) <= multiset(rows)
    ensures forall y, z :: y in multiset(rows) - multiset(s[..k]) && z in s[..k] ==> Value(y, p) <= Value(z, p)
  {
    DescendingPrefix(s, k, p);
    MultisetSplit(rows, s, k);
    LeftOutNoLarger(s, k, p);
  }

  lemma DescendingPrefix(s: seq<Record>, k: nat, p: Pollutant)
    requires Descending(s, p) && k <= |s|
    ensures Descending(s[..k], p)
  {
  }

  /** In a descending sequence nothing after position `k` is larger than
      anything before it. */
  lemma LeftOutNoLarger(s: seq<Record>, k: nat, p: Pollutant)
    requires Descending(s, p) && k <= |s|
    ensures forall y, z :: y in multiset(s[k..]) && z in s[..k] ==> Value(y, p) <= Value(z, p)
  {
    forall y, z | y in multiset(s[k..]) && z in s[..k]
      ensures Value(y, p) <= Value(z, p)
    {
      assert y in s[k..];
      var i :| 0 <= i < |s[k..]| && s[k..][i] == y;
      var j :| 0 <= j < k && s[..k][j] == z;
      assert s[k + i] == y && s[j] == z;
    }
  }

  /** What a prefix leaves behind is the rest of the sequence. */
  lemma MultisetSplit(rows: seq<Record>, s: seq<Record>, k: nat)
    requires multiset(s) == multiset(rows) && k <= |s|
    ensures multiset(s[..k]) <= multiset(rows)
    ensures multiset(rows) - multiset(s[..k]) == multiset(s[k..])
  {
    assert s == s[..k] + s[k..];
  }

  /** Among rows of equal value, `nlargest` keeps the earliest ones. */
  lemma NLargestPrefersFirst(rows: seq<Record>, p: Pollutant, n: nat, v: int)
    ensures Where(NLargest(rows, p, n), HasValue(p, v)) <= Where(rows, HasValue(p, v))
  {
    var sorted := SortDescending(rows, p);
    SortStable(rows, p, v);
    WherePrefix(NLargest(rows, p, n), sorted, HasValue(p, v));
  }
}
