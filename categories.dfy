/** The AQI category column: its ordinal severity code (`category_map`) and
    the per-category row counts built row by row in the sidebar. */
module Categories {
  import opened Wrappers
  import opened Seqs
  import opened Table

  /** The six severity levels, mildest first. */
  const SEVERITY_LEVELS: seq<string> :=
    ["Good", "Moderate", "Unhealthy for Sensitive Groups", "Unhealthy", "Very Unhealthy", "Hazardous"]

  /** The script's `category_map`. */
  const CATEGORY_MAP: map<string, int> :=
    map["Good" := 1, "Moderate" := 2, "Unhealthy for Sensitive Groups" := 3,
        "Unhealthy" := 4, "Very Unhealthy" := 5, "Hazardous" := 6]

  /** `Series.map(category_map)` on one cell: the code of a known category,
      and a missing value for any other text. The code is the category's
      1-based rank in the severity order. */
  function Level(category: string): (level: Option<int>)
    ensures level.Some? <==> category in SEVERITY_LEVELS
    ensures level.Some? ==> 1 <= level.value <= |SEVERITY_LEVELS| && SEVERITY_LEVELS[level.value - 1] == category
  {
    if category in CATEGORY_MAP then Some(CATEGORY_MAP[category]) else None
  }

  /** The category a code stands for. */
  function CategoryName(level: int): (name: Option<string>)
    ensures name.Some? <==> 1 <= level <= |SEVERITY_LEVELS|
  {
    if 1 <= level <= |SEVERITY_LEVELS| then Some(SEVERITY_LEVELS[level - 1]) else None
  }

  /** Codes and names are inverse to each other on the six levels. */
  lemma LevelRoundTrip(category: string, level: int)
    ensures Level(category).Some? ==> CategoryName(Level(category).value) == Some(category)
    ensures 1 <= level <= |SEVERITY_LEVELS| ==> Level(SEVERITY_LEVELS[level - 1]) == Some(level)
  {
    if 1 <= level <= |SEVERITY_LEVELS| {
      var c := SEVERITY_LEVELS[level - 1];
      var l := Level(c).value;
      assert SEVERITY_LEVELS[l - 1] == SEVERITY_LEVELS[level - 1];
      assert NoDup(SEVERITY_LEVELS);
    }
  }

  /** A higher code means a more severe category. */
  lemma LevelFollowsSeverity(i: int, j: int)
    requires 0 <= i < j < |SEVERITY_LEVELS|
    ensures Level(SEVERITY_LEVELS[i]).value < Level(SEVERITY_LEVELS[j]).value
  {
    LevelRoundTrip(SEVERITY_LEVELS[i], i + 1);
    LevelRoundTrip(SEVERITY_LEVELS[j], j + 1);
  }

  /** The `AQI_Level` column added to the copy of the filtered view: one
      cell per row, missing exactly where the category is unknown. */
  function LevelColumn(rows: seq<Record>): (codes: seq<Option<int>>)
    ensures |codes| == |rows|
    ensures forall i :: 0 <= i < |rows| ==>
      (codes[i].Some? <==> rows[i].category in SEVERITY_LEVELS)
      && (codes[i].Some? ==> CategoryName(codes[i].value) == Some(rows[i].category))
  {
    seq(|rows|, i requires 0 <= i < |rows| => Level(rows[i].category))
  }

  // ------------------------------------------------------- category counts

  /** The category column, in row order. */
  function CategoryColumn(rows: seq<Record>): (r: seq<string>)
    ensures |r| == |rows|
    ensures forall i :: 0 <= i < |rows| ==> r[i] == rows[i].category
  {
    seq(|rows|, i requires 0 <= i < |rows| => rows[i].category)
  }

  /** Number of rows of a category. */
  function CountOf(rows: seq<Record>, category: string): nat {
    if rows == [] then 0
    else (if rows[0].category == category then 1 else 0) + CountOf(rows[1..], category)
  }

  /** Sum of the counts stored under `keys` (absent keys count zero). */
  function SumOver(counts: map<string, nat>, keys: seq<string>): int {
    if keys == [] then 0
    else (if keys[0] in counts then counts[keys[0]] else 0) + SumOver(counts, keys[1..])
  }

  /** The `cat_counts` dictionary after the first `n` rows: each row's
      category gets one more than it had (0 when it had no entry). */
  function CountsUpTo(rows: seq<Record>, n: nat): map<string, nat>
    requires n <= |rows|
  {
    if n == 0 then map[]
    else
      var counts, cat := CountsUpTo(rows, n - 1), rows[n - 1].category;
      counts[cat := (if cat in counts then counts[cat] else 0) + 1]
  }

  /** The dictionary's key order after the first `n` rows: a category is
      appended when it is inserted for the first time. */
  function OrderUpTo(rows: seq<Record>, n: nat): seq<string>
    requires n <= |rows|
  {
    if n == 0 then []
    else
      var order, cat := OrderUpTo(rows, n - 1), rows[n - 1].category;
      if cat in order then order else order + [cat]
  }

  /** The finished `cat_counts` dictionary and its key order. */
  function CategoryCounts(rows: seq<Record>): map<string, nat> {
    CountsUpTo(rows, |rows|)
  }

  function KeyOrder(rows: seq<Record>): seq<string> {
    OrderUpTo(rows, |rows|)
  }

  /** The `cat_counts` loop, counting one row at a time. `order` is the
      dictionary's key order, which is the order of first insertion. */
  method CountCategories(rows: seq<Record>) returns (order: seq<string>, counts: map<string, nat>)
    ensures order == KeyOrder(rows)
    ensures counts == CategoryCounts(rows)
    ensures SumOver(counts, order) == |rows|
  {
    order, counts := [], map[];
    var i := 0;
    while i < |rows|
      invariant 0 <= i <= |rows|
      invariant order == OrderUpTo(rows, i)
      invariant counts == CountsUpTo(rows, i)
      invariant SumOver(counts, order) == i
    {
      var cat := rows[i].category;
      CountStep(rows, i, order, counts);
      if cat !in counts {
        order := order + [cat];
      }
      counts := counts[cat := (if cat in counts then counts[cat] else 0) + 1];
      i := i + 1;
    }
  }

  /** One turn of the loop: the dictionary gains the row, its key order
      gains the category when it is new, and the sum grows by one. */
  lemma CountStep(rows: seq<Record>, i: nat, order: seq<string>, counts: map<string, nat>)
    requires i < |rows|
    requires order == OrderUpTo(rows, i) && counts == CountsUpTo(rows, i)
    requires SumOver(counts, order) == i
    ensures rows[i].category in counts <==> rows[i].category in order
    ensures SumOver(CountsUpTo(rows, i + 1), OrderUpTo(rows, i + 1)) == i + 1
  {
    var cat := rows[i].category;
    KeysFollowOrder(rows, i);
    var counts' := counts[cat := (if cat in counts then counts[cat] else 0) + 1];
    if cat !in counts {
      SumOverAbsent(counts, order, cat, 1);
      SumOverSnoc(counts', order, cat);
    } else {
      SumOverUpdate(counts, order, cat, counts[cat] + 1);
    }
  }

  /** The key order lists each key of the dictionary exactly once. */
  lemma {:induction false} KeysFollowOrder(rows: seq<Record>, n: nat)
    requires n <= |rows|
    ensures NoDup(OrderUpTo(rows, n))
    ensures forall c :: c in CountsUpTo(rows, n) <==> c in OrderUpTo(rows, n)
  {
    if n > 0 {
      KeysFollowOrder(rows, n - 1);
      var order, cat := OrderUpTo(rows, n - 1), rows[n - 1].category;
      if cat !in order {
        NoDupSnoc(order, cat);
      }
    }
  }

  /** The key order is the category column with repeats dropped, keeping
      the first occurrence. */
  lemma {:induction false} OrderIsDedup(rows: seq<Record>, n: nat)
    requires n <= |rows|
    ensures OrderUpTo(rows, n) == Dedup(CategoryColumn(rows[..n]))
  {
    if n == 0 {
      assert CategoryColumn(rows[..0]) == [];
    } else {
      OrderIsDedup(rows, n - 1);
      var cat := rows[n - 1].category;
      assert CategoryColumn(rows[..n]) == CategoryColumn(rows[..n - 1]) + [cat];
      DedupSnoc(CategoryColumn(rows[..n - 1]), cat);
    }
  }

  /** Each entry holds the number of rows so far with its category, and a
      category has an entry exactly when it has a row so far. */
  lemma {:induction false} CountsUpToMatch(rows: seq<Record>, n: nat, c: string)
    requires n <= |rows|
    ensures c in CountsUpTo(rows, n) <==> CountOf(rows[..n], c) > 0
    ensures c in CountsUpTo(rows, n) ==> CountsUpTo(rows, n)[c] == CountOf(rows[..n], c)
  {
    if n > 0 {
      CountsUpToMatch(rows, n - 1, c);
      PrefixSnoc(rows, n - 1);
      CountOfSnoc(rows[..n - 1], rows[n - 1], c);
    }
  }

  lemma {:induction false} CountOfSnoc(rows: seq<Record>, r: Record, c: string)
    ensures CountOf(rows + [r], c) == CountOf(rows, c) + (if r.category == c then 1 else 0)
  {
    if rows != [] {
      assert (rows + [r])[1..] == rows[1..] + [r];
      CountOfSnoc(rows[1..], r, c);
    }
  }

  /** A category has rows exactly when some row carries it. */
  lemma {:induction false} CountOfPositive(rows: seq<Record>, c: string)
    ensures CountOf(rows, c) > 0 <==> exists r :: r in rows && r.category == c
  {
    if rows != [] {
      CountOfPositive(rows[1..], c);
      assert forall r :: r in rows <==> r == rows[0] || r in rows[1..];
    }
  }

  /** The dictionary's keys are exactly the categories that occur, each
      mapped to its (positive) number of rows. */
  lemma CategoryCountsMeaning(rows: seq<Record>)
    ensures forall c :: c in CategoryCounts(rows) <==> exists r :: r in rows && r.category == c
    ensures forall c :: c in CategoryCounts(rows) ==> CategoryCounts(rows)[c] == CountOf(rows, c) > 0
  {
    assert rows[..|rows|] == rows;
    forall c
      ensures c in CategoryCounts(rows) <==> exists r :: r in rows && r.category == c
      ensures c in CategoryCounts(rows) ==> CategoryCounts(rows)[c] == CountOf(rows, c) > 0
    {
      CountsUpToMatch(rows, |rows|, c);
      CountOfPositive(rows, c);
    }
  }

  /** The key order lists every category that occurs once, in the order of
      first occurrence. */
  lemma KeyOrderMeaning(rows: seq<Record>)
    ensures KeyOrder(rows) == Dedup(CategoryColumn(rows))
    ensures NoDup(KeyOrder(rows))
    ensures forall c :: c in KeyOrder(rows) <==> c in CategoryCounts(rows)
  {
    OrderIsDedup(rows, |rows|);
    assert rows[..|rows|] == rows;
    KeysFollowOrder(rows, |rows|);
  }

  lemma {:induction false} SumOverSnoc(counts: map<string, nat>, keys: seq<string>, k: string)
    ensures SumOver(counts, keys + [k]) == SumOver(counts, keys) + (if k in counts then counts[k] else 0)
  {
    if keys != [] {
      assert (keys + [k])[1..] == keys[1..] + [k];
      SumOverSnoc(counts, keys[1..], k);
    }
  }

  lemma {:induction false} SumOverAbsent(counts: map<string, nat>, keys: seq<string>, k: string, v: nat)
    requires k !in keys
    ensures SumOver(counts[k := v], keys) == SumOver(counts, keys)
  {
    if keys != [] {
      SumOverAbsent(counts, keys[1..], k, v);
    }
  }

  lemma {:induction false} SumOverUpdate(counts: map<string, nat>, keys: seq<string>, k: string, v: nat)
    requires NoDup(keys) && k in keys && k in counts
    ensures SumOver(counts[k := v], keys) == SumOver(counts, keys) - counts[k] + v
  {
    assert NoDup(keys[1..]) by {
      forall i, j | 0 <= i < j < |keys[1..]| ensures keys[1..][i] != keys[1..][j] {
        assert keys[1..][i] == keys[i + 1] && keys[1..][j] == keys[j + 1];
      }
    }
    if keys[0] == k {
      assert k !in keys[1..] by {
        forall i | 0 <= i < |keys[1..]| ensures keys[1..][i] != k {
          assert keys[1..][i] == keys[i + 1];
        }
      }
      SumOverAbsent(counts, keys[1..], k, v);
    } else {
      SumOverUpdate(counts, keys[1..], k, v);
    }
  }
}
