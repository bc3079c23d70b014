/** The read-only queries the analysis scripts run on `df`, each written once over the
    columns and instantiated by every script with its own column names and sizes. */
module Queries {
  import opened Wrappers
  import Text
  import Ranking
  import Grouping
  import Binning
  import opened Frame

  /** Row `i` has a value in every listed column: what `[names].dropna()` keeps. */
  function Shown(cols: Columns, names: seq<string>): nat -> bool
  {
    (i: nat) => forall k :: 0 <= k < |names| ==> names[k] in cols && i < |cols[names[k]]| && !cols[names[k]][i].NA?
  }

  /** `df.nlargest(n, col)[shown].dropna()`: exactly the rows of `nlargest(n)` with every
      shown column present, largest `col` first, earlier row first among equals; when no
      more than `n` rows have a `col` value, every such complete row is there. */
  function TopRows(cols: Columns, n: nat, col: string, shown: seq<string>): (r: seq<nat>)
    requires col in cols
    ensures |r| <= n
    ensures forall k :: 0 <= k < |r| ==> r[k] < |cols[col]| && cols[col][r[k]].Num? && Shown(cols, shown)(r[k])
    ensures forall i, j :: 0 <= i < j < |r| ==> cols[col][r[i]].x >= cols[col][r[j]].x
    ensures forall i, j :: 0 <= i < j < |r| && cols[col][r[i]] == cols[col][r[j]] ==> r[i] < r[j]
    ensures |Ranking.PresentRows(Numbers(cols[col]))| <= n ==>
              forall i :: 0 <= i < |cols[col]| && cols[col][i].Num? && Shown(cols, shown)(i) ==> i in r
    ensures forall i :: i in r <==>
              i in Ranking.NLargest(Numbers(cols[col]), n) && i < |cols[col]| && cols[col][i].Num? && Shown(cols, shown)(i)
  {
    var vals := Numbers(cols[col]);
    var r := Ranking.TopKept(vals, Shown(cols, shown), n);
    assert forall i :: 0 <= i < |cols[col]| ==> (vals[i].Some? <==> cols[col][i].Num?);
    assert forall k :: 0 <= k < |r| ==> cols[col][r[k]].Num? && vals[r[k]].value == cols[col][r[k]].x;
    r
  }

  /** The facts `nlargest` and `nsmallest` give over `Numbers(c)`, read on the cells. */
  lemma CellRows(c: seq<Cell>, r: seq<nat>, n: nat)
    requires |r| == Min(n, |c|)
    requires forall k :: 0 <= k < |r| ==>
               r[k] < |c| && (Numbers(c)[r[k]].Some? <==> k < |Ranking.PresentRows(Numbers(c))|)
    requires forall i, j :: 0 <= i < j < |r| && Numbers(c)[r[i]] == Numbers(c)[r[j]] ==> r[i] < r[j]
    requires |Ranking.PresentRows(Numbers(c))| <= n ==> forall i :: 0 <= i < |c| && Numbers(c)[i].Some? ==> i in r
    ensures forall k :: 0 <= k < |r| ==>
              r[k] < |c| && (c[r[k]].Num? <==> k < |Ranking.PresentRows(Numbers(c))|)
    ensures forall i, j :: 0 <= i < j < |r| && c[r[j]].Num? ==> c[r[i]].Num?
    ensures forall i, j :: 0 <= i < j < |r| && c[r[i]] == c[r[j]] ==> r[i] < r[j]
    ensures forall i, j :: 0 <= i < j < |r| && !c[r[i]].Num? ==> r[i] < r[j]
    ensures |Ranking.PresentRows(Numbers(c))| <= n ==> forall i :: 0 <= i < |c| && c[i].Num? ==> i in r
  {
    var vals := Numbers(c);
    forall i, j | 0 <= i < j < |r| && !c[r[i]].Num? ensures r[i] < r[j] {
      assert vals[r[i]] == None == vals[r[j]];
    }
    forall i, j | 0 <= i < j < |r| && c[r[i]] == c[r[j]] ensures r[i] < r[j] {
      assert vals[r[i]] == vals[r[j]];
    }
  }

  /** The rows without a number that `r` keeps come before every such row it leaves out: the
      padding `nlargest` and `nsmallest` take is the first of those rows in frame order. */
  predicate NumberlessFirst(c: seq<Cell>, r: seq<nat>)
  {
    forall j :: 0 <= j < |c| && !c[j].Num? && j !in r ==>
      forall k :: 0 <= k < |r| && r[k] < |c| && !c[r[k]].Num? ==> r[k] < j
  }

  /** The padding fact of `nlargest` and `nsmallest`, read on the cells: the rows without a
      number that are kept come before every one left out. */
  lemma CellPadding(c: seq<Cell>, r: seq<nat>)
    requires forall k :: 0 <= k < |r| ==> r[k] < |c|
    requires Ranking.MissingFirst(Numbers(c), r)
    ensures NumberlessFirst(c, r)
  {
    var vals := Numbers(c);
    forall j, k | 0 <= j < |c| && !c[j].Num? && j !in r && 0 <= k < |r| && !c[r[k]].Num?
      ensures r[k] < j
    {
      assert vals[j].None? && vals[r[k]].None?;
    }
  }

  /** `df.nlargest(n, col)`: `min(n, rows)` rows; the rows with a number first, largest first,
      earlier row first among equals; when fewer than n rows have a number, the first rows
      without one follow in frame order. */
  function Largest(cols: Columns, n: nat, col: string): (r: seq<nat>)
    requires col in cols
    ensures |r| == Min(n, |cols[col]|)
    ensures forall k :: 0 <= k < |r| ==>
              r[k] < |cols[col]| && (cols[col][r[k]].Num? <==> k < |Ranking.PresentRows(Numbers(cols[col]))|)
    ensures forall i, j :: 0 <= i < j < |r| && cols[col][r[j]].Num? ==>
              cols[col][r[i]].Num? && cols[col][r[i]].x >= cols[col][r[j]].x
    ensures forall i, j :: 0 <= i < j < |r| && cols[col][r[i]] == cols[col][r[j]] ==> r[i] < r[j]
    ensures forall i, j :: 0 <= i < j < |r| && !cols[col][r[i]].Num? ==> r[i] < r[j]
    ensures |Ranking.PresentRows(Numbers(cols[col]))| <= n ==> forall i :: 0 <= i < |cols[col]| && cols[col][i].Num? ==> i in r
    ensures |cols[col]| <= n ==> forall i :: 0 <= i < |cols[col]| ==> i in r
    ensures NumberlessFirst(cols[col], r)
  {
    var vals := Numbers(cols[col]);
    var r := Ranking.NLargest(vals, n);
    CellRows(cols[col], r, n);
    CellPadding(cols[col], r);
    assert forall k :: 0 <= k < |r| && vals[r[k]].Some? ==> vals[r[k]].value == cols[col][r[k]].x;
    r
  }

  /** A complete row that the top rows leave out has a `col` value no larger than any kept
      row's, and comes after each kept row of the same value. */
  lemma TopRowsTop(cols: Columns, n: nat, col: string, shown: seq<string>, j: nat)
    requires col in cols && j < |cols[col]| && cols[col][j].Num? && Shown(cols, shown)(j)
    requires j !in TopRows(cols, n, col, shown)
    ensures forall k :: 0 <= k < |TopRows(cols, n, col, shown)| ==>
              var top := TopRows(cols, n, col, shown)[k];
              cols[col][top].Num? && cols[col][j].x <= cols[col][top].x && (cols[col][j].x == cols[col][top].x ==> top < j)
  {
    var vals := Numbers(cols[col]);
    var r := TopRows(cols, n, col, shown);
    Ranking.NLargestTop(vals, n, j);
    forall k | 0 <= k < |r|
      ensures cols[col][r[k]].Num? && cols[col][j].x <= cols[col][r[k]].x && (cols[col][j].x == cols[col][r[k]].x ==> r[k] < j)
    {
      assert r[k] in Ranking.NLargest(vals, n);
      var q :| 0 <= q < |Ranking.NLargest(vals, n)| && Ranking.NLargest(vals, n)[q] == r[k];
    }
  }

  /** A row with a `col` value that `nlargest` leaves out is no larger than any kept row, and
      comes after each kept row of the same value. */
  lemma LargestTop(cols: Columns, n: nat, col: string, j: nat)
    requires col in cols && j < |cols[col]| && cols[col][j].Num? && j !in Largest(cols, n, col)
    ensures forall k :: 0 <= k < |Largest(cols, n, col)| ==>
              var top := Largest(cols, n, col)[k];
              cols[col][top].Num? && cols[col][j].x <= cols[col][top].x && (cols[col][j].x == cols[col][top].x ==> top < j)
  {
    Ranking.NLargestTop(Numbers(cols[col]), n, j);
  }

  /** `df.nsmallest(n, col)`: `min(n, rows)` rows; the rows with a number first, smallest
      first, earlier row first among equals; when fewer than n rows have a number, the first
      rows without one follow in frame order. */
  function Smallest(cols: Columns, n: nat, col: string): (r: seq<nat>)
    requires col in cols
    ensures |r| == Min(n, |cols[col]|)
    ensures forall k :: 0 <= k < |r| ==>
              r[k] < |cols[col]| && (cols[col][r[k]].Num? <==> k < |Ranking.PresentRows(Numbers(cols[col]))|)
    ensures forall i, j :: 0 <= i < j < |r| && cols[col][r[j]].Num? ==>
              cols[col][r[i]].Num? && cols[col][r[i]].x <= cols[col][r[j]].x
    ensures forall i, j :: 0 <= i < j < |r| && cols[col][r[i]] == cols[col][r[j]] ==> r[i] < r[j]
    ensures forall i, j :: 0 <= i < j < |r| && !cols[col][r[i]].Num? ==> r[i] < r[j]
    ensures |Ranking.PresentRows(Numbers(cols[col]))| <= n ==> forall i :: 0 <= i < |cols[col]| && cols[col][i].Num? ==> i in r
    ensures |cols[col]| <= n ==> forall i :: 0 <= i < |cols[col]| ==> i in r
    ensures NumberlessFirst(cols[col], r)
  {
    var vals := Numbers(cols[col]);
    var r := Ranking.NSmallest(vals, n);
    CellRows(cols[col], r, n);
    CellPadding(cols[col], r);
    assert forall k :: 0 <= k < |r| && vals[r[k]].Some? ==> vals[r[k]].value == cols[col][r[k]].x;
    r
  }

  /** A row with a `col` value that `nsmallest` leaves out is no smaller than any kept row,
      and comes after each kept row of the same value. */
  lemma SmallestBottom(cols: Columns, n: nat, col: string, j: nat)
    requires col in cols && j < |cols[col]| && cols[col][j].Num? && j !in Smallest(cols, n, col)
    ensures forall k :: 0 <= k < |Smallest(cols, n, col)| ==>
              var bottom := Smallest(cols, n, col)[k];
              cols[col][bottom].Num? && cols[col][j].x >= cols[col][bottom].x && (cols[col][j].x == cols[col][bottom].x ==> bottom < j)
  {
    Ranking.NSmallestBottom(Numbers(cols[col]), n, j);
  }

  /** `df[col].idxmax()`: the first row holding the largest value; `None` when the column has
      no value (where pandas raises). */
  function MostBy(cols: Columns, col: string): (r: Option<nat>)
    requires col in cols
    ensures r.None? <==> forall i :: 0 <= i < |cols[col]| ==> !cols[col][i].Num?
    ensures r.Some? ==> r.value < |cols[col]| && cols[col][r.value].Num?
    ensures r.Some? ==> forall i :: 0 <= i < |cols[col]| && cols[col][i].Num? ==> cols[col][i].x <= cols[col][r.value].x
    ensures r.Some? ==> forall i :: 0 <= i < r.value && cols[col][i].Num? ==> cols[col][i].x < cols[col][r.value].x
  {
    var vals := Numbers(cols[col]);
    var r := Ranking.IdxMax(vals);
    assert forall i :: 0 <= i < |cols[col]| ==> (vals[i].Some? <==> cols[col][i].Num?);
    r
  }

  /** `idxmax` names the row `nlargest` puts first. */
  lemma MostByHeadsLargest(cols: Columns, col: string, n: nat)
    requires col in cols && n >= 1
    ensures MostBy(cols, col).None? <==> Largest(cols, n, col) == [] || !cols[col][Largest(cols, n, col)[0]].Num?
    ensures MostBy(cols, col).Some? ==> Largest(cols, n, col) != [] && Largest(cols, n, col)[0] == MostBy(cols, col).value
  {
    Ranking.IdxMaxHeadsNLargest(Numbers(cols[col]), n);
  }

  /** The `year` of each row, kept only when present and at least `since` (when given):
      `df[df["year"] >= since]["year"]`. */
  function YearKeys(cols: Columns, since: Option<real>): (keys: seq<Option<real>>)
    requires Year in cols
    ensures |keys| == |cols[Year]|
    ensures forall i :: 0 <= i < |keys| ==>
              (keys[i].Some? <==> cols[Year][i].Num? && (since.Some? ==> cols[Year][i].x >= since.value))
    ensures forall i :: 0 <= i < |keys| && keys[i].Some? ==> keys[i].value == cols[Year][i].x
  {
    var col := cols[Year];
    seq(|col|, i requires 0 <= i < |col| =>
      if col[i].Num? && (since.None? || col[i].x >= since.value) then Some(col[i].x) else None)
  }

  /** `...["year"].value_counts().sort_index()`: years ascending, each with its number of
      rows; the counts add up to the rows kept. */
  function YearCounts(cols: Columns, since: Option<real>): (r: seq<Grouping.Acc<real>>)
    requires Year in cols
    ensures Grouping.Tallies(YearKeys(cols, since), Grouping.Nones(|cols[Year]|), r)
    ensures forall i, j :: 0 <= i < j < |r| ==> r[i].key < r[j].key
    ensures Ranking.Total(r, Grouping.RowsOf) == Grouping.RowsWithKey(YearKeys(cols, since)) as real
    ensures forall j :: 0 <= j < |r| ==> since.Some? ==> r[j].key >= since.value
    ensures forall j :: 0 <= j < |r| ==> exists i :: 0 <= i < |cols[Year]| && cols[Year][i] == Num(r[j].key)
  {
    var keys := YearKeys(cols, since);
    Grouping.NumericKeysAscending(keys, Grouping.Nones(|keys|));
    var r := Grouping.ByKey(keys, Grouping.Nones(|keys|), Grouping.Identity);
    var col := cols[Year];
    assert forall j :: 0 <= j < |r| ==>
             (since.Some? ==> r[j].key >= since.value) && exists i :: 0 <= i < |col| && col[i] == Num(r[j].key) by {
      forall j | 0 <= j < |r|
        ensures since.Some? ==> r[j].key >= since.value
        ensures exists i :: 0 <= i < |col| && col[i] == Num(r[j].key)
      {
        var i := Grouping.RowsWhereWitness(keys, r[j].key);
        assert keys[i] == Some(r[j].key);
        assert col[i] == Num(r[j].key);
      }
    }
    r
  }

  /** Every year counted from `since` on is at least `since`. */
  lemma YearCountsSince(cols: Columns, since: real)
    requires Year in cols
    ensures forall j :: 0 <= j < |YearCounts(cols, Some(since))| ==> YearCounts(cols, Some(since))[j].key >= since
  {
  }

  /** `df.sort_values(by="releaseDate", ascending=False).head(n)`: the `n` latest rows, latest
      first, rows without a date after all dated rows; when fewer than `n` rows are dated, the
      first undated rows in frame order fill the head. */
  function Recent(cols: Columns, n: nat): (r: seq<nat>)
    requires ReleaseDate in cols
    ensures |r| == Min(n, |cols[ReleaseDate]|)
    ensures forall k :: 0 <= k < |r| ==> r[k] < |cols[ReleaseDate]|
    ensures forall i, j :: 0 <= i < j < |r| ==> r[i] != r[j]
    ensures forall i, j :: 0 <= i < j < |r| && cols[ReleaseDate][r[j]].When? ==>
              cols[ReleaseDate][r[i]].When? &&
              Parsing.DateKey(cols[ReleaseDate][r[i]].d) >= Parsing.DateKey(cols[ReleaseDate][r[j]].d)
    ensures forall i :: 0 <= i < |cols[ReleaseDate]| && i !in r && cols[ReleaseDate][i].When? ==>
              forall k :: 0 <= k < |r| ==>
                cols[ReleaseDate][r[k]].When? &&
                Parsing.DateKey(cols[ReleaseDate][r[k]].d) >= Parsing.DateKey(cols[ReleaseDate][i].d)
    ensures forall i :: 0 <= i < |cols[ReleaseDate]| && i !in r && !cols[ReleaseDate][i].When? ==>
              forall k :: 0 <= k < |r| && !cols[ReleaseDate][r[k]].When? ==> r[k] < i
  {
    var keys := DateKeys(cols[ReleaseDate]);
    var sorted := Ranking.SortRowsDesc(keys);
    assert Ranking.Distinct(Ranking.AllRows(|keys|));
    Ranking.SortDescDistinct(Ranking.AllRows(|keys|), Ranking.At(keys));
    var r := Ranking.Head(sorted, n);
    RecentLatest(keys, sorted, r);
    RecentUndated(keys, sorted, r);
    r
  }

  /** A dated row outside the head of the sorted rows is no later than any row in it. */
  lemma RecentLatest(keys: seq<Option<real>>, sorted: seq<nat>, r: seq<nat>)
    requires sorted == Ranking.SortRowsDesc(keys) && |r| <= |sorted| && r == sorted[..|r|]
    ensures forall i :: 0 <= i < |keys| && i !in r && keys[i].Some? ==>
              forall k :: 0 <= k < |r| ==> keys[r[k]].Some? && keys[r[k]].value >= keys[i].value
  {
    forall i, k | 0 <= i < |keys| && i !in r && keys[i].Some? && 0 <= k < |r|
      ensures keys[r[k]].Some? && keys[r[k]].value >= keys[i].value
    {
      assert Ranking.AllRows(|keys|)[i] == i;
      assert i in multiset(Ranking.AllRows(|keys|));
      assert sorted == r + sorted[|r|..];
      assert i in sorted[|r|..];
      var q :| 0 <= q < |sorted| - |r| && sorted[|r|..][q] == i;
      assert sorted[|r| + q] == i;
      assert r[k] == sorted[k];
    }
  }

  /** An undated row outside the head of the sorted rows comes after every undated row in
      it. */
  lemma RecentUndated(keys: seq<Option<real>>, sorted: seq<nat>, r: seq<nat>)
    requires sorted == Ranking.SortRowsDesc(keys) && |r| <= |sorted| && r == sorted[..|r|]
    ensures forall i :: 0 <= i < |keys| && i !in r && keys[i].None? ==>
              forall k :: 0 <= k < |r| && keys[r[k]].None? ==> r[k] < i
  {
    forall i, k | 0 <= i < |keys| && i !in r && keys[i].None? && 0 <= k < |r| && keys[r[k]].None?
      ensures r[k] < i
    {
      assert Ranking.AllRows(|keys|)[i] == i;
      assert i in multiset(Ranking.AllRows(|keys|));
      assert sorted == r + sorted[|r|..];
      assert i in sorted[|r|..];
      var q :| 0 <= q < |sorted| - |r| && sorted[|r|..][q] == i;
      assert sorted[|r| + q] == i;
      assert r[k] == sorted[k];
    }
  }

  /** `df[name].value_counts()` of a text column: one entry per distinct text, most frequent
      first; missing values are not counted, so the counts add up to the rows with text. */
  function Counts(cols: Columns, name: string): (r: seq<Grouping.Acc<string>>)
    requires name in cols
    ensures Grouping.Tallies(Texts(cols[name]), Grouping.Nones(|cols[name]|), r)
    ensures forall i, j :: 0 <= i < j < |r| ==> r[i].rows >= r[j].rows
    ensures Ranking.Total(r, Grouping.RowsOf) == Grouping.RowsWithKey(Texts(cols[name])) as real
  {
    Grouping.ValueCounts(Texts(cols[name]))
  }

  /** `rows["genres"].str.split("|").str[0]` on the given rows: the text before the first
      '|' of each row's genres, missing where the genres are not text. */
  function MainGenres(cols: Columns, rows: seq<nat>): (r: seq<Cell>)
    requires Genres in cols
    ensures |r| == |rows|
    ensures forall k :: 0 <= k < |rows| ==>
              (r[k].Str? <==> rows[k] < |cols[Genres]| && cols[Genres][rows[k]].Str?) && (r[k].Str? || r[k].NA?)
    ensures forall k :: 0 <= k < |rows| && r[k].Str? ==>
              r[k].s == Text.FirstSegment(cols[Genres][rows[k]].s, Text.Bar)
  {
    var g := cols[Genres];
    seq(|rows|, k requires 0 <= k < |rows| =>
      if rows[k] < |g| && g[rows[k]].Str? then Str(Text.FirstSegment(g[rows[k]].s, Text.Bar)) else NA)
  }

  /** `df.explode("genres").groupby("genres")[val].sum().sort_values(ascending=False)`, with
      `genres` holding lists: one entry per genre, largest sum first; the sum of a genre is
      the sum of `val` over the rows listing it, each row counted once per listing, missing
      values skipped (0 for a genre with none). */
  function GenreSums(cols: Columns, val: string): (r: seq<Grouping.Acc<string>>)
    requires Genres in cols && val in cols && |cols[Genres]| == |cols[val]|
    ensures forall j :: 0 <= j < |r| ==>
              r[j].sum == Grouping.ListSum(Lists(cols[Genres]), Numbers(cols[val]), r[j].key)
    ensures forall i, j :: 0 <= i < j < |r| ==> r[i].sum >= r[j].sum
    ensures forall i :: 0 <= i < |cols[Genres]| ==>
              forall g :: g in ListOf(cols[Genres][i]) ==> Grouping.KeyIn(r, g)
    ensures Grouping.DistinctKeys(r)
    ensures forall j :: 0 <= j < |r| ==> exists i :: 0 <= i < |cols[Genres]| && r[j].key in ListOf(cols[Genres][i])
  {
    var lists, vals := Lists(cols[Genres]), Numbers(cols[val]);
    Grouping.ExplodeShape(lists, vals);
    var keys, xvals := Grouping.ExplodeKeys(lists), Grouping.ExplodeVals(lists, vals);
    var r := Grouping.SumsDesc(keys, xvals);
    forall j | 0 <= j < |r| ensures r[j].sum == Grouping.ListSum(lists, vals, r[j].key) {
      Grouping.ExplodedSum(lists, vals, r[j].key);
    }
    forall i, g | 0 <= i < |lists| && g in lists[i] ensures Grouping.KeyIn(r, g) {
      var m := Grouping.ExplodedKeyPresent(lists, i, g);
    }
    Grouping.ExplodeCopies(lists, vals);
    forall j | 0 <= j < |r| ensures exists i :: 0 <= i < |lists| && r[j].key in lists[i] {
      var m := Grouping.RowsWhereWitness(keys, r[j].key);
      var i := Grouping.ExplodeRows(lists)[m];
      assert i < |lists| && r[j].key in lists[i];
    }
    r
  }

  /** `df.groupby(key)[val].mean()` (or `.sort_index()`) over a numeric key: keys ascending;
      rows with a missing key are dropped and missing values skipped. */
  function MeansByNumber(cols: Columns, key: string, val: string): (r: seq<Grouping.Acc<real>>)
    requires key in cols && val in cols && |cols[key]| == |cols[val]|
    ensures Grouping.Tallies(Numbers(cols[key]), Numbers(cols[val]), r)
    ensures forall i, j :: 0 <= i < j < |r| ==> r[i].key < r[j].key
    ensures forall j :: 0 <= j < |r| ==> exists i :: 0 <= i < |cols[key]| && cols[key][i] == Num(r[j].key)
  {
    Grouping.NumericKeysAscending(Numbers(cols[key]), Numbers(cols[val]));
    var r := Grouping.ByKey(Numbers(cols[key]), Numbers(cols[val]), Grouping.Identity);
    KeysOccur(cols[key], Numbers(cols[val]), r);
    r
  }

  /** Every group key is the value of some row. */
  lemma KeysOccur(col: seq<Cell>, vals: seq<Option<real>>, r: seq<Grouping.Acc<real>>)
    requires |col| == |vals| && Grouping.Tallies(Numbers(col), vals, r)
    ensures forall j :: 0 <= j < |r| ==> exists i :: 0 <= i < |col| && col[i] == Num(r[j].key)
  {
    forall j | 0 <= j < |r| ensures exists i :: 0 <= i < |col| && col[i] == Num(r[j].key) {
      var i := Grouping.RowsWhereWitness(Numbers(col), r[j].key);
      assert NumberOf(col[i]) == Some(r[j].key);
      assert 0 <= i < |col| && col[i] == Num(r[j].key);
    }
    assert forall j :: 0 <= j < |r| ==> exists i :: 0 <= i < |col| && col[i] == Num(r[j].key);
  }

  /** `df.groupby(key)[val].mean().sort_values(ascending=False)`: largest mean first, groups
      without any value last. */
  function MeansDescBy(cols: Columns, key: string, val: string): (r: seq<Grouping.Acc<real>>)
    requires key in cols && val in cols && |cols[key]| == |cols[val]|
    ensures Grouping.Tallies(Numbers(cols[key]), Numbers(cols[val]), r)
    ensures forall i, j :: 0 <= i < j < |r| && Grouping.Mean(r[j]).Some? ==>
              Grouping.Mean(r[i]).Some? && Grouping.Mean(r[i]).value >= Grouping.Mean(r[j]).value
    ensures forall j :: 0 <= j < |r| ==> exists i :: 0 <= i < |cols[key]| && cols[key][i] == Num(r[j].key)
  {
    var r := Grouping.MeansDesc(Numbers(cols[key]), Numbers(cols[val]));
    KeysOccur(cols[key], Numbers(cols[val]), r);
    r
  }

  /** `df.groupby(range)[val].mean()` over a `pd.cut` column: one mean per label. */
  function MeansByRange(cols: Columns, range: string, val: string): (r: seq<Option<real>>)
    requires range in cols && val in cols && |cols[range]| == |cols[val]|
    ensures |r| == |Binning.Labels|
    ensures forall c :: 0 <= c < |Binning.Labels| ==> Binning.MeanOf(Codes(cols[range]), Numbers(cols[val]), c, r[c])
  {
    Binning.RangeMeans(Codes(cols[range]), Numbers(cols[val]))
  }

  /** `df.groupby(flag)[val].mean()`: at most the two groups `False`, `True`, in that order. */
  function MeansByFlag(cols: Columns, key: string, val: string): (r: seq<Grouping.Acc<bool>>)
    requires key in cols && val in cols && |cols[key]| == |cols[val]|
    ensures Grouping.Tallies(Flags(cols[key]), Numbers(cols[val]), r)
    ensures |r| <= 2 && (|r| == 2 ==> !r[0].key && r[1].key)
  {
    Grouping.FlagGroups(Flags(cols[key]), Numbers(cols[val]));
    Grouping.ByKey(Flags(cols[key]), Numbers(cols[val]), Grouping.FlagRank)
  }

  /** The pair key of two flag columns, missing when either flag is. */
  function FlagPairs(a: seq<Cell>, b: seq<Cell>): (r: seq<Option<(bool, bool)>>)
    requires |a| == |b|
    ensures |r| == |a|
    ensures forall i :: 0 <= i < |a| ==> (r[i].Some? <==> a[i].Flag? && b[i].Flag?)
    ensures forall i :: 0 <= i < |a| && r[i].Some? ==> r[i].value == (a[i].b, b[i].b)
  {
    seq(|a|, i requires 0 <= i < |a| => if a[i].Flag? && b[i].Flag? then Some((a[i].b, b[i].b)) else None)
  }

  /** `df.groupby([k1, k2])[val].mean()`: at most four groups, in lexicographic order. */
  function MeansByFlagPair(cols: Columns, k1: string, k2: string, val: string): (r: seq<Grouping.Acc<(bool, bool)>>)
    requires k1 in cols && k2 in cols && val in cols
    requires |cols[k1]| == |cols[k2]| == |cols[val]|
    ensures Grouping.Tallies(FlagPairs(cols[k1], cols[k2]), Numbers(cols[val]), r)
    ensures |r| <= 4
    ensures forall i, j :: 0 <= i < j < |r| ==> Grouping.FlagPairRank(r[i].key) < Grouping.FlagPairRank(r[j].key)
  {
    var keys := FlagPairs(cols[k1], cols[k2]);
    Grouping.FlagPairGroups(keys, Numbers(cols[val]));
    Grouping.ByKey(keys, Numbers(cols[val]), Grouping.FlagPairRank)
  }

  /** The director of each of the given rows, shortened to at most 30 characters. */
  function ShortDirectors(cols: Columns, rows: seq<nat>): (r: seq<Option<string>>)
    requires Director in cols
    ensures |r| == |rows|
    ensures forall k :: 0 <= k < |rows| ==>
              (r[k].Some? <==> rows[k] < |cols[Director]| && cols[Director][rows[k]].Str?)
    ensures forall k :: 0 <= k < |rows| && r[k].Some? ==>
              |r[k].value| <= 30 && r[k].value == Text.Truncate(cols[Director][rows[k]].s)
  {
    var d := cols[Director];
    seq(|rows|, k requires 0 <= k < |rows| =>
      if rows[k] < |d| && d[rows[k]].Str? then Some(Text.Truncate(d[rows[k]].s)) else None)
  }

  /** The rows lines 325–331 keep: the `n` best rated with title, rating and director. */
  function TopRated(cols: Columns, n: nat): seq<nat>
    requires VoteAvg in cols
  {
    TopRows(cols, n, VoteAvg, [Title, VoteAvg, Director])
  }

  /** Lines 325–331: the `n` best-rated rows with title and director, their directors
      shortened, and the count per director: exactly the groups of those shortened names,
      most frequent first, the counts adding up to the kept rows with a director. */
  function DirectorCounts(cols: Columns, n: nat): (r: seq<Grouping.Acc<string>>)
    requires VoteAvg in cols && Director in cols
    ensures Grouping.Tallies(ShortDirectors(cols, TopRated(cols, n)), Grouping.Nones(|TopRated(cols, n)|), r)
    ensures forall j :: 0 <= j < |r| ==> |r[j].key| <= 30 && r[j].rows > 0
    ensures forall i, j :: 0 <= i < j < |r| ==> r[i].rows >= r[j].rows
    ensures Ranking.Total(r, Grouping.RowsOf) == Grouping.RowsWithKey(ShortDirectors(cols, TopRated(cols, n))) as real
    ensures Ranking.Total(r, Grouping.RowsOf) <= |TopRated(cols, n)| as real <= n as real
  {
    var top := TopRated(cols, n);
    var names := ShortDirectors(cols, top);
    var r := Grouping.ValueCounts(names);
    Grouping.RowsWithKeyBound(names);
    forall j | 0 <= j < |r| ensures |r[j].key| <= 30 {
      DirectorKeyShort(names, r[j].key);
    }
    r
  }

  lemma DirectorKeyShort(names: seq<Option<string>>, key: string)
    requires forall k :: 0 <= k < |names| && names[k].Some? ==> |names[k].value| <= 30
    requires Grouping.RowsWhere(names, key) > 0
    ensures |key| <= 30
  {
    var k := Grouping.RowsWhereWitness(names, key);
  }

  /** The month of each of the given rows. */
  function MonthsOf(cols: Columns, rows: seq<nat>): (r: seq<Option<real>>)
    requires Month in cols
    ensures |r| == |rows|
    ensures forall k :: 0 <= k < |rows| ==> r[k] == if rows[k] < |cols[Month]| then NumberOf(cols[Month][rows[k]]) else None
  {
    seq(|rows|, k requires 0 <= k < |rows| => if rows[k] < |cols[Month]| then NumberOf(cols[Month][rows[k]]) else None)
  }

  /** Row `i` has a month: what `dropna(subset=["month"])` keeps. */
  function HasMonth(cols: Columns): nat -> bool
  {
    (i: nat) => Month in cols && i < |cols[Month]| && cols[Month][i].Num?
  }

  /** `df.nlargest(n, col).dropna(subset=["month"])`: the top rows that have a month. */
  function TopWithMonth(cols: Columns, n: nat, col: string): (r: seq<nat>)
    requires col in cols
    ensures |r| <= n
    ensures forall k :: 0 <= k < |r| ==> HasMonth(cols)(r[k])
    ensures forall i :: i in r <==> i in Largest(cols, n, col) && HasMonth(cols)(i)
  {
    var r := Ranking.Filter(Largest(cols, n, col), HasMonth(cols));
    assert forall k :: 0 <= k < |r| ==> r[k] in r;
    r
  }

  /** The months of rows that all have one are all present. */
  lemma MonthsPresent(cols: Columns, kept: seq<nat>)
    requires Month in cols && forall k :: 0 <= k < |kept| ==> HasMonth(cols)(kept[k])
    ensures Grouping.RowsWithKey(MonthsOf(cols, kept)) == |kept|
  {
    Grouping.RowsWithKeyBound(MonthsOf(cols, kept));
  }

  /** Every month counted is the month of some row. */
  lemma MonthKeysOccur(cols: Columns, kept: seq<nat>, r: seq<Grouping.Acc<real>>)
    requires Month in cols && Grouping.Tallies(MonthsOf(cols, kept), Grouping.Nones(|kept|), r)
    ensures forall j :: 0 <= j < |r| ==> Num(r[j].key) in cols[Month]
  {
    var months := MonthsOf(cols, kept);
    forall j | 0 <= j < |r| ensures Num(r[j].key) in cols[Month] {
      var k := Grouping.RowsWhereWitness(months, r[j].key);
      assert kept[k] < |cols[Month]| && cols[Month][kept[k]] == Num(r[j].key);
    }
  }

  /** `df.nlargest(n, col).dropna(subset=["month"])["month"].value_counts()`: exactly the
      groups of the months of the top rows that have one, most frequent first; the counts add
      up to the number of those rows, at most `n`. */
  function TopMonthCounts(cols: Columns, n: nat, col: string): (r: seq<Grouping.Acc<real>>)
    requires col in cols && Month in cols
    ensures Grouping.Tallies(MonthsOf(cols, TopWithMonth(cols, n, col)), Grouping.Nones(|TopWithMonth(cols, n, col)|), r)
    ensures Ranking.Total(r, Grouping.RowsOf) == |TopWithMonth(cols, n, col)| as real
    ensures forall j :: 0 <= j < |r| ==> r[j].rows > 0
    ensures forall i, j :: 0 <= i < j < |r| ==> r[i].rows >= r[j].rows
    ensures Ranking.Total(r, Grouping.RowsOf) <= n as real
    ensures forall j :: 0 <= j < |r| ==> Num(r[j].key) in cols[Month]
  {
    var kept := TopWithMonth(cols, n, col);
    var months := MonthsOf(cols, kept);
    MonthsPresent(cols, kept);
    var r := Grouping.ValueCounts(months);
    assert forall j :: 0 <= j < |r| ==> Num(r[j].key) in cols[Month] by {
      MonthKeysOccur(cols, kept, r);
    }
    r
  }
}
