/** `src/raw_ejercicios/impares.py`: the first draft of the odd-numbered questions (a), (c),
    (e), (g), (i), (k), (m) and (o). Like the full analysis it prepares the table and adds
    the millions columns, but it splits the genres without taking the main genre first. */
module RawImpares {
  import opened Wrappers
  import opened Frame
  import Grouping
  import Queries
  import Sections
  import Ranking

  /** The columns of the csv the script reads. */
  ghost predicate Input(cols: Columns)
  {
    && Loaded(cols)
    && VoteCount in cols && Popularity in cols && CastWomen in cols && CastMen in cols
    && Genres in cols && Title in cols && HomePage in cols && Video in cols
  }

  /** The columns the queries read once the table is prepared. */
  ghost predicate Working(cols: Columns)
  {
    && Budget in cols && Revenue in cols && VoteCount in cols && Popularity in cols
    && CastWomen in cols && CastMen in cols && ReleaseDate in cols && Genres in cols
    && Title in cols && HomePage in cols && Video in cols
    && Year in cols && Month in cols && Profit in cols
    && BudgetMillions in cols && RevenueMillions in cols && ProfitMillions in cols
  }

  /** The table after lines 13–34: prepared, with the three millions columns. */
  function Priced(cols: Columns): (r: Columns)
    requires Input(cols)
    ensures Working(r)
    ensures forall h: nat :: Rect(cols, h) ==> Rect(r, h)
  {
    WithMillions(Prepared(cols))
  }

  /** After lines 95–96 (`genres` as lists). */
  function Exploded(cols: Columns): (r: Columns)
    requires Input(cols)
    ensures Working(r)
    ensures forall h: nat :: Rect(cols, h) ==> Rect(r, h)
  {
    WithGenreLists(Priced(cols))
  }

  /** After lines 129–130 (the range columns); lines 219–220 leave it as it is. */
  function Ranged(cols: Columns): (r: Columns)
    requires Input(cols)
    ensures Working(r) && CastWomenRange in r && CastMenRange in r
    ensures forall h: nat :: Rect(cols, h) ==> Rect(r, h)
  {
    WithRanges(Exploded(cols))
  }

  /** After line 278: the table the script ends with. */
  function Final(cols: Columns): (r: Columns)
    requires Input(cols)
    ensures Working(r) && HasHomepage in r
    ensures forall h: nat :: Rect(cols, h) ==> Rect(r, h)
  {
    WithHomepage(Ranged(cols))
  }

  /** Lines 95 to 130 change neither the money columns nor their millions. */
  lemma MoneyKept(q: Columns)
    requires Working(q) && Genres in q && CastWomen in q && CastMen in q
    ensures Working(WithRanges(WithGenreLists(q)))
    ensures var g := WithRanges(WithGenreLists(q));
            && g[Budget] == q[Budget] && g[Revenue] == q[Revenue]
            && g[BudgetMillions] == q[BudgetMillions] && g[RevenueMillions] == q[RevenueMillions]
  {
  }

  /** Lines 219–220 recompute the millions columns from `budget` and `revenue`, which have
      not changed since lines 32–33: the table stays as it is. */
  lemma RecomputeIsNoOp(cols: Columns)
    requires Input(cols)
    ensures WithMoneyMillions(Ranged(cols)) == Ranged(cols)
  {
    var p, q := Prepared(cols), Priced(cols);
    assert q[BudgetMillions] == Millions(p[Budget]) && q[RevenueMillions] == Millions(p[Revenue]);
    assert q[Budget] == p[Budget] && q[Revenue] == p[Revenue];
    MoneyKept(q);
    RecomputeUnchanged(Ranged(cols));
  }

  /** Questions (a), (c) and (e): top budgets, the most voted film and the top 5, films per
      year since 1960. */
  datatype Rankings = Rankings(
    topBudget: seq<nat>,
    mostVoted: Option<nat>,
    topVoted: seq<nat>,
    perYear: seq<Grouping.Acc<real>>)

  function RankingsOf(p: Columns, h: nat): (r: Rankings)
    requires Rect(p, h) && Working(p)
    ensures |r.topBudget| <= 10 && |r.topVoted| <= 5
    ensures |r.topVoted| == Min(5, h) && forall k :: 0 <= k < |r.topVoted| ==> r.topVoted[k] < h
    ensures r.mostVoted.None? <==> r.topVoted == [] || !p[VoteCount][r.topVoted[0]].Num?
    ensures r.mostVoted.Some? ==> r.topVoted != [] && r.topVoted[0] == r.mostVoted.value
    ensures forall j :: 0 <= j < |r.perYear| ==> r.perYear[j].key >= 1960.0
  {
    Queries.MostByHeadsLargest(p, VoteCount, 5);
    Queries.YearCountsSince(p, 1960.0);
    Rankings(
      Queries.TopRows(p, 10, BudgetMillions, [Title, BudgetMillions]),
      Queries.MostBy(p, VoteCount),
      Queries.Largest(p, 5, VoteCount),
      Queries.YearCounts(p, Some(1960.0)))
  }

  /** Questions (m): mean revenue per month, highest first, and the months of the 50
      top-grossing films. */
  datatype Months = Months(
    revenueByMonth: seq<Grouping.Acc<real>>,
    topMonths: seq<Grouping.Acc<real>>)

  function MonthsOf(g: Columns, h: nat): (r: Months)
    requires Rect(g, h) && Working(g)
    ensures forall i, j :: 0 <= i < j < |r.revenueByMonth| && Grouping.Mean(r.revenueByMonth[j]).Some? ==>
              Grouping.Mean(r.revenueByMonth[i]).Some? &&
              Grouping.Mean(r.revenueByMonth[i]).value >= Grouping.Mean(r.revenueByMonth[j]).value
    ensures Ranking.Total(r.topMonths, Grouping.RowsOf) <= 50.0
    ensures forall j :: 0 <= j < |r.topMonths| ==> Num(r.topMonths[j].key) in g[Month]
  {
    Months(
      Queries.MeansDescBy(g, Month, RevenueMillions),
      Queries.TopMonthCounts(g, 50, RevenueMillions))
  }

  /** Everything the script computes. */
  datatype Report = Report(
    rankings: Rankings,
    genreProfit: seq<Grouping.Acc<string>>,
    cast: Sections.CastMeans,
    months: Months,
    marketing: Sections.Marketing)

  /** The results of the script on a table of `h` rows, each question asked of the table as
      it stands when the script asks it. */
  function Reported(cols: Columns, h: nat): (rep: Report)
    requires Rect(cols, h) && Input(cols)
    ensures rep.rankings.mostVoted.Some? ==>
              rep.rankings.topVoted != [] && rep.rankings.topVoted[0] == rep.rankings.mostVoted.value
    ensures Grouping.DistinctKeys(rep.genreProfit)
    ensures |rep.cast.womenPopularity| == |rep.cast.menPopularity| == 6
    ensures Ranking.Total(rep.months.topMonths, Grouping.RowsOf) <= 50.0
  {
    Report(
      RankingsOf(Priced(cols), h),
      Queries.GenreSums(Exploded(cols), ProfitMillions),
      Sections.CastMeansOf(Ranged(cols), h),
      MonthsOf(Ranged(cols), h),
      Sections.MarketingOf(Final(cols), h))
  }

  /** Lines 13–116: prepare the table, rank it, then the profit per genre. */
  method RunFirstHalf(f: MovieFrame) returns (rankings: Rankings, genreProfit: seq<Grouping.Acc<string>>)
    requires f.Valid() && Input(f.columns)
    modifies f
    ensures f.Valid() && f.height == old(f.height)
    ensures f.columns == Exploded(old(f.columns))
    ensures rankings == RankingsOf(Priced(old(f.columns)), f.height)
    ensures genreProfit == Queries.GenreSums(Exploded(old(f.columns)), ProfitMillions)
  {
    f.Prepare();
    f.AddMillions();
    rankings := RankingsOf(f.columns, f.height);
    f.SplitGenres();
    genreProfit := Queries.GenreSums(f.columns, ProfitMillions);
  }

  /** Lines 129–271: the range columns and their means, the recomputed millions, the month
      questions. */
  method RunCast(f: MovieFrame, ghost c0: Columns) returns (cast: Sections.CastMeans, months: Months)
    requires f.Valid() && Input(c0) && f.columns == Exploded(c0)
    modifies f
    ensures f.Valid() && f.height == old(f.height)
    ensures f.columns == Ranged(c0)
    ensures cast == Sections.CastMeansOf(Ranged(c0), f.height)
    ensures months == MonthsOf(Ranged(c0), f.height)
  {
    f.AddRanges();
    cast := Sections.CastMeansOf(f.columns, f.height);
    RecomputeIsNoOp(c0);
    f.AddMoneyMillions();
    months := MonthsOf(f.columns, f.height);
  }

  /** The script from line 13 on, run on the loaded table `f`: it ends with `Final` and
      computes `Reported`. */
  method Run(f: MovieFrame) returns (rep: Report)
    requires f.Valid() && Input(f.columns)
    modifies f
    ensures f.Valid() && f.height == old(f.height)
    ensures f.columns == Final(old(f.columns))
    ensures rep == Reported(old(f.columns), old(f.height))
  {
    ghost var c0 := f.columns;
    var rankings, genreProfit := RunFirstHalf(f);
    var cast, months := RunCast(f, c0);
    f.AddHomepage();
    var marketing := Sections.MarketingOf(f.columns, f.height);
    rep := Report(rankings, genreProfit, cast, months, marketing);
  }
}
