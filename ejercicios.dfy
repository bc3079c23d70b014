/** `src/ejercicios.py`: the full analysis. The table is prepared, extended step by step,
    and every question is one query on the table as it stands at that point. */
module Ejercicios {
  import opened Wrappers
  import opened Frame
  import Grouping
  import Ranking
  import Queries
  import Sections

  /** The columns of the csv the script reads. */
  ghost predicate Input(cols: Columns)
  {
    && Loaded(cols)
    && VoteCount in cols && Popularity in cols && CastWomen in cols && CastMen in cols
    && ActorsAmount in cols && Genres in cols && Title in cols && VoteAvg in cols
    && Runtime in cols && Director in cols && HomePage in cols && Video in cols
    && ActorsPopularity in cols
  }

  /** The columns the queries read once the table is prepared. */
  ghost predicate Working(cols: Columns)
  {
    && Budget in cols && Revenue in cols && VoteCount in cols && Popularity in cols
    && CastWomen in cols && CastMen in cols && ActorsAmount in cols && ReleaseDate in cols
    && Genres in cols && Title in cols && VoteAvg in cols && Runtime in cols
    && Director in cols && HomePage in cols && Video in cols && ActorsPopularity in cols
    && Year in cols && Month in cols && Profit in cols
    && BudgetMillions in cols && RevenueMillions in cols && ProfitMillions in cols
  }

  /** `a` and `b` agree on budget, revenue and their millions columns. */
  ghost predicate SameMoney(a: Columns, b: Columns)
    requires Working(a) && Working(b)
  {
    && a[Budget] == b[Budget] && a[Revenue] == b[Revenue]
    && a[BudgetMillions] == b[BudgetMillions] && a[RevenueMillions] == b[RevenueMillions]
  }

  /** The table after lines 13–32: prepared, with the three millions columns. */
  function Priced(cols: Columns): (r: Columns)
    requires Input(cols)
    ensures Working(r)
    ensures forall h: nat :: Rect(cols, h) ==> Rect(r, h)
  {
    WithMillions(Prepared(cols))
  }

  /** After line 141 (`genre_main`). */
  function WithMain(cols: Columns): (r: Columns)
    requires Input(cols)
    ensures Working(r) && GenreMain in r
    ensures forall h: nat :: Rect(cols, h) ==> Rect(r, h)
  {
    WithGenreMain(Priced(cols))
  }

  /** After lines 176–177 (`genres` as lists). */
  function Exploded(cols: Columns): (r: Columns)
    requires Input(cols)
    ensures Working(r)
    ensures forall h: nat :: Rect(cols, h) ==> Rect(r, h)
  {
    WithGenreLists(WithMain(cols))
  }

  /** After lines 237–238 (the range columns); lines 347–348 leave it as it is. */
  function Ranged(cols: Columns): (r: Columns)
    requires Input(cols)
    ensures Working(r) && CastWomenRange in r && CastMenRange in r
    ensures forall h: nat :: Rect(cols, h) ==> Rect(r, h)
  {
    WithRanges(Exploded(cols))
  }

  /** After line 442 (`has_homepage`). */
  function Marked(cols: Columns): (r: Columns)
    requires Input(cols)
    ensures Working(r) && HasHomepage in r
    ensures forall h: nat :: Rect(cols, h) ==> Rect(r, h)
  {
    WithHomepage(Ranged(cols))
  }

  /** After line 527: the table the script ends with. */
  function Final(cols: Columns): (r: Columns)
    requires Input(cols)
    ensures forall h: nat :: Rect(cols, h) ==> Rect(r, h)
  {
    WithAveragedPopularity(Marked(cols))
  }

  /** Lines 141 to 238 change neither the money columns nor their millions. */
  lemma MoneyKept(q: Columns)
    requires Working(q) && Genres in q && CastWomen in q && CastMen in q
    ensures Working(WithGenreMain(q))
    ensures SameMoney(q, WithGenreMain(q))
    ensures Working(WithGenreLists(WithGenreMain(q)))
    ensures SameMoney(q, WithGenreLists(WithGenreMain(q)))
    ensures Working(WithRanges(WithGenreLists(WithGenreMain(q))))
    ensures SameMoney(q, WithRanges(WithGenreLists(WithGenreMain(q))))
  {
  }

  /** Lines 347–348 recompute the millions columns from `budget` and `revenue`, which have
      not changed since lines 30–31: the table stays as it is. */
  lemma RecomputeIsNoOp(cols: Columns)
    requires Input(cols)
    ensures WithMoneyMillions(Ranged(cols)) == Ranged(cols)
  {
    var p, q := Prepared(cols), Priced(cols);
    assert q[BudgetMillions] == Millions(p[Budget]) && q[RevenueMillions] == Millions(p[Revenue]);
    assert q[Budget] == p[Budget] && q[Revenue] == p[Revenue];
    MoneyKept(q);
    RecomputeUnchanged(Ranged(cols));
  }

  /** Questions (a)–(f) on the prepared table: top budgets, top revenues, the most voted
      film and the top 5, the worst rated, films per year since 1960, the 20 latest films and
      their main genres. */
  datatype Rankings = Rankings(
    topBudget: seq<nat>,
    topRevenue: seq<nat>,
    mostVoted: Option<nat>,
    topVoted: seq<nat>,
    worst: seq<nat>,
    perYear: seq<Grouping.Acc<real>>,
    recent: seq<nat>,
    recentGenres: seq<Cell>)

  function RankingsOf(p: Columns, h: nat): (r: Rankings)
    requires Rect(p, h) && Working(p)
    ensures |r.topBudget| <= 10 && |r.topRevenue| <= 10 && |r.topVoted| <= 5 && |r.worst| <= 10
    ensures |r.topVoted| == Min(5, h) && forall k :: 0 <= k < |r.topVoted| ==> r.topVoted[k] < h
    ensures r.mostVoted.None? <==> r.topVoted == [] || !p[VoteCount][r.topVoted[0]].Num?
    ensures r.mostVoted.Some? ==> r.topVoted != [] && r.topVoted[0] == r.mostVoted.value
    ensures forall j :: 0 <= j < |r.perYear| ==> r.perYear[j].key >= 1960.0
    ensures |r.recent| <= 20 && |r.recentGenres| == |r.recent|
  {
    var topBudget := Queries.TopRows(p, 10, BudgetMillions, [Title, BudgetMillions]);
    var topRevenue := Queries.TopRows(p, 10, Revenue, [Title, Revenue]);
    var mostVoted := Queries.MostBy(p, VoteCount);
    var topVoted := Queries.Largest(p, 5, VoteCount);
    Queries.MostByHeadsLargest(p, VoteCount, 5);
    var worst := Queries.Smallest(p, 10, VoteAvg);
    var perYear := Queries.YearCounts(p, Some(1960.0));
    Queries.YearCountsSince(p, 1960.0);
    var recent := Queries.Recent(p, 20);
    Rankings(topBudget, topRevenue, mostVoted, topVoted, worst, perYear, recent, Queries.MainGenres(p, recent))
  }

  /** Questions (f)–(h): counts of main genres, the longest films, profit per genre, mean cast
      size per year. */
  datatype GenreAnswers = GenreAnswers(
    genreCounts: seq<Grouping.Acc<string>>,
    longest: seq<nat>,
    genreProfit: seq<Grouping.Acc<string>>,
    actorsPerYear: seq<Grouping.Acc<real>>)

  function GenreAnswersOf(m: Columns, e: Columns, h: nat): (r: GenreAnswers)
    requires Rect(m, h) && Working(m) && GenreMain in m
    requires Rect(e, h) && Working(e)
    ensures Ranking.Total(r.genreCounts, Grouping.RowsOf) == Grouping.RowsWithKey(Texts(m[GenreMain])) as real
    ensures |r.longest| <= 10
    ensures Grouping.DistinctKeys(r.genreProfit)
    ensures forall j :: 0 <= j < |r.genreProfit| ==>
              r.genreProfit[j].sum == Grouping.ListSum(Lists(e[Genres]), Numbers(e[ProfitMillions]), r.genreProfit[j].key)
    ensures forall i, j :: 0 <= i < j < |r.actorsPerYear| ==> r.actorsPerYear[i].key < r.actorsPerYear[j].key
  {
    GenreAnswers(
      Queries.Counts(m, GenreMain),
      Queries.Largest(m, 10, Runtime),
      Queries.GenreSums(e, ProfitMillions),
      Queries.MeansByNumber(e, Year, ActorsAmount))
  }

  /** Questions (i)–(m): means per cast range, directors of the top 20, revenue per month and
      the months of the 50 top-grossing films. */
  datatype CastAndMonths = CastAndMonths(
    ranges: Sections.CastMeans,
    directorCounts: seq<Grouping.Acc<string>>,
    monthlyRevenue: seq<Grouping.Acc<real>>,
    revenueByMonth: seq<Grouping.Acc<real>>,
    topMonths: seq<Grouping.Acc<real>>)

  function CastAndMonthsOf(g: Columns, h: nat): (r: CastAndMonths)
    requires Rect(g, h) && Working(g) && CastWomenRange in g && CastMenRange in g
    ensures |r.ranges.womenPopularity| == |r.ranges.menPopularity| == 6
    ensures Ranking.Total(r.directorCounts, Grouping.RowsOf) <= 20.0
    ensures forall i, j :: 0 <= i < j < |r.monthlyRevenue| ==> r.monthlyRevenue[i].key < r.monthlyRevenue[j].key
    ensures Ranking.Total(r.topMonths, Grouping.RowsOf) <= 50.0
  {
    CastAndMonths(
      Sections.CastMeansOf(g, h),
      Queries.DirectorCounts(g, 20),
      Queries.MeansByNumber(g, Month, Revenue),
      Queries.MeansDescBy(g, Month, RevenueMillions),
      Queries.TopMonthCounts(g, 50, RevenueMillions))
  }

  /** Everything the script computes. */
  datatype Report = Report(rankings: Rankings, genres: GenreAnswers, cast: CastAndMonths, marketing: Sections.Marketing)

  /** The results of the script on a table of `h` rows, each question asked of the table as
      it stands when the script asks it. */
  function Reported(cols: Columns, h: nat): (rep: Report)
    requires Rect(cols, h) && Input(cols)
    ensures rep.rankings.mostVoted.Some? ==>
              rep.rankings.topVoted != [] && rep.rankings.topVoted[0] == rep.rankings.mostVoted.value
    ensures Ranking.Total(rep.cast.directorCounts, Grouping.RowsOf) <= 20.0
    ensures |rep.marketing.videoRevenue| <= 2 && |rep.marketing.comboRevenue| <= 4
  {
    var p, m, e, g, k := Priced(cols), WithMain(cols), Exploded(cols), Ranged(cols), Marked(cols);
    assert Rect(p, h) && Rect(m, h) && Rect(e, h) && Rect(g, h) && Rect(k, h);
    Report(RankingsOf(p, h), GenreAnswersOf(m, e, h), CastAndMonthsOf(g, h), Sections.MarketingOf(k, h))
  }

  /** Lines 13–133: prepare the table, then rank it. */
  method RunRankings(f: MovieFrame) returns (r: Rankings)
    requires f.Valid() && Input(f.columns)
    modifies f
    ensures f.Valid() && f.height == old(f.height)
    ensures f.columns == Priced(old(f.columns))
    ensures r == RankingsOf(Priced(old(f.columns)), f.height)
  {
    f.Prepare();
    f.AddMillions();
    r := RankingsOf(f.columns, f.height);
  }

  /** Lines 141–216: the main genre, then the genre lists. */
  method RunGenres(f: MovieFrame) returns (r: GenreAnswers)
    requires f.Valid() && Working(f.columns)
    modifies f
    ensures f.Valid() && f.height == old(f.height)
    ensures f.columns == WithGenreLists(WithGenreMain(old(f.columns)))
    ensures Working(f.columns)
    ensures r == GenreAnswersOf(WithGenreMain(old(f.columns)), f.columns, f.height)
  {
    f.AddGenreMain();
    var main := f.columns;
    f.SplitGenres();
    r := GenreAnswersOf(main, f.columns, f.height);
  }

  /** Lines 237–409: the range columns, the recomputed millions, the cast and month
      questions. */
  method RunCast(f: MovieFrame, ghost c0: Columns) returns (r: CastAndMonths)
    requires f.Valid() && Input(c0) && f.columns == Exploded(c0)
    modifies f
    ensures f.Valid() && f.height == old(f.height)
    ensures f.columns == Ranged(c0)
    ensures r == CastAndMonthsOf(Ranged(c0), f.height)
  {
    f.AddRanges();
    r := CastAndMonthsOf(f.columns, f.height);
    RecomputeIsNoOp(c0);
    f.AddMoneyMillions();
  }

  /** Lines 442–527: the home-page flag, the marketing question, then the averaged
      popularity of the cast. */
  method RunMarketing(f: MovieFrame, ghost c0: Columns) returns (r: Sections.Marketing)
    requires f.Valid() && Input(c0) && f.columns == Ranged(c0)
    modifies f
    ensures f.Valid() && f.height == old(f.height)
    ensures f.columns == Final(c0)
    ensures r == Sections.MarketingOf(Marked(c0), f.height)
  {
    f.AddHomepage();
    r := Sections.MarketingOf(f.columns, f.height);
    f.AveragePopularity();
  }

  /** Lines 13–216: the rankings and the genre questions. */
  method RunFirstHalf(f: MovieFrame) returns (rankings: Rankings, genres: GenreAnswers)
    requires f.Valid() && Input(f.columns)
    modifies f
    ensures f.Valid() && f.height == old(f.height)
    ensures f.columns == Exploded(old(f.columns))
    ensures rankings == RankingsOf(Priced(old(f.columns)), f.height)
    ensures genres == GenreAnswersOf(WithMain(old(f.columns)), Exploded(old(f.columns)), f.height)
  {
    rankings := RunRankings(f);
    genres := RunGenres(f);
  }

  /** Lines 237–527: the cast, month and marketing questions. */
  method RunSecondHalf(f: MovieFrame, ghost c0: Columns) returns (cast: CastAndMonths, marketing: Sections.Marketing)
    requires f.Valid() && Input(c0) && f.columns == Exploded(c0)
    modifies f
    ensures f.Valid() && f.height == old(f.height)
    ensures f.columns == Final(c0)
    ensures cast == CastAndMonthsOf(Ranged(c0), f.height)
    ensures marketing == Sections.MarketingOf(Marked(c0), f.height)
  {
    cast := RunCast(f, c0);
    marketing := RunMarketing(f, c0);
  }

  /** The script from line 13 on, run on the loaded table `f`: it ends with `Final` and
      computes `Reported`. */
  method Run(f: MovieFrame) returns (rep: Report)
    requires f.Valid() && Input(f.columns)
    modifies f
    ensures f.Valid() && f.height == old(f.height)
    ensures f.columns == Final(old(f.columns))
    ensures rep == Reported(old(f.columns), old(f.height))
  {
    ghost var c0 := f.columns;
    var rankings, genres := RunFirstHalf(f);
    var cast, marketing := RunSecondHalf(f, c0);
    rep := Report(rankings, genres, cast, marketing);
  }
}
