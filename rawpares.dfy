/** `src/raw_ejercicios/pares.py`: the first draft of the even-numbered questions (b), (d),
    (f), (h), (j), (l), (n) and (p). Its first three questions are those of `src/pares.py`;
    then it keeps the main genre, counts directors, averages per year and per month, and
    finally turns the cast popularity lists into their means. */
module RawPares {
  import opened Wrappers
  import opened Frame
  import Ranking
  import Grouping
  import Queries
  import Pares

  /** The columns of the csv the script reads. */
  ghost predicate Input(cols: Columns)
  {
    && Loaded(cols)
    && Title in cols && VoteAvg in cols && Genres in cols && Runtime in cols
    && ActorsAmount in cols && Director in cols && ActorsPopularity in cols
  }

  /** The columns the queries read once the table is prepared. */
  ghost predicate Working(cols: Columns)
  {
    && Revenue in cols && Title in cols && VoteAvg in cols && ReleaseDate in cols
    && Genres in cols && Runtime in cols && ActorsAmount in cols && Director in cols
    && ActorsPopularity in cols && Year in cols && Month in cols
  }

  /** The table after lines 13–28. */
  function Prepped(cols: Columns): (r: Columns)
    requires Input(cols)
    ensures Working(r)
    ensures forall h: nat :: Rect(cols, h) ==> Rect(r, h)
  {
    Prepared(cols)
  }

  /** After line 81 (`genre_main`). */
  function WithMain(cols: Columns): (r: Columns)
    requires Input(cols)
    ensures Working(r) && GenreMain in r
    ensures forall h: nat :: Rect(cols, h) ==> Rect(r, h)
  {
    WithGenreMain(Prepped(cols))
  }

  /** After line 209: the table the script ends with. */
  function Final(cols: Columns): (r: Columns)
    requires Input(cols)
    ensures forall h: nat :: Rect(cols, h) ==> Rect(r, h)
  {
    WithAveragedPopularity(WithMain(cols))
  }

  /** Questions (f), (h), (j) and (l) on the table with `genre_main`: counts of main genres,
      the longest films, mean cast size per year, directors of the 20 top-rated films and
      mean revenue per month. */
  datatype GenreAnswers = GenreAnswers(
    genreCounts: seq<Grouping.Acc<string>>,
    longest: seq<nat>,
    actorsPerYear: seq<Grouping.Acc<real>>,
    directorCounts: seq<Grouping.Acc<string>>,
    monthlyRevenue: seq<Grouping.Acc<real>>)

  function GenreAnswersOf(m: Columns, h: nat): (r: GenreAnswers)
    requires Rect(m, h) && Working(m) && GenreMain in m
    ensures Ranking.Total(r.genreCounts, Grouping.RowsOf) == Grouping.RowsWithKey(Texts(m[GenreMain])) as real
    ensures |r.longest| <= 10
    ensures forall i, j :: 0 <= i < j < |r.actorsPerYear| ==> r.actorsPerYear[i].key < r.actorsPerYear[j].key
    ensures Ranking.Total(r.directorCounts, Grouping.RowsOf) <= 20.0
    ensures forall j :: 0 <= j < |r.directorCounts| ==> |r.directorCounts[j].key| <= 30
    ensures forall i, j :: 0 <= i < j < |r.monthlyRevenue| ==> r.monthlyRevenue[i].key < r.monthlyRevenue[j].key
  {
    GenreAnswers(
      Queries.Counts(m, GenreMain),
      Queries.Largest(m, 10, Runtime),
      Queries.MeansByNumber(m, Year, ActorsAmount),
      Queries.DirectorCounts(m, 20),
      Queries.MeansByNumber(m, Month, Revenue))
  }

  /** Everything the script computes. */
  datatype Report = Report(rankings: Pares.Rankings, genres: GenreAnswers)

  function Reported(cols: Columns, h: nat): (rep: Report)
    requires Rect(cols, h) && Input(cols)
    ensures |rep.rankings.recent| == Min(20, h)
    ensures Ranking.Total(rep.genres.directorCounts, Grouping.RowsOf) <= 20.0
  {
    Report(Pares.RankingsOf(Prepped(cols), h), GenreAnswersOf(WithMain(cols), h))
  }

  /** The script from line 13 on, run on the loaded table `f`. */
  method Run(f: MovieFrame) returns (rep: Report)
    requires f.Valid() && Input(f.columns)
    modifies f
    ensures f.Valid() && f.height == old(f.height)
    ensures f.columns == Final(old(f.columns))
    ensures rep == Reported(old(f.columns), old(f.height))
  {
    f.Prepare();
    var rankings := Pares.RankingsOf(f.columns, f.height);
    f.AddGenreMain();
    var genres := GenreAnswersOf(f.columns, f.height);
    f.AveragePopularity();
    rep := Report(rankings, genres);
  }
}
