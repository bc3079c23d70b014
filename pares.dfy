/** `src/pares.py`: the even-numbered questions (b), (d) and (f) on the prepared table. */
module Pares {
  import opened Wrappers
  import opened Frame
  import Ranking
  import Grouping
  import Queries

  /** The columns of the csv the script reads. */
  ghost predicate Input(cols: Columns)
  {
    && Loaded(cols)
    && Title in cols && VoteAvg in cols && Genres in cols && Runtime in cols
  }

  /** The table after lines 12–27. */
  function Prepped(cols: Columns): (r: Columns)
    requires Input(cols)
    ensures Revenue in r && Title in r && VoteAvg in r && ReleaseDate in r
    ensures Genres in r && Runtime in r
    ensures forall h: nat :: Rect(cols, h) ==> Rect(r, h)
  {
    Prepared(cols)
  }

  /** After line 78 (`genre_main`): the table the script ends with. */
  function Final(cols: Columns): (r: Columns)
    requires Input(cols)
    ensures GenreMain in r && Title in r && Runtime in r
    ensures forall h: nat :: Rect(cols, h) ==> Rect(r, h)
  {
    WithGenreMain(Prepped(cols))
  }

  /** Questions (b), (d) and (f): the top revenues, the worst rated films, the 20 latest
      films and their main genres. */
  datatype Rankings = Rankings(
    topRevenue: seq<nat>,
    worst: seq<nat>,
    recent: seq<nat>,
    recentGenres: seq<Cell>)

  function RankingsOf(p: Columns, h: nat): (r: Rankings)
    requires Rect(p, h) && Revenue in p && Title in p && VoteAvg in p
    requires ReleaseDate in p && Genres in p
    ensures |r.topRevenue| <= 10 && |r.worst| <= 10
    ensures |r.recent| == Min(20, h) && |r.recentGenres| == |r.recent|
  {
    assert |p[ReleaseDate]| == h;
    var recent := Queries.Recent(p, 20);
    Rankings(
      Queries.TopRows(p, 10, Revenue, [Title, Revenue]),
      Queries.Smallest(p, 10, VoteAvg),
      recent,
      Queries.MainGenres(p, recent))
  }

  /** Everything the script computes: the rankings, the counts of main genres and the
      longest films. */
  datatype Report = Report(
    rankings: Rankings,
    genreCounts: seq<Grouping.Acc<string>>,
    longest: seq<nat>)

  function Reported(cols: Columns, h: nat): (rep: Report)
    requires Rect(cols, h) && Input(cols)
    ensures |rep.longest| <= 10
  {
    Report(
      RankingsOf(Prepped(cols), h),
      Queries.Counts(Final(cols), GenreMain),
      Queries.Largest(Final(cols), 10, Runtime))
  }

  /** The script from line 12 on, run on the loaded table `f`. */
  method Run(f: MovieFrame) returns (rep: Report)
    requires f.Valid() && Input(f.columns)
    modifies f
    ensures f.Valid() && f.height == old(f.height)
    ensures f.columns == Final(old(f.columns))
    ensures rep == Reported(old(f.columns), old(f.height))
  {
    f.Prepare();
    var rankings := RankingsOf(f.columns, f.height);
    f.AddGenreMain();
    var genreCounts := Queries.Counts(f.columns, GenreMain);
    var longest := Queries.Largest(f.columns, 10, Runtime);
    rep := Report(rankings, genreCounts, longest);
  }
}
