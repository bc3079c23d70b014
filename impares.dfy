/** `src/impares.py`: the odd-numbered questions (a), (c), (e) and (g) on the prepared table,
    in the raw units of the csv. */
module Impares {
  import opened Wrappers
  import opened Frame
  import Grouping
  import Queries

  /** The columns of the csv the script reads. */
  ghost predicate Input(cols: Columns)
  {
    && Loaded(cols)
    && Title in cols && VoteCount in cols && Genres in cols
  }

  /** The table after lines 12–27. */
  function Prepped(cols: Columns): (r: Columns)
    requires Input(cols)
    ensures Budget in r && Title in r && VoteCount in r && Year in r && Genres in r && Profit in r
    ensures forall h: nat :: Rect(cols, h) ==> Rect(r, h)
  {
    Prepared(cols)
  }

  /** After lines 89–90 (`genres` as lists): the table the script ends with. */
  function Final(cols: Columns): (r: Columns)
    requires Input(cols)
    ensures Genres in r && Profit in r
    ensures forall h: nat :: Rect(cols, h) ==> Rect(r, h)
  {
    WithGenreLists(Prepped(cols))
  }

  /** Questions (a), (c) and (e): the top budgets, the most voted film and the top 5, films
      per year. */
  datatype Rankings = Rankings(
    topBudget: seq<nat>,
    mostVoted: Option<nat>,
    topVoted: seq<nat>,
    perYear: seq<Grouping.Acc<real>>)

  function RankingsOf(p: Columns, h: nat): (r: Rankings)
    requires Rect(p, h) && Budget in p && Title in p && VoteCount in p && Year in p
    ensures |r.topBudget| <= 10 && |r.topVoted| <= 5
    ensures |r.topVoted| == Min(5, h) && forall k :: 0 <= k < |r.topVoted| ==> r.topVoted[k] < h
    ensures r.mostVoted.None? <==> r.topVoted == [] || !p[VoteCount][r.topVoted[0]].Num?
    ensures r.mostVoted.Some? ==> r.topVoted != [] && r.topVoted[0] == r.mostVoted.value
    ensures forall i, j :: 0 <= i < j < |r.perYear| ==> r.perYear[i].key < r.perYear[j].key
  {
    Queries.MostByHeadsLargest(p, VoteCount, 5);
    Rankings(
      Queries.TopRows(p, 10, Budget, [Title, Budget]),
      Queries.MostBy(p, VoteCount),
      Queries.Largest(p, 5, VoteCount),
      Queries.YearCounts(p, None))
  }

  /** Everything the script computes: the rankings and the profit per genre. */
  datatype Report = Report(rankings: Rankings, genreProfit: seq<Grouping.Acc<string>>)

  function Reported(cols: Columns, h: nat): (rep: Report)
    requires Rect(cols, h) && Input(cols)
    ensures rep.rankings.mostVoted.Some? ==>
              rep.rankings.topVoted != [] && rep.rankings.topVoted[0] == rep.rankings.mostVoted.value
    ensures Grouping.DistinctKeys(rep.genreProfit)
    ensures forall i, j :: 0 <= i < j < |rep.genreProfit| ==> rep.genreProfit[i].sum >= rep.genreProfit[j].sum
  {
    Report(RankingsOf(Prepped(cols), h), Queries.GenreSums(Final(cols), Profit))
  }

  /** The script from line 12 on, run on the loaded table `f`. */
  method Run(f: MovieFrame) returns (rep: Report)
    requires f.Valid() && Input(f.columns)
    modifies f
    ensures f.Valid() && f.height == old(f.height)
    ensures f.columns == Final(old(f.columns))
    ensures rep == Reported(old(f.columns), old(f.height))
  {
    f.Prepare();
    var rankings := RankingsOf(f.columns, f.height);
    f.SplitGenres();
    var genreProfit := Queries.GenreSums(f.columns, Profit);
    rep := Report(rankings, genreProfit);
  }
}
