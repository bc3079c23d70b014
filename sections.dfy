/** Groups of questions that several scripts ask in the same words. */
module Sections {
  import opened Wrappers
  import opened Frame
  import Grouping
  import Queries
  import Binning
  import Ranking

  /** Question (i): mean popularity and mean revenue (in millions) per range of actresses
      and per range of actors. */
  datatype CastMeans = CastMeans(
    womenPopularity: seq<Option<real>>,
    womenRevenue: seq<Option<real>>,
    menPopularity: seq<Option<real>>,
    menRevenue: seq<Option<real>>)

  function CastMeansOf(g: Columns, h: nat): (r: CastMeans)
    requires Rect(g, h) && CastWomenRange in g && CastMenRange in g
    requires Popularity in g && RevenueMillions in g
    ensures |r.womenPopularity| == |r.womenRevenue| == |r.menPopularity| == |r.menRevenue| == |Binning.Labels|
    ensures forall c :: 0 <= c < |Binning.Labels| ==>
              && Binning.MeanOf(Codes(g[CastWomenRange]), Numbers(g[Popularity]), c, r.womenPopularity[c])
              && Binning.MeanOf(Codes(g[CastWomenRange]), Numbers(g[RevenueMillions]), c, r.womenRevenue[c])
              && Binning.MeanOf(Codes(g[CastMenRange]), Numbers(g[Popularity]), c, r.menPopularity[c])
              && Binning.MeanOf(Codes(g[CastMenRange]), Numbers(g[RevenueMillions]), c, r.menRevenue[c])
  {
    CastMeans(
      Queries.MeansByRange(g, CastWomenRange, Popularity),
      Queries.MeansByRange(g, CastWomenRange, RevenueMillions),
      Queries.MeansByRange(g, CastMenRange, Popularity),
      Queries.MeansByRange(g, CastMenRange, RevenueMillions))
  }

  /** Question (o): mean revenue (in millions) and mean popularity by promotional video, by
      home page, and by both. */
  datatype Marketing = Marketing(
    videoRevenue: seq<Grouping.Acc<bool>>,
    videoPopularity: seq<Grouping.Acc<bool>>,
    homepageRevenue: seq<Grouping.Acc<bool>>,
    homepagePopularity: seq<Grouping.Acc<bool>>,
    comboRevenue: seq<Grouping.Acc<(bool, bool)>>,
    comboPopularity: seq<Grouping.Acc<(bool, bool)>>)

  function MarketingOf(k: Columns, h: nat): (r: Marketing)
    requires Rect(k, h) && Video in k && HasHomepage in k
    requires RevenueMillions in k && Popularity in k
    ensures Grouping.Tallies(Flags(k[Video]), Numbers(k[RevenueMillions]), r.videoRevenue)
    ensures Grouping.Tallies(Flags(k[Video]), Numbers(k[Popularity]), r.videoPopularity)
    ensures Grouping.Tallies(Flags(k[HasHomepage]), Numbers(k[RevenueMillions]), r.homepageRevenue)
    ensures Grouping.Tallies(Flags(k[HasHomepage]), Numbers(k[Popularity]), r.homepagePopularity)
    ensures Grouping.Tallies(Queries.FlagPairs(k[Video], k[HasHomepage]), Numbers(k[RevenueMillions]), r.comboRevenue)
    ensures Grouping.Tallies(Queries.FlagPairs(k[Video], k[HasHomepage]), Numbers(k[Popularity]), r.comboPopularity)
    ensures |r.videoRevenue| <= 2 && |r.videoPopularity| <= 2 && |r.homepageRevenue| <= 2 && |r.homepagePopularity| <= 2
    ensures |r.comboRevenue| <= 4 && |r.comboPopularity| <= 4
  {
    Marketing(
      Queries.MeansByFlag(k, Video, RevenueMillions),
      Queries.MeansByFlag(k, Video, Popularity),
      Queries.MeansByFlag(k, HasHomepage, RevenueMillions),
      Queries.MeansByFlag(k, HasHomepage, Popularity),
      Queries.MeansByFlagPair(k, Video, HasHomepage, RevenueMillions),
      Queries.MeansByFlagPair(k, Video, HasHomepage, Popularity))
  }
}
