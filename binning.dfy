/** `pd.cut(amount, bins=[0, 2, 5, 10, 20, 50, 200], labels=[...])` and the group means over
    the resulting categories. */
module Binning {
  import opened Wrappers
  import Grouping

  const Edges: seq<real> := [0.0, 2.0, 5.0, 10.0, 20.0, 50.0, 200.0]
  const Labels: seq<string> := ["0-2", "3-5", "6-10", "11-20", "21-50", "50+"]

  /** The category code of a value: `c` when the value is in `(Edges[c], Edges[c + 1]]`.
      Intervals are closed on the right and open on the left, so 0, values above 200 and
      missing values get no category. */
  function Cut(v: Option<real>): (c: Option<nat>)
    ensures c.Some? <==> v.Some? && Edges[0] < v.value <= Edges[|Edges| - 1]
    ensures c.Some? ==> c.value < |Labels| && Edges[c.value] < v.value <= Edges[c.value + 1]
  {
    if v.None? then None
    else
      var x := v.value;
      if x <= 0.0 || x > 200.0 then None
      else if x <= 2.0 then Some(0)
      else if x <= 5.0 then Some(1)
      else if x <= 10.0 then Some(2)
      else if x <= 20.0 then Some(3)
      else if x <= 50.0 then Some(4)
      else Some(5)
  }

  /** The intervals do not overlap: a value has at most one category. */
  lemma EdgesIncreasing()
    ensures |Edges| == |Labels| + 1
    ensures forall i, j :: 0 <= i < j < |Edges| ==> Edges[i] < Edges[j]
  {
  }

  /** What the labels say for whole cast counts. */
  lemma CutCounts(n: int)
    ensures Cut(Some(n as real)) == Some(0) <==> 1 <= n <= 2
    ensures Cut(Some(n as real)) == Some(1) <==> 3 <= n <= 5
    ensures Cut(Some(n as real)) == Some(2) <==> 6 <= n <= 10
    ensures Cut(Some(n as real)) == Some(3) <==> 11 <= n <= 20
    ensures Cut(Some(n as real)) == Some(4) <==> 21 <= n <= 50
    ensures Cut(Some(n as real)) == Some(5) <==> 51 <= n <= 200
    ensures Cut(Some(n as real)) == None <==> n <= 0 || n > 200
  {
  }

  /** `pd.cut` of a whole column. */
  function CutAll(vals: seq<Option<real>>): (codes: seq<Option<nat>>)
    ensures |codes| == |vals| && forall i :: 0 <= i < |vals| ==> codes[i] == Cut(vals[i])
  {
    seq(|vals|, i requires 0 <= i < |vals| => Cut(vals[i]))
  }

  /** The mean of the category with code `c`; missing when the category has no value. */
  function CategoryMean(t: seq<Grouping.Acc<nat>>, c: nat): Option<real>
  {
    match Grouping.Find(t, c)
    case None => None
    case Some(j) => Grouping.Mean(t[j])
  }

  /** `df.groupby(range)[val].mean()` on the categorical range column: one entry per label,
      in label order, including labels no row has (whose mean is missing). Only rows with a
      category and a present value enter a mean. */
  function RangeMeans(codes: seq<Option<nat>>, vals: seq<Option<real>>): (r: seq<Option<real>>)
    requires |codes| == |vals|
    ensures |r| == |Labels|
    ensures forall c :: 0 <= c < |Labels| ==> MeanOf(codes, vals, c, r[c])
  {
    var t := Grouping.Tally(codes, vals);
    forall c: nat | 0 <= c < |Labels| ensures MeanOf(codes, vals, c, CategoryMean(t, c)) {
      CategoryMeanFacts(codes, vals, c);
    }
    seq(|Labels|, c requires 0 <= c < |Labels| => CategoryMean(t, c))
  }

  /** `m` is the mean of the present values of the rows with code `c`: missing when there
      are none. */
  ghost predicate MeanOf(codes: seq<Option<nat>>, vals: seq<Option<real>>, c: nat, m: Option<real>)
    requires |codes| == |vals|
  {
    && (m.Some? <==> Grouping.PresentWhere(codes, vals, c) > 0)
    && (m.Some? ==> m.value == Grouping.SumWhere(codes, vals, c) / Grouping.PresentWhere(codes, vals, c) as real)
  }

  lemma CategoryMeanFacts(codes: seq<Option<nat>>, vals: seq<Option<real>>, c: nat)
    requires |codes| == |vals|
    ensures MeanOf(codes, vals, c, CategoryMean(Grouping.Tally(codes, vals), c))
  {
    var t := Grouping.Tally(codes, vals);
    match Grouping.Find(t, c)
    case None =>
      Grouping.AbsentKey(codes, vals, c);
    case Some(j) =>
      var a := t[j];
      assert a.present == Grouping.PresentWhere(codes, vals, c);
      assert a.sum == Grouping.SumWhere(codes, vals, c);
      assert CategoryMean(t, c) == Grouping.Mean(a);
  }

  /** The mean is fixed by the count and the sum. */
  lemma MeanUnique(codes: seq<Option<nat>>, vals: seq<Option<real>>, codes': seq<Option<nat>>,
                   vals': seq<Option<real>>, c: nat, m: Option<real>, m': Option<real>)
    requires |codes| == |vals| && |codes'| == |vals'|
    requires Grouping.PresentWhere(codes, vals, c) == Grouping.PresentWhere(codes', vals', c)
    requires Grouping.SumWhere(codes, vals, c) == Grouping.SumWhere(codes', vals', c)
    requires MeanOf(codes, vals, c, m) && MeanOf(codes', vals', c, m')
    ensures m == m'
  {
  }

  /** A row without a category (0, more than 200, or missing) has no say in any mean. */
  lemma UnlabelledRowIgnored(codes: seq<Option<nat>>, vals: seq<Option<real>>, i: nat, v: Option<real>)
    requires |codes| == |vals| && i < |vals| && codes[i].None?
    ensures RangeMeans(codes, vals[i := v]) == RangeMeans(codes, vals)
  {
    var a, b := RangeMeans(codes, vals[i := v]), RangeMeans(codes, vals);
    forall c | 0 <= c < |Labels| ensures a[c] == b[c] {
      assert codes[i] != Some(c as nat);
      Grouping.OtherRowIgnored(codes, vals, i, v, c as nat);
      MeanUnique(codes, vals[i := v], codes, vals, c, a[c], b[c]);
    }
  }
}
