/** `groupby(key)[col].sum()/.mean()`, `value_counts()` and `explode`. Groups come out of
    `Tally` in order of first appearance; the queries then order them as pandas does. */
module Grouping {
  import opened Wrappers
  import Ranking

  function Valued(v: Option<real>): real
  {
    if v.Some? then v.value else 0.0
  }

  function Counted(v: Option<real>): nat
  {
    if v.Some? then 1 else 0
  }

  // ---------------------------------------------------------------------------------------
  // Reference definitions, row by row
  // ---------------------------------------------------------------------------------------

  /** Number of rows whose key is `k`. */
  function RowsWhere<K(==)>(keys: seq<Option<K>>, k: K): nat
  {
    if keys == [] then 0
    else RowsWhere(keys[..|keys| - 1], k) + (if keys[|keys| - 1] == Some(k) then 1 else 0)
  }

  /** Number of rows whose key is `k` and whose value is present. */
  function PresentWhere<K(==)>(keys: seq<Option<K>>, vals: seq<Option<real>>, k: K): nat
    requires |keys| == |vals|
  {
    if keys == [] then 0
    else
      var n := |keys| - 1;
      PresentWhere(keys[..n], vals[..n], k) + (if keys[n] == Some(k) then Counted(vals[n]) else 0)
  }

  /** Sum of the present values of the rows whose key is `k` (0 when there are none). */
  function SumWhere<K(==)>(keys: seq<Option<K>>, vals: seq<Option<real>>, k: K): real
    requires |keys| == |vals|
  {
    if keys == [] then 0.0
    else
      var n := |keys| - 1;
      SumWhere(keys[..n], vals[..n], k) + (if keys[n] == Some(k) then Valued(vals[n]) else 0.0)
  }

  /** Number of rows with a present key. */
  function RowsWithKey<K>(keys: seq<Option<K>>): nat
  {
    if keys == [] then 0
    else RowsWithKey(keys[..|keys| - 1]) + (if keys[|keys| - 1].Some? then 1 else 0)
  }

  /** Sum of the present values of rows with a present key. */
  function SumWithKey<K>(keys: seq<Option<K>>, vals: seq<Option<real>>): real
    requires |keys| == |vals|
  {
    if keys == [] then 0.0
    else
      var n := |keys| - 1;
      SumWithKey(keys[..n], vals[..n]) + (if keys[n].Some? then Valued(vals[n]) else 0.0)
  }

  lemma {:induction false} RowsWithKeyBound<K>(keys: seq<Option<K>>)
    ensures RowsWithKey(keys) <= |keys|
    ensures (forall i :: 0 <= i < |keys| ==> keys[i].Some?) ==> RowsWithKey(keys) == |keys|
  {
    if keys != [] {
      RowsWithKeyBound(keys[..|keys| - 1]);
    }
  }

  lemma {:induction false} AbsentKey<K>(keys: seq<Option<K>>, vals: seq<Option<real>>, k: K)
    requires |keys| == |vals|
    requires forall i :: 0 <= i < |keys| ==> keys[i] != Some(k)
    ensures RowsWhere(keys, k) == 0
    ensures PresentWhere(keys, vals, k) == 0
    ensures SumWhere(keys, vals, k) == 0.0
  {
    if keys != [] {
      var n := |keys| - 1;
      AbsentKey(keys[..n], vals[..n], k);
    }
  }

  lemma {:induction false} RowsWherePositive<K>(keys: seq<Option<K>>, k: K, i: nat)
    requires i < |keys| && keys[i] == Some(k)
    ensures RowsWhere(keys, k) > 0
  {
    var n := |keys| - 1;
    if i < n {
      RowsWherePositive(keys[..n], k, i);
    }
  }

  /** A key with rows occurs in some row: with `RowsWherePositive`, a key has rows exactly
      when it occurs. */
  lemma {:induction false} RowsWhereWitness<K>(keys: seq<Option<K>>, k: K) returns (i: nat)
    requires RowsWhere(keys, k) > 0
    ensures i < |keys| && keys[i] == Some(k)
  {
    var n := |keys| - 1;
    if keys[n] == Some(k) {
      i := n;
    } else {
      i := RowsWhereWitness(keys[..n], k);
    }
  }

  /** A group whose values are all missing sums to 0 (pandas' `min_count=0`). */
  lemma {:induction false} AllMissingSumsToZero<K>(keys: seq<Option<K>>, vals: seq<Option<real>>, k: K)
    requires |keys| == |vals|
    requires PresentWhere(keys, vals, k) == 0
    ensures SumWhere(keys, vals, k) == 0.0
  {
    if keys != [] {
      var n := |keys| - 1;
      AllMissingSumsToZero(keys[..n], vals[..n], k);
    }
  }

  lemma {:induction false} PresentAtMostRows<K>(keys: seq<Option<K>>, vals: seq<Option<real>>, k: K)
    requires |keys| == |vals|
    ensures PresentWhere(keys, vals, k) <= RowsWhere(keys, k)
  {
    if keys != [] {
      var n := |keys| - 1;
      PresentAtMostRows(keys[..n], vals[..n], k);
    }
  }

  // ---------------------------------------------------------------------------------------
  // Accumulating groups
  // ---------------------------------------------------------------------------------------

  /** One group: its key, its number of rows, how many of them have a value, and the
      sum of those values. */
  datatype Acc<K> = Acc(key: K, rows: nat, present: nat, sum: real)

  function Add<K>(a: Acc<K>, v: Option<real>): Acc<K>
  {
    Acc(a.key, a.rows + 1, a.present + Counted(v), a.sum + Valued(v))
  }

  predicate KeyIn<K(==)>(t: seq<Acc<K>>, k: K)
  {
    exists j :: 0 <= j < |t| && t[j].key == k
  }

  ghost predicate DistinctKeys<K>(t: seq<Acc<K>>)
  {
    forall i, j :: 0 <= i < j < |t| ==> t[i].key != t[j].key
  }

  /** Adds one row to the group of `k`, opening the group at the end if it is new. */
  function Bump<K(==)>(t: seq<Acc<K>>, k: K, v: Option<real>): (r: seq<Acc<K>>)
    requires DistinctKeys(t)
    ensures DistinctKeys(r)
    ensures KeyIn(t, k) ==> |r| == |t|
    ensures KeyIn(t, k) ==> forall j :: 0 <= j < |t| ==> r[j] == if t[j].key == k then Add(t[j], v) else t[j]
    ensures !KeyIn(t, k) ==> r == t + [Acc(k, 1, Counted(v), Valued(v))]
  {
    if t == [] then [Acc(k, 1, Counted(v), Valued(v))]
    else if t[0].key == k then
      var r := [Add(t[0], v)] + t[1..];
      assert forall j :: 0 <= j < |t| ==> r[j].key == t[j].key;
      r
    else
      var rest := Bump(t[1..], k, v);
      BumpCons(t, k, v, rest);
      [t[0]] + rest
  }

  /** The step of `Bump` past a group of another key. */
  lemma BumpCons<K>(t: seq<Acc<K>>, k: K, v: Option<real>, rest: seq<Acc<K>>)
    requires t != [] && t[0].key != k && DistinctKeys(t) && DistinctKeys(rest)
    requires KeyIn(t[1..], k) ==> |rest| == |t| - 1
    requires KeyIn(t[1..], k) ==> forall j :: 0 <= j < |t| - 1 ==> rest[j] == if t[1..][j].key == k then Add(t[1..][j], v) else t[1..][j]
    requires !KeyIn(t[1..], k) ==> rest == t[1..] + [Acc(k, 1, Counted(v), Valued(v))]
    ensures DistinctKeys([t[0]] + rest)
    ensures KeyIn(t, k) ==> |[t[0]] + rest| == |t|
    ensures KeyIn(t, k) ==> forall j :: 0 <= j < |t| ==> ([t[0]] + rest)[j] == if t[j].key == k then Add(t[j], v) else t[j]
    ensures !KeyIn(t, k) ==> [t[0]] + rest == t + [Acc(k, 1, Counted(v), Valued(v))]
  {
    var tl := t[1..];
    assert KeyIn(t, k) <==> KeyIn(tl, k) by {
      if KeyIn(t, k) {
        var j :| 0 <= j < |t| && t[j].key == k;
        assert tl[j - 1] == t[j];
      }
      if KeyIn(tl, k) {
        var j :| 0 <= j < |tl| && tl[j].key == k;
        assert t[j + 1] == tl[j];
      }
    }
    forall j | 0 <= j < |rest| ensures rest[j].key != t[0].key {
      if j < |tl| {
        assert tl[j] == t[j + 1];
      }
    }
    var r := [t[0]] + rest;
    forall i, j | 0 <= i < j < |r| ensures r[i].key != r[j].key {
      assert r[j] == rest[j - 1];
      if i > 0 {
        assert r[i] == rest[i - 1];
      }
    }
    if KeyIn(t, k) {
      forall j | 0 <= j < |t| ensures r[j] == if t[j].key == k then Add(t[j], v) else t[j] {
        if j > 0 {
          assert r[j] == rest[j - 1] && t[j] == tl[j - 1];
        }
      }
    } else {
      assert [t[0]] + tl == t;
    }
  }

  /** `t` holds exactly the groups of `keys`: distinct keys, each entry agreeing with the
      reference definitions, and every present key having an entry. */
  ghost predicate Tallies<K>(keys: seq<Option<K>>, vals: seq<Option<real>>, t: seq<Acc<K>>)
    requires |keys| == |vals|
  {
    && DistinctKeys(t)
    && (forall j :: 0 <= j < |t| ==> t[j].rows == RowsWhere(keys, t[j].key) && t[j].rows > 0)
    && (forall j :: 0 <= j < |t| ==> t[j].present == PresentWhere(keys, vals, t[j].key))
    && (forall j :: 0 <= j < |t| ==> t[j].sum == SumWhere(keys, vals, t[j].key))
    && (forall i :: 0 <= i < |keys| && keys[i].Some? ==> KeyIn(t, keys[i].value))
  }

  /** The groups of `keys`, in order of first appearance; rows with a missing key belong
      to no group. */
  function Tally<K(==)>(keys: seq<Option<K>>, vals: seq<Option<real>>): (t: seq<Acc<K>>)
    requires |keys| == |vals|
    ensures Tallies(keys, vals, t)
    decreases |keys|
  {
    if keys == [] then []
    else
      var n := |keys| - 1;
      var t := Tally(keys[..n], vals[..n]);
      var r := if keys[n].None? then t else Bump(t, keys[n].value, vals[n]);
      assert Tallies(keys, vals, r) by {
        TallyStep(keys, vals, t);
      }
      r
  }

  /** Adding the last row to the groups of the others. */
  lemma TallyStep<K>(keys: seq<Option<K>>, vals: seq<Option<real>>, t: seq<Acc<K>>)
    requires |keys| == |vals| > 0
    requires Tallies(keys[..|keys| - 1], vals[..|keys| - 1], t)
    ensures Tallies(keys, vals, if keys[|keys| - 1].None? then t else Bump(t, keys[|keys| - 1].value, vals[|keys| - 1]))
  {
    var n := |keys| - 1;
    assert forall i :: 0 <= i < n ==> keys[..n][i] == keys[i];
    if keys[n].Some? {
      BumpEntries(keys, vals, t);
      BumpCovers(keys, vals, t);
    }
  }

  lemma BumpEntries<K>(keys: seq<Option<K>>, vals: seq<Option<real>>, t: seq<Acc<K>>)
    requires |keys| == |vals| > 0 && keys[|keys| - 1].Some?
    requires Tallies(keys[..|keys| - 1], vals[..|keys| - 1], t)
    ensures var r := Bump(t, keys[|keys| - 1].value, vals[|keys| - 1]);
            forall j :: 0 <= j < |r| ==>
              && r[j].rows == RowsWhere(keys, r[j].key) && r[j].rows > 0
              && r[j].present == PresentWhere(keys, vals, r[j].key)
              && r[j].sum == SumWhere(keys, vals, r[j].key)
  {
    var n := |keys| - 1;
    var pk, pv := keys[..n], vals[..n];
    var k := keys[n].value;
    var r := Bump(t, k, vals[n]);
    assert forall x :: RowsWhere(keys, x) == RowsWhere(pk, x) + (if keys[n] == Some(x) then 1 else 0);
    forall j | 0 <= j < |r|
      ensures r[j].rows == RowsWhere(keys, r[j].key) && r[j].rows > 0
      ensures r[j].present == PresentWhere(keys, vals, r[j].key)
      ensures r[j].sum == SumWhere(keys, vals, r[j].key)
    {
      if j < |t| {
        if t[j].key == k {
          assert r[j] == Add(t[j], vals[n]);
        } else {
          assert r[j] == t[j];
        }
      } else {
        assert !KeyIn(t, k);
        AbsentKey(pk, pv, k);
        assert r[j] == Acc(k, 1, Counted(vals[n]), Valued(vals[n]));
      }
    }
  }

  lemma BumpCovers<K>(keys: seq<Option<K>>, vals: seq<Option<real>>, t: seq<Acc<K>>)
    requires |keys| == |vals| > 0 && keys[|keys| - 1].Some?
    requires Tallies(keys[..|keys| - 1], vals[..|keys| - 1], t)
    ensures var r := Bump(t, keys[|keys| - 1].value, vals[|keys| - 1]);
            forall i :: 0 <= i < |keys| && keys[i].Some? ==> KeyIn(r, keys[i].value)
  {
    var n := |keys| - 1;
    var k := keys[n].value;
    var r := Bump(t, k, vals[n]);
    forall i | 0 <= i < |keys| && keys[i].Some? ensures KeyIn(r, keys[i].value) {
      if i < n {
        assert keys[..n][i] == keys[i];
        var j :| 0 <= j < |t| && t[j].key == keys[i].value;
        assert r[j].key == t[j].key;
      } else if KeyIn(t, k) {
        var j :| 0 <= j < |t| && t[j].key == k;
        assert r[j].key == k;
      } else {
        assert r[|t|].key == k;
      }
    }
  }

  /** Reordering the groups of `keys` keeps them the groups of `keys`. */
  lemma Regrouped<K>(keys: seq<Option<K>>, vals: seq<Option<real>>, t: seq<Acc<K>>,
                     key: Acc<K> -> Option<real>)
    requires |keys| == |vals| && Tallies(keys, vals, t)
    ensures Tallies(keys, vals, Ranking.SortDesc(t, key))
  {
    var r := Ranking.SortDesc(t, key);
    assert Ranking.Distinct(t);
    Ranking.SortDescDistinct(t, key);
    forall i, j | 0 <= i < j < |r| ensures r[i].key != r[j].key {
      assert r[i] in multiset(r) && r[j] in multiset(r);
      var a :| 0 <= a < |t| && t[a] == r[i];
      var b :| 0 <= b < |t| && t[b] == r[j];
      assert a != b;
    }
    forall j | 0 <= j < |r|
      ensures r[j].rows == RowsWhere(keys, r[j].key) && r[j].rows > 0
      ensures r[j].present == PresentWhere(keys, vals, r[j].key)
      ensures r[j].sum == SumWhere(keys, vals, r[j].key)
    {
      assert r[j] in multiset(r);
      var a :| 0 <= a < |t| && t[a] == r[j];
    }
    forall i | 0 <= i < |keys| && keys[i].Some? ensures KeyIn(r, keys[i].value) {
      var j :| 0 <= j < |t| && t[j].key == keys[i].value;
      assert t[j] in multiset(t);
    }
  }

  /** The position of the group of `k`, if any. */
  function Find<K(==)>(t: seq<Acc<K>>, k: K): (j: Option<nat>)
    ensures j.Some? ==> j.value < |t| && t[j.value].key == k
    ensures j.None? <==> !KeyIn(t, k)
  {
    if t == [] then None
    else if t[0].key == k then Some(0)
    else
      match Find(t[1..], k)
      case Some(j) => Some(j + 1)
      case None =>
        assert forall j :: 1 <= j < |t| ==> t[j] == t[1..][j - 1];
        None
  }

  /** Changing the value of a row outside group `k` leaves the group of `k` as it was. */
  lemma {:induction false} OtherRowIgnored<K>(keys: seq<Option<K>>, vals: seq<Option<real>>, i: nat,
                                              v: Option<real>, k: K)
    requires |keys| == |vals| && i < |vals| && keys[i] != Some(k)
    ensures PresentWhere(keys, vals[i := v], k) == PresentWhere(keys, vals, k)
    ensures SumWhere(keys, vals[i := v], k) == SumWhere(keys, vals, k)
  {
    var n := |keys| - 1;
    if i < n {
      assert vals[i := v][..n] == vals[..n][i := v];
      OtherRowIgnored(keys[..n], vals[..n], i, v, k);
    } else {
      assert vals[i := v][..n] == vals[..n];
    }
  }

  function RowsOf<K>(a: Acc<K>): real
  {
    a.rows as real
  }

  function SumOf<K>(a: Acc<K>): real
  {
    a.sum
  }

  lemma {:induction false} BumpTotals<K>(t: seq<Acc<K>>, k: K, v: Option<real>)
    requires DistinctKeys(t)
    ensures Ranking.Total(Bump(t, k, v), RowsOf) == Ranking.Total(t, RowsOf) + 1.0
    ensures Ranking.Total(Bump(t, k, v), SumOf) == Ranking.Total(t, SumOf) + Valued(v)
  {
    if t == [] {
    } else if t[0].key == k {
      assert ([Add(t[0], v)] + t[1..])[1..] == t[1..];
    } else {
      BumpTotals(t[1..], k, v);
      assert ([t[0]] + Bump(t[1..], k, v))[1..] == Bump(t[1..], k, v);
    }
  }

  /** The group sizes add up to the rows with a present key, and the group sums to the
      sum over those rows. */
  lemma {:induction false} TallyTotals<K>(keys: seq<Option<K>>, vals: seq<Option<real>>)
    requires |keys| == |vals|
    ensures Ranking.Total(Tally(keys, vals), RowsOf) == RowsWithKey(keys) as real
    ensures Ranking.Total(Tally(keys, vals), SumOf) == SumWithKey(keys, vals)
    decreases |keys|
  {
    if keys != [] {
      var n := |keys| - 1;
      TallyTotals(keys[..n], vals[..n]);
      if keys[n].Some? {
        BumpTotals(Tally(keys[..n], vals[..n]), keys[n].value, vals[n]);
      }
    }
  }

  /** `mean()` of a group: missing when no row of the group has a value. */
  function Mean<K>(a: Acc<K>): (m: Option<real>)
    ensures m.Some? <==> a.present > 0
    ensures m.Some? ==> m.value == a.sum / a.present as real
  {
    if a.present == 0 then None else Some(a.sum / a.present as real)
  }

  /** No values, for `value_counts`, which only counts rows. */
  function Nones(n: nat): (r: seq<Option<real>>)
    ensures |r| == n && forall i :: 0 <= i < n ==> r[i].None?
  {
    seq(n, i => None)
  }

  function CountKey<K>(a: Acc<K>): Option<real>
  {
    Some(a.rows as real)
  }

  function SumKey<K>(a: Acc<K>): Option<real>
  {
    Some(a.sum)
  }

  function MeanKey<K>(a: Acc<K>): Option<real>
  {
    Mean(a)
  }

  /** Orders numeric keys ascending, as `sort_index()` and `groupby(sort=True)` do. */
  function AscendingKey(a: Acc<real>): Option<real>
  {
    Some(-a.key)
  }

  // ---------------------------------------------------------------------------------------
  // The pandas operations
  // ---------------------------------------------------------------------------------------

  /** `s.value_counts()`: one entry per present key with its number of rows, most
      frequent first; the counts add up to the rows with a present key. */
  function ValueCounts<K(==)>(keys: seq<Option<K>>): (r: seq<Acc<K>>)
    ensures Tallies(keys, Nones(|keys|), r)
    ensures forall i, j :: 0 <= i < j < |r| ==> r[i].rows >= r[j].rows
    ensures Ranking.Total(r, RowsOf) == RowsWithKey(keys) as real
  {
    var t := Tally(keys, Nones(|keys|));
    Regrouped(keys, Nones(|keys|), t, CountKey);
    TallyTotals(keys, Nones(|keys|));
    Ranking.SortDescTotal(t, CountKey, RowsOf);
    var r := Ranking.SortDesc(t, CountKey);
    assert forall i, j :: 0 <= i < j < |r| ==> Ranking.AtLeast(CountKey(r[i]), CountKey(r[j]));
    r
  }

  /** `groupby(key)[val].sum().sort_values(ascending=False)`: one entry per present key,
      its sum skipping missing values, largest sum first; the sums add up to the total
      over rows with a present key. */
  function SumsDesc<K(==)>(keys: seq<Option<K>>, vals: seq<Option<real>>): (r: seq<Acc<K>>)
    requires |keys| == |vals|
    ensures Tallies(keys, vals, r)
    ensures forall i, j :: 0 <= i < j < |r| ==> r[i].sum >= r[j].sum
    ensures Ranking.Total(r, SumOf) == SumWithKey(keys, vals)
  {
    var t := Tally(keys, vals);
    Regrouped(keys, vals, t, SumKey);
    TallyTotals(keys, vals);
    Ranking.SortDescTotal(t, SumKey, SumOf);
    var r := Ranking.SortDesc(t, SumKey);
    assert forall i, j :: 0 <= i < j < |r| ==> Ranking.AtLeast(SumKey(r[i]), SumKey(r[j]));
    r
  }

  /** `groupby(key)[val].mean().sort_values(ascending=False)`: the groups by mean,
      largest first, groups without any value (NaN) last. */
  function MeansDesc<K(==)>(keys: seq<Option<K>>, vals: seq<Option<real>>): (r: seq<Acc<K>>)
    requires |keys| == |vals|
    ensures Tallies(keys, vals, r)
    ensures forall i, j :: 0 <= i < j < |r| && Mean(r[j]).Some? ==>
              Mean(r[i]).Some? && Mean(r[i]).value >= Mean(r[j]).value
  {
    var t := Tally(keys, vals);
    Regrouped(keys, vals, t, MeanKey);
    var r := Ranking.SortDesc(t, MeanKey);
    assert forall i, j :: 0 <= i < j < |r| ==> Ranking.AtLeast(MeanKey(r[i]), MeanKey(r[j]));
    r
  }

  /** The groups in ascending order of `rank(key)`, as `groupby(key)` (which sorts its
      keys) and `sort_index()` give them. */
  function ByKey<K(==)>(keys: seq<Option<K>>, vals: seq<Option<real>>, rank: K -> real): (r: seq<Acc<K>>)
    requires |keys| == |vals|
    ensures Tallies(keys, vals, r)
    ensures forall i, j :: 0 <= i < j < |r| ==> rank(r[i].key) <= rank(r[j].key)
    ensures Ranking.Total(r, RowsOf) == RowsWithKey(keys) as real
  {
    var t := Tally(keys, vals);
    var order := (a: Acc<K>) => Some(-rank(a.key));
    Regrouped(keys, vals, t, order);
    TallyTotals(keys, vals);
    Ranking.SortDescTotal(t, order, RowsOf);
    var r := Ranking.SortDesc(t, order);
    assert forall i, j :: 0 <= i < j < |r| ==> Ranking.AtLeast(order(r[i]), order(r[j]));
    r
  }

  function Identity(x: real): real
  {
    x
  }

  /** `False` sorts before `True`. */
  function FlagRank(b: bool): real
  {
    if b then 1.0 else 0.0
  }

  /** Two flags in lexicographic order. */
  function FlagPairRank(p: (bool, bool)): real
  {
    2.0 * FlagRank(p.0) + FlagRank(p.1)
  }

  /** Numeric group keys come out strictly ascending. */
  lemma NumericKeysAscending(keys: seq<Option<real>>, vals: seq<Option<real>>)
    requires |keys| == |vals|
    ensures var r := ByKey(keys, vals, Identity);
            forall i, j :: 0 <= i < j < |r| ==> r[i].key < r[j].key
  {
    var r := ByKey(keys, vals, Identity);
    forall i, j | 0 <= i < j < |r| ensures r[i].key < r[j].key {
      assert Identity(r[i].key) <= Identity(r[j].key);
      assert r[i].key != r[j].key;
    }
  }

  /** The set of group keys. */
  function KeySet<K>(t: seq<Acc<K>>): set<K>
  {
    if t == [] then {} else KeySet(t[..|t| - 1]) + {t[|t| - 1].key}
  }

  lemma {:induction false} KeySetMembers<K>(t: seq<Acc<K>>)
    ensures forall k :: k in KeySet(t) <==> KeyIn(t, k)
  {
    if t != [] {
      var n := |t| - 1;
      KeySetMembers(t[..n]);
      forall k ensures k in KeySet(t) <==> KeyIn(t, k) {
        if KeyIn(t, k) {
          var j :| 0 <= j < |t| && t[j].key == k;
          if j < n {
            assert t[..n][j].key == k;
          }
        }
        if KeyIn(t[..n], k) {
          var j :| 0 <= j < n && t[..n][j].key == k;
          assert t[j].key == k;
        }
      }
    }
  }

  /** Distinct keys: as many groups as keys. */
  lemma {:induction false} KeySetSize<K>(t: seq<Acc<K>>)
    requires DistinctKeys(t)
    ensures |KeySet(t)| == |t|
  {
    if t != [] {
      var n := |t| - 1;
      KeySetSize(t[..n]);
      KeySetMembers(t[..n]);
      assert forall j :: 0 <= j < n ==> t[..n][j].key != t[n].key;
    }
  }

  lemma {:induction false} SubsetSize<T>(a: set<T>, b: set<T>)
    requires a <= b
    ensures |a| <= |b|
    decreases |a|
  {
    if a != {} {
      var x :| x in a;
      SubsetSize(a - {x}, b - {x});
    }
  }

  lemma TwoFlags(r: seq<Acc<bool>>)
    requires DistinctKeys(r)
    requires forall i, j :: 0 <= i < j < |r| ==> FlagRank(r[i].key) <= FlagRank(r[j].key)
    ensures |r| <= 2 && (|r| == 2 ==> !r[0].key && r[1].key)
  {
    KeySetSize(r);
    var both := {false, true};
    assert forall k :: k in both;
    SubsetSize(KeySet(r), both);
    if |r| == 2 {
      assert r[0].key != r[1].key;
    }
  }

  lemma FourFlagPairs(r: seq<Acc<(bool, bool)>>)
    requires DistinctKeys(r)
    requires forall i, j :: 0 <= i < j < |r| ==> FlagPairRank(r[i].key) <= FlagPairRank(r[j].key)
    ensures |r| <= 4 && forall i, j :: 0 <= i < j < |r| ==> FlagPairRank(r[i].key) < FlagPairRank(r[j].key)
  {
    KeySetSize(r);
    var all := {(false, false), (false, true), (true, false), (true, true)};
    AllFlagPairs(all);
    SubsetSize(KeySet(r), all);
    forall i, j | 0 <= i < j < |r| ensures FlagPairRank(r[i].key) < FlagPairRank(r[j].key) {
      assert r[i].key != r[j].key;
    }
  }

  lemma AllFlagPairs(all: set<(bool, bool)>)
    requires all == {(false, false), (false, true), (true, false), (true, true)}
    ensures |all| == 4 && forall k :: k in all
  {
    forall k: (bool, bool) ensures k in all {
      var (a, b) := k;
      if a && b { assert k == (true, true); } else if a { assert k == (true, false); }
      else if b { assert k == (false, true); } else { assert k == (false, false); }
    }
  }

  /** A flag column has at most two groups, `False` first. */
  lemma FlagGroups(keys: seq<Option<bool>>, vals: seq<Option<real>>)
    requires |keys| == |vals|
    ensures var r := ByKey(keys, vals, FlagRank);
            |r| <= 2 && (|r| == 2 ==> !r[0].key && r[1].key)
  {
    TwoFlags(ByKey(keys, vals, FlagRank));
  }

  /** A pair of flags has at most four groups, in lexicographic order. */
  lemma FlagPairGroups(keys: seq<Option<(bool, bool)>>, vals: seq<Option<real>>)
    requires |keys| == |vals|
    ensures var r := ByKey(keys, vals, FlagPairRank);
            |r| <= 4 && forall i, j :: 0 <= i < j < |r| ==> FlagPairRank(r[i].key) < FlagPairRank(r[j].key)
  {
    FourFlagPairs(ByKey(keys, vals, FlagPairRank));
  }

  // ---------------------------------------------------------------------------------------
  // explode
  // ---------------------------------------------------------------------------------------

  /** Rows one list contributes: one per element, or one (with a missing key) when empty. */
  function Width<K>(ps: seq<K>): nat
  {
    if ps == [] then 1 else |ps|
  }

  function AllSome<K>(ps: seq<K>): (r: seq<Option<K>>)
    ensures |r| == |ps| && forall j :: 0 <= j < |ps| ==> r[j] == Some(ps[j])
  {
    seq(|ps|, j requires 0 <= j < |ps| => Some(ps[j]))
  }

  /** The keys `explode` gives the rows of one list. */
  function RowKeys<K>(ps: seq<K>): (r: seq<Option<K>>)
    ensures |r| == Width(ps)
  {
    if ps == [] then [None] else AllSome(ps)
  }

  function Repeat<T>(x: T, n: nat): (r: seq<T>)
    ensures |r| == n && forall j :: 0 <= j < n ==> r[j] == x
  {
    seq(n, j => x)
  }

  /** The key column of `df.explode(col)`. */
  function ExplodeKeys<K>(lists: seq<seq<K>>): seq<Option<K>>
  {
    if lists == [] then []
    else
      var n := |lists| - 1;
      ExplodeKeys(lists[..n]) + RowKeys(lists[n])
  }

  /** For each exploded row, the frame row it was copied from. */
  function ExplodeRows<K>(lists: seq<seq<K>>): seq<nat>
  {
    if lists == [] then []
    else
      var n := |lists| - 1;
      ExplodeRows(lists[..n]) + Repeat(n, Width(lists[n]))
  }

  /** Any other column of the exploded frame: each value copied once per contributed row. */
  function ExplodeVals<K>(lists: seq<seq<K>>, vals: seq<Option<real>>): seq<Option<real>>
    requires |lists| == |vals|
  {
    if lists == [] then []
    else
      var n := |lists| - 1;
      ExplodeVals(lists[..n], vals[..n]) + Repeat(vals[n], Width(lists[n]))
  }

  /** Number of exploded rows. */
  function TotalWidth<K>(lists: seq<seq<K>>): nat
  {
    if lists == [] then 0 else TotalWidth(lists[..|lists| - 1]) + Width(lists[|lists| - 1])
  }

  function Occur<T(==)>(s: seq<T>, x: T): nat
  {
    if s == [] then 0 else Occur(s[..|s| - 1], x) + (if s[|s| - 1] == x then 1 else 0)
  }

  lemma {:induction false} OccurAppend<T>(a: seq<T>, b: seq<T>, x: T)
    ensures Occur(a + b, x) == Occur(a, x) + Occur(b, x)
    decreases |b|
  {
    if b == [] {
      assert a + b == a;
    } else {
      assert (a + b)[..|a + b| - 1] == a + b[..|b| - 1];
      OccurAppend(a, b[..|b| - 1], x);
    }
  }

  lemma {:induction false} OccurRepeat<T>(y: T, n: nat, x: T)
    ensures Occur(Repeat(y, n), x) == if y == x then n else 0
  {
    if n > 0 {
      assert Repeat(y, n)[..n - 1] == Repeat(y, n - 1);
      OccurRepeat(y, n - 1, x);
    }
  }

  /** Each exploded row is a copy of a frame row, its key an element of that row's list or
      missing when the list is empty. */
  lemma {:induction false} ExplodeCopies<K>(lists: seq<seq<K>>, vals: seq<Option<real>>)
    requires |lists| == |vals|
    ensures |ExplodeKeys(lists)| == |ExplodeRows(lists)| == |ExplodeVals(lists, vals)|
    ensures forall m :: 0 <= m < |ExplodeRows(lists)| ==>
              var i := ExplodeRows(lists)[m];
              i < |lists| && ExplodeVals(lists, vals)[m] == vals[i]
              && (ExplodeKeys(lists)[m].None? <==> lists[i] == [])
              && (ExplodeKeys(lists)[m].Some? ==> ExplodeKeys(lists)[m].value in lists[i])
  {
    ExplodeLengths(lists, vals);
    if lists != [] {
      var n := |lists| - 1;
      var pre, last := lists[..n], lists[n];
      ExplodeCopies(pre, vals[..n]);
      var rows := ExplodeRows(lists);
      var keys := ExplodeKeys(lists);
      var xv := ExplodeVals(lists, vals);
      var w := |ExplodeRows(pre)|;
      forall m | 0 <= m < |rows|
        ensures rows[m] < |lists| && xv[m] == vals[rows[m]]
        ensures keys[m].None? <==> lists[rows[m]] == []
        ensures keys[m].Some? ==> keys[m].value in lists[rows[m]]
      {
        if m < w {
          assert rows[m] == ExplodeRows(pre)[m];
          assert xv[m] == ExplodeVals(pre, vals[..n])[m];
          assert keys[m] == ExplodeKeys(pre)[m];
          assert lists[rows[m]] == pre[rows[m]];
        } else {
          assert rows[m] == n;
          assert xv[m] == vals[n];
          assert keys[m] == RowKeys(last)[m - w];
          if last != [] {
            assert keys[m] == Some(last[m - w]);
          }
        }
      }
    }
  }

  /** Row `i` of the frame contributes `Width(lists[i])` exploded rows. */
  lemma {:induction false} ExplodeCounts<K>(lists: seq<seq<K>>)
    ensures forall i :: 0 <= i < |lists| ==> Occur(ExplodeRows(lists), i) == Width(lists[i])
  {
    if lists != [] {
      var n := |lists| - 1;
      var pre, last := lists[..n], lists[n];
      ExplodeCounts(pre);
      ExplodeCopies(pre, Nones(n));
      var rows := ExplodeRows(lists);
      forall i | 0 <= i < |lists| ensures Occur(rows, i) == Width(lists[i]) {
        OccurAppend(ExplodeRows(pre), Repeat(n, Width(last)), i);
        OccurRepeat(n, Width(last), i);
        if i < n {
          assert pre[i] == lists[i];
        } else {
          assert Occur(ExplodeRows(pre), n) == 0 by {
            OccurAbsent(ExplodeRows(pre), n);
          }
        }
      }
    }
  }

  /** The exploded columns line up, row `i` of the frame contributing `Width(lists[i])`
      rows, each a copy of row `i`, whose keys are the elements of its list. */
  lemma ExplodeShape<K>(lists: seq<seq<K>>, vals: seq<Option<real>>)
    requires |lists| == |vals|
    ensures |ExplodeKeys(lists)| == |ExplodeRows(lists)| == |ExplodeVals(lists, vals)| == TotalWidth(lists)
    ensures forall m :: 0 <= m < |ExplodeRows(lists)| ==>
              var i := ExplodeRows(lists)[m];
              i < |lists| && ExplodeVals(lists, vals)[m] == vals[i]
              && (ExplodeKeys(lists)[m].None? <==> lists[i] == [])
              && (ExplodeKeys(lists)[m].Some? ==> ExplodeKeys(lists)[m].value in lists[i])
    ensures forall i :: 0 <= i < |lists| ==> Occur(ExplodeRows(lists), i) == Width(lists[i])
  {
    ExplodeLengths(lists, vals);
    ExplodeCopies(lists, vals);
    ExplodeCounts(lists);
  }

  lemma {:induction false} ExplodeLengths<K>(lists: seq<seq<K>>, vals: seq<Option<real>>)
    requires |lists| == |vals|
    ensures |ExplodeKeys(lists)| == |ExplodeRows(lists)| == |ExplodeVals(lists, vals)| == TotalWidth(lists)
  {
    if lists != [] {
      var n := |lists| - 1;
      ExplodeLengths(lists[..n], vals[..n]);
    }
  }

  lemma {:induction false} OccurAbsent<K>(s: seq<K>, x: K)
    requires x !in s
    ensures Occur(s, x) == 0
  {
    if s != [] {
      assert s[..|s| - 1] <= s;
      OccurAbsent(s[..|s| - 1], x);
    }
  }

  lemma ExplodeRowsBound<K>(lists: seq<seq<K>>)
    ensures forall m :: 0 <= m < |ExplodeRows(lists)| ==> ExplodeRows(lists)[m] < |lists|
  {
    ExplodeShape(lists, Nones(|lists|));
  }

  /** Every element of every list becomes a key of the exploded frame. */
  lemma {:induction false} ExplodedKeyPresent<K>(lists: seq<seq<K>>, i: nat, g: K) returns (m: nat)
    requires i < |lists| && g in lists[i]
    ensures m < |ExplodeKeys(lists)| && ExplodeKeys(lists)[m] == Some(g)
  {
    var n := |lists| - 1;
    var pre := ExplodeKeys(lists[..n]);
    if i < n {
      assert lists[..n][i] == lists[i];
      m := ExplodedKeyPresent(lists[..n], i, g);
      assert ExplodeKeys(lists)[m] == pre[m];
    } else {
      var j :| 0 <= j < |lists[n]| && lists[n][j] == g;
      m := |pre| + j;
      assert ExplodeKeys(lists)[m] == RowKeys(lists[n])[j];
    }
  }

  /** `c` copies of `x` added up. */
  function Times(c: nat, x: real): (r: real)
  {
    if c == 0 then 0.0 else Times(c - 1, x) + x
  }

  lemma {:induction false} TimesIsProduct(c: nat, x: real)
    ensures Times(c, x) == c as real * x
  {
    if c > 0 {
      TimesIsProduct(c - 1, x);
    }
  }

  /** Per-key totals over the original frame: each row counts once per occurrence of the
      key in its list. */
  function ListSum<K(==)>(lists: seq<seq<K>>, vals: seq<Option<real>>, k: K): real
    requires |lists| == |vals|
  {
    if lists == [] then 0.0
    else
      var n := |lists| - 1;
      ListSum(lists[..n], vals[..n], k) + Times(Occur(lists[n], k), Valued(vals[n]))
  }

  lemma {:induction false} SumWhereAppend<K>(a: seq<Option<K>>, va: seq<Option<real>>,
                                             b: seq<Option<K>>, vb: seq<Option<real>>, k: K)
    requires |a| == |va| && |b| == |vb|
    ensures SumWhere(a + b, va + vb, k) == SumWhere(a, va, k) + SumWhere(b, vb, k)
    decreases |b|
  {
    if b == [] {
      assert a + b == a && va + vb == va;
    } else {
      var n := |b| - 1;
      assert (a + b)[..|a + b| - 1] == a + b[..n];
      assert (va + vb)[..|va + vb| - 1] == va + vb[..n];
      SumWhereAppend(a, va, b[..n], vb[..n], k);
    }
  }

  lemma {:induction false} SumWhereAllSome<K>(ps: seq<K>, v: Option<real>, k: K)
    ensures SumWhere(AllSome(ps), Repeat(v, |ps|), k) == Times(Occur(ps, k), Valued(v))
  {
    if ps != [] {
      var n := |ps| - 1;
      assert AllSome(ps)[..n] == AllSome(ps[..n]);
      assert Repeat(v, |ps|)[..n] == Repeat(v, n);
      SumWhereAllSome(ps[..n], v, k);
    }
  }

  /** The group sum of key `k` after `explode` is the sum, over the frame, of each row's
      value times the number of times `k` is in its list. */
  lemma {:induction false} ExplodedSum<K>(lists: seq<seq<K>>, vals: seq<Option<real>>, k: K)
    requires |lists| == |vals|
    ensures |ExplodeKeys(lists)| == |ExplodeVals(lists, vals)|
    ensures SumWhere(ExplodeKeys(lists), ExplodeVals(lists, vals), k) == ListSum(lists, vals, k)
  {
    ExplodeLengths(lists, vals);
    if lists != [] {
      var n := |lists| - 1;
      var pre, pvals, last := lists[..n], vals[..n], lists[n];
      ExplodedSum(pre, pvals, k);
      ExplodeLengths(pre, pvals);
      var ek, ev := ExplodeKeys(pre), ExplodeVals(pre, pvals);
      var rk, rv := RowKeys(last), Repeat(vals[n], Width(last));
      assert ExplodeKeys(lists) == ek + rk;
      assert ExplodeVals(lists, vals) == ev + rv;
      SumWhereAppend(ek, ev, rk, rv, k);
      if last != [] {
        SumWhereAllSome(last, vals[n], k);
      } else {
        assert SumWhere(rk, rv, k) == 0.0;
      }
      assert ListSum(lists, vals, k) == ListSum(pre, pvals, k) + Times(Occur(last, k), Valued(vals[n]));
    }
  }
}
