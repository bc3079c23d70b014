/** Row rankings: `nlargest`, `nsmallest`, `idxmax`, `sort_values(...).head(n)` and the
    `dropna` that follows a ranking. Rows are named by their position in the frame. */
module Ranking {
  import opened Wrappers

  /** `a` ranks at or above `b` in a descending order that puts missing values last. */
  predicate AtLeast(a: Option<real>, b: Option<real>)
  {
    b.None? || (a.Some? && a.value >= b.value)
  }

  predicate SortedDesc<T>(s: seq<T>, key: T -> Option<real>)
  {
    forall i, j :: 0 <= i < j < |s| ==> AtLeast(key(s[i]), key(s[j]))
  }

  /** Rows with equal keys stay in frame order (pandas' `keep="first"`). */
  predicate TiesAscending(s: seq<nat>, key: nat -> Option<real>)
  {
    forall i, j :: 0 <= i < j < |s| && key(s[i]) == key(s[j]) ==> s[i] < s[j]
  }

  predicate Increasing(s: seq<nat>)
  {
    forall i, j :: 0 <= i < j < |s| ==> s[i] < s[j]
  }

  lemma SortedTail<T>(s: seq<T>, key: T -> Option<real>)
    requires SortedDesc(s, key) && s != []
    ensures SortedDesc(s[1..], key)
  {
    assert forall k :: 0 <= k < |s| - 1 ==> s[1..][k] == s[k + 1];
  }

  /** An element ranked at or above every element of a sorted sequence can go first. */
  lemma SortedCons<T>(x: T, rest: seq<T>, key: T -> Option<real>)
    requires SortedDesc(rest, key)
    requires forall y :: y in rest ==> AtLeast(key(x), key(y))
    ensures SortedDesc([x] + rest, key)
  {
    var r := [x] + rest;
    forall i, j | 0 <= i < j < |r| ensures AtLeast(key(r[i]), key(r[j])) {
      assert r[j] == rest[j - 1];
      if i > 0 {
        assert r[i] == rest[i - 1];
      }
    }
  }

  /** Inserts `x` before the first element it ranks at or above. */
  function Insert<T>(x: T, s: seq<T>, key: T -> Option<real>): (r: seq<T>)
    ensures multiset(r) == multiset(s) + multiset{x}
    ensures SortedDesc(s, key) ==> SortedDesc(r, key)
  {
    if s == [] || AtLeast(key(x), key(s[0])) then
      assert SortedDesc(s, key) ==> SortedDesc([x] + s, key) by {
        if SortedDesc(s, key) {
          forall y | y in s ensures AtLeast(key(x), key(y)) {
            var j :| 0 <= j < |s| && s[j] == y;
            if j > 0 {
              assert AtLeast(key(s[0]), key(s[j]));
            }
          }
          SortedCons(x, s, key);
        }
      }
      [x] + s
    else
      var rest := Insert(x, s[1..], key);
      assert s == [s[0]] + s[1..];
      assert SortedDesc(s, key) ==> SortedDesc([s[0]] + rest, key) by {
        if SortedDesc(s, key) {
          SortedTail(s, key);
          forall y | y in rest ensures AtLeast(key(s[0]), key(y)) {
            assert y in multiset(rest);
            if y != x {
              var j :| 0 <= j < |s[1..]| && s[1..][j] == y;
              assert s[j + 1] == y;
            }
          }
          SortedCons(s[0], rest, key);
        }
      }
      [s[0]] + rest
  }

  /** A stable insertion sort, descending by `key`, missing keys last. */
  function SortDesc<T>(s: seq<T>, key: T -> Option<real>): (r: seq<T>)
    ensures multiset(r) == multiset(s)
    ensures |r| == |s|
    ensures SortedDesc(r, key)
  {
    if s == [] then []
    else
      assert s == [s[0]] + s[1..];
      Insert(s[0], SortDesc(s[1..], key), key)
  }

  lemma InsertMembers<T>(x: T, s: seq<T>, key: T -> Option<real>)
    ensures forall y :: y in Insert(x, s, key) <==> y == x || y in s
  {
    var r := Insert(x, s, key);
    forall y ensures y in r <==> y == x || y in s {
      assert y in r <==> y in multiset(r);
      assert y in s <==> y in multiset(s);
    }
  }

  lemma SortDescMembers<T>(s: seq<T>, key: T -> Option<real>)
    ensures forall y :: y in SortDesc(s, key) <==> y in s
  {
    var r := SortDesc(s, key);
    forall y ensures y in r <==> y in s {
      assert y in r <==> y in multiset(r);
      assert y in s <==> y in multiset(s);
    }
  }

  lemma TiesTail(s: seq<nat>, key: nat -> Option<real>)
    requires TiesAscending(s, key) && s != []
    ensures TiesAscending(s[1..], key)
  {
    forall i, j | 0 <= i < j < |s[1..]| && key(s[1..][i]) == key(s[1..][j])
      ensures s[1..][i] < s[1..][j]
    {
      assert s[1..][i] == s[i + 1] && s[1..][j] == s[j + 1];
    }
  }

  lemma TiesCons(h: nat, rest: seq<nat>, key: nat -> Option<real>)
    requires TiesAscending(rest, key)
    requires forall y :: y in rest && key(h) == key(y) ==> h < y
    ensures TiesAscending([h] + rest, key)
  {
    var r := [h] + rest;
    forall i, j | 0 <= i < j < |r| && key(r[i]) == key(r[j]) ensures r[i] < r[j] {
      if i == 0 {
        assert r[j] in rest;
      } else {
        assert r[i] == rest[i - 1] && r[j] == rest[j - 1];
      }
    }
  }

  lemma {:induction false} InsertTies(x: nat, s: seq<nat>, key: nat -> Option<real>)
    requires TiesAscending(s, key)
    requires forall y :: y in s ==> x < y
    ensures TiesAscending(Insert(x, s, key), key)
  {
    if s == [] || AtLeast(key(x), key(s[0])) {
      TiesCons(x, s, key);
    } else {
      var rest := Insert(x, s[1..], key);
      TiesTail(s, key);
      assert forall y :: y in s[1..] ==> y in s;
      InsertTies(x, s[1..], key);
      InsertMembers(x, s[1..], key);
      forall y | y in rest && key(s[0]) == key(y) ensures s[0] < y {
        if y != x {
          var j :| 0 <= j < |s[1..]| && s[1..][j] == y;
          assert s[j + 1] == y;
        }
      }
      TiesCons(s[0], rest, key);
    }
  }

  /** Sorting rows given in frame order keeps equal keys in frame order. */
  lemma {:induction false} SortDescTies(s: seq<nat>, key: nat -> Option<real>)
    requires Increasing(s)
    ensures TiesAscending(SortDesc(s, key), key)
  {
    if s != [] {
      assert Increasing(s[1..]) by {
        forall i, j | 0 <= i < j < |s[1..]| ensures s[1..][i] < s[1..][j] {
          assert s[1..][i] == s[i + 1] && s[1..][j] == s[j + 1];
        }
      }
      SortDescTies(s[1..], key);
      SortDescMembers(s[1..], key);
      forall y | y in SortDesc(s[1..], key) ensures s[0] < y {
        var j :| 0 <= j < |s[1..]| && s[1..][j] == y;
        assert s[j + 1] == y;
      }
      InsertTies(s[0], SortDesc(s[1..], key), key);
    }
  }

  ghost predicate Distinct<T>(s: seq<T>)
  {
    forall i, j :: 0 <= i < j < |s| ==> s[i] != s[j]
  }

  lemma {:induction false} DistinctMultiplicity<T>(s: seq<T>, x: T)
    requires Distinct(s)
    ensures multiset(s)[x] <= 1
  {
    if s != [] {
      assert s == [s[0]] + s[1..];
      assert Distinct(s[1..]) by {
        forall i, j | 0 <= i < j < |s[1..]| ensures s[1..][i] != s[1..][j] {
          assert s[1..][i] == s[i + 1] && s[1..][j] == s[j + 1];
        }
      }
      DistinctMultiplicity(s[1..], x);
      if s[0] == x {
        assert forall j :: 0 <= j < |s[1..]| ==> s[1..][j] == s[j + 1];
        assert x !in s[1..];
      }
    }
  }

  lemma RepeatedMultiplicity<T>(s: seq<T>, i: nat, j: nat)
    requires i < j < |s| && s[i] == s[j]
    ensures multiset(s)[s[i]] >= 2
  {
    assert s == s[..i] + [s[i]] + s[i + 1..j] + [s[j]] + s[j + 1..];
  }

  /** Reordering keeps a sequence free of repetitions. */
  lemma SortDescDistinct<T>(s: seq<T>, key: T -> Option<real>)
    requires Distinct(s)
    ensures Distinct(SortDesc(s, key))
  {
    var r := SortDesc(s, key);
    forall i, j | 0 <= i < j < |r| ensures r[i] != r[j] {
      if r[i] == r[j] {
        RepeatedMultiplicity(r, i, j);
        DistinctMultiplicity(s, r[i]);
      }
    }
  }

  /** Sum of a weight over a sequence. */
  function Total<T>(s: seq<T>, w: T -> real): real
  {
    if s == [] then 0.0 else w(s[0]) + Total(s[1..], w)
  }

  lemma {:induction false} InsertTotal<T>(x: T, s: seq<T>, key: T -> Option<real>, w: T -> real)
    ensures Total(Insert(x, s, key), w) == w(x) + Total(s, w)
  {
    if s == [] || AtLeast(key(x), key(s[0])) {
      assert ([x] + s)[1..] == s;
    } else {
      InsertTotal(x, s[1..], key, w);
      assert ([s[0]] + Insert(x, s[1..], key))[1..] == Insert(x, s[1..], key);
    }
  }

  /** Reordering does not change a total. */
  lemma {:induction false} SortDescTotal<T>(s: seq<T>, key: T -> Option<real>, w: T -> real)
    ensures Total(SortDesc(s, key), w) == Total(s, w)
  {
    if s != [] {
      SortDescTotal(s[1..], key, w);
      InsertTotal(s[0], SortDesc(s[1..], key), key, w);
    }
  }

  // ---------------------------------------------------------------------------------------
  // Rows of a column
  // ---------------------------------------------------------------------------------------

  /** The key of row `i` of a column; rows past the end read as missing. */
  function At(col: seq<Option<real>>): nat -> Option<real>
  {
    (i: nat) => if i < |col| then col[i] else None
  }

  /** Rows `from`, `from + 1`, ... of `col` whose value is present, in frame order. */
  function PresentFrom(col: seq<Option<real>>, from: nat): (r: seq<nat>)
    requires from <= |col|
    ensures Increasing(r)
    ensures forall i :: i in r <==> from <= i < |col| && col[i].Some?
    decreases |col| - from
  {
    if from == |col| then []
    else
      var rest := PresentFrom(col, from + 1);
      assert forall k :: 0 <= k < |rest| ==> from < rest[k] by {
        forall k | 0 <= k < |rest| ensures from < rest[k] {
          assert rest[k] in rest;
        }
      }
      if col[from].Some? then [from] + rest else rest
  }

  /** The rows with a present value, in frame order. */
  function PresentRows(col: seq<Option<real>>): (r: seq<nat>)
    ensures Increasing(r)
    ensures forall i :: i in r <==> 0 <= i < |col| && col[i].Some?
  {
    PresentFrom(col, 0)
  }

  /** All rows of a frame of height `n`. */
  function AllRows(n: nat): (r: seq<nat>)
    ensures |r| == n && Increasing(r)
    ensures forall i :: 0 <= i < n ==> r[i] == i
  {
    seq(n, i => i)
  }

  /** The rows of `s` are present rows of `col`, their values non-increasing, and rows of
      equal value in frame order. */
  predicate Ranked(col: seq<Option<real>>, s: seq<nat>)
  {
    && (forall k :: 0 <= k < |s| ==> s[k] < |col| && col[s[k]].Some?)
    && (forall i, j :: 0 <= i < j < |s| ==> col[s[i]].value >= col[s[j]].value)
    && (forall i, j :: 0 <= i < j < |s| && col[s[i]] == col[s[j]] ==> s[i] < s[j])
  }

  lemma RankedPrefix(col: seq<Option<real>>, s: seq<nat>, m: nat)
    requires Ranked(col, s) && m <= |s|
    ensures Ranked(col, s[..m])
  {
    assert forall k :: 0 <= k < m ==> s[..m][k] == s[k];
  }

  /** The present rows sorted by value, descending and stable. */
  function RankPresent(col: seq<Option<real>>): seq<nat>
  {
    SortDesc(PresentRows(col), At(col))
  }

  lemma RankPresentFacts(col: seq<Option<real>>)
    ensures Ranked(col, RankPresent(col))
    ensures |RankPresent(col)| == |PresentRows(col)|
    ensures forall i :: 0 <= i < |col| && col[i].Some? ==> i in RankPresent(col)
  {
    var present := PresentRows(col);
    var sorted := SortDesc(present, At(col));
    SortDescTies(present, At(col));
    SortDescMembers(present, At(col));
    forall k | 0 <= k < |sorted| ensures sorted[k] < |col| && col[sorted[k]].Some? {
      assert sorted[k] in present;
    }
    forall i, j | 0 <= i < j < |sorted| ensures col[sorted[i]].value >= col[sorted[j]].value {
      assert AtLeast(At(col)(sorted[i]), At(col)(sorted[j]));
    }
    forall i, j | 0 <= i < j < |sorted| && col[sorted[i]] == col[sorted[j]]
      ensures sorted[i] < sorted[j]
    {
      assert At(col)(sorted[i]) == At(col)(sorted[j]);
    }
  }

  /** Rows `from`, `from + 1`, ... of `col` whose value is missing, in frame order. */
  function MissingFrom(col: seq<Option<real>>, from: nat): (r: seq<nat>)
    requires from <= |col|
    ensures Increasing(r)
    ensures forall i :: i in r <==> from <= i < |col| && col[i].None?
    decreases |col| - from
  {
    if from == |col| then []
    else
      var rest := MissingFrom(col, from + 1);
      assert forall k :: 0 <= k < |rest| ==> from < rest[k] by {
        forall k | 0 <= k < |rest| ensures from < rest[k] {
          assert rest[k] in rest;
        }
      }
      if col[from].None? then [from] + rest else rest
  }

  /** The rows with a missing value, in frame order. */
  function MissingRows(col: seq<Option<real>>): (r: seq<nat>)
    ensures Increasing(r)
    ensures forall i :: i in r <==> 0 <= i < |col| && col[i].None?
  {
    MissingFrom(col, 0)
  }

  /** Every row from `from` on is either present or missing. */
  lemma {:induction false} SplitFromCount(col: seq<Option<real>>, from: nat)
    requires from <= |col|
    ensures |PresentFrom(col, from)| + |MissingFrom(col, from)| == |col| - from
    decreases |col| - from
  {
    if from < |col| {
      SplitFromCount(col, from + 1);
    }
  }

  /** The order `nlargest` and `sort_values(ascending=False)` give every row: the present
      rows ranked, then the missing rows in frame order. */
  function Padded(col: seq<Option<real>>): seq<nat>
  {
    RankPresent(col) + MissingRows(col)
  }

  /** `s` lists rows of `col` with the present ones first, ranked, and rows of equal value
      (missing ones included) in frame order. */
  predicate PresentFirst(col: seq<Option<real>>, s: seq<nat>)
  {
    && (forall k :: 0 <= k < |s| ==> s[k] < |col|)
    && (forall i, j :: 0 <= i < j < |s| && col[s[j]].Some? ==>
          col[s[i]].Some? && col[s[i]].value >= col[s[j]].value)
    && (forall i, j :: 0 <= i < j < |s| && col[s[i]] == col[s[j]] ==> s[i] < s[j])
  }

  /** Ranked present rows followed by missing rows in frame order put the present rows
      first. */
  lemma AppendMissing(col: seq<Option<real>>, a: seq<nat>, b: seq<nat>)
    requires Ranked(col, a)
    requires Increasing(b) && forall k :: 0 <= k < |b| ==> b[k] < |col| && col[b[k]].None?
    ensures PresentFirst(col, a + b)
    ensures forall k :: 0 <= k < |a + b| ==> (col[(a + b)[k]].Some? <==> k < |a|)
  {
    var s := a + b;
    assert forall k :: 0 <= k < |a| ==> s[k] == a[k];
    assert forall k :: |a| <= k < |s| ==> s[k] == b[k - |a|];
  }

  lemma PaddedFacts(col: seq<Option<real>>)
    ensures |Padded(col)| == |col|
    ensures PresentFirst(col, Padded(col))
    ensures forall k :: 0 <= k < |Padded(col)| ==> (col[Padded(col)[k]].Some? <==> k < |PresentRows(col)|)
    ensures forall i :: 0 <= i < |col| ==> i in Padded(col)
  {
    var ranked, missing := RankPresent(col), MissingRows(col);
    RankPresentFacts(col);
    SplitFromCount(col, 0);
    assert forall k :: 0 <= k < |missing| ==> missing[k] in missing;
    AppendMissing(col, ranked, missing);
    assert forall i :: i in ranked + missing <==> i in ranked || i in missing;
  }

  /** The missing rows `r` keeps come before every missing row it leaves out: the padding
      `nlargest` and `nsmallest` take is the first missing rows in frame order. */
  predicate MissingFirst(col: seq<Option<real>>, r: seq<nat>)
  {
    forall j :: 0 <= j < |col| && col[j].None? && j !in r ==>
      forall k :: 0 <= k < |r| && r[k] < |col| && col[r[k]].None? ==> r[k] < j
  }

  /** The first m rows of an order that puts present rows first, for the first m rows
      `nlargest` returns. */
  lemma HeadFacts(col: seq<Option<real>>, s: seq<nat>, n: nat)
    requires PresentFirst(col, s) && |s| == |col|
    requires forall k :: 0 <= k < |s| ==> (col[s[k]].Some? <==> k < |PresentRows(col)|)
    requires forall i :: 0 <= i < |col| ==> i in s
    ensures PresentFirst(col, Head(s, n))
    ensures forall k :: 0 <= k < |Head(s, n)| ==> (col[Head(s, n)[k]].Some? <==> k < |PresentRows(col)|)
    ensures |PresentRows(col)| <= n ==> forall i :: 0 <= i < |col| && col[i].Some? ==> i in Head(s, n)
    ensures |col| <= n ==> forall i :: 0 <= i < |col| ==> i in Head(s, n)
    ensures MissingFirst(col, Head(s, n))
  {
    var r := Head(s, n);
    assert forall k :: 0 <= k < |r| ==> r[k] == s[k];
    assert |col| <= n ==> r == s;
    forall i | |PresentRows(col)| <= n && 0 <= i < |col| && col[i].Some? ensures i in r {
      assert i in s;
      var q :| 0 <= q < |s| && s[q] == i;
      assert q < |PresentRows(col)|;
      assert r[q] == i;
    }
    forall j, k | 0 <= j < |col| && col[j].None? && j !in r && 0 <= k < |r| && col[r[k]].None?
      ensures r[k] < j
    {
      assert j in s;
      var q :| 0 <= q < |s| && s[q] == j;
      assert |r| <= q;
      assert col[s[k]] == col[s[q]];
    }
  }

  /** `df.nlargest(n, col)`: the rows of the n largest present values, largest first,
      earlier rows first among equal values; when fewer than n rows have a value, the
      first missing rows follow in frame order, up to n rows or the whole frame. */
  function NLargest(col: seq<Option<real>>, n: nat): (r: seq<nat>)
    ensures |r| == Min(n, |col|)
    ensures forall k :: 0 <= k < |r| ==> r[k] < |col| && (col[r[k]].Some? <==> k < |PresentRows(col)|)
    ensures forall i, j :: 0 <= i < j < |r| && col[r[j]].Some? ==>
              col[r[i]].Some? && col[r[i]].value >= col[r[j]].value
    ensures forall i, j :: 0 <= i < j < |r| && col[r[i]] == col[r[j]] ==> r[i] < r[j]
    ensures |PresentRows(col)| <= n ==> forall i :: 0 <= i < |col| && col[i].Some? ==> i in r
    ensures |col| <= n ==> forall i :: 0 <= i < |col| ==> i in r
    ensures MissingFirst(col, r)
  {
    PaddedFacts(col);
    HeadFacts(col, Padded(col), n);
    Head(Padded(col), n)
  }

  /** The present rows `nlargest` keeps are the first n of the ranked present rows. */
  lemma NLargestPresentPart(col: seq<Option<real>>, n: nat)
    ensures forall i :: i in Head(RankPresent(col), n) <==> i in NLargest(col, n) && i < |col| && col[i].Some?
  {
    var ranked, s := RankPresent(col), Padded(col);
    PaddedFacts(col);
    RankPresentFacts(col);
    var r := NLargest(col, n);
    assert r == s[..Min(n, |s|)];
    var h := Head(ranked, n);
    assert forall k :: 0 <= k < |h| ==> h[k] == r[k];
    forall i | i in r && i < |col| && col[i].Some? ensures i in h {
      var q :| 0 <= q < |r| && r[q] == i;
      assert r[q] == ranked[q];
    }
  }

  /** A present row that `nlargest` leaves out is no larger than any row it keeps, and
      comes after each kept row of the same value. */
  lemma NLargestTop(col: seq<Option<real>>, n: nat, j: nat)
    requires j < |col| && col[j].Some? && j !in NLargest(col, n)
    ensures forall k :: 0 <= k < |NLargest(col, n)| ==>
              var top := NLargest(col, n)[k];
              col[top].Some? && col[j].value <= col[top].value && (col[j].value == col[top].value ==> top < j)
  {
    var sorted, s := RankPresent(col), Padded(col);
    PaddedFacts(col);
    RankPresentFacts(col);
    var r := NLargest(col, n);
    assert r == s[..Min(n, |s|)];
    assert j in sorted;
    var p :| 0 <= p < |sorted| && sorted[p] == j;
    assert s[p] == j;
    assert p >= |r|;
    forall k | 0 <= k < |r|
      ensures col[r[k]].Some? && col[j].value <= col[r[k]].value && (col[j].value == col[r[k]].value ==> r[k] < j)
    {
      assert r[k] == sorted[k];
    }
  }

  /** The negated column, so that the smallest values rank first. */
  function Negated(col: seq<Option<real>>): (r: seq<Option<real>>)
    ensures |r| == |col|
    ensures forall i :: 0 <= i < |col| ==> r[i].Some? == col[i].Some?
    ensures forall i :: 0 <= i < |col| && col[i].Some? ==> r[i].value == -col[i].value
  {
    seq(|col|, i requires 0 <= i < |col| => if col[i].Some? then Some(-col[i].value) else None)
  }

  lemma NegatedPresent(col: seq<Option<real>>)
    ensures |PresentRows(Negated(col))| == |PresentRows(col)|
  {
    assert PresentRows(Negated(col)) == PresentRows(col) by {
      PresentFromNegated(col, 0);
    }
  }

  lemma {:induction false} PresentFromNegated(col: seq<Option<real>>, from: nat)
    requires from <= |col|
    ensures PresentFrom(Negated(col), from) == PresentFrom(col, from)
    decreases |col| - from
  {
    if from < |col| {
      PresentFromNegated(col, from + 1);
    }
  }

  /** A row order that puts present rows of the negated column first, largest first, puts
      present rows of the column first, smallest first. */
  lemma PresentFirstNegated(col: seq<Option<real>>, r: seq<nat>)
    requires PresentFirst(Negated(col), r)
    ensures forall k :: 0 <= k < |r| ==> r[k] < |col|
    ensures forall i, j :: 0 <= i < j < |r| && col[r[j]].Some? ==>
              col[r[i]].Some? && col[r[i]].value <= col[r[j]].value
    ensures forall i, j :: 0 <= i < j < |r| && col[r[i]] == col[r[j]] ==> r[i] < r[j]
  {
    var neg := Negated(col);
    forall i, j | 0 <= i < j < |r| && col[r[i]] == col[r[j]] ensures r[i] < r[j] {
      assert neg[r[i]] == neg[r[j]];
    }
  }

  /** `df.nsmallest(n, col)`: the rows of the n smallest present values, smallest first,
      earlier rows first among equal values; when fewer than n rows have a value, the
      first missing rows follow in frame order, up to n rows or the whole frame. */
  function NSmallest(col: seq<Option<real>>, n: nat): (r: seq<nat>)
    ensures |r| == Min(n, |col|)
    ensures forall k :: 0 <= k < |r| ==> r[k] < |col| && (col[r[k]].Some? <==> k < |PresentRows(col)|)
    ensures forall i, j :: 0 <= i < j < |r| && col[r[j]].Some? ==>
              col[r[i]].Some? && col[r[i]].value <= col[r[j]].value
    ensures forall i, j :: 0 <= i < j < |r| && col[r[i]] == col[r[j]] ==> r[i] < r[j]
    ensures |PresentRows(col)| <= n ==> forall i :: 0 <= i < |col| && col[i].Some? ==> i in r
    ensures |col| <= n ==> forall i :: 0 <= i < |col| ==> i in r
    ensures MissingFirst(col, r)
  {
    var neg := Negated(col);
    NegatedPresent(col);
    var r := NLargest(neg, n);
    assert PresentFirst(neg, r);
    PresentFirstNegated(col, r);
    r
  }

  /** A present row that `nsmallest` leaves out is no smaller than any row it keeps, and
      comes after each kept row of the same value. */
  lemma NSmallestBottom(col: seq<Option<real>>, n: nat, j: nat)
    requires j < |col| && col[j].Some? && j !in NSmallest(col, n)
    ensures forall k :: 0 <= k < |NSmallest(col, n)| ==>
              var bottom := NSmallest(col, n)[k];
              col[bottom].Some? && col[j].value >= col[bottom].value && (col[j].value == col[bottom].value ==> bottom < j)
  {
    var neg := Negated(col);
    var r := NSmallest(col, n);
    assert r == NLargest(neg, n);
    NLargestTop(neg, n, j);
    forall k | 0 <= k < |r|
      ensures col[r[k]].Some? && col[j].value >= col[r[k]].value && (col[j].value == col[r[k]].value ==> r[k] < j)
    {
      assert neg[j].value <= neg[r[k]].value && (neg[j].value == neg[r[k]].value ==> r[k] < j);
    }
  }

  // ---------------------------------------------------------------------------------------
  // idxmax
  // ---------------------------------------------------------------------------------------

  /** The first row among `col[..n]` holding the largest present value. */
  function IdxMaxUpTo(col: seq<Option<real>>, n: nat): (r: Option<nat>)
    requires n <= |col|
    ensures r.None? <==> forall i :: 0 <= i < n ==> col[i].None?
    ensures r.Some? ==> r.value < n && col[r.value].Some?
    ensures r.Some? ==> forall i :: 0 <= i < n && col[i].Some? ==> col[i].value <= col[r.value].value
    ensures r.Some? ==> forall i :: 0 <= i < r.value && col[i].Some? ==> col[i].value < col[r.value].value
  {
    if n == 0 then None
    else
      var best := IdxMaxUpTo(col, n - 1);
      if col[n - 1].Some? && (best.None? || col[n - 1].value > col[best.value].value) then Some(n - 1)
      else best
  }

  /** `Series.idxmax()`: the first row of the maximum; `None` when every value is missing
      (pandas then has no row to return). */
  function IdxMax(col: seq<Option<real>>): (r: Option<nat>)
    ensures r.None? <==> forall i :: 0 <= i < |col| ==> col[i].None?
    ensures r.Some? ==> r.value < |col| && col[r.value].Some?
    ensures r.Some? ==> forall i :: 0 <= i < |col| && col[i].Some? ==> col[i].value <= col[r.value].value
    ensures r.Some? ==> forall i :: 0 <= i < r.value && col[i].Some? ==> col[i].value < col[r.value].value
  {
    IdxMaxUpTo(col, |col|)
  }

  /** `idxmax` names the first row of every `nlargest(n)` with n at least 1; it names none
      exactly when that first row is missing or there is no row. */
  lemma IdxMaxHeadsNLargest(col: seq<Option<real>>, n: nat)
    requires n >= 1
    ensures IdxMax(col).None? <==> NLargest(col, n) == [] || col[NLargest(col, n)[0]].None?
    ensures IdxMax(col).Some? ==> NLargest(col, n) != [] && NLargest(col, n)[0] == IdxMax(col).value
  {
    var r := NLargest(col, n);
    var m := IdxMax(col);
    if m.Some? {
      assert m.value in PresentRows(col);
      if m.value !in r {
        NLargestTop(col, n, m.value);
      }
    } else {
      assert forall i :: i in PresentRows(col) ==> false;
    }
  }

  // ---------------------------------------------------------------------------------------
  // Sorting whole frames and dropping rows
  // ---------------------------------------------------------------------------------------

  /** `df.sort_values(by=col, ascending=False)`: every row, largest first, missing last, rows
      of equal value (the missing ones among them) in frame order. */
  function SortRowsDesc(col: seq<Option<real>>): (r: seq<nat>)
    ensures |r| == |col|
    ensures multiset(r) == multiset(AllRows(|col|))
    ensures forall k :: 0 <= k < |r| ==> r[k] < |col|
    ensures forall i, j :: 0 <= i < j < |r| && col[r[j]].Some? ==>
              col[r[i]].Some? && col[r[i]].value >= col[r[j]].value
    ensures TiesAscending(r, At(col))
  {
    var all := AllRows(|col|);
    var r := SortDesc(all, At(col));
    SortDescMembers(all, At(col));
    SortDescTies(all, At(col));
    assert forall k :: 0 <= k < |r| ==> r[k] in all;
    assert forall i, j :: 0 <= i < j < |r| ==> AtLeast(At(col)(r[i]), At(col)(r[j]));
    r
  }

  /** `.head(n)`. */
  function Head<T>(s: seq<T>, n: nat): (r: seq<T>)
    ensures |r| == Min(n, |s|) && r == s[..|r|]
  {
    s[..Min(n, |s|)]
  }

  /** `.dropna()` on selected rows: the rows that pass `keep`, in their order. */
  function Filter(s: seq<nat>, keep: nat -> bool): (r: seq<nat>)
    ensures |r| <= |s|
    ensures forall x :: x in r <==> x in s && keep(x)
  {
    if s == [] then []
    else
      var rest := Filter(s[1..], keep);
      assert forall x :: x in s <==> x == s[0] || x in s[1..];
      if keep(s[0]) then [s[0]] + rest else rest
  }

  lemma RankedTail(col: seq<Option<real>>, s: seq<nat>)
    requires Ranked(col, s) && s != []
    ensures Ranked(col, s[1..])
  {
    assert forall k :: 0 <= k < |s| - 1 ==> s[1..][k] == s[k + 1];
  }

  /** A row ranked at or above every row of a ranking can go first. */
  lemma RankedCons(col: seq<Option<real>>, x: nat, rest: seq<nat>)
    requires Ranked(col, rest) && x < |col| && col[x].Some?
    requires forall k :: 0 <= k < |rest| ==> col[x].value >= col[rest[k]].value
    requires forall k :: 0 <= k < |rest| && col[x] == col[rest[k]] ==> x < rest[k]
    ensures Ranked(col, [x] + rest)
  {
    assert forall k :: 1 <= k <= |rest| ==> ([x] + rest)[k] == rest[k - 1];
  }

  /** Filtering ranked rows keeps them ranked. */
  lemma {:induction false} FilterRanked(s: seq<nat>, keep: nat -> bool, col: seq<Option<real>>)
    requires Ranked(col, s)
    ensures Ranked(col, Filter(s, keep))
  {
    if s != [] {
      var tail := s[1..];
      RankedTail(col, s);
      FilterRanked(tail, keep, col);
      var rest := Filter(tail, keep);
      if keep(s[0]) {
        forall k | 0 <= k < |rest|
          ensures col[s[0]].value >= col[rest[k]].value && (col[s[0]] == col[rest[k]] ==> s[0] < rest[k])
        {
          assert rest[k] in tail;
          var p :| 0 <= p < |tail| && tail[p] == rest[k];
          assert s[p + 1] == rest[k];
        }
        RankedCons(col, s[0], rest);
      }
    }
  }

  /** The present rows of `nlargest(n)`, as the first n ranked present rows. */
  lemma TopPresent(col: seq<Option<real>>, n: nat)
    ensures Ranked(col, Head(RankPresent(col), n)) && |Head(RankPresent(col), n)| <= n
    ensures |PresentRows(col)| <= n ==>
              forall i :: 0 <= i < |col| && col[i].Some? ==> i in Head(RankPresent(col), n)
    ensures forall i :: i in Head(RankPresent(col), n) <==> i in NLargest(col, n) && i < |col| && col[i].Some?
  {
    var ranked := RankPresent(col);
    RankPresentFacts(col);
    RankedPrefix(col, ranked, Min(n, |ranked|));
    NLargestPresentPart(col, n);
    assert |PresentRows(col)| <= n ==> Head(ranked, n) == ranked;
  }

  /** `df.nlargest(n, col)[cols].dropna()` with `col` among the projected columns: the
      ranking, then only the rows that `keep` accepts (all projected columns present), so
      the missing rows `nlargest` pads with are dropped. */
  function TopKept(col: seq<Option<real>>, keep: nat -> bool, n: nat): (r: seq<nat>)
    ensures |r| <= n
    ensures forall k :: 0 <= k < |r| ==> r[k] < |col| && col[r[k]].Some? && keep(r[k])
    ensures forall i, j :: 0 <= i < j < |r| ==> col[r[i]].value >= col[r[j]].value
    ensures forall i, j :: 0 <= i < j < |r| && col[r[i]] == col[r[j]] ==> r[i] < r[j]
    ensures |PresentRows(col)| <= n ==>
              forall i :: 0 <= i < |col| && col[i].Some? && keep(i) ==> i in r
    ensures forall i :: i in r <==> i in NLargest(col, n) && i < |col| && col[i].Some? && keep(i)
  {
    var top := Head(RankPresent(col), n);
    TopPresent(col, n);
    FilterRanked(top, keep, col);
    var r := Filter(top, keep);
    assert forall k :: 0 <= k < |r| ==> r[k] in top;
    r
  }
}
