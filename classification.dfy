/** `src/script.py`, lines 52–79: every column is classified by its dtype into a dictionary,
    two override lists then correct some entries, and the dictionary becomes a two-column
    table. */
module Classification {
  import opened Wrappers
  import Text

  const Nominal: string := "Cualitativa Nominal"
  const Discrete: string := "Cuantitativa Discreta"
  const Continuous: string := "Cuantitativa Continua"

  /** Line 67. */
  const ContinuousVars: seq<string> := ["budget", "revenue", "runtime", "popularity", "voteAvg", "actorsPopularity"]
  /** Line 68. */
  const DiscreteVars: seq<string> := ["castWomenAmount", "castMenAmount"]

  /** A column of the frame: its name and the text of its dtype, `str(dtype)`. */
  datatype Column = Column(name: string, dtype: string)

  /** Lines 57–64: the class of a dtype, or `None` when no branch matches. */
  function KindOf(dtype: string): (r: Option<string>)
    ensures dtype == "object" ==> r == Some(Nominal)
    ensures dtype == "int64" ==> r == Some(Discrete)
    ensures dtype == "float64" ==> r == Some(Continuous)
    ensures Text.Contains(dtype, "datetime") ==> r == Some(Nominal)
    ensures r.None? <==> dtype != "object" && dtype != "int64" && dtype != "float64" && !Text.Contains(dtype, "datetime")
  {
    if dtype == "object" then Some(Nominal)
    else if dtype == "int64" then Some(Discrete)
    else if dtype == "float64" then Some(Continuous)
    else if Text.ContainsFrom(dtype, "datetime", 0) then Some(Nominal)
    else None
  }

  /** Every datetime dtype, with or without a time zone, is nominal; a boolean or a
      categorical column matches no branch. */
  lemma KindOfExamples()
    ensures KindOf("datetime64[ns]") == Some(Nominal)
    ensures KindOf("datetime64[ns, UTC]") == Some(Nominal)
    ensures KindOf("bool") == None && KindOf("category") == None
  {
    assert Text.OccursAt("datetime64[ns]", "datetime", 0);
    assert Text.OccursAt("datetime64[ns, UTC]", "datetime", 0);
    assert "category"[..8][0] != "datetime"[0];
  }

  // ---------------------------------------------------------------------------------------
  // The dictionary as a value
  // ---------------------------------------------------------------------------------------

  /** A Python dict: its keys in insertion order and its entries. */
  datatype Table = Table(keys: seq<string>, entries: map<string, string>)

  ghost predicate WellFormed(t: Table)
  {
    && (forall i, j :: 0 <= i < j < |t.keys| ==> t.keys[i] != t.keys[j])
    && (forall k :: k in t.entries <==> k in t.keys)
  }

  /** `d[k] = v`: a new key goes last, an existing key keeps its place. */
  function Put(t: Table, k: string, v: string): (r: Table)
    ensures WellFormed(t) ==> WellFormed(r)
    ensures r.entries == t.entries[k := v]
    ensures k in t.entries ==> r.keys == t.keys
    ensures k !in t.entries ==> r.keys == t.keys + [k]
  {
    if k in t.entries then Table(t.keys, t.entries[k := v])
    else Table(t.keys + [k], t.entries[k := v])
  }

  /** The dictionary after the loop of lines 54–64 over `cols`. */
  function Filled(cols: seq<Column>): (t: Table)
    ensures WellFormed(t)
  {
    if cols == [] then Table([], map[])
    else
      var n := |cols| - 1;
      var t := Filled(cols[..n]);
      match KindOf(cols[n].dtype)
      case None => t
      case Some(kind) => Put(t, cols[n].name, kind)
  }

  /** The dictionary after one override loop (lines 70–72 or 74–76) over `vars`. */
  function Overridden(t: Table, vars: seq<string>, v: string): (r: Table)
    ensures WellFormed(t) ==> WellFormed(r)
    ensures r.keys == t.keys && r.entries.Keys == t.entries.Keys
    ensures forall k :: k in t.entries ==> r.entries[k] == if k in vars then v else t.entries[k]
  {
    if vars == [] then t
    else
      var n := |vars| - 1;
      var s := Overridden(t, vars[..n], v);
      assert forall k :: k in vars <==> k in vars[..n] || k == vars[n];
      if vars[n] in s.entries then Put(s, vars[n], v) else s
  }

  /** The dictionary after line 76. Only keys already present are rewritten, the discrete
      list last. */
  function Classified(cols: seq<Column>): (r: Table)
    ensures WellFormed(r)
    ensures r.keys == Filled(cols).keys && r.entries.Keys == Filled(cols).entries.Keys
    ensures forall k :: k in ContinuousVars && k in r.entries ==> r.entries[k] == Continuous
    ensures forall k :: k in DiscreteVars && k in r.entries ==> r.entries[k] == Discrete
    ensures forall k :: k in r.entries && k !in ContinuousVars && k !in DiscreteVars ==>
              r.entries[k] == Filled(cols).entries[k]
  {
    assert forall k :: k in ContinuousVars ==> k !in DiscreteVars;
    Overridden(Overridden(Filled(cols), ContinuousVars, Continuous), DiscreteVars, Discrete)
  }

  /** `list(d.items())`: one row per key, in insertion order. */
  function Rows(t: Table): (r: seq<(string, string)>)
    requires WellFormed(t)
    ensures |r| == |t.keys|
    ensures forall i :: 0 <= i < |r| ==> r[i].0 == t.keys[i] && r[i].1 == t.entries[t.keys[i]]
    ensures forall i, j :: 0 <= i < j < |r| ==> r[i].0 != r[j].0
    ensures forall k :: k in t.entries <==> exists i :: 0 <= i < |r| && r[i].0 == k
  {
    var r := seq(|t.keys|, i requires 0 <= i < |t.keys| => (t.keys[i], t.entries[t.keys[i]]));
    assert forall k :: k in t.keys ==> exists i :: 0 <= i < |r| && r[i].0 == k by {
      forall k | k in t.keys ensures exists i :: 0 <= i < |r| && r[i].0 == k {
        var i :| 0 <= i < |t.keys| && t.keys[i] == k;
        assert r[i].0 == k;
      }
    }
    r
  }

  // ---------------------------------------------------------------------------------------
  // What the fill loop produces
  // ---------------------------------------------------------------------------------------

  /** The frame's columns have distinct names, as `read_csv` makes them. */
  ghost predicate DistinctNames(cols: seq<Column>)
  {
    forall i, j :: 0 <= i < j < |cols| ==> cols[i].name != cols[j].name
  }

  /** The names of the columns some branch of lines 57–64 classifies, in frame order. */
  function ClassifiedNames(cols: seq<Column>): seq<string>
  {
    if cols == [] then []
    else
      var n := |cols| - 1;
      ClassifiedNames(cols[..n]) + (if KindOf(cols[n].dtype).Some? then [cols[n].name] else [])
  }

  lemma {:induction false} ClassifiedNamesFrom(cols: seq<Column>)
    ensures forall k :: k in ClassifiedNames(cols) ==>
              exists i :: 0 <= i < |cols| && cols[i].name == k && KindOf(cols[i].dtype).Some?
  {
    if cols != [] {
      var n := |cols| - 1;
      ClassifiedNamesFrom(cols[..n]);
      forall k | k in ClassifiedNames(cols)
        ensures exists i :: 0 <= i < |cols| && cols[i].name == k && KindOf(cols[i].dtype).Some?
      {
        if k in ClassifiedNames(cols[..n]) {
          var i :| 0 <= i < n && cols[..n][i].name == k && KindOf(cols[..n][i].dtype).Some?;
          assert cols[i] == cols[..n][i];
        } else {
          assert cols[n].name == k && KindOf(cols[n].dtype).Some?;
        }
      }
    }
  }

  /** With distinct column names, the dictionary's keys are the classified columns in
      frame order, and each holds the class of its column's dtype; a column no branch
      matches gets no entry. */
  lemma {:induction false} FilledEntries(cols: seq<Column>)
    requires DistinctNames(cols)
    ensures Filled(cols).keys == ClassifiedNames(cols)
    ensures forall i :: 0 <= i < |cols| ==> (cols[i].name in Filled(cols).entries <==> KindOf(cols[i].dtype).Some?)
    ensures forall i :: 0 <= i < |cols| && KindOf(cols[i].dtype).Some? ==>
              Filled(cols).entries[cols[i].name] == KindOf(cols[i].dtype).value
  {
    if cols != [] {
      var n := |cols| - 1;
      var pre := cols[..n];
      assert DistinctNames(pre) by {
        forall i, j | 0 <= i < j < n ensures pre[i].name != pre[j].name {
          assert pre[i] == cols[i] && pre[j] == cols[j];
        }
      }
      FilledEntries(pre);
      var t := Filled(pre);
      assert cols[n].name !in t.entries by {
        forall i | 0 <= i < n ensures pre[i].name != cols[n].name {
          assert pre[i] == cols[i];
        }
        ClassifiedNamesFrom(pre);
      }
      forall i | 0 <= i < n ensures cols[i] == pre[i] {
      }
    }
  }

  /** The final class of a column: its override when its name is listed on line 67 or 68
      and its dtype matched a branch, the class of its dtype otherwise; no class at all
      when no branch matched, whether or not its name is listed. */
  lemma ClassOfColumn(cols: seq<Column>, i: nat)
    requires DistinctNames(cols) && i < |cols|
    ensures cols[i].name in Classified(cols).entries <==> KindOf(cols[i].dtype).Some?
    ensures KindOf(cols[i].dtype).Some? ==>
              Classified(cols).entries[cols[i].name] ==
                if cols[i].name in DiscreteVars then Discrete
                else if cols[i].name in ContinuousVars then Continuous
                else KindOf(cols[i].dtype).value
  {
    FilledEntries(cols);
    assert forall k :: k in ContinuousVars ==> k !in DiscreteVars;
  }

  // ---------------------------------------------------------------------------------------
  // The dictionary object and the three loops
  // ---------------------------------------------------------------------------------------

  /** `classification = {}`: the dictionary the loops update in place. */
  class Dict {
    var keys: seq<string>
    var entries: map<string, string>

    ghost predicate Valid()
      reads this
    {
      WellFormed(Table(keys, entries))
    }

    constructor ()
      ensures Valid() && keys == [] && entries == map[]
    {
      keys := [];
      entries := map[];
    }

    /** `classification[k] = v`. */
    method Set(k: string, v: string)
      requires Valid()
      modifies this
      ensures Valid()
      ensures Table(keys, entries) == Put(old(Table(keys, entries)), k, v)
    {
      if k !in entries {
        keys := keys + [k];
      }
      entries := entries[k := v];
    }
  }

  /** Lines 52–64. */
  method Fill(cols: seq<Column>) returns (d: Dict)
    ensures fresh(d) && d.Valid()
    ensures Table(d.keys, d.entries) == Filled(cols)
  {
    d := new Dict();
    for i := 0 to |cols|
      invariant d.Valid()
      invariant Table(d.keys, d.entries) == Filled(cols[..i])
    {
      assert cols[..i + 1][..i] == cols[..i];
      var kind := KindOf(cols[i].dtype);
      if kind.Some? {
        d.Set(cols[i].name, kind.value);
      }
    }
    assert cols[..|cols|] == cols;
  }

  /** `for var in vars: if var in classification: classification[var] = v`. */
  method Override(d: Dict, vars: seq<string>, v: string)
    requires d.Valid()
    modifies d
    ensures d.Valid()
    ensures Table(d.keys, d.entries) == Overridden(old(Table(d.keys, d.entries)), vars, v)
  {
    ghost var t0 := Table(d.keys, d.entries);
    for i := 0 to |vars|
      invariant d.Valid()
      invariant Table(d.keys, d.entries) == Overridden(t0, vars[..i], v)
    {
      assert vars[..i + 1][..i] == vars[..i];
      if vars[i] in d.entries {
        d.Set(vars[i], v);
      }
    }
    assert vars[..|vars|] == vars;
  }

  /** Lines 52–79: the rows of `classification_df`. */
  method Classify(cols: seq<Column>) returns (rows: seq<(string, string)>)
    ensures rows == Rows(Classified(cols))
  {
    var d := Fill(cols);
    Override(d, ContinuousVars, Continuous);
    Override(d, DiscreteVars, Discrete);
    rows := Rows(Table(d.keys, d.entries));
  }
}
