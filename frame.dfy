/** The movie table as the scripts hold it in `df`: named columns of cells, all of the same
    height, updated column by column. */
module Frame {
  import opened Wrappers
  import Text
  import Parsing
  import Binning
  import Averaging

  /** One value of the table. `NA` is pandas' missing value (NaN, NaT, None). */
  datatype Cell =
    | NA
    | Num(x: real)
    | Str(s: string)
    | When(d: Parsing.Date)
    | Parts(items: seq<string>)
    | Flag(b: bool)
    | Category(code: nat)

  type Columns = map<string, seq<Cell>>

  /** Every column has `h` rows. */
  ghost predicate Rect(cols: Columns, h: nat)
  {
    forall name :: name in cols ==> |cols[name]| == h
  }

  // ---------------------------------------------------------------------------------------
  // Column names
  // ---------------------------------------------------------------------------------------

  const ReleaseDate := "releaseDate"
  const Budget := "budget"
  const Revenue := "revenue"
  const VoteCount := "voteCount"
  const Popularity := "popularity"
  const CastWomen := "castWomenAmount"
  const CastMen := "castMenAmount"
  const ActorsAmount := "actorsAmount"
  const Year := "year"
  const Month := "month"
  const Profit := "profit"
  const BudgetMillions := "budget_millions"
  const RevenueMillions := "revenue_millions"
  const ProfitMillions := "profit_millions"
  const Genres := "genres"
  const GenreMain := "genre_main"
  const CastWomenRange := "castWomenRange"
  const CastMenRange := "castMenRange"
  const HomePage := "homePage"
  const HasHomepage := "has_homepage"
  const ActorsPopularity := "actorsPopularity"
  const Title := "title"
  const VoteAvg := "voteAvg"
  const Runtime := "runtime"
  const Director := "director"
  const Video := "video"

  /** The columns every script passes through `pd.to_numeric`. */
  const NumericCols: seq<string> := [Budget, Revenue, VoteCount, Popularity, CastWomen, CastMen, ActorsAmount]

  // ---------------------------------------------------------------------------------------
  // Reading cells
  // ---------------------------------------------------------------------------------------

  function NumberOf(c: Cell): Option<real>
  {
    if c.Num? then Some(c.x) else None
  }

  function TextOf(c: Cell): Option<string>
  {
    if c.Str? then Some(c.s) else None
  }

  function FlagOf(c: Cell): Option<bool>
  {
    if c.Flag? then Some(c.b) else None
  }

  function CodeOf(c: Cell): Option<nat>
  {
    if c.Category? then Some(c.code) else None
  }

  function ListOf(c: Cell): seq<string>
  {
    if c.Parts? then c.items else []
  }

  /** The sort key of a date cell. */
  function DateKeyOf(c: Cell): Option<real>
  {
    if c.When? then Some(Parsing.DateKey(c.d)) else None
  }

  function Numbers(col: seq<Cell>): (r: seq<Option<real>>)
    ensures |r| == |col| && forall i :: 0 <= i < |col| ==> r[i] == NumberOf(col[i])
  {
    seq(|col|, i requires 0 <= i < |col| => NumberOf(col[i]))
  }

  function Texts(col: seq<Cell>): (r: seq<Option<string>>)
    ensures |r| == |col| && forall i :: 0 <= i < |col| ==> r[i] == TextOf(col[i])
  {
    seq(|col|, i requires 0 <= i < |col| => TextOf(col[i]))
  }

  function Flags(col: seq<Cell>): (r: seq<Option<bool>>)
    ensures |r| == |col| && forall i :: 0 <= i < |col| ==> r[i] == FlagOf(col[i])
  {
    seq(|col|, i requires 0 <= i < |col| => FlagOf(col[i]))
  }

  function Codes(col: seq<Cell>): (r: seq<Option<nat>>)
    ensures |r| == |col| && forall i :: 0 <= i < |col| ==> r[i] == CodeOf(col[i])
  {
    seq(|col|, i requires 0 <= i < |col| => CodeOf(col[i]))
  }

  function Lists(col: seq<Cell>): (r: seq<seq<string>>)
    ensures |r| == |col| && forall i :: 0 <= i < |col| ==> r[i] == ListOf(col[i])
  {
    seq(|col|, i requires 0 <= i < |col| => ListOf(col[i]))
  }

  function DateKeys(col: seq<Cell>): (r: seq<Option<real>>)
    ensures |r| == |col| && forall i :: 0 <= i < |col| ==> r[i] == DateKeyOf(col[i])
  {
    seq(|col|, i requires 0 <= i < |col| => DateKeyOf(col[i]))
  }

  // ---------------------------------------------------------------------------------------
  // Column transformations
  // ---------------------------------------------------------------------------------------

  /** `pd.to_numeric(value, errors="coerce")`: numbers stay, text that parses becomes its
      number, anything else becomes missing (never 0). */
  function Coerce(c: Cell): (r: Cell)
    ensures r.NA? || r.Num?
    ensures c.Num? ==> r == c
    ensures c.Str? ==> NumberOf(r) == Parsing.ParseNumber(c.s)
    ensures c.Flag? ==> r == Num(if c.b then 1.0 else 0.0)
    ensures !(c.Num? || c.Str? || c.Flag?) ==> r == NA
  {
    match c
    case Num(_) => c
    case Str(s) => (match Parsing.ParseNumber(s) case Some(x) => Num(x) case None => NA)
    case Flag(b) => Num(if b then 1.0 else 0.0)
    case _ => NA
  }

  function ToNumeric(col: seq<Cell>): (r: seq<Cell>)
    ensures |r| == |col| && forall i :: 0 <= i < |col| ==> r[i] == Coerce(col[i])
  {
    seq(|col|, i requires 0 <= i < |col| => Coerce(col[i]))
  }

  /** Coercing twice is coercing once. */
  lemma ToNumericIdempotent(col: seq<Cell>)
    ensures ToNumeric(ToNumeric(col)) == ToNumeric(col)
  {
  }

  /** A value that does not parse becomes missing, not 0, and its row stays. */
  lemma UnparsableBecomesMissing(col: seq<Cell>, i: nat)
    requires i < |col| && col[i].Str? && Parsing.ParseNumber(col[i].s).None?
    ensures |ToNumeric(col)| == |col| && ToNumeric(col)[i] == NA
  {
  }

  /** `pd.to_datetime(value, errors="coerce")`: an ISO date string becomes a date, a date
      stays, anything else is NaT. */
  function ToDate(c: Cell): (r: Cell)
    ensures r.NA? || r.When?
    ensures r.When? ==> Parsing.IsCalendarDate(r.d) && Parsing.InTimestampRange(r.d)
    ensures c.Str? ==> (r.When? <==> Parsing.ParseDate(c.s).Some?)
    ensures c.Str? && r.When? ==> Parsing.ParseDate(c.s) == Some(r.d)
  {
    match c
    case Str(s) => (match Parsing.ParseDate(s) case Some(d) => When(d) case None => NA)
    case When(d) => if Parsing.IsCalendarDate(d) && Parsing.InTimestampRange(d) then c else NA
    case _ => NA
  }

  function ToDatetime(col: seq<Cell>): (r: seq<Cell>)
    ensures |r| == |col| && forall i :: 0 <= i < |col| ==> r[i] == ToDate(col[i])
  {
    seq(|col|, i requires 0 <= i < |col| => ToDate(col[i]))
  }

  /** `col.dt.year`: present exactly where the date is. */
  function YearColumn(col: seq<Cell>): (r: seq<Cell>)
    ensures |r| == |col|
    ensures forall i :: 0 <= i < |col| ==> (r[i].Num? <==> col[i].When?) && (r[i].Num? || r[i].NA?)
    ensures forall i :: 0 <= i < |col| && col[i].When? ==> r[i].x == col[i].d.year as real
  {
    seq(|col|, i requires 0 <= i < |col| => if col[i].When? then Num(col[i].d.year as real) else NA)
  }

  /** `col.dt.month`: present exactly where the date is, and between 1 and 12. */
  function MonthColumn(col: seq<Cell>): (r: seq<Cell>)
    ensures |r| == |col|
    ensures forall i :: 0 <= i < |col| ==> (r[i].Num? <==> col[i].When?) && (r[i].Num? || r[i].NA?)
    ensures forall i :: 0 <= i < |col| && col[i].When? ==> r[i].x == col[i].d.month as real
    ensures forall i :: 0 <= i < |col| && col[i].When? && Parsing.IsCalendarDate(col[i].d) ==>
              1.0 <= r[i].x <= 12.0
  {
    seq(|col|, i requires 0 <= i < |col| => if col[i].When? then Num(col[i].d.month as real) else NA)
  }

  /** `a - b`: present exactly where both sides are. */
  function Difference(a: seq<Cell>, b: seq<Cell>): (r: seq<Cell>)
    requires |a| == |b|
    ensures |r| == |a|
    ensures forall i :: 0 <= i < |a| ==> (r[i].Num? <==> a[i].Num? && b[i].Num?) && (r[i].Num? || r[i].NA?)
    ensures forall i :: 0 <= i < |a| && r[i].Num? ==> r[i].x + b[i].x == a[i].x
  {
    seq(|a|, i requires 0 <= i < |a| => if a[i].Num? && b[i].Num? then Num(a[i].x - b[i].x) else NA)
  }

  const Million: real := 1000000.0

  /** `col / 1_000_000`: missing stays missing. */
  function Millions(col: seq<Cell>): (r: seq<Cell>)
    ensures |r| == |col|
    ensures forall i :: 0 <= i < |col| ==> (r[i].Num? <==> col[i].Num?) && (r[i].Num? || r[i].NA?)
    ensures forall i :: 0 <= i < |col| && col[i].Num? ==> r[i].x * Million == col[i].x
  {
    seq(|col|, i requires 0 <= i < |col| => if col[i].Num? then Num(col[i].x / Million) else NA)
  }

  /** `col.str.split("|").str[0]`: the text before the first '|', the whole text when it has
      none, and missing for a missing (or non-text) value. */
  function FirstSegments(col: seq<Cell>): (r: seq<Cell>)
    ensures |r| == |col|
    ensures forall i :: 0 <= i < |col| ==> (r[i].Str? <==> col[i].Str?) && (r[i].Str? || r[i].NA?)
    ensures forall i :: 0 <= i < |col| && col[i].Str? ==>
              Text.Bar !in r[i].s && r[i].s <= col[i].s && (Text.Bar !in col[i].s ==> r[i].s == col[i].s)
    ensures forall i :: 0 <= i < |col| && col[i].Str? && Text.Bar in col[i].s ==>
              col[i].s[|r[i].s|] == Text.Bar
  {
    seq(|col|, i requires 0 <= i < |col| => if col[i].Str? then Str(Text.FirstSegment(col[i].s, Text.Bar)) else NA)
  }

  /** `col.fillna("")`. */
  function FillEmpty(col: seq<Cell>): (r: seq<Cell>)
    ensures |r| == |col|
    ensures forall i :: 0 <= i < |col| ==> r[i] == if col[i].NA? then Str("") else col[i]
  {
    seq(|col|, i requires 0 <= i < |col| => if col[i].NA? then Str("") else col[i])
  }

  /** `col.apply(lambda x: x.split("|") if isinstance(x, str) else [])`. */
  function SplitLists(col: seq<Cell>): (r: seq<Cell>)
    ensures |r| == |col| && forall i :: 0 <= i < |col| ==> r[i].Parts?
    ensures forall i :: 0 <= i < |col| ==> r[i].items == if col[i].Str? then Text.Split(col[i].s, Text.Bar) else []
  {
    seq(|col|, i requires 0 <= i < |col| => if col[i].Str? then Parts(Text.Split(col[i].s, Text.Bar)) else Parts([]))
  }

  /** After `fillna("")` and the split, a missing genre is the one-element list `[""]`, and a
      genre text with k separators is a list of k + 1 names that joins back to the text. */
  lemma GenreListsShape(col: seq<Cell>, i: nat)
    requires i < |col|
    ensures var r := SplitLists(FillEmpty(col));
            |r| == |col| && r[i].Parts?
            && (col[i].NA? ==> r[i].items == [""])
            && (col[i].Str? ==> |r[i].items| == Text.Occurrences(col[i].s, Text.Bar) + 1
                                && Text.Join(r[i].items, Text.Bar) == col[i].s)
  {
    if col[i].Str? {
      Text.SplitCount(col[i].s, Text.Bar);
      Text.JoinSplit(col[i].s, Text.Bar);
    }
  }

  /** `~col.isna()`. */
  function Presence(col: seq<Cell>): (r: seq<Cell>)
    ensures |r| == |col| && forall i :: 0 <= i < |col| ==> r[i].Flag? && (r[i].b <==> !col[i].NA?)
  {
    seq(|col|, i requires 0 <= i < |col| => Flag(!col[i].NA?))
  }

  /** `pd.cut(col, bins=Edges, labels=Labels)`. */
  function CutColumn(col: seq<Cell>): (r: seq<Cell>)
    ensures |r| == |col|
    ensures forall i :: 0 <= i < |col| ==> CodeOf(r[i]) == Binning.Cut(NumberOf(col[i])) && (r[i].Category? || r[i].NA?)
  {
    seq(|col|, i requires 0 <= i < |col| =>
      match Binning.Cut(NumberOf(col[i])) case Some(c) => Category(c) case None => NA)
  }

  /** `col.astype(str).apply(parse_and_average)`: text is averaged; a missing value is the text
      "nan", which stays missing; a number prints and parses back to itself; any other value
      does not print as a number list and becomes missing. */
  function AveragedColumn(col: seq<Cell>): (r: seq<Cell>)
    ensures |r| == |col|
    ensures forall i :: 0 <= i < |col| ==> r[i].Num? || r[i].NA?
    ensures forall i :: 0 <= i < |col| && col[i].Str? ==> NumberOf(r[i]) == Averaging.ParseAndAverage(col[i].s)
    ensures forall i :: 0 <= i < |col| && col[i].Num? ==> r[i] == col[i]
    ensures forall i :: 0 <= i < |col| && !col[i].Str? && !col[i].Num? ==> r[i] == NA
  {
    seq(|col|, i requires 0 <= i < |col| =>
      match col[i]
      case Str(s) => (match Averaging.ParseAndAverage(s) case Some(m) => Num(m) case None => NA)
      case Num(_) => col[i]
      case _ => NA)
  }

  // ---------------------------------------------------------------------------------------
  // The table-level steps, as functions of the columns
  // ---------------------------------------------------------------------------------------

  /** `for col in names: df[col] = pd.to_numeric(df[col], errors="coerce")`. */
  function Coerced(cols: Columns, names: seq<string>): (r: Columns)
    requires forall k :: 0 <= k < |names| ==> names[k] in cols
    ensures r.Keys == cols.Keys
  {
    if names == [] then cols
    else
      var n := |names| - 1;
      var before := Coerced(cols, names[..n]);
      before[names[n] := ToNumeric(before[names[n]])]
  }

  /** The coercion loop coerces every listed column (a name listed twice is coerced once in
      effect) and leaves every other column as it was. */
  lemma {:induction false} CoercedColumns(cols: Columns, names: seq<string>)
    requires forall k :: 0 <= k < |names| ==> names[k] in cols
    ensures forall name :: name in cols && name in names ==> Coerced(cols, names)[name] == ToNumeric(cols[name])
    ensures forall name :: name in cols && name !in names ==> Coerced(cols, names)[name] == cols[name]
  {
    if names != [] {
      var n := |names| - 1;
      CoercedColumns(cols, names[..n]);
      forall name | name in cols && name in names
        ensures Coerced(cols, names)[name] == ToNumeric(cols[name])
      {
        if name == names[n] {
          if name in names[..n] {
            ToNumericIdempotent(cols[name]);
          }
        } else {
          var k :| 0 <= k < |names| && names[k] == name;
          assert names[..n][k] == name;
        }
      }
      forall name | name in cols && name !in names ensures Coerced(cols, names)[name] == cols[name] {
        assert name !in names[..n];
      }
    }
  }

  lemma CoercedKeepsHeight(cols: Columns, names: seq<string>, h: nat)
    requires forall k :: 0 <= k < |names| ==> names[k] in cols
    requires Rect(cols, h)
    ensures Rect(Coerced(cols, names), h)
  {
    CoercedColumns(cols, names);
  }

  /** The columns the preparation reads are there, and revenue and budget line up. */
  ghost predicate Loaded(cols: Columns)
  {
    && ReleaseDate in cols
    && (forall k :: 0 <= k < |NumericCols| ==> NumericCols[k] in cols)
    && Budget in cols && Revenue in cols && |cols[Budget]| == |cols[Revenue]|
  }

  /** `df["releaseDate"] = pd.to_datetime(df["releaseDate"], errors="coerce")`. */
  function WithDates(cols: Columns): (r: Columns)
    requires ReleaseDate in cols
    ensures r.Keys == cols.Keys
    ensures forall h: nat :: Rect(cols, h) ==> Rect(r, h)
    ensures r[ReleaseDate] == ToDatetime(cols[ReleaseDate])
    ensures forall name :: name in cols && name != ReleaseDate ==> r[name] == cols[name]
  {
    cols[ReleaseDate := ToDatetime(cols[ReleaseDate])]
  }

  /** The coercion loop over `NumericCols`: a height-keeping `Coerced`. */
  function WithNumbers(cols: Columns): (r: Columns)
    requires forall k :: 0 <= k < |NumericCols| ==> NumericCols[k] in cols
    ensures r.Keys == cols.Keys
    ensures forall h: nat :: Rect(cols, h) ==> Rect(r, h)
    ensures forall name :: name in cols && name in NumericCols ==> r[name] == ToNumeric(cols[name])
    ensures forall name :: name in cols && name !in NumericCols ==> r[name] == cols[name]
  {
    var r := Coerced(cols, NumericCols);
    CoercedColumns(cols, NumericCols);
    assert forall h: nat :: Rect(cols, h) ==> Rect(r, h) by {
      forall h: nat | Rect(cols, h) ensures Rect(r, h) {
        CoercedKeepsHeight(cols, NumericCols, h);
      }
    }
    r
  }

  /** `df["year"] = df["releaseDate"].dt.year` and the same for `month`. */
  function WithDateParts(cols: Columns): (r: Columns)
    requires ReleaseDate in cols
    ensures r.Keys == cols.Keys + {Year, Month}
    ensures forall h: nat :: Rect(cols, h) ==> Rect(r, h)
    ensures r[Year] == YearColumn(cols[ReleaseDate]) && r[Month] == MonthColumn(cols[ReleaseDate])
    ensures forall name :: name in cols && name != Year && name != Month ==> r[name] == cols[name]
  {
    var y := cols[Year := YearColumn(cols[ReleaseDate])];
    y[Month := MonthColumn(y[ReleaseDate])]
  }

  /** `df["profit"] = df["revenue"] - df["budget"]`. */
  function WithProfit(cols: Columns): (r: Columns)
    requires Budget in cols && Revenue in cols && |cols[Budget]| == |cols[Revenue]|
    ensures r.Keys == cols.Keys + {Profit}
    ensures forall h: nat :: Rect(cols, h) ==> Rect(r, h)
    ensures r[Profit] == Difference(cols[Revenue], cols[Budget])
    ensures forall name :: name in cols && name != Profit ==> r[name] == cols[name]
  {
    cols[Profit := Difference(cols[Revenue], cols[Budget])]
  }

  /** Lines 13–28 (or 12–27) of every script: dates, numeric coercion, year, month, profit. */
  function Prepared(cols: Columns): (r: Columns)
    requires Loaded(cols)
    ensures r.Keys == cols.Keys + {Year, Month, Profit}
    ensures forall h: nat :: Rect(cols, h) ==> Rect(r, h)
  {
    assert Budget in NumericCols && Revenue in NumericCols;
    WithProfit(WithDateParts(WithNumbers(WithDates(cols))))
  }

  /** What each column holds after the preparation; no other column changes. */
  lemma PreparedColumns(cols: Columns)
    requires Loaded(cols)
    ensures var r := Prepared(cols);
            && r[ReleaseDate] == ToDatetime(cols[ReleaseDate])
            && (forall name :: name in cols && name in NumericCols ==> r[name] == ToNumeric(cols[name]))
            && r[Year] == YearColumn(r[ReleaseDate]) && r[Month] == MonthColumn(r[ReleaseDate])
            && |r[Revenue]| == |r[Budget]| && r[Profit] == Difference(r[Revenue], r[Budget])
    ensures var r := Prepared(cols);
            forall name :: (name in cols && name != ReleaseDate && name !in NumericCols && name != Year
                            && name != Month && name != Profit) ==> r[name] == cols[name]
  {
    assert ReleaseDate !in NumericCols;
    assert Budget in NumericCols && Revenue in NumericCols;
    assert forall name :: name in NumericCols ==> name != Year && name != Month && name != Profit;
  }

  /** `df["budget_millions"]` and `df["revenue_millions"]`. */
  function WithMoneyMillions(cols: Columns): (r: Columns)
    requires Budget in cols && Revenue in cols
    ensures r.Keys == cols.Keys + {BudgetMillions, RevenueMillions}
    ensures forall h: nat :: Rect(cols, h) ==> Rect(r, h)
    ensures r[BudgetMillions] == Millions(cols[Budget]) && r[RevenueMillions] == Millions(cols[Revenue])
    ensures forall name :: name in cols && name != BudgetMillions && name != RevenueMillions ==> r[name] == cols[name]
  {
    var b := cols[BudgetMillions := Millions(cols[Budget])];
    b[RevenueMillions := Millions(b[Revenue])]
  }

  /** The three millions columns of lines 30–34. */
  function WithMillions(cols: Columns): (r: Columns)
    requires Budget in cols && Revenue in cols && Profit in cols
    ensures r.Keys == cols.Keys + {BudgetMillions, RevenueMillions, ProfitMillions}
    ensures forall h: nat :: Rect(cols, h) ==> Rect(r, h)
    ensures r[BudgetMillions] == Millions(cols[Budget]) && r[RevenueMillions] == Millions(cols[Revenue])
    ensures r[ProfitMillions] == Millions(cols[Profit])
    ensures forall name :: name in cols && name != BudgetMillions && name != RevenueMillions && name != ProfitMillions ==>
              r[name] == cols[name]
  {
    var m := WithMoneyMillions(cols);
    m[ProfitMillions := Millions(m[Profit])]
  }

  /** `df["genres"] = df["genres"].fillna("")` then the split into lists. */
  function WithGenreLists(cols: Columns): (r: Columns)
    requires Genres in cols
    ensures r.Keys == cols.Keys
    ensures forall h: nat :: Rect(cols, h) ==> Rect(r, h)
    ensures r[Genres] == SplitLists(FillEmpty(cols[Genres]))
    ensures forall name :: name in cols && name != Genres ==> r[name] == cols[name]
  {
    var filled := cols[Genres := FillEmpty(cols[Genres])];
    filled[Genres := SplitLists(filled[Genres])]
  }

  /** `df["genre_main"] = df["genres"].str.split("|").str[0]`. */
  function WithGenreMain(cols: Columns): (r: Columns)
    requires Genres in cols
    ensures r.Keys == cols.Keys + {GenreMain}
    ensures forall h: nat :: Rect(cols, h) ==> Rect(r, h)
    ensures r[GenreMain] == FirstSegments(cols[Genres])
    ensures forall name :: name in cols && name != GenreMain ==> r[name] == cols[name]
  {
    cols[GenreMain := FirstSegments(cols[Genres])]
  }

  /** The two `pd.cut` range columns. */
  function WithRanges(cols: Columns): (r: Columns)
    requires CastWomen in cols && CastMen in cols
    ensures r.Keys == cols.Keys + {CastWomenRange, CastMenRange}
    ensures forall h: nat :: Rect(cols, h) ==> Rect(r, h)
    ensures r[CastWomenRange] == CutColumn(cols[CastWomen]) && r[CastMenRange] == CutColumn(cols[CastMen])
    ensures forall name :: name in cols && name != CastWomenRange && name != CastMenRange ==> r[name] == cols[name]
  {
    var w := cols[CastWomenRange := CutColumn(cols[CastWomen])];
    w[CastMenRange := CutColumn(w[CastMen])]
  }

  /** `df["has_homepage"] = ~df["homePage"].isna()`. */
  function WithHomepage(cols: Columns): (r: Columns)
    requires HomePage in cols
    ensures r.Keys == cols.Keys + {HasHomepage}
    ensures forall h: nat :: Rect(cols, h) ==> Rect(r, h)
    ensures r[HasHomepage] == Presence(cols[HomePage])
    ensures forall name :: name in cols && name != HasHomepage ==> r[name] == cols[name]
  {
    cols[HasHomepage := Presence(cols[HomePage])]
  }

  /** `df["actorsPopularity"] = df["actorsPopularity"].astype(str).apply(parse_and_average)`. */
  function WithAveragedPopularity(cols: Columns): (r: Columns)
    requires ActorsPopularity in cols
    ensures r.Keys == cols.Keys
    ensures forall h: nat :: Rect(cols, h) ==> Rect(r, h)
    ensures r[ActorsPopularity] == AveragedColumn(cols[ActorsPopularity])
    ensures forall name :: name in cols && name != ActorsPopularity ==> r[name] == cols[name]
  {
    cols[ActorsPopularity := AveragedColumn(cols[ActorsPopularity])]
  }

  /** What the preparation guarantees: dates are dates or missing, the coerced columns are
      numbers or missing, `year` and `month` are present exactly where the date is (month in
      1..12), `profit` is present exactly where both revenue and budget are, and equals
      their difference. */
  lemma PreparedFacts(cols: Columns, i: nat)
    requires Loaded(cols)
    requires i < |cols[ReleaseDate]| && i < |cols[Budget]|
    ensures var r := Prepared(cols);
            && i < |r[ReleaseDate]| == |r[Year]| == |r[Month]|
            && i < |r[Budget]| == |r[Revenue]| == |r[Profit]|
            && r[ReleaseDate][i] == ToDate(cols[ReleaseDate][i])
            && (forall k :: 0 <= k < |NumericCols| ==> r[NumericCols[k]] == ToNumeric(cols[NumericCols[k]]))
            && (r[Year][i].Num? <==> r[ReleaseDate][i].When?)
            && (r[Month][i].Num? <==> r[ReleaseDate][i].When?)
            && (r[Month][i].Num? ==> 1.0 <= r[Month][i].x <= 12.0)
            && (r[Profit][i].Num? <==> r[Revenue][i].Num? && r[Budget][i].Num?)
            && (r[Profit][i].Num? ==> r[Profit][i].x == r[Revenue][i].x - r[Budget][i].x)
  {
    PreparedColumns(cols);
    assert forall k :: 0 <= k < |NumericCols| ==> NumericCols[k] in NumericCols;
  }

  /** Recomputing the millions columns when `budget` and `revenue` have not changed since
      they were computed changes nothing. */
  lemma RecomputeUnchanged(cols: Columns)
    requires Budget in cols && Revenue in cols && BudgetMillions in cols && RevenueMillions in cols
    requires cols[BudgetMillions] == Millions(cols[Budget]) && cols[RevenueMillions] == Millions(cols[Revenue])
    ensures WithMoneyMillions(cols) == cols
  {
  }

  // ---------------------------------------------------------------------------------------
  // The table object
  // ---------------------------------------------------------------------------------------

  /** `df`: its columns and its number of rows. */
  class MovieFrame {
    var columns: Columns
    var height: nat

    ghost predicate Valid()
      reads this
    {
      Rect(columns, height)
    }

    /** `pd.read_csv(...)`, with the file's contents given as columns. */
    constructor (cols: Columns, h: nat)
      requires Rect(cols, h)
      ensures Valid() && columns == cols && height == h
    {
      columns := cols;
      height := h;
    }

    /** `df[name] = col`. */
    method SetColumn(name: string, col: seq<Cell>)
      requires Valid() && |col| == height
      modifies this
      ensures Valid() && height == old(height)
      ensures columns == old(columns)[name := col]
    {
      columns := columns[name := col];
    }

    /** `for col in names: df[col] = pd.to_numeric(df[col], errors="coerce")`. */
    method CoerceNumeric(names: seq<string>)
      requires Valid() && forall k :: 0 <= k < |names| ==> names[k] in columns
      modifies this
      ensures Valid() && height == old(height)
      ensures columns == Coerced(old(columns), names)
    {
      for k := 0 to |names|
        invariant Valid() && height == old(height)
        invariant columns == Coerced(old(columns), names[..k])
      {
        assert names[..k + 1][..k] == names[..k];
        var name := names[k];
        SetColumn(name, ToNumeric(columns[name]));
      }
      assert names[..|names|] == names;
    }

    /** Lines 13–28 of the scripts (12–27 of the shorter ones). */
    method Prepare()
      requires Valid() && Loaded(columns)
      modifies this
      ensures Valid() && height == old(height)
      ensures columns == Prepared(old(columns))
    {
      ghost var c0 := columns;
      SetColumn(ReleaseDate, ToDatetime(columns[ReleaseDate]));
      assert columns == WithDates(c0);
      CoerceNumeric(NumericCols);
      assert columns == WithNumbers(WithDates(c0));
      assert Budget in NumericCols && Revenue in NumericCols;
      SetColumn(Year, YearColumn(columns[ReleaseDate]));
      SetColumn(Month, MonthColumn(columns[ReleaseDate]));
      assert columns == WithDateParts(WithNumbers(WithDates(c0)));
      SetColumn(Profit, Difference(columns[Revenue], columns[Budget]));
    }

    method AddMoneyMillions()
      requires Valid() && Budget in columns && Revenue in columns
      modifies this
      ensures Valid() && height == old(height)
      ensures columns == WithMoneyMillions(old(columns))
    {
      SetColumn(BudgetMillions, Millions(columns[Budget]));
      SetColumn(RevenueMillions, Millions(columns[Revenue]));
    }

    method AddMillions()
      requires Valid() && Budget in columns && Revenue in columns && Profit in columns
      modifies this
      ensures Valid() && height == old(height)
      ensures columns == WithMillions(old(columns))
    {
      AddMoneyMillions();
      SetColumn(ProfitMillions, Millions(columns[Profit]));
    }

    method SplitGenres()
      requires Valid() && Genres in columns
      modifies this
      ensures Valid() && height == old(height)
      ensures columns == WithGenreLists(old(columns))
    {
      SetColumn(Genres, FillEmpty(columns[Genres]));
      SetColumn(Genres, SplitLists(columns[Genres]));
    }

    method AddGenreMain()
      requires Valid() && Genres in columns
      modifies this
      ensures Valid() && height == old(height)
      ensures columns == WithGenreMain(old(columns))
    {
      SetColumn(GenreMain, FirstSegments(columns[Genres]));
    }

    method AddRanges()
      requires Valid() && CastWomen in columns && CastMen in columns
      modifies this
      ensures Valid() && height == old(height)
      ensures columns == WithRanges(old(columns))
    {
      SetColumn(CastWomenRange, CutColumn(columns[CastWomen]));
      SetColumn(CastMenRange, CutColumn(columns[CastMen]));
    }

    method AddHomepage()
      requires Valid() && HomePage in columns
      modifies this
      ensures Valid() && height == old(height)
      ensures columns == WithHomepage(old(columns))
    {
      SetColumn(HasHomepage, Presence(columns[HomePage]));
    }

    method AveragePopularity()
      requires Valid() && ActorsPopularity in columns
      modifies this
      ensures Valid() && height == old(height)
      ensures columns == WithAveragedPopularity(old(columns))
    {
      SetColumn(ActorsPopularity, AveragedColumn(columns[ActorsPopularity]));
    }
  }
}
