# HT1Mineria: the movie analyses, modelled in Dafny

HT1Mineria is a set of pandas scripts that study a table of movies.
`src/script.py` classifies the columns of the raw table by their dtype. The analysis
scripts reload the table and transform it the same way:
- the release date becomes a date;
- seven money and count columns are coerced to numbers;
- year, month and profit are derived.

Each analysis script then answers its share of the assignment's questions (a)–(p):
- rankings (`nlargest`, `nsmallest`, `idxmax`, the latest releases);
- counts (`value_counts`);
- grouped sums and means, by genre after `explode`, by `pd.cut` cast-size range, by month, by year, and by the `video` and `has_homepage` flags;
- the mean of the `|`-separated actor popularities.

The scripts are:
- `src/ejercicios.py`, the full analysis;
- `src/pares.py` and `src/impares.py`, the even- and odd-numbered questions;
- `src/raw_ejercicios/pares.py` and `src/raw_ejercicios/impares.py`, their first drafts.

The model keeps the scripts' structure:

- `Frame` is the table `df`. `MovieFrame` is a class with the column map and the height. Its
  methods do each column assignment the scripts make (`Prepare`, `AddMillions`,
  `SplitGenres`, ...). The numeric coercion loop is a `for` loop. Each method is proved to
  leave the columns equal to a pure function of the old columns (`Prepared`, `WithMillions`,
  ...), and those functions say which column changes, to what, and that nothing else changes.
- `Queries` holds the read-only questions, written once. They are built on `Ranking` (one
  stable descending sort with missing values last, on which `nlargest`, `nsmallest` and
  `sort_values` are built; `idxmax` is a separate scan, and a lemma shows it names the first
  row of `nlargest`), `Grouping` (one group accumulator checked against reference
  counts and sums, plus `explode`), `Binning` (`pd.cut`), `Averaging` (`parse_and_average`),
  `Parsing` (number and date conversion) and `Text` (`split`, first segment, truncation).
- `Ejercicios`, `Pares`, `Impares`, `RawPares` and `RawImpares` are the five scripts. Each
  `Run` method applies the script's column assignments to a `MovieFrame`, in the script's
  order. It is proved to end with the script's final table and to return exactly the
  answers of the questions, each asked of the table as it stood at that line. `Sections`
  holds the cast-range and marketing questions that two scripts share.
- `Classification` is lines 52–79 of `src/script.py`:
  - the dictionary is a class with its keys in insertion order and its entries;
  - the fill loop and both correction loops are `for` loops, proved against fold functions;
  - the lemmas give each column's final class.

A cell is `NA` for pandas' missing values (NaN, NaT, None), or a number, text, date, list,
flag or category code. Numbers are exact reals.

Some behaviours of the scripts are easy to misread; the model follows the code:
- `parse_and_average` is all or nothing. One element that `float` rejects makes the whole
  value missing.
- `has_homepage` is `~isna()`. An empty home-page text therefore counts as a home page.
- Missing genres are not excluded from `explode`. `fillna("")` turns them into the list
  `[""]`, so they form a group named `""`.
- The grouped sum of a group whose values are all missing is 0, not missing. Only `mean`
  gives a missing value there.
- The genre of `str.split("|").str[0]` is `""`, not missing, for an empty genres text.
- A cast size above 200, or of 0, gets no `pd.cut` range; `"50+"` covers 51–200 only.
- `groupby` on the categorical range columns lists all six ranges, empty ones included, as
  pandas 2.x does with its default `observed=False`.

## Model

| member | source | states |
|---|---|---|
| Text.Split | src/ejercicios.py:177 | `split("|")` never returns an empty list, and no part contains the separator |
| Text.JoinSplit | src/ejercicios.py:177 | joining the parts of a split with the separator gives the original text |
| Text.SplitCount | src/ejercicios.py:177 | a text with k separators splits into k + 1 parts |
| Text.SplitJoin | src/ejercicios.py:521 | splitting a join of separator-free parts, at least one, gives those parts back |
| Text.IndexOf | src/ejercicios.py:141 | the position found holds the character and no earlier position does |
| Text.FirstSegment | src/ejercicios.py:141 | `split("|")[0]` is a separator-free prefix: the whole text when it has no separator, otherwise followed by the separator |
| Text.Truncate | src/ejercicios.py:326 | a name is kept exactly when it has at most 30 characters; a longer one becomes its first 27 characters and `"..."`, 30 in all |
| Text.TruncateIdempotent | src/ejercicios.py:326 | shortening a shortened name changes nothing |
| Text.ContainsFrom | src/script.py:63 | decides `needle in hay`: true exactly when the needle occurs at some position from `from` on |
| Parsing.ParseNumber | src/ejercicios.py:21 | a parsed number comes from a non-empty text of signs, digits and points; every other text is missing |
| Parsing.ParseNumberRejectsEmptyAndNan | src/ejercicios.py:21 | the empty text and `"nan"` become missing, not 0 |
| Parsing.ParseDecimal | src/ejercicios.py:521 | the decimal rendering of a whole number parses back to that number |
| Parsing.ParseDate | src/ejercicios.py:13 | a parsed date is a real calendar date inside pandas' timestamp range and comes from a `YYYY-MM-DD` text |
| Parsing.FormatParseDate | src/ejercicios.py:13 | every date pandas can hold, written as `YYYY-MM-DD`, parses back to itself |
| Parsing.DateKeyOrder | src/ejercicios.py:132 | the numeric sort key orders calendar dates as (year, month, day) does, and two dates have equal keys exactly when they are equal |
| Ranking.SortDesc | src/ejercicios.py:132 | the sort is a permutation (same multiset) and is non-increasing by key, with missing keys last |
| Ranking.SortDescTies | src/ejercicios.py:79 | rows with equal values keep their frame order (`keep="first"`) |
| Ranking.PresentRows | src/ejercicios.py:37 | exactly the rows holding a value, in increasing order |
| Ranking.NLargest | src/ejercicios.py:79 | `nlargest(n)`: min(n, rows) rows, each listed once; the rows with a value come first, largest first, ties in frame order; when fewer than n rows have a value, the first missing rows in frame order follow, and every missing row left out comes after each kept one; every present row is kept when at most n have a value, and every row when the frame has at most n |
| Ranking.MissingRows | src/ejercicios.py:79 | exactly the rows with a missing value, in frame order |
| Ranking.PaddedFacts | src/ejercicios.py:79 | the padded order lists every row once: the present rows ranked, then the missing rows |
| Ranking.NLargestPresentPart | src/ejercicios.py:37 | the present rows `nlargest(n)` keeps are the first n of the ranked present rows |
| Ranking.NLargestTop | src/ejercicios.py:79 | a present row that `nlargest` leaves out means every kept row is present, none smaller, and a kept row of equal value comes earlier in the frame |
| Ranking.NSmallest | src/ejercicios.py:95 | `nsmallest(n)`: min(n, rows) rows; the rows with a value first, smallest first, ties in frame order, then the first missing rows in frame order, every missing row left out after each kept one; every present row when at most n have a value, every row when the frame has at most n |
| Ranking.NSmallestBottom | src/ejercicios.py:95 | a present row that `nsmallest` leaves out means every kept row is present, none larger, and a kept row of equal value comes earlier in the frame |
| Ranking.IdxMax | src/ejercicios.py:74 | `idxmax`: none exactly when every value is missing; otherwise a present row holding the maximum, every earlier row strictly smaller |
| Ranking.IdxMaxHeadsNLargest | src/ejercicios.py:74-79 | for n ≥ 1, `idxmax`, when it names a row, names the first row of `nlargest(n)`; it names none exactly when that first row is missing or there is no row |
| Ranking.SortRowsDesc | src/ejercicios.py:132 | `sort_values(ascending=False)` is a permutation of all rows, present values non-increasing, missing values after every present one, rows of equal value (the missing ones among them) in frame order |
| Ranking.Head | src/ejercicios.py:132 | `head(n)` is the first min(n, length) elements |
| Ranking.Filter | src/ejercicios.py:37 | exactly the rows that pass, never more rows than before |
| Ranking.FilterRanked | src/ejercicios.py:37 | dropping rows from a ranking leaves a ranking (values non-increasing, ties in frame order) |
| Ranking.TopKept | src/ejercicios.py:37 | `nlargest(n)[cols].dropna()`, with the ranked column among `cols`: exactly the present rows of `nlargest(n)` that are complete, at most n, ranked as `nlargest` ranks them; the missing rows `nlargest` pads with are dropped; when at most n rows have a value, every complete one is kept |
| Grouping.Tally | src/ejercicios.py:181 | the groups of a key column: distinct keys, each group's row count, value count and sum equal to the reference counts over the frame, and every present key has a group |
| Grouping.AbsentKey | src/ejercicios.py:181 | a key that no row holds has no rows, no values and sum 0 |
| Grouping.RowsWherePositive | src/ejercicios.py:142 | a key held by some row has at least one row |
| Grouping.RowsWhereWitness | src/ejercicios.py:142 | a key with rows is held by some row |
| Grouping.AllMissingSumsToZero | src/ejercicios.py:182 | a group whose values are all missing sums to 0 |
| Grouping.OtherRowIgnored | src/ejercicios.py:243 | changing a value in a row outside group k changes neither k's value count nor its sum |
| Grouping.TallyTotals | src/ejercicios.py:182 | the group sizes add up to the rows with a key, and the group sums add up to the sum over those rows |
| Grouping.Mean | src/ejercicios.py:216 | a group's mean is missing exactly when the group has no value; otherwise it is the sum over the value count |
| Grouping.ValueCounts | src/ejercicios.py:142 | `value_counts()`: the groups of the key column, most frequent first, the counts adding up to the rows with a key |
| Grouping.SumsDesc | src/ejercicios.py:179-184 | `groupby().sum().sort_values(ascending=False)`: the groups, sums non-increasing, adding up to the sum over keyed rows |
| Grouping.MeansDesc | src/ejercicios.py:394 | `groupby().mean().sort_values(ascending=False)`: the groups, present means non-increasing, missing means last |
| Grouping.ByKey | src/ejercicios.py:216 | `groupby(key)`: the groups in ascending key order, sizes adding up to the rows with a key |
| Grouping.NumericKeysAscending | src/ejercicios.py:216 | numeric group keys come out strictly ascending |
| Grouping.FlagGroups | src/ejercicios.py:445 | grouping by a flag gives at most two groups, `False` before `True` |
| Grouping.FlagPairGroups | src/ejercicios.py:508 | grouping by two flags gives at most four groups, strictly in lexicographic order |
| Grouping.ExplodeCopies | src/ejercicios.py:180 | every exploded row copies one frame row's value; its key is an element of that row's list, or missing exactly when the list is empty |
| Grouping.ExplodeCounts | src/ejercicios.py:180 | frame row i gives one exploded row per list element, and one row for an empty list |
| Grouping.ExplodeShape | src/ejercicios.py:180 | the exploded columns have the same length, the total width, with the copy and count facts above |
| Grouping.ExplodedKeyPresent | src/ejercicios.py:180 | every element of every list becomes a key of some exploded row |
| Grouping.ExplodedSum | src/ejercicios.py:179-184 | after `explode`, the sum of genre k is the sum over the frame of each row's value, counted once per listing of k |
| Binning.Cut | src/ejercicios.py:237 | a value gets a category exactly when it is in (0, 200]; the category's interval (left-open, right-closed) contains it |
| Binning.EdgesIncreasing | src/ejercicios.py:231 | seven strictly increasing edges for six labels, so a value has at most one category |
| Binning.CutCounts | src/ejercicios.py:231-232 | whole counts 1–2, 3–5, 6–10, 11–20, 21–50 and 51–200 get the labels `0-2` … `50+` in order (each an if and only if); 0 and counts above 200 get none |
| Binning.RangeMeans | src/ejercicios.py:243 | one entry per label, all six, each the mean of the values of that range's rows, missing for a range without values |
| Binning.MeanUnique | src/ejercicios.py:243 | a range's mean depends only on its value count and sum |
| Binning.UnlabelledRowIgnored | src/ejercicios.py:237-243 | a row without a range has no effect on any range's mean |
| Averaging.ParseAll | src/ejercicios.py:521 | `list(map(float, parts))` succeeds exactly when every part is a number, giving the values in order |
| Averaging.ParseAndAverage | src/ejercicios.py:519-524 | the average is present exactly when every element parses; it is then their sum over their count |
| Averaging.EmptyElementSpoils | src/ejercicios.py:523-524 | an empty element makes the whole value missing |
| Averaging.MissingStaysMissing | src/ejercicios.py:527 | a missing value, which `astype(str)` turns into `"nan"`, stays missing, and so does the empty text |
| Averaging.AverageOfList | src/ejercicios.py:519-524 | a `|`-joined list of whole numbers averages to their arithmetic mean |
| Frame.Coerce | src/ejercicios.py:21 | `to_numeric(errors="coerce")`: numbers stay, a text becomes its parsed number or missing, booleans become 1 and 0, anything else missing |
| Frame.ToNumericIdempotent | src/ejercicios.py:20-21 | coercing a column twice is coercing it once |
| Frame.UnparsableBecomesMissing | src/ejercicios.py:21 | an unparsable value becomes missing, not 0, and its row stays |
| Frame.ToDate | src/ejercicios.py:13 | `to_datetime(errors="coerce")` gives a date or missing; a text becomes a date exactly when it parses, and it is then that date |
| Frame.YearColumn | src/ejercicios.py:24 | `dt.year` is present exactly where the date is, and equals its year |
| Frame.MonthColumn | src/ejercicios.py:25 | `dt.month` is present exactly where the date is, equals its month, and lies in 1–12 |
| Frame.Difference | src/ejercicios.py:27 | `revenue - budget` is present exactly where both are, and adding the budget back gives the revenue |
| Frame.Millions | src/ejercicios.py:30-32 | `x / 1_000_000` is present exactly where x is, and times one million gives x back |
| Frame.FirstSegments | src/ejercicios.py:141 | `str.split("|").str[0]` is text exactly where the genres are text: a separator-free prefix, the whole text when there is no separator |
| Frame.FillEmpty | src/ejercicios.py:176 | `fillna("")` replaces missing cells by the empty text and keeps every other cell |
| Frame.SplitLists | src/ejercicios.py:177 | every cell becomes a list: the split of a text, the empty list otherwise |
| Frame.GenreListsShape | src/ejercicios.py:176-177 | after both steps a missing genre is the list `[""]`, and a text with k separators is k + 1 names that join back to the text |
| Frame.Presence | src/ejercicios.py:442 | `~isna()` is true exactly where the cell is not missing |
| Frame.CutColumn | src/ejercicios.py:237 | each row's range code is `Cut` of its number |
| Frame.AveragedColumn | src/ejercicios.py:527 | a text becomes `parse_and_average` of it, a number stays, anything else is missing |
| Frame.CoercedColumns | src/ejercicios.py:20-21 | the coercion loop coerces every listed column and leaves every other column as it was |
| Frame.WithDates | src/ejercicios.py:13 | only `releaseDate` changes, to its converted dates; the height is kept |
| Frame.WithNumbers | src/ejercicios.py:18-21 | the seven listed columns are coerced and no other changes; the height is kept |
| Frame.WithDateParts | src/ejercicios.py:24-25 | `year` and `month` are added from `releaseDate`; nothing else changes |
| Frame.WithProfit | src/ejercicios.py:27 | `profit` is added as revenue minus budget; nothing else changes |
| Frame.Prepared | src/ejercicios.py:13-27 | the preparation adds exactly `year`, `month` and `profit` and keeps the height |
| Frame.PreparedColumns | src/ejercicios.py:13-27 | after the preparation each column holds its conversion, year, month and profit are derived from the converted columns, and no other column changes |
| Frame.PreparedFacts | src/ejercicios.py:13-27 | row by row: year and month present exactly where the date is (month in 1–12), profit present exactly where revenue and budget are, equal to their difference |
| Frame.WithMoneyMillions | src/ejercicios.py:347-348 | `budget_millions` and `revenue_millions` are set from budget and revenue; nothing else changes |
| Frame.WithMillions | src/ejercicios.py:30-32 | the three millions columns are added from budget, revenue and profit; nothing else changes |
| Frame.WithGenreLists | src/ejercicios.py:176-177 | `genres` becomes the split of its filled texts; nothing else changes |
| Frame.WithGenreMain | src/ejercicios.py:141 | `genre_main` is added as the first segment of `genres`; nothing else changes |
| Frame.WithRanges | src/ejercicios.py:237-238 | the two range columns are added by `pd.cut` of the cast counts; nothing else changes |
| Frame.WithHomepage | src/ejercicios.py:442 | `has_homepage` is added as the presence of `homePage`; nothing else changes |
| Frame.WithAveragedPopularity | src/ejercicios.py:527 | `actorsPopularity` becomes its averaged column; nothing else changes |
| Frame.RecomputeUnchanged | src/ejercicios.py:347-348 | recomputing millions columns that already match budget and revenue changes nothing |
| Frame.MovieFrame.constructor | src/ejercicios.py:10 | the loaded table, with rows of equal length |
| Frame.MovieFrame.SetColumn | src/ejercicios.py:13 | `df[name] = col` sets that one column, keeping the height |
| Frame.MovieFrame.CoerceNumeric | src/ejercicios.py:20-21 | the loop leaves the columns equal to `Coerced` of the old columns |
| Frame.MovieFrame.Prepare | src/ejercicios.py:13-27 | the columns become `Prepared` of the old ones |
| Frame.MovieFrame.AddMoneyMillions | src/ejercicios.py:347-348 | the columns become `WithMoneyMillions` of the old ones |
| Frame.MovieFrame.AddMillions | src/ejercicios.py:30-32 | the columns become `WithMillions` of the old ones |
| Frame.MovieFrame.SplitGenres | src/ejercicios.py:176-177 | the columns become `WithGenreLists` of the old ones |
| Frame.MovieFrame.AddGenreMain | src/ejercicios.py:141 | the columns become `WithGenreMain` of the old ones |
| Frame.MovieFrame.AddRanges | src/ejercicios.py:237-238 | the columns become `WithRanges` of the old ones |
| Frame.MovieFrame.AddHomepage | src/ejercicios.py:442 | the columns become `WithHomepage` of the old ones |
| Frame.MovieFrame.AveragePopularity | src/ejercicios.py:527 | the columns become `WithAveragedPopularity` of the old ones |
| Queries.TopRows | src/ejercicios.py:37 | `nlargest(n, col)[shown].dropna()`: exactly the rows of `nlargest(n, col)` that have a number in `col` and every shown column, at most n, ranked; all complete rows when at most n have a value |
| Queries.TopRowsTop | src/ejercicios.py:37 | a complete row left out of the top rows is no larger than any kept row, and a kept row of equal value comes earlier |
| Queries.Largest | src/ejercicios.py:79 | `nlargest(n, col)` on the table: min(n, rows) rows; those with a number first, largest first, ties in frame order; then, when fewer than n have a number, the first rows without one in frame order, every such row left out coming after each kept one |
| Queries.LargestTop | src/ejercicios.py:79 | a row with a number that `nlargest` leaves out means every kept row has a number, none smaller, and a kept row of equal value comes earlier |
| Queries.Smallest | src/ejercicios.py:95 | `nsmallest(n, col)` on the table: min(n, rows) rows; those with a number first, smallest first, ties in frame order; then the first rows without one in frame order, every such row left out coming after each kept one |
| Queries.SmallestBottom | src/ejercicios.py:95 | a row with a number that `nsmallest` leaves out means every kept row has a number, none larger, and a kept row of equal value comes earlier |
| Queries.MostBy | src/ejercicios.py:74 | the first row with the largest number, none when the column has no number |
| Queries.MostByHeadsLargest | src/ejercicios.py:74-79 | the most voted film is the first of the top five; there is none exactly when the first of the top five has no count, or the table is empty |
| Queries.YearKeys | src/ejercicios.py:115 | `df[df["year"] >= 1960]["year"]`: a row keeps its year exactly when the year is present and at least the bound |
| Queries.YearCounts | src/ejercicios.py:115-117 | the films per year: the groups of the kept years, years strictly ascending, each at least the bound and the year of some row, counts adding up to the kept rows |
| Queries.RecentUndated | src/ejercicios.py:132 | an undated row outside the head of the date order comes after every undated row in it |
| Queries.Recent | src/ejercicios.py:132 | the min(n, rows) latest distinct rows, latest first, undated rows after every dated one; every dated row left out is no later than each kept row, and then every kept row is dated; when fewer than n rows are dated, the first undated rows in frame order fill the head |
| Queries.Counts | src/ejercicios.py:142 | the counts of a text column, most frequent first, adding up to the rows with a text |
| Queries.MainGenres | src/ejercicios.py:133 | the main genre of each given row: the first segment of its genres, missing where they are not text |
| Queries.GenreSums | src/ejercicios.py:179-184 | one entry per genre, distinct, largest sum first; a genre's sum is its rows' values, each row counted once per listing; every listed genre has an entry and every entry is a genre some row lists |
| Queries.MeansByNumber | src/ejercicios.py:216 | mean per numeric key: the groups, keys strictly ascending, each key the value of some row |
| Queries.MeansDescBy | src/ejercicios.py:394 | mean per numeric key, largest present mean first, each key the value of some row |
| Queries.MeansByRange | src/ejercicios.py:243-247 | six means, one per cast-size range, each the mean over that range's rows |
| Queries.MeansByFlag | src/ejercicios.py:445-449 | mean per flag: the groups, at most `False` then `True` |
| Queries.FlagPairs | src/ejercicios.py:508 | the pair key is present exactly where both flags are, and is the pair of them |
| Queries.MeansByFlagPair | src/ejercicios.py:508-509 | mean per pair of flags: the groups, at most four, strictly in lexicographic order |
| Queries.ShortDirectors | src/ejercicios.py:326 | the director of each given row, present where it is text and shortened to at most 30 characters |
| Queries.DirectorCounts | src/ejercicios.py:325-331 | the counts are exactly the groups of the shortened directors of the top-20 rated rows with title, rating and director; each name at most 30 characters, most frequent first, counts adding up to those rows with a director, at most 20 |
| Queries.DirectorKeyShort | src/ejercicios.py:331 | any name that is counted has at most 30 characters |
| Queries.TopWithMonth | src/ejercicios.py:408 | `nlargest(n, col).dropna(subset=["month"])`: exactly the rows of `nlargest(n, col)` that have a month, padded rows without a `col` value included, at most n |
| Queries.TopMonthCounts | src/ejercicios.py:408-409 | the counts are exactly the groups of the months of those rows, most frequent first, each the month of some row, adding up to the number of those rows, at most 50 |
| Ejercicios.Priced | src/ejercicios.py:13-32 | the prepared table with millions keeps every column the questions read, at the same height |
| Ejercicios.WithMain | src/ejercicios.py:141 | the table with `genre_main` keeps those columns and the height |
| Ejercicios.Exploded | src/ejercicios.py:176-177 | the table with genre lists keeps those columns and the height |
| Ejercicios.Ranged | src/ejercicios.py:237-238 | the table with range columns keeps those columns and the height |
| Ejercicios.Marked | src/ejercicios.py:442 | the table with `has_homepage` keeps those columns and the height |
| Ejercicios.Final | src/ejercicios.py:527 | the final table keeps the height |
| Ejercicios.MoneyKept | src/ejercicios.py:141-238 | lines 141 to 238 do not touch budget, revenue or their millions columns |
| Ejercicios.RecomputeIsNoOp | src/ejercicios.py:347-348 | the recomputation of the millions columns leaves the table exactly as it was |
| Sections.CastMeansOf | src/ejercicios.py:243-247 | the four cast-range tables have one entry per range label, and each is the mean of popularity or revenue in millions over that range of actresses or actors |
| Sections.MarketingOf | src/ejercicios.py:445-509 | the six marketing tables are exactly the groups of `video`, of `has_homepage` and of the pair of them, with revenue and popularity as values; at most two groups per flag and four per pair |
| Ejercicios.RankingsOf | src/ejercicios.py:37-133 | at most 10, 10 and 10 rows in the budget, revenue and worst rankings; the top five voted are min(5, rows) rows; the most voted film is missing exactly when the first of them has no count or there is none, and is otherwise that first row; every year counted is from 1960 on; at most 20 recent films, with one main genre each |
| Ejercicios.GenreAnswersOf | src/ejercicios.py:142-216 | genre counts adding up to the rows with a main genre; at most 10 longest films; distinct genres whose profit is their rows' profit counted once per listing; yearly actor means in ascending year order |
| Ejercicios.CastAndMonthsOf | src/ejercicios.py:243-409 | six popularity means per sex; director counts adding up to at most 20; monthly revenue in ascending month order; top-revenue month counts adding up to at most 50 |
| Ejercicios.Reported | src/ejercicios.py:13-527 | the report's most voted film, when there is one, heads its top five; its director counts add up to at most 20; at most two video groups and four flag pairs |
| Ejercicios.RunRankings | src/ejercicios.py:13-133 | the table becomes `Priced`, and the rankings are those of that table |
| Ejercicios.RunGenres | src/ejercicios.py:141-216 | the table gets `genre_main` and then genre lists; counts and longest films are asked of the first, sums and yearly means of the second |
| Ejercicios.RunCast | src/ejercicios.py:237-409 | the table becomes `Ranged`, and the cast, director and month answers are those of that table |
| Ejercicios.RunMarketing | src/ejercicios.py:442-527 | the table becomes `Final`, and the marketing answers are those of the table with `has_homepage` |
| Ejercicios.RunFirstHalf | src/ejercicios.py:13-216 | the table becomes `Exploded`; the rankings and genre answers are those of the intermediate tables |
| Ejercicios.RunSecondHalf | src/ejercicios.py:237-527 | the table becomes `Final`; the cast and marketing answers are those of the intermediate tables |
| Ejercicios.Run | src/ejercicios.py:13-527 | the whole script ends with `Final` of the loaded table and returns exactly `Reported` of it |
| Pares.Prepped | src/pares.py:12-27 | the prepared table keeps the columns the questions read and the height |
| Pares.Final | src/pares.py:78 | the table with `genre_main` keeps the columns the last questions read and the height |
| Pares.RankingsOf | src/pares.py:32-70 | at most 10 top-revenue and 10 worst-rated films; the min(20, rows) most recent films, with one main genre each |
| Pares.Reported | src/pares.py:12-97 | at most 10 longest films in the report |
| Pares.Run | src/pares.py:12-97 | the script ends with `Final` of the loaded table and returns exactly `Reported` of it |
| Impares.Prepped | src/impares.py:12-27 | the prepared table keeps the columns the questions read and the height |
| Impares.Final | src/impares.py:89-90 | the table with genre lists keeps `genres`, `profit` and the height |
| Impares.RankingsOf | src/impares.py:32-73 | at most 10 top-budget films; the top five voted are min(5, rows) rows; the most voted film is missing exactly when the first of them has no count or there is none, and is otherwise that first row; years counted in strictly ascending order |
| Impares.Reported | src/impares.py:12-97 | the most voted film, when there is one, heads the top five; genre profits over distinct genres, largest first |
| Impares.Run | src/impares.py:12-97 | the script ends with `Final` of the loaded table and returns exactly `Reported` of it |
| RawPares.Prepped | src/raw_ejercicios/pares.py:13-28 | the prepared table keeps the columns the questions read and the height |
| RawPares.WithMain | src/raw_ejercicios/pares.py:81 | the table with `genre_main` keeps those columns and the height |
| RawPares.Final | src/raw_ejercicios/pares.py:209 | the final table keeps the height |
| RawPares.GenreAnswersOf | src/raw_ejercicios/pares.py:82-165 | genre counts adding up to the rows with a main genre; at most 10 longest films; yearly actor means ascending by year; director counts adding up to at most 20, names at most 30 characters; monthly revenue ascending by month |
| RawPares.Reported | src/raw_ejercicios/pares.py:13-165 | the min(20, rows) most recent films; director counts adding up to at most 20 |
| RawPares.Run | src/raw_ejercicios/pares.py:13-209 | the script ends with `Final` of the loaded table and returns exactly `Reported` of it |
| RawImpares.Priced | src/raw_ejercicios/impares.py:14-34 | the prepared table with millions keeps the columns the questions read and the height |
| RawImpares.Exploded | src/raw_ejercicios/impares.py:95-96 | the table with genre lists keeps those columns and the height |
| RawImpares.Ranged | src/raw_ejercicios/impares.py:129-130 | the table with range columns keeps those columns and the height |
| RawImpares.Final | src/raw_ejercicios/impares.py:278 | the table with `has_homepage` keeps those columns and the height |
| RawImpares.MoneyKept | src/raw_ejercicios/impares.py:95-130 | lines 95 to 130 do not touch budget, revenue or their millions columns |
| RawImpares.RecomputeIsNoOp | src/raw_ejercicios/impares.py:219-220 | the recomputation of the millions columns leaves the table exactly as it was |
| RawImpares.RankingsOf | src/raw_ejercicios/impares.py:39-80 | at most 10 top-budget films; the top five voted are min(5, rows) rows; the most voted film is missing exactly when the first of them has no count or there is none, and is otherwise that first row; every year counted is from 1960 on |
| RawImpares.MonthsOf | src/raw_ejercicios/impares.py:247-262 | mean revenue by month, largest present mean first and missing means after every present one; top-revenue month counts add up to at most 50, each the month of some row |
| RawImpares.Reported | src/raw_ejercicios/impares.py:14-345 | the most voted film, when there is one, heads the top five; distinct genres in the genre profits; six popularity means per sex; top-revenue month counts adding up to at most 50 |
| RawImpares.RunFirstHalf | src/raw_ejercicios/impares.py:14-102 | the table becomes `Exploded`; the rankings are those of the priced table and the genre profits those of the exploded one |
| RawImpares.RunCast | src/raw_ejercicios/impares.py:129-262 | the table becomes `Ranged`, and the range means and month answers are those of that table |
| RawImpares.Run | src/raw_ejercicios/impares.py:14-345 | the script ends with `Final` of the loaded table and returns exactly `Reported` of it |
| Classification.KindOf | src/script.py:57-64 | `object` is nominal, `int64` discrete, `float64` continuous, any dtype naming `datetime` nominal; no class exactly when no branch matches |
| Classification.KindOfExamples | src/script.py:63 | `datetime64[ns]` with or without a time zone is nominal; `bool` and `category` get no class |
| Classification.Put | src/script.py:58 | `d[k] = v` keeps the dictionary well formed: a new key goes last, an existing key keeps its place, and only k's entry changes |
| Classification.Filled | src/script.py:54-64 | the dictionary after the fill loop is well formed |
| Classification.FilledEntries | src/script.py:54-64 | with distinct column names, the keys are the classified columns in frame order; a column has an entry exactly when its dtype matches a branch, and the entry is that branch's class |
| Classification.Overridden | src/script.py:70-72 | a correction loop never adds or removes a key nor moves one; listed keys that are present take the class, the others keep theirs |
| Classification.Classified | src/script.py:70-76 | after both loops the keys are those of the fill loop; present continuous names are continuous, present discrete names discrete, all others unchanged |
| Classification.ClassOfColumn | src/script.py:54-76 | a column's final class: none when its dtype matches no branch, even if its name is listed; otherwise the listed correction if there is one, else its dtype's class |
| Classification.Rows | src/script.py:79 | `list(d.items())` has one row per key, in insertion order, with distinct names and each key's entry |
| Classification.Dict.constructor | src/script.py:52 | `classification = {}` is the empty, well-formed dictionary |
| Classification.Dict.Set | src/script.py:58 | the assignment leaves the dictionary equal to `Put` of the old one |
| Classification.Fill | src/script.py:52-64 | the loop over the columns produces a fresh dictionary equal to `Filled` |
| Classification.Override | src/script.py:70-72 | the loop over a correction list leaves the dictionary equal to `Overridden` of the old one |
| Classification.Classify | src/script.py:52-79 | the rows of `classification_df` are `Rows` of `Classified` of the columns |

## Left out

- Plotting, printing, `to_string` and the `$x,.0f` currency formatting (`src/ejercicios.py:56`, `:374`) are left out; they only display results.
- Reading and writing files, the file-existence check and path handling in `src/script.py:1-48` are I/O. The table arrives as the columns given to `MovieFrame`'s constructor.
- `df.info()`, `isnull().sum()` and `describe()` in `src/script.py:31-39` are left out; they only print summaries.
- Pearson correlations (`src/ejercicios.py:210`, `:311-315`, `:423`, `:530`) are left out; they are floating-point statistics that feed only prints.
- The scatter plot and histogram of question (k) are left out; they are plots only.
- Numbers are exact reals. Float rounding, infinities and NaN arithmetic are not modelled.
- `Averaging.ParseAndAverage`: the texts `"inf"`, `"1e3"`, `"1_000"` and numbers with surrounding spaces, which `float` accepts, are treated as unparsable, as `Parsing.ParseNumber` below treats them.
- `Parsing.ParseNumber` accepts only an optional sign, digits and an optional point. Exponents, underscores between digits (`"1_000"`), surrounding spaces and `"inf"`, which pandas also parses, are treated as unparsable.
- `Parsing.ParseDate` reads only `YYYY-MM-DD`. The other formats `to_datetime` infers are not modelled.
- `Frame.Coerce`: a date cell passed to `to_numeric` becomes missing. pandas would turn it into nanoseconds; the scripts never do this.
- `Ranking.NLargest` and `Ranking.NSmallest` keep equal values in frame order also when n is at least the number of rows. pandas then sorts with `sort_values`, whose default sort is not stable, so that order is unspecified there.
- `Queries.Recent` keeps rows of equal date in frame order. pandas' default sort algorithm is not stable and leaves that order unspecified; the contract states only the order by date. Undated rows are not affected: pandas puts them last in frame order, and the contract says so.
- `Grouping.ValueCounts`, `Grouping.SumsDesc` and `Grouping.MeansDesc` break ties by first appearance. pandas' default sort algorithm is not stable and leaves that order unspecified; the contracts state only the order by value.
- `Queries.TopRows`, `Queries.Largest` and `Queries.Smallest` read any non-number cell as missing. pandas' `nlargest` raises on a text column. The scripts only rank columns that `read_csv` yields as numbers, so a non-number cell is ranked, and padded, as a missing one.
- `Ejercicios.Reported`: states only that a most voted film, when there is one, heads the top five. Whether there is one depends on the vote counts, since the top five can be padded with rows that have none; `Ejercicios.RankingsOf` states the full condition.
- `Impares.Reported`: states only that a most voted film, when there is one, heads the top five. Whether there is one depends on the vote counts, since the top five can be padded with rows that have none; `Impares.RankingsOf` states the full condition.
- `RawImpares.Reported`: states only that a most voted film, when there is one, heads the top five. Whether there is one depends on the vote counts, since the top five can be padded with rows that have none; `RawImpares.RankingsOf` states the full condition.
- `Classification.Fill`: a repeated column name is not modelled as an error. There `df[column]` is a frame and `.dtype` raises. `Classification.FilledEntries` requires distinct names for this reason.
- `Classification.KindOf` compares dtypes by their names, as text. NumPy's dtype equality also accepts aliases of those names, but all four cases compare against canonical names.
- `Frame.MovieFrame.SetColumn` stores a column by value. Views, copies and pandas' copy-on-write are not modelled; `.copy()` at `src/ejercicios.py:115` and the row selections at `:132-133` are pure queries.
- `Queries.MostBy` and `Ranking.IdxMax` return none for a column with no number. There `idxmax` raises or gives NaN, depending on the pandas version, and `df.loc` then raises, at `src/ejercicios.py:74`, `src/impares.py:50` and `src/raw_ejercicios/impares.py:57`; the model reports the missing film instead of stopping.
