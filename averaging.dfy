/** `parse_and_average`: the mean of a '|'-separated list of numbers, or missing. */
module Averaging {
  import opened Wrappers
  import Text
  import Parsing

  /** Every part is a number. */
  predicate AllNumbers(parts: seq<string>)
  {
    forall k :: 0 <= k < |parts| ==> Parsing.ParseNumber(parts[k]).Some?
  }

  /** `list(map(float, parts))`: every part parsed, or `None` as soon as one fails. */
  function ParseAll(parts: seq<string>): (r: Option<seq<real>>)
    ensures r.Some? <==> AllNumbers(parts)
    ensures r.Some? ==> |r.value| == |parts|
    ensures r.Some? ==> forall k :: 0 <= k < |parts| ==> r.value[k] == Parsing.ParseNumber(parts[k]).value
  {
    if parts == [] then Some([])
    else
      match Parsing.ParseNumber(parts[0])
      case None => None
      case Some(x) =>
        match ParseAll(parts[1..])
        case None =>
          assert forall k :: 1 <= k < |parts| ==> parts[1..][k - 1] == parts[k];
          None
        case Some(xs) => Some([x] + xs)
  }

  function Sum(xs: seq<real>): real
  {
    if xs == [] then 0.0 else xs[0] + Sum(xs[1..])
  }

  /** The mean of the numbers in `s`: their sum over their count. All or nothing: one
      part that is not a number (an empty part included) makes the whole result missing. */
  function ParseAndAverage(s: string): (r: Option<real>)
    ensures r.Some? <==> AllNumbers(Text.Split(s, Text.Bar))
    ensures r.Some? ==> r.value == Sum(ParseAll(Text.Split(s, Text.Bar)).value) / |Text.Split(s, Text.Bar)| as real
  {
    var parts := Text.Split(s, Text.Bar);
    var parsed := ParseAll(parts);
    if parsed.None? then None
    else if parsed.value == [] then None
    else Some(Sum(parsed.value) / |parsed.value| as real)
  }

  /** An empty element spoils the whole list: no partial average. */
  lemma EmptyElementSpoils(s: string, k: nat)
    requires k < |Text.Split(s, Text.Bar)| && Text.Split(s, Text.Bar)[k] == ""
    ensures ParseAndAverage(s) == None
  {
    Parsing.ParseNumberRejectsEmptyAndNan();
  }

  /** A missing value arrives as the text "nan" (`astype(str)`) and stays missing; so does
      the empty string. */
  lemma MissingStaysMissing()
    ensures ParseAndAverage("nan") == None
    ensures ParseAndAverage("") == None
  {
    Parsing.ParseNumberRejectsEmptyAndNan();
    assert Text.Split("nan", Text.Bar) == ["nan"];
    assert Text.Split("", Text.Bar) == [""];
  }

  function Render(xs: seq<nat>): (parts: seq<string>)
    ensures |parts| == |xs| && forall k :: 0 <= k < |xs| ==> parts[k] == Parsing.Decimal(xs[k])
  {
    seq(|xs|, k requires 0 <= k < |xs| => Parsing.Decimal(xs[k]))
  }

  function SumNat(xs: seq<nat>): nat
  {
    if xs == [] then 0 else xs[0] + SumNat(xs[1..])
  }

  lemma {:induction false} ParseAllRendered(xs: seq<nat>)
    ensures ParseAll(Render(xs)).Some?
    ensures Sum(ParseAll(Render(xs)).value) == SumNat(xs) as real
  {
    var parts := Render(xs);
    forall k | 0 <= k < |parts| ensures Parsing.ParseNumber(parts[k]) == Some(xs[k] as real) {
      Parsing.ParseDecimal(xs[k]);
    }
    if xs != [] {
      ParseAllRendered(xs[1..]);
      assert Render(xs)[1..] == Render(xs[1..]);
    }
  }

  /** A '|'-joined list of whole numbers averages to their mean. */
  lemma AverageOfList(xs: seq<nat>)
    requires |xs| >= 1
    ensures ParseAndAverage(Text.Join(Render(xs), Text.Bar)) == Some(SumNat(xs) as real / |xs| as real)
  {
    var parts := Render(xs);
    forall k | 0 <= k < |parts| ensures Text.Bar !in parts[k] {
      assert Parsing.AllDigits(parts[k]);
      assert !Parsing.IsDigit(Text.Bar);
    }
    Text.SplitJoin(parts, Text.Bar);
    ParseAllRendered(xs);
  }
}
