/** The summary statistics of the `CER %` column: its mean, minimum and maximum. CER values
    are integers in hundredths of a percent; the mean is kept as an exact real. */
module Aggregate {

  import opened Options

  /** The sum of a column. */
  function Sum(values: seq<int>): int
  {
    if |values| == 0 then 0 else values[0] + Sum(values[1..])
  }

  /** The smallest value of a non-empty column. */
  function Min(values: seq<int>): (m: int)
    requires |values| > 0
    ensures m in values
    ensures forall i :: 0 <= i < |values| ==> m <= values[i]
  {
    if |values| == 1 then values[0]
    else
      var rest := Min(values[1..]);
      if values[0] <= rest then values[0] else rest
  }

  /** The largest value of a non-empty column. */
  function Max(values: seq<int>): (m: int)
    requires |values| > 0
    ensures m in values
    ensures forall i :: 0 <= i < |values| ==> values[i] <= m
  {
    if |values| == 1 then values[0]
    else
      var rest := Max(values[1..]);
      if values[0] >= rest then values[0] else rest
  }

  /** A lower bound of every value bounds the sum from below, once per value. */
  lemma {:induction false} SumAtLeast(values: seq<int>, low: int)
    requires forall i :: 0 <= i < |values| ==> low <= values[i]
    ensures low * |values| <= Sum(values)
  {
    if |values| > 0 {
      SumAtLeast(values[1..], low);
      assert low * |values| == low + low * |values[1..]|;
    }
  }

  /** An upper bound of every value bounds the sum from above, once per value. */
  lemma {:induction false} SumAtMost(values: seq<int>, high: int)
    requires forall i :: 0 <= i < |values| ==> values[i] <= high
    ensures Sum(values) <= high * |values|
  {
    if |values| > 0 {
      SumAtMost(values[1..], high);
      assert high * |values| == high + high * |values[1..]|;
    }
  }

  /** `min * n <= sum <= max * n` for a non-empty column of n values. */
  lemma SumBetweenMinAndMax(values: seq<int>)
    requires |values| > 0
    ensures Min(values) * |values| <= Sum(values) <= Max(values) * |values|
  {
    SumAtLeast(values, Min(values));
    SumAtMost(values, Max(values));
  }

  /** The arithmetic mean of a non-empty column: the value that, counted once per entry,
      adds up to the column's sum. */
  function Mean(values: seq<int>): (m: real)
    requires |values| > 0
    ensures m * |values| as real == Sum(values) as real
  {
    Sum(values) as real / |values| as real
  }

  /** The statistics reported for a column. */
  datatype Stats = Stats(mean: real, min: int, max: int)

  /** `mean()`, `min()` and `max()` of the column. An empty column has no statistics: pandas
      reports NaN for all three. */
  function Summarize(values: seq<int>): (r: Option<Stats>)
    ensures r.None? <==> |values| == 0
    ensures r.Some? ==> r.value.min in values && r.value.max in values
    ensures r.Some? ==> forall i :: 0 <= i < |values| ==> r.value.min <= values[i] <= r.value.max
    ensures r.Some? ==> r.value.mean == Mean(values)
    ensures r.Some? ==> r.value.min as real <= r.value.mean <= r.value.max as real
  {
    if |values| == 0 then None
    else
      MeanBetweenMinAndMax(values);
      Some(Stats(Mean(values), Min(values), Max(values)))
  }

  /** The mean of a non-empty column lies between its minimum and its maximum. */
  lemma MeanBetweenMinAndMax(values: seq<int>)
    requires |values| > 0
    ensures Min(values) as real <= Mean(values) <= Max(values) as real
  {
    SumBetweenMinAndMax(values);
    MeanBetween(Min(values), Max(values), Sum(values), |values|);
  }

  /** Dividing `low * n <= sum <= high * n` by the positive count n. */
  lemma MeanBetween(low: int, high: int, sum: int, n: int)
    requires n > 0
    requires low * n <= sum <= high * n
    ensures low as real <= sum as real / n as real <= high as real
  {
  }

  /** The worked example: 10, 20 and 30 percent give mean 20, min 10 and max 30. */
  lemma SummarizeExample()
    ensures Summarize([1000, 2000, 3000]) == Some(Stats(2000.0, 1000, 3000))
  {
  }

}
