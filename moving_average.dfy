/** `findMovAvgScore`: a trailing simple moving average over the word
    scores, with exact rational arithmetic in place of `np.mean`. */
module MovingAverage {

  function Sum(s: seq<int>): int {
    if s == [] then 0 else s[0] + Sum(s[1..])
  }

  /** The arithmetic mean of a non-empty window. */
  function Mean(window: seq<int>): real
    requires |window| > 0
  {
    Sum(window) as real / |window| as real
  }

  function Max(a: int, b: int): int {
    if a >= b then a else b
  }

  /** `findMovAvgScore`: `period` zeros first, then for every later index i
      the mean of the `period` scores just before i (i itself excluded).
      The list has max(period, N) entries: when the period is at least the
      number of scores it is all zeros, and longer than the scores when the
      period exceeds their number. */
  method FindMovAvgScore(wordSentimentScores: seq<int>, movingAveragePeriod: int) returns (movAvgScore: seq<real>)
    requires movingAveragePeriod >= 1
    ensures |movAvgScore| == Max(movingAveragePeriod, |wordSentimentScores|)
    ensures forall i :: 0 <= i < movingAveragePeriod ==> movAvgScore[i] == 0.0
    ensures forall i :: movingAveragePeriod <= i < |wordSentimentScores| ==>
      movAvgScore[i] == Mean(wordSentimentScores[i - movingAveragePeriod..i])
    ensures movingAveragePeriod >= |wordSentimentScores| ==>
      forall i :: 0 <= i < |movAvgScore| ==> movAvgScore[i] == 0.0
  {
    var period := movingAveragePeriod;
    movAvgScore := [];
    for i := 0 to period
      invariant |movAvgScore| == i
      invariant forall k :: 0 <= k < i ==> movAvgScore[k] == 0.0
    {
      movAvgScore := movAvgScore + [0.0];
    }
    var i := period;
    while i < |wordSentimentScores|
      invariant period <= i
      invariant i == period || i <= |wordSentimentScores|
      invariant |movAvgScore| == Max(period, i)
      invariant forall k :: 0 <= k < period ==> movAvgScore[k] == 0.0
      invariant forall k :: period <= k < i ==> movAvgScore[k] == Mean(wordSentimentScores[k - period..k])
    {
      var rollScore := wordSentimentScores[i - period..i];
      var movAvg := Mean(rollScore);
      movAvgScore := movAvgScore + [movAvg];
      i := i + 1;
    }
  }

  lemma {:induction false} SumAppend(a: seq<int>, b: seq<int>)
    ensures Sum(a + b) == Sum(a) + Sum(b)
    decreases |a|
  {
    if a == [] {
      assert a + b == b;
    } else {
      assert (a + b)[1..] == a[1..] + b;
      SumAppend(a[1..], b);
    }
  }

  /** Moving the window one step drops its oldest score and takes in the
      next: each average is the previous one plus the difference of those
      two scores over the period, which is what a running-sum
      implementation computes. */
  lemma SlidingMean(scores: seq<int>, period: nat, i: nat)
    requires 1 <= period <= i < |scores|
    ensures Mean(scores[i + 1 - period..i + 1])
         == Mean(scores[i - period..i]) + (scores[i] - scores[i - period]) as real / period as real
  {
    var before := scores[i - period..i];
    var after := scores[i + 1 - period..i + 1];
    var shared := scores[i + 1 - period..i];
    assert before == [scores[i - period]] + shared;
    assert after == shared + [scores[i]];
    SumAppend([scores[i - period]], shared);
    SumAppend(shared, [scores[i]]);
    var d := scores[i] - scores[i - period];
    assert Sum(after) == Sum(before) + d;
    DivideSum(Sum(before) as real, d as real, period as real);
  }

  lemma DivideSum(a: real, b: real, p: real)
    requires p > 0.0
    ensures (a + b) / p == a / p + b / p
  {
  }

  lemma {:induction false} SumWithin(s: seq<int>, lo: int, hi: int)
    requires forall k :: 0 <= k < |s| ==> lo <= s[k] <= hi
    ensures lo * |s| <= Sum(s) <= hi * |s|
    decreases |s|
  {
    if s != [] {
      SumWithin(s[1..], lo, hi);
    }
  }

  /** An average never leaves the range of the scores it averages. */
  lemma MeanWithin(window: seq<int>, lo: int, hi: int)
    requires |window| > 0
    requires forall k :: 0 <= k < |window| ==> lo <= window[k] <= hi
    ensures lo as real <= Mean(window) <= hi as real
  {
    SumWithin(window, lo, hi);
    var n := |window| as real;
    assert lo as real * n <= Sum(window) as real <= hi as real * n;
  }
}
