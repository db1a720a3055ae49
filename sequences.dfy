/** Facts about sequences shared by several parts of the script. */
module Sequences {

  /** The indices at which x occurs in s, in increasing order: what
      `[m.start() for m in re.finditer(...)]` yields for a one-character
      pattern, and what `locateWord` collects with `enumerate`. Every index
      it lists holds x; the lemmas below show that it lists each such index
      once, in increasing order. */
  function Positions<T(==)>(s: seq<T>, x: T): (r: seq<nat>)
    ensures forall k :: 0 <= k < |r| ==> r[k] < |s| && s[r[k]] == x
    decreases |s|
  {
    if s == [] then []
    else
      var n := |s| - 1;
      var init := Positions(s[..n], x);
      if s[n] == x then init + [n] else init
  }

  /** The positions are listed in strictly increasing order. */
  lemma {:induction false} PositionsIncreasing<T>(s: seq<T>, x: T)
    ensures forall j, k :: 0 <= j < k < |Positions(s, x)| ==> Positions(s, x)[j] < Positions(s, x)[k]
    decreases |s|
  {
    if s != [] {
      var n := |s| - 1;
      PositionsIncreasing(s[..n], x);
      var init := Positions(s[..n], x);
      if s[n] == x {
        var r := init + [n];
        forall j, k | 0 <= j < k < |r|
          ensures r[j] < r[k]
        {
          assert r[j] == init[j] && init[j] < |s[..n]| == n;
          if k < |init| {
            assert r[k] == init[k] && init[j] < init[k];
          } else {
            assert r[k] == n;
          }
        }
      }
    }
  }

  /** Every index that holds x is listed. */
  lemma {:induction false} PositionsComplete<T>(s: seq<T>, x: T)
    ensures forall i :: 0 <= i < |s| && s[i] == x ==> i in Positions(s, x)
    decreases |s|
  {
    if s != [] {
      var n := |s| - 1;
      PositionsComplete(s[..n], x);
      assert forall i :: 0 <= i < n ==> s[..n][i] == s[i];
    }
  }

  /** There is one position per occurrence of x. */
  lemma {:induction false} PositionsCount<T>(s: seq<T>, x: T)
    ensures |Positions(s, x)| == multiset(s)[x]
    decreases |s|
  {
    if s != [] {
      var n := |s| - 1;
      PositionsCount(s[..n], x);
      assert s == s[..n] + [s[n]];
    }
  }

  /** The last position is the largest one: nothing equal to x lies after it. */
  lemma {:induction false} NothingAfterLastPosition<T>(s: seq<T>, x: T)
    requires |Positions(s, x)| > 0
    ensures var r := Positions(s, x);
      forall i :: r[|r| - 1] < i < |s| ==> s[i] != x
    decreases |s|
  {
    var n := |s| - 1;
    if s[n] != x {
      NothingAfterLastPosition(s[..n], x);
      assert forall i :: 0 <= i < n ==> s[..n][i] == s[i];
    }
  }

  /** No occurrence of x lies strictly between its last two positions. */
  lemma {:induction false} NothingBetweenLastTwoPositions<T>(s: seq<T>, x: T)
    requires |Positions(s, x)| >= 2
    ensures var r := Positions(s, x);
      forall i :: r[|r| - 2] < i < r[|r| - 1] ==> s[i] != x
    decreases |s|
  {
    var n := |s| - 1;
    assert forall i :: 0 <= i < n ==> s[..n][i] == s[i];
    if s[n] == x {
      NothingAfterLastPosition(s[..n], x);
    } else {
      NothingBetweenLastTwoPositions(s[..n], x);
    }
  }
}
