// Network coherence of a template (`coherance` in core/bright_lights.py)
// and the acceptance test `brightness` applies to it: the mean, over every
// unordered pair of channels, of the absolute zero-lag normalised
// cross-correlation of the two channels.

module Coherence {
  import opened Seqs
  import opened Results

  /**
   * The score of channels `i` and `j`: the absolute value of `xcorr`, which
   * stands for `normxcorr2(a, b)[0][0]`.
   */
  function Score(channels: seq<seq<real>>, xcorr: (seq<real>, seq<real>) -> real, i: nat, j: nat): real
    requires i < |channels| && j < |channels|
  {
    Abs(xcorr(channels[i], channels[j]))
  }

  /** The scores of the pairs `(i, j)` with `i < j < hi`. */
  function RowSum(channels: seq<seq<real>>, xcorr: (seq<real>, seq<real>) -> real, i: nat, hi: nat): real
    requires i < |channels| && hi <= |channels|
    decreases hi
  {
    if hi <= i + 1 then 0.0 else RowSum(channels, xcorr, i, hi - 1) + Score(channels, xcorr, i, hi - 1)
  }

  /** The scores of all pairs `(i, j)` with `i < m` and `i < j`. */
  function PairSum(channels: seq<seq<real>>, xcorr: (seq<real>, seq<real>) -> real, m: nat): real
    requires m <= |channels|
  {
    if m == 0 then 0.0 else PairSum(channels, xcorr, m - 1) + RowSum(channels, xcorr, m - 1, |channels|)
  }

  /** The number of pairs `(i, j)` with `i < m` and `i < j < n`. */
  function PairCount(n: nat, m: nat): nat
    requires m <= n
  {
    if m == 0 then 0 else PairCount(n, m - 1) + (n - m)
  }

  /** All rows together hold `n (n - 1) / 2` pairs. */
  lemma {:induction false} PairCountClosed(n: nat, m: nat)
    requires m <= n
    ensures 2 * PairCount(n, m) == m * (2 * n - m - 1)
  {
    if m > 0 {
      PairCountClosed(n, m - 1);
      assert (m - 1) * (2 * n - m) + 2 * (n - m) == m * (2 * n - m - 1);
    }
  }

  /** The value `coherance` returns for two or more channels: twice the pair total over `n (n - 1)`. */
  function MeanPairScore(channels: seq<seq<real>>, xcorr: (seq<real>, seq<real>) -> real): real
    requires |channels| >= 2
  {
    2.0 * PairSum(channels, xcorr, |channels|) / ((|channels| * (|channels| - 1)) as real)
  }

  /**
   * `coherance(stream)` for channels of equal length. With no channel the
   * maximum length of an empty list fails (ValueError); with one channel
   * there is no pair and the final division fails (ZeroDivisionError).
   */
  method Coherance(channels: seq<seq<real>>, xcorr: (seq<real>, seq<real>) -> real) returns (r: Result<real>)
    requires forall k :: 0 <= k < |channels| ==> |channels[k]| == |channels[0]|
    ensures |channels| == 0 ==> r == Err(ValueError)
    ensures |channels| == 1 ==> r == Err(ZeroDivisionError)
    ensures |channels| >= 2 ==> r == Ok(MeanPairScore(channels, xcorr))
  {
    if |channels| == 0 {
      return Err(ValueError);
    }
    var coherance := 0.0;
    for i := 0 to |channels|
      invariant coherance == PairSum(channels, xcorr, i)
    {
      for j := i + 1 to |channels|
        invariant coherance == PairSum(channels, xcorr, i) + RowSum(channels, xcorr, i, j)
      {
        coherance := coherance + Abs(xcorr(channels[i], channels[j]));
      }
    }
    var n := |channels|;
    if n * (n - 1) == 0 {
      return Err(ZeroDivisionError);
    }
    r := Ok(2.0 * coherance / ((n * (n - 1)) as real));
  }

  /** Every pair of distinct channels correlates within [-1, 1], as `normxcorr2` does. */
  predicate PairScoresBounded(channels: seq<seq<real>>, xcorr: (seq<real>, seq<real>) -> real)
  {
    forall a, b :: 0 <= a < b < |channels| ==> -1.0 <= xcorr(channels[a], channels[b]) <= 1.0
  }

  /** Every pair of distinct channels correlates perfectly (score 1). */
  predicate PairScoresPerfect(channels: seq<seq<real>>, xcorr: (seq<real>, seq<real>) -> real)
  {
    forall a, b :: 0 <= a < b < |channels| ==> Abs(xcorr(channels[a], channels[b])) == 1.0
  }

  /** The scores of row `i` lie between 0 and the number of its pairs, and reach it when all are 1. */
  lemma {:induction false} RowSumBounds(channels: seq<seq<real>>, xcorr: (seq<real>, seq<real>) -> real, i: nat, hi: nat)
    requires i < |channels| && hi <= |channels|
    requires PairScoresBounded(channels, xcorr)
    ensures 0.0 <= RowSum(channels, xcorr, i, hi)
    ensures RowSum(channels, xcorr, i, hi) <= (if hi <= i + 1 then 0 else hi - i - 1) as real
    ensures PairScoresPerfect(channels, xcorr) ==>
      RowSum(channels, xcorr, i, hi) == (if hi <= i + 1 then 0 else hi - i - 1) as real
  {
    if hi > i + 1 {
      RowSumBounds(channels, xcorr, i, hi - 1);
      assert -1.0 <= xcorr(channels[i], channels[hi - 1]) <= 1.0;
    }
  }

  /** The pair total lies between 0 and the number of pairs, and reaches it when all scores are 1. */
  lemma {:induction false} PairSumBounds(channels: seq<seq<real>>, xcorr: (seq<real>, seq<real>) -> real, m: nat)
    requires m <= |channels|
    requires PairScoresBounded(channels, xcorr)
    ensures 0.0 <= PairSum(channels, xcorr, m) <= PairCount(|channels|, m) as real
    ensures PairScoresPerfect(channels, xcorr) ==>
      PairSum(channels, xcorr, m) == PairCount(|channels|, m) as real
  {
    if m > 0 {
      PairSumBounds(channels, xcorr, m - 1);
      RowSumBounds(channels, xcorr, m - 1, |channels|);
    }
  }

  /**
   * The coherence is the mean pair score: it times the number of unordered
   * pairs is the pair total.
   */
  lemma CoheranceIsPairMean(channels: seq<seq<real>>, xcorr: (seq<real>, seq<real>) -> real)
    requires |channels| >= 2
    ensures MeanPairScore(channels, xcorr) * (PairCount(|channels|, |channels|) as real)
      == PairSum(channels, xcorr, |channels|)
  {
    var n := |channels|;
    PairCountClosed(n, n);
    var d := (n * (n - 1)) as real;
    var s := PairSum(channels, xcorr, n);
    assert d == 2.0 * (PairCount(n, n) as real);
    assert d > 0.0;
    calc {
      MeanPairScore(channels, xcorr) * (PairCount(n, n) as real);
      (2.0 * s / d) * (d / 2.0);
      s;
    }
  }

  /**
   * With every pair's correlation in [-1, 1] the coherence lies in [0, 1],
   * and it is exactly 1 when every pair correlates perfectly.
   */
  lemma CoheranceBounds(channels: seq<seq<real>>, xcorr: (seq<real>, seq<real>) -> real)
    requires |channels| >= 2
    requires PairScoresBounded(channels, xcorr)
    ensures 0.0 <= MeanPairScore(channels, xcorr) <= 1.0
    ensures PairScoresPerfect(channels, xcorr) ==> MeanPairScore(channels, xcorr) == 1.0
  {
    var n := |channels|;
    PairSumBounds(channels, xcorr, n);
    PairCountClosed(n, n);
    var d := (n * (n - 1)) as real;
    var s := PairSum(channels, xcorr, n);
    assert d == 2.0 * (PairCount(n, n) as real) && d > 0.0;
    assert 0.0 <= 2.0 * s <= d;
    DivideBounds(2.0 * s, d);
  }

  lemma DivideBounds(x: real, d: real)
    requires d > 0.0 && 0.0 <= x <= d
    ensures 0.0 <= x / d <= 1.0
    ensures x == d ==> x / d == 1.0
  {
  }

  /**
   * The acceptance test of `brightness`: a template is written out only when
   * its coherence is strictly above `coheranceThresh`; a failing coherence
   * computation propagates.
   */
  method TemplateAccepted(channels: seq<seq<real>>, xcorr: (seq<real>, seq<real>) -> real,
                          coheranceThresh: real) returns (r: Result<bool>)
    requires forall k :: 0 <= k < |channels| ==> |channels[k]| == |channels[0]|
    ensures |channels| < 2 ==> r.Err?
    ensures |channels| >= 2 ==> r == Ok(MeanPairScore(channels, xcorr) > coheranceThresh)
  {
    var c := Coherance(channels, xcorr);
    if c.Err? {
      return Err(c.error);
    }
    r := Ok(c.value > coheranceThresh);
  }

  /**
   * With every pair's correlation in [-1, 1] a threshold of 1 or more
   * rejects the template, and a perfectly coherent template passes exactly
   * the thresholds below 1.
   */
  lemma AcceptanceBoundary(channels: seq<seq<real>>, xcorr: (seq<real>, seq<real>) -> real, coheranceThresh: real)
    requires |channels| >= 2
    requires PairScoresBounded(channels, xcorr)
    ensures coheranceThresh >= 1.0 ==> !(MeanPairScore(channels, xcorr) > coheranceThresh)
    ensures PairScoresPerfect(channels, xcorr) ==>
      (MeanPairScore(channels, xcorr) > coheranceThresh <==> coheranceThresh < 1.0)
  {
    CoheranceBounds(channels, xcorr);
  }

  /**
   * A template whose channels are all the same trace has coherence 1, given
   * only that a trace correlates perfectly with itself.
   */
  lemma IdenticalChannelsCoherent(channels: seq<seq<real>>, xcorr: (seq<real>, seq<real>) -> real)
    requires |channels| >= 2
    requires forall k :: 0 <= k < |channels| ==> channels[k] == channels[0]
    requires xcorr(channels[0], channels[0]) == 1.0
    ensures MeanPairScore(channels, xcorr) == 1.0
  {
    assert PairScoresBounded(channels, xcorr) by {
      forall a, b | 0 <= a < b < |channels|
        ensures -1.0 <= xcorr(channels[a], channels[b]) <= 1.0
      {
        assert channels[a] == channels[0] && channels[b] == channels[0];
      }
    }
    assert PairScoresPerfect(channels, xcorr) by {
      forall a, b | 0 <= a < b < |channels|
        ensures Abs(xcorr(channels[a], channels[b])) == 1.0
      {
        assert channels[a] == channels[0] && channels[b] == channels[0];
      }
    }
    CoheranceBounds(channels, xcorr);
  }
}
