// Sequence and arithmetic helpers shared by the model: numpy-style
// elementwise operations stated over exact reals.

module Seqs {

  function Abs(x: real): real { if x < 0.0 then -x else x }

  function Max(a: real, b: real): real { if a < b then b else a }

  function Min(a: real, b: real): real { if a < b then a else b }

  /** Sum of a sequence, accumulated left to right. */
  function Sum(xs: seq<real>): real
  {
    if |xs| == 0 then 0.0 else Sum(xs[..|xs| - 1]) + xs[|xs| - 1]
  }

  lemma {:induction false} SumNonNegative(xs: seq<real>)
    requires forall t :: 0 <= t < |xs| ==> xs[t] >= 0.0
    ensures Sum(xs) >= 0.0
  {
    if |xs| > 0 {
      SumNonNegative(xs[..|xs| - 1]);
    }
  }

  /** Python's `range(lo, hi)`: empty when `lo >= hi`. */
  function Range(lo: nat, hi: nat): (r: seq<nat>)
    ensures |r| == if lo < hi then hi - lo else 0
    ensures forall k :: 0 <= k < |r| ==> r[k] == lo + k
  {
    if lo < hi then seq(hi - lo, k => lo + k) else []
  }

  /** Column `t` of a row-major matrix. */
  function Column<T>(m: seq<seq<T>>, t: nat): (c: seq<T>)
    requires forall k :: 0 <= k < |m| ==> t < |m[k]|
    ensures |c| == |m|
    ensures forall k :: 0 <= k < |m| ==> c[k] == m[k][t]
  {
    seq(|m|, k requires 0 <= k < |m| => m[k][t])
  }

  /** Fancy indexing `s[idx]`: the elements of `s` at the positions `idx`, in that order. */
  function Pick<T>(s: seq<T>, idx: seq<nat>): (r: seq<T>)
    requires forall k :: 0 <= k < |idx| ==> idx[k] < |s|
    ensures |r| == |idx|
    ensures forall k :: 0 <= k < |idx| ==> r[k] == s[idx[k]]
  {
    seq(|idx|, k requires 0 <= k < |idx| => s[idx[k]])
  }

  lemma PickAppend<T>(s: seq<T>, idx: seq<nat>, i: nat)
    requires forall k :: 0 <= k < |idx| ==> idx[k] < |s|
    requires i < |s|
    ensures Pick(s, idx + [i]) == Pick(s, idx) + [s[i]]
  {
    assert forall k :: 0 <= k < |idx| ==> (idx + [i])[k] == idx[k];
  }

  /**
   * The positions of `s` whose element satisfies `p`, in ascending order:
   * what a Python loop `for i in xrange(len(s)): if p(s[i]): keep i` visits.
   */
  function IndicesWhere<T>(s: seq<T>, p: T -> bool): (r: seq<nat>)
    ensures |r| <= |s|
    ensures forall k :: 0 <= k < |r| ==> r[k] < |s|
  {
    if |s| == 0 then []
    else IndicesWhere(s[..|s| - 1], p) + (if p(s[|s| - 1]) then [|s| - 1] else [])
  }

  /**
   * `IndicesWhere` lists exactly the positions whose element satisfies `p`,
   * each once, in strictly ascending order.
   */
  lemma {:induction false} IndicesWhereSpec<T>(s: seq<T>, p: T -> bool)
    ensures forall k :: 0 <= k < |IndicesWhere(s, p)| ==>
      IndicesWhere(s, p)[k] < |s| && p(s[IndicesWhere(s, p)[k]])
    ensures forall k, m :: 0 <= k < m < |IndicesWhere(s, p)| ==>
      IndicesWhere(s, p)[k] < IndicesWhere(s, p)[m]
    ensures forall i :: 0 <= i < |s| && p(s[i]) ==> i in IndicesWhere(s, p)
  {
    if |s| > 0 {
      var init := s[..|s| - 1];
      IndicesWhereSpec(init, p);
      var prefix := IndicesWhere(init, p);
      assert forall k :: 0 <= k < |prefix| ==> init[prefix[k]] == s[prefix[k]];
    }
  }

  /** No position before the first listed one satisfies `p`. */
  lemma {:induction false} IndicesWhereFirst<T>(s: seq<T>, p: T -> bool)
    ensures |IndicesWhere(s, p)| > 0 ==> forall i :: 0 <= i < IndicesWhere(s, p)[0] ==> !p(s[i])
  {
    if |s| > 0 {
      var init := s[..|s| - 1];
      IndicesWhereFirst(init, p);
      IndicesWhereSpec(init, p);
      assert forall i :: 0 <= i < |init| ==> init[i] == s[i];
    }
  }

  lemma IndicesWhereStep<T>(s: seq<T>, p: T -> bool, i: nat)
    requires i < |s|
    ensures IndicesWhere(s[..i + 1], p) == IndicesWhere(s[..i], p) + (if p(s[i]) then [i] else [])
  {
    assert s[..i + 1][..i] == s[..i];
  }
}

module Results {

  /** The Python exceptions the modelled code can raise. */
  datatype Error =
    | IndexError         // indexing an empty list or array
    | NameError          // reading a local variable that was never bound
    | ValueError         // numpy/builtin argument errors (empty max, zero-size pool)
    | ZeroDivisionError

  datatype Result<T> = Ok(value: T) | Err(error: Error)

  datatype Option<T> = None | Some(value: T)
}
