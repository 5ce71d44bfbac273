// Per-node energy stacking: `_node_loop` of core/bright_lights.py.
//
// For one node, every trace whose station is known is shifted by that
// station's lag (in whole samples), squared, clipped to a multiple of its
// mean and normalised; the normalised envelopes are summed elementwise.

module Energy {
  import opened Seqs
  import opened Results

  /** One channel of the waveform stream: its station name and its samples. */
  datatype Trace = Trace(station: string, data: seq<real>)

  function Squares(xs: seq<real>): (r: seq<real>)
    ensures |r| == |xs|
  {
    seq(|xs|, t requires 0 <= t < |xs| => xs[t] * xs[t])
  }

  function Zeros(n: nat): (r: seq<real>)
    ensures |r| == n
  {
    seq(n, _ => 0.0)
  }

  /**
   * `np.square(np.concatenate((data, zeros(pad))))[pad:]`: the energy that
   * arrives `pad` samples later, moved to the front; the tail is zero-filled.
   */
  function LaggedEnergy(data: seq<real>, pad: nat): (r: seq<real>)
    ensures |r| == |data|
  {
    Squares(data + Zeros(pad))[pad..]
  }

  /** Sample `t` of the lagged energy is the square of sample `t + pad`, or zero past the end. */
  lemma LaggedEnergyAt(data: seq<real>, pad: nat)
    ensures forall t :: 0 <= t < |data| ==>
      LaggedEnergy(data, pad)[t] == if t + pad < |data| then data[t + pad] * data[t + pad] else 0.0
  {
    var padded := data + Zeros(pad);
    forall t | 0 <= t < |data|
      ensures LaggedEnergy(data, pad)[t] == if t + pad < |data| then data[t + pad] * data[t + pad] else 0.0
    {
      assert LaggedEnergy(data, pad)[t] == padded[t + pad] * padded[t + pad];
    }
  }

  function Mean(xs: seq<real>): real
    requires |xs| > 0
  {
    Sum(xs) / (|xs| as real)
  }

  /** `np.clip(xs, lo, hi)`, that is `minimum(maximum(xs, lo), hi)`. */
  function Clip(xs: seq<real>, lo: real, hi: real): (r: seq<real>)
    ensures |r| == |xs|
  {
    seq(|xs|, t requires 0 <= t < |xs| => Min(Max(xs[t], lo), hi))
  }

  /** Clipping lands every sample in `[lo, hi]` and leaves the samples already there alone. */
  lemma ClipBounds(xs: seq<real>, lo: real, hi: real)
    ensures lo <= hi ==> forall t :: 0 <= t < |xs| ==> lo <= Clip(xs, lo, hi)[t] <= hi
    ensures forall t :: 0 <= t < |xs| && lo <= xs[t] <= hi ==> Clip(xs, lo, hi)[t] == xs[t]
  {
  }

  /** Python 2 `round`: to the nearest integer, halves away from zero. */
  function RoundHalfAway(x: real): (r: int)
    ensures (r as real) - 0.5 <= x <= (r as real) + 0.5
    ensures x >= 0.0 ==> r >= 0 && x < (r as real) + 0.5
    ensures x < 0.0 ==> (r as real) - 0.5 < x
  {
    if x >= 0.0 then (x + 0.5).Floor else -((-x + 0.5).Floor)
  }

  /** `int(round(lag * sampling_rate))`, the shift in samples. */
  function Pad(lag: real, samplingRate: real): nat
    requires lag >= 0.0 && samplingRate >= 0.0
  {
    assert lag * samplingRate >= 0.0;
    RoundHalfAway(lag * samplingRate)
  }

  /** The lagged energy of one trace, clipped to `clipLevel` times its mean. */
  function Envelope(data: seq<real>, pad: nat, clipLevel: real): (r: seq<real>)
    requires |data| > 0
    ensures |r| == |data|
  {
    var e := LaggedEnergy(data, pad);
    Clip(e, 0.0, clipLevel * Mean(e))
  }

  /** With a non-negative clip level the envelope lies between zero and the clip ceiling. */
  lemma EnvelopeBounds(data: seq<real>, pad: nat, clipLevel: real)
    requires |data| > 0 && clipLevel >= 0.0
    ensures forall t :: 0 <= t < |data| ==>
      0.0 <= Envelope(data, pad, clipLevel)[t] <= clipLevel * Mean(LaggedEnergy(data, pad))
  {
    var e := LaggedEnergy(data, pad);
    SquaresNonNegative(e, data, pad);
    ClipCeilingNonNegative(e, clipLevel);
    ClipBounds(e, 0.0, clipLevel * Mean(e));
  }

  lemma ClipCeilingNonNegative(e: seq<real>, clipLevel: real)
    requires |e| > 0 && forall t :: 0 <= t < |e| ==> e[t] >= 0.0
    ensures clipLevel >= 0.0 ==> clipLevel * Mean(e) >= 0.0
  {
    SumNonNegative(e);
    var m := Mean(e);
    assert m >= 0.0;
  }

  lemma SquaresNonNegative(e: seq<real>, data: seq<real>, pad: nat)
    requires e == LaggedEnergy(data, pad)
    ensures forall t :: 0 <= t < |e| ==> e[t] >= 0.0
  {
    LaggedEnergyAt(data, pad);
    forall t | 0 <= t < |e| ensures e[t] >= 0.0 {
      if t + pad < |data| {
        var x := data[t + pad];
        assert e[t] == x * x;
        if x < 0.0 { assert (-x) * (-x) == x * x; }
      }
    }
  }

  /** Division by the (positive) RMS scale of the envelope. */
  function Normalise(xs: seq<real>, scale: real): (r: seq<real>)
    requires scale > 0.0
    ensures |r| == |xs|
  {
    seq(|xs|, t requires 0 <= t < |xs| => xs[t] / scale)
  }

  /** `[k for k in xrange(len(stations)) if stations[k] == name]`. */
  function StationMatches(stations: seq<string>, name: string): seq<nat>
  {
    IndicesWhere(stations, s => s == name)
  }

  /**
   * The matched station list is empty exactly when the name is not a
   * station, and otherwise starts with the LOWEST matching index, so that
   * the lag of the first match is the one used.
   */
  lemma FirstMatchIsLeast(stations: seq<string>, name: string)
    ensures |StationMatches(stations, name)| == 0 <==> name !in stations
    ensures var j := StationMatches(stations, name);
      |j| > 0 ==> j[0] < |stations| && stations[j[0]] == name
                  && forall k :: 0 <= k < j[0] ==> stations[k] != name
  {
    var p := (s: string) => s == name;
    IndicesWhereSpec(stations, p);
    IndicesWhereFirst(stations, p);
    if name in stations {
      var i :| 0 <= i < |stations| && stations[i] == name;
      assert p(stations[i]);
    }
  }

  /** What the lag table and the stream must satisfy for the stacking to be defined. */
  predicate StackInputs(stations: seq<string>, lagCol: seq<real>, stream: seq<Trace>,
                        samplingRate: real, len: nat)
  {
    && |lagCol| == |stations|
    && (forall s :: 0 <= s < |lagCol| ==> lagCol[s] >= 0.0)
    && samplingRate >= 0.0
    && len > 0
    && (forall i :: 0 <= i < |stream| ==> |stream[i].data| == len)
  }

  /**
   * The normalised envelope one trace contributes, or None when its station
   * is not in the station list (the trace is skipped).
   */
  function Contribution(stations: seq<string>, lagCol: seq<real>, tr: Trace,
                        samplingRate: real, clipLevel: real, rms: seq<real> -> real): (c: Option<seq<real>>)
    requires |lagCol| == |stations| && (forall s :: 0 <= s < |lagCol| ==> lagCol[s] >= 0.0)
    requires samplingRate >= 0.0 && |tr.data| > 0
    requires forall e :: rms(e) > 0.0
    ensures c.Some? ==> |c.value| == |tr.data|
  {
    var j := StationMatches(stations, tr.station);
    if |j| == 0 then None
    else
      var env := Envelope(tr.data, Pad(lagCol[j[0]], samplingRate), clipLevel);
      Some(Normalise(env, rms(env)))
  }

  /** The rows of the 2-D `energy` array: one per matched trace, in stream order. */
  function Rows(stations: seq<string>, lagCol: seq<real>, stream: seq<Trace>,
                samplingRate: real, clipLevel: real, rms: seq<real> -> real, len: nat): (rows: seq<seq<real>>)
    requires StackInputs(stations, lagCol, stream, samplingRate, len)
    requires forall e :: rms(e) > 0.0
    ensures |rows| <= |stream|
    ensures forall k :: 0 <= k < |rows| ==> |rows[k]| == len
  {
    if |stream| == 0 then []
    else
      var before := Rows(stations, lagCol, stream[..|stream| - 1], samplingRate, clipLevel, rms, len);
      match Contribution(stations, lagCol, stream[|stream| - 1], samplingRate, clipLevel, rms)
      case None => before
      case Some(c) => before + [c]
  }

  /** `np.sum(rows, axis=0)`. */
  function SumRows(rows: seq<seq<real>>, len: nat): (r: seq<real>)
    requires forall k :: 0 <= k < |rows| ==> |rows[k]| == len
    ensures |r| == len
  {
    seq(len, t requires 0 <= t < len => Sum(Column(rows, t)))
  }

  /**
   * `_node_loop` for node column `lagCol` (the lags of every station to this
   * node). With no trace matching any station the accumulator `energy` is
   * never bound and the final sum raises NameError.
   */
  method NodeLoop(stations: seq<string>, lagCol: seq<real>, stream: seq<Trace>,
                  samplingRate: real, clipLevel: real, rms: seq<real> -> real, len: nat)
    returns (r: Result<seq<real>>)
    requires StackInputs(stations, lagCol, stream, samplingRate, len)
    requires forall e :: rms(e) > 0.0
    ensures var rows := Rows(stations, lagCol, stream, samplingRate, clipLevel, rms, len);
      && (|rows| == 0 ==> r == Err(NameError))
      && (|rows| > 0 ==> r == Ok(SumRows(rows, len)))
  {
    var energy: seq<seq<real>> := [];
    for k := 0 to |stream|
      invariant energy == Rows(stations, lagCol, stream[..k], samplingRate, clipLevel, rms, len)
    {
      RowsStep(stations, lagCol, stream, samplingRate, clipLevel, rms, len, k);
      var tr := stream[k];
      var j := StationMatches(stations, tr.station);
      if |j| > 1 {
        j := [j[0]];  // more than one match: warn and keep the first
      }
      if |j| == 0 {
        assert Contribution(stations, lagCol, tr, samplingRate, clipLevel, rms) == None;
        continue;     // no match: warn and skip this trace
      }
      var lag := lagCol[j[0]];
      var pad := Pad(lag, samplingRate);
      // shift by the lag, square, and clip to clipLevel times the mean
      var laggedEnergy := Envelope(tr.data, pad, clipLevel);
      var normEnergy := Normalise(laggedEnergy, rms(laggedEnergy));
      assert Contribution(stations, lagCol, tr, samplingRate, clipLevel, rms) == Some(normEnergy);
      energy := energy + [normEnergy];
    }
    assert stream[..|stream|] == stream;
    if |energy| == 0 {
      return Err(NameError);
    }
    r := Ok(SumRows(energy, |energy[|energy| - 1]|));
  }

  lemma RowsStep(stations: seq<string>, lagCol: seq<real>, stream: seq<Trace>,
                 samplingRate: real, clipLevel: real, rms: seq<real> -> real, len: nat, k: nat)
    requires StackInputs(stations, lagCol, stream, samplingRate, len)
    requires forall e :: rms(e) > 0.0
    requires k < |stream|
    ensures Rows(stations, lagCol, stream[..k + 1], samplingRate, clipLevel, rms, len)
      == Rows(stations, lagCol, stream[..k], samplingRate, clipLevel, rms, len)
         + match Contribution(stations, lagCol, stream[k], samplingRate, clipLevel, rms)
           case None => []
           case Some(c) => [c]
  {
    assert stream[..k + 1][..k] == stream[..k];
  }

  // ---------------------------------------------------------------------
  // Properties of the stack

  /**
   * A trace of a listed station contributes the normalised envelope shifted
   * by the lag of the FIRST station entry with its name, whatever later
   * duplicates say.
   */
  lemma ContributionUsesFirstLag(stations: seq<string>, lagCol: seq<real>, tr: Trace,
                                 samplingRate: real, clipLevel: real, rms: seq<real> -> real, j: nat)
    requires |lagCol| == |stations| && (forall s :: 0 <= s < |lagCol| ==> lagCol[s] >= 0.0)
    requires samplingRate >= 0.0 && |tr.data| > 0
    requires forall e :: rms(e) > 0.0
    requires j < |stations| && stations[j] == tr.station
    requires forall k :: 0 <= k < j ==> stations[k] != tr.station
    ensures var env := Envelope(tr.data, Pad(lagCol[j], samplingRate), clipLevel);
      Contribution(stations, lagCol, tr, samplingRate, clipLevel, rms) == Some(Normalise(env, rms(env)))
  {
    FirstMatchIsLeast(stations, tr.station);
    assert StationMatches(stations, tr.station)[0] == j;
  }

  /** The stack fails exactly when no trace in the stream belongs to a known station. */
  lemma {:induction false} StackFailsIffNoMatch(stations: seq<string>, lagCol: seq<real>, stream: seq<Trace>,
                                                samplingRate: real, clipLevel: real, rms: seq<real> -> real, len: nat)
    requires StackInputs(stations, lagCol, stream, samplingRate, len)
    requires forall e :: rms(e) > 0.0
    ensures |Rows(stations, lagCol, stream, samplingRate, clipLevel, rms, len)| == 0
      <==> forall i :: 0 <= i < |stream| ==> stream[i].station !in stations
  {
    if |stream| > 0 {
      var init := stream[..|stream| - 1];
      StackFailsIffNoMatch(stations, lagCol, init, samplingRate, clipLevel, rms, len);
      FirstMatchIsLeast(stations, stream[|stream| - 1].station);
      assert forall i :: 0 <= i < |init| ==> init[i] == stream[i];
    }
  }

  /** Every stacked sample is non-negative when the clip level is. */
  lemma StackNonNegative(stations: seq<string>, lagCol: seq<real>, stream: seq<Trace>,
                         samplingRate: real, clipLevel: real, rms: seq<real> -> real, len: nat)
    requires StackInputs(stations, lagCol, stream, samplingRate, len)
    requires forall e :: rms(e) > 0.0
    requires clipLevel >= 0.0
    ensures forall t :: 0 <= t < len ==>
      SumRows(Rows(stations, lagCol, stream, samplingRate, clipLevel, rms, len), len)[t] >= 0.0
  {
    var rows := Rows(stations, lagCol, stream, samplingRate, clipLevel, rms, len);
    RowsNonNegative(stations, lagCol, stream, samplingRate, clipLevel, rms, len);
    forall t | 0 <= t < len ensures SumRows(rows, len)[t] >= 0.0 {
      SumNonNegative(Column(rows, t));
    }
  }

  lemma {:induction false} RowsNonNegative(stations: seq<string>, lagCol: seq<real>, stream: seq<Trace>,
                                           samplingRate: real, clipLevel: real, rms: seq<real> -> real, len: nat)
    requires StackInputs(stations, lagCol, stream, samplingRate, len)
    requires forall e :: rms(e) > 0.0
    requires clipLevel >= 0.0
    ensures forall k, t :: 0 <= k < |Rows(stations, lagCol, stream, samplingRate, clipLevel, rms, len)| && 0 <= t < len ==>
      Rows(stations, lagCol, stream, samplingRate, clipLevel, rms, len)[k][t] >= 0.0
  {
    if |stream| > 0 {
      RowsNonNegative(stations, lagCol, stream[..|stream| - 1], samplingRate, clipLevel, rms, len);
      var tr := stream[|stream| - 1];
      var j := StationMatches(stations, tr.station);
      if |j| > 0 {
        var env := Envelope(tr.data, Pad(lagCol[j[0]], samplingRate), clipLevel);
        EnvelopeBounds(tr.data, Pad(lagCol[j[0]], samplingRate), clipLevel);
        var scale := rms(env);
        var row := Normalise(env, scale);
        forall t | 0 <= t < len ensures row[t] >= 0.0 {
          assert env[t] >= 0.0 && scale > 0.0;
          assert row[t] == env[t] / scale;
        }
      }
    }
  }
}
