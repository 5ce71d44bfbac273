// Travel-time grid preparation: `_resample_grid` and `_rm_similarlags`
// of core/bright_lights.py.
//
// A lag grid is held station-major, as the numpy array of the source:
// `lags[s][i]` is the delay in seconds from node `i` to station `s`.

module Grid {
  import opened Seqs
  import opened Results

  /** A grid point. The components are the strings read from the travel-time files. */
  datatype Node = Node(lat: string, lon: string, depth: string)

  /** Every station has one lag per node. */
  predicate Shaped(lags: seq<seq<real>>, stations: nat, nodes: nat)
  {
    |lags| == stations && forall s :: 0 <= s < |lags| ==> |lags[s]| == nodes
  }

  /** Every station has a lag for each of the nodes `0 .. n-1`. */
  predicate Wide(lags: seq<seq<real>>, n: nat)
  {
    forall s :: 0 <= s < |lags| ==> n <= |lags[s]|
  }

  /** `lags.T[idx].T`: the columns of the nodes at `idx`, keeping the station-major layout. */
  function PickColumns(lags: seq<seq<real>>, idx: seq<nat>): (r: seq<seq<real>>)
    requires forall s, k :: 0 <= s < |lags| && 0 <= k < |idx| ==> idx[k] < |lags[s]|
    ensures Shaped(r, |lags|, |idx|)
    ensures forall s, k :: 0 <= s < |lags| && 0 <= k < |idx| ==> r[s][k] == lags[s][idx[k]]
  {
    seq(|lags|, s requires 0 <= s < |lags| => Pick(lags[s], idx))
  }

  /** `np.reshape(rows, (len(rows), stations)).T` for a node-major list of columns. */
  function Transpose(rows: seq<seq<real>>, stations: nat): (r: seq<seq<real>>)
    requires forall k :: 0 <= k < |rows| ==> |rows[k]| == stations
    ensures Shaped(r, stations, |rows|)
    ensures forall s, k :: 0 <= s < stations && 0 <= k < |rows| ==> r[s][k] == rows[k][s]
  {
    seq(stations, s requires 0 <= s < stations =>
      seq(|rows|, k requires 0 <= k < |rows| => rows[k][s]))
  }

  // ---------------------------------------------------------------------
  // _resample_grid

  /**
   * The cut of `_resample_grid`: depth strictly inside the window and the
   * (lat, lon) pair inside the polygon. Converting the depth string to a
   * number and the polygon test are outside this model, so they are passed in.
   */
  predicate InVolume(n: Node, minDepth: real, maxDepth: real,
                     depthOf: string -> real, inside: (string, string) -> bool)
  {
    minDepth < depthOf(n.depth) < maxDepth && inside(n.lat, n.lon)
  }

  function VolumeFilter(minDepth: real, maxDepth: real,
                        depthOf: string -> real, inside: (string, string) -> bool): Node -> bool
  {
    n => InVolume(n, minDepth, maxDepth, depthOf, inside)
  }

  /**
   * Keeps exactly the nodes inside the volume, in their original order, and
   * re-slices the lag table so that output column k is the input column of
   * the k-th kept node.
   */
  method ResampleGrid(stations: seq<string>, nodes: seq<Node>, lags: seq<seq<real>>,
                      minDepth: real, maxDepth: real,
                      depthOf: string -> real, inside: (string, string) -> bool)
    returns (stationsOut: seq<string>, resampNodes: seq<Node>, resampLags: seq<seq<real>>)
    requires Shaped(lags, |stations|, |nodes|)
    ensures stationsOut == stations
    ensures var kept := IndicesWhere(nodes, VolumeFilter(minDepth, maxDepth, depthOf, inside));
      && resampNodes == Pick(nodes, kept)
      && resampLags == PickColumns(lags, kept)
    ensures Shaped(resampLags, |stations|, |resampNodes|)
    ensures forall k :: 0 <= k < |resampNodes| ==>
      InVolume(resampNodes[k], minDepth, maxDepth, depthOf, inside)
  {
    var keep := VolumeFilter(minDepth, maxDepth, depthOf, inside);
    var resampCols;
    resampNodes, resampCols := CutVolume(nodes, lags, keep);
    ghost var kept := IndicesWhere(nodes, keep);
    resampLags := Transpose(resampCols, |stations|);
    stationsOut := stations;
    IndicesWhereSpec(nodes, keep);
    TransposedColumns(lags, kept, resampCols);
    forall k | 0 <= k < |resampNodes|
      ensures InVolume(resampNodes[k], minDepth, maxDepth, depthOf, inside)
    {
      assert keep(resampNodes[k]);
    }
  }

  /** The loop of `_resample_grid`: gathers the nodes that pass `keep` and their lag columns. */
  method CutVolume(nodes: seq<Node>, lags: seq<seq<real>>, keep: Node -> bool)
    returns (resampNodes: seq<Node>, resampCols: seq<seq<real>>)
    requires Shaped(lags, |lags|, |nodes|)
    ensures resampNodes == Pick(nodes, IndicesWhere(nodes, keep))
    ensures resampCols == Columns(lags, IndicesWhere(nodes, keep))
  {
    resampNodes := [];
    resampCols := [];
    ghost var kept: seq<nat> := [];
    for i := 0 to |nodes|
      invariant kept == IndicesWhere(nodes[..i], keep)
      invariant forall k :: 0 <= k < |kept| ==> kept[k] < i
      invariant resampNodes == Pick(nodes, kept)
      invariant resampCols == Columns(lags, kept)
    {
      IndicesWhereStep(nodes, keep, i);
      if keep(nodes[i]) {
        PickAppend(nodes, kept, i);
        ColumnsAppend(lags, kept, i);
        resampNodes := resampNodes + [nodes[i]];
        resampCols := resampCols + [Column(lags, i)];
        kept := kept + [i];
      }
    }
    assert nodes[..|nodes|] == nodes;
  }

  /** The columns `lags[:, idx[k]]`, one per picked node. */
  function Columns(lags: seq<seq<real>>, idx: seq<nat>): (cols: seq<seq<real>>)
    requires forall s, k :: 0 <= s < |lags| && 0 <= k < |idx| ==> idx[k] < |lags[s]|
    ensures |cols| == |idx|
    ensures forall k :: 0 <= k < |idx| ==> |cols[k]| == |lags|
    ensures forall k, s :: 0 <= k < |idx| && 0 <= s < |lags| ==> cols[k][s] == lags[s][idx[k]]
  {
    seq(|idx|, k requires 0 <= k < |idx| => Column(lags, idx[k]))
  }

  lemma ColumnsAppend(lags: seq<seq<real>>, idx: seq<nat>, i: nat)
    requires forall s, k :: 0 <= s < |lags| && 0 <= k < |idx| ==> idx[k] < |lags[s]|
    requires forall s :: 0 <= s < |lags| ==> i < |lags[s]|
    ensures Columns(lags, idx + [i]) == Columns(lags, idx) + [Column(lags, i)]
  {
    assert forall k :: 0 <= k < |idx| ==> (idx + [i])[k] == idx[k];
  }

  /** Transposing the gathered node columns gives the re-sliced station-major table. */
  lemma TransposedColumns(lags: seq<seq<real>>, idx: seq<nat>, cols: seq<seq<real>>)
    requires forall s, k :: 0 <= s < |lags| && 0 <= k < |idx| ==> idx[k] < |lags[s]|
    requires |cols| == |idx|
    requires forall k :: 0 <= k < |idx| ==> |cols[k]| == |lags|
    requires forall k, s :: 0 <= k < |idx| && 0 <= s < |lags| ==> cols[k][s] == lags[s][idx[k]]
    ensures Transpose(cols, |lags|) == PickColumns(lags, idx)
  {
    var t := Transpose(cols, |lags|);
    forall s | 0 <= s < |lags|
      ensures t[s] == PickColumns(lags, idx)[s]
    {
      assert forall k :: 0 <= k < |idx| ==> t[s][k] == lags[s][idx[k]];
    }
  }

  // ---------------------------------------------------------------------
  // _rm_similarlags

  /**
   * Entry `[i][j]` of `(lags.T - lags.T[i]).sum(axis=1)`: the signed sum over
   * stations of `lags[s][j] - lags[s][i]`.
   */
  function MoveoutSum(lags: seq<seq<real>>, i: nat, j: nat): real
    requires forall s :: 0 <= s < |lags| ==> i < |lags[s]| && j < |lags[s]|
  {
    if |lags| == 0 then 0.0
    else MoveoutSum(lags[..|lags| - 1], i, j) + (lags[|lags| - 1][j] - lags[|lags| - 1][i])
  }

  /** The pair test of `_rm_similarlags`: node `j` is told apart from node `i`. */
  predicate Distinguishable(lags: seq<seq<real>>, i: nat, j: nat, threshold: real)
    requires forall s :: 0 <= s < |lags| ==> i < |lags[s]| && j < |lags[s]|
  {
    Abs(MoveoutSum(lags, i, j)) > threshold
  }

  /** One row of the boolean matrix `netdif`: node `i` against every node. */
  function DifRow(lags: seq<seq<real>>, i: nat, n: nat, threshold: real): (row: seq<bool>)
    requires i < n && Wide(lags, n)
    ensures |row| == n
    ensures forall j :: 0 <= j < n ==> (row[j] <==> Distinguishable(lags, i, j, threshold))
  {
    seq(n, j requires 0 <= j < n => Distinguishable(lags, i, j, threshold))
  }

  /** `np.all(row[idx])`. */
  predicate AllAt(row: seq<bool>, idx: seq<nat>)
    requires forall m :: 0 <= m < |idx| ==> idx[m] < |row|
  {
    forall m :: 0 <= m < |idx| ==> row[idx[m]]
  }

  /**
   * The greedy scan over nodes `0 .. n-1`: node 0 is kept; node `i >= 1` is
   * kept when the netdif row it reads, that of node `i - shift`, tells that
   * node apart from every node kept so far. The code as written reads
   * `netdif[i]`, which holds node `i-1`'s row (shift 1); the evidently
   * intended scan reads node `i`'s own row (shift 0).
   */
  function Greedy(lags: seq<seq<real>>, n: nat, threshold: real, shift: nat): (kept: seq<nat>)
    requires 1 <= n && shift <= 1 && Wide(lags, n)
    ensures |kept| >= 1 && kept[0] == 0
    ensures forall k :: 0 <= k < |kept| ==> kept[k] < n
    ensures forall k, m :: 0 <= k < m < |kept| ==> kept[k] < kept[m]
  {
    if n == 1 then [0]
    else
      var before := Greedy(lags, n - 1, threshold, shift);
      var i := n - 1;
      if forall m :: 0 <= m < |before| ==> Distinguishable(lags, i - shift, before[m], threshold)
      then before + [i]
      else before
  }

  /** The node indices `_rm_similarlags` keeps, as written. */
  function KeptAsWritten(lags: seq<seq<real>>, n: nat, threshold: real): seq<nat>
    requires 1 <= n && Wide(lags, n)
  {
    Greedy(lags, n, threshold, 1)
  }

  /** The node indices the evidently intended scan keeps. */
  function KeptIntended(lags: seq<seq<real>>, n: nat, threshold: real): seq<nat>
    requires 1 <= n && Wide(lags, n)
  {
    Greedy(lags, n, threshold, 0)
  }

  /** A travel-time grid: station names, nodes, and the station-major lag table. */
  datatype Table = Table(stations: seq<string>, nodes: seq<Node>, lags: seq<seq<real>>)

  /**
   * `_rm_similarlags` as written: builds `netdif` with node 0's row twice,
   * then scans the nodes greedily, reading row `netdif[i]` for node `i`.
   * With no node, `lags.T[0]` fails (IndexError).
   */
  method RemoveSimilarLags(stations: seq<string>, nodes: seq<Node>, lags: seq<seq<real>>,
                           threshold: real)
    returns (r: Result<Table>)
    requires Shaped(lags, |stations|, |nodes|)
    ensures |nodes| == 0 <==> r == Err(IndexError)
    ensures |nodes| >= 1 ==>
      && r.Ok?
      && r.value.stations == stations
      && var kept := KeptAsWritten(lags, |nodes|, threshold);
      && r.value.nodes == Pick(nodes, kept)
      && r.value.lags == PickColumns(lags, kept)
    ensures r.Ok? ==> |r.value.nodes| >= 1 && r.value.nodes[0] == nodes[0]
    ensures r.Ok? ==> Shaped(r.value.lags, |stations|, |r.value.nodes|)
  {
    var n := |nodes|;
    if n == 0 {
      return Err(IndexError);
    }
    var nodesOut, kept := ScanNodes(nodes, lags, threshold);
    r := Ok(Table(stations, nodesOut, PickColumns(lags, kept)));
  }

  /** The two loops of `_rm_similarlags`: build `netdif`, then scan the nodes. */
  method ScanNodes(nodes: seq<Node>, lags: seq<seq<real>>, threshold: real)
    returns (nodesOut: seq<Node>, nodeIndices: seq<nat>)
    requires |nodes| >= 1 && Wide(lags, |nodes|)
    ensures nodeIndices == KeptAsWritten(lags, |nodes|, threshold)
    ensures nodesOut == Pick(nodes, nodeIndices)
  {
    var n := |nodes|;
    var netdif := [DifRow(lags, 0, n, threshold)];
    for i := 0 to n
      invariant |netdif| == i + 1
      invariant netdif[0] == DifRow(lags, 0, n, threshold)
      invariant forall r :: 1 <= r <= i ==> netdif[r] == DifRow(lags, r - 1, n, threshold)
    {
      netdif := netdif + [DifRow(lags, i, n, threshold)];
    }
    nodesOut := [nodes[0]];
    nodeIndices := [0];
    for i := 1 to n
      invariant nodeIndices == KeptAsWritten(lags, i, threshold)
      invariant nodesOut == Pick(nodes, nodeIndices)
    {
      KeptAsWrittenStep(lags, n, threshold, i);
      if AllAt(netdif[i], nodeIndices) {
        nodeIndices := nodeIndices + [i];
        nodesOut := nodesOut + [nodes[i]];
      }
    }
  }

  /** One step of the scan as written: node `i` is kept when row `netdif[i]` (node `i - 1`'s) allows it. */
  lemma KeptAsWrittenStep(lags: seq<seq<real>>, n: nat, threshold: real, i: nat)
    requires 1 <= i < n && Wide(lags, n)
    ensures KeptAsWritten(lags, i + 1, threshold)
      == if AllAt(DifRow(lags, i - 1, n, threshold), KeptAsWritten(lags, i, threshold))
         then KeptAsWritten(lags, i, threshold) + [i]
         else KeptAsWritten(lags, i, threshold)
  {
  }

  // ---------------------------------------------------------------------
  // Properties of the dedup scan

  lemma {:induction false} MoveoutSumSelf(lags: seq<seq<real>>, i: nat)
    requires forall s :: 0 <= s < |lags| ==> i < |lags[s]|
    ensures MoveoutSum(lags, i, i) == 0.0
  {
    if |lags| > 0 {
      MoveoutSumSelf(lags[..|lags| - 1], i);
    }
  }

  /**
   * The signed moveout sum changes sign with the order of the pair, so the
   * pair test, `|sum(a - b)| > threshold`, is symmetric at every threshold.
   */
  lemma {:induction false} MoveoutSumAntisymmetric(lags: seq<seq<real>>, i: nat, j: nat)
    requires forall s :: 0 <= s < |lags| ==> i < |lags[s]| && j < |lags[s]|
    ensures MoveoutSum(lags, i, j) == -MoveoutSum(lags, j, i)
    ensures forall threshold :: Distinguishable(lags, i, j, threshold) == Distinguishable(lags, j, i, threshold)
  {
    if |lags| > 0 {
      MoveoutSumAntisymmetric(lags[..|lags| - 1], i, j);
    }
  }

  /**
   * As written, with a non-negative threshold, node 1 is never kept: its
   * decision reads node 0's row, and node 0 cannot be told apart from itself.
   */
  lemma {:induction false} DedupDropsNodeOne(lags: seq<seq<real>>, n: nat, threshold: real)
    requires 2 <= n && Wide(lags, n)
    requires threshold >= 0.0
    ensures 1 !in KeptAsWritten(lags, n, threshold)
  {
    if n == 2 {
      MoveoutSumSelf(lags, 0);
      assert !Distinguishable(lags, 0, 0, threshold);
    } else {
      DedupDropsNodeOne(lags, n - 1, threshold);
    }
  }

  /**
   * The evidently intended scan keeps only nodes that are pairwise
   * distinguishable: for kept `a < b`, `|sum_s(lags[s][a] - lags[s][b])| > threshold`.
   */
  lemma {:induction false} IntendedKeptPairwiseDistinct(lags: seq<seq<real>>, n: nat, threshold: real)
    requires 1 <= n && Wide(lags, n)
    ensures var kept := KeptIntended(lags, n, threshold);
      forall k, m :: 0 <= k < m < |kept| ==> Distinguishable(lags, kept[m], kept[k], threshold)
  {
    if n > 1 {
      IntendedKeptPairwiseDistinct(lags, n - 1, threshold);
      var before := KeptIntended(lags, n - 1, threshold);
      var kept := KeptIntended(lags, n, threshold);
      if kept != before {
        assert kept == before + [n - 1];
        forall k, m | 0 <= k < m < |kept|
          ensures Distinguishable(lags, kept[m], kept[k], threshold)
        {
          if m < |before| {
            assert kept[m] == before[m] && kept[k] == before[k];
          }
        }
      }
    }
  }

  /**
   * As written, the kept set is not pairwise distinguishable: one station
   * with lags [0, 5, 0] and threshold 1 keeps nodes 0 and 2, whose lags are
   * identical, because node 2's decision reads node 1's row.
   */
  lemma DedupOffByOneCounterexample()
    ensures var lags := [[0.0, 5.0, 0.0]];
      && KeptAsWritten(lags, 3, 1.0) == [0, 2]
      && !Distinguishable(lags, 2, 0, 1.0)
      && KeptIntended(lags, 3, 1.0) == [0, 1]
  {
    var lags := [[0.0, 5.0, 0.0]];
    assert lags[..0] == [];
    assert MoveoutSum(lags, 0, 0) == 0.0;
    assert MoveoutSum(lags, 1, 0) == -5.0;
    assert MoveoutSum(lags, 2, 0) == 0.0;
    assert MoveoutSum(lags, 0, 1) == 5.0;
    assert MoveoutSum(lags, 2, 1) == 5.0;
    assert KeptAsWritten(lags, 2, 1.0) == [0];
    assert KeptIntended(lags, 2, 1.0) == [0, 1];
  }
}
