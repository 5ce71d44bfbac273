// The cumulative network response (CNR) of core/bright_lights.py: for every
// sample, the largest energy stack over all grid nodes, together with the
// node that owns it. The source builds it three ways:
//   - in memory, with `np.argmax` over the whole node-by-sample table;
//   - as a fold over one chunk of nodes (`_cum_net_resp`);
//   - by splitting the nodes into one chunk per worker and combining the chunk
//     results with a second argmax (`brightness`).
// The per-node stacks are given as rows of an in-memory table; the scratch
// files and the worker pool of the source are not part of this model.

module Response {
  import opened Seqs
  import opened Results
  import Grid

  /** Every row of `m` has `len` samples. */
  predicate Rect(m: seq<seq<real>>, len: nat)
  {
    forall k :: 0 <= k < |m| ==> |m[k]| == len
  }

  /**
   * `np.argmax` of one column: a position holding the maximum, and the FIRST
   * such position, so the lowest index wins a tie.
   */
  function FirstArgMax(col: seq<real>): (r: nat)
    requires |col| > 0
    ensures r < |col|
    ensures forall k :: 0 <= k < |col| ==> col[k] <= col[r]
    ensures forall k :: 0 <= k < r ==> col[k] < col[r]
  {
    if |col| == 1 then 0
    else
      var p := FirstArgMax(col[..|col| - 1]);
      if col[p] < col[|col| - 1] then |col| - 1 else p
  }

  /** The two halves of FirstArgMax's contract determine the position. */
  lemma FirstArgMaxUnique(col: seq<real>, p: nat)
    requires p < |col|
    requires forall k :: 0 <= k < |col| ==> col[k] <= col[p]
    requires forall k :: 0 <= k < p ==> col[k] < col[p]
    ensures FirstArgMax(col) == p
  {
  }

  // ---------------------------------------------------------------------
  // The in-memory response (`brightness`, the branch without scratch files)

  datatype Response = Response(values: seq<real>, peaks: seq<Grid.Node>)

  /**
   * `np.argmax(energy, axis=0)` followed by the loop that reads the winning
   * value and node for every sample. With no node the concatenation of the
   * node rows fails (ValueError); with no sample the write to
   * `cum_net_resp[0]` fails (IndexError).
   */
  method InMemoryResponse(energy: seq<seq<real>>, nodes: seq<Grid.Node>, len: nat)
    returns (r: Result<Response>)
    requires |energy| == |nodes| && Rect(energy, len)
    ensures |nodes| == 0 ==> r == Err(ValueError)
    ensures |nodes| > 0 && len == 0 ==> r == Err(IndexError)
    ensures |nodes| > 0 && len > 0 ==>
      && r.Ok? && |r.value.values| == len && |r.value.peaks| == len
      && forall t :: 0 <= t < len ==>
           && r.value.values[t] == energy[FirstArgMax(Column(energy, t))][t]
           && r.value.peaks[t] == nodes[FirstArgMax(Column(energy, t))]
  {
    if |nodes| == 0 {
      return Err(ValueError);
    }
    var indeces := seq(len, t requires 0 <= t < len => FirstArgMax(Column(energy, t)));
    if len == 0 {
      return Err(IndexError);
    }
    var values := seq(len, _ => 0.0);  // placeholder for the NaN fill
    values := values[0 := energy[indeces[0]][0]];
    var peaks := [nodes[indeces[0]]];
    for i := 1 to len
      invariant |values| == len && |peaks| == i
      invariant forall t :: 0 <= t < i ==> values[t] == energy[indeces[t]][t] && peaks[t] == nodes[indeces[t]]
    {
      values := values[i := energy[indeces[i]][i]];
      peaks := peaks + [nodes[indeces[i]]];
    }
    r := Ok(Response(values, peaks));
  }

  // ---------------------------------------------------------------------
  // The chunk fold (`_cum_net_resp`)

  /** A chunk names at least one node, and every node it names has a row. */
  predicate ValidChunk(chunk: seq<nat>, n: nat)
  {
    |chunk| > 0 && forall k :: 0 <= k < |chunk| ==> chunk[k] < n
  }

  /** Sample `t` of every node of the chunk, in chunk order. */
  function ChunkColumn(energies: seq<seq<real>>, len: nat, chunk: seq<nat>, t: nat): (c: seq<real>)
    requires Rect(energies, len) && ValidChunk(chunk, |energies|) && t < len
    ensures |c| == |chunk|
    ensures forall k :: 0 <= k < |chunk| ==> c[k] == energies[chunk[k]][t]
  {
    seq(|chunk|, k requires 0 <= k < |chunk| => energies[chunk[k]][t])
  }

  /**
   * The running response after folding in the chunk's nodes in order. A step
   * takes the new node's sample only where it is strictly larger (`np.argmax`
   * over the pair picks the accumulated value on a tie).
   */
  function FoldMax(energies: seq<seq<real>>, len: nat, chunk: seq<nat>): (r: seq<real>)
    requires Rect(energies, len) && ValidChunk(chunk, |energies|)
    ensures |r| == len
    decreases |chunk|
  {
    if |chunk| == 1 then energies[chunk[0]]
    else
      var acc := FoldMax(energies, len, chunk[..|chunk| - 1]);
      var e := energies[chunk[|chunk| - 1]];
      seq(len, t requires 0 <= t < len => Max(acc[t], e[t]))
  }

  /**
   * The owner array as `_cum_net_resp` returns it. Every step REPLACES the
   * whole array with the step's node where that node strictly beat the
   * running response and 0 elsewhere, so only the last step's outcome is
   * left; a one-node chunk keeps its node.
   */
  function FoldOwnerAsWritten(energies: seq<seq<real>>, len: nat, chunk: seq<nat>, t: nat): (r: nat)
    requires Rect(energies, len) && ValidChunk(chunk, |energies|) && t < len
    ensures r == chunk[|chunk| - 1] || r == 0
  {
    if |chunk| == 1 then chunk[0]
    else if FoldMax(energies, len, chunk[..|chunk| - 1])[t] < energies[chunk[|chunk| - 1]][t]
    then chunk[|chunk| - 1]
    else 0
  }

  /** The fold computes the chunk's column maximum, held first by the chunk's first argmax. */
  lemma {:induction false} FoldMatchesArgMax(energies: seq<seq<real>>, len: nat, chunk: seq<nat>, t: nat)
    requires Rect(energies, len) && ValidChunk(chunk, |energies|) && t < len
    ensures FoldMax(energies, len, chunk)[t]
      == ChunkColumn(energies, len, chunk, t)[FirstArgMax(ChunkColumn(energies, len, chunk, t))]
  {
    if |chunk| > 1 {
      var init := chunk[..|chunk| - 1];
      FoldMatchesArgMax(energies, len, init, t);
      var col := ChunkColumn(energies, len, chunk, t);
      assert ChunkColumn(energies, len, init, t) == col[..|col| - 1];
    }
  }

  /**
   * The as-written owner is the chunk's last node when that node is the
   * first maximum of the chunk, and node 0 otherwise.
   */
  lemma FoldOwnerAsWrittenIsLastStep(energies: seq<seq<real>>, len: nat, chunk: seq<nat>, t: nat)
    requires Rect(energies, len) && ValidChunk(chunk, |energies|) && t < len
    ensures FoldOwnerAsWritten(energies, len, chunk, t)
      == if FirstArgMax(ChunkColumn(energies, len, chunk, t)) == |chunk| - 1 then chunk[|chunk| - 1] else 0
  {
    if |chunk| > 1 {
      var init := chunk[..|chunk| - 1];
      FoldMatchesArgMax(energies, len, init, t);
      var col := ChunkColumn(energies, len, chunk, t);
      assert ChunkColumn(energies, len, init, t) == col[..|col| - 1];
    }
  }

  /** Every node of the chunk lies below the fold, and the fold is the sample of one of them. */
  lemma FoldMaxBounds(energies: seq<seq<real>>, len: nat, chunk: seq<nat>, t: nat)
    requires Rect(energies, len) && ValidChunk(chunk, |energies|) && t < len
    ensures forall k :: 0 <= k < |chunk| ==> energies[chunk[k]][t] <= FoldMax(energies, len, chunk)[t]
    ensures FoldMax(energies, len, chunk)[t] == energies[FoldOwner(energies, len, chunk, t)][t]
  {
    FoldMatchesArgMax(energies, len, chunk, t);
    var col := ChunkColumn(energies, len, chunk, t);
    assert forall k :: 0 <= k < |chunk| ==> col[k] == energies[chunk[k]][t];
  }

  /** The intended owner: the chunk's first node whose sample equals the fold. */
  function FoldOwner(energies: seq<seq<real>>, len: nat, chunk: seq<nat>, t: nat): (r: nat)
    requires Rect(energies, len) && ValidChunk(chunk, |energies|) && t < len
    ensures r in chunk
  {
    chunk[FirstArgMax(ChunkColumn(energies, len, chunk, t))]
  }

  lemma FoldOwnerAsWrittenInRange(energies: seq<seq<real>>, len: nat, chunk: seq<nat>, t: nat)
    requires Rect(energies, len) && ValidChunk(chunk, |energies|) && t < len
    ensures FoldOwnerAsWritten(energies, len, chunk, t) < |energies|
  {
  }

  /** One chunk's result: its response and its owner array. */
  datatype Partial = Partial(response: seq<real>, owners: seq<nat>)

  /**
   * `_cum_net_resp` over the rows of `energies` named by `nodeList`. An empty
   * list fails on `node_lis[0]`.
   */
  method CumNetResp(energies: seq<seq<real>>, len: nat, nodeList: seq<nat>) returns (r: Result<Partial>)
    requires Rect(energies, len)
    requires forall k :: 0 <= k < |nodeList| ==> nodeList[k] < |energies|
    ensures |nodeList| == 0 ==> r == Err(IndexError)
    ensures |nodeList| > 0 ==>
      && r.Ok?
      && r.value.response == FoldMax(energies, len, nodeList)
      && |r.value.owners| == len
      && forall t :: 0 <= t < len ==> r.value.owners[t] == FoldOwnerAsWritten(energies, len, nodeList, t)
  {
    if |nodeList| == 0 {
      return Err(IndexError);
    }
    var cumNetResp := energies[nodeList[0]];
    var indeces := seq(len, _ => nodeList[0]);
    for k := 1 to |nodeList|
      invariant ValidChunk(nodeList[..k], |energies|)
      invariant cumNetResp == FoldMax(energies, len, nodeList[..k])
      invariant |indeces| == len
      invariant forall t :: 0 <= t < len ==> indeces[t] == FoldOwnerAsWritten(energies, len, nodeList[..k], t)
    {
      assert nodeList[..k + 1][..k] == nodeList[..k];
      var i := nodeList[k];
      var nodeEnergy := energies[i];
      // np.argmax([cum_net_resp, node_energy], axis=0)
      var updated := seq(len, j requires 0 <= j < len => if cumNetResp[j] < nodeEnergy[j] then 1 else 0);
      cumNetResp := seq(len, j requires 0 <= j < len => if updated[j] == 1 then nodeEnergy[j] else cumNetResp[j]);
      indeces := seq(len, j requires 0 <= j < len => if updated[j] == 1 then i else 0);
    }
    assert nodeList[..|nodeList|] == nodeList;
    r := Ok(Partial(cumNetResp, indeces));
  }

  /**
   * With node energies 1, 5 and 3 folded in that order the response is 5,
   * which only node 1 holds, yet the returned owner is node 0: the last step
   * did not win, and the owners of the earlier steps were overwritten.
   */
  lemma FoldOwnerCounterexample()
    ensures var energies := [[1.0], [5.0], [3.0]];
      && FoldMax(energies, 1, [0, 1, 2]) == [5.0]
      && FoldOwnerAsWritten(energies, 1, [0, 1, 2], 0) == 0
      && energies[0][0] != 5.0
      && FoldOwner(energies, 1, [0, 1, 2], 0) == 1
  {
    var energies := [[1.0], [5.0], [3.0]];
    assert [0, 1, 2][..2] == [0, 1];
    assert [0, 1][..1] == [0];
    assert FoldMax(energies, 1, [0, 1]) == [5.0];
    var col := ChunkColumn(energies, 1, [0, 1, 2], 0);
    assert col == [1.0, 5.0, 3.0];
    FirstArgMaxUnique(col, 1);
  }

  // ---------------------------------------------------------------------
  // Pool size and the chunk partition (`brightness`)

  /** `num_cores`: the configured core count, capped by the node count, then by the CPU count. */
  function PoolSize(cores: int, nodeCount: nat, cpus: int): (r: int)
    ensures r <= cores && r <= nodeCount && r <= cpus
    ensures r == cores || r == nodeCount || r == cpus
  {
    var c := if cores > nodeCount then nodeCount else cores;
    if c > cpus then cpus else c
  }

  /**
   * Where the chunks of an evenly split node list start: chunk `k` begins at
   * `(n / c) * k`, and the last one runs to `n`.
   */
  function SplitBounds(nodeCount: nat, numCores: nat): (b: seq<nat>)
    requires numCores >= 1
    ensures |b| == numCores + 1
  {
    seq(numCores + 1, k requires 0 <= k <= numCores =>
      if k == numCores then nodeCount else (nodeCount / numCores) * k)
  }

  /** Strictly increasing chunk boundaries from 0 to `n`. */
  predicate Bounds(b: seq<nat>, n: nat)
  {
    && |b| >= 2 && b[0] == 0 && b[|b| - 1] == n
    && forall i, j :: 0 <= i < j < |b| ==> b[i] < b[j]
  }

  /** The contiguous chunks `range(b[k], b[k+1])` cut at the boundaries. */
  function Chunks(b: seq<nat>): (chunks: seq<seq<nat>>)
    requires |b| >= 1
    ensures |chunks| == |b| - 1
    ensures forall k :: 0 <= k < |b| - 1 ==> chunks[k] == Range(b[k], b[k + 1])
  {
    seq(|b| - 1, k requires 0 <= k < |b| - 1 => Range(b[k], b[k + 1]))
  }

  lemma MulMonotone(a: nat, i: nat, j: nat)
    requires a >= 1 && i < j
    ensures a * i < a * j
  {
    assert a * j == a * i + a * (j - i);
  }

  /** With at least one node per core the even split has strictly increasing boundaries. */
  lemma SplitBoundsValid(nodeCount: nat, numCores: nat)
    requires 1 <= numCores <= nodeCount
    ensures Bounds(SplitBounds(nodeCount, numCores), nodeCount)
  {
    var b := SplitBounds(nodeCount, numCores);
    var ns := nodeCount / numCores;
    assert ns >= 1;
    assert ns * numCores <= nodeCount;
    forall i, j | 0 <= i < j < |b| ensures b[i] < b[j] {
      if j < numCores {
        MulMonotone(ns, i, j);
      } else {
        MulMonotone(ns, i, numCores);
      }
    }
  }

  /** The as-written chunk list of the out-of-core branch. */
  function Flatten(chunks: seq<seq<nat>>): seq<nat>
  {
    if |chunks| == 0 then [] else Flatten(chunks[..|chunks| - 1]) + chunks[|chunks| - 1]
  }

  lemma RangeConcat(a: nat, b: nat, c: nat)
    requires a <= b <= c
    ensures Range(a, b) + Range(b, c) == Range(a, c)
  {
    assert |Range(a, b) + Range(b, c)| == |Range(a, c)|;
  }

  lemma {:induction false} FlattenPrefix(b: seq<nat>, n: nat, j: nat)
    requires Bounds(b, n) && 1 <= j <= |b|
    ensures Flatten(Chunks(b)[..j - 1]) == Range(0, b[j - 1])
  {
    if j > 1 {
      FlattenPrefix(b, n, j - 1);
      assert Chunks(b)[..j - 1][..j - 2] == Chunks(b)[..j - 2];
      RangeConcat(0, b[j - 2], b[j - 1]);
    }
  }

  /** Contiguous chunks cut at strictly increasing boundaries are non-empty and name only nodes below `n`. */
  lemma ChunksValid(b: seq<nat>, n: nat)
    requires Bounds(b, n)
    ensures forall k :: 0 <= k < |b| - 1 ==> ValidChunk(Chunks(b)[k], n)
  {
    forall k | 0 <= k < |b| - 1 ensures ValidChunk(Chunks(b)[k], n) {
      assert b[k] < b[k + 1] && b[k + 1] <= b[|b| - 1];
    }
  }

  /** Contiguous chunks cut at strictly increasing boundaries list every node exactly once, in order. */
  lemma ChunksPartition(b: seq<nat>, n: nat)
    requires Bounds(b, n)
    ensures Flatten(Chunks(b)) == Range(0, n)
  {
    FlattenPrefix(b, n, |b|);
    assert Chunks(b)[..|b| - 1] == Chunks(b);
  }

  lemma MulAtLeast(a: nat, b: nat)
    requires a >= 1
    ensures a * b >= b
  {
  }

  /**
   * The chunk list of `brightness` for `numCores` workers. `i` holds the
   * value of the last loop that bound it: the chunk loop when it ran, and
   * otherwise the list comprehension over all nodes that scheduled the
   * stacking, whose variable Python 2 leaks (`len(nodes) - 1`).
   */
  method SplitNodes(nodeCount: nat, numCores: nat) returns (chunks: seq<seq<nat>>)
    requires 1 <= numCores <= nodeCount
    ensures |chunks| == if numCores == 1 then 2 else numCores
    ensures numCores != 2 ==> chunks[..numCores] == Chunks(SplitBounds(nodeCount, numCores))
    ensures numCores == 2 ==> chunks == [Range(0, nodeCount / 2), []]
  {
    var nodeSplits := nodeCount / numCores;
    var i := nodeCount - 1;
    chunks := [Range(0, nodeSplits)];
    if numCores == 1 {
      assert nodeSplits == nodeCount;
    }
    var k := 1;
    while k < numCores - 1
      invariant 1 <= k <= if numCores == 1 then 1 else numCores - 1
      invariant |chunks| == k
      invariant i == if k == 1 then nodeCount - 1 else k - 1
      invariant forall m :: 0 <= m < k ==> chunks[m] == Range(nodeSplits * m, nodeSplits * (m + 1))
    {
      chunks := chunks + [Range(nodeSplits * k, nodeSplits * (k + 1))];
      i := k;
      k := k + 1;
    }
    chunks := chunks + [Range(nodeSplits * (i + 1), nodeCount)];
    SplitTail(nodeCount, numCores, i, chunks);
  }

  /** What the chunk list is once its last chunk, which reads `i`, is appended. */
  lemma SplitTail(nodeCount: nat, numCores: nat, i: nat, chunks: seq<seq<nat>>)
    requires 1 <= numCores <= nodeCount
    requires |chunks| == if numCores == 1 then 2 else numCores
    requires i == if numCores <= 2 then nodeCount - 1 else numCores - 2
    requires forall m :: 0 <= m < |chunks| - 1 ==>
      chunks[m] == Range((nodeCount / numCores) * m, (nodeCount / numCores) * (m + 1))
    requires chunks[|chunks| - 1] == Range((nodeCount / numCores) * (i + 1), nodeCount)
    ensures numCores != 2 ==> chunks[..numCores] == Chunks(SplitBounds(nodeCount, numCores))
    ensures numCores == 2 ==> chunks == [Range(0, nodeCount / 2), []]
  {
    var nodeSplits := nodeCount / numCores;
    assert nodeSplits >= 1;
    if numCores <= 2 {
      MulAtLeast(nodeSplits, nodeCount);
      assert nodeSplits * (i + 1) >= nodeCount;
      assert chunks[|chunks| - 1] == [];
      assert chunks[0] == Range(0, nodeSplits);
    }
    if numCores == 2 {
      assert chunks == [chunks[0], chunks[1]];
    } else {
      SplitMatchesBounds(nodeCount, numCores, chunks);
    }
  }

  lemma SplitMatchesBounds(nodeCount: nat, numCores: nat, chunks: seq<seq<nat>>)
    requires 1 <= numCores <= nodeCount && numCores != 2
    requires |chunks| == if numCores == 1 then 2 else numCores
    requires forall m :: 0 <= m < numCores - 1 ==>
      chunks[m] == Range((nodeCount / numCores) * m, (nodeCount / numCores) * (m + 1))
    requires chunks[numCores - 1] == Range(if numCores == 1 then 0 else (nodeCount / numCores) * (numCores - 1), nodeCount)
    ensures chunks[..numCores] == Chunks(SplitBounds(nodeCount, numCores))
  {
    var b := SplitBounds(nodeCount, numCores);
    forall m | 0 <= m < numCores ensures chunks[m] == Range(b[m], b[m + 1]) {
      if m < numCores - 1 {
        assert b[m] == (nodeCount / numCores) * m;
        assert b[m + 1] == (nodeCount / numCores) * (m + 1);
      }
    }
  }

  /**
   * With two workers the second chunk is empty, so the nodes of the upper
   * half are never folded: the last node is missing from the chunk list.
   */
  lemma TwoCoreSplitOmitsNodes(nodeCount: nat)
    requires nodeCount >= 2
    ensures nodeCount - 1 !in Flatten([Range(0, nodeCount / 2), []])
    ensures Flatten([Range(0, nodeCount / 2), []]) != Range(0, nodeCount)
  {
    var lower := Range(0, nodeCount / 2);
    assert [lower, []][..1] == [lower];
    var none: seq<seq<nat>> := [];
    assert [lower][..0] == none;
    assert Flatten([lower]) == Flatten(none) + lower;
    assert Flatten([lower, []]) == Flatten([lower]) + [];
  }

  /** The evidently intended split: the last chunk starts after chunk `numCores - 2`. */
  function SplitIntended(nodeCount: nat, numCores: nat): (chunks: seq<seq<nat>>)
    requires 1 <= numCores <= nodeCount
    ensures |chunks| == numCores
    ensures Flatten(chunks) == Range(0, nodeCount)
    ensures forall k :: 0 <= k < numCores ==> ValidChunk(chunks[k], nodeCount)
  {
    SplitBoundsValid(nodeCount, numCores);
    ChunksValid(SplitBounds(nodeCount, numCores), nodeCount);
    ChunksPartition(SplitBounds(nodeCount, numCores), nodeCount);
    Chunks(SplitBounds(nodeCount, numCores))
  }

  // ---------------------------------------------------------------------
  // Combining the chunk results (`brightness`)

  /** Sample `t` of every chunk's response, in chunk order. */
  function ChunkMaxima(partials: seq<Partial>, len: nat, t: nat): (m: seq<real>)
    requires forall c :: 0 <= c < |partials| ==> |partials[c].response| == len
    requires t < len
    ensures |m| == |partials|
    ensures forall c :: 0 <= c < |partials| ==> m[c] == partials[c].response[t]
  {
    seq(|partials|, c requires 0 <= c < |partials| => partials[c].response[t])
  }

  /** Every chunk result has `len` samples and owners that index `nodes`. */
  predicate PartialsShaped(partials: seq<Partial>, len: nat, nodeCount: nat)
  {
    forall c :: 0 <= c < |partials| ==>
      && |partials[c].response| == len && |partials[c].owners| == len
      && forall t :: 0 <= t < len ==> partials[c].owners[t] < nodeCount
  }

  /**
   * `np.argmax` over the chunk responses, then the winning chunk's sample and
   * the node its owner array names.
   */
  function CrossChunk(partials: seq<Partial>, nodes: seq<Grid.Node>, len: nat): (r: Response)
    requires |partials| > 0 && PartialsShaped(partials, len, |nodes|)
    ensures |r.values| == len && |r.peaks| == len
  {
    Response(
      seq(len, t requires 0 <= t < len => partials[FirstArgMax(ChunkMaxima(partials, len, t))].response[t]),
      seq(len, t requires 0 <= t < len => nodes[partials[FirstArgMax(ChunkMaxima(partials, len, t))].owners[t]]))
  }

  /**
   * The combined response dominates every chunk's response and is the sample
   * of the lowest-numbered chunk reaching it; its peak node is what that
   * chunk's owner array names.
   */
  lemma CrossChunkIsMax(partials: seq<Partial>, nodes: seq<Grid.Node>, len: nat, t: nat)
    requires |partials| > 0 && PartialsShaped(partials, len, |nodes|) && t < len
    ensures forall c :: 0 <= c < |partials| ==> partials[c].response[t] <= CrossChunk(partials, nodes, len).values[t]
    ensures forall c :: 0 <= c < FirstArgMax(ChunkMaxima(partials, len, t)) ==>
      partials[c].response[t] < CrossChunk(partials, nodes, len).values[t]
    ensures CrossChunk(partials, nodes, len).peaks[t]
      == nodes[partials[FirstArgMax(ChunkMaxima(partials, len, t))].owners[t]]
  {
    var m := ChunkMaxima(partials, len, t);
    assert forall c :: 0 <= c < |partials| ==> m[c] == partials[c].response[t];
  }

  /** The chunk maxima of contiguous chunks cut at `b`. */
  function Maxima(energies: seq<seq<real>>, len: nat, b: seq<nat>, t: nat): (m: seq<real>)
    requires Rect(energies, len) && Bounds(b, |energies|) && t < len
    ensures |m| == |b| - 1
  {
    ChunksValid(b, |energies|);
    seq(|b| - 1, k requires 0 <= k < |b| - 1 => FoldMax(energies, len, Chunks(b)[k])[t])
  }

  /** The chunk that holds node `g`; no other chunk holds it. */
  lemma Locate(b: seq<nat>, n: nat, g: nat) returns (k: nat)
    requires Bounds(b, n) && g < n
    ensures k + 1 < |b| && b[k] <= g < b[k + 1]
    ensures forall k' :: 0 <= k' && k' + 1 < |b| && b[k'] <= g < b[k' + 1] ==> k' == k
  {
    k := 0;
    while b[k + 1] <= g
      invariant k + 1 < |b| && b[k] <= g
      decreases |b| - k
    {
      k := k + 1;
    }
  }

  /** The maximum of chunk `k` is the sample of one of its nodes and bounds all of them. */
  lemma ChunkMaximum(energies: seq<seq<real>>, len: nat, b: seq<nat>, k: nat, t: nat) returns (j: nat)
    requires Rect(energies, len) && Bounds(b, |energies|) && k + 1 < |b| && t < len
    ensures b[k] <= j < b[k + 1]
    ensures Maxima(energies, len, b, t)[k] == energies[j][t]
    ensures forall i :: b[k] <= i < b[k + 1] ==> energies[i][t] <= Maxima(energies, len, b, t)[k]
  {
    ChunksValid(b, |energies|);
    var chunk := Chunks(b)[k];
    FoldMaxBounds(energies, len, chunk, t);
    j := FoldOwner(energies, len, chunk, t);
    assert Maxima(energies, len, b, t)[k] == FoldMax(energies, len, chunk)[t];
    assert b[k + 1] <= b[|b| - 1];
    assert chunk == Range(b[k], b[k + 1]);
    ChunkDominates(energies, len, b, k, t);
  }

  lemma ChunkDominates(energies: seq<seq<real>>, len: nat, b: seq<nat>, k: nat, t: nat)
    requires Rect(energies, len) && Bounds(b, |energies|) && k + 1 < |b| && t < len
    ensures forall i :: b[k] <= i < b[k + 1] ==> energies[i][t] <= Maxima(energies, len, b, t)[k]
  {
    ChunksValid(b, |energies|);
    var chunk := Chunks(b)[k];
    FoldMaxBounds(energies, len, chunk, t);
    assert Maxima(energies, len, b, t)[k] == FoldMax(energies, len, chunk)[t];
    assert b[k + 1] <= b[|b| - 1];
    assert chunk == Range(b[k], b[k + 1]);
    forall i | b[k] <= i < b[k + 1] ensures energies[i][t] <= Maxima(energies, len, b, t)[k] {
      assert chunk[i - b[k]] == i;
    }
  }

  /** Inside the chunk holding the global first argmax `g`, the corrected owner is `g`. */
  lemma ChunkOwnerIsGlobalFirst(energies: seq<seq<real>>, len: nat, b: seq<nat>, k: nat, t: nat)
    requires Rect(energies, len) && Bounds(b, |energies|) && k + 1 < |b| && t < len
    requires b[k] <= FirstArgMax(Column(energies, t)) < b[k + 1]
    ensures ValidChunk(Chunks(b)[k], |energies|)
    ensures FoldOwner(energies, len, Chunks(b)[k], t) == FirstArgMax(Column(energies, t))
  {
    ChunksValid(b, |energies|);
    assert b[k + 1] <= b[|b| - 1];
    RangeOwnerIsGlobalFirst(energies, len, b[k], b[k + 1], t);
  }

  /** Inside a range of nodes holding the global first argmax `g`, the corrected owner is `g`. */
  lemma RangeOwnerIsGlobalFirst(energies: seq<seq<real>>, len: nat, lo: nat, hi: nat, t: nat)
    requires Rect(energies, len) && lo < hi <= |energies| && t < len
    requires lo <= FirstArgMax(Column(energies, t)) < hi
    ensures ValidChunk(Range(lo, hi), |energies|)
    ensures FoldOwner(energies, len, Range(lo, hi), t) == FirstArgMax(Column(energies, t))
  {
    var chunk := Range(lo, hi);
    var col := Column(energies, t);
    var cc := ChunkColumn(energies, len, chunk, t);
    forall m | 0 <= m < |cc| ensures cc[m] == col[lo + m] {
      assert chunk[m] == lo + m;
    }
    FirstArgMaxOfSlice(col, lo, hi, cc);
    assert chunk[FirstArgMax(col) - lo] == FirstArgMax(col);
  }

  /** A slice holding a sequence's first argmax has it as its own first argmax, shifted. */
  lemma FirstArgMaxOfSlice(col: seq<real>, lo: nat, hi: nat, cc: seq<real>)
    requires lo < hi <= |col| && |cc| == hi - lo
    requires forall m :: 0 <= m < |cc| ==> cc[m] == col[lo + m]
    requires lo <= FirstArgMax(col) < hi
    ensures FirstArgMax(cc) == FirstArgMax(col) - lo
  {
    var g := FirstArgMax(col);
    var p := g - lo;
    forall m | 0 <= m < |cc| ensures cc[m] <= cc[p] && (m < p ==> cc[m] < cc[p]) {
      assert cc[m] == col[lo + m];
    }
    FirstArgMaxUnique(cc, p);
  }

  /**
   * For any contiguous partition, the cross-chunk argmax picks the chunk
   * holding the global first argmax `g`, its response is `g`'s sample, and
   * the corrected owner of that chunk is `g` itself: the partitioned
   * pipeline agrees with the in-memory one in both value and node.
   */
  lemma PartitionedMatchesInMemory(energies: seq<seq<real>>, len: nat, b: seq<nat>, t: nat)
    requires Rect(energies, len) && Bounds(b, |energies|) && t < len
    ensures b[FirstArgMax(Maxima(energies, len, b, t))] <= FirstArgMax(Column(energies, t))
    ensures FirstArgMax(Column(energies, t)) < b[FirstArgMax(Maxima(energies, len, b, t)) + 1]
    ensures Maxima(energies, len, b, t)[FirstArgMax(Maxima(energies, len, b, t))]
      == energies[FirstArgMax(Column(energies, t))][t]
    ensures ValidChunk(Chunks(b)[FirstArgMax(Maxima(energies, len, b, t))], |energies|)
    ensures FoldOwner(energies, len, Chunks(b)[FirstArgMax(Maxima(energies, len, b, t))], t)
      == FirstArgMax(Column(energies, t))
  {
    var n := |energies|;
    var col := Column(energies, t);
    var g := FirstArgMax(col);
    var maxima := Maxima(energies, len, b, t);
    var cg := Locate(b, n, g);
    forall k | 0 <= k < |maxima|
      ensures maxima[k] <= col[g]
      ensures k < cg ==> maxima[k] < col[g]
    {
      var j := ChunkMaximum(energies, len, b, k, t);
      assert maxima[k] == col[j];
      if k < cg {
        assert j < b[k + 1] <= b[cg] <= g;
      }
    }
    var j := ChunkMaximum(energies, len, b, cg, t);
    assert maxima[cg] == col[g];
    FirstArgMaxUnique(maxima, cg);
    ChunkOwnerIsGlobalFirst(energies, len, b, cg, t);
  }

  /**
   * The second worker pool of `brightness`: `_cum_net_resp` on each of the
   * first `count` chunks, collected in chunk order. The first empty chunk
   * makes its worker fail, and collecting its result re-raises the error.
   * Each chunk's result is its folded response and its as-written owners.
   */
  method FoldChunks(energies: seq<seq<real>>, len: nat, chunks: seq<seq<nat>>, count: nat)
    returns (r: Result<seq<Partial>>)
    requires Rect(energies, len) && count <= |chunks|
    requires forall c, m :: 0 <= c < count && 0 <= m < |chunks[c]| ==> chunks[c][m] < |energies|
    ensures (exists c :: 0 <= c < count && chunks[c] == []) ==> r == Err(IndexError)
    ensures (forall c :: 0 <= c < count ==> chunks[c] != []) ==>
      && r.Ok? && |r.value| == count && PartialsShaped(r.value, len, |energies|)
      && (forall c :: 0 <= c < count ==> r.value[c].response == FoldMax(energies, len, chunks[c]))
      && forall c, t :: 0 <= c < count && 0 <= t < len ==>
           r.value[c].owners[t] == FoldOwnerAsWritten(energies, len, chunks[c], t)
  {
    var partials: seq<Partial> := [];
    for k := 0 to count
      invariant |partials| == k
      invariant forall c :: 0 <= c < k ==> chunks[c] != []
      invariant forall c :: 0 <= c < k ==> partials[c].response == FoldMax(energies, len, chunks[c])
      invariant PartialsShaped(partials, len, |energies|)
      invariant forall c, t :: 0 <= c < k && 0 <= t < len ==>
        partials[c].owners[t] == FoldOwnerAsWritten(energies, len, chunks[c], t)
    {
      var p := CumNetResp(energies, len, chunks[k]);
      if p.Err? {
        return Err(p.error);
      }
      forall t | 0 <= t < len ensures p.value.owners[t] < |energies| {
        FoldOwnerAsWrittenInRange(energies, len, chunks[k], t);
      }
      partials := partials + [p.value];
    }
    r := Ok(partials);
  }

  /** Every chunk of the as-written list names only nodes below `nodeCount`. */
  lemma SplitNodesInRange(nodeCount: nat, numCores: nat, chunks: seq<seq<nat>>)
    requires 1 <= numCores <= nodeCount
    requires |chunks| == if numCores == 1 then 2 else numCores
    requires numCores != 2 ==> chunks[..numCores] == Chunks(SplitBounds(nodeCount, numCores))
    requires numCores == 2 ==> chunks == [Range(0, nodeCount / 2), []]
    ensures forall c, m :: 0 <= c < numCores && 0 <= m < |chunks[c]| ==> chunks[c][m] < nodeCount
  {
    if numCores != 2 {
      SplitBoundsValid(nodeCount, numCores);
      ChunksValid(SplitBounds(nodeCount, numCores), nodeCount);
      assert forall c :: 0 <= c < numCores ==> chunks[c] == Chunks(SplitBounds(nodeCount, numCores))[c];
    }
  }

  /**
   * Folding the chunks of any contiguous partition and combining them gives,
   * at every sample, the global maximum over all nodes.
   */
  lemma CombinedIsGlobalMax(energies: seq<seq<real>>, nodes: seq<Grid.Node>, len: nat, b: seq<nat>,
                            partials: seq<Partial>)
    requires |energies| == |nodes| && Rect(energies, len) && Bounds(b, |energies|)
    requires |partials| == |b| - 1 && PartialsShaped(partials, len, |nodes|)
    requires forall c :: 0 <= c < |partials| ==> ValidChunk(Chunks(b)[c], |energies|)
    requires forall c :: 0 <= c < |partials| ==> partials[c].response == FoldMax(energies, len, Chunks(b)[c])
    ensures forall t :: 0 <= t < len ==>
      && CrossChunk(partials, nodes, len).values[t] == energies[FirstArgMax(Column(energies, t))][t]
      && CrossChunk(partials, nodes, len).peaks[t] in nodes
  {
    forall t | 0 <= t < len
      ensures CrossChunk(partials, nodes, len).values[t] == energies[FirstArgMax(Column(energies, t))][t]
      ensures CrossChunk(partials, nodes, len).peaks[t] in nodes
    {
      CombinedIsGlobalMaxAt(energies, nodes, len, b, partials, t);
    }
  }

  lemma CombinedIsGlobalMaxAt(energies: seq<seq<real>>, nodes: seq<Grid.Node>, len: nat, b: seq<nat>,
                              partials: seq<Partial>, t: nat)
    requires |energies| == |nodes| && Rect(energies, len) && Bounds(b, |energies|)
    requires |partials| == |b| - 1 && PartialsShaped(partials, len, |nodes|)
    requires forall c :: 0 <= c < |partials| ==> ValidChunk(Chunks(b)[c], |energies|)
    requires forall c :: 0 <= c < |partials| ==> partials[c].response == FoldMax(energies, len, Chunks(b)[c])
    requires t < len
    ensures CrossChunk(partials, nodes, len).values[t] == energies[FirstArgMax(Column(energies, t))][t]
    ensures CrossChunk(partials, nodes, len).peaks[t] in nodes
  {
    var m := ChunkMaxima(partials, len, t);
    var mx := Maxima(energies, len, b, t);
    forall c | 0 <= c < |m| ensures m[c] == mx[c] {
      assert mx[c] == FoldMax(energies, len, Chunks(b)[c])[t];
    }
    assert m == mx;
    PartitionedMatchesInMemory(energies, len, b, t);
    var w := FirstArgMax(m);
    var cross := CrossChunk(partials, nodes, len);
    assert cross.values[t] == partials[w].response[t] == mx[w];
    assert cross.peaks[t] == nodes[partials[w].owners[t]];
  }

  /**
   * The out-of-core branch of `brightness`: size the pool, split the nodes,
   * fold every chunk, combine. A pool of fewer than one worker is refused
   * (ValueError); with two workers the empty second chunk fails in
   * `_cum_net_resp` (IndexError). Otherwise every sample of the result is
   * the global maximum over all nodes, and its peak is the node that the
   * winning chunk's as-written owner array names.
   */
  method OutOfCoreResponse(energies: seq<seq<real>>, nodes: seq<Grid.Node>, len: nat, cores: int, cpus: int)
    returns (r: Result<Response>)
    requires |energies| == |nodes| && Rect(energies, len)
    ensures PoolSize(cores, |nodes|, cpus) < 1 ==> r == Err(ValueError)
    ensures PoolSize(cores, |nodes|, cpus) == 2 ==> r == Err(IndexError)
    ensures PoolSize(cores, |nodes|, cpus) == 1 || PoolSize(cores, |nodes|, cpus) >= 3 ==>
      && r.Ok? && |r.value.values| == len && |r.value.peaks| == len
      && forall t :: 0 <= t < len ==>
           && r.value.values[t] == energies[FirstArgMax(Column(energies, t))][t]
           && r.value.peaks[t] == nodes[OutOfCoreOwner(energies, len, PoolSize(cores, |nodes|, cpus), t)]
  {
    var numCores := PoolSize(cores, |nodes|, cpus);
    if numCores < 1 {
      return Err(ValueError);
    }
    var chunks := SplitNodes(|nodes|, numCores);
    SplitNodesInRange(|nodes|, numCores, chunks);
    if numCores == 2 {
      assert chunks[1] == [];
    } else {
      SplitChunksNonEmpty(|nodes|, numCores, chunks);
    }
    var folded := FoldChunks(energies, len, chunks, numCores);
    if folded.Err? {
      return Err(folded.error);
    }
    var partials := folded.value;
    r := Ok(CrossChunk(partials, nodes, len));
    SplitResponseIsGlobalMax(energies, nodes, len, numCores, chunks, partials);
    forall t | 0 <= t < len
      ensures r.value.peaks[t] == nodes[OutOfCoreOwner(energies, len, numCores, t)]
    {
      SplitPeakAt(energies, nodes, len, numCores, chunks, partials, t);
    }
  }

  /**
   * The node index the out-of-core branch reports at sample `t` for
   * `numCores` workers: the as-written owner of the chunk whose folded
   * maximum wins the second argmax.
   */
  function OutOfCoreOwner(energies: seq<seq<real>>, len: nat, numCores: nat, t: nat): (r: nat)
    requires Rect(energies, len) && 1 <= numCores <= |energies| && t < len
    ensures r < |energies|
  {
    var b := SplitBounds(|energies|, numCores);
    SplitBoundsValid(|energies|, numCores);
    ChunksValid(b, |energies|);
    var w := FirstArgMax(Maxima(energies, len, b, t));
    FoldOwnerAsWritten(energies, len, Chunks(b)[w], t)
  }

  /** At one sample, the combined peak of the as-written split is the node OutOfCoreOwner names. */
  lemma SplitPeakAt(energies: seq<seq<real>>, nodes: seq<Grid.Node>, len: nat, numCores: nat,
                    chunks: seq<seq<nat>>, partials: seq<Partial>, t: nat)
    requires |energies| == |nodes| && Rect(energies, len)
    requires 1 <= numCores <= |nodes| && numCores != 2
    requires |chunks| == if numCores == 1 then 2 else numCores
    requires chunks[..numCores] == Chunks(SplitBounds(|nodes|, numCores))
    requires forall c, m :: 0 <= c < numCores && 0 <= m < |chunks[c]| ==> chunks[c][m] < |energies|
    requires |partials| == numCores && PartialsShaped(partials, len, |nodes|)
    requires forall c :: 0 <= c < numCores ==> chunks[c] != []
    requires forall c :: 0 <= c < numCores ==> partials[c].response == FoldMax(energies, len, chunks[c])
    requires forall c, t :: 0 <= c < numCores && 0 <= t < len ==>
      partials[c].owners[t] == FoldOwnerAsWritten(energies, len, chunks[c], t)
    requires t < len
    ensures CrossChunk(partials, nodes, len).peaks[t] == nodes[OutOfCoreOwner(energies, len, numCores, t)]
  {
    var b := SplitBounds(|nodes|, numCores);
    SplitBoundsValid(|nodes|, numCores);
    ChunksValid(b, |nodes|);
    var m := ChunkMaxima(partials, len, t);
    var mx := Maxima(energies, len, b, t);
    forall c | 0 <= c < numCores ensures m[c] == mx[c] {
      assert chunks[c] == chunks[..numCores][c] == Chunks(b)[c];
    }
    assert m == mx;
    var w := FirstArgMax(m);
    CrossChunkIsMax(partials, nodes, len, t);
    assert chunks[w] == chunks[..numCores][w] == Chunks(b)[w];
    assert partials[w].owners[t] == FoldOwnerAsWritten(energies, len, chunks[w], t);
  }

  /**
   * The out-of-core and in-memory peaks disagree: with one worker and node
   * energies 1, 5 and 3 the out-of-core branch reports node 0, while the
   * global first maximum is node 1.
   */
  lemma OutOfCorePeakCounterexample()
    ensures var energies := [[1.0], [5.0], [3.0]];
      && OutOfCoreOwner(energies, 1, 1, 0) == 0
      && FirstArgMax(Column(energies, 0)) == 1
  {
    var energies := [[1.0], [5.0], [3.0]];
    var b := SplitBounds(3, 1);
    assert b == [0, 3];
    assert Range(0, 3) == [0, 1, 2];
    assert Chunks(b) == [[0, 1, 2]];
    FoldOwnerCounterexample();
    assert Column(energies, 0) == [1.0, 5.0, 3.0];
    FirstArgMaxUnique(Column(energies, 0), 1);
  }

  lemma SplitChunksNonEmpty(nodeCount: nat, numCores: nat, chunks: seq<seq<nat>>)
    requires 1 <= numCores <= nodeCount && numCores != 2
    requires |chunks| == if numCores == 1 then 2 else numCores
    requires chunks[..numCores] == Chunks(SplitBounds(nodeCount, numCores))
    ensures forall c :: 0 <= c < numCores ==> chunks[c] != []
  {
    var b := SplitBounds(nodeCount, numCores);
    SplitBoundsValid(nodeCount, numCores);
    ChunksValid(b, nodeCount);
    assert forall c :: 0 <= c < numCores ==> chunks[c] == Chunks(b)[c];
  }

  /** The as-written split, where it is a partition, yields the global maximum. */
  lemma SplitResponseIsGlobalMax(energies: seq<seq<real>>, nodes: seq<Grid.Node>, len: nat, numCores: nat,
                                 chunks: seq<seq<nat>>, partials: seq<Partial>)
    requires |energies| == |nodes| && Rect(energies, len)
    requires 1 <= numCores <= |nodes| && numCores != 2
    requires |chunks| == if numCores == 1 then 2 else numCores
    requires chunks[..numCores] == Chunks(SplitBounds(|nodes|, numCores))
    requires forall c, m :: 0 <= c < numCores && 0 <= m < |chunks[c]| ==> chunks[c][m] < |energies|
    requires |partials| == numCores && PartialsShaped(partials, len, |nodes|)
    requires forall c :: 0 <= c < numCores ==> chunks[c] != []
    requires forall c :: 0 <= c < numCores ==> partials[c].response == FoldMax(energies, len, chunks[c])
    ensures forall t :: 0 <= t < len ==>
      && CrossChunk(partials, nodes, len).values[t] == energies[FirstArgMax(Column(energies, t))][t]
      && CrossChunk(partials, nodes, len).peaks[t] in nodes
  {
    var b := SplitBounds(|nodes|, numCores);
    SplitBoundsValid(|nodes|, numCores);
    ChunksValid(b, |nodes|);
    assert forall c :: 0 <= c < numCores ==> chunks[c] == Chunks(b)[c];
    CombinedIsGlobalMax(energies, nodes, len, b, partials);
  }
}
