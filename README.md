# Network brightness detector: a verified model

This project models the grid-search "brightness" detector of EQcorrscan
(`core/bright_lights.py`), following Frank & Shapiro (2014). A grid of
candidate source nodes is first prepared:

- it is cut to a depth window and a polygon;
- nodes whose network moveout is too close to one already kept are removed.

For every node the waveform energy of each station is then shifted by that
station's travel-time lag, squared, clipped and normalised, and the results
are stacked. The per-node stacks are reduced to a cumulative network
response (CNR): at each sample, the largest stack value and the node that
produced it. This is done in memory, or out of core as a fold per chunk of
nodes followed by an argmax across chunks.

Peaks of the CNR above a threshold (absolute, MAD or RMS) become detection
records named `lat_lon_depth`. Each name is decoded back to a node, and a
template cut at that node is kept only if its network coherence is strictly
above a threshold. Network coherence is the mean absolute zero-lag
correlation over all channel pairs.

Files and modules:

- `seqs.dfy`: modules `Seqs` and `Results`. Sequence helpers (sums, ranges, columns, order-preserving filters), and the `Result`/`Option` types that stand for Python exceptions.
- `grid.dfy`: module `Grid`, for `_resample_grid` and `_rm_similarlags`.
- `energy.dfy`: module `Energy`, for `_node_loop`.
- `response.dfy`: module `Response`, covering:
  - `_cum_net_resp`;
  - from `brightness`: the pool sizing, the in-memory CNR, the chunk partition, and the cross-chunk fold.
- `detect.dfy`: module `Detect`, covering:
  - `_find_detections`;
  - from `brightness`: the `realstations` list, and the decoding and lookup of node names.
- `coherence.dfy`: module `Coherence`, for `coherance` and the acceptance test in `brightness`.

Python 2 behaviour is modelled as follows:

- `/` on integers floors.
- List-comprehension variables leak into the enclosing scope.
- `round` rounds halves away from zero.
- `np.argmax` picks the first maximum.
- Each exception the modelled operations raise is an `Err`. The one
  exception the shipped path loses, that of a stacking worker, is listed
  under Left out. The kinds are:
  - `NameError` for an unbound local;
  - `IndexError`;
  - `ValueError`, for `max` of an empty sequence, `Pool(0)` and `list.index`;
  - `ZeroDivisionError`.

Collaborators the model cannot see are parameters:

- the depth parser and the polygon test (`depthOf`, `inside`);
- the RMS scale of an envelope (`rms`, assumed positive);
- `np.median`;
- `findpeaks.find_peaks2` (`findPeaks`);
- the zero-lag `normxcorr2` value (`xcorr`).

The model follows the code as written. Where the code departs from its
evident intent, the Findings model both versions:

- The dedup scan reads each node's `netdif` row off by one.
- The owner array `_cum_net_resp` returns is overwritten on every step
  (`core/bright_lights.py:281-282`), so it does not name the node that reached
  the maximum.
- With two workers the chunk partition omits nodes.
- `realstations` is extended by the characters of each station name.

The dedup test itself is the absolute value of the signed sum over stations
of the lag differences between two nodes (`core/bright_lights.py:201-204`),
the "cumulative difference in network moveout" of the docstring at
`core/bright_lights.py:177-179`.

`mem_issue = True` and `parallel = True` are hard-coded
(`core/bright_lights.py:432-434`). The in-memory reduction is modelled
because it is the reference the out-of-core reduction must agree with, but
the code as shipped always takes the out-of-core path.

## Model

| member | source | states |
|---|---|---|
| Seqs.IndicesWhereSpec | core/bright_lights.py:234 | the indices a filtering comprehension yields are exactly those whose element passes, in increasing order |
| Grid.PickColumns | core/bright_lights.py:163-166 | the re-sliced lag matrix keeps one row per station, and its column k is the input column of the k-th picked node |
| Grid.TransposedColumns | core/bright_lights.py:163-166 | reshaping the collected columns to kept × stations and transposing gives exactly the picked columns of the lag matrix |
| Grid.ResampleGrid | core/bright_lights.py:155-170 | keeps exactly the nodes strictly inside the depth window and inside the polygon, in original order; lag column k is the input column of the k-th kept node; the shape is stations × kept; the station list is unchanged |
| Grid.CutVolume | core/bright_lights.py:155-163 | the depth-and-polygon loop keeps exactly the nodes that pass the cut, in their original order, together with the lag column of each kept node |
| Grid.Columns | core/bright_lights.py:163 | selecting lag columns by node index gives one column per index, each as long as the station list, holding that node's lag for every station |
| Grid.DifRow | core/bright_lights.py:201-205 | row i of `netdif` marks node j exactly when the absolute signed moveout sum between i and j exceeds the threshold |
| Grid.Greedy | core/bright_lights.py:208-215 | the greedy scan always keeps node 0 and yields strictly increasing indices below the node count |
| Grid.RemoveSimilarLags | core/bright_lights.py:200-218 | an empty grid gives IndexError at `lags.T[0]`; otherwise the nodes and lag columns kept are exactly those the off-by-one greedy scan selects, node 0 is kept first, the shape is stations × kept, and the station list is unchanged |
| Grid.ScanNodes | core/bright_lights.py:201-215 | the `netdif` loop and the scan loop keep exactly the indices of the off-by-one greedy scan, and the nodes at those indices |
| Grid.MoveoutSum | core/bright_lights.py:201-204 | entry [i][j] of `(lags.T - lags.T[i]).sum(axis=1)`, the signed sum over stations; its properties are MoveoutSumSelf and MoveoutSumAntisymmetric |
| Grid.KeptAsWritten | core/bright_lights.py:208-215 | the indices the scan as written keeps (Greedy with the one-row shift); its properties are DedupDropsNodeOne and DedupOffByOneCounterexample |
| Grid.KeptIntended | core/bright_lights.py:208-215 | the indices the scan keeps when node i reads its own row; IntendedKeptPairwiseDistinct proves them pairwise distinguishable |
| Grid.KeptAsWrittenStep | core/bright_lights.py:212-215 | node i is appended exactly when its moveout differs from every kept node's, measured on the row of node i - 1 (the off-by-one); otherwise the kept list is unchanged |
| Grid.MoveoutSumSelf | core/bright_lights.py:201-204 | a node's moveout difference to itself is zero (the zero diagonal) |
| Grid.MoveoutSumAntisymmetric | core/bright_lights.py:201-204 | the signed moveout sum changes sign when the two nodes swap, so the absolute test gives the same answer for (i, j) and (j, i) at every threshold |
| Grid.DedupDropsNodeOne | core/bright_lights.py:201-215 | with a non-negative threshold and at least two nodes, node 1 is never kept, because its test reads node 0's duplicated row |
| Grid.IntendedKeptPairwiseDistinct | core/bright_lights.py:212-215 | with each node tested against its own row, every later kept node is distinguishable from every earlier kept node |
| Grid.DedupOffByOneCounterexample | core/bright_lights.py:201-215 | for lags [[0,5,0]] and threshold 1, the code keeps [0,2], although node 2's moveout equals node 0's; the intended scan keeps [0,1] |
| Energy.LaggedEnergyAt | core/bright_lights.py:243-244 | sample t of the lagged energy is data[t+p]² for t+p inside the trace and 0 past its end; the length is unchanged |
| Energy.LaggedEnergy | core/bright_lights.py:243-244 | the squared trace shifted forward by the pad and zero-filled, as long as the trace; LaggedEnergyAt states each sample |
| Energy.Pad | core/bright_lights.py:243 | `int(round(lag * sampling_rate))`; RoundHalfAway states its rounding |
| Energy.RoundHalfAway | core/bright_lights.py:243 | the shift is the nearest integer to lag × sampling rate, halves away from zero, and never negative for a non-negative product |
| Energy.ClipBounds | core/bright_lights.py:246 | clipping puts every sample in [lo, hi] and leaves samples already in range untouched |
| Energy.Clip | core/bright_lights.py:246 | `np.clip` elementwise, as long as its input; ClipBounds states its range |
| Energy.Envelope | core/bright_lights.py:243-246 | the lagged energy clipped to `clip_level` times its mean, as long as the trace; EnvelopeBounds states its range |
| Energy.EnvelopeBounds | core/bright_lights.py:244-246 | every sample of the clipped envelope lies in [0, clip_level × mean of the lagged energy] |
| Energy.SquaresNonNegative | core/bright_lights.py:244 | the lagged energy is non-negative |
| Energy.ClipCeilingNonNegative | core/bright_lights.py:246 | the clip ceiling clip_level × mean is non-negative for a non-negative clip level |
| Energy.Normalise | core/bright_lights.py:248-250 | normalising keeps the envelope's length |
| Energy.FirstMatchIsLeast | core/bright_lights.py:234-242 | the station match list is empty exactly when the trace's station is unknown, and otherwise starts at the lowest matching index |
| Energy.ContributionUsesFirstLag | core/bright_lights.py:236-250 | a trace of a listed station contributes its envelope, shifted by the lag of the first station entry with that name and normalised |
| Energy.Contribution | core/bright_lights.py:232-250 | a trace whose station is listed contributes a row as long as the trace, and an unlisted one contributes nothing; ContributionUsesFirstLag states the row |
| Energy.Rows | core/bright_lights.py:233-253 | there is at most one stacked row per trace, each as long as the traces |
| Energy.SumRows | core/bright_lights.py:252-253 | the stack has the traces' length |
| Energy.NodeLoop | core/bright_lights.py:233-255 | returns the elementwise sum of the contributions of the matched traces in stream order, or NameError when no trace matched (`energy` never bound) |
| Energy.RowsStep | core/bright_lights.py:247-253 | each trace appends its contribution, or nothing when it is skipped |
| Energy.StackFailsIffNoMatch | core/bright_lights.py:239-253 | the stack fails exactly when no trace belongs to a listed station |
| Energy.RowsNonNegative | core/bright_lights.py:246-250 | every stacked row is non-negative |
| Energy.StackNonNegative | core/bright_lights.py:246-253 | every sample of the node's stack is non-negative |
| Response.FirstArgMax | core/bright_lights.py:470 | `np.argmax` returns an index holding the maximum, strictly above every earlier entry (the lowest index wins ties) |
| Response.FirstArgMaxUnique | core/bright_lights.py:470 | the first maximal index is unique: any index with both properties is it |
| Response.InMemoryResponse | core/bright_lights.py:469-477 | at each sample the value is the largest node energy and the peak node is the lowest-index node reaching it; no nodes gives ValueError; empty traces give IndexError |
| Response.ChunkColumn | core/bright_lights.py:274-279 | entry k is the energy of the chunk's k-th node at the sample |
| Response.FoldMax | core/bright_lights.py:271-279 | the fold yields one value per sample |
| Response.FoldMatchesArgMax | core/bright_lights.py:274-279 | the fold's value equals the chunk's value at its first argmax (ties keep the accumulated value) |
| Response.FoldMaxBounds | core/bright_lights.py:274-279 | the fold's value bounds every node of the chunk and is attained by a node of the chunk |
| Response.FoldOwnerAsWrittenIsLastStep | core/bright_lights.py:273-282 | the owner the code returns is the last node when that node is the chunk's first argmax, and 0 otherwise |
| Response.FoldOwnerAsWritten | core/bright_lights.py:273-282 | the owner `_cum_net_resp` returns is the chunk's last node or 0, because each step replaces the whole owner array |
| Response.FoldOwnerAsWrittenInRange | core/bright_lights.py:281-282 | the owner the code returns is a valid node index |
| Response.FoldOwner | core/bright_lights.py:273-282 | the intended owner is a node of the chunk |
| Response.CumNetResp | core/bright_lights.py:260-284 | returns the elementwise fold maximum and the owners as the code computes them; an empty node list gives IndexError |
| Response.FoldOwnerCounterexample | core/bright_lights.py:276-282 | for energies [1],[5],[3] folded as one chunk, the maximum is 5 but the returned owner is node 0 (energy 1); the intended owner is node 1 |
| Response.PoolSize | core/bright_lights.py:447-451 | the pool size is the minimum of the configured cores, the node count and the CPU count |
| Response.SplitBounds | core/bright_lights.py:480-484 | the intended split has one boundary more than the number of chunks |
| Response.Chunks | core/bright_lights.py:481-484 | chunk k is the range between consecutive boundaries |
| Response.SplitBoundsValid | core/bright_lights.py:480-484 | for 1 ≤ cores ≤ nodes, the boundaries start at 0, end at the node count and strictly increase |
| Response.ChunksValid | core/bright_lights.py:480-484 | every chunk of valid boundaries is a non-empty, strictly increasing run of node indices |
| Response.ChunksPartition | core/bright_lights.py:480-484 | the chunks of valid boundaries, concatenated, are exactly 0..N−1 |
| Response.SplitNodes | core/bright_lights.py:480-484 | with one core or three and more, the folded chunks are the contiguous partition by `N / cores`; with two cores, the leaked comprehension variable makes them [0..N/2) and an empty chunk |
| Response.SplitTail | core/bright_lights.py:480-484 | whatever the loop variable left behind, the last chunk `range(ns * (i + 1), N)` completes the contiguous partition for one core or three and more, and is empty for two cores |
| Response.SplitMatchesBounds | core/bright_lights.py:480-484 | the chunks built by the loop are those of the boundary sequence |
| Response.TwoCoreSplitOmitsNodes | core/bright_lights.py:482-484 | with two cores the last node is in no chunk, so the chunks do not cover 0..N−1 |
| Response.SplitIntended | core/bright_lights.py:480-484 | the intended split has `cores` valid chunks that together are exactly 0..N−1 |
| Response.ChunkMaxima | core/bright_lights.py:494-499 | entry c is chunk c's response at the sample |
| Response.CrossChunk | core/bright_lights.py:491-501 | the combined response and its peak nodes have the trace length |
| Response.CrossChunkIsMax | core/bright_lights.py:495-501 | the combined value bounds every chunk's value and is strictly above those of lower chunks; the peak node is the winning chunk's recorded owner |
| Response.Locate | core/bright_lights.py:480-484 | every node lies in exactly one chunk range: the one returned holds it, and any chunk range that holds it is that one |
| Response.ChunkMaximum | core/bright_lights.py:494-499 | a chunk's maximum bounds the chunk and is attained inside it |
| Response.ChunkDominates | core/bright_lights.py:494-499 | every node of a chunk has an energy at most the chunk's folded maximum at each sample |
| Response.ChunkOwnerIsGlobalFirst | core/bright_lights.py:271-284 | the intended owner of the chunk holding the global first argmax is that node |
| Response.RangeOwnerIsGlobalFirst | core/bright_lights.py:271-284 | a contiguous node range holding the global first argmax is folded to that node as its owner |
| Response.FirstArgMaxOfSlice | core/bright_lights.py:470 | the first argmax of a contiguous slice holding the global first argmax is that node, shifted by the slice start |
| Response.PartitionedMatchesInMemory | core/bright_lights.py:491-501 | for every contiguous partition the winning chunk holds the global first argmax, its value is the global maximum, and its intended owner is the in-memory peak node |
| Response.FoldChunks | core/bright_lights.py:485-490 | every chunk is folded to its elementwise maximum together with its as-written owner array; an empty chunk gives IndexError |
| Response.SplitNodesInRange | core/bright_lights.py:480-484 | every index in a folded chunk is a valid node index |
| Response.SplitChunksNonEmpty | core/bright_lights.py:480-484 | with one core or three and more, no folded chunk is empty |
| Response.CombinedIsGlobalMax | core/bright_lights.py:491-501 | over a contiguous partition the combined response is the global maximum at each sample, and each peak is one of the nodes |
| Response.CombinedIsGlobalMaxAt | core/bright_lights.py:491-501 | at one sample, combining the chunk maxima yields the energy of the global first argmax, and the peak is one of the nodes |
| Response.SplitResponseIsGlobalMax | core/bright_lights.py:480-501 | over the code's own split the combined response is the global maximum at each sample |
| Response.OutOfCoreResponse | core/bright_lights.py:447-501 | a pool of size below 1 gives ValueError; size 2 gives IndexError; otherwise the response at each sample is the global maximum, and each peak is the node that the winning chunk's as-written owner array names (OutOfCoreOwner) |
| Response.OutOfCoreOwner | core/bright_lights.py:491-501 | the node index reported at a sample: the as-written owner of the chunk that wins the second argmax; it always indexes a node |
| Response.SplitPeakAt | core/bright_lights.py:491-501 | at one sample, the peak the combination reads from the as-written owners of the code's own split is the node OutOfCoreOwner names |
| Response.OutOfCorePeakCounterexample | core/bright_lights.py:470-501 | with one worker and node energies 1, 5, 3 the out-of-core branch reports node 0 while the in-memory argmax is node 1 |
| Detect.AbsAll | core/bright_lights.py:314 | elementwise absolute value |
| Detect.Threshold | core/bright_lights.py:313-319 | the threshold exists exactly for the modes MAD, abs and RMS (otherwise NameError); in abs mode it is the multiplier itself |
| Detect.ThresholdMonotone | core/bright_lights.py:313-318 | for a non-negative median and RMS, the threshold grows with the multiplier in every mode |
| Detect.Split | core/bright_lights.py:535-537 | `str.split` yields at least one part and no part contains the separator |
| Detect.SplitPrefix | core/bright_lights.py:535-537 | a separator-free prefix joins the first part of what follows |
| Detect.SplitAtSeparator | core/bright_lights.py:535-537 | a separator-free prefix followed by the separator splits off as its own part |
| Detect.NodeNameSpelled | core/bright_lights.py:327 | the template name is lat, `_`, lon, `_`, depth |
| Detect.NodeName | core/bright_lights.py:327 | `lat + '_' + lon + '_' + depth`; NodeNameSpelled and NameRoundTrip state its layout and its inverse |
| Detect.DecodeName | core/bright_lights.py:535-537 | decoding fails with IndexError exactly when the name has fewer than three parts; decoded fields hold no separator |
| Detect.NameRoundTrip | core/bright_lights.py:535-537 | decoding a node's template name gives back the node when no field contains `_` |
| Detect.NameCollision | core/bright_lights.py:535-537 | nodes whose fields contain `_` collide in name, and decoding keeps only the first three parts |
| Detect.IndexOf | core/bright_lights.py:541 | `nodes.index` returns the first position holding the node, and ValueError exactly when it is absent |
| Detect.DecodedNodeLookup | core/bright_lights.py:535-541 | looking up a decoded peak node finds an equal node at or before its own position |
| Detect.FindDetections | core/bright_lights.py:288-334 | returns one record per peak, in order. The errors come in this order: an unknown mode gives NameError; an empty response gives ValueError; peaks with a zero sampling rate give ZeroDivisionError |
| Detect.RecordFaithful | core/bright_lights.py:326-330 | a record's time times the sampling rate is the peak index; its name decodes to the peak node; its channel count is the length of `realstations` |
| Detect.Record | core/bright_lights.py:326-330 | the `DETECTION` built for one peak; RecordFaithful states each field |
| Detect.Select | core/bright_lights.py:421-422 | the stream selection is non-empty exactly when the station is in the stream |
| Detect.ContributingStations | core/bright_lights.py:419-424 | no more stations contribute than are listed |
| Detect.ContributingStationsSpec | core/bright_lights.py:420-423 | a name is among the contributing stations exactly when it is listed and present in the stream |
| Detect.Characters | core/bright_lights.py:423 | extending a list by a string adds one one-character string per character |
| Detect.CharactersOfLength | core/bright_lights.py:423 | extending by several names adds as many entries as they have characters in total |
| Detect.RealStations | core/bright_lights.py:419-424 | `realstations` is the characters of the contributing stations; an empty station list gives NameError at `del st` |
| Detect.RealStationsCounterexample | core/bright_lights.py:423 | one contributing station `WVZ` yields the list [`W`, `V`, `Z`] |
| Detect.RealStationsCountsCharacters | core/bright_lights.py:423 | the channel count recorded is the total name length of the contributing stations |
| Coherence.PairCountClosed | core/bright_lights.py:366 | the rows hold n(n−1)/2 channel pairs in total |
| Coherence.Coherance | core/bright_lights.py:349-367 | for equal-length channels the result is twice the pair total over n(n−1); no channel gives ValueError; one channel gives ZeroDivisionError |
| Coherence.RowSumBounds | core/bright_lights.py:364-365 | with every channel pair's correlation in [−1, 1], one row's scores lie between 0 and its pair count, and reach it when every channel pair scores 1 |
| Coherence.PairSumBounds | core/bright_lights.py:363-365 | with every channel pair's correlation in [−1, 1], the pair total lies between 0 and the number of pairs, and reaches it when every channel pair scores 1 |
| Coherence.CoheranceIsPairMean | core/bright_lights.py:363-366 | the coherence times the number of unordered pairs is the pair total, so it is the mean pair score |
| Coherence.MeanPairScore | core/bright_lights.py:366 | `2 * coherance / (n (n - 1))` over the pair total; CoheranceIsPairMean and CoheranceBounds state its meaning |
| Coherence.CoheranceBounds | core/bright_lights.py:363-366 | with every channel pair's correlation in [−1, 1] the coherence lies in [0, 1], and it is 1 when every pair of the template's channels correlates perfectly |
| Coherence.IdenticalChannelsCoherent | core/bright_lights.py:363-366 | a template whose channels are all the same trace has coherence 1, given only that a trace correlates perfectly with itself |
| Coherence.TemplateAccepted | core/bright_lights.py:567 | a template is accepted exactly when its coherence is strictly above the threshold; coherence errors propagate |
| Coherence.AcceptanceBoundary | core/bright_lights.py:567 | with every channel pair's correlation in [−1, 1], a threshold of 1 or more rejects the template, and a template whose channel pairs all correlate perfectly passes exactly the thresholds below 1 |

## Left out

- `_read_tt` (`core/bright_lights.py:62-123`): file globbing, CSV reading and `sys.exit`. This is ingestion plumbing.
- Scratch files (`np.save`, `np.load`, `os.remove`): per-node stacks are in-memory sequences, and a chunk's fold reads them directly.
- The multiprocessing `Pool`: `apply_async`, `get` and `join` are modelled as sequential maps. In the chunk pool a worker's exception surfaces as the caller's `Err`, as `p.get()` re-raises it (`core/bright_lights.py:489`).
- The stacking pool's results are never collected on the shipped out-of-core path (`core/bright_lights.py:453-467`). A `_node_loop` NameError (Energy.StackFailsIffNoMatch) is therefore lost there. The missing scratch file then makes `np.load` raise IOError inside `_cum_net_resp`, re-raised at line 489. OutOfCoreResponse takes the node stacks as already computed, so this IOError path is not modelled.
- The linear (non-parallel) branch at `core/bright_lights.py:438-444` is left out. `parallel = True` is hard-coded, so that branch cannot run.
- Plotting, `print` and progress output are user interface only.
- Template extraction (`PICK` construction, `_template_gen`, MSEED write and re-read, `deepcopy`, the final `set` of nodes) is an external collaborator. Only the name decode, the node lookup and the coherence test are modelled.
- Floating point is left out:
  - samples are exact reals;
  - the float16 cast, `nan_to_num` and the NaN check are not modelled;
  - `sqrt` and `median` are parameters;
  - the RMS normaliser of `_node_loop` is a parameter assumed positive. An all-zero envelope, which makes numpy divide by zero, is therefore not modelled.
- `find_peaks2` and `normxcorr2` are not part of this model. They are function parameters. FindDetections requires only that every peak index lies inside the response.
- The `coherance` padding branch (`core/bright_lights.py:350-358`) cannot run as written. Coherance requires channels of equal length instead.
- The depth field is parsed with `float(...)` and containment uses `matplotlib.Path.contains_point`. ResampleGrid takes both as parameters (`depthOf`, `inside`); a malformed depth string is not modelled.
- Station selection is exact name equality. `stream.select` wildcards are not modelled.
- Response.CumNetResp: a one-node chunk returns its owners as a float array (`np.ones(...) * node`). The model returns the node index.
- Energy.Contribution and Energy.Normalise: the normalised samples are stated through ContributionUsesFirstLag and the non-negativity lemmas. The exact RMS value is a parameter.
- Detect.ContributingStations: its own contract states only the length bound. Membership in both directions is Detect.ContributingStationsSpec.

## Findings

| source | as written | input that shows it | evidently intended | confidence | as-written member | corrected member |
|---|---|---|---|---|---|---|
| core/bright_lights.py:201-213 | the keep test for node i reads `netdif[i]`, which holds node i−1's row because node 0's row is stored twice | one station, lags [[0, 5, 0]], threshold 1: node 2 is kept although its moveout equals node 0's, and node 1 is dropped although it differs by 5 | test node i against its own row `netdif[i+1]`, so every kept pair is distinguishable | high; not executed | Grid.DedupOffByOneCounterexample | Grid.IntendedKeptPairwiseDistinct |
| core/bright_lights.py:276-282 | `indeces = updated_indeces` replaces the owners at each step with 0 or the current node | energies [1], [5], [3] folded as one chunk [0, 1, 2]: the response is 5 but the owner is node 0 | keep the previous owner where the running maximum survives (`indeces[updated_indeces==1] = i`), so the owner is the chunk's first argmax and the partitioned result matches the in-memory one | high; not executed | Response.FoldOwnerCounterexample | Response.PartitionedMatchesInMemory |
| core/bright_lights.py:480-484 | with two cores the loop is empty, and the last chunk starts at `node_splits * (i + 1)` with `i = N − 1` leaked from the comprehension at line 456 | N = 4, cores = 2: the chunks are [0, 1] and [], nodes 2 and 3 are omitted, and folding the empty chunk raises IndexError | the last chunk is `range(node_splits * (num_cores − 1), N)` | high; not executed | Response.TwoCoreSplitOmitsNodes | Response.SplitIntended |
| core/bright_lights.py:423 | `realstations += station` extends the list by the characters of the station name | one station `WVZ` present in the stream: `realstations` is [`W`, `V`, `Z`] and each detection records 3 channels | append the name (`realstations.append(station)`), giving the list of contributing stations | high; not executed | Detect.RealStationsCounterexample | Detect.ContributingStationsSpec |
