# SpaceCoMP on-board pipeline: model and proofs

LeoDOS satellites run MapReduce jobs in orbit. A coordinator assigns roles; collectors cut a
frame into tiles or a text into chunks; mappers detect fires or split words; a reducer clusters
hotspots or adds up counts. This project models that pipeline in Dafny and proves what it is for.

| module | what it holds |
|---|---|
| `UnionFind`, `Components`, `Clustering` | the union-find with path halving and union by rank, connected components as its specification, the incremental clusterer and the wildfire reducer |
| `RowMajor`, `Tiling`, `Bytes`, `TileWire` | tile layouts, extraction and reassembly, the tile message and the receiver's coordinates |
| `Windows`, `Thermal`, `Fires`, `TileDetection` | the background window and its statistics, the contextual fire test and what it means, and when running it tile by tile means the same as on the frame |
| `Stats`, `Change` | statistics, histogram percentiles, adaptive change thresholds |
| `Packet`, `Batching`, `Transport` | messages, batched records, and the receiver that counts phase ends |
| `Coordinator`, `Roles`, `Protocol`, `Runs`, `Node` | the job protocol as a state machine over all interleavings, and the mapper role that refines it |
| `Text`, `WordCount`, `Pipeline` | the word-count application, and both applications from end to end |

`Words`, `Lists` and `Reals` hold fixed-width integers, list helpers and products of reals. Classes, arrays and loops stand
where the source updates state; each method is proved against a function, and the theorems are
about that function.

The main theorems:

* **Clustering is exact** (`Clustering.SpatialClusterer.Add`, `Clusters`) and does not depend on
  the order of arrival (`Components.OrderIndependence`) or on the run of the protocol
  (`Pipeline.ClustersDoNotDependOnTheRun`).
* **The fire test is contextual**: a pixel is reported if and only if it stands out from the mean and
  deviation of the background around it (`Fires.VerdictIsFireTest`).
* **Tiling preserves detection** through layout, serialisation, parsing and the window of the fire
  test (`TileDetection.WrittenTileReportsInnerRegion`), up to the clusters of the whole frame
  (`Pipeline.TiledClustersAreFrameClusters`). The condition is exact at every stage and for the
  mapper as a whole (`Thermal.TransparentExactlyWhenBorderSuffices`, `TileWire.CoordsInvertExactly`,
  `TileDetection.MapperFaithfulExactly`); before hits are mapped back, it is the border alone
  (`TileDetection.RawTilingPreservesDetection`).
* **The phase barrier** holds at a receiver (`Transport.PhaseBarrier`) and over every run of a job
  (`Runs.ReducerBarrier`); data is conserved (`Runs.Conservation`); every run ends
  (`Runs.EveryRunEnds`), and exactly when the reducer then has finished is known
  (`Runs.ReducerAtRest`).
* **Only the job's own messages count** (`Transport.SignalOfFrame`, `OtherJobsLeaveNoTrace`), and the
  reducer hears byte for byte what the mappers send (`Pipeline.ReducerHearsMapper`).
* **A percentile has its rank** (`Stats.PercentileRank`, `PercentileNearRank`).
* **MapReduce is counting** (`Pipeline.CountsAreExact`), in a whole job if and only if every chunk
  can be mapped (`Pipeline.WordCountJob`).

Some promises do not hold of the code as it stands. The model follows the code; each failure comes
with a concrete instance or a whole family of them, and with the exact condition:

* The shipped overlap of 3 is smaller than the background radius of 5 (`Thermal.ShippedOverlapIsTooSmall`;
  exactly when: `Thermal.TransparentExactlyWhenBorderSuffices`).
* The receiver recomputes the tile offset from fields that do not determine it
  (`TileWire.ShippedOffsetMisplaces`; exactly when: `TileWire.CoordsInvertExactly`).
* `max_value` of a cluster of negative values is zero (`Components.NegativeMaximumIsLost`; exactly
  when: `Components.MaxIsComponentMax`).
* On constant data every pixel is flagged as changed (`Change.ConstantDataBreaksChebyshev`; exactly
  when: `Change.ChebyshevExactly`).
* Neither the node nor the shipped collectors announce the end of a collector
  (`Runs.SilentCollectorBlocks`; exactly when: `Runs.ReadyRunsFinish`).
* Collectors are assigned before mappers, so data can arrive early and be discarded
  (`Runs.EarlyEndStalls`; exactly when: `Runs.ReducerAtRest`).
* A chunk of more than 25 words makes the word-count map fail (`WordCount.ShippedChunksCanFail`;
  exactly when: `Pipeline.WordCountJob`).
* A tile of more than 59 pixels, such as a full one of 32 by 32, does not fit one message
  (`Pipeline.TilesOutgrowMessages`, which is exact).
* The clusterer is documented as grouping by 8-connectivity, but compares distances with a radius
  (`Clustering.UnitRadiusLeavesDiagonals`; exactly when that is the same:
  `Clustering.EightConnectedExactly`).

Where code and documentation disagree the model follows the code: `site/docs/spacecomp/roles.mdx`
and `site/docs/spacecomp/job-lifecycle.md` say that every role reports `PhaseDone` to the
coordinator, but `crates/leodos-spacecomp/src/transport.rs` sends it to the next stage; and
`crates/leodos-analysis/src/cluster.rs` describes points as adjacent at Chebyshev distance one, but
tests their Euclidean distance.

Modelling decisions: `f32` and `f64` values are exact reals, and a square root is a parameter,
required to be a nonnegative root only where the proof needs it; samples on the wire are 32-bit
patterns in the byte order of a little-endian target. Sequence numbers, retransmission and
acknowledgement are assumed to give reliable first-in first-out channels, one per pair of sender
and receiver. A receive call that has no message to return is reported as waiting. A node has at
most one role of a job. What a collector sends is a script: chunks, then its end or not. What one
call of an application's map sends is a function of the chunk it is given.

## Model

| member | source | states |
|---|---|---|
| `UnionFind.UnionFind.constructor` | crates/leodos-analysis/src/cluster.rs:110-119 | every element starts as its own root of rank zero, a valid forest |
| `UnionFind.UnionFind.Find` | crates/leodos-analysis/src/cluster.rs:121-127 | terminates, returns the representative of the element, and path halving changes no representative |
| `UnionFind.UnionFind.Union` | crates/leodos-analysis/src/cluster.rs:129-143 | exactly the two classes become one, headed by one of their two roots; every other element keeps its representative |
| `UnionFind.UnionFind.Link` | crates/leodos-analysis/src/cluster.rs:135-142 | the assignment step of a union keeps the forest, its ranks and all other classes |
| `UnionFind.HalvingKeepsRoot` | crates/leodos-analysis/src/cluster.rs:121-127 | redirecting an element to its grandparent keeps the root of every element |
| `UnionFind.HalvingStep` | crates/leodos-analysis/src/cluster.rs:122-125 | one halving step keeps the forest and all roots and climbs strictly in rank |
| `UnionFind.LinkMergesClasses` | crates/leodos-analysis/src/cluster.rs:135-142 | hanging one root under another moves exactly its class |
| `UnionFind.LinkKeepsRanksPaidFor` | crates/leodos-analysis/src/cluster.rs:135-142 | after a union by rank a root of rank k still heads at least 2^k elements |
| `UnionFind.RankIsLogarithmic` | crates/leodos-analysis/src/cluster.rs:110-143 | 2^rank is at most the number of elements, at every node of every reachable forest |
| `UnionFind.RankFitsByte` | crates/leodos-analysis/src/cluster.rs:104-143 | with 16-bit indices no rank exceeds 16, so the 8-bit increment cannot overflow |
| `UnionFind.UnionFind.NoRankOverflow` | crates/leodos-analysis/src/cluster.rs:139-141 | the rank of any element of a valid union-find is at most 16 |
| `Components.InsertionStarts` | crates/leodos-analysis/src/cluster.rs:44-49 | before the insertion loop the tags are exact for the earlier points and the new point stands alone |
| `Components.InsertionStep` | crates/leodos-analysis/src/cluster.rs:51-57 | merging the new point with a near earlier point, or not with a far one, keeps the tags exact up to that point |
| `Components.InsertionEnds` | crates/leodos-analysis/src/cluster.rs:51-59 | after the loop two points share a tag iff a chain of near points joins them |
| `Components.CountsSumToPoints` | crates/leodos-analysis/src/cluster.rs:62-84 | the counts of a faithful list of clusters add up to the number of points |
| `Components.MaxIsComponentMax` | crates/leodos-analysis/src/cluster.rs:70-72 | `max_value` is the maximum of its component iff some member is not negative (the accumulator starts at zero) |
| `Components.NegativeMaximumIsLost` | crates/leodos-analysis/src/cluster.rs:95-102 | a single point of value -1 is reported with maximum zero |
| `Components.OrderIndependence` | crates/leodos-analysis/src/cluster.rs:44-84 | any permutation of the points gives the same multiset of clusters |
| `Components.CentroidIsCentral` | crates/leodos-analysis/src/cluster.rs:76-84 | the centroid lies within every rectangle that holds the points of its cluster |
| `Components.ClusterRearranged` | crates/leodos-analysis/src/cluster.rs:62-84 | the cluster of a point does not depend on where in the order the points stand |
| `Components.FaithfulOccurrences` | crates/leodos-analysis/src/cluster.rs:62-84 | how often a cluster value is listed is fixed by the points alone |
| `Clustering.WithinIsSymmetric` | crates/leodos-analysis/src/cluster.rs:53-55 | the radius test does not depend on which of two points came first |
| `Clustering.WithinOnAxes` | crates/leodos-analysis/src/cluster.rs:52-55 | points with one coordinate in common are near iff they are at most the radius apart in the other |
| `Clustering.WithinBox` | crates/leodos-analysis/src/cluster.rs:52-55 | near points are at most the radius apart in each coordinate |
| `Clustering.WithinIsGeometric` | crates/leodos-analysis/src/cluster.rs:52-55 | nearness does not change when both points are turned and moved, or their coordinates exchanged |
| `Clustering.EightConnectedExactly` | crates/leodos-analysis/src/cluster.rs:3-4 | on whole coordinates the radius joins exactly the eight neighbours iff its square is at least two and less than four |
| `Clustering.UnitRadiusLeavesDiagonals` | crates/leodos-analysis/src/cluster.rs:3-4 | with radius one, (0, 0) and (1, 1) are not near |
| `Clustering.IsolatedStaysAlone` | crates/leodos-analysis/src/cluster.rs:44-59 | a point farther than the radius from every other one, in one coordinate or the other, is joined to none |
| `Clustering.SpatialClusterer.constructor` | crates/leodos-analysis/src/cluster.rs:36-42 | an empty clusterer of the given capacity and radius |
| `Clustering.SpatialClusterer.Add` | crates/leodos-analysis/src/cluster.rs:44-59 | fails, changing nothing, iff full; otherwise two points share a root iff a chain of added points joins them with every step within the radius; a point that stands apart keeps its own root, and points above or beside each other within the radius share one |
| `Clustering.SpatialClusterer.Compare` | crates/leodos-analysis/src/cluster.rs:52-57 | one turn of the insertion loop |
| `Clustering.SpatialClusterer.Accumulate` | crates/leodos-analysis/src/cluster.rs:63-75 | every slot holds the sums, maximum and size of the class it represents |
| `Clustering.SpatialClusterer.Clusters` | crates/leodos-analysis/src/cluster.rs:62-84 | one summary for every connected component and no other, with count, maximum and mean of its points |
| `Clustering.ListClusters` | crates/leodos-analysis/src/cluster.rs:76-84 | the scan lists exactly the nonempty slots |
| `Clustering.SlotsAreFaithful` | crates/leodos-analysis/src/cluster.rs:62-84 | one summary per nonempty slot is one summary per component |
| `Clustering.AddBatch` | apps/spacecomp_wildfire/fsw/src/lib.rs:171-181 | adds the hotspots of a batch until the clusterer is full |
| `Clustering.ReduceHotspots` | apps/spacecomp_wildfire/fsw/src/lib.rs:168-187 | the reducer lists the clusters of the first hotspots that fit, over all batches in order of arrival |
| `Clustering.InterleavingIndependence` | apps/spacecomp_wildfire/fsw/src/lib.rs:168-195 | any cutting and interleaving of the same hotspots gives the same multiset of clusters, if they fit |
| `Tiling.TilesAlong` | crates/leodos-analysis/src/tile.rs:61-65 | the rounded-up number of tiles along a side |
| `Tiling.ComputeTilesWithOverlap` | crates/leodos-analysis/src/tile.rs:91-133 | fills the output with the layout, up to its length |
| `Tiling.TileIter.constructor` | crates/leodos-analysis/src/frame.rs:257-278 | starts at the first tile of the same layout |
| `Tiling.TileIter.Next` | crates/leodos-analysis/src/frame.rs:214-252 | the division and remainder iterator yields the nested loops' layout, tile by tile, and then nothing |
| `Tiling.LayoutAt` | crates/leodos-analysis/src/tile.rs:100-131 | the tile in column c and row r stands at index r * columns + c |
| `Tiling.TilePlaces` | crates/leodos-analysis/src/tile.rs:100-131 | tile row * cols + col has its inner region at (col * tile_size, row * tile_size) |
| `Tiling.PlainTilePlaces` | crates/leodos-analysis/src/tile.rs:36-55 | the same for plain tiles, which are cut at the frame and carry their column and row |
| `Tiling.InnerRegionsPartition` | crates/leodos-analysis/src/frame.rs:214-252 | every pixel lies in the inner region of exactly one tile |
| `Tiling.TilesAreWellCut` | crates/leodos-analysis/src/frame.rs:222-242 | every tile stays inside the frame, around its inner region, with the overlap clipped at the frame only |
| `Tiling.ComputeTiles` | crates/leodos-analysis/src/tile.rs:27-58 | fills the output with the plain layout, up to its length |
| `Tiling.TileCount` | crates/leodos-analysis/src/tile.rs:61-65 | the length of the plain layout |
| `Tiling.ExtractTile` | crates/leodos-analysis/src/tile.rs:71-83 | copies the pixels of the tile row by row and leaves the rest of the output alone |
| `Tiling.InsertTile` | crates/leodos-analysis/src/tile.rs:161-173 | writes exactly the pixels of the tile |
| `Tiling.ExtractInsertPixel` | crates/leodos-analysis/src/tile.rs:71-83 | extracting and inserting a tile restores its own pixels and disturbs no other |
| `Tiling.ReassembledPixel` | crates/leodos-analysis/src/tile.rs:161-173 | after any list of tiles, covered pixels come from the source and the others from the canvas |
| `Tiling.PlainTilesPartition` | crates/leodos-analysis/src/tile.rs:27-58 | every pixel lies in exactly one plain tile |
| `Tiling.ReassemblyRestoresImage` | crates/leodos-analysis/src/tile.rs:27-83 | extracting every tile and inserting it into any image of the same size reproduces the source |
| `Bytes.ByteOfNumber` | crates/leodos-analysis/src/frame.rs:105 | byte i of a number is n / 256^i mod 256, from the front in little-endian fields and from the back in network order |
| `TileWire.HeaderLayout` | crates/leodos-analysis/src/frame.rs:31-45 | the 32 header bytes are position, size, inner size, latitude, longitude, resolution and time of the tile, in this order and with these widths |
| `TileWire.SampleLayout` | crates/leodos-analysis/src/frame.rs:110-119 | behind the header stand the samples of the first band, then those of the second, four bytes each, least significant first |
| `TileWire.HeaderRoundTrip` | crates/leodos-analysis/src/frame.rs:93-108 | the ten header fields come back from their 32 bytes |
| `TileWire.WriteBand` | crates/leodos-analysis/src/frame.rs:80-88 | writes the rows of one band, and nothing else, from the given offset on |
| `TileWire.WriteTo` | crates/leodos-analysis/src/frame.rs:92-121 | writes header and both bands to the front of the buffer and returns their length |
| `TileWire.TileRoundTrip` | crates/leodos-analysis/src/frame.rs:126-136 | parsing what was written gives the same header and the tile's samples of both bands, whatever follows, when the dimensions fit 16 bits |
| `TileWire.SampleFromFrame` | crates/leodos-analysis/src/frame.rs:80-88 | sample row * width + x of a band is frame sample (y + row) * frame_width + x0 + x |
| `TileWire.HeaderDescribes` | crates/leodos-analysis/src/frame.rs:93-104 | the written header holds the geometry of the tile if the frame fits 16 bits |
| `TileWire.OffsetExactX` | crates/leodos-analysis/src/frame.rs:177-183 | the recomputed x offset is the sender's iff the tile has no right border or frame_x is at most the overlap |
| `TileWire.OffsetExactY` | crates/leodos-analysis/src/frame.rs:185-191 | the same for y |
| `TileWire.CoordsInvertExactly` | crates/leodos-analysis/src/frame.rs:165-175 | tile pixels map back to their frame positions, and border pixels to none, iff both offsets are right |
| `TileWire.ShippedOffsetMisplaces` | apps/spacecomp_wildfire/fsw/src/lib.rs:43-44 | with tiles of 32 and overlap 3 the second tile of any frame wider than 64 is mapped back wrongly |
| `Windows.SumWindow` | crates/leodos-analysis/src/thermal.rs:119-142 | the nested loops take exactly the background samples the window visits, in order, whatever is added up |
| `Windows.ComputeBackground` | crates/leodos-analysis/src/thermal.rs:105-168 | number, means and standard deviations of t4 and t4 - t11 over the background samples among the other pixels at most `bg_radius` columns and rows away, in whatever order they are listed; zeros if there are none |
| `Windows.WindowSurrounds` | crates/leodos-analysis/src/thermal.rs:114-126 | the window visits exactly the pixels of the scene at most `bg_radius` columns and rows away, each once, without the centre |
| `Windows.BackgroundIsStatistics` | crates/leodos-analysis/src/thermal.rs:105-168 | the four running sums give count, means and deviations of the background samples around the pixel |
| `Fires.VerdictIsFireTest` | crates/leodos-analysis/src/thermal.rs:212-264 | a pixel is reported iff it passes the two absolute tests and, with enough background, lies above the background means of t4 and t4 - t11 by more than the thresholds and three standard deviations; every reported field in the same terms |
| `Fires.DetectsFires` | crates/leodos-analysis/src/thermal.rs:212-264 | the raw detector lists a hit iff its pixel is such a fire and its fields are those |
| `Fires.ConfidenceIsAFraction` | crates/leodos-analysis/src/thermal.rs:29-31 | confidence is above zero and at most one, whatever the thresholds |
| `Thermal.TileWindow` | crates/leodos-analysis/src/thermal.rs:114-118 | the window of a tile pixel visits frame samples of a rectangle clipped to the tile |
| `Thermal.TilingPreservesVerdict` | crates/leodos-analysis/src/thermal.rs:212-264 | with enough border, the fire test of an inner tile pixel gives the frame's verdict, all fields included |
| `Thermal.CutTileChangesVerdict` | crates/leodos-analysis/src/thermal.rs:105-168 | without it, at any thresholds that let anything be background, some frame gets different fields from tile and frame |
| `Thermal.TransparentExactlyWhenBorderSuffices` | crates/leodos-analysis/src/thermal.rs:105-168 | for every choice of thresholds: the tile agrees with every frame iff the overlap is at least `bg_radius`, or nothing was cut off, or nothing can be background |
| `Thermal.ShippedOverlapIsTooSmall` | apps/spacecomp_wildfire/fsw/src/lib.rs:106-109 | at the application's thresholds, tile size and overlap, in any frame wider than 35 pixels: a frame on which the first tile reports a fire that the frame does not have |
| `TileDetection.RawHitIsVerdict` | crates/leodos-analysis/src/thermal.rs:212-264 | the raw detector reports exactly what its pixels yield, coordinates cut to 16 bits, for scenes of any size |
| `TileDetection.TileReportsInnerRegion` | crates/leodos-analysis/src/thermal.rs:188-210 | with enough border and a known offset a tile reports exactly the frame's hits of its inner region, at frame positions, for any detector |
| `TileDetection.MapperFaithfulExactly` | crates/leodos-analysis/src/thermal.rs:188-264 | the mapper reports exactly the frame's hits of the inner region for every frame iff its offset is right and its border suffices for its thresholds |
| `TileDetection.WrongOffsetMisreports` | crates/leodos-analysis/src/frame.rs:165-191 | with a wrong offset a fire at the corner of the inner region is misplaced or lost |
| `TileDetection.CutTileMisreports` | crates/leodos-analysis/src/thermal.rs:105-168 | with too little border a hit is reported with the wrong fields |
| `TileDetection.RawTilingPreservesDetection` | crates/leodos-analysis/src/thermal.rs:212-264 | for every tile with enough border, whatever its offset: a raw hit on an inner pixel is the frame's raw hit there, and each pixel is inner to one tile |
| `TileDetection.TilingPreservesDetection` | crates/leodos-analysis/src/thermal.rs:188-264 | a hit of the frame is reported by the one tile responsible for its pixel, with the same fields, and nothing else is reported, for every tile with enough border and a known offset |
| `TileDetection.TilesReportTheFrame` | crates/leodos-analysis/src/thermal.rs:188-264 | all tiles together report a permutation of the frame's hits, when every tile has enough border and a known offset |
| `TileDetection.WrittenTileReportsInnerRegion` | crates/leodos-analysis/src/thermal.rs:188-210 | the same as TileReportsInnerRegion through serialisation and parsing |
| `Stats.Compute` | crates/leodos-analysis/src/stats.rs:19-60 | least and greatest value, mean and population variance; all zero for no data |
| `Stats.SpreadAbout` | crates/leodos-analysis/src/stats.rs:44-57 | squared deviations from any value c add up to n * (variance + (c - mean)^2): mean and variance are where they are least |
| `Stats.VarianceFromSums` | crates/leodos-analysis/src/thermal.rs:157-160 | the variance is the mean square less the square of the mean |
| `Stats.BinEdges` | crates/leodos-analysis/src/stats.rs:73-74 | a value goes to bin b or a later one iff it is at least min + b * bin width; the outer bins take what lies outside |
| `Stats.BinOfOffset` | crates/leodos-analysis/src/stats.rs:73-74 | the scaled offset of a value within range lies between its bin number and the next |
| `Stats.NearCentre` | crates/leodos-analysis/src/stats.rs:73-74 | a value within range lies within half a bin width of the centre of its bin |
| `Stats.Histogram` | crates/leodos-analysis/src/stats.rs:63-77 | every bin holds the number of values that fall into it; all zero for no range |
| `Stats.BinsSumToLength` | crates/leodos-analysis/src/stats.rs:63-77 | bin counts sum to the data length |
| `Stats.PercentileFromHistogram` | crates/leodos-analysis/src/stats.rs:82-104 | the percentile of the whole histogram (its rank: PercentileRank, PercentileNearRank, PercentileOutside), and the minimum without data |
| `Stats.ScanBins` | crates/leodos-analysis/src/stats.rs:97-103 | the cumulative scan finds that bin |
| `Stats.PercentileIsClose` | crates/leodos-analysis/src/stats.rs:82-104 | for a target of at least one, the target-th smallest value is within half a bin width of the result |
| `Stats.PercentileRank` | crates/leodos-analysis/src/stats.rs:82-104 | for p in [0, 1] and n values, the result is the centre of a bin with fewer than p * n values before it and more than p * n - 1 up to its end; the first bin if p * n < 1 |
| `Stats.PercentileNearRank` | crates/leodos-analysis/src/stats.rs:82-104 | and it is within half a bin width of the m-th smallest value, m being the whole part of p * n, if that is at least one |
| `Stats.PercentileOutside` | crates/leodos-analysis/src/stats.rs:82-104 | below zero the centre of the first bin, and the maximum if p * n is at least n + 1 |
| `Stats.TargetWithinTotal` | crates/leodos-analysis/src/stats.rs:92 | a percentile up to one never asks for more values than there are |
| `Stats.PercentileMonotone` | crates/leodos-analysis/src/stats.rs:82-104 | the result never falls when the percentile rises |
| `Change.ClassifyFixed` | crates/leodos-analysis/src/change.rs:53-69 | in the common prefix a difference is an increase iff it reaches the upper threshold, otherwise a decrease iff it reaches the lower; the rest is untouched |
| `Change.ClassifyAdaptive` | crates/leodos-analysis/src/change.rs:76-88 | the same with thresholds k standard deviations around the mean |
| `Change.Chebyshev` | crates/leodos-analysis/src/change.rs:76-88 | of any prefix, the flagged samples counted k^2 times are at most all samples, if these vary |
| `Change.ChebyshevExactly` | crates/leodos-analysis/src/change.rs:76-88 | flagged samples times k^2 is at most the number of samples iff the variance is positive or k is at most one |
| `Change.AdaptiveClassesObeyChebyshev` | crates/leodos-analysis/src/change.rs:76-88 | the bound for the classes that the loop writes |
| `Change.ConstantDataBreaksChebyshev` | crates/leodos-analysis/src/change.rs:76-88 | two equal samples with k = 2 are both flagged, and the bound fails |
| `Packet.FrameLayout` | crates/leodos-spacecomp/src/packet.rs:217-240 | a message is its operation code, an unused byte, the job number in network order, and the payload |
| `Packet.ParseFrame` | crates/leodos-spacecomp/src/packet.rs:135-203 | a framed message parses back to its operation, job and payload |
| `Packet.CodeIsExact` | crates/leodos-spacecomp/src/packet.rs:59-73 | a byte stands for an operation iff it is that operation's code |
| `Batching.ChunksOfJoined` | crates/leodos-spacecomp/src/reader.rs:27-35 | cutting joined records of one size gives the records back |
| `Batching.ChunksIgnoreTail` | crates/leodos-spacecomp/src/reader.rs:27-35 | an incomplete record at the end is ignored |
| `Batching.RecordIter.constructor` | crates/leodos-spacecomp/src/reader.rs:15-21 | starts before the first record |
| `Batching.RecordIter.Next` | crates/leodos-spacecomp/src/reader.rs:27-35 | returns the records one by one and then nothing, ignoring an incomplete one at the end |
| `Batching.SpaceCompTx.Post` | crates/leodos-spacecomp/src/packet.rs:193-203 | sends the framed message, or refuses it iff it does not fit the 512-byte buffer |
| `Batching.SpaceCompTx.Send` | crates/leodos-spacecomp/src/transport.rs:126-136 | sends one data chunk, or refuses it iff it is longer than 508 bytes |
| `Batching.SpaceCompTx.Done` | crates/leodos-spacecomp/src/transport.rs:138-148 | always sends one phase end without payload |
| `Batching.BufWriter.constructor` | crates/leodos-spacecomp/src/bufwriter.rs:25-32 | an empty writer |
| `Batching.BufWriter.Write` | crates/leodos-spacecomp/src/bufwriter.rs:38-47 | appends the record; after a success there is room for another; fails iff the full buffer exceeds one message |
| `Batching.BufWriter.Flush` | crates/leodos-spacecomp/src/bufwriter.rs:49-57 | sends the buffered records as one message and empties the buffer, or keeps them iff they exceed one message |
| `Batching.BatchRoundTrip` | crates/leodos-spacecomp/src/transport.rs:69-78 | a receiver with room for a batch reads exactly its records |
| `Batching.OthersHoldNoRecords` | crates/leodos-spacecomp/src/transport.rs:186-199 | a message of another job or another kind holds no records for the receiver |
| `Batching.BatchingIsLossless` | crates/leodos-spacecomp/src/bufwriter.rs:34-57 | for every flush pattern the receiver reads the written records, in order |
| `Batching.FlushedWriterIsLossless` | crates/leodos-spacecomp/src/bufwriter.rs:49-57 | whoever receives the messages of a flushed writer reads exactly the records written |
| `Transport.SpaceCompRx.constructor` | crates/leodos-spacecomp/src/transport.rs:164-175 | no end counted yet |
| `Transport.SpaceCompRx.Recv` | crates/leodos-spacecomp/src/transport.rs:179-218 | one call: skips foreign, unknown and end-of-stream events, copies a chunk cut to the buffer, counts ends, and reports the end of the phase with the last one |
| `Transport.SignalOfFrame` | crates/leodos-spacecomp/src/transport.rs:184-201 | a framed message is a chunk iff it is a DataChunk of the job, an end iff it is a PhaseDone of the job, and nothing otherwise |
| `Transport.SignalOfBytes` | crates/leodos-spacecomp/src/transport.rs:184-201 | the same for arbitrary bytes: nothing iff too short, of another job number, or of another code |
| `Transport.NoiseIsIgnored` | crates/leodos-spacecomp/src/transport.rs:184-208 | what the calls return depends only on the failures and the messages of the job |
| `Transport.OtherJobsLeaveNoTrace` | crates/leodos-spacecomp/src/transport.rs:186-188 | a message of another job can be inserted anywhere in a stream without changing what the calls return |
| `Transport.CarriedAreRead` | crates/leodos-spacecomp/src/transport.rs:184-208 | messages framed by the sender are read back as they were sent, in order, whatever noise lies between them |
| `Transport.CallByCall` | crates/leodos-spacecomp/src/transport.rs:179-218 | repeated calls return the chunks of the stream one by one and stop as the last call does |
| `Transport.WeighBySource` | crates/leodos-spacecomp/src/transport.rs:179-218 | any additive measure of a stream is the sum over its sources, whatever the interleaving |
| `Transport.Barrier` | crates/leodos-spacecomp/src/transport.rs:209-216 | as many ends as expected have come iff every upstream node's script has arrived completely, end included |
| `Transport.EndsComeLast` | crates/leodos-spacecomp/src/transport.rs:209-216 | nothing of the job arrives after the last expected end |
| `Transport.CallsReadEverything` | crates/leodos-spacecomp/src/transport.rs:179-218 | the calls return all chunks of the job and then end or wait |
| `Transport.PhaseBarrier` | crates/leodos-spacecomp/src/transport.rs:179-218 | the calls return exactly the job's chunks, once and in order, and report the end iff all upstream nodes have delivered everything |
| `Transport.EndIsFinal` | crates/leodos-spacecomp/src/transport.rs:180-182 | after the end every later call reports the end, whatever arrives |
| `Transport.FailureEndsCalls` | crates/leodos-spacecomp/src/transport.rs:203-205 | a failure of the endpoint ends the calls of a waiting receiver, and nothing behind it is read |
| `Coordinator.Run` | crates/leodos-spacecomp/src/coordinator.rs:52-106 | one assignment per collector with its mapper and partition, one per mapper with the number of collectors assigned to it, one for the reducer with the number of mappers; the byte conversions lose nothing |
| `Coordinator.CountFeeders` | crates/leodos-spacecomp/src/coordinator.rs:72 | the filter count is the number of collectors assigned to the mapper |
| `Coordinator.ExpectedIsFeeders` | crates/leodos-spacecomp/src/coordinator.rs:72 | the count handed out is the number of ends the mapper's barrier needs |
| `Coordinator.MapperIsTold` | crates/leodos-spacecomp/src/coordinator.rs:71-88 | the message to a mapper carries that number |
| `Coordinator.SharesSumToTotal` | crates/leodos-spacecomp/src/coordinator.rs:71-76 | weights of collectors, grouped by mapper, add up to the total |
| `Coordinator.CountsSumToCollectors` | crates/leodos-spacecomp/src/coordinator.rs:71-76 | the counts handed to the mappers add up to the number of collectors |
| `Roles.ConsumeKeeps` | crates/leodos-spacecomp/src/node.rs:278-288 | an active role that takes the next message of a channel keeps its invariant and finishes iff its count is complete |
| `Roles.DiscardKeeps` | crates/leodos-spacecomp/src/node.rs:316 | a message that reaches a node outside its role is discarded and only the channel notices |
| `Roles.RoleBarrier` | crates/leodos-spacecomp/src/transport.rs:209-216 | a role has completed iff it has taken, from every upstream node, all that was not discarded, and its end |
| `Roles.RoleIsReceiver` | crates/leodos-spacecomp/src/transport.rs:179-218 | a receiver over the role's messages, among any others, returns all their chunks and ends iff the role has completed |
| `Roles.RoleAtRest` | crates/leodos-spacecomp/src/node.rs:278-290 | when nothing more can arrive, a role that has not quit has completed iff it heard every end |
| `Protocol.EveryoneCounts` | crates/leodos-spacecomp/src/coordinator.rs:91-94 | the reducer waits for as many ends as there are mappers |
| `Protocol.InitInv` | crates/leodos-spacecomp/src/node.rs:195-197 | the invariant holds before the first assignment |
| `Protocol.StepKeepsInv` | crates/leodos-spacecomp/src/node.rs:231-316 | every step of coordinator, collectors, mappers and reducer keeps the invariant |
| `Protocol.MessagesDoNotWait` | crates/leodos-spacecomp/src/node.rs:278-316 | a sent message can be delivered whatever its receiver does; only an active role takes it, otherwise it is lost |
| `Protocol.MappedKeeps` | crates/leodos-spacecomp/src/node.rs:278-289 | a mapper sends the results of what it took, stops at the first failure, and announces its end in either case |
| `Runs.RunKeepsInv` | crates/leodos-spacecomp/src/node.rs:195-322 | the invariant holds in every state of every run |
| `Runs.RolesFollowAssignments` | crates/leodos-spacecomp/src/node.rs:231-316 | in every run, no role starts before the coordinator has sent its assignment |
| `Runs.MapperBarrier` | crates/leodos-spacecomp/src/node.rs:278-290 | a mapper that finished without a failure has taken, from each collector, all that was not discarded, and its end |
| `Runs.ReducerBarrier` | crates/leodos-spacecomp/src/node.rs:308-314 | when the reducer has finished, every mapper has, and the reducer has taken all each mapper sent after the discarded beginning, in order and once |
| `Runs.LogSucceeds` | crates/leodos-spacecomp/src/node.rs:283-285 | a mapper takes nothing its collectors did not send |
| `Runs.Conservation` | crates/leodos-spacecomp/src/node.rs:231-315 | in a finished run without early messages, any measure the map carries over is the same at the reducer as at the collectors |
| `Runs.Shortfall` | crates/leodos-spacecomp/src/node.rs:283-289 | when a map has failed on a message of positive weight the reducer receives less than the collectors sent |
| `Runs.ReadyRunsLoseNothing` | crates/leodos-spacecomp/src/node.rs:316 | if every collector starts after its mapper and every mapper after the reducer, nothing is discarded before a role starts |
| `Runs.ReadyStepExists` | crates/leodos-spacecomp/src/node.rs:195-322 | a run that has started every role in time can go on doing so until it comes to rest |
| `Runs.ReadyRunExists` | crates/leodos-spacecomp/src/node.rs:195-322 | every job has a run that starts every role in time and comes to rest |
| `Runs.WorkFalls` | crates/leodos-spacecomp/src/node.rs:231-315 | every step before the reducer lowers the remaining work by one |
| `Runs.BacklogFalls` | crates/leodos-spacecomp/src/node.rs:308-314 | every delivery to the reducer lowers the backlog by one and leaves the work alone |
| `Runs.RunLength` | crates/leodos-spacecomp/src/node.rs:195-322 | the length of a run is the work done plus the messages handed to the reducer |
| `Runs.EveryRunEnds` | crates/leodos-spacecomp/src/node.rs:195-322 | there is no infinite run |
| `Runs.ReducerAtRest` | crates/leodos-spacecomp/src/node.rs:231-316 | in a state without a possible step the reducer has finished iff every mapper failed or heard all its collectors' ends, and its own end was not discarded |
| `Runs.NoDeadlock` | crates/leodos-spacecomp/src/node.rs:231-316 | if nothing came early and every collector announces its end, the job comes to rest only with the reducer finished |
| `Runs.SilentCollectorBlocks` | crates/leodos-spacecomp/src/node.rs:252 | one collector that does not announce its end keeps the reducer from finishing in every run, if the map never fails; the node does not announce it |
| `Runs.ReadyRunsFinish` | crates/leodos-spacecomp/src/node.rs:231-316 | a run that starts every role in time and cannot go on has finished the reducer iff every collector announces its end (when the map never fails) |
| `Runs.EarlyEndStalls` | crates/leodos-spacecomp/src/coordinator.rs:52-106 | the order of assignments admits a run in which a collector's end is discarded by its mapper and the job stalls |
| `Node.RunMapper` | crates/leodos-spacecomp/src/node.rs:270-290 | sends the results of mapping the job's chunks up to a failure, and its end, failure or not, unless it still waits |
| `Node.MapNext` | crates/leodos-spacecomp/src/node.rs:278-288 | one turn of the loop: what was sent and what is still owed add up to what the whole stream demands |
| `Node.MapSeesChunk` | crates/leodos-spacecomp/src/node.rs:277-284 | a chunk reaches the map whole up to 8192 bytes, and cut to that length beyond |
| `Node.SendAll` | crates/leodos-spacecomp/src/transport.rs:126-136 | sends chunks that fit, each as one message, in order |
| `Node.MapperRefines` | crates/leodos-spacecomp/src/node.rs:270-290 | over what the state machine's mapper has taken, the role sends message for message what the state machine says |
| `Text.SplitIsExact` | apps/spacecomp_wordcount/fsw/src/lib.rs:98-101 | the split finds every word of 1 to 16 bytes once for each place where it stands between spaces |
| `Text.SeparatedWords` | apps/spacecomp_wordcount/fsw/src/lib.rs:98 | at a space, line feed or tab the words of a text are those before it followed by those behind it |
| `Text.LoneWord` | apps/spacecomp_wordcount/fsw/src/lib.rs:98-101 | a text without these bytes is one word if it has 1 to 16 bytes, and none otherwise |
| `Text.WordsHoldNoSeparator` | apps/spacecomp_wordcount/fsw/src/lib.rs:98-101 | every word has 1 to 16 bytes and holds none of the three |
| `WordCount.RecordLayout` | apps/spacecomp_wordcount/fsw/src/lib.rs:30-47 | a record is the word, zeros up to sixteen bytes, and the count in network order |
| `WordCount.RecordRoundTrip` | apps/spacecomp_wordcount/fsw/src/lib.rs:37-47 | a record gives back its padded word and its count |
| `WordCount.PaddedIsInjective` | apps/spacecomp_wordcount/fsw/src/lib.rs:38-41 | words without a zero byte keep apart when padded |
| `WordCount.Map` | apps/spacecomp_wordcount/fsw/src/lib.rs:95-106 | sends the words of a chunk as one message of records, or fails and sends nothing iff there are more than 25 |
| `WordCount.WriteWords` | apps/spacecomp_wordcount/fsw/src/lib.rs:98-103 | the records stay in the 4096-byte buffer until it holds 204 |
| `WordCount.ShippedChunksCanFail` | apps/spacecomp_wordcount/fsw/src/lib.rs:62 | chunks of at most 256 bytes on which the map fails |
| `WordCount.CountBatch` | apps/spacecomp_wordcount/fsw/src/lib.rs:114-121 | counts the whole records of one received batch |
| `WordCount.CountNext` | apps/spacecomp_wordcount/fsw/src/lib.rs:112-122 | one turn of the loop: the chunk a call returns, cut to the buffer, is counted; a call without a chunk ends the loop and tells why |
| `WordCount.CountAll` | apps/spacecomp_wordcount/fsw/src/lib.rs:112-122 | counts the records of every chunk until a call returns none |
| `WordCount.Report` | apps/spacecomp_wordcount/fsw/src/lib.rs:124-128 | sends one record per key in as many messages as needed; never fails |
| `WordCount.Reduce` | apps/spacecomp_wordcount/fsw/src/lib.rs:108-130 | reports the counts of all records received, in messages that fit, once the phase has ended or failed |
| `WordCount.TallyIsSound` | apps/spacecomp_wordcount/fsw/src/lib.rs:116-120 | at most 64 keys; each count is the sum of its records modulo 2^32; a missing key found the map full |
| `WordCount.TallyIsComplete` | apps/spacecomp_wordcount/fsw/src/lib.rs:109 | no key is lost iff at most 64 different ones occur |
| `WordCount.KeysKeepTheirPlace` | apps/spacecomp_wordcount/fsw/src/lib.rs:116-126 | keys are listed in the order in which they first came |
| `WordCount.FewKeysCountExactly` | apps/spacecomp_wordcount/fsw/src/lib.rs:109-121 | with at most 64 keys and no wrap-around every count is the sum of its records |
| `Pipeline.ReducerReads` | crates/leodos-spacecomp/src/transport.rs:179-218 | the reducer's calls return what the state machine's reducer has taken and end iff it has finished |
| `Pipeline.ReducerHearsMapper` | crates/leodos-spacecomp/src/node.rs:270-315 | byte for byte, what the reducer hears of a mapper is what the mapper role sends for the messages it has taken |
| `Pipeline.MapTransforms` | apps/spacecomp_wordcount/fsw/src/lib.rs:95-106 | the map carries the number of times a padded word occurs to the reducer |
| `Pipeline.TextShareIsOccurrences` | apps/spacecomp_wordcount/fsw/src/lib.rs:98-102 | in a text without zero bytes a key is found as often as its word stands there |
| `Pipeline.SeenIsVocabulary` | apps/spacecomp_wordcount/fsw/src/lib.rs:112-121 | the reducer sees no key that is not in the collectors' data |
| `Pipeline.CountsAreExact` | apps/spacecomp_wordcount/fsw/src/lib.rs:95-130 | in every finished run without early messages, if at most 64 words occur and totals fit 32 bits, each word's count is the number of places where it stands in the collectors' chunks |
| `Pipeline.FailingChunkFallsShort` | apps/spacecomp_wordcount/fsw/src/lib.rs:95-106 | if the map fails on some chunk, some word is counted less often than it stands in the text |
| `Pipeline.WordCountJob` | apps/spacecomp_wordcount/fsw/src/lib.rs:86-131 | a run from the first assignment to rest, with roles started in time and collectors that announce their end, ends; and all counts are exact iff no chunk has more than 25 words |
| `Pipeline.ResultIsRead` | apps/spacecomp_wordcount/fsw/src/lib.rs:124-128 | whoever receives the result reads one record for each key |
| `Pipeline.RunsDeliverTheSame` | apps/spacecomp_wildfire/fsw/src/lib.rs:168-181 | any two finished runs of a job hand the reducer the same multiset of hotspots |
| `Pipeline.ClustersDoNotDependOnTheRun` | apps/spacecomp_wildfire/fsw/src/lib.rs:168-195 | any two finished runs report the same multiset of clusters, if the hotspots fit |
| `Pipeline.TiledClustersAreFrameClusters` | apps/spacecomp_wildfire/fsw/src/lib.rs:155-187 | clustering what all tiles report, in any order, gives the clusters of the frame's own hits, when every tile has enough border and a known offset |
| `Pipeline.TilesOutgrowMessages` | apps/spacecomp_wildfire/fsw/src/lib.rs:144-148 | a tile can be sent as one chunk iff it has at most 59 pixels |

## Left out

- The SRSPP transport, inter-satellite routing, gossip and the torus: only reliable ordered channels are assumed of them.
- Planning and the assignment solvers: a plan is any assignment within range, for at most 64 satellites.
- Sockets, dashboards, command-line tools, the cFS bindings and the simulator: wrappers around libraries that are not modelled.
- Float rounding, NaN and infinities: reals are exact, and data is within the finite range of `f32`.
- Geolocation of hotspots: `detect_fire` reports frame positions here.
- `cloud.rs`, `indices.rs`, `calibration.rs` and `geo.rs`: formulas per pixel.
- `difference`, `ratio` and `extract_changes` in `change.rs`: one pass over a slice each.
- `partition_text` and the sample text: the theorems hold for any collected chunks.
- Alignment demands of `ref_from_bytes`: parsing is by content only.
- `recv_with` and `recv_batch`: a call of `recv` followed by a closure or a record iterator.
- Machine-size overflow of `usize` sums and products.
- Addresses inside assignment payloads and the payload bytes: assignments are values.
- The dispatch buffer and application start-up: a node waits for its assignment and discards data until it comes.
- A node with several roles of one job, and several jobs at a node: one role at a time, other jobs' messages only as noise on the stream.
- A map that remembers earlier chunks: the map is a function of its chunk, as in both applications.
- Clustering.SpatialClusterer.Clusters: does not model the overflow of the 16-bit count beyond 65535 points, nor capacities beyond 65536, which 16-bit indices cannot address.
- Clustering.SpatialClusterer.Accumulate: does not model the overflow of the 16-bit count beyond 65535 points.
- Stats.Histogram: does not model counters beyond 2^32 - 1.
- Stats.PercentileFromHistogram: does not model a total beyond 2^32 - 1.
- Stats.ScanBins: does not model a total beyond 2^32 - 1.
- TileDetection.TilingPreservesDetection: the tile's offset must be known; MapperFaithfulExactly says that nothing less will do, and RawTilingPreservesDetection holds without it.
- TileDetection.RawTilingPreservesDetection: does not model frames of 65536 or more pixels on a side, whose reported coordinates wrap; RawHitIsVerdict does.
- TileWire.WriteTo: the buffer is large enough; the source panics otherwise.
- Tiling.ExtractTile: the tile lies inside the image and the output is long enough; the source panics otherwise.
- Tiling.InsertTile: the tile lies inside the image and the data is long enough; the source panics otherwise.
- Batching.BufWriter.Write: not called again after a failed write, and the buffer holds at least one record; the source panics otherwise.
- WordCount.Reduce: a count that exceeds 32 bits wraps around, as in a release build.
- Node.MapNext: what the map sends fits a message, as for RunMapper.
- Node.RunMapper: what the map sends fits a message; an application that is refused a chunk reports it as a failed map.
