# SmartGridToolbox, modelled in Dafny

SmartGridToolbox is a C++ library for simulating electricity networks.
It builds a network of busses, branches, generators and ZIP loads from
MATPOWER, IEEE Common Data Format or YAML input. It solves the network's
power flow by Newton-Raphson, and it steps a discrete-event simulation of
components that depend on one another. Its repository also carries the
PowerTools++ optimisation layer (variables, quadratic functions,
constraints, a node/arc graph) and a browser client.

This project models that core in Dafny, one module per source file:

- Value-level code (codecs, parsers, unit arithmetic, time series,
  per-unit conversion) is datatypes and functions.
- Code that updates objects in place is classes with `modifies` clauses.
  These are the component collections, the network, the transformer and
  tap changer, the simulation loop, the dependency graph, the PowerTools
  model, variable, quadratic and graph, and the microgrid battery and
  controller.
- Array algorithms keep their arrays: the triplet merge sort, the
  Jacobian assembly, and the slack fallback of the MATPOWER plugin.

Each operation is proved against a specification function or a stated
invariant, and lemmas relate operations to one another: round trips,
preserved invariants, and agreement between a version as written and its
corrected form.

Some operations are parameters of the model, since they are
floating-point numerics or library calls: transcendental functions,
matrix inverses, text-to-number conversion and the sparse linear solve.

Functions that only compute a value are stated by the lemmas about them,
and the table names those lemmas:

- PowerFlow.BusTypeFromString by PowerFlow.BusTypeRoundTrip.
- PowerFlow.PhaseFromString by PowerFlow.PhaseRoundTrip.
- PowerFlow.CanonicalPhases by PowerFlow.CanonicalPhasesSpec.
- The phase-set tests PowerFlow.Phases.HasPhase and IsSubsetOf by PowerFlow.MaskSetOps.
- ToolboxPowerFlow.StrToBusType by ToolboxPowerFlow.BusTypeStrRoundTrip.
- The per-unit conversions of Network by Network.PerUnitRoundTrips, Network.Y2PuIsScaling and Network.Z2PuIsScaling.
- Units.Pow by Units.PowIsRepeatedMul; Units.Mul and Units.Div by Units.MulGroup.
- Quantities.Times and Quantities.Over by Quantities.TimesOverRoundTrip.
- SimulationLoop.NextState and its two steps by SimulationLoop.ContingentStepSpec, ScheduledStepSpec and NextStatePreserves.
- The node ranges of PowerFlowModel by PowerFlowModel.IndexesInRanges.
- Heartbeat.NextBeat by Heartbeat.NextBeatSpec.
- ComplexText.ToString by ComplexText.RoundTrip.
- Microgrid.InternalPowerOf by Microgrid.InternalPowerLosses.

## Model

| member | source | states |
|---|---|---|
| Heatmap.VertexBufferAt | experimental/SgtClient/components/dexter-heatmap/dexter-heatmap.js:321-335 | the vertex array holding m vertices has 3m entries and vertex v occupies entries 3v..3v+2 with its (x, y, 0) |
| Heatmap.CornerVertex | experimental/SgtClient/components/dexter-heatmap/dexter-heatmap.js:312-328 | corner (i, j) is vertex i*n+j, placed at (gridCoord(i), gridCoord(j), 0); corner coordinates lie in [-1, 1], with -1 at i = 0 and 1 at i = n-1 |
| Heatmap.GridCoordRange | experimental/SgtClient/components/dexter-heatmap/dexter-heatmap.js:313-315 | gridCoord maps [0, n-1] onto [-1, 1], endpoints to endpoints and the open interval strictly inside |
| Heatmap.CenterVertex | experimental/SgtClient/components/dexter-heatmap/dexter-heatmap.js:317-335 | centre (i, j) is vertex n^2 + i(n-1) + j, below the vertex count, placed at (gridCoord(i+0.5), gridCoord(j+0.5), 0) strictly inside the square |
| Heatmap.CellTriangles | experimental/SgtClient/components/dexter-heatmap/dexter-heatmap.js:338-361 | the t-th triangle of cell (i, j) is the centre followed by fan corners t and t+1 of (i,j), (i,j+1), (i+1,j+1), (i+1,j), (i,j); every index is below the vertex count |
| Heatmap.TriangleBufferCell | experimental/SgtClient/components/dexter-heatmap/dexter-heatmap.js:347-360 | after m cells the index array has 12m entries and cell c (row-major) occupies entries 12c..12c+11 |
| Heatmap.TriangleBufferInRange | experimental/SgtClient/components/dexter-heatmap/dexter-heatmap.js:338-361 | every entry of the index array names an existing vertex |
| Heatmap.MeshCounts | experimental/SgtClient/components/dexter-heatmap/dexter-heatmap.js:21-28 | the finished mesh has 3(n^2 + (n-1)^2) vertex coordinates and 3 * 4(n-1)^2 indices, each below n^2 + (n-1)^2 |
| Heatmap.ColorXGrid | experimental/SgtClient/components/dexter-heatmap/dexter-heatmap.js:40-47 | the six control abscissae are 0, 0.2, ..., 1.0 |
| Heatmap.BlendBounds | experimental/SgtClient/components/dexter-heatmap/dexter-heatmap.js:390-401 | inside a bracket x0 <= x <= x1 every blended channel stays within [0, 255] |
| Heatmap.ColorAt | experimental/SgtClient/components/dexter-heatmap/dexter-heatmap.js:367-404 | the first control colour for x <= 0, the last for x >= 1, otherwise the channel blend ((x1-x)c0 + (x-x0)c1)/(x1-x0) over a bracket x0 <= x < x1; a control abscissa returns its own colour; every channel is in [0, 255] |
| Heatmap.Weight | experimental/SgtClient/components/dexter-heatmap/dexter-heatmap.js:183-188 | the Cauchy weight 1/(1 + (dx/s)^2 + (dy/s)^2) lies in (0, 1] and equals 1 exactly at zero displacement |
| Heatmap.WeightedSumBounds | experimental/SgtClient/components/dexter-heatmap/dexter-heatmap.js:146-156 | with sample values in [lo, hi], the accumulated value lies between lo and hi times the total weight, and the total weight is positive when there is a sample |
| Heatmap.WeightsAsSeq | experimental/SgtClient/components/dexter-heatmap/dexter-heatmap.js:146-156 | the loop's totals are the sum of the positive per-sample weights and their dot product with the sample values |
| Heatmap.VertexValueBounds | experimental/SgtClient/components/dexter-heatmap/dexter-heatmap.js:142-160 | with no samples a vertex's value is 0; otherwise it is a weighted mean and lies between the smallest and largest sample value |
| Heatmap.SingleSampleValue | experimental/SgtClient/components/dexter-heatmap/dexter-heatmap.js:142-160 | with a single sample every vertex's value is that sample's value |
| Heatmap.NoSampleAlpha | experimental/SgtClient/components/dexter-heatmap/dexter-heatmap.js:142-161 | with no samples every vertex gets value 0 and opacity 1 - exp(0) |
| Heatmap.BuildVertices | experimental/SgtClient/components/dexter-heatmap/dexter-heatmap.js:321-335 | the two loop nests produce exactly the vertex array of n^2 corners then (n-1)^2 centres, 3 entries per vertex |
| Heatmap.CornerRow | experimental/SgtClient/components/dexter-heatmap/dexter-heatmap.js:322-328 | one row of the corner loop appends corners (i, 0..n-1) |
| Heatmap.CenterRow | experimental/SgtClient/components/dexter-heatmap/dexter-heatmap.js:329-335 | one row of the centre loop appends centres (i, 0..n-2) |
| Heatmap.BuildTriangles | experimental/SgtClient/components/dexter-heatmap/dexter-heatmap.js:347-360 | the cell loops produce the row-major index array of 4(n-1)^2 triangles, every index naming a vertex |
| Heatmap.CellRow | experimental/SgtClient/components/dexter-heatmap/dexter-heatmap.js:349-359 | one row of the cell loop appends the twelve indices of cells (i, 0..n-2) |
| Heatmap.HeatmapLayer.constructor | experimental/SgtClient/components/dexter-heatmap/dexter-heatmap.js:30-33 | the view rectangle starts as [-1, 1] x [-1, 1] with empty buffers |
| Heatmap.HeatmapLayer.SetViewRect | experimental/SgtClient/components/dexter-heatmap/dexter-heatmap.js:120-125 | sets the four view bounds and nothing else |
| Heatmap.HeatmapLayer.SetViewRectToCanvas | experimental/SgtClient/components/dexter-heatmap/dexter-heatmap.js:127-132 | the view becomes [0, width] x [0, height] and nothing else changes |
| Heatmap.HeatmapLayer.InitVertices | experimental/SgtClient/components/dexter-heatmap/dexter-heatmap.js:312-336 | the vertex field becomes the full mesh vertex array; other fields are unchanged |
| Heatmap.HeatmapLayer.InitTriangles | experimental/SgtClient/components/dexter-heatmap/dexter-heatmap.js:338-361 | the index field becomes the full mesh index array; other fields are unchanged |
| Heatmap.HeatmapLayer.SetData | experimental/SgtClient/components/dexter-heatmap/dexter-heatmap.js:134-165 | stores the samples and sets, for every vertex, the weighted-mean value and the opacity 1 - exp(-W^2) of its alpha weight W; mesh and view are unchanged |
| Heatmap.ShadeVertex | experimental/SgtClient/components/dexter-heatmap/dexter-heatmap.js:139-161 | the per-vertex accumulation loop yields the normalised value (0 when the total weight is 0) and the opacity |
| WebglDemo.VertexBufferAt | experimental/SgtClient/webgl-tests/webgl-demo.js:50-59 | the vertex array of m vertices has 3m entries and vertex v occupies entries 3v..3v+2 |
| WebglDemo.VertexPlacement | experimental/SgtClient/webgl-tests/webgl-demo.js:50-59 | vertex idx(i, j) = i*N+j is below N^2 and placed at (2i/(N-1)-1, 2j/(N-1)-1, 0); coordinates span [-1, 1] |
| WebglDemo.IndexBufferAt | experimental/SgtClient/webgl-tests/webgl-demo.js:69-79 | after m cells the index array has 6m entries and cell c occupies entries 6c..6c+5 |
| WebglDemo.CellQuad | experimental/SgtClient/webgl-tests/webgl-demo.js:73-78 | cell (i, j) contributes exactly [idx(i,j), idx(i+1,j), idx(i+1,j+1)] and [idx(i,j), idx(i,j+1), idx(i+1,j+1)] |
| WebglDemo.IndexBufferInRange | experimental/SgtClient/webgl-tests/webgl-demo.js:69-82 | every index is below N^2, which fits the 16-bit index buffer |
| WebglDemo.InitBuffers | experimental/SgtClient/webgl-tests/webgl-demo.js:49-83 | the buffers are the N^2-vertex array, its colours, and an index array of exactly nInd = 3 * 2(N-1)^2 entries all below N^2 |
| WebglDemo.GridVertices | experimental/SgtClient/webgl-tests/webgl-demo.js:50-59 | the vertex loop nest fills the N^2 vertex positions and their colours |
| WebglDemo.VertexRow | experimental/SgtClient/webgl-tests/webgl-demo.js:54-58 | one row of the vertex loop appends the N vertices (i, 0..N-1) and their colours |
| WebglDemo.VertexAt | experimental/SgtClient/webgl-tests/webgl-demo.js:55-57 | one vertex step appends (x, y, 0) and the colour (0.5(x+1), 0.5(y+1), random, 1) |
| WebglDemo.GridIndices | experimental/SgtClient/webgl-tests/webgl-demo.js:69-79 | the cell loops produce the whole index array of nInd entries, all below N^2 |
| WebglDemo.IndexRow | experimental/SgtClient/webgl-tests/webgl-demo.js:74-78 | one row of the cell loop appends the six indices of each cell (i, 0..N-2) |
| SgtClientB.Clamp | experimental/SgtClientB/index.js:756-758 | max(lo, min(x, hi)): in [lo, hi] whenever lo <= hi, x itself inside the range, lo below it and hi above it |
| SgtClientB.HeatParamRange | experimental/SgtClientB/index.js:604 | with VLow < VHigh the parameter (clamp(V, VLow, VHigh) - VLow) / VRange exists and lies in [0, 1], 0 at or below VLow and 1 at or above VHigh |
| SgtClientB.ReportProgress | experimental/SgtClientB/index.js:675-680 | the progress is the larger of the iteration and time percentages |
| SgtClientB.ProgressInRange | experimental/SgtClientB/index.js:675-680 | for iterations and time within their budgets the progress lies in [0, 100], and is 100 when no iterations remain |
| SgtClientB.ZipSize | experimental/SgtClientB/index.js:751-753 | the ZIP marker size is 20 + 200 zipSz abs(PTot): at least 20, and exactly 20 iff PTot = 0 |
| SgtClientB.ZipSizeSymmetric | experimental/SgtClientB/index.js:751-753 | the marker size does not depend on the sign of the load's power |
| SgtClientB.GraphRoundTripReflectsY | experimental/SgtClientB/index.js:685-697 | as written, graphToDatum(datumToGraph(p)) restores x but maps y to 2 pos0.y - y |
| SgtClientB.GraphRoundTripCounterexample | experimental/SgtClientB/index.js:692-697 | the point (0, 1) with pos0 = (0, 0) and scale 1 does not come back from the round trip |
| SgtClientB.GraphRoundTrip | experimental/SgtClientB/index.js:685-697 | with the y flip undone, graph and datum coordinates are exact inverses in both directions (scale factor non-zero) |
| SgtClientB.LatLongRoundTrip | experimental/SgtClientB/index.js:699-714 | latLongToDatum and datumToLatLong are exact inverses in both directions for non-zero circumferences |
| SgtClientB.SortSpec | experimental/SgtClientB/index.js:766 | the ascending sort yields a sorted permutation of its input |
| SgtClientB.MedianSpec | experimental/SgtClientB/index.js:760-769 | median is 0 for no values and x for [x]; for an odd count it is one of the values, and it lies between the smallest and largest value |
| SgtClientB.MedianCounterexample | experimental/SgtClientB/index.js:765-769 | as written, [1, 2, 3] gives 1.5 and [1, 2, 3, 4] gives 3, where the medians are 2 and 2.5 |
| SgtClientB.UnlistedSpec | experimental/SgtClientB/index.js:777-784 | the unlisted keys are exactly the object's own keys not among the given keys |
| SgtClientB.SortedKeys | experimental/SgtClientB/index.js:776-797 | the result is the given keys in order followed by the object's own keys not in that list, in enumeration order; it holds exactly the keys of either |
| SgtClientB.VoltageWindow.constructor | experimental/SgtClientB/index.js:639-661 | after reading the sliders VLow <= VHigh and VRange = VHigh - VLow, with the window read from the sliders in thousandths |
| SgtClientB.VoltageWindow.SyncVLow | experimental/SgtClientB/index.js:639-649 | reads both sliders, pulls VLow down to VHigh (writing the low slider back) when above it, and keeps VLow <= VHigh with VRange = VHigh - VLow |
| SgtClientB.VoltageWindow.SyncVHigh | experimental/SgtClientB/index.js:651-661 | reads both sliders, pulls VHigh up to VLow (writing the high slider back) when below it, and keeps VLow <= VHigh with VRange = VHigh - VLow |
| SolverNr.MergeRunsSpec | src/solver_nr.cc:81-112 | merging two strictly ordered runs fails exactly when they share a (row, col) key; otherwise the result is strictly ordered by column then row and is a permutation of the two runs |
| SolverNr.SortRunSpec | src/solver_nr.cc:51-117 | the merge sort fails exactly when two entries share both row and column; otherwise it yields a permutation of its input ordered by column, then row |
| SolverNr.SortRunSorted | src/solver_nr.cc:59-114 | a successful sort is strictly ordered and has the multiset of its input |
| SolverNr.SortRunFails | src/solver_nr.cc:84-99 | sorting fails exactly when the input holds a duplicate (row, col) key |
| SolverNr.MergeHeads | src/solver_nr.cc:81-103 | the do-while takes the smaller head by (col, row) until a run empties, throwing on equal keys and, for an empty left half, after comparing the entry with itself |
| SolverNr.MergeTails | src/solver_nr.cc:106-111 | copying the rest of the unfinished run completes the merge in the work array |
| SolverNr.Merge | src/solver_nr.cc:77-114 | merging a[lo..mid) and a[mid..hi) succeeds iff the merge of the two runs does (never for an empty left half); on success a[lo..hi) becomes the merged run, the rest of the array is untouched, and on failure nothing changes |
| SolverNr.MergeSort | src/solver_nr.cc:51-117 | merge_sort on a segment: length 0 is a no-op, length 1 fails as written, otherwise it succeeds iff there is no duplicate key and leaves the segment sorted by (col, row); entries outside the segment are untouched |
| SolverNr.SortHalves | src/solver_nr.cc:70-75 | the left half is sorted, then the right half, each only when longer than one entry |
| SolverNr.SortPart | src/solver_nr.cc:71-75 | sorting a half that is recursed into only when longer than one entry gives the sorted half or reports its duplicate |
| SolverNr.PowerUpdateSlotsSpec | src/solver_nr.cc:340-405 | for a phase mask with at least one of A, B, C, jindex maps to (jindex, position of the jindex-th present phase in A, B, C order); an empty mask is the "scheduled power update element failed" error |
| SolverNr.VoltageSlotSpec | src/solver_nr.cc:937-1003 | the column switch maps kindex to the position of the kindex-th present phase; an empty mask is an error |
| SolverNr.SlotsAgree | src/solver_nr.cc:340-405 | the row and column switches map the same index to the same phase position |
| SolverNr.DiagUpdateLength | src/solver_nr.cc:1825-1934 | Y_diag_update holds exactly 4 times the summed sizes of the non-PV buses |
| SolverNr.BusUpdateLength | src/solver_nr.cc:1868-1934 | a PV bus contributes no entries and any other bus four per phase |
| SolverNr.DiagUpdatePhase | src/solver_nr.cc:1868-1934 | phase j of bus i occupies the four entries starting at 4(size of earlier non-PV buses + j) |
| SolverNr.SwingBusPattern | src/solver_nr.cc:1870-1898 | a swing bus phase contributes (r,r) = 1e10, (r,r+s) = 1e10, (r+s,r) = 1e10 and (r+s,r+s) = -1e10 with r = 2 Matrix_Loc + j and s the bus size |
| SolverNr.BusUpdateInBlock | src/solver_nr.cc:1868-1934 | every entry a bus contributes lies in its own 2 size x 2 size diagonal block |
| SolverNr.CountDiagUpdate | src/solver_nr.cc:1825-1831 | the counting loop yields the summed sizes of the non-PV buses |
| SolverNr.FillBus | src/solver_nr.cc:1870-1933 | writing one bus appends exactly its four entries per phase |
| SolverNr.FillDiagStep | src/solver_nr.cc:1868-1934 | one bus step of the assembly loop extends the filled prefix by that bus's entries |
| SolverNr.BuildDiagUpdate | src/solver_nr.cc:1825-1934 | the counted size and the filled array equal the specification of Y_diag_update |
| SolverNr.AssembleAmatrix | src/solver_nr.cc:1937-2014 | an empty A matrix is reported exactly when all three parts are empty (the source returns 0 with bad_computations false); a duplicate key is reported exactly when one exists; otherwise A is the strictly (col, row)-ordered permutation of off-diagonal, fixed and updated entries |
| SolverNr.CopyAll | src/solver_nr.cc:1977-1999 | the three copy loops place the off-diagonal, fixed and updated entries one after the other |
| SolverNr.CopyAndSort | src/solver_nr.cc:2001-2014 | sorting the copied entries succeeds iff the sort specification does and yields its result |
| SolverNr.ColumnStartsSpec | src/solver_nr.cc:2185-2198 | the column pointers are strictly increasing and record exactly the positions where the column index rises |
| SolverNr.ColumnStartsCover | src/solver_nr.cc:2185-2198 | for entries sorted by column that cover every column from 0, pointer c is the position of column c's first entry |
| SolverNr.CompressColumns | src/solver_nr.cc:2179-2199 | rows_LU and a_LU copy the rows and values, cols_LU starts with the column starts and cols_LU[n] = nnz |
| SolverNr.CopyRowsValues | src/solver_nr.cc:2179-2184 | rows_LU[i] and a_LU[i] are the row and value of entry i |
| SolverNr.FillColumnPointers | src/solver_nr.cc:2185-2199 | cols_LU[0] = 0, each later pointer is the first position of a new column, cols_LU[n] = nnz and pointers past the last column are untouched |
| PowerFlowModel.RangesPartition | SgtCore/PowerFlowModel.h:228-247 | the Sl, Pq and Pv ranges follow one another and are pairwise disjoint, their union is selAllFromAll = [0, nSl+nPq+nPv), and selPqPvFromAll is exactly the union of the Pq and Pv ranges |
| PowerFlowModel.IndexesInRanges | SgtCore/PowerFlowModel.h:215-239 | iSl(i), iPq(i) and iPv(i) lie in their own ranges exactly when i is below nSl, nPq and nPv |
| PowerFlowModel.NewPfBus | SgtCore/PowerFlowModel.cc:8-31 | the bus keeps its arguments, and with every per-phase vector of phases.size() entries it has one node per phase, node i having phaseIdx i and that phase's values |
| PowerFlowModel.NewPfBranch | SgtCore/PowerFlowModel.cc:46-57 | the branch keeps its ids, phases and Y, has nPhase = phases0.size() and a 2 nPhase square Y |
| PowerFlowModel.InsertIdSpec | SgtCore/PowerFlowModel.cc:59-65 | the bus map's key order stays sorted and holds the old ids plus the new one |
| PowerFlowModel.NodesOfTypeSpec | SgtCore/PowerFlowModel.cc:90-114 | the nodes collected for a bus type are exactly the nodes of the buses of that type |
| PowerFlowModel.NodesOfTypeDistinct | SgtCore/PowerFlowModel.cc:90-114 | no node is collected twice |
| PowerFlowModel.OrderedNodesSpec | SgtCore/PowerFlowModel.cc:120-125 | the ordered node list holds every node of every supported bus exactly once, and nothing else |
| PowerFlowModel.OrderedNodesRanges | SgtCore/PowerFlowModel.cc:116-125 | the node list has nSl+nPq+nPv entries, slack nodes first, then PQ, then PV, so node iSl(i)/iPq(i)/iPv(i) is the i-th node of that type |
| PowerFlowModel.BranchPairsExactlyOnce | SgtCore/PowerFlowModel.cc:156-181 | over one branch every (i, k) pair of terms is stamped exactly once: each diagonal once and each off-diagonal pair in both directions |
| PowerFlowModel.StampPairsAt | SgtCore/PowerFlowModel.cc:157-181 | after stamping, entry (a, b) of Y is its old value plus the sum of the branch terms mapped onto (a, b) |
| PowerFlowModel.StampBranchesSymmetric | SgtCore/PowerFlowModel.cc:139-182 | stamping branches whose Y matrices are symmetric keeps the assembled Y symmetric |
| PowerFlowModel.StampShuntsSymmetric | SgtCore/PowerFlowModel.cc:185-188 | adding the shunt terms to the diagonal keeps Y symmetric |
| PowerFlowModel.AssembledYSymmetric | SgtCore/PowerFlowModel.cc:139-188 | when every branch Y is symmetric, the assembled Y is symmetric |
| PowerFlowModel.StampRow | SgtCore/PowerFlowModel.cc:169-180 | the inner loop stamps (i, k) and (k, i) for every k > i |
| PowerFlowModel.StampBranch | SgtCore/PowerFlowModel.cc:157-181 | the term loop stamps every pair of one branch |
| PowerFlowModel.StampTerm | SgtCore/PowerFlowModel.cc:159-180 | one term i adds its diagonal once and then its row of off-diagonal pairs |
| PowerFlowModel.PositionOf | SgtCore/PowerFlowModel.cc:162 | phaseIndex finds the phase's position in the bus's phase vector, or nothing when the phase is absent |
| PowerFlowModel.TermKey | SgtCore/PowerFlowModel.cc:159-163 | term i of a branch is phase i mod nPhase of bus i / nPhase, a node of that bus |
| PowerFlowModel.AllNodesListed | SgtCore/PowerFlowModel.cc:120-125 | with every bus type supported, every node of every bus is listed exactly once |
| PowerFlowModel.PartitionNodes | SgtCore/PowerFlowModel.cc:86-114 | the bus loop reports the first unsupported bus type, and otherwise collects the slack, PQ and PV nodes in bus order |
| PowerFlowModel.NumberNodes | SgtCore/PowerFlowModel.cc:127-131 | each node's idx_ becomes its position in the node list; other entries are untouched |
| PowerFlowModel.ResolveTerms | SgtCore/PowerFlowModel.cc:159-176 | each branch term resolves to the index of its node |
| PowerFlowModel.StampNext | SgtCore/PowerFlowModel.cc:139-182 | one branch iteration makes the stamp of that branch's admittance at the node indices idx_ gives its terminals (each below the node count) and adds it onto Y |
| PowerFlowModel.StampAllBranches | SgtCore/PowerFlowModel.cc:139-182 | the branch loop reports the first bus id no bus has; otherwise Y is the sum of every branch's admittance stamped at the nodes idx_ gives its terminals |
| PowerFlowModel.StampKnown | SgtCore/PowerFlowModel.cc:153-181 | a branch with both buses present is stamped at the nodes idx_ gives its terminals, appended and added onto Y |
| PowerFlowModel.AddShunts | SgtCore/PowerFlowModel.cc:185-188 | each node's YZip is added to its own diagonal entry |
| PowerFlowModel.NodeVectors | SgtCore/PowerFlowModel.cc:192-203 | V, S and IZip are the nodes' values, copied in node order |
| PowerFlowModel.FirstUnsupportedSpec | SgtCore/PowerFlowModel.cc:106-109 | the fatal "unsupported bus type" is raised exactly when some bus has a type other than SL, PQ or PV, naming the first such type |
| PowerFlowModel.FirstUnknownSpec | SgtCore/PowerFlowModel.cc:141-152 | the fatal "non-existent bus" is raised exactly when some branch names an unknown bus, naming the first such id (bus 0 checked before bus 1) |
| PowerFlowModel.Assemble | SgtCore/PowerFlowModel.cc:81-207 | validate on values: an unsupported type or an unknown bus is fatal; otherwise the nodes are ordered slack, PQ, PV with counts nSl, nPq, nPv, each idx_ is the node's position, Y is the sum of every branch's admittance stamped at the nodes idx_ gives its terminals plus the shunts, and V, S, IZip are copied in node order |
| PowerFlowModel.PowerFlowModel.constructor | SgtCore/PowerFlowModel.h:256-258 | a new model has no buses, no branches and no nodes |
| PowerFlowModel.PowerFlowModel.AddBus | SgtCore/PowerFlowModel.cc:59-65 | the bus under id is replaced by (or becomes) the new bus, every other bus is unchanged, and an existing id keeps its place in the key order |
| PowerFlowModel.PowerFlowModel.AddBranch | SgtCore/PowerFlowModel.cc:67-72 | the new branch is appended; buses are unchanged |
| PowerFlowModel.PowerFlowModel.Reset | SgtCore/PowerFlowModel.cc:74-79 | buses and branches become empty |
| PowerFlowModel.PowerFlowModel.Validate | SgtCore/PowerFlowModel.cc:81-207 | validate on the model's own state: on success the nodes, counts, idx_, Y (branches stamped at the nodes idx_ gives) and V, S, IZip of Assemble installed in the fields; a fatal outcome leaves them unchanged |
| PowerFlowNrSolver.ZeroMat | SgtCore/PowerFlowNrSolver.cc:83 | a fresh block has the requested shape and every entry zero |
| PowerFlowNrSolver.Neg | SgtCore/PowerFlowNrSolver.cc:66-72 | negating a block keeps its row shape and flips the sign of every entry |
| PowerFlowNrSolver.Sub | SgtCore/PowerFlowNrSolver.cc:383-384 | the sub-matrix taken by a row and a column selector has one row per row index and one column per column index, holding the selected entries |
| PowerFlowNrSolver.NewJacobian | SgtCore/PowerFlowNrSolver.cc:77-101 | the Jacobian has 4 x 5 blocks, PQ rows for block rows 0-1 and PV rows for 2-3, PQ columns for block columns 0-1 and PV columns for 2-4, all zero |
| PowerFlowNrSolver.FSelPermutation | SgtCore/PowerFlowNrSolver.cc:348-358 | the four mismatch selectors IrPq, IiPq, IrPv, IiPv together number the rows 0 .. 2(nPq+nPv)-1 exactly once each, with RowOwner as the inverse map |
| PowerFlowNrSolver.XSelPermutation | SgtCore/PowerFlowNrSolver.cc:360-370 | the four unknown selectors VrPq, ViPq, ViPv, QPv together number the columns exactly once each, with ColOwner as the inverse map |
| PowerFlowNrSolver.SelectorsDisjoint | SgtCore/PowerFlowNrSolver.cc:348-370 | two selector entries name the same row (or column) if and only if they are the same selector and the same position |
| PowerFlowNrSolver.InitJcBlockIsMinusY | SgtCore/PowerFlowNrSolver.cc:66-72 | the four real blocks -G, B, -B, -G act on (Vr, Vi) exactly as multiplication by -(G + jB) acts on V |
| PowerFlowNrSolver.InitJc | SgtCore/PowerFlowNrSolver.cc:379-436 | initJc fills the PQ-PQ, PQ-PV, PV-PQ and PV-PV quadrants of Jc from -Y restricted to those node sets, leaves the Q columns alone, and empties a quadrant whose node set is empty |
| PowerFlowNrSolver.InitJcQuadrant | SgtCore/PowerFlowNrSolver.cc:381-386 | one quadrant of Jc is the real form of -Y over the selected rows and columns |
| PowerFlowNrSolver.PlaceQuadrants | SgtCore/PowerFlowNrSolver.cc:379-436 | the four quadrants land in their block positions and the Q column blocks are untouched |
| PowerFlowNrSolver.JcBlockIsMinusY | SgtCore/PowerFlowNrSolver.cc:379-386 | every 2 x 2 real entry of a Jc quadrant acts on a voltage as -Y of the selected node pair does |
| PowerFlowNrSolver.SetDiagIdempotent | SgtCore/PowerFlowNrSolver.cc:513-539 | writing the same diagonal into a block twice is the same as writing it once |
| PowerFlowNrSolver.Diagonal | SgtCore/PowerFlowNrSolver.cc:511-553 | updateJ writes a diagonal exactly into the PQ-PQ and PV-PV blocks (and the PV Q columns), one entry per node of that kind |
| PowerFlowNrSolver.UpdateJ | SgtCore/PowerFlowNrSolver.cc:492-554 | after updateJ every block is its start block (the PV Vi columns reset to Jc when there are PV nodes) with the PQ, PV and Q-column diagonals recomputed from V, P, Q and the fixed PV magnitudes |
| PowerFlowNrSolver.AssembleJ | SgtCore/PowerFlowNrSolver.cc:492-554 | the reset block set, the PQ and PV diagonals and the Q columns put together give exactly the updated Jacobian |
| PowerFlowNrSolver.ResetPvColumns | SgtCore/PowerFlowNrSolver.cc:501-508 | when there are PV nodes the four PV Vi column blocks are copied from Jc, every other block is kept |
| PowerFlowNrSolver.PqDiagonals | SgtCore/PowerFlowNrSolver.cc:513-529 | the PQ loop writes the four PQ diagonals computed from P, Q, Vr, Vi and |V|^2 of each PQ node |
| PowerFlowNrSolver.PvDiagonals | SgtCore/PowerFlowNrSolver.cc:532-539 | the PV loop writes the four PV diagonals P/M2 and Q/M2 with the fixed PV magnitude |
| PowerFlowNrSolver.QPvDiagonals | SgtCore/PowerFlowNrSolver.cc:543-553 | the PV Q columns are diagonal, holding Vi/M2 and -Vr/M2 of each PV node |
| PowerFlowNrSolver.UpdateJIdempotent | SgtCore/PowerFlowNrSolver.cc:492-554 | running updateJ again on its own result with the same inputs gives the same Jacobian |
| PowerFlowNrSolver.UpdateJForgetsViPvChanges | SgtCore/PowerFlowNrSolver.cc:501-508 | whatever modifyForPv did to the PV Vi columns of J in the previous iteration is erased by the next updateJ |
| PowerFlowNrSolver.AddAtPositions | SgtCore/PowerFlowNrSolver.cc:611-620 | adding one block row at distinct column positions adds each value at its own position and leaves every other entry of the row unchanged |
| PowerFlowNrSolver.PlaceBlock | SgtCore/PowerFlowNrSolver.cc:604-621 | scattering one block adds entry (r, c) at (sl1(r), sl2(c)) and leaves every row outside sl1 unchanged |
| PowerFlowNrSolver.PlaceStepAt | SgtCore/PowerFlowNrSolver.cc:611-620 | after a block is scattered, a position gains the block's entry exactly when its row and column belong to that block |
| PowerFlowNrSolver.AllEntriesLand | SgtCore/PowerFlowNrSolver.cc:599-623 | every entry (r, c) of block [ib][KbInd[kb]] appears in the assembled matrix at (FSel(ib)(r), XSel(kb)(c)) |
| PowerFlowNrSolver.PlacedAll | SgtCore/PowerFlowNrSolver.cc:599-623 | when all blocks are placed, each entry of the assembled matrix is the one block entry its row and column owners name |
| PowerFlowNrSolver.NrSolver.constructor | SgtCore/PowerFlowNrSolver.h:230-237 | a new solver has no PQ or PV nodes and empty selectors |
| PowerFlowNrSolver.NrSolver.Init | SgtCore/PowerFlowNrSolver.cc:335-375 | init sizes the eight selectors for the model's PQ and PV counts and fills them with the interleaved Ir/Ii and Vr/Vi (Q/Vi for PV) positions |
| PowerFlowNrSolver.NrSolver.CalcJMatrix | SgtCore/PowerFlowNrSolver.cc:590-623 | the assembled matrix is square of size 2(nPq+nPv); each of its entries is exactly the block entry its row and column owners select (nothing is summed), and every block entry lands once, the VrPv column block being skipped |
| PowerFlowNrSolver.NrSolver.PlaceBlockAt | SgtCore/PowerFlowNrSolver.cc:604-621 | scattering block (ib, kb) extends the placed region by that block in the loop's order |
| PowerFlowNrSolver.Iterate | SgtCore/PowerFlowNrSolver.cc:156-264 | the loop stops at the first iteration whose error is within 1e-8 (success), or whose sparse solve fails, or after 20 iterations; every earlier iteration had a larger error and a successful solve |
| PowerFlowNrSolver.IterateConverged | SgtCore/PowerFlowNrSolver.cc:156-178 | the success flag is true exactly when some iteration before the 20th reached the tolerance with every earlier solve succeeding |
| PowerFlowNrSolver.SetSlackPower | SgtCore/PowerFlowNrSolver.cc:286-299 | the slack entries of S are replaced by the recomputed slack power and all other entries are kept |
| PowerFlowNrSolver.FinishAsWritten | SgtCore/PowerFlowNrSolver.cc:266-310 | as written, every node ends with the last iterate's voltage and power whether or not the iteration succeeded |
| PowerFlowNrSolver.Finish | SgtCore/PowerFlowNrSolver.cc:266-310 | on failure every node's voltage and power are zero; on success they are the converged iterate's, with slack power recomputed |
| PowerFlowNrSolver.SolveProblem | SgtCore/PowerFlowNrSolver.cc:103-329 | solveProblem returns whether the iteration converged; on failure all nodes are zeroed, on success the nodes hold the iterate at which the error reached the tolerance |
| PowerFlowNrSolver.SolveProblemAsWritten | SgtCore/PowerFlowNrSolver.cc:103-329 | as written, the nodes keep the iterate the loop stopped in (the 20th, or the one whose solve failed) even on failure |
| PowerFlowNrSolver.FailureKeepsIterate | SgtCore/PowerFlowNrSolver.cc:266-310 | on a failed solve whose last iterate has a nonzero voltage, the as-written and intended node voltages differ |
| PowerFlow.LastMatchSpec | SgtCore/PowerFlow.cc:49-61 | the from_string scan returns the last table entry whose name equals the string, or BAD when none does |
| PowerFlow.BusTypeRoundTrip | SgtCore/PowerFlow.cc:27-61 | from_string inverts to_string on SL, PQ and PV; "NA" (absent from the scan table) reads back as BAD; any other result names the string exactly |
| PowerFlow.PhaseBitsDistinct | SgtCore/PowerFlow.h:26-38 | distinct phases have distinct mask bits |
| PowerFlow.AllPhasesOrder | SgtCore/PowerFlow.cc:12-24 | the canonical phase table lists each phase at its order position, with BAD last at position 9 |
| PowerFlow.PhaseUnionMask | SgtCore/PowerFlow.h:90 | the mask of Phase a OR Phase b holds exactly a and b |
| PowerFlow.PresentSpec | SgtCore/PowerFlow.cc:178-192 | the phases rebuild collects among the first k table entries are in strictly increasing table order and are exactly those whose bit is in the mask |
| PowerFlow.CanonicalPhasesSpec | SgtCore/PowerFlow.cc:178-192 | the phase vector holds exactly the non-BAD phases whose bit is set, in canonical order |
| PowerFlow.JoinNamesSpec | SgtCore/PowerFlow.cc:167-176 | the joined names of a nonempty phase vector contain one "&#124;" separator fewer than phases and begin with the first phase's name |
| PowerFlow.PhaseRoundTrip | SgtCore/PowerFlow.cc:63-114 | from_string inverts to_string on every phase, and any phase it returns other than BAD names the string exactly |
| PowerFlow.Phases.Empty | SgtCore/PowerFlow.h:52 | the default set has an empty mask, phase vector and index map |
| PowerFlow.Phases.FromMask | SgtCore/PowerFlow.h:53 | a set built from a mask keeps that mask and its derived vector and index map consistent |
| PowerFlow.Phases.FromPhase | SgtCore/PowerFlow.h:54 | a set built from one phase has exactly that phase's bit |
| PowerFlow.Phases.Rebuild | SgtCore/PowerFlow.cc:178-192 | rebuild keeps the mask and makes the phase vector the canonical phases of the mask and the index map their positions |
| PowerFlow.Phases.AndAssign | SgtCore/PowerFlow.cc:153-158 | &= intersects the masks and rebuilds |
| PowerFlow.Phases.OrAssign | SgtCore/PowerFlow.cc:160-165 | &#124;= unites the masks and rebuilds |
| PowerFlow.Phases.Size | SgtCore/PowerFlow.h:67 | a set never has more than nine phases |
| PowerFlow.Phases.PhaseIndex | SgtCore/PowerFlow.h:69 | phaseIndex is -1 exactly for an absent phase, else the phase's position in the vector; for BAD present in the mask the map lookup fails |
| PowerFlow.Phases.ToString | SgtCore/PowerFlow.cc:167-176 | to_string joins the phase names of the vector with "&#124;" |
| PowerFlow.CountOrdered | SgtCore/PowerFlow.cc:181 | a strictly ordered vector of phases before BAD has at most nine entries, so the reserved capacity suffices |
| PowerFlow.Intersect | SgtCore/PowerFlow.h:78 | operator& yields a fresh set whose mask is the intersection |
| PowerFlow.Unite | SgtCore/PowerFlow.h:79 | operator&#124; yields a fresh set whose mask is the union |
| PowerFlow.MaskSetOps | SgtCore/PowerFlow.h:65 | isSubsetOf holds exactly for mask inclusion, and the phase vectors of an intersection and a union hold exactly the common and the combined phases |
| PowerFlow.CarsonSymmetric | SgtCore/PowerFlow.cc:202-210 | Carson's primitive impedance is symmetric in the wire pair and reads only the upper triangle of the distance matrix |
| PowerFlow.ScaleMatrix | SgtCore/PowerFlow.cc:211 | Z *= L scales every entry by the line length |
| PowerFlow.Carson | SgtCore/PowerFlow.cc:194-214 | carson returns an nWire x nWire matrix whose every entry is the Carson impedance of its wire pair times L |
| PowerFlow.YNodeRowSum | SgtCore/PowerFlow.cc:228-248 | every row of the nodal admittance of a line sums to zero |
| PowerFlow.YNodeSymmetric | SgtCore/PowerFlow.cc:228-248 | the nodal admittance is symmetric whenever the line admittance is |
| PowerFlow.WriteYNodeBlocks | SgtCore/PowerFlow.cc:238-244 | one step of the inner loop writes the four blocks YLine, -YLine, -YLine, YLine for entry (i, j) |
| PowerFlow.ZLine2YNode | SgtCore/PowerFlow.cc:228-248 | the nodal admittance is 2n x 2n with [[Y, -Y], [-Y, Y]] built from the line admittance Y |
| ToolboxPowerFlow.BusTypeStrRoundTrip | SmartGridToolbox/PowerFlow.cc:22-45 | busType2Str(BAD) is "UNDEFINED", str2BusType inverts busType2Str on SL, PQ and PV, "UNDEFINED" reads back as BAD and any other result names the string exactly |
| ToolboxPowerFlow.Line1PIsSimpleLine | SmartGridToolbox/PowerFlow.cc:137-162 | the one-phase line is the one-phase case of the simple line |
| ToolboxPowerFlow.YLine1P | SmartGridToolbox/PowerFlow.cc:137-146 | YLine1P is [[Y, -Y], [-Y, Y]] |
| ToolboxPowerFlow.WritePhaseAdmittance | SmartGridToolbox/PowerFlow.cc:154-160 | one loop step writes phase i's admittance at (i, i), (i+n, i+n) and its negation at (i, i+n), (i+n, i) |
| ToolboxPowerFlow.PhaseRow | SmartGridToolbox/PowerFlow.cc:149-162 | row i and row i+n of the simple line hold Y(i) and -Y(i) at columns i and i+n and zero elsewhere |
| ToolboxPowerFlow.YSimpleLine | SmartGridToolbox/PowerFlow.cc:148-162 | YSimpleLine is the 2n x 2n matrix of n independent phase admittances |
| ToolboxPowerFlow.SimpleLineBalanced | SmartGridToolbox/PowerFlow.cc:148-162 | the simple line is symmetric and each row sums to zero |
| ToolboxPowerFlow.SimpleLineRowSum | SmartGridToolbox/PowerFlow.cc:148-162 | each row of the simple line sums to zero, so no current leaks out of a line |
| ToolboxPowerFlow.SimpleLineRowShape | SmartGridToolbox/PowerFlow.cc:154-160 | each row has exactly two nonzero slots, Y(i) and -Y(i), at the phase's two terminals |
| ToolboxPowerFlow.YOverheadLineZ | SmartGridToolbox/PowerFlow.cc:164-185 | the overhead line's impedance is symmetric and equal entry by entry to Carson's impedance scaled by L |
| Network.NewNetwork | SgtCore/Network.cc:33-38 | a new network has the given id and base power, nominal and actual frequency 50, no components, no reference bus and no valid solution |
| Network.Find | SgtCore/Network.h:122-126 | a lookup by id is null exactly when the id is not in the map, and otherwise returns the mapped component |
| Network.SetReferenceBus | SgtCore/Network.h:141-144 | the reference bus becomes the bus with that id, or null when no bus has it; nothing else changes |
| Network.LookupsNullIffAbsent | SgtCore/Network.h:122-190 | bus, branch, gen and zip lookups each return null exactly for an id absent from their map |
| Network.V2Pu | SgtCore/Network.h:196-199 | a per-unit voltage times the base voltage is the original voltage |
| Network.Pu2V | SgtCore/Network.h:200-203 | pu2V undoes V2Pu for a nonzero base |
| Network.S2Pu | SgtCore/Network.h:205-208 | a per-unit power times the base power is the original power |
| Network.Pu2S | SgtCore/Network.h:209-212 | pu2S undoes S2Pu for a nonzero base power |
| Network.PerUnitRoundTrips | SgtCore/Network.h:196-239 | for nonzero bases every per-unit conversion (V, S, Y, Z, I) and its inverse compose to the identity in both orders |
| Network.Y2PuIsScaling | SgtCore/Network.h:214-217 | Y2Pu multiplies an admittance by VBase^2 / PBase |
| Network.Z2PuIsScaling | SgtCore/Network.h:223-226 | Z2Pu multiplies an impedance by PBase / VBase^2 |
| Network.AdmittanceImpedanceProduct | SgtCore/Network.h:214-226 | the product of an admittance and an impedance is the same in per-unit as in physical units |
| Bus.VSubAdd | SgtCore/Bus.cc:66-69 | adding back what was subtracted per phase restores the vector, in both orders |
| Bus.VAddZero | SgtCore/Bus.cc:55 | the zero-filled accumulator is a left identity of per-phase addition |
| Bus.SwitchOffGen | SgtCore/Bus.cc:51-64 | taking a generator out of service lowers the requested generation by exactly its power, and leaves it unchanged if it was already out |
| Bus.NoGenInService | SgtCore/Bus.cc:51-64 | with no generator in service the requested generation is zero on every phase |
| Bus.ZipTotalIgnoresService | SgtCore/Bus.cc:99-143 | the constant-Y, constant-I and constant-S totals sum over every ZIP load, in service or not |
| Bus.SYConstScalesWithVSquared | SgtCore/Bus.cc:111-114 | the constant-admittance power on a phase is -conj(Y) times |V|^2 on that phase |
| Bus.SetpointVoltages | SgtCore/Bus.cc:155-178 | a bus that is neither slack nor PV keeps its voltage |
| Bus.SlackSetpointsReached | SgtCore/Bus.cc:160-166 | after applying setpoints a slack bus has exactly the magnitude and angle setpoints on every phase |
| Bus.PvSetpointsReached | SgtCore/Bus.cc:167-174 | after applying setpoints a PV bus has the magnitude setpoint and keeps its voltage angle on every phase |
| Bus.Bus.constructor | SgtCore/Bus.cc:20-36 | a new bus starts at V = VNom with setpoints the magnitudes and angles of VNom, type NA, no devices and nothing unserved |
| Bus.Bus.NInServiceGens | SgtCore/Bus.cc:38-49 | nInServiceGens counts the generators that are in service |
| Bus.Bus.NInServiceZips | SgtCore/Bus.cc:86-97 | nInServiceZips counts the ZIP loads that are in service |
| Bus.Bus.SGenRequested | SgtCore/Bus.cc:51-64 | the requested generation is the per-phase sum of the in-service generators' powers |
| Bus.Bus.SGen | SgtCore/Bus.cc:66-69 | the served generation plus the unserved generation is the requested generation |
| Bus.Bus.JGen | SgtCore/Bus.cc:71-84 | the generation cost is the sum of the in-service generators' costs |
| Bus.Bus.ZipConst | SgtCore/Bus.cc:99-143 | YConst, IConst and SConst are the per-phase sums of that part over all ZIP loads |
| Bus.Bus.SZip | SgtCore/Bus.cc:145-153 | the served ZIP power plus the unserved is the constant-Y power at V plus the constant-I power at V plus the constant-S power |
| Bus.Bus.ApplyVSetpoints | SgtCore/Bus.cc:155-178 | applyVSetpoints replaces V by the setpoint voltages of the bus type and changes nothing else |
| Transformer.NominalTapTurnsRatio | SgtCore/Transformer.h:95 | with every off-nominal ratio 1 the turns ratio is the nominal turns ratio |
| Transformer.Transformer.constructor | SgtCore/Transformer.h:44-55 | a new transformer holds the given winding parameters and no valid admittance yet |
| Transformer.Transformer.TurnsRatio | SgtCore/Transformer.h:95 | the turns ratio is the element-wise product of the nominal turns ratio and the off-nominal ratio |
| Transformer.Transformer.Invalidate | SgtCore/Transformer.cc:77-83 | invalidate marks the cached admittance stale and fires admittanceChanged once, changing no parameter |
| Transformer.Transformer.EnsureValid | SgtCore/Transformer.cc:85-92 | ensureValid leaves the cache equal to calcY of the current parameters, recomputing only when it was stale |
| Transformer.Transformer.InServiceY | SgtCore/Transformer.cc:23-27 | inServiceY returns calcY of the current parameters, computing it at most once per invalidation |
| Transformer.Transformer.SetNomTurnsRatio | SgtCore/Transformer.cc:29-33 | setting the whole nominal turns ratio replaces it, invalidates the cache and fires the event |
| Transformer.Transformer.SetNomTurnsRatioAt | SgtCore/Transformer.cc:35-39 | setting one winding's nominal turns ratio replaces that entry only, invalidates the cache and fires the event |
| Transformer.Transformer.SetOffNomRatio | SgtCore/Transformer.cc:41-45 | setting the off-nominal ratio vector replaces it and invalidates |
| Transformer.Transformer.SetOffNomRatioAt | SgtCore/Transformer.cc:47-51 | setting one winding's off-nominal ratio replaces that entry only and invalidates |
| Transformer.Transformer.SetZL | SgtCore/Transformer.cc:53-57 | setting the leakage impedances replaces them and invalidates |
| Transformer.Transformer.SetZLAt | SgtCore/Transformer.cc:59-63 | setting one winding's leakage impedance replaces that entry only and invalidates |
| Transformer.Transformer.SetYM | SgtCore/Transformer.cc:65-69 | setting the magnetising admittances replaces them and invalidates |
| Transformer.Transformer.SetYMAt | SgtCore/Transformer.cc:71-75 | setting one winding's magnetising admittance replaces that entry only and invalidates |
| Transformer.QueryTwice | SgtCore/Transformer.cc:23-27 | two queries in a row return the same admittance with at most one computation |
| Transformer.QueryAfterSetter | SgtCore/Transformer.cc:23-63 | a query after a setter sees the new parameters, so the cache never serves a stale admittance |
| TapChanger.TapIdx | SgtSim/TapChanger.h:75-78 | the tap index is tap - minTap wrapped to an unsigned 64-bit value |
| TapChanger.TapIdxInRange | SgtSim/TapChanger.h:61-78 | the index lands inside a table of n ratios exactly when minTap <= tap < minTap + n, and is then the plain offset |
| TapChanger.TapChanger.constructor | SgtSim/TapChanger.h:88-94 | a new tap changer controls the given transformer winding and starts at tap 0 |
| TapChanger.TapChanger.TapRatio | SgtSim/TapChanger.h:61-64 | the tap ratio is the table entry at the tap's offset from minTap |
| TapChanger.TapChanger.SetTap | SgtSim/TapChanger.h:80-84 | setTap records the tap and writes its ratio into the controlled winding's off-nominal ratio, leaving the transformer's other parameters and the other windings alone and invalidating its admittance |
| TapChanger.AutoValidUntil | SgtSim/TapChanger.h:159-162 | an automatic tap changer is never due for a scheduled update: every finite time lies before its validity |
| WeakOrder.ReachMonotone | SgtSim/WeakOrder.h:83-86 | adding links never removes a reachable pair |
| WeakOrder.DominanceStrict | SgtSim/WeakOrder.cc:79-88 | no node dominates itself, and of two nodes at most one dominates the other |
| WeakOrder.NodeLessTournament | SgtSim/WeakOrder.h:61-64 | operator< is irreflexive and, for distinct nodes, exactly one of a < b and b < a holds |
| WeakOrder.Rotate | SgtSim/WeakOrder.cc:106-114 | the swap loop brings the element at it2 to it1 |
| WeakOrder.RotatePermutes | SgtSim/WeakOrder.cc:106-114 | moving an element forward by adjacent swaps only reorders the nodes |
| WeakOrder.SortFromPermutes | SgtSim/WeakOrder.cc:102-116 | the rotation sort returns a permutation of the nodes |
| WeakOrder.SwapStep | SgtSim/WeakOrder.cc:109-113 | each adjacent swap moves the travelling node one place towards it1 |
| WeakOrder.IndexPermutation | SgtSim/WeakOrder.cc:45-51 | a permutation of the indices 0..n-1 holds each of them |
| WeakOrder.WoGraph.Size | SgtSim/WeakOrder.h:99-102 | size is the number of nodes, and every index below it names a node |
| WeakOrder.WoGraph.constructor | SgtSim/WeakOrder.cc:45-51 | a new graph of n nodes lists them in index order, with no links, nothing visited, no descendents and nothing dominated |
| WeakOrder.WoGraph.Precedes | SgtSim/WeakOrder.h:43-47 | a precedes b exactly when b is among a's descendents |
| WeakOrder.WoGraph.Link | SgtSim/WeakOrder.h:83-86 | link appends the target to the source's out-list and changes nothing else |
| WeakOrder.WoGraph.Dfs | SgtSim/WeakOrder.cc:20-43 | a search from an unvisited node marks it, visits only nodes it reaches, and adds every newly visited node to the descendents of each node on the stack and of the start node |
| WeakOrder.WoGraph.VisitTargets | SgtSim/WeakOrder.cc:34-38 | visiting the out-list in order keeps the stack's descendents equal to everything newly visited |
| WeakOrder.WoGraph.AddToStack | SgtSim/WeakOrder.cc:29-33 | a node entering the search is inserted into the descendents of every node on the stack |
| WeakOrder.WoGraph.ComputeDescendents | SgtSim/WeakOrder.cc:62-73 | after one search per node, with visited flags cleared between, each node's descendents are exactly the nodes it reaches by a nonempty path |
| WeakOrder.WoGraph.ClearVisited | SgtSim/WeakOrder.cc:69-72 | the inner loop clears every visited flag and nothing else |
| WeakOrder.WoGraph.ComputeDominance | SgtSim/WeakOrder.cc:79-88 | each node dominates exactly the descendents that do not reach it back |
| WeakOrder.WoGraph.DominateFrom | SgtSim/WeakOrder.cc:81-87 | one node's pass adds its non-mutual descendents to its dominated set |
| WeakOrder.WoGraph.SortNodes | SgtSim/WeakOrder.cc:102-116 | the outer loop leaves the nodes in the order the rotation sort defines, a permutation of the original order |
| WeakOrder.WoGraph.InnerSortPass | SgtSim/WeakOrder.cc:104-115 | one inner pass rotates forward each later node that dominates the node at it1, keeping the multiset of nodes |
| WeakOrder.WoGraph.RotateInto | SgtSim/WeakOrder.cc:108-113 | the swap loop performs exactly the rotation of it2 into it1 |
| WeakOrder.WoGraph.WeakOrder | SgtSim/WeakOrder.cc:53-119 | weakOrder sets descendents to reachability, dominance to non-mutual reachability, and sorts the nodes by the rotation sort |
| WeakOrderExample.ExampleDescendentsAreReach | tests/tests.cc:368-375 | in the test graph the reach sets are {1,2,4,5}, {0,2,4,5}, {}, {0,1,2,4,5}, {0,1,2,5}, {2} |
| WeakOrderExample.ExampleDominance | tests/tests.cc:368-376 | in the test graph node 3 dominates all others, 0, 1 and 4 dominate 2 and 5, and 5 dominates 2 |
| WeakOrderExample.ExampleSortSteps | tests/tests.cc:378-385 | under the test graph's dominance the rotation sort of 0..5 gives 3, 0, 1, 4, 5, 2 |
| WeakOrderExample.ExampleGraph | tests/tests.cc:368-375 | the test graph has six nodes in index order and the seven links of the test |
| WeakOrderExample.WeakOrderTest | tests/tests.cc:366-386 | weakOrder on the test graph gives the order 3, 0, 1, 4, 5, 2 |
| SimulationLoop.SchedLessStrict | SmartGridToolbox/Simulation.h:81-92 | the scheduled-update comparator (time, then rank, then name) is irreflexive, asymmetric and transitive |
| SimulationLoop.SchedLessTotal | SmartGridToolbox/Simulation.h:81-92 | two scheduled entries are ordered one way or the other unless they have the same time, rank and name |
| SimulationLoop.ContLessStrict | SmartGridToolbox/Simulation.h:94-103 | the contingent-update comparator (rank, then name) is a strict order |
| SimulationLoop.ContLessTotal | SmartGridToolbox/Simulation.h:94-103 | two components are ordered one way or the other unless they share rank and name |
| SimulationLoop.InsertSSpec | SmartGridToolbox/Simulation.cc:26 | inserting into the scheduled set keeps it sorted, adds the entry exactly when no equivalent entry is present and leaves the set unchanged otherwise |
| SimulationLoop.InsertCSpec | SmartGridToolbox/Simulation.cc:27 | inserting into the contingent set keeps it sorted and adds the component exactly when no equivalent one is present |
| SimulationLoop.InsertAllCSpec | SmartGridToolbox/Simulation.cc:27-28 | the needsUpdate triggers of an update land in the contingent set, which stays sorted |
| SimulationLoop.EraseCSpec | SmartGridToolbox/Simulation.cc:97 | erasing a component from the contingent set removes exactly the entries equivalent to it and keeps the set sorted |
| SimulationLoop.RemoveCompSpec | SmartGridToolbox/Simulation.cc:69-76 | the erase loop removes the component's scheduled entry and keeps every other entry, in order |
| SimulationLoop.ScheduleOne | SmartGridToolbox/Simulation.cc:23-29 | after k components are initialised the scheduled set holds exactly one entry at its start time for each of them |
| SimulationLoop.ApplyUpdateSpec | SmartGridToolbox/Simulation.cc:77-78 | after an update the component is rescheduled at its validUntil and the components it triggered join the contingent set |
| SimulationLoop.ContingentStepSpec | SmartGridToolbox/Simulation.cc:60-81 | a contingent step updates the first contingent component at the current time, leaves the clock alone, replaces that component's scheduled entry and keeps the sets consistent |
| SimulationLoop.ScheduledStepSpec | SmartGridToolbox/Simulation.cc:82-103 | a scheduled step moves the clock to the earliest scheduled time, updates that component, drops it from the contingent set and reschedules it |
| SimulationLoop.NextStatePreserves | SmartGridToolbox/Simulation.cc:37-125 | every step keeps both sets sorted with one scheduled entry per component, and a step that runs stays before the end time |
| SimulationLoop.NextStateClockMonotone | SmartGridToolbox/Simulation.cc:60-103 | the simulation clock never goes backwards |
| SimulationLoop.Simulation.constructor | SmartGridToolbox/Simulation.cc:10-18 | a new simulation has no start or end time, its clock at minus infinity and nothing scheduled |
| SimulationLoop.Simulation.SetStartTime | SmartGridToolbox/Simulation.h:44-47 | setStartTime changes only the start time |
| SimulationLoop.Simulation.SetEndTime | SmartGridToolbox/Simulation.h:54-57 | setEndTime changes only the end time |
| SimulationLoop.Simulation.ScheduleStart | SmartGridToolbox/Simulation.cc:22-32 | initialisation schedules every component once at its start time, clears the contingent set and sets the clock to minus infinity |
| SimulationLoop.Simulation.Initialize | SmartGridToolbox/Simulation.cc:20-34 | initialize leaves the state reached by the first timestep's updates from the start state (every component scheduled at the start time, no contingent updates, the clock at minus infinity); on success no work remains at that timestep's time |
| SimulationLoop.Simulation.EraseScheduled | SmartGridToolbox/Simulation.cc:69-76 | the erase loop removes the component's scheduled entry and changes nothing else |
| SimulationLoop.Simulation.ContingentUpdate | SmartGridToolbox/Simulation.cc:62-80 | the contingent branch performs one contingent step and fires no timestep event |
| SimulationLoop.Simulation.ScheduledUpdate | SmartGridToolbox/Simulation.cc:84-102 | the scheduled branch performs one scheduled step and fires timestepWillStart exactly when the clock advances |
| SimulationLoop.Simulation.DoNextUpdate | SmartGridToolbox/Simulation.cc:37-125 | doNextUpdate performs the contingent step when one is due before the next scheduled time, else the scheduled step when it is before the end time; it returns whether it did either and fires timestepDidComplete when no work remains at the current time |
| SimulationLoop.Simulation.DoTimestep | SmartGridToolbox/Simulation.cc:127-144 | doTimestep takes the state through `steps + 1` updates (Steps of the old state) and completes the timestep it starts in (or the first one after minus infinity): on a successful return no contingent or scheduled work remains at that time |
| SimulationLoop.StepsPreserve | SmartGridToolbox/Simulation.cc:127-144 | any number of updates keeps the schedule consistent with the components, one entry per component and the end time; with advancing components the clock never goes back and the schedule never falls behind it |
| Heartbeat.Heartbeat.constructor | SgtSim/Heartbeat.h:98-103 | a new heartbeat has the given id and period and no beat scheduled |
| Heartbeat.Heartbeat.InitializeState | SgtSim/Heartbeat.h:36-40 | initialisation clears the next beat and requests an update once |
| Heartbeat.Heartbeat.UpdateState | SgtSim/Heartbeat.h:42-53 | an update sets the next beat from the old beat, the update time and the period, touching nothing else; an update at or before a due beat (or with none yet) with a positive period leaves the heartbeat valid until a time after the update |
| Heartbeat.Heartbeat.SetDt | SgtSim/Heartbeat.h:67-70 | setDt changes only the period |
| Heartbeat.NextBeatSpec | SgtSim/Heartbeat.h:42-53 | the first update schedules a beat at t + dt, an update on the beat advances it by dt, and any other update leaves it |
| Heartbeat.BeatStaysAhead | SgtSim/Heartbeat.h:42-53 | with a positive period, an update not past the beat leaves the next beat strictly in the future |
| Heartbeat.BeatsAreRegular | SgtSim/Heartbeat.h:42-53 | beating on every scheduled beat from t0 puts the k-th beat at t0 + k dt |
| SimTime.Add | SgtSim/Heartbeat.h:51 | adding durations adds ticks, not-a-date-time absorbs everything, and an infinity absorbs a finite value |
| SimTime.LessStrictOrder | SmartGridToolbox/Simulation.cc:60-109 | the time comparison the loop uses is a strict order, total on every value but not-a-date-time |
| SimTime.NotADateTimeUnordered | SmartGridToolbox/Simulation.cc:10-13 | not-a-date-time, the initial start and end time, compares neither below nor above anything |
| SimTime.AddPositiveAdvances | SgtSim/Heartbeat.h:51 | adding a positive period moves a finite time strictly forward and leaves a special value unchanged |
| TimeSeries.PutSpec | SgtSim/TimeSeries.h:81-84 | points_[t] = v keeps the table ordered by time, makes t map to v, leaves every other time as it was, and grows the table only for a new time |
| TimeSeries.PutAfterLast | SgtSim/TimeSeries.h:81-84 | adding a point after the last time appends it |
| TimeSeries.LookupMember | SgtSim/TimeSeries.h:87 | a time has a value in the table exactly when some point carries that time |
| TimeSeries.UpperBound | SgtSim/TimeSeries.h:72 | upper_bound is the first position whose time is after t: every earlier point is at or before t, every later one after it |
| TimeSeries.ConstIsOnePointStepwise | SgtSim/TimeSeries.h:43-53 | a constant series agrees at every time with a stepwise series of one point holding its value |
| TimeSeries.StepwiseTimeSeries.constructor | SgtSim/TimeSeries.h:86-87 | a new stepwise series has no points |
| TimeSeries.StepwiseTimeSeries.Value | SgtSim/TimeSeries.h:70-79 | a stepwise series holds the value of the last point at or before t, and the first point's value before the first time |
| TimeSeries.StepwiseTimeSeries.AddPoint | SgtSim/TimeSeries.h:81-84 | adding a point sets the value at t and leaves every other time's value |
| TimeSeries.LerpTimeSeries.constructor | SgtSim/TimeSeries.h:122-123 | a new interpolating series has no points |
| TimeSeries.LerpTimeSeries.Value | SgtSim/TimeSeries.h:96-115 | before the first point the first value, from the last point on the last value, and between two neighbouring points their linear interpolation |
| TimeSeries.LerpTimeSeries.AddPoint | SgtSim/TimeSeries.h:117-120 | adding a point sets the value at t and leaves every other time's value |
| TimeSeries.LerpExact | SgtSim/TimeSeries.h:96-115 | the interpolating series passes through each of its points |
| TimeSeries.LerpBetween | SgtSim/TimeSeries.h:110-114 | between two neighbouring points each component of the value lies between theirs |
| TimeSeries.StepwiseTest | tests/tests.cc:208-220 | the stepwise test table gives 1.5, 1.5, 1.5, 2.5, 5.5 at the test's five times |
| TimeSeries.LerpTest | tests/tests.cc:189-206 | the interpolation test table gives 0, 0, 1.5+0.5j, 3+j, 6.5+6j, 10+11j, 10+11j at the test's seven times |
| TimeSeries.FunctionTest | tests/tests.cc:222-227 | the function series 2t gives -2 at -1 s and 6 at 3 s |
| TimeSeriesParser.ToSecsFactor | SgtSim/TimeSeriesParserPlugin.cc:7-31 | the time unit must be one of s, m, h, d, each giving at least one second per unit (exactly one only for s); any other unit is fatal |
| TimeSeriesParser.ToSecsFactorIncreasing | SgtSim/TimeSeriesParserPlugin.cc:7-31 | the unit factors increase from seconds to days, a day being 24 hours and 1440 minutes |
| TimeSeriesParser.GetTsType | SgtSim/TimeSeriesParserPlugin.cc:57-74 | a recognised series type names exactly the keyword read; any other keyword is fatal |
| TimeSeriesParser.GetValType | SgtSim/TimeSeriesParserPlugin.cc:76-101 | a recognised value type names exactly the keyword read; any other keyword is fatal |
| TimeSeriesParser.GetInterpType | SgtSim/TimeSeriesParserPlugin.cc:103-124 | a recognised interpolation type names exactly the keyword read; any other keyword is fatal |
| TimeSeriesParser.KeywordRoundTrip | SgtSim/TimeSeriesParserPlugin.cc:57-124 | each keyword reader recovers every type from its keyword |
| TimeSeriesParser.InitDataTimeSeries | SgtSim/TimeSeriesParserPlugin.cc:126-162 | a data series is made for every value type except a spline of non-real-scalar values, which is fatal; the kind made follows the interpolation type |
| TimeSeriesParser.TruncToZero | SgtSim/TimeSeriesParserPlugin.cc:171 | the conversion to whole seconds truncates toward zero |
| TimeSeriesParser.ReadTime | SgtSim/TimeSeriesParserPlugin.cc:164-172 | a time read is t0 plus the value times the unit factor truncated to whole seconds; a special t0 absorbs it |
| TimeSeriesParser.ReadTimeWholeSeconds | SgtSim/TimeSeriesParserPlugin.cc:164-172 | a time that is a whole number of seconds is read exactly |
| TimeSeriesParser.ReadTimeMonotone | SgtSim/TimeSeriesParserPlugin.cc:164-172 | later times in the file are never read as earlier ones |
| TimeSeriesParser.PutLinesSpec | SgtSim/TimeSeriesParserPlugin.cc:262-270 | loading keeps the table ordered, and each time holds the value of the last line read at it, other times keeping their old values |
| TimeSeriesParser.LoadStepwise | SgtSim/TimeSeriesParserPlugin.cc:261-272 | the read loop of a stepwise series adds one point per line, in file order |
| TimeSeriesParser.LoadLerp | SgtSim/TimeSeriesParserPlugin.cc:276-287 | the read loop of an interpolating complex series adds one point per line, in file order |
| ComponentCollection.DistinctCard | SgtCore/ComponentCollection.h:222-224 | a vector of distinct map iterators has as many entries as the set of nodes it refers to |
| ComponentCollection.KeysOfIndex | SgtCore/ComponentCollection.h:129-130 | reading `key()` through each pointer of the vector gives one key per entry, the key of the node it refers to |
| ComponentCollection.SearchFrom | SgtCore/ComponentCollection.h:268-269 | the `find_if` over the vector stops at the first pointer whose key is the one searched for, or at the end when none has it |
| ComponentCollection.KeysMatchIndex | SgtCore/ComponentCollection.h:222-224 | the keys of the vector are distinct, are exactly the keys of the map, and there are as many vector entries as map entries |
| ComponentCollection.InsertNewKeeps | SgtCore/ComponentCollection.h:237-242 | inserting a new node into the map and pushing its iterator onto the vector keeps map and vector in step |
| ComponentCollection.ReplaceKeeps | SgtCore/ComponentCollection.h:243-247 | replacing the value of an existing node keeps map and vector in step |
| ComponentCollection.EraseKeeps | SgtCore/ComponentCollection.h:264-272 | erasing a key from the map and its entry from the vector keeps map and vector in step |
| ComponentCollection.Collection.constructor | SgtCore/ComponentCollection.h:222-224 | a new collection has an empty map and an empty vector |
| ComponentCollection.Collection.KeysMatchMap | SgtCore/ComponentCollection.h:164-172 | in a valid collection the vector lists every key of the map exactly once |
| ComponentCollection.Collection.Size | SgtCore/ComponentCollection.h:180 | `size()` is the length of the vector, which equals the number of map entries |
| ComponentCollection.Collection.Find | SgtCore/ComponentCollection.h:182-193 | lookup by key gives a null pointer exactly when the key is absent, and otherwise an iterator to the live node holding that key |
| ComponentCollection.Collection.At | SgtCore/ComponentCollection.h:195-196 | the idx-th pointer refers to a live node, and looking up that node's key gives the same pointer back |
| ComponentCollection.Collection.Insert | SgtCore/ComponentCollection.h:234-249 | `insert` of a new key appends it to the map and vector; of an existing key replaces the value in place, keeping order and pointers; either way it returns the key's iterator, which now holds the new value |
| ComponentCollection.Collection.Reserve | SgtCore/ComponentCollection.h:251 | `reserve` inserts a null pointer under the key and returns that key's iterator |
| ComponentCollection.Collection.ReserveAsWritten | SgtCore/ComponentCollection.h:251 | `reserve` as written inserts the null pointer but returns no value, so its result is an indeterminate pointer |
| ComponentCollection.Collection.Emplace | SgtCore/ComponentCollection.h:253-258 | `emplace` returns the new component together with the key's iterator, which holds it |
| ComponentCollection.Collection.FindInVec | SgtCore/ComponentCollection.h:268-270 | the vector search finds the entry for a key present in the map, at the first position whose key matches |
| ComponentCollection.Collection.Remove | SgtCore/ComponentCollection.h:260-274 | `remove` of an absent key returns null and changes nothing; of a present key returns its value, erases it from the map and drops exactly its entry from the vector, keeping the order of the rest |
| ComponentCollection.DropEntry | SgtCore/ComponentCollection.h:271 | erasing one entry from a vector without repeats leaves exactly the other entries, still without repeats |
| ComponentCollection.RemoveOrderAsWritten | SgtCore/ComponentCollection.h:266-269 | searching the vector after erasing the map node always reads the freed node; searching before erasing reads only live nodes |
| ComponentCollection.ReserveResultExample | SgtCore/ComponentCollection.h:251 | reserving "bus_1" in an empty collection: the value as written need not be the key's iterator, the corrected `reserve` returns iterator 0 |
| ComponentCollection.DefaultPtrIsNull | SgtCore/ComponentCollection.h:50-54 | a default-constructed pointer is null and refers to no component |
| Components.MutableComponents.constructor | SgtCore/Components.h:113-115 | a new container has an empty map and an empty vector |
| Components.MutableComponents.Size | SgtCore/Components.h:93 | `size()` is the length of the vector, which equals the number of map entries |
| Components.MutableComponents.SizeMatchesMap | SgtCore/Components.h:113-115 | the vector has one entry per id in the map |
| Components.MutableComponents.Lookup | SgtCore/Components.h:87-88 | lookup by id fails (`map_.at` throws) exactly when the id is absent, and otherwise points at the live component whose `id()` is that id |
| Components.MutableComponents.At | SgtCore/Components.h:90-91 | the idx-th pointer targets a live component, and looking up that component's id gives the same pointer |
| Components.MutableComponents.NullIffNoTarget | SgtCore/Components.h:41-43 | a pointer into a valid container compares equal to nullptr exactly when it has no target, since every stored component is non-null |
| Components.MutableComponents.Insert | SgtCore/Components.h:124-139 | `insert` keys the component by its own id: a new id is appended to map and vector, an existing one has its component replaced in place; the returned pointer is the id's and holds the component |
| Components.MutableComponents.Emplace | SgtCore/Components.h:141-145 | `emplace` inserts the new component under its id and returns the pointer that holds it |
| Components.MutableComponents.FindInVec | SgtCore/Components.h:155-157 | the vector search finds the entry for an id present in the map, at the first position whose id matches |
| Components.MutableComponents.Remove | SgtCore/Components.h:147-161 | `remove` of an absent id returns null and changes nothing; of a present id returns the component with that id, erases it from the map and drops exactly its entry from the vector |
| Components.MutableComponents.EraseKeepsIds | SgtCore/Components.h:150-158 | after erasing, every live node still holds a non-null component whose id is its key |
| Components.RemoveOrderAsWritten | SgtCore/Components.h:153-156 | searching the vector with `p->id()` after erasing the map entry always reads the freed entry; searching first reads only live entries |
| Units.MulGroup | SgtCore/Units.h:49-63 | products of dimensions are associative and commutative with the dimensionless unit, and division undoes multiplication |
| Units.PowIsRepeatedMul | SgtCore/Units.h:42-46 | `pow<p>()`, which multiplies every exponent by p, is the p-fold product of the dimension with itself |
| Units.SquareIsPow | SgtCore/Units.h:42-46 | `pow<2>()` is the dimension times itself |
| Units.VelocityDims | SgtCore/Units.h:73-75 | velocity is m·s⁻¹ and `pDim` (mass times velocity, momentum) is kg·m·s⁻¹ |
| Units.TimeSquaredDims | SgtCore/Units.h:74 | time squared is s² |
| Units.AccelerationDims | SgtCore/Units.h:74 | acceleration is m·s⁻² |
| Units.ForceDims | SgtCore/Units.h:76 | force is kg·m·s⁻² |
| Units.EnergyDims | SgtCore/Units.h:77 | energy is kg·m²·s⁻² |
| Units.PowerDims | SgtCore/Units.h:78 | power is kg·m²·s⁻³ |
| Units.ChargeDims | SgtCore/Units.h:79 | charge is A·s |
| Units.VoltageDimsAsWritten | SgtCore/Units.h:80 | `VDim` as written, charge divided by length, has exponents m⁻¹·s·A |
| Units.AsWrittenTimesCurrent | SgtCore/Units.h:78-80 | the voltage dimension as written times current is not power |
| Units.VoltageDims | SgtCore/Units.h:80 | voltage as energy per charge is kg·m²·s⁻³·A⁻¹ |
| Units.VoltageTimesCurrent | SgtCore/Units.h:78-80 | the corrected voltage dimension times current is power |
| Quantities.Scale | SgtCore/Units.h:119-131 | a quantity times a scalar, on either side, keeps its dimension and scales its standard value |
| Quantities.Add | SgtCore/Units.h:133-138 | quantities are added only within one dimension, which the sum keeps |
| Quantities.TimesOverRoundTrip | SgtCore/Units.h:140-162 | dividing a product of quantities by one factor gives back the other, dimension and value, and a quantity over itself is the dimensionless 1 |
| Quantities.ScaleTimes | SgtCore/Units.h:119-150 | a scalar may be applied to either factor of a product of quantities or to the product, with the same result |
| Common.IndentedAppend | SgtCore/Common.h:61-77 | the indenting buffer handles text character by character: writing s then t is writing s, then t in the state s left (at a line start exactly when s ended in a newline, and no longer first) |
| Common.IndentedLine | SgtCore/Common.h:61-77 | a line written at a line start gets the first prefix if it is the first since the last reset and the second prefix otherwise, and an empty line gets none |
| Common.MidLine | SgtCore/Common.h:61-77 | text without a newline written in the middle of a line passes through unchanged |
| Common.IndentedLines | SgtCore/Common.h:61-77 | every line after the first of an entry is prefixed with the second prefix |
| Common.StreamIndent.constructor | SgtCore/Common.h:33-42 | a new buffer starts at a line start, first since reset, with four-space prefixes and nothing written |
| Common.StreamIndent.Reset | SgtCore/Common.h:52-57 | `reset` installs both prefixes and marks the next line as first, leaving the output and the line-start flag alone |
| Common.StreamIndent.Overflow | SgtCore/Common.h:61-77 | `overflow` passes the character on, preceded by the current prefix when it starts a non-empty line, and then records whether it was a newline |
| Common.StreamIndent.Write | SgtCore/Common.h:61-77 | writing a string is overflowing its characters in turn: the output grows by the indented text and the state is that after its last character |
| Common.StreamIndentExample | SgtCore/Common.h:33-77 | writing "ab\ncd\n" through a new buffer gives "    ab\n    cd\n" |
| Common.Spaces | SgtCore/Common.h:108 | `std::string(n, ' ')` is n spaces |
| Common.Prefixes | SgtCore/Common.h:105-144 | each channel's first prefix is its nine-character tag followed by the indent, and its second prefix is as many spaces, so continuation lines line up |
| Common.Log.constructor | SgtCore/Common.h:148 | the shared indent level starts at 0 |
| Common.Log.OpenIndent | SgtCore/Common.h:158-161 | constructing a `LogIndent` raises the indent by four |
| Common.Log.CloseIndent | SgtCore/Common.h:162-165 | destroying a `LogIndent` lowers the indent by four |
| Common.Log.Start | SgtCore/Common.h:105-144 | `message()`, `warning()`, `debug()`, `error()` and `fatal()` reset their buffer with the channel's prefixes at the current indent |
| Common.IndentedEntry | SgtCore/Common.h:155-166 | an entry written inside a `LogIndent` scope is indented four spaces further, and the level is restored afterwards |
| Common.LogLevels.constructor | SgtCore/Common.cc:77-99 | messages, warnings and errors are logged at the normal level and debug output is off |
| Common.DotSymmetric | SgtCore/Common.h:360-365 | the dot product is symmetric |
| Common.DotScale | SgtCore/Common.h:360-372 | scaling one argument scales the dot product |
| Common.SelfDotNonneg | SgtCore/Common.h:360-365 | a vector's dot product with itself is not negative |
| Common.Dot | SgtCore/Common.h:360-365 | `dot` accumulates the sum of the componentwise products |
| Common.Scaled | SgtCore/Common.h:367-377 | a scaled vector has the same dimension and each component multiplied by the scalar |
| Common.Scale | SgtCore/Common.h:367-372 | the scaling loop gives the scaled vector |
| Common.Add | SgtCore/Common.h:379-384 | vector addition is componentwise |
| Common.Sub | SgtCore/Common.h:386-391 | vector subtraction is componentwise |
| Common.AddSubRoundTrip | SgtCore/Common.h:360-391 | adding and then subtracting the same vector gives the original back, and a vector dotted with itself is not negative |
| ComplexText.Double | SgtCore/Common.cc:139-159 | `double_` either fails or consumes at least one token and stays within the text |
| ComplexText.FromString | SgtCore/Common.cc:203-211 | text starting with a number always parses, and text that parses starts with a number, a sign or an opening bracket; anything else is the "Bad complex number string" error |
| ComplexText.BracketedForms | SgtCore/Common.cc:142-147 | "(a, b)", "(, b)", "(a)" and "(a,)" read as a + bj, bj, a and a |
| ComplexText.UnbracketedForms | SgtCore/Common.cc:148-155 | "a+bj", "a-bi", "-a-bj", "bj" and "a" read as a + bj, a − bj, −a − bj, bj and a |
| ComplexText.PolarForms | SgtCore/Common.cc:139-140 | "m R ang" is m turned by ang radians, and "m D ang" is m turned by ang degrees, converted as ang·π/180 |
| ComplexText.TrailingIgnored | SgtCore/Common.cc:157-159 | `phrase_parse` takes the first alternative that matches and ignores what follows: "a+b" without 'j' reads as a, and an unclosed "(a, b" is an error |
| ComplexText.RoundTrip | SgtCore/Common.cc:213-229 | reading back what `to_string` writes gives each part as cast to float and printed, with its sign, and a zero imaginary part as 0 |
| ComplexText.ExactRoundTrip | SgtCore/Common.cc:203-229 | where the cast and the printing lose nothing, `from_string(to_string(c))` is c |
| Calculator.Skip | SgtCore/Parser.cc:269 | the space skipper stops at the first character that is not white space, having passed only white space |
| Calculator.DigitsEnd | SgtCore/Parser.cc:27 | the digit run of `uint_` ends at the first non-digit |
| Calculator.ToInt32 | SgtCore/Parser.cc:44 | the `unsigned` value of `uint_` stored into an `int` lies in the 32-bit range and is unchanged below 2³¹ |
| Calculator.CDiv | SgtCore/Parser.cc:39 | C++ integer division truncates toward zero, and agrees with Euclidean division on non-negative operands |
| Calculator.UInt | SgtCore/Parser.cc:27-44 | `uint_` either fails or consumes at least one character, and never reports a division by zero |
| Calculator.Lit | SgtCore/Parser.cc:31-47 | a literal character either fails or is consumed |
| Calculator.Expression | SgtCore/Parser.cc:29-34 | `expression` either fails or consumes at least one character |
| Calculator.ExpressionTail | SgtCore/Parser.cc:31-33 | the repeated `+ term` / `- term` part never moves backwards |
| Calculator.Term | SgtCore/Parser.cc:36-41 | `term` either fails or consumes at least one character |
| Calculator.TermTail | SgtCore/Parser.cc:38-40 | the repeated `* factor` / `/ factor` part never moves backwards |
| Calculator.Factor | SgtCore/Parser.cc:43-48 | `factor` either fails or consumes at least one character |
| Calculator.SignedFactor | SgtCore/Parser.cc:46-47 | a signed factor either fails or consumes at least one character |
| Calculator.NatDigitsShape | SgtCore/Parser.cc:274 | the decimal digits written for a natural number are a non-empty run of digits whose value is that number |
| Calculator.DigitsEndAll | SgtCore/Parser.cc:27 | a text made only of digits is read as one digit run to its end |
| Calculator.NatDigitsParse | SgtCore/Parser.cc:27-47 | the decimal text of a number below 2³¹ parses, by `uint_` and as an expression, to that number, consuming all of it |
| Calculator.DecimalParse | SgtCore/Parser.cc:29-47 | the decimal text (with a minus sign if negative) of any 32-bit value but the smallest parses back to that value, consuming all of it |
| Calculator.NegativeDecimalParse | SgtCore/Parser.cc:46 | a negative number's decimal text parses as a negated factor to that number |
| Calculator.NegatedDigitsFactor | SgtCore/Parser.cc:46 | "-" followed by the digits of −n is a factor whose value is n |
| Calculator.ExpressionTailFolds | SgtCore/Parser.cc:31-33 | a chain of `+ term` / `- term` folds from the left into the accumulated value and ends after the last term |
| Calculator.TermTailFolds | SgtCore/Parser.cc:38-40 | a chain of `* factor` / `/ factor` folds from the left, with truncating division, and fails with a division by zero when a divisor is 0 |
| Calculator.TermFolds | SgtCore/Parser.cc:36-41 | a term is its first factor folded with the following products and quotients |
| Calculator.ExpressionFolds | SgtCore/Parser.cc:29-34 | an expression is its first term folded with the following sums and differences |
| Calculator.DigitTerm | SgtCore/Parser.cc:36-44 | a single digit not followed by `*` or `/` is a factor and a term of its own value |
| Calculator.ExpressionEnds | SgtCore/Parser.cc:31-33 | when no `+` or `-` follows, the tail adds nothing and consumes nothing |
| Calculator.TimesBindsTighter | SgtCore/Parser.cc:29-41 | "a+b*c" is a + b·c and "a*b+c" is a·b + c |
| Calculator.MinusLeftAssociative | SgtCore/Parser.cc:31-33 | "a-b-c" is (a − b) − c |
| Calculator.DivLeftAssociative | SgtCore/Parser.cc:38-40 | "a/b/c" is (a / b) / c with truncating division, and a zero divisor is a division by zero |
| Calculator.Brackets | SgtCore/Parser.cc:45 | "(a+b)" is a + b, consuming the closing bracket |
| Calculator.BracketedSum | SgtCore/Parser.cc:29-45 | inside brackets the expression a+b stops before ')' |
| Calculator.DoubleNegation | SgtCore/Parser.cc:46 | "--a" is a |
| Calculator.SpacesSkipped | SgtCore/Parser.cc:269 | white space between tokens is skipped: " a * -b" is a·(−b) |
| Calculator.TrailingTextUnread | SgtCore/Parser.cc:269 | `phrase_parse` succeeds on a prefix: "a+" and "a)" both read as a, consuming only the digit |
| Calculator.OneDigit | SgtCore/Parser.cc:44 | a single digit followed by a non-digit is read by `uint_` as its own value |
| NameExpansion.CloseFrom | SgtCore/Parser.cc:248 | the lazy `.*?\}` ends at the first '}' from k, with no line terminator before it |
| NameExpansion.MatchAt | SgtCore/Parser.cc:248 | a match of `\$\{.*?\}` starting at i closes at least two characters later, inside the text |
| NameExpansion.NextMatch | SgtCore/Parser.cc:250-259 | the regex iterator's next match is the leftmost position from which the pattern matches, and there is none exactly when the pattern matches nowhere further on |
| NameExpansion.NoMatchWithoutDollar | SgtCore/Parser.cc:250-253 | text without '$' has no placeholder |
| NameExpansion.FirstPlaceholder | SgtCore/Parser.cc:248-262 | in pre + "${name}" + post with no '$' in pre, the first match is that placeholder and its inner text is name |
| NameExpansion.OnePlaceholder | SgtCore/Parser.cc:248-262 | pre + "${name}" + post, with no other '$', splits into one prefix pre with expression name, followed by post |
| NameExpansion.SubstitutedErr | SgtCore/Parser.cc:269-273 | an ill-formed expression stops the expansion: an error for the first loops is the error for all of them |
| NameExpansion.PlaceholderValues | SgtCore/Parser.cc:262-275 | the inner loop substitutes each active loop's counter for its name in turn and appends the evaluated value once per loop, failing on an ill-formed expression |
| NameExpansion.ExpandName | SgtCore/Parser.cc:244-279 | `expandName` returns a target without placeholders unchanged, and otherwise each placeholder's prefix followed by its values, as written |
| NameExpansion.NoPlaceholder | SgtCore/Parser.cc:253-256 | a name with no '$' expands to itself, as written and as intended |
| NameExpansion.ExpandSingle | SgtCore/Parser.cc:259-276 | for a target with one placeholder the code as written yields only the prefix and the placeholder's values: the text after it is dropped |
| NameExpansion.ExpandSingleFixed | SgtCore/Parser.cc:259-276 | with the correction, a target with one placeholder yields prefix, value and the text after it, or the evaluation's error |
| NameExpansion.ExpandOneLoopAsWritten | SgtCore/Parser.cc:259-276 | "pre${i}post" inside loop i at counter k expands as written to "pre" + k, losing "post" |
| NameExpansion.ExpandOneLoop | SgtCore/Parser.cc:259-276 | corrected, "pre${i}post" inside loop i at counter k expands to "pre" + k + "post" |
| NameExpansion.SubstitutedOne | SgtCore/Parser.cc:263-275 | one loop whose name is the whole placeholder substitutes and evaluates to its counter |
| NameExpansion.SubstitutedTwo | SgtCore/Parser.cc:263-275 | with two active loops the placeholder's value is appended twice as written, while the substituted expression is still the counter |
| NameExpansion.ValuePerLoopAsWritten | SgtCore/Parser.cc:263-275 | "${i}" inside two nested loops expands as written to the counter written twice |
| NameExpansion.ValueOnce | SgtCore/Parser.cc:263-275 | corrected, "${i}" inside two nested loops expands to the counter once |
| NameExpansion.ReplaceWhole | SgtCore/Parser.cc:265 | `regex_replace` of a whole non-empty text by itself gives the replacement |
| NameExpansion.ReplaceAbsent | SgtCore/Parser.cc:265 | `regex_replace` of a pattern that occurs nowhere leaves the text unchanged |
| NameExpansion.ReplaceNoDollar | SgtCore/Parser.cc:265 | a pattern starting with '$' does not change text without '$' |
| NameExpansion.ReplaceAround | SmartGridToolbox/Parser.cc:204 | a '$'-led pattern between two '$'-free texts is replaced exactly there |
| NameExpansion.ReplacePlaceholder | SmartGridToolbox/Parser.cc:202-204 | `replace_all` of "${name}" in pre + "${name}" + post, with no other '$', gives pre + value + post |
| NameExpansion.ReplaceOne | SmartGridToolbox/Parser.cc:197-207 | with one active loop the older `expandName` is one `replace_all` of "${name}" by the counter |
| NameExpansion.FixedAgreesWithReplace | SgtCore/Parser.cc:244-279 | for a single placeholder naming the one active loop, the corrected expansion agrees with the older `replace_all` version |
| NameExpansion.LoopPasses | SmartGridToolbox/Parser.cc:491-500 | a loop node parses its body `count` times (never for a count of 0 or less), the p-th time with the loop pushed at counter p, and pops it afterwards |
| YamlDecode.LookupSpec | SgtCore/Parser.cc:283 | looking a field up in a map node finds something exactly when some entry has that key |
| YamlDecode.FieldPresence | SgtCore/Parser.cc:281-287 | `assertFieldPresent` passes exactly when the node is a map with an entry for the field, and is fatal otherwise; on success the field is the one found |
| YamlDecode.GetTopNode | SgtCore/Parser.cc:289-298 | the top node is accepted exactly when it is non-empty, and returned unchanged; an empty file is fatal |
| YamlDecode.DecodeVector | SgtCore/Parser.cc:162-178 | a vector decodes exactly when the node is a sequence whose every item converts, giving one value per item in order; a non-sequence is rejected |
| YamlDecode.EncodeVector | SgtCore/Parser.cc:153-158 | encoding a vector gives a sequence with one scalar per element, in order |
| YamlDecode.VectorRoundTrip | SgtCore/Parser.cc:153-178 | where the element conversion reads back what it writes, decoding an encoded vector gives the vector back |
| YamlDecode.PhaseMaskSpec | SgtCore/Parser.cc:104-109 | the decoded phase set holds a phase bit exactly when some item names that phase |
| YamlDecode.DecodePhases | SgtCore/Parser.cc:96-112 | a phase set decodes exactly when the node is a sequence of scalars, and is the union of the phases they name |
| YamlDecode.MatrixShape | SgtCore/Parser.cc:199-226 | a matrix node is accepted only when it is a sequence with at least one row, its first row has at least one column, and every row has as many columns as the first |
| YamlDecode.CheckRows | SgtCore/Parser.cc:219-226 | the row-length loop accepts exactly the shapes `MatrixShape` accepts, with the same message |
| YamlDecode.DecodeMatrixAsWritten | SgtCore/Parser.cc:199-237 | as written the copy loop runs the column index up to the number of rows: columns beyond that are left unset, and a matrix with more rows than columns reads past its rows and fails |
| YamlDecode.DecodeMatrix | SgtCore/Parser.cc:199-237 | corrected, a well-shaped matrix node decodes exactly when every cell converts, into an nrows × ncols matrix holding each cell's value |
| YamlDecode.EncodeMatrix | SgtCore/Parser.cc:182-195 | encoding a matrix gives one encoded row per row |
| YamlDecode.MatrixRoundTrip | SgtCore/Parser.cc:182-237 | where the cell conversion reads back what it writes, decoding an encoded rectangular matrix gives every cell back |
| YamlDecode.MatrixBoundExamples | SgtCore/Parser.cc:228-234 | as written a 1×2 matrix decodes with its second cell unset and a 2×1 matrix fails; corrected, both decode with every cell |
| ToolboxParser.ParseGlobal | SmartGridToolbox/Parser.cc:271-337 | `parseGlobal` fails when start_time or end_time is missing, a time, the lat_long pair or the timezone does not parse, or the configuration name is not a scalar, and otherwise records the name ("null" when absent), both times, the lat-long exactly when given, and the timezone |
| ToolboxParser.RequiredGlobals | SmartGridToolbox/Parser.cc:273-305 | the required start and end times and the optional configuration name: a missing field is fatal with its message, and on success the name and both parsed times are returned |
| ToolboxParser.ParseLatLong | SmartGridToolbox/Parser.cc:307-323 | an absent lat_long leaves the position unset; a present one must be a list of exactly two reals, which become latitude and longitude |
| ToolboxParser.ValTypeFlagsAgree | SmartGridToolbox/Parser.cc:346-374 | the value_type branches accept exactly the four value types of the plugin parser, with isComplex and isVector set as their names say |
| ToolboxParser.InterpKindAgrees | SmartGridToolbox/Parser.cc:441-452 | the interpolation branches create a series exactly for "stepwise", "lerp" and "spline", the same kinds the plugin parser creates |
| ToolboxParser.ParsedSeries | SmartGridToolbox/Parser.cc:339-482 | a time series is acquired only for a real scalar value type, under its name, as a constant series for "const_time_series" and a data series (of a known kind) for "data_time_series"; any other type is fatal |
| ToolboxParser.ConstSeriesValue | SmartGridToolbox/Parser.cc:376-384 | a constant series has the value of its const_value field |
| ToolboxParser.DataPointsSpec | SmartGridToolbox/Parser.cc:454-467 | the points added from the data lines keep their times increasing, and the value stored at each time is that of the last line mapping to it |
| ToolboxParser.UnknownInterpolation | SmartGridToolbox/Parser.cc:437-467 | as written an unknown interp_type leaves the series null, so any data line dereferences null; corrected, it is the error "Bad interp_type for time series." |
| ToolboxParser.KnownInterpolationAgrees | SmartGridToolbox/Parser.cc:339-482 | for the three known interpolation types the corrected parser and the parser as written agree |
| MatpowerParser.Zeros | SgtCore/MatpowerParser.cc:191 | the fill of `setfill('0')` is k characters '0' |
| MatpowerParser.PaddedShape | SgtCore/MatpowerParser.cc:188-193 | `num2PaddedString` is at least five characters long, ends in the number's decimal text and is '0' before it |
| MatpowerParser.DashIndex | SgtCore/MatpowerParser.cc:188-193 | the position of the first minus sign in a padded number lies within the text |
| MatpowerParser.ZerosValue | SgtCore/MatpowerParser.cc:191 | the zero fill is digits of value 0 |
| MatpowerParser.LeadingZeros | SgtCore/MatpowerParser.cc:191 | leading zeros do not change the value of a run of digits |
| MatpowerParser.NoDash | SgtCore/MatpowerParser.cc:188-193 | a padded non-negative number has no minus sign |
| MatpowerParser.DashAfterZeros | SgtCore/MatpowerParser.cc:188-193 | in a padded negative number the minus sign comes right after the zero fill |
| MatpowerParser.DecimalShape | SgtCore/MatpowerParser.cc:191 | the decimal text of n is its digits, after a minus sign when n is negative, and has no underscore |
| MatpowerParser.FilledReadsBack | SgtCore/MatpowerParser.cc:188-193 | a zero-filled decimal text reads back as its number |
| MatpowerParser.PaddedReadsBack | SgtCore/MatpowerParser.cc:188-193 | `num2PaddedString(n)` reads back as n |
| MatpowerParser.PaddedInjective | SgtCore/MatpowerParser.cc:188-193 | different numbers give different padded texts |
| MatpowerParser.PaddedDigits | SgtCore/MatpowerParser.cc:188-193 | a non-negative number pads to at least five digits whose value is the number |
| MatpowerParser.PaddedNoUnderscore | SgtCore/MatpowerParser.cc:188-193 | a padded number contains no underscore, so it can be split off at '_' |
| MatpowerParser.UnderscoreIndex | SgtCore/MatpowerParser.cc:200-214 | the position of the first underscore lies within the text |
| MatpowerParser.UnderscoreAfter | SgtCore/MatpowerParser.cc:200-214 | in x + "_" + y with no underscore in x, the first underscore follows x |
| MatpowerParser.SplitJoined | SgtCore/MatpowerParser.cc:200-214 | two underscore-joined ids are equal only when their parts are |
| MatpowerParser.StripPrefix | SgtCore/MatpowerParser.cc:195-214 | ids that share a prefix are equal only when what follows it is |
| MatpowerParser.BusIdInjective | SgtCore/MatpowerParser.cc:195-198 | different bus numbers give different bus ids |
| MatpowerParser.ZipIdInjective | SgtCore/MatpowerParser.cc:200-203 | a zip id determines its zip index and bus number |
| MatpowerParser.GenIdInjective | SgtCore/MatpowerParser.cc:205-208 | a generator id determines its generator index and bus number |
| MatpowerParser.BranchIdInjective | SgtCore/MatpowerParser.cc:210-214 | a branch id determines its branch index and both bus numbers |
| MatpowerParser.BusInfoOf | SgtCore/MatpowerParser.cc:262-287 | a bus row's kV base is column 10 when above 1e-6 and the default kV base otherwise; the four market columns are read only when the bus table is wider than 13 columns, and are 0 otherwise |
| MatpowerParser.GenCostOf | SgtCore/MatpowerParser.cc:342-356 | a gencost row has as many costs as its fourth column says, read from column 5 on |
| MatpowerParser.ExtractBuses | SgtCore/MatpowerParser.cc:258-288 | one bus record per bus row, in order, each read from its row |
| MatpowerParser.ExtractGens | SgtCore/MatpowerParser.cc:290-311 | one generator record per gen row, in order, each read from its row |
| MatpowerParser.ExtractBranches | SgtCore/MatpowerParser.cc:313-336 | one branch record per branch row, in order, each read from its row |
| MatpowerParser.ExtractGenCost | SgtCore/MatpowerParser.cc:344-355 | a gencost row is read exactly when its cost count is not negative; a negative count makes `reserve` throw `length_error` |
| MatpowerParser.ExtractGenCosts | SgtCore/MatpowerParser.cc:338-357 | the gencost table is read row by row, and fails with `length_error` exactly when some row has a negative cost count |
| MatpowerParser.BusTypeOf | SgtCore/MatpowerParser.cc:369-384 | type 1 is PQ, 2 is PV, 3 is SL, and any other type is BAD |
| MatpowerParser.DivCancel | SgtCore/MatpowerParser.cc:105-115 | dividing by a non-zero base and multiplying back gives the original |
| MatpowerParser.YBusShunt2Siemens | SgtCore/MatpowerParser.cc:104-108 | a shunt admittance in siemens, times the kV base squared, gives back the case's value in MW at 1 p.u. |
| MatpowerParser.YBranch2Siemens | SgtCore/MatpowerParser.cc:110-115 | a branch admittance in siemens, times the kV base squared, is the per-unit value times the MVA base |
| MatpowerParser.BranchAdmittanceIsPerUnit | SgtCore/MatpowerParser.cc:110-115 | the branch conversion is the network's per-unit-to-siemens conversion for that MVA base and kV base |
| MatpowerParser.Recip | SgtCore/MatpowerParser.cc:451 | `1.0 / Complex(R, X)` exists exactly when R + jX is not zero, and is its multiplicative inverse |
| MatpowerParser.RecipProduct | SgtCore/MatpowerParser.cc:451 | (a + jb)·(a − jb)/(a² + b²) is 1 |
| MatpowerParser.SquaresPositive | SgtCore/MatpowerParser.cc:451 | a non-zero impedance has a positive squared magnitude |
| MatpowerParser.UnsetTapIsNominal | SgtCore/MatpowerParser.cc:449 | a tap column below 1e-6 in magnitude between busses of the same base is the nominal ratio 1 |
| MatpowerParser.SetTapScalesBaseRatio | SgtCore/MatpowerParser.cc:449 | a set tap is that ratio times the ratio of the two bus bases |
| MatpowerParser.TapScaleFree | SgtCore/MatpowerParser.cc:449 | scaling both bus bases by one factor leaves the tap magnitude unchanged |
| MatpowerParser.BusRecordOf | SgtCore/MatpowerParser.cc:364-399 | each bus gets its id and the type of its type column, and is in service |
| MatpowerParser.BusPerUnit | SgtCore/MatpowerParser.cc:366-399 | a new bus's nominal voltage is 1 p.u. of its base and real, and its limits in kV are the case's per-unit limits times the base |
| MatpowerParser.ZipRecordOf | SgtCore/MatpowerParser.cc:386-391 | each bus's ZIP load carries its own id and the bus's id |
| MatpowerParser.ZipLoad | SgtCore/MatpowerParser.cc:386-391 | a ZIP load's constant power is −(Pd + jQd), and its constant admittance, times the kV base squared, is Gs + jBs |
| MatpowerParser.GenRecordOf | SgtCore/MatpowerParser.cc:408-431 | a generator gets its id and bus, is in service exactly when its status is non-zero, and starts with all costs 0 |
| MatpowerParser.FindBus | SgtCore/MatpowerParser.cc:446-447 | the lookup of a bus id finds the first bus with that id, or reports that none has it |
| MatpowerParser.BranchRecordOf | SgtCore/MatpowerParser.cc:434-458 | a branch gets its id and end busses, is in service exactly when its status is non-zero, and has a series admittance exactly when its impedance is not zero |
| MatpowerParser.BranchSeriesAdmittance | SgtCore/MatpowerParser.cc:451 | the series admittance times the impedance, times the to-bus base squared, is the MVA base |
| MatpowerParser.BuildBusses | SgtCore/MatpowerParser.cc:362-403 | one bus and one ZIP load per bus record, in order, numbered by the running zip count |
| MatpowerParser.BuildGens | SgtCore/MatpowerParser.cc:405-431 | one generator per generator record, in order |
| MatpowerParser.BuildBranches | SgtCore/MatpowerParser.cc:433-458 | every branch is built from its record and the busses its end ids name; a branch naming a bus that does not exist is a null dereference |
| MatpowerParser.CoeffsAsWritten | SgtCore/MatpowerParser.cc:482-494 | as written the cost assignment reads `costs[2]` whenever there is a cost, so it succeeds only for zero or three costs |
| MatpowerParser.CoeffsMatchPolynomial | SgtCore/MatpowerParser.cc:482-494 | the corrected coefficients c0, c1, c2 give the same cost as the MATPOWER polynomial, whose last listed coefficient is the constant term |
| MatpowerParser.CoeffsMatchAll | SgtCore/MatpowerParser.cc:482-494 | the corrected coefficients agree with the MATPOWER polynomial at every power |
| MatpowerParser.AsWrittenAgreesOnThree | SgtCore/MatpowerParser.cc:482-494 | with three costs the code as written and the corrected reading agree |
| MatpowerParser.ConstantCostAsWritten | SgtCore/MatpowerParser.cc:483-486 | with one cost the code as written reads past the end, while corrected the cost is the constant term |
| MatpowerParser.LinearCostAsWritten | SgtCore/MatpowerParser.cc:483-490 | with two costs the code as written reads past the end, while corrected they are the linear and constant terms |
| MatpowerParser.CostCoeffs | SgtCore/MatpowerParser.cc:482-494 | the corrected reading always succeeds; as written it fails exactly for one or two costs; whenever it succeeds the coefficients are the corrected ones |
| MatpowerParser.CostRowFailure | SgtCore/MatpowerParser.cc:461-478 | a gencost row is accepted only for cost model 2, at most three costs, a generator at its index and readable coefficients |
| MatpowerParser.FirstCostFailure | SgtCore/MatpowerParser.cc:461-495 | the cost loop stops at a failing row exactly when some row fails |
| MatpowerParser.ShortRowFailsAsWritten | SgtCore/MatpowerParser.cc:482-494 | a model-2 row with one or two costs fails as written and is accepted corrected |
| MatpowerParser.WithCosts | SgtCore/MatpowerParser.cc:480-494 | applying a cost row sets the startup, shutdown and polynomial costs and changes nothing else about the generator |
| MatpowerParser.ApplyGenCosts | SgtCore/MatpowerParser.cc:460-495 | the cost loop fails exactly at the first bad row with its message; otherwise the first generators get their rows' costs and the rest keep theirs |
| MatpowerParser.CostedGens | SgtCore/MatpowerParser.cc:460-495 | costing a list of generators keeps each generator but for its costs, costs the first ones by their rows and leaves the rest |
| MatpowerParser.Parse | SgtCore/MatpowerParser.cc:217-496 | a parsed case is the case of the rows' info records: the MVA base; per bus row the bus (id, type, nominal and base voltage, limits, voltage) and the ZIP load of its demand and shunt; per gen row the generator of its power and limits, with costs 0 unless a gencost row sets them; per branch row the branch built from the busses its ends name. A branch row naming no bus row fails |
| MatpowerParser.BuildCase | SgtCore/MatpowerParser.cc:359-496 | building succeeds exactly when every branch names bus rows and no cost row fails; then every bus, ZIP load, generator (up to its costs) and branch is the record its row gives, and the cost rows' costs are applied |
| MatpowerParser.BuildNetwork | SgtCore/MatpowerParser.cc:362-458 | the bus loop and the branch loop (the generator loop between them is BuildCostedGens): the busses and ZIP loads are those of the bus rows, and the branches those of the branch rows between the busses they name; it fails with a null dereference exactly when a branch row names a bus no row numbers |
| MatpowerParser.BuildCostedGens | SgtCore/MatpowerParser.cc:405-495 | the generators are built and then costed: each is its gen row's generator up to its costs, with the row's id, and only the rows in the gencost table change the costs |
| MatpowerParser.ParsedIdsDistinct | SgtCore/MatpowerParser.cc:363-388 | the ZIP loads of different bus rows have different ids, and busses with different numbers have different ids |
| MatpowerPlugin.DecimalReadsBack | SgtCore/MatpowerParserPlugin.cc:199-223 | `std::to_string(n)` reads back as n and contains no underscore |
| MatpowerPlugin.DecimalInjective | SgtCore/MatpowerParserPlugin.cc:199-223 | different numbers have different decimal texts |
| MatpowerPlugin.BusIdInjective | SgtCore/MatpowerParserPlugin.cc:199-203 | different bus numbers give different bus ids |
| MatpowerPlugin.ZipIdInjective | SgtCore/MatpowerParserPlugin.cc:205-209 | a zip id determines its zip index and bus number |
| MatpowerPlugin.GenIdInjective | SgtCore/MatpowerParserPlugin.cc:211-215 | a generator id determines its generator index and bus number |
| MatpowerPlugin.BranchIdInjective | SgtCore/MatpowerParserPlugin.cc:217-223 | a branch id determines its branch index and both bus numbers |
| MatpowerPlugin.IdsUnpadded | SgtCore/MatpowerParserPlugin.cc:190-203 | the plugin's ids are unpadded: bus 1 is "bus_1", not the padded "bus_00001" of the older parser |
| MatpowerPlugin.ScalesOf | SgtCore/MatpowerParserPlugin.cc:235-248 | the voltage and power scales are those given, 1 when absent; the conductance scale is derived from them, and a zero scale is rejected |
| MatpowerPlugin.ScalesConsistent | SgtCore/MatpowerParserPlugin.cc:247-248 | the conductance scale times the voltage scale squared is the power scale |
| MatpowerPlugin.DefaultScales | SgtCore/MatpowerParserPlugin.cc:235-248 | without scale_V_by and scale_P_by every scale is 1 |
| MatpowerPlugin.CheckGenCostCount | SgtCore/MatpowerParserPlugin.cc:362-372 | a gencost table is accepted when it is empty or has one or two rows per generator; two rows per generator are reactive costs, which are ignored with a warning; any other count is fatal with its message |
| MatpowerPlugin.CostRowsCoverGens | SgtCore/MatpowerParserPlugin.cc:377-381 | an accepted non-empty gencost table has a row for every generator, so reading row i for each generator stays in range |
| MatpowerPlugin.ExtractGenCosts | SgtCore/MatpowerParserPlugin.cc:374-396 | one cost record is read per generator from the first rows of a non-empty table, and none from an empty one; a negative cost count throws `length_error` |
| MatpowerPlugin.FirstReadFailure | SgtCore/MatpowerParserPlugin.cc:522-559 | the cost loop fails exactly when some cost row it does not ignore cannot be read |
| MatpowerPlugin.ApplyGenCosts | SgtCore/MatpowerParserPlugin.cc:522-559 | rows with more than three costs or a model other than 2 are ignored with a warning and reported; every other row sets its generator's costs; other generators are unchanged |
| MatpowerPlugin.FirstOfType | SgtCore/MatpowerParserPlugin.cc:445-453 | `find_if` on bus type gives the first bus of that type, or none |
| MatpowerPlugin.SlackFallbackSpec | SgtCore/MatpowerParserPlugin.cc:444-460 | with no slack bus the first PV bus becomes the slack bus and nothing else changes; with a slack bus nothing changes; with neither it fails |
| MatpowerPlugin.EnsureSlack | SgtCore/MatpowerParserPlugin.cc:444-460 | the slack check on the bus array performs that fallback in place |
| MatpowerPlugin.OnlySetpointsTransitive | SgtCore/MatpowerParserPlugin.cc:487-488 | changes that touch only voltage setpoints compose |
| MatpowerPlugin.SetpointStep | SgtCore/MatpowerParserPlugin.cc:487-488 | each generator changes only the voltage setpoint of its bus |
| MatpowerPlugin.WithSetpoints | SgtCore/MatpowerParserPlugin.cc:465-491 | the generator loop changes only voltage setpoints |
| MatpowerPlugin.WithSetpointsNext | SgtCore/MatpowerParserPlugin.cc:465-491 | the generator loop handles the generators one after another |
| MatpowerPlugin.LastGenAt | SgtCore/MatpowerParserPlugin.cc:465-491 | the last generator on a bus, or none |
| MatpowerPlugin.FindBusSameIds | SgtCore/MatpowerParserPlugin.cc:487 | changing setpoints does not change which bus an id finds |
| MatpowerPlugin.SetpointOfLastGen | SgtCore/MatpowerParserPlugin.cc:465-491 | each bus ends with the setpoint of the last generator attached to it, or keeps its own when it has none |
| MatpowerPlugin.IntendedPerUnit | SgtCore/MatpowerParserPlugin.cc:403-438 | corrected, a bus's nominal voltage is 1 p.u. of its base, its limits and a generator's setpoint are the case's per-unit values |
| MatpowerPlugin.SetpointPerUnit | SgtCore/MatpowerParserPlugin.cc:488 | corrected, a generator's setpoint is its Vg in per unit of the bus base |
| MatpowerPlugin.PowerScaleMovesVoltages | SgtCore/MatpowerParserPlugin.cc:407 | with scale_P_by 2 and a 10 kV bus, the code as written gives a 20 kV base and a 20 kV setpoint for Vg = 1 p.u. on a 10 kV nominal voltage; corrected, base and setpoint are 10 kV |
| MatpowerPlugin.ReadingsAgreeWithoutPowerScale | SgtCore/MatpowerParserPlugin.cc:407 | without scaling, the code as written and the correction give the same base and setpoints |
| MatpowerPlugin.SetSetpoint | SgtCore/MatpowerParserPlugin.cc:487-488 | setting a generator's setpoint finds its bus exactly when it exists, and then performs one setpoint step |
| MatpowerPlugin.GensFoundEach | SgtCore/MatpowerParserPlugin.cc:487 | the generator loop meets no missing bus exactly when every generator's bus exists |
| MatpowerPlugin.GensFoundNext | SgtCore/MatpowerParserPlugin.cc:487 | one missing bus makes the whole loop fail |
| MatpowerPlugin.SetGenSetpoints | SgtCore/MatpowerParserPlugin.cc:465-491 | the setpoint loop succeeds exactly when every generator's bus exists, leaving each bus with its generators' setpoints |
| MatpowerPlugin.SetNextSetpoint | SgtCore/MatpowerParserPlugin.cc:487-488 | one more pass of the setpoint loop extends the work done, or shows a bus is missing |
| MatpowerPlugin.AddGens | SgtCore/MatpowerParserPlugin.cc:462-491 | the generators are built in order from their rows and each bus gets its setpoints; a generator on a missing bus is a null dereference |
| MatpowerPlugin.Parse | SgtCore/MatpowerParserPlugin.cc:226-560 | a parsed case fails on a bad gencost count or scale; otherwise it is the case of the rows' info records under the scales: the busses as made, after the slack fallback and the generator setpoints, a ZIP load per bus row, a generator per gen row (up to its costs) and a branch per branch row between the busses it names, with unpadded ids, a slack bus, and the costs of every row it does not ignore |
| MatpowerPlugin.BuildCostedCase | SgtCore/MatpowerParserPlugin.cc:374-560 | reading the cost rows and building the network gives the components described for `Parse` |
| MatpowerPlugin.RowCostsApplied | SgtCore/MatpowerParserPlugin.cc:522-559 | the costs read from the rows are the costs the generators end with |
| MatpowerPlugin.SameIdsAndBasesKeep | SgtCore/MatpowerParserPlugin.cc:444-491 | a step that keeps ids and bases keeps their properties |
| MatpowerPlugin.FallbackKeeps | SgtCore/MatpowerParserPlugin.cc:444-460 | the slack fallback keeps ids and bases and leaves a slack bus |
| MatpowerPlugin.SetpointsKeep | SgtCore/MatpowerParserPlugin.cc:487-488 | setting setpoints keeps ids, bases and the slack bus |
| MatpowerPlugin.BuiltBusses | SgtCore/MatpowerParserPlugin.cc:403-442 | built busses carry their rows' ids and non-zero bases |
| MatpowerPlugin.BuildBusStage | SgtCore/MatpowerParserPlugin.cc:401-491 | the bus, slack and generator stages give the busses of the bus rows after the slack fallback and the generator setpoints, with their rows' ids, non-zero bases and a slack bus; the ZIP load of each bus row's demand and shunt; and the generator of each gen row |
| MatpowerPlugin.BuildCase | SgtCore/MatpowerParserPlugin.cc:398-560 | building the network fails when a cost row it uses cannot be read; otherwise every component is the record its row gives (busses after the slack fallback and setpoints, generators up to their costs, branches from the busses they name), with a slack bus and the costs of every row it does not ignore |
| MatpowerPlugin.CostedGens | SgtCore/MatpowerParserPlugin.cc:522-559 | costing keeps every generator's id, applies each row not ignored and leaves the rest |
| CdfParser.SettingsOf | SmartGridToolbox/CdfParser.cc:77-101 | the settings are read exactly when input_file, network_name and default_V_base are present; phases default to one balanced phase, use_per_unit to false and freq_Hz to 50 |
| CdfParser.Field | SmartGridToolbox/CdfParser.cc:118-128 | `line.substr(pos, n)` is the at most n characters from pos |
| CdfParser.Layout | SmartGridToolbox/CdfParser.cc:128-169 | a line laid out in ordered fixed columns ends where its last column ends |
| CdfParser.LayoutReadsBack | SmartGridToolbox/CdfParser.cc:128-169 | each column of a laid-out line reads back the text put there |
| CdfParser.LayoutLast | SmartGridToolbox/CdfParser.cc:128-169 | a laid-out line is its first columns, padding, then its last column |
| CdfParser.BusColumnsOrdered | SmartGridToolbox/CdfParser.cc:128-169 | the bus line's thirteen columns are in order and end at character 122 |
| CdfParser.BranchColumnsOrdered | SmartGridToolbox/CdfParser.cc:180-190 | the branch line's seven columns are in order and end at character 90 |
| CdfParser.VBaseOf | SmartGridToolbox/CdfParser.cc:135-137 | a zero kV column gives the default base voltage; any other gives the kV value in volts |
| CdfParser.BusLine | SmartGridToolbox/CdfParser.cc:127-169 | a bus line is read exactly when it reaches its last column's start; a shorter one throws `out_of_range` |
| CdfParser.BusLineReadsColumns | SmartGridToolbox/CdfParser.cc:127-169 | a bus line read back gives its number, type, base voltage, polar voltage from degrees, load as a negative injection in VA, generation in VA, reactive limits in VAr and shunt |
| CdfParser.TapOf | SmartGridToolbox/CdfParser.cc:185-189 | a zero tap reads as 1 and any other tap as itself, so the tap is never zero |
| CdfParser.BranchLine | SmartGridToolbox/CdfParser.cc:175-192 | a branch line is read exactly when it is long enough, and its tap is never zero |
| CdfParser.BranchLineReadsColumns | SmartGridToolbox/CdfParser.cc:180-191 | a branch line read back gives its bus numbers, impedance, charging, tap and shift in radians |
| CdfParser.FirstTerminator | SmartGridToolbox/CdfParser.cc:125 | a section ends at its first "-999" line |
| CdfParser.ScanBuses | SmartGridToolbox/CdfParser.cc:124-170 | the bus section reads when it has a terminator and every line before it is long enough, and stops at that terminator |
| CdfParser.ScanBusesUntouched | SmartGridToolbox/CdfParser.cc:129 | a bus number on no line of the section keeps its earlier entry, or stays absent |
| CdfParser.ScanBusesLastWins | SmartGridToolbox/CdfParser.cc:129 | the last line with a given bus number gives that bus's entry (`busMap[busId]` overwrites) |
| CdfParser.ScanBusesKeys | SmartGridToolbox/CdfParser.cc:129 | every bus of the map was there before or is named by a line of the section |
| CdfParser.ScanBranches | SmartGridToolbox/CdfParser.cc:175-192 | the branch section reads when it has a terminator and every line before it is long enough; it adds one branch per line |
| CdfParser.ScanBranchesAt | SmartGridToolbox/CdfParser.cc:177-178 | branches keep file order: the branch at each place is read from the line at that place |
| CdfParser.ReadSpec | SmartGridToolbox/CdfParser.cc:108-193 | a file is read when it has a title line reaching the MVA column, a "BUS" line, a bus section, a "BRANCH" line and a branch section; the base power is the MVA field in VA and the busses and branches are those of the sections |
| CdfParser.ReadTapsSet | SmartGridToolbox/CdfParser.cc:185-189 | every branch read has a nonzero tap |
| CdfParser.ReadBusSection | SmartGridToolbox/CdfParser.cc:124-170 | the bus loop gives the bus section's reading |
| CdfParser.ReadBranchSection | SmartGridToolbox/CdfParser.cc:175-192 | the branch loop gives the branch section's reading |
| CdfParser.ReadCdf | SmartGridToolbox/CdfParser.cc:106-193 | the reading of the file gives the file's specified reading, with its error cases |
| CdfParser.BusNameInjective | SmartGridToolbox/CdfParser.cc:42-52 | different bus numbers give different bus names |
| CdfParser.ZipNameInjective | SmartGridToolbox/CdfParser.cc:42-57 | different bus numbers give different ZIP names |
| CdfParser.BusZipNamesDiffer | SmartGridToolbox/CdfParser.cc:49-57 | no bus name is a ZIP name |
| CdfParser.BranchNameInjective | SmartGridToolbox/CdfParser.cc:59-63 | a branch name determines its place and both bus numbers |
| CdfParser.BusTypeOf | SmartGridToolbox/CdfParser.cc:201-222 | types 0 and 1 are PQ, 2 is PV and 3 is slack; 4 and every other type are fatal |
| CdfParser.Square | SmartGridToolbox/CdfParser.cc:241 | a non-zero value squared is positive |
| CdfParser.ZipOf | SmartGridToolbox/CdfParser.cc:268-271 | a bus's ZIP load is named after its bus and attached to it |
| CdfParser.BusSiIsPerUnit | SmartGridToolbox/CdfParser.cc:224-251 | a bus's SI voltage, generation and reactive limits, divided by their bases, are its per-unit values |
| CdfParser.ZipSiIsPerUnit | SmartGridToolbox/CdfParser.cc:235-242 | a ZIP load's SI power, and its SI shunt times V² over the base power, are its per-unit values |
| CdfParser.CDiv | SmartGridToolbox/CdfParser.cc:300-305 | complex division by a non-zero value is undone by multiplying by it |
| CdfParser.AdmOf | SmartGridToolbox/CdfParser.cc:285-313 | a branch's blocks exist exactly when its series impedance and complex tap are non-zero, where the source would divide by zero |
| CdfParser.NoShiftCrossEqual | SmartGridToolbox/CdfParser.cc:304-311 | without a phase shift the two cross blocks are equal, in per-unit and in SI |
| CdfParser.UnitTapCrossBlocks | SmartGridToolbox/CdfParser.cc:304-305 | with a unit tap the cross blocks are minus the series admittance |
| CdfParser.PuCrossBlocks | SmartGridToolbox/CdfParser.cc:304-305 | the cross blocks are minus the series admittance over the conjugate tap and over the tap |
| CdfParser.UnitTapEndBlocks | SmartGridToolbox/CdfParser.cc:302-303 | with a unit tap both end blocks are the series admittance plus half the charging |
| CdfParser.DivByOne | SmartGridToolbox/CdfParser.cc:304-305 | dividing by a unit tap changes nothing |
| CdfParser.SameBaseKeepsEnds | SmartGridToolbox/CdfParser.cc:306-313 | between busses of one base voltage, equal per-unit end blocks stay equal in SI and every block scales by one factor |
| CdfParser.BranchY | SmartGridToolbox/CdfParser.cc:321-329 | the branch matrix has the from-from, from-to, to-from and to-to blocks on the diagonals of its four quadrants and zero elsewhere |
| CdfParser.MinOf | SmartGridToolbox/CdfParser.cc:197 | the least number of a non-empty set |
| CdfParser.SortedIds | SmartGridToolbox/CdfParser.cc:197 | iterating a `std::map` visits its keys, each from the map |
| CdfParser.SortedIdsSorted | SmartGridToolbox/CdfParser.cc:197 | ... in increasing order ... |
| CdfParser.SortedIdsComplete | SmartGridToolbox/CdfParser.cc:197 | ... and every key is visited |
| CdfParser.SortedIdsFirst | SmartGridToolbox/CdfParser.cc:197 | the visit starts at the least key |
| CdfParser.FindName | SmartGridToolbox/CdfParser.cc:287-293 | looking a bus up by name finds a bus of that name, or none when no bus has it |
| CdfParser.FoundIffMade | SmartGridToolbox/CdfParser.cc:287-298 | a bus number's bus is found exactly when a bus was made for that number |
| CdfParser.WalkFindsExactly | SmartGridToolbox/CdfParser.cc:197-298 | the busses made are found exactly for the numbers of the bus map |
| CdfParser.MakeableIffEndsExist | SmartGridToolbox/CdfParser.cc:279-298 | every branch can be made exactly when both its bus numbers are in the bus map |
| CdfParser.ToBusMessageNamesWrongBus | SmartGridToolbox/CdfParser.cc:296 | for a branch from bus 1 to a missing bus 7, the code as written reports "to bus 1"; corrected, it reports "to bus 7" |
| CdfParser.ToBusMessageIdentifiesBus | SmartGridToolbox/CdfParser.cc:296 | the corrected message determines the missing to bus |
| CdfParser.BusesOf | SmartGridToolbox/CdfParser.cc:197-274 | one bus is made per bus number visited |
| CdfParser.ZipsOf | SmartGridToolbox/CdfParser.cc:268-271 | one ZIP load is made per bus number visited |
| CdfParser.BusesOfAt | SmartGridToolbox/CdfParser.cc:197-274 | the bus at each place is made from the number visited at that place |
| CdfParser.BusesNamedAfter | SmartGridToolbox/CdfParser.cc:253 | each bus made carries the number it was made for |
| CdfParser.Least | SmartGridToolbox/CdfParser.cc:197 | the next number visited is the least one left |
| CdfParser.MakeBus | SmartGridToolbox/CdfParser.cc:199-273 | a bus and its ZIP load are made exactly when the bus type is supported and, in SI, its base voltage is non-zero |
| CdfParser.BusStep | SmartGridToolbox/CdfParser.cc:197-274 | one pass of the bus loop makes the next bus and ZIP load in key order, or fails on that bus |
| CdfParser.BuildBuses | SmartGridToolbox/CdfParser.cc:197-274 | the bus loop makes every bus and ZIP load in increasing bus number exactly when every bus can be made |
| CdfParser.WalkBuses | SmartGridToolbox/CdfParser.cc:197-274 | the walk over the bus map makes the busses of its keys in order |
| CdfParser.WalkCoversMap | SmartGridToolbox/CdfParser.cc:197 | the walk can make every bus exactly when every bus of the map can be made |
| CdfParser.BranchesOf | SmartGridToolbox/CdfParser.cc:276-333 | one branch is made per branch read |
| CdfParser.BranchesOfAt | SmartGridToolbox/CdfParser.cc:276-333 | the branch at each place is made from the branch read at that place, numbered by its place |
| CdfParser.BuildBranches | SmartGridToolbox/CdfParser.cc:276-333 | the branch loop makes every branch in file order exactly when every branch can be made |
| CdfParser.MakeBranch | SmartGridToolbox/CdfParser.cc:277-332 | a branch is made exactly when it can be; a missing from bus and a missing to bus each give their error message |
| CdfParser.BuildCase | SmartGridToolbox/CdfParser.cc:195-334 | the network has the settings' name, frequency and phases, the busses and ZIP loads in bus number order and the branches in file order, exactly when every bus and branch can be made |
| CdfParser.Parse | SmartGridToolbox/CdfParser.cc:71-335 | a parse fails on missing fields and on a file that cannot be opened, with their messages, and succeeds exactly when the settings are complete, the expanded file exists, reads as a CDF file and its network can be built; then the busses, their ZIP loads and the branches are those built from the file's reading |
| PtModel.Bounds | third_party/PowerTools/src/Model.cpp:90-108 | `bounds(parts, mem)` gives parts + 1 cut points from 0, each chunk `mem / parts` (C++ truncating division) and the last also the remainder, so the last point is mem; with negative parts only the 0 |
| PtModel.Cuts | third_party/PowerTools/src/Model.cpp:98-106 | the cut loop steps by delta and adds the remainder on the last step |
| PtModel.BoundsChunks | third_party/PowerTools/src/Model.cpp:96-97 | for non-negative memory C++ `/` and `%` agree with the mathematical ones and the remainder is less than parts, so the last chunk is the largest |
| PtModel.Least | third_party/PowerTools/src/Model.cpp:183 | the least variable index of a constraint's set |
| PtModel.Ascending | third_party/PowerTools/src/Model.cpp:869 | a `std::map` is visited in increasing key order, one key per entry |
| PtModel.AscendingSpec | third_party/PowerTools/src/Model.cpp:869 | the visit goes over exactly the keys, strictly increasing |
| PtModel.ConsLeast | third_party/PowerTools/src/Model.cpp:869 | the least key followed by the visit of the rest is the visit |
| PtModel.AscendingOf | third_party/PowerTools/src/Model.cpp:183 | the iteration over a constraint's variables visits them in increasing index |
| PtModel.Linear | third_party/PowerTools/src/Model.cpp:529-532 | a constraint built with `Constraint(name)` and `+=` has no index yet, right-hand side 0, the sense given and exactly the variables of its terms |
| PtModel.TermVars | third_party/PowerTools/src/Model.cpp:529-532 | every term's variable is a variable of the constraint |
| PtModel.CstrBoundsSound | third_party/PowerTools/src/Model.cpp:1611-1644 | equality constraints get [rhs, rhs], `<=` constraints [-inf, rhs] and `>=` ones [rhs, +inf], and a value is within those bounds exactly when the constraint holds |
| PtModel.McCormick | third_party/PowerTools/src/Model.cpp:528-549 | `add_McCormick` makes four constraints on v, v1 and v2 with senses >=, >=, <=, <= and right-hand side 0 |
| PtModel.McFactor | third_party/PowerTools/src/Model.cpp:529-548 | each McCormick constraint's value is (v1 - a)(v2 - b) at a point where v = v1·v2 |
| PtModel.McGeqSat | third_party/PowerTools/src/Model.cpp:529-538 | the >= McCormick constraints hold where v = v1·v2 and both lie on one side of their corner |
| PtModel.McLeqSat | third_party/PowerTools/src/Model.cpp:539-548 | the <= McCormick constraints hold where v = v1·v2 and they lie on opposite sides |
| PtModel.McCormickSound | third_party/PowerTools/src/Model.cpp:528-549 | the McCormick relaxation is sound: every point with v = v1·v2 within the bounds satisfies all four constraints |
| PtModel.OnOff | third_party/PowerTools/src/Model.cpp:517-526 | `on_off(v, on)` makes a <= constraint on the upper bounds and a >= constraint on the lower bounds |
| PtModel.OnOffValue | third_party/PowerTools/src/Model.cpp:519-523 | each on/off form's value is v - bnd·on - (1 - on)·off |
| PtModel.OnOffMeaning | third_party/PowerTools/src/Model.cpp:517-526 | with a binary on, the pair holds exactly when v is within [lb, ub] when on is 1 and within [lbOff, ubOff] when on is 0 |
| PtModel.RegisteredLinks | third_party/PowerTools/src/Model.cpp:183-186 | registering a constraint adds its index to its variables' `_cstrs` and to no other's |
| PtModel.RegisteredExact | third_party/PowerTools/src/Model.cpp:176-213 | after adding a constraint every variable is registered with exactly the constraints that use it |
| PtModel.RegisterAll | third_party/PowerTools/src/Model.cpp:183-186 | the registration loop gives that registration |
| PtModel.Row | third_party/PowerTools/src/Model.cpp:869-877 | one constraint's Jacobian row has one entry per variable |
| PtModel.JacPattern | third_party/PowerTools/src/Model.cpp:858-879 | the Jacobian pattern has exactly `get_nb_nnz_g` entries |
| PtModel.JacPrefix | third_party/PowerTools/src/Model.cpp:865-878 | the pattern of the first constraints is a prefix of the whole pattern |
| PtModel.RowExact | third_party/PowerTools/src/Model.cpp:869-877 | a row holds exactly the constraint's index paired with each of its variables |
| PtModel.JacStep | third_party/PowerTools/src/Model.cpp:865-878 | each constraint appends its row to the pattern |
| PtModel.JacEntry | third_party/PowerTools/src/Model.cpp:874-876 | the entry written at each place is the pattern's entry there |
| PtModel.FillJacRow | third_party/PowerTools/src/Model.cpp:869-877 | one constraint's pass writes its row after the earlier ones and keeps them |
| PtModel.JacPatternExact | third_party/PowerTools/src/Model.cpp:858-879 | in a model numbered by position, the pattern holds exactly the pairs (constraint, variable of that constraint) |
| PtModel.Lower | third_party/PowerTools/src/Model.cpp:129 | the lower-triangle links are at most all links |
| PtModel.LowerMembers | third_party/PowerTools/src/Model.cpp:129 | they are exactly the links not above the variable's index |
| PtModel.HessRowExact | third_party/PowerTools/src/Model.cpp:889-900 | a variable's Hessian row holds exactly the pairs (vid, vjd) with vjd a link and vjd <= vid |
| PtModel.HessPatternExact | third_party/PowerTools/src/Model.cpp:881-902 | the Hessian pattern holds exactly the lower-triangle links of every variable |
| PtModel.Range | third_party/PowerTools/src/Model.cpp:154-158 | variable indices run from 0 |
| PtModel.Ids | third_party/PowerTools/src/Model.cpp:888 | the variables' indices in list order |
| PtModel.WriteRow | third_party/PowerTools/src/Model.cpp:874-876 | a row is written at its place and nothing else changes |
| PtModel.LowerPrefix | third_party/PowerTools/src/Model.cpp:889-900 | filtering a prefix gives a prefix of the filtered links |
| PtModel.LowerOf | third_party/PowerTools/src/Model.cpp:889-892 | the inner loop keeps the links not above the variable |
| PtModel.WriteHessRow | third_party/PowerTools/src/Model.cpp:893-894 | a Hessian row is written after the earlier ones and keeps them |
| PtModel.RowRecords | third_party/PowerTools/src/Model.cpp:895-896 | each Hessian entry's place is recorded in `_hess_id` for both of its variables |
| PtModel.RowFoldStep | third_party/PowerTools/src/Model.cpp:895-896 | one more entry records one more place |
| PtModel.HessStep | third_party/PowerTools/src/Model.cpp:886-901 | each variable appends its lower-triangle row to the pattern |
| PtModel.HessIdsStep | third_party/PowerTools/src/Model.cpp:886-901 | each variable records the places of its row |
| PtModel.HessPrefix | third_party/PowerTools/src/Model.cpp:886-901 | the pattern of the first variables is a prefix of the whole |
| PtModel.Numbered | third_party/PowerTools/src/Model.cpp:178-179 | numbering constraints keeps their count |
| PtModel.FillHess | third_party/PowerTools/src/Model.cpp:881-902 | the Hessian fill writes the whole pattern and records each entry's place |
| PtModel.FillHessRow | third_party/PowerTools/src/Model.cpp:888-900 | one variable's pass writes its row after the earlier ones and keeps them |
| PtModel.HessAt | third_party/PowerTools/src/Model.cpp:886-901 | each row starts where the previous rows end, inside the pattern |
| PtModel.HessEntry | third_party/PowerTools/src/Model.cpp:893-894 | the entry written at each place is the pattern's entry there |
| PtModel.NumberedStep | third_party/PowerTools/src/Model.cpp:178-179 | each added constraint takes the next index |
| PtModel.Model.constructor | third_party/PowerTools/src/Model.cpp:15-22 | a new model has no variables or constraints, zero counters, and is valid |
| PtModel.Model.AddVar | third_party/PowerTools/src/Model.cpp:154-158 | `addVar` appends the variable and gives it the next index, so the i-th variable added has index i |
| PtModel.Model.HasVarOfAdded | third_party/PowerTools/src/Model.cpp:144-146 | in a valid model `hasVar` holds for every variable added, and the variable stored at a held index is that variable |
| PtModel.Model.AddConstraint | third_party/PowerTools/src/Model.cpp:176-216 | `addConstraint` appends a copy numbered with the next index, registers it with each of its variables and adds its variable count to `_nnz_g`; a valid model stays valid |
| PtModel.Model.GetNbNnzG | third_party/PowerTools/src/Model.cpp:61-70 | `get_nb_nnz_g` is the constraints' variable counts added up, which in a valid model is `_nnz_g` |
| PtModel.Model.FillInJacNnz | third_party/PowerTools/src/Model.cpp:858-879 | `fill_in_jac_nnz` writes exactly the Jacobian pattern |
| PtModel.Model.FillInCstrBounds | third_party/PowerTools/src/Model.cpp:1611-1644 | `fill_in_cstr_bounds` writes each constraint's bounds by its sense |
| PtModel.Model.FillInVarBounds | third_party/PowerTools/src/Model.cpp:669-704 | `fill_in_var_bounds` writes each variable's bounds, and [0, 1] for a binary one |
| PtModel.Model.GetNbNnzH | third_party/PowerTools/src/Model.cpp:117-141 | `get_nb_nnz_h` counts the lower-triangle Hessian links |
| PtModel.Model.FillInHessNnz | third_party/PowerTools/src/Model.cpp:881-902 | `fill_in_hess_nnz` writes exactly the Hessian pattern, records each entry's place and changes nothing else |
| PtModel.Model.AddAll | third_party/PowerTools/src/Model.cpp:533-548 | adding constraints in turn numbers them in turn |
| PtModel.Model.AddMcCormick | third_party/PowerTools/src/Model.cpp:528-549 | `add_McCormick` appends the four McCormick constraints in order |
| PtModel.Model.OnOffVar | third_party/PowerTools/src/Model.cpp:517-526 | `on_off(v, on)` appends the upper and lower on/off constraints |
| PtQuadratic.SumKeysRemove | src/Quadratic.cpp:125-129 | a sum over a map's keys is any one term plus the sum over the rest, so the order of the visit does not matter |
| PtQuadratic.SumKeysAdd | src/Quadratic.cpp:119-142 | a sum of term-wise sums is the sum of the sums |
| PtQuadratic.SumKeysScale | src/Quadratic.cpp:335-350 | a sum of scaled terms is the scaled sum |
| PtQuadratic.SumKeysExtend | src/Quadratic.cpp:119-142 | terms that are 0 add nothing to a sum |
| PtQuadratic.Step | src/Quadratic.cpp:183-195 | adding d to one coefficient changes it by d, erases it when it becomes 0, and leaves every other coefficient |
| PtQuadratic.MergeOn | src/Quadratic.cpp:399-414 | after the merge loop has visited some of q's variables, their coefficients are the sums (erased when 0) and the rest are unchanged |
| PtQuadratic.MergeOnStep | src/Quadratic.cpp:399-414 | visiting one more variable is one more add step |
| PtQuadratic.ScaleOn | src/Quadratic.cpp:335-349 | the scaling loop keeps the keys and multiplies the coefficients visited so far |
| PtQuadratic.ScaleOnStep | src/Quadratic.cpp:335-349 | visiting one more key scales one more coefficient |
| PtQuadratic.CoeffNonzero | src/Quadratic.cpp:93-98 | `get_coeff` is 0 for a variable without a coefficient, and in a valid polynomial non-zero exactly for the linear variables |
| PtQuadratic.QCoeffSymmetric | src/Quadratic.cpp:100-117 | `get_q_coeff(a, b)` equals `get_q_coeff(b, a)`; in a valid polynomial it is the stored coefficient, and non-zero only when both variables have link sets |
| PtQuadratic.TotalMerge | src/Quadratic.cpp:394-448 | the weighted sum of merged coefficients is the sum of the weighted sums |
| PtQuadratic.TotalSingle | src/Quadratic.cpp:183-195 | a single term's weighted sum is the term |
| PtQuadratic.StepIsMerge | src/Quadratic.cpp:183-195 | adding to one coefficient is merging a one-term map |
| PtQuadratic.TotalScale | src/Quadratic.cpp:335-349 | scaling every coefficient scales the weighted sum |
| PtQuadratic.ZeroPolyValue | src/Quadratic.cpp:931-944 | the zero polynomial is valid, constant and 0 everywhere |
| PtQuadratic.AddCoefSpec | src/Quadratic.cpp:183-195 | `add(c, v)` keeps the polynomial valid, changes v's coefficient by c and no other |
| PtQuadratic.AddCoefEval | src/Quadratic.cpp:183-195 | `add(c, v)` adds c·x_v to the value everywhere |
| PtQuadratic.StepTotal | src/Quadratic.cpp:183-195 | one add step adds d times the weight to the weighted sum |
| PtQuadratic.ScaledValid | src/Quadratic.cpp:320-352 | `*=` by a constant keeps the polynomial valid |
| PtQuadratic.ScaledAllValid | src/Quadratic.cpp:333-350 | scaling every coefficient by a non-zero factor keeps them non-zero |
| PtQuadratic.ScaledCoeffs | src/Quadratic.cpp:320-352 | after `*= c` every linear coefficient is c times the old one |
| PtQuadratic.ScaledEval | src/Quadratic.cpp:320-352 | after `*= c` the value everywhere is c times the old one, including the zero, reset and unit cases |
| PtQuadratic.ScaledAllEval | src/Quadratic.cpp:333-350 | scaling every coefficient and the constant scales the value |
| PtQuadratic.PlusValid | src/Quadratic.cpp:394-448 | `+=` of a valid polynomial keeps the polynomial valid |
| PtQuadratic.EndsMerge | src/Quadratic.cpp:418-445 | the merged matrix only mentions variables of the two matrices |
| PtQuadratic.PlusCoeffs | src/Quadratic.cpp:394-448 | after `+=` every linear and quadratic coefficient is the sum of the two |
| PtQuadratic.PlusEval | src/Quadratic.cpp:394-448 | after `+=` the value everywhere is the sum of the two values |
| PtQuadratic.CopySpec | src/Quadratic.cpp:19-22 | the copy constructor, `+=` on zero, gives a valid polynomial's terms, variables and constant back |
| PtQuadratic.LinearDerivative | src/Quadratic.cpp:860-880 | a variable in no quadratic term has its linear coefficient as `eval_dfdx` |
| PtQuadratic.EqualsSpecSound | src/Quadratic.cpp:262-303 | two valid polynomials that `==` compares equal have the same terms and constant, hence the same value everywhere |
| PtQuadratic.EqualsReflexive | src/Quadratic.cpp:262-303 | every valid polynomial `==` itself |
| PtQuadratic.ScaleAllStep | src/Quadratic.cpp:335-349 | the scaling loop visits each key once, scaling its original coefficient |
| PtQuadratic.SumOver | src/Quadratic.cpp:125-139 | the summing loop gives the sum over the keys |
| PtQuadratic.ScaleAll | src/Quadratic.cpp:335-349 | the scaling loop scales every coefficient |
| PtQuadratic.InsertAll | src/Quadratic.cpp:201-210 | inserting q's variables gives the union |
| PtQuadratic.LinkAll | src/Quadratic.cpp:211-219 | adding q's Hessian links gives link sets for every variable of q's terms |
| PtQuadratic.MergeStep | src/Quadratic.cpp:399-414 | each visit adds q's coefficient to the one not yet visited |
| PtQuadratic.CancelledStep | src/Quadratic.cpp:410-413 | each visit erases the variable exactly when the sum is 0 |
| PtQuadratic.MergeLinear | src/Quadratic.cpp:399-414 | the linear merge loop adds the coefficients and erases the variables whose sum is 0 |
| PtQuadratic.MergeQuadratic | src/Quadratic.cpp:416-445 | the quadratic merge loop adds the coefficients, erasing those whose sum is 0, and keeps the quadratic variables, since emptied link sets stay in `_hess` |
| PtQuadratic.CountStep | src/Quadratic.cpp:84-89 | each quadratic variable not linear adds one to the count |
| PtQuadratic.Quadratic.constructor | src/Quadratic.cpp:13 | the default constructor gives the zero polynomial |
| PtQuadratic.Quadratic.Const | src/Quadratic.cpp:25 | the constant constructor gives the constant polynomial |
| PtQuadratic.Quadratic.OfVar | src/Quadratic.cpp:14-17 | the variable constructor gives 1·v |
| PtQuadratic.Quadratic.Add | src/Quadratic.cpp:183-195 | `add(c, v)` adds c to v's coefficient, erasing it and v when the sum is 0 |
| PtQuadratic.Quadratic.PlusVar | src/Quadratic.cpp:355-368 | `+= v` adds 1 to v's coefficient |
| PtQuadratic.Quadratic.MinusVar | src/Quadratic.cpp:371-384 | `-= v` subtracts 1 from v's coefficient |
| PtQuadratic.Quadratic.PlusConst | src/Quadratic.cpp:310-313 | `+= c` adds c to the constant only |
| PtQuadratic.Quadratic.MinusConst | src/Quadratic.cpp:315-318 | `-= c` subtracts c from the constant only |
| PtQuadratic.Quadratic.ResetCoeffs | src/Quadratic.cpp:931-944 | `reset_coeffs` gives the zero polynomial |
| PtQuadratic.Quadratic.Scale | src/Quadratic.cpp:320-352 | `*= c` leaves the zero polynomial, resets on 0, keeps on 1 and else scales every coefficient and the constant |
| PtQuadratic.Quadratic.MergeVars | src/Quadratic.cpp:197-221 | `merge_vars` adds q's linear and quadratic variables and link sets for q's terms |
| PtQuadratic.Quadratic.PlusQuadratic | src/Quadratic.cpp:394-448 | `+=` of another polynomial gives the sum as specified |
| PtQuadratic.Quadratic.UpdateQVars | src/Quadratic.cpp:223-228 | `update_q_vars(v)` drops v from the quadratic variables exactly when it has no link set |
| PtQuadratic.Quadratic.Eval | src/Quadratic.cpp:119-142 | `eval(x)` is the sum of c_i·x_i, of q_ij·x_i·x_j and the constant |
| PtQuadratic.Quadratic.EvalDfDx | src/Quadratic.cpp:860-880 | `eval_dfdx(v, x)` is v's coefficient plus, over v's links, 2·q_vv·x_v for v and q_vj·x_j for the others |
| PtQuadratic.Quadratic.GetNbVars | src/Quadratic.cpp:81-91 | `get_nb_vars` counts the linear and quadratic variables together, each once |
| PtQuadratic.Quadratic.Equals | src/Quadratic.cpp:262-303 | `==` compares the constants, the variable and link counts, and every coefficient of either side against the other |
| PtVar.Infinity | third_party/PowerTools/src/var.cpp:22 | `numeric_limits<Number>::infinity()` is infinite for `float` and `double`, and 0 (false) for `int` and `bool` |
| PtVar.BoundFlags | third_party/PowerTools/src/var.cpp:52-60 | `_bounded_down` is false exactly when lb is minus infinity; as written `_bounded_up` is checked only in the else branch, so it is false exactly when lb is finite and ub is infinite; corrected, it is false exactly when ub is infinite |
| PtVar.DefaultBoundsFlagged | third_party/PowerTools/src/var.cpp:52-60 | a variable with the default bounds (-inf, +inf) is flagged bounded above as written, and not as corrected |
| PtVar.FlagsAgreeBoundedBelow | third_party/PowerTools/src/var.cpp:52-60 | the two readings agree on every variable bounded below |
| PtVar.IntegerZeroIsInfinite | third_party/PowerTools/src/var.cpp:54 | for `int` the infinity is 0, so an integer variable with lower bound 0 counts as unbounded below |
| PtVar.UnboundedState | third_party/PowerTools/src/var.cpp:122-150 | `init(name)` leaves the variable detached with index -1, its type from the template argument, bounds (-inf, +inf), both flags false, off-bounds and value 0 |
| PtVar.BoundedState | third_party/PowerTools/src/var.cpp:104-119 | `init(name, lb, ub, lb_off, ub_off)` is `init(name)` followed by the four bounds and their flags |
| PtVar.InitInfiniteBounds | third_party/PowerTools/src/var.cpp:104-150 | with infinite bounds and zero off-bounds the bounded `init` agrees with `init(name)` as corrected; as written a floating variable comes out flagged bounded above |
| PtVar.Var.constructor | third_party/PowerTools/src/var.cpp:32-66 | the full constructor stores the model, name, index, type, bounds, off-bounds and their flags, with value 0 |
| PtVar.Var.Bounded | third_party/PowerTools/src/var.cpp:30-31 | the bounded constructor uses the bounds as off-bounds too |
| PtVar.Var.Unbounded | third_party/PowerTools/src/var.cpp:16-22 | the constructors without bounds use (-inf, +inf) for bounds and off-bounds, which as written leaves a floating variable flagged bounded above |
| PtVar.Var.LowerBounded | third_party/PowerTools/src/var.cpp:26 | the constructor with a lower bound only uses +inf above; as written it passes NULL on and drops the model it was given; corrected, it keeps it |
| PtVar.Var.Init | third_party/PowerTools/src/var.cpp:122-150 | `init(name)` gives the unbounded state |
| PtVar.Var.InitBounds | third_party/PowerTools/src/var.cpp:104-119 | `init(name, lb, ub, lb_off, ub_off)` gives the bounded state |
| PtVar.Var.InitRange | third_party/PowerTools/src/var.cpp:99-101 | `init(name, lb, ub)` is `init(name, lb, ub, lb, ub)` |
| PtVar.Var.SetLb | third_party/PowerTools/src/var.cpp:152-154 | `set_lb` sets the lower bound and nothing else, flags included |
| PtVar.Var.SetUb | third_party/PowerTools/src/var.cpp:155-157 | `set_ub` sets the upper bound and nothing else |
| PtVar.Var.SetVal | third_party/PowerTools/src/var.cpp:158-160 | `set_val` and `operator=` set the value and nothing else, and `get_value` then returns it |
| PtNet.Without | src/Node.cpp:45-55 | erasing an arc from a list shortens it by one when the arc is there and leaves it unchanged otherwise |
| PtNet.WithoutMultiset | src/Node.cpp:45-55 | erasing takes exactly one copy of the arc out |
| PtNet.WithoutAt | src/Node.cpp:45-55 | it is the first occurrence that is erased |
| PtNet.FindArc | src/Node.cpp:46-54 | the search loop finds the first occurrence of the arc, or -1 when it is absent |
| PtNet.SearchLink | src/Node.cpp:58-62 | the loop over a node's arcs finds whether one leads to the other node |
| PtNet.ConnectedSymmetric | src/Node.cpp:57-69 | `is_connected` looks in both nodes' lists, so it is symmetric |
| PtNet.ArcConnects | src/Node.cpp:57-69 | an arc between the two nodes in either list connects them |
| PtNet.InService | src/Node.cpp:120-144 | the in-service arcs of a node are at most its arcs |
| PtNet.InServiceMembers | src/Node.cpp:120-144 | `get_out` (`get_in`) holds exactly the arcs of the node with non-zero status whose source (destination) is the node |
| PtNet.OutInDisjoint | src/Node.cpp:120-144 | an arc that is not a self-loop is not both outgoing and incoming |
| PtNet.InServiceSplit | src/Node.cpp:120-144 | without self-loops, a node's in-service outgoing and incoming arcs together are at most its arcs |
| PtNet.Node.constructor | src/Node.cpp:21 | a new node has its name and ID, no arcs, distance `INT_MAX`, no predecessor and fill-in 0 |
| PtNet.Node.Degree | src/Node.cpp:36-38 | `degree` is the number of incident arcs; without self-loops the in-service outgoing and incoming arcs together never exceed it |
| PtNet.Node.RemoveArc | src/Node.cpp:45-55 | `removeArc` erases the first occurrence and returns 0, or returns -1 when the arc is absent; the degree drops by one exactly when it was there, and nothing else changes |
| PtNet.Node.AddArc | src/Node.cpp:93-95 | `addArc` appends the arc and adds one to the degree |
| PtNet.Node.IsConnected | src/Node.cpp:57-69 | `is_connected` holds exactly when an arc of either node leads to the other |
| PtNet.Node.GetOut | src/Node.cpp:120-131 | `get_out` gives the in-service outgoing arcs, in list order |
| PtNet.Node.GetIn | src/Node.cpp:133-144 | `get_in` gives the in-service incoming arcs, in list order |
| PtNet.WithoutMembers | src/Node.cpp:45-55 | erasing keeps every other arc and adds none |
| PtNet.WithoutDistinct | src/Node.cpp:45-55 | from a list without repeats, erasing removes the arc entirely |
| PtNet.Detach | src/Net.cpp:266-275 | detaching the removed node's arcs from a neighbour only shortens its list |
| PtNet.DetachStep | src/Net.cpp:266-268 | each arc of the removed node is erased from the neighbour it leads to |
| PtNet.DetachSubset | src/Net.cpp:266-275 | a neighbour keeps only arcs it had |
| PtNet.DetachGone | src/Net.cpp:266-275 | every arc between the removed node and a neighbour is gone from that neighbour's list |
| PtNet.RegisterParallel | src/Net.cpp:64-96 | `add_arc` returns true exactly when "src,dest" or "dest,src" is already a key; afterwards the pair is a key and no key is lost |
| PtNet.FoundUnique | src/Net.cpp:307-336 | under the map's invariant, `get_arc` has at most one arc to answer with |
| PtNet.RegisterKeepsUnique | src/Net.cpp:78-93 | adding an arc keeps at most one non-parallel arc per key |
| PtNet.ParallelKeepsFound | src/Net.cpp:83-93 | a parallel arc changes no answer of `get_arc` |
| PtNet.FreshPairFound | src/Net.cpp:78-82 | after the first arc between two nodes, `get_arc` answers with that arc |
| PtNet.PickPlain | src/Net.cpp:321-325 | the loop over a key's set finds a non-parallel arc exactly when there is one |
| PtNet.RotationCyclic | src/Net.cpp:45-61 | for a triangle with one arc per pair, the bag is rotated exactly when its arcs form a directed cycle |
| PtNet.SumSeqUpdate | src/Net.cpp:473-474 | lowering one distance lowers the sum of distances, which bounds the search |
| PtNet.MinIndex | src/Net.cpp:461-468 | the priority queue's top is a queued node of least distance |
| PtNet.Relax | src/Net.cpp:471-478 | relaxing the arcs of a node keeps the search tree: each predecessor is a neighbour nearer the source |
| PtNet.Search | src/Net.cpp:461-483 | the search loop ends with a search tree rooted at the source |
| PtNet.Rebuild | src/Net.cpp:489-496 | the path rebuilt from dest along the predecessors runs from src to dest through neighbouring nodes without repeats |
| PtNet.Path.constructor | src/Net.cpp:489 | a path holds the nodes it is given |
| PtNet.BranchList | src/Net.cpp:471 | the nodes' arc lists, by node position |
| PtNet.DistanceList | src/Net.cpp:473 | the nodes' distances, by node position |
| PtNet.PredList | src/Net.cpp:475 | the nodes' predecessors, by node position |
| PtNet.Net.constructor | src/Net.cpp:29-34 | a new network has no nodes, arcs or keys |
| PtNet.Net.AddNode | src/Net.cpp:36-42 | `add_node` gives the node the prior node count as ID and always appends it; a duplicate name keeps the first name mapping |
| PtNet.Net.AddArc | src/Net.cpp:64-96 | `add_arc` registers the arc under its key, marked parallel when the pair already has one, appends it either way and returns whether it was parallel |
| PtNet.Net.GetArc | src/Net.cpp:307-336 | `get_arc` answers with a non-parallel arc stored under either orientation, or null when there is none |
| PtNet.Net.HasArc | src/Net.cpp:373-394 | `has_arc` holds exactly when either orientation is a key |
| PtNet.Net.HasDirectedArc | src/Net.cpp:153-159 | `has_directed_arc` holds exactly when the arc between the nodes runs from n1 to n2 |
| PtNet.Net.RotationBag | src/Net.cpp:45-61 | `rotation_bag` is false exactly when some node of the three has directed arcs to both others |
| PtNet.Net.ResetDistance | src/Net.cpp:281-286 | `resetDistance` sets every distance to the node count plus one and every predecessor to null, and keeps the arcs |
| PtNet.Net.Combine | src/Net.cpp:251-254 | `combine` puts src at both ends of the path |
| PtNet.Net.FillDrop | src/Net.cpp:269-274 | the fill-in lost by a neighbour is at most its arc count |
| PtNet.Net.Unlink | src/Net.cpp:267-274 | a neighbour loses the arc, its fill-in does not grow, and the rest of it is unchanged |
| PtNet.Net.RemoveEndNode | src/Net.cpp:262-278 | `remove_end_node` drops the last node, erases its arcs from the neighbours' lists, keeps the arc list and keys, and returns the node's name |
| PtNet.Net.Store | src/Net.cpp:473-475 | the search's distances and predecessors are written back into the nodes |
| PtNet.Net.Dijkstra | src/Net.cpp:460-498 | `Dijkstra` with unit arc weights leaves a search tree in the nodes; it returns null exactly when dest has no predecessor, src itself included, and otherwise a new path from src to dest through neighbouring nodes |
| Microgrid.BatteryPower | src/SimpleBattery.h:50-55 | `power` is the request, limited below by minus the maximum discharge power when it is negative and above by the maximum charge power otherwise |
| Microgrid.PowerIsClamp | src/SimpleBattery.h:50-55 | with non-negative limits, `power` is the request clamped to [-maxDischarge, maxCharge]; a request inside the limits is met exactly, and the battery never reverses or exceeds the request |
| Microgrid.InternalPowerLosses | src/SimpleBattery.h:57-63 | with efficiencies in (0, 1], `internalPower` draws at least the external power from the battery while discharging and stores at most it while charging, with the same sign |
| Microgrid.SimpleBattery.InternalPower | src/SimpleBattery.h:57-63 | with non-negative limits and efficiencies in (0, 1], the battery's internal power has the sign of its external power and is no smaller in size while discharging and no larger while charging |
| Microgrid.SimpleBattery.constructor | src/SimpleBattery.h:14-25 | a new battery has its name, no dependencies, and zero parameters, charge and request (the maximum charge is left unset) |
| Microgrid.SimpleBattery.SetInitCharge | src/SimpleBattery.h:28 | the setter changes the initial charge and nothing else |
| Microgrid.SimpleBattery.SetMaxCharge | src/SimpleBattery.h:31 | the setter changes the maximum charge and nothing else |
| Microgrid.SimpleBattery.SetMaxChargePower | src/SimpleBattery.h:34 | the setter changes the maximum charge power and nothing else |
| Microgrid.SimpleBattery.SetMaxDischargePower | src/SimpleBattery.h:37 | the setter changes the maximum discharge power and nothing else |
| Microgrid.SimpleBattery.SetChargeEfficiency | src/SimpleBattery.h:40 | the setter changes the charge efficiency and nothing else |
| Microgrid.SimpleBattery.SetDischargeEfficiency | src/SimpleBattery.h:43 | the setter changes the discharge efficiency and nothing else |
| Microgrid.SimpleBattery.SetRequestedPower | src/SimpleBattery.h:48 | the setter changes the requested power and nothing else |
| Microgrid.SimpleBattery.InitializeState | src/SimpleBattery.h:66-69 | `initializeState` sets the charge to the initial charge and changes nothing else |
| Microgrid.SimpleBattery.DependsOn | SmartGridToolbox/Component.h:96-99 | `dependsOn` appends the other component to the dependencies and changes nothing else |
| Microgrid.BattRequest | examples/MicrogridDemo/src/MicrogridController.cc:63-80 | outside the band [minP, maxP] the request brings the net power to the band's midpoint; inside it the request is zero |
| Microgrid.DeadBand | examples/MicrogridDemo/src/MicrogridController.cc:63-80 | for a band with minP ≤ maxP, the net power plus the request always lies in the band, and the request is zero exactly when the power was already in it |
| Microgrid.MicrogridController.constructor | examples/MicrogridDemo/src/MicrogridController.cc:19 | a new controller has its name, no buses, no battery, no dependencies and no actions |
| Microgrid.MicrogridController.SetMinP | examples/MicrogridDemo/src/MicrogridController.cc:21 | the setter changes the lower band edge and nothing else |
| Microgrid.MicrogridController.SetMaxP | examples/MicrogridDemo/src/MicrogridController.cc:22 | the setter changes the upper band edge and nothing else |
| Microgrid.MicrogridController.SetBuildBus | examples/MicrogridDemo/src/MicrogridController.cc:42-47 | `setBuildBus` records the bus, makes the controller depend on it and returns the action the bus's `didUpdate` gets, which triggers the controller |
| Microgrid.MicrogridController.SetPvBus | examples/MicrogridDemo/src/MicrogridController.cc:49-54 | `setPvBus` does the same for the PV bus |
| Microgrid.MicrogridController.SetBatt | examples/MicrogridDemo/src/MicrogridController.cc:56-61 | `setBatt` records the battery, makes the battery depend on the controller and adds to the controller's `didUpdate` an action triggering the battery |
| Microgrid.MicrogridController.UpdateState | examples/MicrogridDemo/src/MicrogridController.cc:63-80 | `updateState` sets the battery's request from the real part of the two buses' summed power and changes nothing else of the battery |
| Microgrid.FirstMissing | examples/MicrogridDemo/src/MicrogridController.cc:11-16 | the first field, in the order asserted, that is missing; none exactly when all are present |
| Microgrid.Parse | examples/MicrogridDemo/src/MicrogridController.cc:7-23 | `parse` fails on the first missing field with its message; on success every field is present, the name is the expanded name field and the band is the numbers read from `min_P` and `max_P` |
| Microgrid.ParseNeedsFields | examples/MicrogridDemo/src/MicrogridController.cc:11-16 | a loaded node that parses is a map with an entry for every required field |
| Microgrid.ExpandField | examples/MicrogridDemo/src/MicrogridController.cc:29-38 | a name field succeeds exactly when it is text whose expansion succeeds, and is that expansion |
| Microgrid.PostParseNames | examples/MicrogridDemo/src/MicrogridController.cc:25-40 | `postParse` succeeds exactly when the four name fields expand, and wires up the controller, building bus, PV bus and battery in that order |

## Left out

- kron (SgtCore/PowerFlow.cc:216-226): a matrix inverse; not modelled.
- phaseDescr (SgtCore/PowerFlow.cc:116-151 and SmartGridToolbox/PowerFlow.cc:79-94): a table of free-text descriptions with no property to state; not modelled.
- ToolboxPowerFlow.YOverheadLineZ: covers the impedance only; the inversion of Z and the nodal admittance assembly (SmartGridToolbox/PowerFlow.cc:199-229) need a matrix inverse and are not modelled.
- PowerFlow.ZLine2YNode: takes the line admittance inv(ZLine) as input, because the matrix inverse is a library call.
- PowerFlow.Carson: ln(1/Dij) and ln(rhoEarth/freq) are parameters, since the logarithm is not available on reals.
- PowerFlowNrSolver.Iterate: the mismatch function `calcf`, the PV adjustment `modifyForPv` and the sparse solve `kluSolve` (SgtCore/PowerFlowNrSolver.cc) are floating-point numerics and a foreign library call. The iteration is modelled through its convergence test and the state it leaves behind; the slack bus power it recomputes is an input.
- PowerFlowNrSolver.NodeS: the computed power divides by |V|², so the model requires a non-zero voltage at every node where the source would produce inf or nan.
- Log::fatal aborting the process, and the routing of messages to `cout` or `cerr`, are I/O. The model keeps only the message prefixes. The source files disagree on which stream carries debug output, so no stream is modelled.
- Calculator.Expression: `+`, `-` and `*` on `int` are unbounded in the model; the source's signed overflow (undefined behaviour in C++) is not modelled. Division truncates toward zero as in C++ (Calculator.CDiv).
- NameExpansion.ExpandName: loop names are matched literally; a regular-expression metacharacter in a loop name, which the source's `std::regex` would interpret, is not modelled.
- TimeSeries.StepwiseTimeSeries.Value: requires a non-empty table; the source dereferences the table's first entry without checking (undefined behaviour).
- SimulationLoop.Simulation.DoTimestep: runs with a fuel bound, because components may keep re-triggering one another forever. It returns the number of steps taken; behaviour beyond the bound is not modelled. Components with equal (rank, name) keys are excluded by SimulationLoop.KeyInjective. What a component does when updated is given as functions.
- The MATPOWER text grammar (`.m` files read by the spirit parser in SgtCore/MatpowerParser.cc) is not modelled. Each table is taken as rows of numbers, and the requirements that rows have enough columns (TablesFit, BusRowsFit, GenCostRowFits) are preconditions.
- MatpowerParser.Recip: returns None for a zero impedance, where the source's complex division yields inf or nan. The ±infinite generator limits of the source are dropped, and a non-zero default kV base is required.
- MatpowerPlugin.ScalesOf: returns an error for a zero voltage or power scale, where the source divides by zero and carries inf onward.
- TimeSeriesParser.ReadTime: truncates the offset to whole seconds, as `posix_time::seconds` in SgtSim/TimeSeriesParserPlugin.cc:164-171 does. The system's design description gives the time as t0 plus the scaled offset, without truncation; the model follows the code.
- CdfParser.MakeBus: returns an error for a zero kV base in SI units (BusMakeable), where the source divides and yields inf.
- CdfParser.MakeBranch: returns an error for a zero base (BranchMakeable), where the source divides by zero.
- CdfParser.ReadCdf: returns an error for a section with no "-999" line, where the source's `getline` loop would read past the end of the file.
- PtModel.Model.AddMcCormick: requires finite variable bounds; the source builds the cuts from whatever bounds the variables hold, including infinite ones.
- PtModel.Model.OnOffVar: requires finite bounds for the same reason. The `on_off(Constraint, var)` overload of Model.cpp is not modelled.
- Heatmap: the WebGL buffer uploads and drawing calls are I/O. The exponential is a parameter (Heatmap.VertexAlpha).
- SgtClientB.Median: returns the median of a sequence; the source's in-place sort of the caller's array is not modelled.
- TapChanger.TapChanger.TapRatio: the table of tap ratios is taken as input. AutoTapChanger's control loop is not modelled beyond TapChanger.AutoValidUntil.
- TimeSeriesParser: the constant-series branch and the vector-valued loads are not modelled. The spline series is under `#if 0` in the source and is not modelled either.
- Transformer.Transformer.InServiceY: the transformer's `calcY` is a parameter, since each transformer type computes it with its own matrix arithmetic. The Bus accessors for magnitude, argument and `polar` are parameters as well.
- PtQuadratic: the operators built on `Function` are not modelled. The model assumes that a variable's Hessian link set is exactly the set of variables it shares a matrix entry with, which is the invariant the source maintains.
- PtNet.Net.Dijkstra: the search uses unit arc weights and works on the network it belongs to; `Dijkstra`'s separate `net` argument is taken to be the same network. The model proves that the result is a path of neighbouring nodes through the predecessors, but not that it is a shortest path.
- PtNet.Net.Dijkstra: the priority queue of Net.cpp is modelled as a least-distance choice among the queued nodes. The source's queue holds stale entries that the model does not keep.
- Microgrid.SimpleBattery: the battery's `updateState` is not part of this model, and neither is the event machinery behind `didUpdate` and `needsUpdate`. Actions are kept as their descriptions.
- CdfParser.BuildBuses: returns Err(ZeroSBase) for per-unit data with a zero MVA base, where SmartGridToolbox/CdfParser.cc divides the loads, generation and limits by the base and carries inf onward; reals have no infinities.
- Network.V2Pu: requires a non-zero base voltage; Network.h divides and would give inf or nan, which reals cannot hold.
- Network.S2Pu: requires a non-zero power base, for the same reason.
- Network.Y2Pu: requires non-zero bases, for the same reason.
- Network.Pu2Y: requires non-zero bases, for the same reason.
- Network.Z2Pu: requires non-zero bases, for the same reason.
- Network.Pu2Z: requires non-zero bases, for the same reason.
- Network.I2Pu: requires non-zero bases, for the same reason.
- Network.Pu2I: requires non-zero bases, for the same reason.
- Bus.Bus.ApplyVSetpoints: requires a non-zero voltage on every PV phase; Bus.cc divides by |V| and would give nan there.
- Quantities.Over: requires a non-zero divisor, where the source's floating-point division gives inf or nan.
- Quantities.AsValue: requires a dimensionless quantity. In SgtCore/Units.h this is a compile-time restriction, so no program can call it otherwise.
- Microgrid.InternalPowerOf: requires a non-zero discharge efficiency when discharging, where SimpleBattery.h divides by it and would give inf.
- Microgrid.SimpleBattery.InternalPower: the same requirement as Microgrid.InternalPowerOf.
- TimeSeries.LerpTimeSeries.Value: requires a non-empty table; SgtSim/TimeSeries.h:100-102 reads the first and last entries without checking, which is undefined behaviour on an empty table.
- PtQuadratic.MergeQuadratic: gives the clean merge. In third_party/PowerTools/src/Quadratic.cpp:436-441 the row map is deleted when its last entry cancels, and the next entry of the same row is then written through the deleted pointer (a use after free). With this = {x1·x2: 1} and q = {x1·x2: −1, x1·x3: 5}, the source's behaviour is undefined where the model gives {x1·x3: 5}.
- PtNet.Net.RotationBag: the source asks its clone network `_clone->has_directed_arc` (third_party/PowerTools/src/Net.cpp:50-57). The model asks the network it is called on, which stands for that clone; the clone's construction is not modelled.

## Findings

| source | as written | input that shows it | evidently intended | confidence | as-written member | corrected member |
|---|---|---|---|---|---|---|
| experimental/SgtClientB/index.js:760-769 | the median takes the middle element for an even count and the mean of two elements for an odd count | [1, 2, 3] gives 1.5 and [1, 2, 3, 4] gives 3 | the middle element for an odd count, the mean of the two middle ones for an even count | not executed | SgtClientB.MedianCounterexample | SgtClientB.MedianSpec |
| experimental/SgtClientB/index.js:685-697 | `graphToDatum` does not undo the y flip of `datumToGraph` | any point with y ≠ pos0.y comes back as 2·pos0.y − y | the two conversions are inverses | not executed | SgtClientB.GraphRoundTripCounterexample | SgtClientB.GraphRoundTrip |
| src/solver_nr.cc:51-117 | the do-while of `merge_sort` compares the first entry with itself on a segment of length 1 and reports a duplicate | a segment holding one entry | a segment of one entry is already sorted and has no duplicate | not executed; the only caller may never pass length 1 | SolverNr.MergeSort | SolverNr.SortRunSpec |
| SgtCore/PowerFlowNrSolver.cc:266-310 | on failure the voltages and powers are zeroed, and the copy loops that follow then overwrite them with the last iterate | an iteration that does not converge within the iteration limit | a failed solve leaves zero voltages and powers | not executed | PowerFlowNrSolver.FailureKeepsIterate | PowerFlowNrSolver.Finish |
| SgtCore/Units.h:80 | the voltage dimension is charge divided by length | `VDim` times `IDim` differs from `PDim` | voltage is power per current, kg·m²·s⁻³·A⁻¹ | not executed | Units.AsWrittenTimesCurrent | Units.VoltageTimesCurrent |
| SgtCore/Parser.cc:259-276 | `expandName` keeps only the text before the placeholder and the loop value, dropping what follows | "pre${i}post" in loop i at value 3 gives "pre3" | "pre3post" | not executed | NameExpansion.ExpandOneLoopAsWritten | NameExpansion.ExpandOneLoop |
| SgtCore/Parser.cc:199-237 | the matrix copy loop bounds the column index by the number of rows | a 1 × 2 matrix node leaves its second column unset | the column index runs to the number of columns | not executed | YamlDecode.MatrixBoundExamples | YamlDecode.DecodeMatrix |
| SmartGridToolbox/Parser.cc:437-467 | an unknown `interp_type` leaves the time series null, and the first data line dereferences it | a time series with `interp_type: cubic` and one data line | an error naming the bad interpolation type | not executed | ToolboxParser.UnknownInterpolation | ToolboxParser.KnownInterpolationAgrees |
| SgtCore/ComponentCollection.h:266-269 | `remove` erases the map entry and then searches the vector with the erased entry's pointer | removing any present key | search the vector before erasing | not executed | ComponentCollection.RemoveOrderAsWritten | ComponentCollection.Collection.Remove |
| SgtCore/Components.h:153-156 | `remove` erases the map entry and then reads `p->id()` from it | removing any present key | read the id before erasing | not executed | Components.RemoveOrderAsWritten | Components.MutableComponents.Remove |
| SgtCore/ComponentCollection.h:251 | `reserve` returns no value from a function declared to return an iterator | any call of `reserve` | return the iterator of the reserved entry | not executed | ComponentCollection.ReserveResultExample | ComponentCollection.Collection.Reserve |
| SgtCore/MatpowerParser.cc:482-494 | the cost assignment reads `costs[2]` whenever there is at least one cost | a gencost row with two costs | a row with one or two costs fills the low-order coefficients | not executed | MatpowerParser.ShortRowFailsAsWritten | MatpowerParser.CoeffsMatchPolynomial |
| SgtCore/MatpowerParserPlugin.cc:407 | the bus base voltage is scaled by the power scale, and the generator setpoint is computed against that base | scale_P_by 2 with a 10 kV bus gives a 20 kV base | the base voltage is scaled by the voltage scale, and the setpoint is Vg per unit of the bus base | not executed | MatpowerPlugin.PowerScaleMovesVoltages | MatpowerPlugin.SetpointPerUnit |
| SmartGridToolbox/CdfParser.cc:296 | the message for a missing to bus prints the from bus number | a branch from bus 1 to a missing bus 7 reports "to bus 1" | report the missing to bus | not executed | CdfParser.ToBusMessageNamesWrongBus | CdfParser.ToBusMessageIdentifiesBus |
| third_party/PowerTools/src/var.cpp:52-60 | `_bounded_up` is set false only in the `else` branch of the lower-bound test | a double variable with the default bounds (-inf, +inf) is flagged bounded above | each flag is false exactly when its own bound is infinite | not executed | PtVar.DefaultBoundsFlagged | PtVar.BoundFlags |
| third_party/PowerTools/src/var.cpp:26 | the lower-bound-only constructor passes NULL where it was given a model | any variable built with that constructor loses its model | pass the model on | not executed | PtVar.Var.LowerBounded | PtVar.Var.LowerBounded |
| SgtCore/Parser.cc:263-275 | the value of a placeholder is appended once per active loop, inside the loop over `loops_` | "${i}" with two active loops, i at 3, gives "33" | the value appears once | not executed | NameExpansion.ValuePerLoopAsWritten | NameExpansion.ValueOnce |
