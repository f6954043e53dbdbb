# PolyKernel, verified

A Dafny model of the parts of PolyKernel whose correctness is not visible from one function: the wafer-style dataflow
fabric and the SUMMA matmul that runs on it, the emitted GPU kernels against their CPU references, KV-cache attention,
the fusion rewrites with their traffic report, the kernel cache, and the codecs underneath. Code that updates state in
place is modelled by classes and methods proved against specification functions; the theorems are lemmas about those
functions, or the methods' own postconditions.

`dafny verify dfyconfig.toml` checks everything.

## How the pieces fit

**Fabric and SUMMA** (`Wavelets`, `Mesh`, `Router`, `Grid`, `GridDelivery`, `Scheduler`, `Fabric*`, `Summa*`, `Half`). `Router`, `Grid`
and `Scheduler` are classes with the channels, counters and tasks as fields. A `Fabric` is the value a grid stands for, so
that a whole run is a sequence of events on values. `SummaRuns.RunSumma` is the loop of the source: flush outboxes, inject
seeds, step the grid, drain, deliver the two tokens, fire, test for exit. Its proof carries a closed form of what every PE
holds after n cycles of a step; the exit test is shown to succeed after exactly `ceil(tileM*tileK/4) + P - 1` of them.
Task handlers are functions on the PE's state instead of closures, `PeState` and `Task` are values held in a scheduler's
fields, and `panelComputes` is the sum of the PEs' counters. Lane arithmetic is an uninterpreted multiply-add between an
uninterpreted pair of half conversions; `Halves` then shows that the real pair satisfies the one law that is used.

**GPU kernels** (`BarrierBlock`, `Reductions`, `TiledGemm`, `RowKernel`, `GpuKernels`, `GpuRows`, `CpuReference`,
`FloatRmsnorm`). A block
is a set of units with program counters over shared cells that interleave freely and wait at barriers. Race freedom is
defined on loads and stores, and implies that all schedules end alike. The tiled kernels have 256 threads as units. The row
kernels have their 8 warps as units, because a shuffle moves a whole warp. Rounding and arithmetic are uninterpreted; each
theorem names the laws it uses: that adding a product of padding zeros leaves a finished accumulator alone (only when K is
no multiple of the tile), and that sums and maxima commute and associate (only where a reduction is reordered); their start
value need be neutral to itself alone, so minus zero and masked scores of negative infinity are covered. `FloatRmsnorms` needs
no such law: it is about arithmetic that rounds every exact result to nearest, ties to even.

**Exact arithmetic** (`Exact`, `ExactAttention`, `SummaInteger`). The theorems above tie loops, launches and runs to reference
functions; these say what the references are, on the numbers in the flat buffers: sums of products, quotients by roots,
shares of exponentials, with one rounding wherever a value is stored.

**Attention** (`Attention`). Append and prefill as nested loops over flat tensors. The masking laws are asked only of
the values a query actually reaches.

**Fusion and traffic** (`Ssa`, `Fusion`, `Liveness`, `Traffic`, `TrafficReport`). A straight-line SSA function, a rewriter class that replaces and
erases ops, and a pass that applies its pattern until nothing matches. A fused op keeps its root's result. An
interpretation is lawful when each fused op means the composition it replaces, through intermediates of a like type. The
greedy driver also deletes ops that nothing uses (every op of the dialect is pure,
`include/PolyKernel/IR/PolyKernelOps.td:194-378`): a deletion is a step like a fusion, and `Liveness` shows that neither
changes which of the other ops the return depends on.

**Kernel cache** (`Texts`, `JsonTree`, `TuningCache`, `TuningDb`, `KernelKeys`, `KernelBinaries`, `KernelCache`). Documents
are JSON trees with enumerated keys, printing and parsing of text and the file hash are parameters, and the disk is a map.
Errors carry a path instead of a message.

**Codecs** (`Npy`, `NpyFormat`, `TritonTiles`, `Bf16`, `Fp8`, `Fp8Code`, `Half`). `.npy` files as text and bytes, bit patterns as numbers. fp8
rounding is over exact dyadic rationals at any scale fine enough for the format; for the two formats in use every
intermediate float of the source is exact.

## Model

| member | source | states |
|---|---|---|
| Routers.Router.Tx | lib/DataflowSim/Router.cpp:27-41 | a transmit is accepted only if every requested channel has room, and then appends to each of them; otherwise nothing changes |
| Routers.Router.ApplyForwarding | lib/DataflowSim/Router.cpp:52-78 | each routable color drains from its input to all its output channels at once, until the input is empty or one of them is full; the moves are counted |
| Routers.Router.Buffered | lib/DataflowSim/Router.cpp:129-137 | the count is the sum of all input and output channel lengths |
| Routers.FillChannel | lib/DataflowSim/Router.cpp:27-41 | an output channel takes four wavelets and refuses the fifth |
| Grids.Grid.Inject | lib/DataflowSim/Grid.cpp:56-60 | injection fails off the grid or on a full channel, and touches only the addressed router |
| Grids.Grid.Step | lib/DataflowSim/Grid.cpp:68-125 | forward, snapshot and hop phases, in place, advance the whole grid as the step function on fabric values does; `GridDeliveries` says where to |
| GridDeliveries.StepDelivers | lib/DataflowSim/Grid.cpp:31-48 | on an otherwise empty grid what leaves (x, y) east, west, north or south is after one cycle at (x+1, y), (x-1, y), (x, y+1) or (x, y-1), or dropped and counted past the edge |
| GridDeliveries.ThereAndBack | lib/DataflowSim/Grid.cpp:31-48 | going out in one direction and back in the opposite one ends where it began |
| GridDeliveries.StraightRoute | lib/DataflowSim/Grid.cpp:68-125 | down a line of n PEs that send a color on in one direction, wavelets arrive n hops away after n cycles, in order and complete |
| FabricTheorems.StepIsolated | lib/DataflowSim/Grid.cpp:68-125 | two grids that agree on a color still agree on it after a cycle, whatever the other colors hold |
| FabricTheorems.ProjectionCommutesWithStep | lib/DataflowSim/Grid.cpp:68-125 | projecting to one color and advancing a cycle commute |
| FabricRuns.Conservation | lib/DataflowSim/Router.cpp:27-78 | over every run of injections, routes, deliveries, pops and cycles: buffered + popped + dropped = accepted + multicast copies |
| FabricFifo.LinkFifo | lib/DataflowSim/Grid.cpp:94-121 | every output channel is a lossless FIFO over every run |
| FabricFifo.InputFifo | lib/DataflowSim/Router.cpp:118-127 | every input channel is a lossless FIFO over every run |
| FabricFifo.FifoDelivery | lib/DataflowSim/Grid.cpp:68-125 | what a PE consumed from a link is, in order, a prefix of what was pushed onto that link |
| FabricFifo.OneHopPerStep | lib/DataflowSim/Grid.cpp:73-92 | the p-th arrival over a link in a cycle is the p-th wavelet that link's channel held before the hop phase, so nothing crosses two links |
| FabricHops.UncontendedStep | lib/DataflowSim/Grid.cpp:68-125 | with every target channel free, one cycle empties every output channel across its link and drops nothing |
| Schedulers.Scheduler.Pick | lib/DataflowSim/Scheduler.cpp:37-42 | the first task in registration order that is activated, not blocked and, if a data task, has a wavelet on every color it is bound to; none exactly when there is no such task |
| Schedulers.Scheduler.Step | lib/DataflowSim/Scheduler.cpp:78-96 | fires the picked task on the wavelets it popped, or changes nothing because the tile is quiet; handlers leave task flags and the router alone |
| Schedulers.Scheduler.RunToQuiescence | lib/DataflowSim/Scheduler.cpp:98-103 | terminates for bound data tasks, whose handlers leave task flags and the router alone, in a quiet tile reached by the returned number of fires |
| Schedulers.QuietIsUnique | lib/DataflowSim/Scheduler.cpp:98-103 | two runs from the same tile that end quiet fired equally often and ended alike |
| Schedulers.QuiescesIffBound | lib/DataflowSim/Task.cpp:27-31 | where handlers leave the tasks' flags and the router alone, draining ends exactly when no eligible task is local, control, or a data task with no bound color |
| SummaPlans.ChooseTileK | lib/DataflowSim/LowerToDataflow.cpp:27-34 | the largest divisor of k up to the preferred width |
| SummaPlans.LowerMatmulToSumma | lib/DataflowSim/LowerToDataflow.cpp:37-76 | every plan that is built meets what the run asserts of it |
| SummaPlans.PanelAccumulate | lib/DataflowSim/Summa.cpp:110-140 | the four-lane loops add to each cell its own left-to-right chain over the slab, ragged last lanes included |
| SummaSeeding.BuildSeeds | lib/DataflowSim/Summa.cpp:281-308 | the seeds of a step are the panels' elements, A and B interleaved, in order of panel index |
| SummaFabrics.FlushSucceeds | lib/DataflowSim/Summa.cpp:312-330 | between cycles every outbox fits its channels whole, so no retransmit is ever left pending |
| SummaFabrics.LoadedStep | lib/DataflowSim/Summa.cpp:344-346 | one fabric cycle delivers to every PE exactly what the closed form says it receives next, and drops nothing |
| SummaRounds.DrainRound | lib/DataflowSim/Summa.cpp:208-234 | draining to quiescence empties both data channels into the buffers and queues the retransmits |
| SummaRounds.FireRound | lib/DataflowSim/Summa.cpp:241-263 | the accumulate fires in exactly the cycle in which the second panel completes, once per step |
| SummaRuns.ExitTest | lib/DataflowSim/Summa.cpp:367-379 | the exit test succeeds after exactly the closed-form number of cycles of a step |
| SummaRuns.RunCycle | lib/DataflowSim/Summa.cpp:311-365 | one pass of the loop takes every PE from its state after n cycles to its state after n + 1 |
| SummaRuns.RunStep | lib/DataflowSim/Summa.cpp:276-384 | a step quiesces after the closed-form number of cycles, injecting each seed once, with nothing dropped |
| SummaRuns.Gather | lib/DataflowSim/Summa.cpp:386-398 | every cell of the result comes from its own PE's tile |
| SummaRuns.RunSumma | lib/DataflowSim/Summa.cpp:165-404 | the run terminates with exact cycle, compute and wavelet counts, no drops, and the half-precision dot product over all of K in every cell |
| SummaIntegers.IntegerProduct | lib/DataflowSim/Summa.cpp:165-404 | on integers, with no operand and no partial sum beyond 2048, every cell of the result is the integer sum over k of a[r,k] * b[k,q] |
| SummaIntegers.HalvesHoldIntegers | lib/DataflowSim/Pe.cpp:18-75 | the actual half conversions keep every integer up to 2048, so with a multiply-add exact on them that sum is what the bits denote |
| SummaRuns.PlanIndependent | lib/DataflowSim/Summa.cpp:165-404 | two plans for the same operands give the same matrix, whatever their grids and slab widths |
| SummaRuns.CriticalPath | lib/DataflowSim/Metrics.cpp:89-93 | no run beats the critical path, and which runs meet it |
| SummaResults.TileHolds | lib/DataflowSim/Summa.cpp:246-257 | after s steps every output cell holds the dot product over the first s slabs of K, whichever PE computed it |
| SummaResults.DeliveredIffIndexFits | lib/DataflowSim/Summa.cpp:293-295 | every operand is delivered whole exactly when the panel index fits 16 bits |
| Halves.HalfToFloat | lib/DataflowSim/Pe.cpp:18-42 | the renormalising loop yields the float that the fields denote, for every half |
| Halves.WidenExact | lib/DataflowSim/Pe.cpp:18-42 | widening is exact on every finite half, subnormals included |
| Halves.NarrowTruncates | lib/DataflowSim/Pe.cpp:45-64 | narrowing rounds the magnitude down to the nearest half below the overflow threshold |
| Halves.HalfRoundTrip | lib/DataflowSim/Pe.cpp:18-64 | a half survives widening and narrowing exactly unless it is a NaN with a payload of its own |
| Halves.DatapathLawful | lib/DataflowSim/Pe.cpp:68-75 | the real conversions satisfy the only law the SUMMA result uses |
| BarrierBlocks.Deterministic | lib/Passes/LowerToCuda.cpp:341-378 | in a race-free block every schedule that finishes ends in the same state |
| BarrierBlocks.NoDeadlock | lib/Passes/LowerToCuda.cpp:341-378 | from every reachable state some unit can step, or all have finished |
| BarrierBlocks.SchedulesEnd | lib/Passes/LowerToCuda.cpp:341-378 | no schedule is longer than the instructions of all units together |
| BarrierBlocks.Completes | lib/Passes/LowerToCuda.cpp:341-378 | a race-free block has a schedule that finishes, from any shared memory |
| TiledGemms.NoRaces | lib/Passes/LowerToCuda.cpp:350-373 | no thread touches a staged cell that another may still write |
| TiledGemms.EveryInterleaving | lib/Passes/LowerToCuda.cpp:341-378 | however 256 threads interleave, each ends with the reference loop's value for its element |
| TiledGemms.OneOwner | lib/Passes/LowerToCuda.cpp:341-393 | each in-range output belongs to exactly one thread of the grid |
| TiledGemms.LaunchIsReference | lib/Passes/LowerToCuda.cpp:341-393 | every cell a launch stores is the reference value, for all M, N and K |
| TiledGemms.LaunchExists | lib/Passes/LowerToCuda.cpp:386-393 | every launch has an outcome |
| CpuReferences.MatmulCpu | kernels/cpu/cpu_reference.cpp:64-78 | the triple loop fills each cell with its row by column chain |
| CpuReferences.RmsnormCpu | kernels/cpu/cpu_reference.cpp:16-44 | every element is divided by the rms of its whole row, weighted and rounded |
| CpuReferences.FusedMatmulBiasGeluCpu | kernels/cpu/cpu_reference.cpp:92-105 | the composed reference is matmul, then bias, then GELU, rounded after each |
| CpuReferences.SoftmaxCpu | kernels/cpu/cpu_reference.cpp:107-128 | every element is its exponential below the row maximum over the row's sum |
| ExactResults.MatmulIsSum | kernels/cpu/cpu_reference.cpp:64-78 | in exact arithmetic c[i*N+j] is the sum over k of a[i*K+k] * b[k*N+j], rounded once |
| ExactResults.BiasGeluIsSum | kernels/cpu/cpu_reference.cpp:92-105 | it is that sum rounded, plus bias[j] rounded, through the GELU and rounded |
| ExactResults.RmsnormIsQuotient | kernels/cpu/cpu_reference.cpp:16-44 | each element is divided by the root of its row's mean square plus epsilon, weighted and rounded once |
| ExactResults.SoftmaxIsShares | kernels/cpu/cpu_reference.cpp:107-128 | each element is the exponential of its distance below the row's largest over the sum of them all, rounded once |
| ExactResults.SoftmaxAddsUp | kernels/cpu/cpu_reference.cpp:107-128 | without rounding a row of the output adds up to one |
| GpuKernels.MatmulMatchesCpu | lib/Passes/LowerToCuda.cpp:341-393 | the launch and the CPU triple loop fill C identically |
| ExactResults.MatmulLaunchIsSum | lib/Passes/LowerToCuda.cpp:341-393 | in exact arithmetic every interleaving of the launch leaves the sum of products in every cell |
| GpuKernels.BiasGeluLaunch | lib/Passes/LowerToCuda.cpp:702-766 | the fused launch is matmul, bias and the kernel's GELU, each rounded, for every interleaving |
| GpuKernels.BiasGeluMatchesCpu | lib/Passes/LowerToCuda.cpp:698-748 | if the two GELU chains round every bf16 alike, kernel and CPU fill C identically for all sizes, data and interleavings |
| GpuKernels.RowAgrees | lib/Passes/LowerToCuda.cpp:568-606 | with nothing but a commutative addition, the sixteen threads of a row all get the same rms |
| GpuKernels.RowTotal | lib/Passes/LowerToCuda.cpp:568-606 | if addition commutes and associates that rms is the whole row's |
| GpuKernels.RmsnormMatmulLaunch | lib/Passes/LowerToCuda.cpp:575-630 | the fused launch multiplies the operand normalised row by row with the whole row's rms and rounded, for every interleaving |
| ExactResults.RmsnormMatmulIsSum | lib/Passes/LowerToCuda.cpp:575-630 | in exact arithmetic each cell is the sum over k of x[i*K+k] over its row's root, rounded, times w[k*N+j] |
| GpuKernels.RmsnormMatmulMatchesCpu | kernels/cpu/cpu_reference.cpp:80-90 | it equals the two CPU loops when dividing by K is multiplying by its reciprocal |
| FloatRmsnorms.PowerOfTwoDivides | kernels/cpu/cpu_reference.cpp:19 | in correctly rounded arithmetic dividing by a power of two is multiplying by its reciprocal |
| FloatRmsnorms.RmsnormMatmulDiffers | kernels/cpu/cpu_reference.cpp:19-33 | a row of length 3 on which, in any correctly rounded arithmetic, every launch stores 197/256 and the CPU 196/256 |
| FloatRmsnorms.CorrectRoundingExists | kernels/cpu/cpu_reference.h:52-61 | such an arithmetic exists: 24 bits, 8 bits and roots, each nearest |
| Reductions.ButterflyIsTree | lib/Passes/LowerToCuda.cpp:75-80 | with a commutative combiner every lane of an aligned group ends with the same tree of the group's values |
| Reductions.ButterflyTotals | lib/Passes/LowerToCuda.cpp:75-80 | if the combiner also associates that value is the group's total, for any power-of-two width |
| Reductions.StridedTotals | lib/Passes/LowerToCuda.cpp:113-125 | whatever the number of threads, strided partial results count every item once |
| RowKernels.NoRaces | lib/Passes/LowerToCuda.cpp:443-507 | the reused partials are race free: barriers separate each stage's writes from the last one's reads |
| RowKernels.EveryInterleaving | lib/Passes/LowerToCuda.cpp:473-507 | however the warps interleave, each ends with the same results |
| RowKernels.StageTotal | lib/Passes/LowerToCuda.cpp:84-95 | a stage's result is the total over all 256 threads |
| GpuRows.AllSquares | lib/Passes/LowerToCuda.cpp:113-125 | odd or even row length, bulk and tail count each column's square once |
| GpuRows.RmsnormResult | lib/Passes/LowerToCuda.cpp:101-131 | every warp reads back the rms of the whole row's mean square |
| GpuRows.SoftmaxResult | lib/Passes/LowerToCuda.cpp:473-502 | every warp ends with the row's maximum, at least -FLT_MAX, and its sum of exponentials, for every interleaving |
| GpuRows.LaunchRmsnorm | lib/Passes/LowerToCuda.cpp:101-168 | a whole launch, rows in any order, fills the output with every row normalised by its own rms |
| GpuRows.RmsnormMatchesCpu | kernels/cpu/cpu_reference.cpp:16-44 | an element of the kernel's row is the reference's if dividing the row's sum of squares by its length is multiplying it by the reciprocal |
| GpuRows.LaunchSoftmax | lib/Passes/LowerToCuda.cpp:473-522 | rows in any order: the output is the reference's, masked elements of negative infinity included, where each row has something at least -FLT_MAX |
| Attentions.RunAppend | kernels/cpu/attention.cpp:63-92 | the appended cache is the two inputs joined along the sequence axis in every head, or a shape error |
| Attentions.AppendedElement | kernels/cpu/attention.cpp:63-92 | in the flat buffers row s of a head is row s of the same head of the cache, or else of the new rows |
| Attentions.RunPrefill | kernels/cpu/attention.cpp:95-163 | the loops compute masked, scaled softmax attention for every head and query, or a shape error |
| ExactAttentions.PrefillIsAttention | kernels/cpu/attention.cpp:120-158 | in exact arithmetic each output is the mean of the visible values, weighted by the exponentials of q·k/sqrt(D) below the largest, rounded once |
| Attentions.MaskingIsTruncating | kernels/cpu/attention.cpp:125-160 | a masked query over many keys computes what the query over only the visible keys computes |
| Attentions.GrownHolds | kernels/cpu/attention.cpp:63-92 | a cache grown token by token holds exactly the first tokens of the sequence |
| Attentions.DecodeMatchesPrefill | kernels/cpu/attention.cpp:125-160 | row i of one causal prefill equals the single-query prefill against the cache grown from the first i + 1 tokens |
| Attentions.DecodeMatchesPrefillIff | kernels/cpu/attention.cpp:125-160 | where masked weights vanish, the two agree exactly when no value behind the mask is infinite or NaN, or decoding gives NaN as well |
| TrafficReports.NormMatmulMeans | lib/Passes/FuseRmsnormMatmul.cpp:87-118 | the meaning of an rmsnorm into a matmul, and of the fused op, is the one written out |
| SsaFunctions.EraseSound | lib/Passes/FuseRmsnormMatmul.cpp:112-118 | erasing an op without uses returns the same values |
| Fusions.FuseWellFormed | lib/Passes/FuseRmsnormMatmul.cpp:87-118 | a one-producer fusion keeps definitions before uses, removes exactly the producer, and keeps every other use count |
| Fusions.FuseGeluWellFormed | lib/Passes/FuseMatmulBiasGelu.cpp:99-143 | the three-op fusion keeps the function well-formed and removes exactly its two producers |
| Fusions.FuseSound | lib/Passes/FuseResidualRmsnorm.cpp:89-122 | one fusion returns the same values, through an intermediate of a like type; softmax over the last axis |
| Fusions.FuseGeluSound | lib/Passes/FuseMatmulBiasGelu.cpp:99-143 | the three-op fusion returns the same values, through intermediates of like types |
| Fusions.RunWellFormed | lib/Passes/FuseMatmulBiasGelu.cpp:99-143 | any sequence of fusions and deletions, in any order, leaves a well-formed function with at least one op fewer per step |
| Fusions.RunSound | lib/Passes/FuseSoftmaxMask.cpp:88-120 | any sequence of fusions and deletions returns the same values, through like types, with every fused softmax over the last axis |
| Fusions.RunNoDeadOps | lib/Passes/FuseResidualRmsnorm.cpp:110-122 | on a function without dead ops fusing leaves none behind, so the driver deletes nothing |
| Fusions.SoftmaxFusionIff | lib/Passes/FuseSoftmaxMask.cpp:101-108 | in every function the softmax fusion keeps the value it rewrites exactly when the axis is absent or last and the masked sum is of a like type |
| Fusions.Rewriter.RunPass | lib/Passes/FuseRmsnormMatmul.cpp:87-118 | the greedy pass terminates in a function reached by fusions and deletions, where every value is used and no producer of its kind feeds only the first operand of a root |
| Fusions.RunLeavesNothing | lib/Passes/FuseMatmulBiasGelu.cpp:99-143 | what a pass has finished, no later fusion brings back |
| Liveness.AllLive | lib/Passes/FuseMatmulBiasGelu.cpp:57-58 | where every value is used, every op feeds the return |
| Liveness.ErasedLive | lib/Passes/FuseMatmulBiasGelu.cpp:57-58 | deleting an unused op leaves every other op as live as it was |
| Liveness.ReplacedLive | lib/Passes/FuseMatmulBiasGelu.cpp:119-140 | replacing an op by a fused one leaves every op but the absorbed producers as live as it was |
| Traffics.TensorBytes | tools/polykernel-report/mlir_traffic.py:54-68 | element count times width |
| Traffics.ParseOps | tools/polykernel-report/mlir_traffic.py:82-119 | one record per op, counting bytes by the signature the op prints |
| Traffics.TrafficConserved | tools/polykernel-report/mlir_traffic.py:8-15 | over any sequence of fusions and deletions the live ops' traffic plus twice their recorded eliminated bytes never changes, and the dead ops' falls by what is deleted |
| Traffics.ReportAgreesIff | tools/polykernel-report/traffic_report.py:126-133 | with nothing dead left, the two views of the reduction agree exactly when the input's dead ops, traffic and twice their tags, make up for twice what it had recorded as eliminated |
| Traffics.UnusedGeluDisagrees | tools/polykernel-report/traffic_report.py:105-133 | an unused gelu, with nothing recorded as eliminated, makes them disagree |
| Traffics.BuildReport | tools/polykernel-report/traffic_report.py:105-150 | the report's totals, that it calls itself consistent in exactly that case, and that none of the four passes has anything left to fuse |
| TrafficReports.NormMatmulReport | tools/polykernel-report/traffic_report.py:105-133 | for an rmsnorm into an M x K by K x N matmul every finished run is the one fused op, and both views of the saving are 2*M*K elements |
| Texts.DecimalValue | kernels/cpu/npy_io.cpp:64-69 | reading a printed number gives it back |
| TuningCaches.ParseTuningCache | lib/Autotune/TuningCache.cpp:265-320 | the early-exit parser reports the first field or entry that is not as required |
| TuningCaches.EncodedFields | lib/Autotune/TuningCache.cpp:244-263 | in a serialized cache every value stands under its own name |
| TuningCaches.RoundTrip | lib/Autotune/TuningCache.cpp:322-335 | decoding a serialized cache gives it back, also after whole doubles have become integers |
| TuningCaches.DecodesIffConforms | lib/Autotune/TuningCache.cpp:181-213 | the decoder accepts exactly the documents of the schema |
| TuningCaches.ErrorsAreAccurate | lib/Autotune/TuningCache.cpp:28-128 | the field an error's path names is missing, or there and of another kind |
| TuningCaches.ConfigReadAsWrittenIff | lib/Autotune/TuningCache.cpp:147-168 | a config is read as written exactly when its numbers fit 32 bits |
| TuningDbs.LessIsStrictTotal | include/PolyKernel/Autotune/AmdTuningDb.h:97-109 | the key order is a strict total order |
| TuningDbs.LessByFirstDifference | include/PolyKernel/Autotune/AmdTuningDb.h:97-109 | the first of gpu, op, m, n, k and dtype that differs decides the order |
| TuningDbs.NamespacesPartition | lib/Autotune/AmdTuningDb.cpp:35-51 | listing the entries namespace by namespace lists every entry once, in key order |
| TuningDbs.AmdTuningDb.Put | lib/Autotune/AmdTuningDb.cpp:18-24 | stores under the entry's own key, keeps the order, refuses an entry without a gpu |
| TuningDbs.AmdTuningDb.Get | lib/Autotune/AmdTuningDb.cpp:26-33 | finds exactly the keys that are stored, and never another key's entry |
| TuningDbs.TableRoundTrip | lib/Autotune/AmdTuningDb.cpp:53-91 | parsing a serialized database restores every entry |
| KernelKeys.KeyTextInjective | lib/Runtime/KernelCache.cpp:39-44 | slash-free requests with the same key text are the same request |
| KernelKeys.UniquelyDecodableIff | lib/Runtime/KernelCache.cpp:39-44 | a key text names one request exactly when its gpu and op hold no slash and no slash of its dtype is followed by a shape's text |
| KernelBinaries.ViewAfterPutBinary | lib/Runtime/KernelCache.cpp:313-321 | recording a binary changes the side table at one request only |
| KernelBinaries.ViewAfterPut | lib/Runtime/KernelCache.cpp:81 | storing an entry attaches no binary to it |
| KernelBinaries.BinariesRoundTrip | lib/Runtime/KernelCache.cpp:219-309 | the written side table always loads, and as it was exactly when every binary had an entry |
| KernelCaches.KernelCache.Select | lib/Runtime/KernelCache.cpp:83-105 | the entry stored for that request is served exactly when it is there and validated |
| KernelCaches.KernelCache.PutBinary | lib/Runtime/KernelCache.cpp:313-321 | recorded only for a stored entry, under that request alone |
| KernelCaches.KernelCache.InvalidateStale | lib/Runtime/KernelCache.cpp:371-392 | a binary stays exactly when its file is there and what the file holds hashes as recorded, an entry goes exactly when its binary went, and the count is theirs |
| KernelCaches.ChangedBinary | lib/Runtime/KernelCache.cpp:371-392 | a recorded binary outlives an invalidation and is dropped with its entry exactly when its file then hashes otherwise |
| KernelCaches.KernelCache.SerializeBinaries | lib/Runtime/KernelCache.cpp:219-243 | one record per entry with a binary, namespaces in order |
| KernelCaches.KernelCache.Persist | lib/Runtime/KernelCache.cpp:332-343 | writes the two documents, the database first, or says what failed |
| KernelCaches.KernelCache.LoadPersisted | lib/Runtime/KernelCache.cpp:345-369 | a load that fails changes nothing; one that succeeds leaves every binary with an entry |
| KernelCaches.PersistThenLoad | lib/Runtime/KernelCache.cpp:332-369 | what was persisted loads exactly when its numbers are finite, with the side table as it was exactly when every binary had an entry |
| KernelCaches.LoadOverBinaries | lib/Runtime/KernelCache.cpp:71-79 | loading a tuning cache keeps binaries backed exactly when it brings an entry for every key that has one |
| KernelCaches.LoadEmptyCache | lib/Runtime/KernelCache.cpp:71-79 | a cache with one recorded binary that an empty tuning cache leaves without an entry |
| NpyFiles.WriteNpy | kernels/cpu/npy_io.cpp:127-171 | the loops write exactly the file the format function describes, or report a size mismatch |
| NpyFiles.ParseDimensions | kernels/cpu/npy_io.cpp:57-72 | the index-moving parser reads the dimensions the recursive grammar reads |
| NpyFiles.ReadNpy | kernels/cpu/npy_io.cpp:78-125 | every field, search and length check of the reader, with its error |
| NpyFiles.HeaderAligned | kernels/cpu/npy_io.cpp:146-153 | prefix and header fill a multiple of 64 bytes, and the header ends in a newline (section "Format Specification: Version 1.0" of NumPy NEP 1) |
| NpyFiles.NpyRoundTripIff | kernels/cpu/npy_io.cpp:33-171 | what is written reads back exactly when no dimension is negative and the header's length fits 16 bits |
| NpyFormats.FileLaid | kernels/cpu/npy_io.cpp:150-171 | magic, version 1.0, the header length in two bytes, the header, every value in two bytes, low byte first |
| NpyFormats.LaterVersionReads | kernels/cpu/npy_io.cpp:88-104 | a file of a later version, with a four-byte length, reads back exactly when no dimension is negative |
| TritonTiles.TileInGrid | report/src/triton-fused-matmul-bias-gelu.py:84-92 | every program id gets a tile of the grid |
| TritonTiles.OwnerComputesTile | report/src/triton-fused-matmul-bias-gelu.py:84-92 | every tile has a program id that computes it |
| TritonTiles.PidOwnsItsTile | report/src/triton-fused-matmul-bias-gelu.py:84-92 | a program id owns the tile it computes, so ids and tiles correspond one to one, short last group included |
| TritonTiles.GroupedOrder | report/src/triton-fused-matmul-bias-gelu.py:84-92 | ids walk down a group's rows, then along its columns, then to the next group |
| TritonTiles.RunProgram | report/src/triton-fused-matmul-bias-gelu.py:94-125 | one program writes exactly the cells of its own tile, despite wrapped loads |
| TritonTiles.OneOwner | report/src/triton-fused-matmul-bias-gelu.py:120-125 | a cell lies in the tile of exactly one program |
| TritonTiles.LaunchKernel | report/src/triton-fused-matmul-bias-gelu.py:136-150 | for every order of the programs, every cell ends as the epilogue of the reference dot product |
| ExactResults.TritonCellIsSum | report/src/triton-fused-matmul-bias-gelu.py:94-125 | in exact arithmetic a cell is the epilogue of the sum over k of the operands' products |
| Bf16s.Bf16RoundTrip | kernels/cpu/cpu_reference.h:37-61 | a bf16 survives the trip through a float exactly unless it is a signalling NaN |
| Bf16s.SpecialsKept | kernels/cpu/cpu_reference.h:52-57 | NaN stays NaN, infinity stays itself, the sign is kept |
| Bf16s.Bf16Nearest | kernels/cpu/cpu_reference.h:52-61 | no bf16 is nearer than the result and ties go to even, across binades and into infinity (section 4.3.1 of IEEE 754-2019) |
| Fp8s.NoGridPointBetween | kernels/cpu/matmul_quant.cpp:140-145 | no grid point lies between a magnitude's two neighbouring multiples of its ulp |
| Fp8s.HalfUlp | kernels/cpu/matmul_quant.cpp:146 | the result is within half a unit in the last place, even on a tie |
| Fp8s.ClampNeverNeeded | kernels/cpu/matmul_quant.cpp:147-148 | with the largest finite value on the grid the final clamp never acts |
| Fp8s.Odd | kernels/cpu/matmul_quant.cpp:130-150 | rounding commutes with negation |
| Fp8s.RoundsOntoFormat | kernels/cpu/matmul_quant.cpp:130-150 | results are values of the format, and a number is kept exactly when it is one |
| Fp8s.Monotone | kernels/cpu/matmul_quant.cpp:130-150 | the order of all numbers is kept, infinities included |
| Fp8s.NearestValue | kernels/cpu/matmul_quant.cpp:130-150 | no finite value of the format is nearer; beyond the largest it saturates |
| Fp8s.FormatsSound | kernels/cpu/matmul_quant.cpp:152-161 | both formats' largest values are on their grids |
| Fp8Codes.RoundsToNearestCode | kernels/cpu/matmul_quant.cpp:130-150 | the result is the value of the nearest code of the format, the even one on a tie, the largest beyond it |
| Fp8Codes.E4M3Codes | kernels/cpu/matmul_quant.cpp:154-156 | e4m3: codes 0 to 126 of four exponent and three mantissa bits |
| Fp8Codes.E5M2Codes | kernels/cpu/matmul_quant.cpp:157-158 | e5m2: codes 0 to 123 of five exponent and two mantissa bits |

## Findings

Properties the code does not have on every input, an input on which each fails, and the lemma that says exactly when it holds.

| property | an input that fails | exact condition |
|---|---|---|
| SUMMA delivers both panels | a 257 x 256 panel: index 65536 is sent as 0 and overwrites the first element | `tileM*tileK <= 65536`, `SummaResults.DeliveredIffIndexFits` |
| narrowing undoes widening | the half 0x7C01, a NaN, comes back as 0x7E00 | not a NaN with a payload of its own, `Halves.HalfRoundTrip` |
| bf16 survives the trip through a float | the signalling NaN 0x7F81 comes back as 0x7FC1 | not a signalling NaN, `Bf16s.Bf16RoundTrip` |
| draining a scheduler ends | an activated local task: firing never deactivates it | no eligible task without a bound color, for handlers that leave the tasks' flags and the router alone, `Schedulers.QuiescesIffBound` |
| softmax fusion keeps meaning | a softmax over axis 0 of a matrix: the fused op has no axis | axis absent or last (the printed form gives the masked sum the result's type), `Fusions.SoftmaxFusionIff` |
| the report's two views agree | an input that already holds a fused op with its tag; one with an unused gelu (`Traffics.UnusedGeluDisagrees`) | the bytes of the ops the return does not depend on equal twice what was recorded as eliminated; without dead ops: nothing was, `Traffics.ReportAgreesIff` |
| the fused rmsnorm kernels equal the CPU | row 58, 97, 66, column 1, 0, 0, any epsilon below 2^-12: the kernel stores 0x3F45, the CPU 0x3F44 (`FloatRmsnorms.RmsnormMatmulDiffers`) | sufficient: dividing by the row length is multiplying by its reciprocal, `GpuKernels.RmsnormMatmulMatchesCpu`, as it is for powers of two, `FloatRmsnorms.PowerOfTwoDivides`; on one row, `GpuRows.RmsnormMatchesCpu` |
| decoding equals the causal prefill | an infinite value behind the mask: its weight of zero makes the prefill's element NaN | every value behind the mask finite, or decoding NaN as well, `Attentions.DecodeMatchesPrefillIff` |
| a key text names one request | gpu `a/b`, op `c` and gpu `a`, op `b/c` | slash-free gpu and op, and no shape's text behind a slash of the dtype, `KernelKeys.UniquelyDecodableIff` |
| every binary belongs to an entry | `LoadTuningCache` of an empty document after one `PutBinary` (`KernelCaches.LoadEmptyCache`) | the document brings an entry for every key with a binary, `KernelCaches.LoadOverBinaries` |
| persisting and loading restores the cache | an entry whose cosine is NaN: the text does not parse | every number finite, every binary with an entry, `KernelCaches.PersistThenLoad` |
| nothing in a tuning cache is read silently otherwise | `block_m` of 4294967424 is read as 128 | every config number fits 32 bits, `TuningCaches.ConfigReadAsWrittenIff` |
| a written `.npy` reads back | shape (-1, -1) with one element; 21900 dimensions of 1 | dimensions not negative, header length at most 65535, `NpyFiles.NpyRoundTripIff` |

## Left out

- `ConfigureSummaRoutes` and the `breakRendezvous` hook of `RunSumma`; `Sram` and bank conflicts; the metrics other than the critical path.
- SummaRuns.RunSumma: the cycle cap is a precondition (the run has to stay under it) instead of a truncated result, because the source asserts that it is never reached.
- Grids.Grid.Step: a PE is its router; the compute element and memory of a PE are not fields of the grid.
- The CUDA text itself: the kernels are modelled by hand from it. Fused multiply-add contraction by a GPU compiler and shuffles inside a partly active warp are not modelled; `LowerToHip` mirrors the same text.
- GpuKernels.RmsnormMatmulMatchesCpu: no necessary condition on the arithmetic, because a difference in the mean can vanish when the quotient is rounded; `GpuKernels.RmsnormMatmulLaunch` says what is computed in all cases. Its sums associate, as float sums do only where they are exact.
- FloatRmsnorms.RmsnormMatmulDiffers: floats are reals rounded to 24 or 8 bits with unbounded exponents; overflow, subnormals, infinities and NaN are not modelled there, and no operand comes near them.
- GpuKernels.BiasGeluMatchesCpu: whether the two chains round every bf16 alike depends on `erf`, which is not modelled.
- BarrierBlocks.NoDeadlock: all units share one instruction stream in which a barrier depends on the position alone, so barrier divergence cannot be expressed; that control flow is uniform is read off the kernels' text.
- Schedulers.QuiescesIffBound: a handler is a function of the PE's state, so one that blocks or activates tasks, as the source's handlers may through `Task &`, is not modelled; none of the SUMMA handlers does.
- SummaIntegers.HalvesHoldIntegers: the 32-bit multiply-add stays a parameter, asked to be exact where operands and result are integers up to 2048.
- ExactResults.MatmulIsSum: within a sum there is no rounding, here and in the other exact results; only stored values are rounded, by any function.
- ExactAttentions.PrefillIsAttention: minus infinity has to be below every score met and its exponential below any of them zero; query rows that see no key are excluded.
- SiLU and the standalone GELU kernel: one thread per element.
- GpuRows.LaunchSoftmax: a row of nothing but negative infinities is excluded; the kernel's maximum of it is -FLT_MAX.
- TritonTiles.LaunchKernel: `tl.dot` is taken to accumulate its slice in order; autotuning configurations are any positive block sizes.
- Attentions.DecodeMatchesPrefill: asks that masked weights vanish and that adding a vanished weight times a reached value changes nothing; `Attentions.DecodeMatchesPrefillIff` says what infinite and NaN values behind the mask do.
- Tensors of rank other than four, argument parsing and file handling of the attention and quantization tools; `run_int8` and `run_fp8sim` loops.
- `FuseKvAppendAttention`, ops with several results, and the canonicalization, shape inference, tiling and memory planning passes; hence the report's workspace check.
- Traffics.ParseOps: the printed IR is read back as ops and signatures; the regular expressions over its text, unknown element types and dynamic shapes are not modelled.
- Fusions.RunSound: an element type is its width; which types are alike is a parameter, and the dialect's shape-preserving ops have one type throughout.
- Fusions.Rewriter.RunPass: the driver scans from the front after each rewrite; the theorems on sequences of fusions hold for every other order too.
- JSON text, error messages, string encodings, the FNV hash, and the file system beyond which paths exist and can be written; printing and parsing are parameters of which only their joint behaviour on the two written documents is used.
- TuningCaches.RoundTrip: doubles are rationals with NaN and infinities apart; a negative zero and the digits of a double are not modelled.
- NpyFiles.NpyRoundTripIff: the product of the dimensions is unbounded, whereas the source multiplies in 64 bits and may overflow; memory exhaustion on a huge shape is not modelled.
- Fp8s.NearestValue: numbers are dyadic rationals at a scale fine enough for the format, so the source's float scaling is taken as exact, which it is for both formats; the sign of zero is kept.
- Transcendental functions and the rounding of float sums stay uninterpreted; each theorem names the laws it uses.
