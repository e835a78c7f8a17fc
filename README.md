# CPU scatter gridder of the RC radio-astronomy pipeline, in Dafny

This project models the CPU gridding core of the RC pipeline.
Each visibility sample of each baseline is spread over a `supp x supp` footprint of a uv grid, weighted by a layer of the gridding convolution function (GCF).
Degridding runs the other way: each sample gathers the grid through the same footprint.

The model covers:

- the coordinate pre-transform shared by the CPU gridders (`common.h`);
- the w-dependent scatter gridder and degridder with their OpenMP reduction, plus `grid0`, `normalizeCPU` and `reweight`;
- the PSF scatter kernel, with optional baseline permutation and its 256-bit `addGrids`;
- the early fixed-size four-polarisation gridder and its `pregrid`;
- the GCF offset table of the Halide driver;
- the integer helpers of the Halide FFT (`product`, `radix_factor`, the zip point);
- the OSKAR visibility reader: header arithmetic, status sequencing and the reshuffle loops.

Modelling choices:

- Complex numbers are pairs of reals, so sums are exact and the algebra of accumulation can be stated.
- A kernel's grid updates are described as a list of `Deposit`s (cell, value) in the kernel's own loop order. The imperative kernels are proved to perform exactly `ApplyAll` of that list. Every cell then holds its initial value plus `SumAt` the deposits aimed at it, and that total does not depend on the order.
- The sign and injectivity lemmas of the layer index hold when `0 <= over_u, over_v < over`. As written, line 81 of `common.h` takes `over_u` against the translated pixel. For any grid wider than the support by two pixels, with `over >= 2`, both indices are then negative (`Common.OverIndexShift`). A w-plane-0 sample then gets a negative index (`Common.ZeroPlaneIndexNegative`), so the convention of lines 95-99 (a negative index means a negative w-plane) does not hold for the indices `pregridPoint` produces. The lemmas are therefore stated under that hypothesis.
- The `short` preconditions (`PregridFits`) of those lemmas limit them to small grids. With the translated `over_u`, a realistic configuration such as `grid_size = 2048` and `over = 8` gives the layer index `-73728` to a sample near the grid centre, and that is not a `short` (`Common.WideGridUnfit`).
- The MS3 `pregrid` truncates toward zero twice: `u = int(us)` and `fracu = short(over*(us - u))`. For a negative coordinate the fraction lies in `(-over, 0]` (`Ms3Gridder.FractionRange`), and it is negative whenever `over*(us - u) <= -1`. For example `us = -3.25` with `over = 8` gives `fracu = -2` (`Ms3Gridder.NegativeFraction`). The kernel then reads a pixel of the previous w-plane's layers, or before the GCF on w-plane 0. `Ms3Gridder.PregridAddressesGcf` is therefore stated for fractions in `[0, over)`, and `Ms3Gridder.PregridUvwInGcf` shows that non-negative scaled coordinates give such fractions.
- OpenMP's dynamic schedule is an input `owner` (baseline to thread). The threads run one after another on their disjoint slices and counters. The reduced grids and counters are proved independent of `owner`.
- Modules follow the source files:
  - `Common`: `common.h`.
  - `ScatterDeposits`, `ScatterKernel`, `ScatterFull`, `GridSlices`, `DegridTaps`, `DegridKernel`, `GridUtils`: `scatter_gridder_w_dependent_dyn_1p.cpp`.
  - `PsfDeposits`, `PsfKernel`: `scatter_psf_w_dependent_dyn.cpp`.
  - `Ms3Gridder`, `LoopOrder`: `scatter_gridder.cpp`.
  - `GcfOffsets`: the Halide driver.
  - `Fft`: `fft.cpp`.
  - `OskarReader`: `OskarBinReader.cpp`.
  - `Complex`, `Accumulate`, `Gather` and `Reduction` are shared.

## Model

| member | source | states |
|---|---|---|
| Common.GetSupp | MS3/Sketches/CPU_Gridders/common.h:47-50 | the support of w-plane `w` is `8*abs(w)+1`: odd and at least one |
| Common.GetSuppSymmetric | MS3/Sketches/CPU_Gridders/common.h:47-50 | mirrored w-planes have the same support |
| Common.Round | MS3/Sketches/CPU_Gridders/common.h:75-82 | C's `round`: the result is within half a unit of its argument, and a halfway case goes away from zero |
| Common.RoundUnique | MS3/Sketches/CPU_Gridders/common.h:75-82 | no other integer meets those conditions, so they define `round` |
| Common.PregridPoint | MS3/Sketches/CPU_Gridders/common.h:70-110 | the stored support is `get_supp` of the rounded w-plane, and translating the stored pixel back by half the support gives `round(u*scale)+grid_size/2` |
| Common.LayerIndexDecodes | MS3/Sketches/CPU_Gridders/common.h:100-107 | with in-range oversampling indices, the layer index decodes back to `(w_plane, over_u, over_v)` |
| Common.LayerIndexInjective | MS3/Sketches/CPU_Gridders/common.h:100-107 | when `0 <= over_u, over_v < over`, distinct `(w_plane, over_u, over_v)` address distinct layers |
| Common.LayerIndexSign | MS3/Sketches/CPU_Gridders/common.h:100-107 | when `0 <= over_u, over_v < over`, the layer index has the sign of the w-plane |
| Common.MirroredIndex | MS3/Sketches/CPU_Gridders/common.h:94-105 | with mirroring and when both oversampling indices lie in `[0, over)`, the index is negative exactly for negative w-planes, and its magnitude decodes to `abs(w_plane)`, `over_u` and `over_v` |
| Common.UnmirroredIndex | MS3/Sketches/CPU_Gridders/common.h:107 | without mirroring and when both oversampling indices lie in `[0, over)`, the index is negative exactly for negative w-planes and decodes to `w_plane`, `over_u` and `over_v` |
| Common.PregridIndexInjective | MS3/Sketches/CPU_Gridders/common.h:94-108 | in either mode and when all four oversampling indices lie in `[0, over)`, equal stored indices mean equal w-plane and equal oversampling indices |
| Common.OverIndexShift | MS3/Sketches/CPU_Gridders/common.h:79-82 | because `over_u` is taken against the translated pixel, it lies within half a unit of the oversampled residual shifted down by `over*(grid_size/2 - max_supp/2)`; with `over >= 2` and a grid wider than the support by two pixels, both oversampling indices are negative |
| Common.ResidualShift | MS3/Sketches/CPU_Gridders/common.h:81 | one coordinate: the index is within half a unit of the shifted residual, and negative for a shift of at least one pixel |
| Common.ZeroPlaneIndexNegative | MS3/Sketches/CPU_Gridders/common.h:94-108 | a w-plane-0 sample on a grid of at least two pixels gets a negative index in either mode, with `over >= 2` |
| Common.WideGridUnfit | MS3/Sketches/CPU_Gridders/common.h:79-108 | with `grid_size = 2048` and `over = 8` the layer index of that sample is `-73728`, which is not a `short`, in either mode |
| Common.OverIndexTie | MS3/Sketches/CPU_Gridders/common.h:79-81 | a halfway case: `over = 8`, `grid_size = 2048` and scaled `u = 3.0625` give `over_u = round(-8191.5) = -8192` |
| Accumulate.ApplyAll | MS4/kernel/cpu/scatter_grid/scatter_gridder_w_dependent_dyn_1p.cpp:169 | replaying `+=` updates keeps the buffer's length |
| Accumulate.ApplyAllSnoc | MS4/kernel/cpu/scatter_grid/scatter_gridder_w_dependent_dyn_1p.cpp:169 | one more in-buffer update is one more `+=` on its cell |
| Accumulate.ApplyAllSkip | MS4/kernel/cpu/scatter_grid/scatter_gridder_w_dependent_dyn_1p.cpp:169 | an update outside the buffer changes nothing |
| Accumulate.ApplyAllAt | MS4/kernel/cpu/scatter_grid/scatter_gridder_w_dependent_dyn_1p.cpp:169 | after a replay each cell holds its initial value plus the sum of the updates aimed at it |
| Accumulate.ApplyAllSums | MS4/kernel/cpu/scatter_grid/scatter_gridder_w_dependent_dyn_1p.cpp:169 | after a replay every cell at once holds its initial value plus the sum of its updates |
| Accumulate.ApplyAllConcat | MS4/kernel/cpu/scatter_grid/scatter_gridder_w_dependent_dyn_1p.cpp:146-176 | gridding two batches one after the other is gridding their concatenation |
| Accumulate.SumAtConcat | MS4/kernel/cpu/scatter_grid/scatter_gridder_w_dependent_dyn_1p.cpp:169 | the total a cell receives is additive over concatenation |
| Accumulate.SumAtMiss | MS4/kernel/cpu/scatter_grid/scatter_gridder_w_dependent_dyn_1p.cpp:169 | a cell no update aims at receives zero |
| Accumulate.ApplyAllWindow | MS4/kernel/cpu/scatter_grid/scatter_gridder_w_dependent_dyn_1p.cpp:76-84 | updates that land in a thread's window change only that window, cell by cell by their sums |
| Accumulate.ApplyAllZeroed | MS4/kernel/cpu/scatter_grid/scatter_gridder_w_dependent_dyn_1p.cpp:76-84 | zeroing a slice and then replaying updates inside it leaves the slice equal to the per-cell sums and the rest untouched |
| Accumulate.SumAtPerm | MS4/kernel/cpu/scatter_grid/scatter_gridder_w_dependent_dyn_1p.cpp:146-176 | permuting the updates leaves every cell's total unchanged |
| Reduction.ThreadSumStep | MS4/kernel/cpu/scatter_grid/scatter_gridder_w_dependent_dyn_1p.cpp:86-87 | one more baseline adds its total to the threads' sums when one of the threads owns it, and nothing otherwise |
| Reduction.ThreadsCover | MS4/kernel/cpu/scatter_grid/scatter_gridder_w_dependent_dyn_1p.cpp:225-231 | whatever the schedule, the per-thread sums add up to the sum of all updates |
| Reduction.ThreadsBatches | MS4/kernel/cpu/scatter_grid/scatter_gridder_w_dependent_dyn_1p.cpp:225-231 | however the baselines are spread over the threads, the per-thread sums add up to the per-baseline sums |
| Reduction.BatchSumsFlatten | MS4/kernel/cpu/scatter_grid/scatter_gridder_w_dependent_dyn_1p.cpp:225-231 | adding the baselines' totals one by one equals the total of all their updates together |
| Reduction.ThreadCountCover | MS4/kernel/cpu/scatter_grid/scatter_gridder_w_dependent_dyn_1p.cpp:241-242 | whatever the schedule, the per-thread counters add up to the number of updates |
| Reduction.OwnedWithin | MS4/kernel/cpu/scatter_grid/scatter_gridder_w_dependent_dyn_1p.cpp:86-87 | every update of a thread's baselines stays inside its slice |
| Reduction.FlattenConcat | MS4/kernel/cpu/scatter_grid/scatter_gridder_w_dependent_dyn_1p.cpp:86-176 | flattening two runs of baselines is concatenating their updates |
| Reduction.FlattenPerm | MS3/Sketches/CPU_Gridders/scatter_psf_w_dependent_dyn.cpp:99-104 | reordering whole baselines only reorders the flattened updates |
| Reduction.MapBatches | MS3/Sketches/CPU_Gridders/scatter_psf_w_dependent_dyn.cpp:99-104 | visiting a list of baselines produces their update lists in that order |
| Reduction.MapBatchesPerm | MS3/Sketches/CPU_Gridders/scatter_psf_w_dependent_dyn.cpp:99-104 | visiting the same baselines in another order gives the same batches in another order |
| ScatterDeposits.WindowInsideAt | MS4/kernel/cpu/scatter_grid/scatter_gridder_w_dependent_dyn_1p.cpp:139-140 | when the window test holds, every pixel read of the footprint lies in the layer |
| ScatterDeposits.WindowInsideExact | MS4/kernel/cpu/scatter_grid/scatter_gridder_w_dependent_dyn_1p.cpp:139-140 | the window test demands no more than that every pixel read lies in the layer |
| ScatterDeposits.PixelRead | MS4/kernel/cpu/scatter_grid/scatter_gridder_w_dependent_dyn_1p.cpp:130-140 | a kept sample reads pixel `(gs-supp)/2*(gs+1)+su*gs+sv` of its layer, inside it; in half-GCF mode a negative index reads layer `-index` conjugated |
| ScatterDeposits.KeptFootprint | MS4/kernel/cpu/scatter_grid/scatter_gridder_w_dependent_dyn_1p.cpp:142-144 | every cell a kept sample writes has both coordinates in `[0, grid_size-1)` |
| ScatterDeposits.RowDeposits | MS4/kernel/cpu/scatter_grid/scatter_gridder_w_dependent_dyn_1p.cpp:157-171 | the `sv` loop of a kept sample issues one update per pixel |
| ScatterDeposits.SampleRow | MS4/kernel/cpu/scatter_grid/scatter_gridder_w_dependent_dyn_1p.cpp:155 | a footprint row has `supp` updates for a kept sample and none for a dropped one |
| ScatterDeposits.KeptUpTo | MS4/kernel/cpu/scatter_grid/scatter_gridder_w_dependent_dyn_1p.cpp:142-144 | no more samples are kept than were visited |
| ScatterDeposits.BlDepositsLength | MS4/kernel/cpu/scatter_grid/scatter_gridder_w_dependent_dyn_1p.cpp:146-176 | a baseline issues `supp*supp` updates per kept sample |
| ScatterDeposits.Batches | MS4/kernel/cpu/scatter_grid/scatter_gridder_w_dependent_dyn_1p.cpp:86-176 | one update list per baseline, each in the kernel's loop order |
| ScatterDeposits.VisitsCount | MS4/kernel/cpu/scatter_grid/scatter_gridder_w_dependent_dyn_1p.cpp:173 | the visit counter equals the number of grid updates |
| ScatterDeposits.DroppedDepositsNothing | MS4/kernel/cpu/scatter_grid/scatter_gridder_w_dependent_dyn_1p.cpp:155 | an out-of-bounds sample writes nothing |
| ScatterDeposits.RowDepositAt | MS4/kernel/cpu/scatter_grid/scatter_gridder_w_dependent_dyn_1p.cpp:157-171 | update `sv` of row `su` adds `vis * pixel(su, sv)` to cell `(u+su, v+sv)` |
| ScatterDeposits.BatchesWithin | MS4/kernel/cpu/scatter_grid/scatter_gridder_w_dependent_dyn_1p.cpp:142-171 | every update of every baseline lands inside the `grid_size * grid_pitch` grid |
| ScatterKernel.ScatterRow | MS4/kernel/cpu/scatter_grid/scatter_gridder_w_dependent_dyn_1p.cpp:155-174 | the `sv` loop performs exactly a footprint row's updates and counts them |
| ScatterKernel.ResolveSamples | MS4/kernel/cpu/scatter_grid/scatter_gridder_w_dependent_dyn_1p.cpp:118-145 | the per-sample pass caches every sample's layer, conjugation flag, correction and bounds test |
| ScatterKernel.ScatterSamples | MS4/kernel/cpu/scatter_grid/scatter_gridder_w_dependent_dyn_1p.cpp:147-175 | the sample loop performs exactly footprint row `su` of every sample, and counts |
| ScatterKernel.ScatterBaseline | MS4/kernel/cpu/scatter_grid/scatter_gridder_w_dependent_dyn_1p.cpp:87-176 | one baseline performs exactly its update list, and counts it |
| ScatterKernel.ZeroSlice | MS4/kernel/cpu/scatter_grid/scatter_gridder_w_dependent_dyn_1p.cpp:76-84 | the `memset` zeroes the thread's slice and nothing else |
| ScatterKernel.GridOwned | MS4/kernel/cpu/scatter_grid/scatter_gridder_w_dependent_dyn_1p.cpp:86-183 | a thread performs the updates of the baselines the schedule gives it, in order |
| ScatterKernel.GridKernelScatter | MS4/kernel/cpu/scatter_grid/scatter_gridder_w_dependent_dyn_1p.cpp:54-185 | a thread's slice ends up holding the per-cell sums of its updates, nothing else changes, and its counter is its update count |
| GridSlices.ThreadGrid | MS4/kernel/cpu/scatter_grid/scatter_gridder_w_dependent_dyn_1p.cpp:76-78 | a thread's slice has exactly `grid_size * grid_pitch` cells |
| GridSlices.SliceSumSnoc | MS4/kernel/cpu/scatter_grid/scatter_gridder_w_dependent_dyn_1p.cpp:24-43 | one more slice adds its own cell to the sum |
| GridSlices.SliceSumThreads | MS4/kernel/cpu/scatter_grid/scatter_gridder_w_dependent_dyn_1p.cpp:24-43 | summing the thread slices cell by cell gives the sum over threads of each thread's updates |
| GridSlices.SlicesDoneStep | MS4/kernel/cpu/scatter_grid/scatter_gridder_w_dependent_dyn_1p.cpp:72-84 | a thread writing its slice keeps the earlier threads' slices |
| ScatterFull.CellSum | MS4/kernel/cpu/scatter_grid/scatter_gridder_w_dependent_dyn_1p.cpp:34-40 | the inner loop of `addGrids` sums cell `i` over the slices, first to last |
| ScatterFull.AddGrids | MS4/kernel/cpu/scatter_grid/scatter_gridder_w_dependent_dyn_1p.cpp:24-43 | every cell of `dst` in the grid becomes the sum over slices; the rest of `dst` is untouched |
| ScatterFull.RunThreads | MS4/kernel/cpu/scatter_grid/scatter_gridder_w_dependent_dyn_1p.cpp:227-230 | the threads leave their slices laid end to end and one counter each |
| ScatterFull.SumCounters | MS4/kernel/cpu/scatter_grid/scatter_gridder_w_dependent_dyn_1p.cpp:241-242 | `counters[0]` ends as the sum of all threads' counts |
| ScatterFull.GridKernelScatterFull | MS4/kernel/cpu/scatter_grid/scatter_gridder_w_dependent_dyn_1p.cpp:193-243 | for any schedule over `nthreads` threads, each grid cell holds the sum of all updates at it, the rest is untouched, and the count is `supp*supp` per kept sample |
| Gather.GatherFromSnoc | MS4/kernel/cpu/scatter_grid/scatter_gridder_w_dependent_dyn_1p.cpp:171 | one more read is one more `+=` on the accumulator |
| Gather.GatherFromConcat | MS4/kernel/cpu/scatter_grid/scatter_gridder_w_dependent_dyn_1p.cpp:146-176 | reading two lists one after the other is reading their concatenation |
| Gather.GatherFromShift | MS4/kernel/cpu/scatter_grid/scatter_gridder_w_dependent_dyn_1p.cpp:171 | the reads' contribution does not depend on the starting value |
| Gather.GatherFromLocal | MS4/kernel/cpu/scatter_grid/scatter_gridder_w_dependent_dyn_1p.cpp:171 | only the cells being read matter |
| DegridTaps.UnitVis | MS4/kernel/cpu/scatter_grid/scatter_gridder_w_dependent_dyn_1p.cpp:171 | the degrid reads are the grid updates of a visibility of one |
| DegridTaps.DegridDropped | MS4/kernel/cpu/scatter_grid/scatter_gridder_w_dependent_dyn_1p.cpp:125-155 | a dropped sample's visibility stays zero |
| DegridTaps.TapsLength | MS4/kernel/cpu/scatter_grid/scatter_gridder_w_dependent_dyn_1p.cpp:146-176 | a kept sample makes `supp*supp` reads |
| DegridTaps.TapsAt | MS4/kernel/cpu/scatter_grid/scatter_gridder_w_dependent_dyn_1p.cpp:157-171 | read `su*supp+sv` fetches grid cell `(u+su, v+sv)` through pixel `(su, sv)` |
| DegridTaps.TapsWithin | MS4/kernel/cpu/scatter_grid/scatter_gridder_w_dependent_dyn_1p.cpp:142-171 | every read lies inside the grid |
| DegridTaps.DegridReadsGrid | MS4/kernel/cpu/scatter_grid/scatter_gridder_w_dependent_dyn_1p.cpp:372-408 | degridding depends only on the `grid_size * grid_pitch` grid cells |
| DegridKernel.DegridRow | MS4/kernel/cpu/scatter_grid/scatter_gridder_w_dependent_dyn_1p.cpp:155-174 | the `sv` loop accumulates exactly a footprint row's reads into one visibility, touches no other, and counts |
| DegridKernel.DegridPrepass | MS4/kernel/cpu/scatter_grid/scatter_gridder_w_dependent_dyn_1p.cpp:118-145 | the baseline's visibilities are cleared and its samples resolved; other baselines are untouched |
| DegridKernel.DegridSamples | MS4/kernel/cpu/scatter_grid/scatter_gridder_w_dependent_dyn_1p.cpp:147-175 | each sample of the baseline gathers footprint row `su`; other baselines are untouched |
| DegridKernel.DegridBaseline | MS4/kernel/cpu/scatter_grid/scatter_gridder_w_dependent_dyn_1p.cpp:87-176 | each visibility of the baseline becomes zero plus all its reads, in loop order |
| DegridKernel.DegridOwned | MS4/kernel/cpu/scatter_grid/scatter_gridder_w_dependent_dyn_1p.cpp:86-183 | the thread's baselines are degridded and all other rows keep their values |
| DegridKernel.DeGridKernelScatterFull | MS4/kernel/cpu/scatter_grid/scatter_gridder_w_dependent_dyn_1p.cpp:372-408 | for any schedule, every visibility is degridded from the unchanged grid, and the count is `supp*supp` per kept sample |
| GridUtils.Grid0Deposits | MS4/kernel/cpu/scatter_grid/scatter_gridder_w_dependent_dyn_1p.cpp:268-291 | one update per sample |
| GridUtils.Grid0 | MS4/kernel/cpu/scatter_grid/scatter_gridder_w_dependent_dyn_1p.cpp:268-291 | each buffer slot gains the visibilities of the samples landing on it; samples failing the bounds test change nothing |
| GridUtils.Grid0Step | MS4/kernel/cpu/scatter_grid/scatter_gridder_w_dependent_dyn_1p.cpp:280-289 | one iteration adds the sample's visibility to its slot when the shifted slot passes the bounds test and leaves the buffer alone otherwise |
| GridUtils.NormInverse | MS4/kernel/cpu/scatter_grid/scatter_gridder_w_dependent_dyn_1p.cpp:294-306 | scaling by `1/siz` is undone by scaling by `siz` |
| GridUtils.NormalizeCPU | MS4/kernel/cpu/scatter_grid/scatter_gridder_w_dependent_dyn_1p.cpp:294-306 | each grid cell is multiplied by `1/(grid_size*grid_pitch)`, nothing else changes |
| GridUtils.CountAt | MS4/kernel/cpu/scatter_grid/scatter_gridder_w_dependent_dyn_1p.cpp:331-341 | a slot's count never exceeds the number of samples |
| GridUtils.CountAtOwn | MS4/kernel/cpu/scatter_grid/scatter_gridder_w_dependent_dyn_1p.cpp:344-352 | a sample that passes the bounds test is divided by a count of at least one |
| GridUtils.CountAtNone | MS4/kernel/cpu/scatter_grid/scatter_gridder_w_dependent_dyn_1p.cpp:331-341 | slots no sample lands on count zero |
| GridUtils.CountSamples | MS4/kernel/cpu/scatter_grid/scatter_gridder_w_dependent_dyn_1p.cpp:331-341 | the first pass leaves the per-slot sample counts and caches the coordinates |
| GridUtils.Reweight | MS4/kernel/cpu/scatter_grid/scatter_gridder_w_dependent_dyn_1p.cpp:311-353 | each in-bounds visibility is divided by the number of samples on its cell; the others are untouched |
| PsfDeposits.CvtPre | MS3/Sketches/CPU_Gridders/scatter_psf_w_dependent_dyn.cpp:52-66 | a pregridded input passes unchanged; a raw sample is pregridded, with a support of `get_supp` and a centred pixel |
| PsfDeposits.PsfRow | MS3/Sketches/CPU_Gridders/scatter_psf_w_dependent_dyn.cpp:119-136 | one update per pixel of the row |
| PsfDeposits.PsfBatches | MS3/Sketches/CPU_Gridders/scatter_psf_w_dependent_dyn.cpp:99-139 | loop index `bl0` issues the updates of the baseline it selects |
| PsfDeposits.PsfRowAt | MS3/Sketches/CPU_Gridders/scatter_psf_w_dependent_dyn.cpp:119-136 | update `sv` of row `su` adds pixel `su*supp+sv` with weight one to cell `(u+su, v+sv)` |
| PsfDeposits.PsfBatchesWithin | MS3/Sketches/CPU_Gridders/scatter_psf_w_dependent_dyn.cpp:105-136 | with no bounds test, every update still lands in the grid for a caller meeting the precondition |
| PsfDeposits.Range | MS3/Sketches/CPU_Gridders/scatter_psf_w_dependent_dyn.cpp:99-104 | the baselines `0 .. n-1` in order |
| PsfDeposits.Selected | MS3/Sketches/CPU_Gridders/scatter_psf_w_dependent_dyn.cpp:99-104 | the baselines the loop selects, in loop order |
| PsfDeposits.PermutationInvariant | MS3/Sketches/CPU_Gridders/scatter_psf_w_dependent_dyn.cpp:99-104 | with a table that permutes the baselines, every cell receives what gridding them in order would give |
| PsfKernel.PsfScatterRow | MS3/Sketches/CPU_Gridders/scatter_psf_w_dependent_dyn.cpp:117-137 | the `sv` loop performs exactly a row's updates |
| PsfKernel.PsfScatterSamples | MS3/Sketches/CPU_Gridders/scatter_psf_w_dependent_dyn.cpp:109-138 | the sample loop converts each sample and performs its row `su` |
| PsfKernel.PsfScatterBaseline | MS3/Sketches/CPU_Gridders/scatter_psf_w_dependent_dyn.cpp:99-139 | one `bl0` iteration performs exactly the updates of the baseline it selects |
| PsfKernel.PsfScatterOwned | MS3/Sketches/CPU_Gridders/scatter_psf_w_dependent_dyn.cpp:98-140 | a thread performs the updates of the loop indices the schedule gives it |
| PsfKernel.PsfKernelScatter | MS3/Sketches/CPU_Gridders/scatter_psf_w_dependent_dyn.cpp:76-142 | a thread's slice ends up holding the per-cell sums of its updates; nothing else changes |
| PsfKernel.PsfRunThreads | MS3/Sketches/CPU_Gridders/scatter_psf_w_dependent_dyn.cpp:92-96 | the threads leave their slices laid end to end |
| PsfKernel.AddGridsAvx | MS3/Sketches/CPU_Gridders/scatter_psf_w_dependent_dyn.cpp:21-41 | the first `2*(siz/2)` cells become the sums over slices; the rest of `dst`, including the last cell of an odd grid, is untouched |
| PsfKernel.PsfiKernelScatterFull | MS3/Sketches/CPU_Gridders/scatter_psf_w_dependent_dyn.cpp:153-198 | for any schedule, each cell the vector loop covers holds the sum of all updates, the last cell of an odd grid stays zero, the rest is untouched |
| LoopOrder.Tr | MS3/Sketches/CPU_Gridders/scatter_gridder.cpp:104-113 | the loop body with its indices exchanged |
| LoopOrder.CatSwap | MS3/Sketches/CPU_Gridders/scatter_gridder.cpp:104-146 | exchanging two nested loops only reorders their updates |
| LoopOrder.CatCongr | MS3/Sketches/CPU_Gridders/scatter_gridder.cpp:104-146 | reordering inside each inner loop only reorders the nest |
| LoopOrder.InnerOfLoops | MS3/Sketches/CPU_Gridders/scatter_gridder.cpp:104-146 | an inner loop whose body is a loop is a nest of its own |
| Ms3Gridder.GridPol | MS3/Sketches/CPU_Gridders/scatter_gridder.cpp:141-145 | each polarisation gains the same polarisation of the visibility times the weight, and no other |
| Ms3Gridder.Proj | MS3/Sketches/CPU_Gridders/scatter_gridder.cpp:141-145 | one polarisation of a grid, cell by cell |
| Ms3Gridder.Pregrid | MS3/Sketches/CPU_Gridders/scatter_gridder.cpp:62-83 | `u` and `v` are shifted by `(max_supp+grid_size)/2` and stay representable as `short` |
| Ms3Gridder.PregridAddressesGcf | MS3/Sketches/CPU_Gridders/scatter_gridder.cpp:78-82 | the kernel's offset arithmetic reads exactly `gcf[wplane][fracu][fracv][su][sv]`; when `0 <= wplane < w_planes` and `0 <= fracu, fracv < over`, that element is inside the GCF |
| Common.Trunc | MS3/Sketches/CPU_Gridders/scatter_gridder.cpp:68-70 | C's conversion to an integer truncates toward zero: within one unit of the value, on the side of zero |
| Ms3Gridder.PregridUvw | MS3/Sketches/CPU_Gridders/scatter_gridder.cpp:62-83 | from the scaled coordinates, the stored `u` and `v` less the shift are the coordinates truncated toward zero |
| Ms3Gridder.FractionRange | MS3/Sketches/CPU_Gridders/scatter_gridder.cpp:68-75 | `fracu` lies in `[0, over)` for a non-negative coordinate and in `(-over, 0]` for a negative one |
| Ms3Gridder.PregridUvwInGcf | MS3/Sketches/CPU_Gridders/scatter_gridder.cpp:62-83 | for non-negative scaled `u`, `v` and a w-plane in `[0, w_planes)`, every pixel the kernel reads for the sample is inside the GCF |
| Ms3Gridder.NegativeFraction | MS3/Sketches/CPU_Gridders/scatter_gridder.cpp:68-82 | `us = -3.25` with `over = 8` gives `u = -3` and `fracu = -2`, and on w-plane 0 a negative layer offset |
| Ms3Gridder.GcfIndexWithin | MS3/Sketches/CPU_Gridders/scatter_gridder.cpp:106 | in-range indices address an element inside the GCF |
| Ms3Gridder.LoopOrderIrrelevant | MS3/Sketches/CPU_Gridders/scatter_gridder.cpp:104-146 | the kernel's `sv`, sample, `su` order issues the same updates as sample-major order |
| Ms3Gridder.KernelOrderSums | MS3/Sketches/CPU_Gridders/scatter_gridder.cpp:104-146 | every cell receives the same total in the kernel's loop order as in sample-major order |
| Ms3Gridder.ProjGridPol | MS3/Sketches/CPU_Gridders/scatter_gridder.cpp:141-145 | updating one cell updates that cell of every polarisation independently |
| Ms3Gridder.AvxGridPol | MS3/Sketches/CPU_Gridders/scatter_gridder.cpp:121-139 | the AVX branch as written: the cell gets its XX and XY updates, and the YX and YY products go to the next cell's XX and XY; at the last cell the store is out of bounds |
| Ms3Gridder.AvxMisplaces | MS3/Sketches/CPU_Gridders/scatter_gridder.cpp:121-145 | compared with the scalar `__GRID_POL`, the AVX branch leaves the cell's YX and YY unchanged and moves their products into the next cell, so the results differ whenever the YX product is not zero |
| Ms3Gridder.AvxUnitDiffers | MS3/Sketches/CPU_Gridders/scatter_gridder.cpp:121-145 | a unit YX visibility with unit weight makes the AVX and scalar updates differ on every cell that has a successor |
| Ms3Gridder.ScatterSu | MS3/Sketches/CPU_Gridders/scatter_gridder.cpp:113-147 | the `su` loop leaves the grid that its passes, replayed one by one in `su` order, produce |
| Ms3Gridder.SuGridDone | MS3/Sketches/CPU_Gridders/scatter_gridder.cpp:113-147 | the replayed `su` passes give every polarisation of every cell exactly its updates from this sample and this `sv` column |
| Ms3Gridder.ScatterSamples | MS3/Sketches/CPU_Gridders/scatter_gridder.cpp:105-148 | the sample loop leaves the grid its per-sample `su` loops produce one after the other |
| Ms3Gridder.SamplesGridDone | MS3/Sketches/CPU_Gridders/scatter_gridder.cpp:105-148 | after the first `i` samples of one `sv` column, each polarisation holds exactly those samples' updates in kernel order |
| Ms3Gridder.GridKernelScatter | MS3/Sketches/CPU_Gridders/scatter_gridder.cpp:96-150 | per polarisation the grid gets that polarisation's updates in kernel order; per cell it holds the old value plus the sample-major sum |
| Ms3Gridder.KernelCells | MS3/Sketches/CPU_Gridders/scatter_gridder.cpp:96-150 | the finished loops give every polarisation and cell the sample-major sum |
| GcfOffsets.BlockSize | MS5/halide_scatter/scatter_gridder_w_dependent_dyn_1p_halide_full.cpp:50 | a w-plane's block of `over*over*supp*supp` pixels is never negative |
| GcfOffsets.ComputeGcfOffsets | MS5/halide_scatter/scatter_gridder_w_dependent_dyn_1p_halide_full.cpp:47-51 | each plane's offset is the running total before it; `off` ends as the GCF's element count; plane 0 starts at 0 |
| GcfOffsets.OffsetMonotone | MS5/halide_scatter/scatter_gridder_w_dependent_dyn_1p_halide_full.cpp:47-51 | the offsets never decrease |
| GcfOffsets.BlocksDisjoint | MS5/halide_scatter/scatter_gridder_w_dependent_dyn_1p_halide_full.cpp:47-59 | blocks of distinct planes do not overlap, and each lies inside the `off` elements |
| Fft.ProdConcat | MS5/kernel/cpu/gridding/fft.cpp:65-71 | the product of a concatenation is the product of the products |
| Fft.Product | MS5/kernel/cpu/gridding/fft.cpp:65-71 | the loop computes the product of the list: 1 for an empty list, at least 1 for positive factors |
| Fft.ProdPositive | MS5/kernel/cpu/gridding/fft.cpp:65-71 | a product of positive factors is positive |
| Fft.RadixFactor | MS5/kernel/cpu/gridding/fft.cpp:489-503 | the factors multiply to `N`; all but the last are radices in non-increasing order; a trailing leftover has no factor 2, 3 or 5 and is 1 only for `N == 1`; at most one 4 or 2 |
| Fft.LeftoverOrdered | MS5/kernel/cpu/gridding/fft.cpp:499-501 | appending the leftover keeps the factorisation ordered |
| Fft.ExtractStep | MS5/kernel/cpu/gridding/fft.cpp:492-497 | dividing out a radix keeps the remainder positive and smaller, cleared of earlier radices; after a 4 or a 2 it is odd |
| Fft.TakeStep | MS5/kernel/cpu/gridding/fft.cpp:492-497 | taking one more radix out keeps the product equal to `N`, the radices non-increasing and at most one 4 or 2, and strictly shrinks the remainder |
| Fft.OrLowBits | MS5/kernel/cpu/gridding/fft.cpp:380 | ORing with `2^b - 1` rounds down to a multiple of `2^b` and adds `2^b - 1` |
| Fft.ZipNAligned | MS5/kernel/cpu/gridding/fft.cpp:456 | the zip point is a multiple of `group` within `group-1` above `N0/2` |
| Fft.ZipNExactHalf | MS5/kernel/cpu/gridding/fft.cpp:456-461 | the zip point is exactly half the domain, so no clamping is needed, exactly when `N0` is a multiple of 8 |
| OskarReader.BinRead | MS3/Sketches/Oskar_New_Reader/OskarBinReader.cpp:71-102 | the chain of reads returns 0 exactly when every read succeeds, otherwise the first failure's status |
| OskarReader.Performed | MS3/Sketches/Oskar_New_Reader/OskarBinReader.cpp:71-102 | reads stop right after the first failure |
| OskarReader.BinReadConcat | MS3/Sketches/Oskar_New_Reader/OskarBinReader.cpp:111 | consecutive checked chains compose into one chain |
| OskarReader.NumBaselinesExact | MS3/Sketches/Oskar_New_Reader/OskarBinReader.cpp:165 | `ns*(ns-1)/2` is exact, and not negative |
| OskarReader.ConsecutiveProduct | MS3/Sketches/Oskar_New_Reader/OskarBinReader.cpp:165 | `ns*(ns-1)` is even and never negative, for every station count |
| OskarReader.StationPairsCount | MS3/Sketches/Oskar_New_Reader/OskarBinReader.cpp:165 | the baseline count is the number of unordered pairs of distinct stations |
| OskarReader.MkFromFile | MS3/Sketches/Oskar_New_Reader/OskarBinReader.cpp:113-184 | a record exactly when every call succeeds and the amplitudes are double; its counts as computed; the handle leaks exactly on the amplitude-type rejection |
| OskarReader.SinglePrecisionLeaks | MS3/Sketches/Oskar_New_Reader/OskarBinReader.cpp:147-151 | a single-precision header is rejected and its handle is never freed |
| OskarReader.MkFromFileFreeing | MS3/Sketches/Oskar_New_Reader/OskarBinReader.cpp:113-184 | with the rejection freeing the handle: the same outcome and no leak |
| OskarReader.NumBlocksCeil | MS3/Sketches/Oskar_New_Reader/OskarBinReader.cpp:217 | the block count is the ceiling of `num_times / max_times_per_block` |
| OskarReader.UvwSlotRange | MS3/Sketches/Oskar_New_Reader/OskarBinReader.cpp:300-305 | coordinate slots lie inside the output array |
| OskarReader.AmpSlotRange | MS3/Sketches/Oskar_New_Reader/OskarBinReader.cpp:300-308 | amplitude slots lie inside the output array |
| OskarReader.UvwSlotInjective | MS3/Sketches/Oskar_New_Reader/OskarBinReader.cpp:300-302 | distinct coordinates get distinct slots |
| OskarReader.AmpSlotInjective | MS3/Sketches/Oskar_New_Reader/OskarBinReader.cpp:300-307 | distinct amplitudes get distinct slots |
| OskarReader.UvwSourceRange | MS3/Sketches/Oskar_New_Reader/OskarBinReader.cpp:296-305 | the block's coordinate index stays inside its temp arrays |
| OskarReader.AmpSourceRange | MS3/Sketches/Oskar_New_Reader/OskarBinReader.cpp:295-308 | the block's amplitude index stays inside its temp array |
| OskarReader.WrittenConcat | MS3/Sketches/Oskar_New_Reader/OskarBinReader.cpp:278-311 | performing two runs of stores is performing their concatenation |
| OskarReader.StoreUvw | MS3/Sketches/Oskar_New_Reader/OskarBinReader.cpp:302-305 | the three coordinate stores of `(t, b)` |
| OskarReader.StorePols | MS3/Sketches/Oskar_New_Reader/OskarBinReader.cpp:307-308 | the eight amplitude stores of `(t, c, b)` |
| OskarReader.ReshuffleRow | MS3/Sketches/Oskar_New_Reader/OskarBinReader.cpp:282-309 | the baseline loop performs exactly its stores |
| OskarReader.ReshuffleTime | MS3/Sketches/Oskar_New_Reader/OskarBinReader.cpp:280-310 | the channel loop performs exactly its stores |
| OskarReader.ReshuffleBlock | MS3/Sketches/Oskar_New_Reader/OskarBinReader.cpp:278-311 | the time loop performs exactly a block's stores |
| OskarReader.BlocksOutcome | MS3/Sketches/Oskar_New_Reader/OskarBinReader.cpp:232-312 | the block loop stops at the first failing block with its status; every earlier block succeeded |
| OskarReader.BlocksOutcomeStops | MS3/Sketches/Oskar_New_Reader/OskarBinReader.cpp:232-312 | once a block fails, no later block is read |
| OskarReader.ReshuffleOutcome | MS3/Sketches/Oskar_New_Reader/OskarBinReader.cpp:211-215 | a failing header read is returned at once and no block is stored |
| OskarReader.BlockStatusChain | MS3/Sketches/Oskar_New_Reader/OskarBinReader.cpp:237-276 | the six checked chains of a block compose into one chain of its seven reads |
| OskarReader.ReadBlock | MS3/Sketches/Oskar_New_Reader/OskarBinReader.cpp:237-276 | the block's reads return the first failure's status, or 0 |
| OskarReader.ReadBlocks | MS3/Sketches/Oskar_New_Reader/OskarBinReader.cpp:232-312 | the status is the block loop's outcome, and exactly the blocks before a failure are stored, in order |
| OskarReader.ReadAndReshuffle | MS3/Sketches/Oskar_New_Reader/OskarBinReader.cpp:196-322 | the returned status is the first failing read's, and the arrays receive exactly the stores of the blocks read before it |
| OskarReader.AmpCoords | MS3/Sketches/Oskar_New_Reader/OskarBinReader.cpp:300-307 | every amplitude slot decodes to in-range coordinates whose slot it is |
| OskarReader.AmpBlockUpTo | MS3/Sketches/Oskar_New_Reader/OskarBinReader.cpp:278-311 | after a block, each amplitude slot of its time steps holds the block's value for those coordinates; all other slots keep their values |
| OskarReader.NonEmptyLayout | MS3/Sketches/Oskar_New_Reader/OskarBinReader.cpp:165-167 | a non-empty output array means a channel, a time step and a baseline |
| OskarReader.UvwCoordsOf | MS3/Sketches/Oskar_New_Reader/OskarBinReader.cpp:300-302 | every coordinate slot decodes to in-range coordinates whose slot it is |
| OskarReader.UvwTimeAt | MS3/Sketches/Oskar_New_Reader/OskarBinReader.cpp:280-305 | the channel loop stores the same coordinates again for every channel |
| OskarReader.UvwBlockUpTo | MS3/Sketches/Oskar_New_Reader/OskarBinReader.cpp:278-311 | after a block, each coordinate slot of its time steps holds the block's u, v or w when there is a channel; all other slots keep their values |

## Left out

- Floating point: `complexd` and `double` are modelled by exact reals, so the products `u*scale`, `over*(u - pixel)` and the w-plane division are exact. C's `round` is modelled exactly on those reals in `common.h`'s `pregridPoint`; the MS3 `pregrid`'s truncations toward zero are modelled exactly too (`Common.Trunc`); `grid0` and `reweight` take their integer coordinates as inputs. The `double` to `short` conversions are preconditions (`PregridFits`): every value must be representable.
- `rotateCPU` (trigonometry) and `mkCfg`'s physical units are not modelled.
- SIMD: the MS4 `addGrids` works on vectors of one `complexd` and is modelled cell by cell. The PSF file's 256-bit `addGrids` is modelled with its loop bound of `siz / 2` vectors.
- Ms3Gridder.GridKernelScatter: models the scalar `__GRID_POL` branch of the MS3 kernel. Its AVX branch computes something else (see Findings); that branch is modelled for one pixel only, by `Ms3Gridder.AvxGridPol`.
- OpenMP: the dynamic schedule is an input `owner`, and the threads run one after another. Race freedom follows from the disjoint slices and rows and is not stated separately.
- Memory management (`malloc`, `calloc`, `free`, `delete`) is not modelled, except the one handle leak under Findings.
- Halide pipelines: the Halide FFT stages and the Halide scatter kernel are not modelled; only the integer helpers and the GCF offset loop are.
- The OSKAR library (`oskar_binary_create`, `oskar_binary_read_*`, `oskar_binary_query`) is abstracted: each call is the status it reports, and a block's temp contents come in `Block`.
- The status of the block search query is overwritten by the next read in the source, so the model ignores it.
- OskarReader.Fits: `readAndReshuffle` is modelled for blocks that satisfy `Fits`. Its conjuncts:
  - `start_channel_idx` is 0;
  - `0 <= num_times_in_block <= max_times_per_block`;
  - `start_time_idx + num_times_in_block <= num_times`;
  - the temp arrays have the sizes the source allocates (`max_times_per_block * num_baselines` coordinates, and 8 reals per baseline, channel and time for the amplitudes).
  The time bounds describe what the OSKAR file's block layout guarantees; the library call that reports them is not part of this model.
- With zero channels no coordinate is stored; the model states this in `OskarReader.UvwBlockUpTo`.
- The double-precision header fields of `VisData` (frequencies, integration times, phase centre) are read for their status only; their values are not modelled.
- `OSKAR_DOUBLE` is taken as type code 0x08, the OSKAR library's value; `oskar_binary.h` is not part of this model. `amp_type & 0x0F` is modelled as the remainder modulo 16.
- Integer width: 32-bit overflow is not modelled for `nt*nb*nc` in the reader, the `int` running product of `product`, the GCF offset `off`, or the grid index arithmetic. The model uses unbounded integers.
- Fft.RadixFactor: requires `N >= 1`. For `N == 0` the source's first inner loop never ends, and negative sizes are not FFT lengths.
- Fft.ZipNAligned: `|` is modelled by a recursive two's-complement OR on integers; `group` is fixed at 4 as in the source.
- Common.PregridPoint: the MS4 and PSF kernels call a `pregridPoint(scale, wstep, ...)` with a different signature, and its definition is not part of this model. The MS4 kernel is modelled from already pregridded records. The PSF kernel's raw path uses common.h's `pregridPoint`, with `w_planes/2` standing for `wstep`.
- PsfKernel.PsfKernelScatter: the PSF kernel does no bounds test. The model requires its caller to keep every footprint inside the grid (`Scatterable`), which the source's callers must also ensure.
- Ms3Gridder.GridKernelScatter: the kernel assumes every footprint lies inside the grid and every layer inside the GCF; the model states this as the precondition `Ms3Ok`.

## Findings

| source | as written | input that shows it | evidently intended | confidence | as-written member | corrected member |
|---|---|---|---|---|---|---|
| MS3/Sketches/Oskar_New_Reader/OskarBinReader.cpp:147-151 | a header whose amplitude type is not double returns null without `oskar_binary_free(h)`, unlike every `__CHECK` failure, so the file handle leaks | `HeaderFile(0, [0,0,0,0], 0x64, 10, 1, 3, [])`: all calls succeed, and the amplitude type is single-precision complex matrix | free the handle before returning null | not executed | OskarReader.MkFromFile (OskarReader.SinglePrecisionLeaks) | OskarReader.MkFromFileFreeing |
| MS3/Sketches/CPU_Gridders/scatter_gridder.cpp:128-139 | in the AVX branch, `__DO(1, YX)` adds the YX and YY products through `gridptr1[1]`, one 32-byte vector past `grid[gsu][gsv].YX`. That vector is the next cell's XX and XY: the cell's own YX and YY never change, and at the last cell of the grid the store is out of bounds | any cell with a successor, a visibility with YX = 1 and weight 1 (`Ms3Gridder.AvxUnitDiffers`) | store through `gridptr1[0]`, so that each polarisation gets its own product as in the scalar branch | not executed | Ms3Gridder.AvxGridPol (Ms3Gridder.AvxMisplaces) | Ms3Gridder.GridPol (Ms3Gridder.ProjGridPol) |
