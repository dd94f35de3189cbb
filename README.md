# cpphots event driver and layer modifiers, in Dafny

This project models two parts of cpphots, a library of hierarchical
time-surface layers for event-based vision:

* the generic event-stream driver of `include/cpphots/run.h`: the two
  `process` templates that reset a processor (a layer or a network) once per
  sequence, feed it every event in order with the caller's `skip_check` flag,
  and concatenate what it emits; the batch form does this per sequence;
* the layer output modifiers of `include/cpphots/layer_modifiers.h`: the
  `EventRemapper` strategies `ArrayLayer` (`{t, k, y, 0}`) and
  `SerializingLayer` (`{t, w*h*k + w*y + x, 0, 0}`), the `SuperCell`
  partition of the context into `K x K` cells that may overlap, and
  `SuperCellAverage`, which keeps a running mean of time surfaces per cell.

Files:

* `events.dfy` — module `Events`: the event record `{t, x, y, p}`.
* `run.dfy` — module `Run`: the processor as a class `Processor<S>` whose
  `reset()` and `process(event, bool)` are state transitions (`onReset`,
  `onEvent`) and whose ghost `log` records every call; the driver methods
  `Process`, `FeedEach` (its loop) and `ProcessBatch`, each proved equal to
  the specification functions `Session`, `Feed` and `Batch`; lemmas on those
  functions for the promised properties.
* `remappers.dfy` — module `Remappers`: the remapping strategies as one
  datatype, construction of a `SerializingLayer`, and the serialization round
  trip.
* `supercells.dfy` — module `SuperCells`: the `SuperCell` geometry as an
  immutable datatype with a layout invariant, its queries, and the lemmas
  about `FindCells`.
* `cellaverages.dfy` — module `CellAverages`: `SuperCellAverage` as a class
  holding a `SuperCell` and a flat `array<CellMem>` indexed by
  `cy * wcell + cx`, with a ghost history of each cell's inputs; the running
  mean is proved to be the mean of the inputs.
* `arithmetic.dfy` — module `Arithmetic`: division and multiplication facts
  used by the index proofs.

Modelling decisions:

* The processor is any state machine: `onReset: S -> S` and
  `onEvent: (S, Event, bool) -> Step<S>` (next state and emitted events).
  Layer and Network are instances of it; they are not part of this model.
* The `SuperCell` constructor and query bodies are not part of this model,
  so the derived layout is data: `colStart[cx]` and `rowStart[cy]` are the
  lower corners of the cell columns and rows, with `|colStart| == wcell`,
  `|rowStart| == hcell`. The invariant `Valid()` says `0 < K`, `o < K`,
  consecutive columns (rows) start at least `K - o` apart (neighbouring
  cells share at most `o` pixels), every cell ends within `wmax`/`hmax`,
  and the processed extent `wmax x hmax` lies inside the `width x height`
  context.
  `IsInCell` is the `K x K` square at those corners, inclusive below and
  exclusive above. `FindCells` is stated through `IsInCell`.
* `SuperCell` is a datatype because nothing updates it after construction;
  `SuperCellAverage` holds one (composition instead of inheritance).
* A time surface is a `seq<real>`: exact arithmetic instead of floating
  point.
* The `SerializingLayer` constructor body is not part of this model;
  `NewSerializingLayer` refusing a zero width or height is a modelling
  decision of this project (a zero-sized context has no serial index).

## Model

| member | source | states |
|---|---|---|
| Run.Processor.Reset | include/cpphots/run.h:24-27 | `reset()` applies the processor's reset transition and is logged |
| Run.Processor.Process | include/cpphots/run.h:24-27 | `process(ev, flag)` applies the event transition, returns its emitted events, and is logged with the event and flag |
| Run.Process | include/cpphots/run.h:35-48 | the new processor state, the calls appended to the log and the returned events are exactly those of `Session`: one reset, then each event in order, output the concatenation of the emissions |
| Run.FeedEach | include/cpphots/run.h:40-44 | the loop feeds every event in order and its output is the concatenation of what each call emitted (`Feed`, `Emitted`) |
| Run.ProcessBatch | include/cpphots/run.h:66-77 | state, log and results are exactly those of `Batch`: one session per sequence, in batch order |
| Run.Feed | include/cpphots/run.h:41-44 | feeding makes exactly one `process` call per event |
| Run.Session | include/cpphots/run.h:36-46 | a session makes one call more than there are events (the reset) |
| Run.Batch | include/cpphots/run.h:69-75 | the batch form returns exactly one result per input sequence |
| Run.FeedCallsFollowInput | include/cpphots/run.h:41-42 | call `i` of the feed is a `process` call on event `i`, with the caller's `skip_check` unchanged |
| Run.ResetExactlyOnceAndFirst | include/cpphots/run.h:36-42 | a session calls `reset()` exactly once, first; every later call processes the next input event with the caller's flag |
| Run.EmptySequence | include/cpphots/run.h:38-46 | an empty sequence gives an empty result, and `reset()` is still called once |
| Run.OutputInCallOrder | include/cpphots/run.h:40-44 | the emission of call `i` appears unchanged between the emissions of the earlier and the later calls: nothing added, dropped or reordered |
| Run.OutputBound | include/cpphots/run.h:41-43 | the output is at most the number of events times the processor's largest fan-out |
| Run.SessionOutput | include/cpphots/run.h:38-44 | the session's output is the output of feeding the events from the reset state |
| Run.BatchResultAt | include/cpphots/run.h:71-73 | batch result `i` is the single-sequence `process` applied to sequence `i` from the state the earlier sequences left |
| Run.BatchResets | include/cpphots/run.h:71-73 | the batch form calls `reset()` once per sequence, `|batch|` times in all |
| Run.BatchIndependentOfHistory | include/cpphots/run.h:66-77 | when `reset()` forgets the state, batch result `i` equals processing sequence `i` on its own from any state |
| Remappers.EventRemapper.RemapEvent | include/cpphots/layer_modifiers.h:15-53 | every remapper keeps the timestamp; `ArrayLayer` gives x = k, y unchanged, p = 0; `SerializingLayer` gives x = the serial index of (x, y, k), y = p = 0 |
| Remappers.EventRemapper.GetSize | include/cpphots/layer_modifiers.h:69-74 | `getSize()` of a `SerializingLayer` is its `(width, height)` |
| Remappers.NewSerializingLayer | include/cpphots/layer_modifiers.h:59-65 | construction succeeds exactly when both sizes are positive, and the layer then reports the sizes it was given |
| Remappers.Unserialize | include/cpphots/layer_modifiers.h:47-53 | decoding an index always yields an in-range position `x < w`, `y < h` |
| Remappers.UnserializeSerialIndex | include/cpphots/layer_modifiers.h:47-53 | with `x < w` and `y < h`, the serialized index decodes back to `(x, y, k)` |
| Remappers.SerialIndexUnserialize | include/cpphots/layer_modifiers.h:47-53 | every index is the serialization of what it decodes to, so serialization is onto |
| Remappers.SerialIndexInjective | include/cpphots/layer_modifiers.h:47-53 | distinct in-range `(x, y, k)` have distinct serial indices |
| Remappers.SerialIndexBounds | include/cpphots/layer_modifiers.h:47-53 | the indices of in-range positions of cluster `k` lie in the block `[w*h*k, w*h*(k+1))` |
| Remappers.BlockDecodesToCluster | include/cpphots/layer_modifiers.h:47-53 | every index of the block `[w*h*k, w*h*(k+1))` decodes to cluster `k`; with `SerialIndexBounds`, cluster `k` occupies exactly that block |
| Remappers.ArrayLayerSameOutput | include/cpphots/layer_modifiers.h:34-45 | two `ArrayLayer` outputs are equal iff the inputs agree on timestamp, row and cluster |
| Remappers.SerializingExample | include/cpphots/layer_modifiers.h:47-53 | `SerializingLayer(4, 3)` maps `(t=10, x=2, y=1)` with `k = 5` to `{10, 66, 0, 0}` |
| SuperCells.SuperCell.GetSize | include/cpphots/layer_modifiers.h:113-118 | `getSize()` is the context `(width, height)` |
| SuperCells.SuperCell.GetCellSizes | include/cpphots/layer_modifiers.h:120-125 | `getCellSizes()` is the number of cell columns and cell rows of the layout |
| SuperCells.SuperCell.IsInCell | include/cpphots/layer_modifiers.h:178-188 | a point in a cell belongs to a grid cell and lies within `wmax x hmax`, hence within the `width x height` context |
| SuperCells.SuperCell.GetCellCenter | include/cpphots/layer_modifiers.h:169-176 | the centre is a pixel of the cell, within half a pixel of its geometric centre on each axis |
| SuperCells.SuperCell.FindCells | include/cpphots/layer_modifiers.h:102-111 | the result holds exactly the cells `(cx, cy)` with `isInCell(cx, cy, ex, ey)`, all inside the `wcell x hcell` grid, each once |
| SuperCells.DisjointWithoutOverlap | include/cpphots/layer_modifiers.h:82-88 | with overlap 0 no two cells share a pixel |
| SuperCells.AtMostOneCellWithoutOverlap | include/cpphots/layer_modifiers.h:102-111 | with overlap 0, `findCells` returns at most one cell |
| SuperCells.NoCellPastExtent | include/cpphots/layer_modifiers.h:159-167 | coordinates at or past `wmax` or `hmax` lie in no cell |
| SuperCells.FoundOnlyInContext | include/cpphots/layer_modifiers.h:113-118 | a point for which some cell is found lies inside the context `getSize()` reports |
| SuperCells.CenterFindsItsCell | include/cpphots/layer_modifiers.h:169-176 | a cell is among the cells found at its own centre |
| SuperCells.TilingExample | include/cpphots/layer_modifiers.h:92-125 | in a 10 x 10 context, the given layout of 5 x 5 cells without overlap starting at 0 and 5 on each axis (a 2 x 2 grid) is valid, and point (7, 7) lies in cell (1, 1) only |
| CellAverages.Mean | include/cpphots/layer_modifiers.h:211-219 | each component of the mean, times the number of surfaces, is the sum of that component |
| CellAverages.CellIndexInRange | include/cpphots/layer_modifiers.h:223-228 | the flat index of a grid cell lies inside the memory of `wcell * hcell` cells |
| CellAverages.CellIndexInjective | include/cpphots/layer_modifiers.h:223-228 | distinct cells have distinct memory slots |
| CellAverages.RunningMeanStep | include/cpphots/layer_modifiers.h:211-219 | `avg + (x - avg) / (n + 1)` with `avg` the mean of `n` values is the mean of the `n + 1` values |
| CellAverages.RunningMeanIsMean | include/cpphots/layer_modifiers.h:211-219 | the running-mean update of the mean of a history with one more surface is the mean of the extended history |
| CellAverages.MeanOfCopies | include/cpphots/layer_modifiers.h:211-219 | averaging the same surface `n >= 1` times gives that surface |
| CellAverages.SuperCellAverage.constructor | include/cpphots/layer_modifiers.h:201-209 | memory for every cell of the grid is allocated once, each cell empty |
| CellAverages.SuperCellAverage.AverageTS | include/cpphots/layer_modifiers.h:211-228 | the cell's history grows by `ts`, its count by one, its stored surface is the mean of all its inputs and is returned; no other cell changes |

## Left out

- The two `train` overloads (include/cpphots/run.h:93 and 109): only their declarations are visible, and they rely on `Network`, `Classifier`, `TimeSurfacePool` and `ClustererInitializerType`, which are not part of this model.
- The concrete processors (Layer, Network), the time-surface kernel, clustering, I/O and logging: not part of this model; the processor is any state machine.
- A processor that throws (for example on an invalid event with `skip_check` false) aborts `process` with that exception; the model's processors are total functions and never fail.
- The `SuperCell` and `SuperCellAverage` constructors' derivation of `wcell`, `hcell`, `wmax`, `hmax` and the cell positions from `(width, height, K, overlap)`: their bodies are not part of this model, so the layout is data constrained by `Valid()`; any argument checks they make are not modelled.
- No claim that every coordinate of the context lies in some cell, and no claim that a larger overlap never finds fewer cells: both depend on the unseen layout formula.
- SuperCells.TilingExample: the 2 x 2 grid and the cell starts are given to the example, not derived from `(10, 10, 5, 0)`, because the layout formula is not visible.
- SuperCells.SuperCell.FindCells: the order of the returned cells is not stated (the function happens to list them row by row).
- SuperCells.SuperCell.GetCellCenter: the exact rounding of the centre is not visible; the contract states only that the centre is a pixel of the cell within half a pixel of its geometric centre.
- SuperCells.SuperCell.IsInCell: cells outside the `wcell x hcell` grid contain nothing in this model; clipping of edge cells at the context border is not modelled.
- Remappers.EventRemapper.RemapEvent: all fields are unbounded naturals; the `uint16_t` truncation of the cluster id and of the serial index is not modelled (`SerialIndexBounds` shows the index stays below 65536 whenever `w*h*(k+1) <= 65536`).
- Fixed-width integers: the `unsigned int count` of a cell memory and the `uint16_t` arguments and fields of `SuperCell` and `SuperCellAverage` (sizes, `K`, overlap, cell and event coordinates) are unbounded naturals in the model; wrap-around and truncation of these are not modelled.
- CellAverages.SuperCellAverage.AverageTS: time surfaces are exact `seq<real>` vectors, not floating-point matrices, so rounding in the running mean is not modelled; surfaces folded into one cell must have the same size, as the matrix arithmetic requires.
- Default arguments: `skip_check = false` of both `process` templates (include/cpphots/run.h:36, 67) and `overlap = 0` of the `SuperCell` and `SuperCellAverage` constructors (include/cpphots/layer_modifiers.h:100, 209) have no default in the model; callers pass these values explicitly.
- The cell memory is one flat array indexed by `cy * wcell + cx` rather than a vector of vectors; `SuperCellAverage` is built from a `SuperCell` value instead of `(width, height, K, overlap)`.
