# Blocked tile matmul: a model and its proofs

The repository multiplies large matrices on a grid of Tensix cores. The host cuts the matrices
into 32 x 32 tiles, chooses block sizes that fit a core's L1 memory, and gives every core three
kernels: an in0 reader, a reader of in1 that also writes the output, and a compute kernel. The
kernels run concurrently and meet only in circular buffers, two of which (CB16, the output, and
CB24, partial sums) lie over the same memory.

This project models those kernels and the host code that feeds them, and proves that the device
computes the product: for every grid the host can build that meets two conditions on its ragged
edges, and for every interleaving of all kernels of all cores.

`dafny verify dfyconfig.toml` checks everything.

## How the modules fit together

- `Tiles`, `Arith`: an abstract tile algebra, the left fold `Dot` that a product entry is, and a
  few facts about products of loop counters. No law of arithmetic is assumed unless a statement
  names one (`Exact`, `Neutral`).
- `CoreNet`: what one core is asked to do. `In0Block`, `In1Block` and `Partial` are the blocks that
  travel through the buffers; `SubMath` is the arithmetic of one sub-block.
- `Machine`: the three kernels of one core as step machines over bounded ring buffers with a
  memory behind them; a run is any interleaving. One step is one call on a buffer, or the work on
  one block or sub-block between two such calls.
- `Safety`: the compute kernel against any environment that feeds it the right blocks and pops
  CB16 in FIFO order. `Protocol`: the invariant of all three kernels. `Runs`: no deadlock, one
  length of complete runs, one possible output. `Output`: what that output is. `Readiness`: when
  exactly each kernel can go on, and how far one can run ahead. `Order`, `StepCount`: the order in
  which blocks are taken, and the length of a complete run in closed form.
- `Host`: the argument lists of `create_program_compute_mm`. `Grid`: exact cover of the output by
  the cores, and exactly when it holds. `Device`: all cores at once over one output tensor.
  `Product`: the main theorem about the device.
- `Channels`, `Readers`, `ComputeLoops`, `WriterLoops`: the kernels as they are written, loop by
  loop, with running tile ids, offsets and addresses, proved against the functions that the step
  machine uses. Buffers are unbounded channels there; blocking and capacity are the step machine's
  part.
- `Searches`: the DRAM block search, in `uint32_t` arithmetic. `L1Map`: the L1 width search and the
  address map, in both modes. `SubBlocks`: the choice of the output sub-block. `Plan`: the host's
  steps from dimensions to a shape, in both modes. `Legacy`: the older block search.
- `Layout`, `BlockMatrix`: tile order and row-major order, the reference product, and the theorem
  that ties the device's tiles to it.
- `Variants`: the alternative compute kernel with accumulation in L1, fused bias and re-blocking.
- `L1Mode`: the two dataflow kernels of L1 mode and the closed form of what that mode computes.

## What the code does not always do

- The output is covered exactly once, and reads of A and B stay in range, if and only if every core
  row and column has work and the last ones are padded by less than one output block
  (`Grid.CoverExactlyWhen`, `Product.ReadsOfAInRange`, `Product.ReadsOfBInRange`). For 160 x 32
  times 32 x 32 elements the host's own block search leads to two grids that fail it
  (`Plan.HostBuildsUncoveredGrids`).
- The DRAM block search compares sizes modulo 2^32. It returns the largest blocks that fit in bytes
  if and only if every triple that passes only by wrapping around comes after one that does fit
  (`Searches.SearchRightExactlyWhen`); `Searches.WrapAroundMisleads` is an input where it returns
  blocks of more than 2^32 bytes.
- So does the L1 width search, in both of its modes. The regions of the address map lie inside L1 if
  and only if the end of the map does; the check looks at that end modulo 2^32
  (`L1Map.AddressMapFits`). `L1Map.AddressMapCanWrap` is an input where it accepts a map that leaves
  L1. `L1Map.WidthRightExactlyWhen` says exactly when the width returned is the largest one whose
  regions lie inside L1.
- So does the older search: it cannot return blocks too large in bytes if and only if every triple
  that passes only by wrapping around loses to one that fits (`Legacy.LegacyRightExactlyWhen`);
  `Legacy.LegacyWrapMisleads` is an input where it does.
- Rounding a dimension up to whole tiles is right exactly up to 2^32 - 32
  (`Searches.AlignmentCovers`); above, `Searches.AlignmentCanWrap` shows that nothing may be left.
- The alternative kernel with L1 accumulation, without bias and with a single K block, hangs:
  `num_blocks - 2` wraps around (`Variants.VariantKernel` says exactly when the kernel finishes).

Where comments and code differ the model follows the code: the number of in0 sub-blocks comes from
the output block, not from `per_core_Mt` (test_full_charac.cpp:1994, 2001); the address map puts
the intermediate buffer before the output buffer (test_full_charac.cpp:1212, 1228-1230);
`matmul_reference` rounds to `float` after every step, not only at the end
(test_full_charac.cpp:1385-1399), a difference that disappears in exact arithmetic.

## Model

| member | source | states |
|---|---|---|
| CoreNet.Net.PackedOrder | kernels_common/bmm_large_block_zm_fused_bias_activation.cpp:73-112 | Where tile (h, w) of sub-block (i0, i1) sits in the order in which the compute kernel packs an output block, with its row and column recovered by division |
| CoreNet.Net.ChainIsDot | kernels_common/bmm_large_block_zm_fused_bias_activation.cpp:98-108 | The inner_dim chain over K block blk, started from the fold over the K blocks before it, is the fold over those and its own terms; no associativity |
| CoreNet.Net.SubMathIsPartial | kernels_common/bmm_large_block_zm_fused_bias_activation.cpp:78-112 | Zeroed or reloaded registers, continued over a K block, are the partial sums of that K block at the sub-block's place |
| Safety.EnvironmentKeepsInv | kernels_common/bmm_large_block_zm_fused_bias_activation.cpp:60-203 | Whatever a producer of the right blocks and a FIFO consumer of CB16 do between two steps, the compute kernel's invariant survives |
| Safety.ComputeStepKeepsInv | kernels_common/bmm_large_block_zm_fused_bias_activation.cpp:67-200 | Every step of the compute kernel keeps the invariant on control, buffers, shared memory and registers |
| Safety.ComputeInBounds | kernels_common/bmm_large_block_zm_fused_bias_activation.cpp:67-200 | A compute kernel that need not wait never reads, writes, pushes or pops outside a buffer |
| Safety.PartialsNeverBlock | kernels_common/bmm_large_block_zm_fused_bias_activation.cpp:84-88 | The wait and the reserve on CB24 return at once in every invariant state |
| Safety.NoOverwrite | kernels_common/bmm_large_block_zm_fused_bias_activation.cpp:165-186 | Whatever is about to be packed goes to slots that hold no unpopped output tile and no partial still to be reloaded |
| Safety.OutputsIntact | kernels_common/bmm_large_block_zm_fused_bias_activation.cpp:171-176 | Every tile waiting in CB16 is still the finished tile of its outer block, however slowly it is consumed |
| Safety.OpenRunKeepsInv | kernels_common/bmm_large_block_zm_fused_bias_activation.cpp:60-203 | The invariant holds after every run of the compute kernel against every such environment |
| Safety.SharedMemoryIsSafe | test_full_charac.cpp:2064-2074 | CB16 and CB24 over one memory do no harm in any reachable state, against any FIFO consumer: no early overwrite, waiting tiles intact, partials never block, accesses in bounds |
| Protocol.WriterConserves | kernels_common/in1_reader_writer_bmm_tile_layout_dram.cpp:142-186 | Sub-block pops, column skips and row skips add up to exactly one output block for every ragged edge, and no read runs past its end |
| Protocol.StepKeepsInv | kernels_common/in1_reader_writer_bmm_tile_layout_dram.cpp:86-193 | Every step of every kernel keeps the invariant that links the positions of all three with the contents of all four buffers |
| Protocol.InitInv | test_full_charac.cpp:1979-1986 | Empty buffers of the configured sizes satisfy the invariant |
| Protocol.RunKeepsInv | kernels_common/in0_reader_bmm_tile_layout_dram.cpp:49-83 | The invariant holds after every run, in every interleaving |
| Runs.ReadyIsInBounds | test_full_charac.cpp:2046-2074 | A kernel whose next call would return stays inside its buffers |
| Runs.NoDeadlock | kernels_common/in1_reader_writer_bmm_tile_layout_dram.cpp:112-186 | In every invariant state that is not finished, some kernel can go on |
| Runs.WriterReads | kernels_common/in1_reader_writer_bmm_tile_layout_dram.cpp:160-173 | What the writer reads from the shared memory is the sub-block of the finished output block |
| Runs.EveryStepCounts | kernels_common/in0_reader_bmm_tile_layout_dram.cpp:49-83 | Every step takes exactly one from the steps left, and does not change what the output will be |
| Runs.RunAccounts | kernels_common/in1_reader_writer_bmm_tile_layout_dram.cpp:86-193 | Steps made and steps left always add up to the same number, and the output to come is fixed from the start |
| Runs.RunsAreSafe | kernels_common/bmm_large_block_zm_fused_bias_activation.cpp:165-186 | In every reachable state of all three kernels packing is safe, ready kernels stay in bounds, and an unfinished core can go on |
| Runs.MaximalRuns | kernels_common/in1_reader_writer_bmm_tile_layout_dram.cpp:86-193 | No run is longer than a fixed number of steps; a run that cannot go on has exactly that length, is finished, and has the one possible output |
| Runs.EveryRunCompletes | kernels_common/in1_reader_writer_bmm_tile_layout_dram.cpp:86-193 | Whatever has happened so far, every run can be carried on to a finished one |
| Readiness.StepsExactlyWhen | kernels_common/in0_reader_bmm_tile_layout_dram.cpp:54 | In every state of every run, each kernel can take its next step if and only if a plain count of tiles says so: the readers whenever one of two blocks is free, compute whenever its blocks are there and CB16 has room, never held up by CB24, the writer whenever the tiles it pops are there |
| Readiness.GuardIsExact | kernels_common/bmm_large_block_zm_fused_bias_activation.cpp:165-180 | Against any FIFO consumer: compute passes the growing reserve if and only if no waiting output tile lies in the slots up to the end of the sub-block it is about to spill, and the reserve on CB16 if and only if none lies where it is about to pack |
| Readiness.ConsumerMayPop | kernels_common/in1_reader_writer_bmm_tile_layout_dram.cpp:160-185 | The environments of `Safety` include every consumer: any number of waiting tiles may be popped at any time |
| Readiness.RunsAlone | kernels_common/in0_reader_bmm_tile_layout_dram.cpp:49-83 | From every reachable state any one kernel may go on alone until it has to wait, and touches nothing that belongs to the others |
| Readiness.DoubleBuffering | test_full_charac.cpp:1979-1982 | From empty buffers over any memory there is a run in which both blocks of CB0 and both of CB1 are filled before compute takes its first step; with a single K block per output block CB1 gets one |
| Order.SuccIsNext | kernels_common/bmm_large_block_zm_fused_bias_activation.cpp:61-67 | Moving on takes exactly one block in the order rows of output blocks, columns, K blocks |
| Order.OnePlace | kernels_common/bmm_large_block_zm_fused_bias_activation.cpp:61-67 | No two positions have the same number of blocks before them |
| Order.StreamsFollowSteps | kernels_common/in0_reader_bmm_tile_layout_dram.cpp:49-83 | What the whole kernels push and put out is, block for block, what the step machines go through |
| StepCount.StepsOfCompleteRun | kernels_common/in1_reader_writer_bmm_tile_layout_dram.cpp:86-193 | Every complete run, in any interleaving, takes a number of steps given in closed form: so many per K block, per sub-block, per visited sub-block of a ragged edge |
| Output.WriterCoversCore | kernels_common/in1_reader_writer_bmm_tile_layout_dram.cpp:141-192 | The tile ids the writer writes are exactly those of the core's valid rows and columns, each once (counted as a multiset) |
| Output.FinalOutIsProduct | kernels_common/in1_reader_writer_bmm_tile_layout_dram.cpp:141-192 | The one possible output has the whole K sum at every valid tile id and leaves all other ids alone |
| Output.CompletedRun | kernels_common/in1_reader_writer_bmm_tile_layout_dram.cpp:86-193 | Every completed run, in any interleaving, leaves the core's part of the product in the tensor and changes nothing else |
| Host.PiecesOf | test_full_charac.cpp:2177-2199 | Number and last size of the pieces a dimension is cut into add up to the dimension |
| Host.PiecesFit | test_full_charac.cpp:2184-2190 | A smaller dimension needs no more pieces than a larger one that the piece divides |
| Host.WriterCounts | test_full_charac.cpp:2184-2208 | The edge arguments describe a non-empty part of the last outer block, sub-block by sub-block |
| Host.CoreIsValid | test_full_charac.cpp:2159-2279 | The argument lists built for any core have all the relations the kernels rely on, and describe the blocks and sub-blocks of the shape |
| Grid.RowsExact | test_full_charac.cpp:2159-2180 | Rows written over all core rows equal Mt if and only if the row edge conditions hold, and are never fewer |
| Grid.ColsExact | test_full_charac.cpp:2161-2182 | The same for columns and Nt |
| Grid.CoreWrites | test_full_charac.cpp:2236-2279 | The ids core (y, x) writes form the rectangle its arguments describe |
| Grid.GridIsBox | test_full_charac.cpp:2164-2279 | Over all cores, counted with multiplicity, the ids written form one rectangle |
| Grid.CoverExactlyWhen | test_full_charac.cpp:2159-2279 | Every id 0..Mt*Nt-1 is written exactly once and no other at all, if and only if the edge conditions hold |
| Grid.CoverCanFail | test_full_charac.cpp:2159-2182 | Two concrete shapes, an idle core row and a last core padded by a whole block, for which the cover fails |
| Grid.EvenGridsFit | test_full_charac.cpp:2159-2182 | When the cores divide the matrix evenly both edge conditions hold |
| Device.CoreStep | kernels_common/in1_reader_writer_bmm_tile_layout_dram.cpp:160-176 | A step of one core settles only tiles it owns and keeps every owned tile either still to be written or final |
| Device.DeviceStep | test_full_charac.cpp:2164-2279 | A step of any kernel of any core keeps the invariant of all cores |
| Device.DeviceNeverStuck | test_full_charac.cpp:2164-2279 | An unfinished device can always go on |
| Device.MovesExactlyWhen | test_full_charac.cpp:2164-2279 | Which kernel of which core can go on, in counts of tiles |
| Device.DeviceRuns | test_full_charac.cpp:2164-2279 | For compatible cores: all complete runs of the device have the same length and leave every owned tile final and every other tile untouched |
| Device.EveryDeviceRunCompletes | test_full_charac.cpp:2164-2279 | Every run of the device can be carried on to a finished one |
| Product.DifferentCores | test_full_charac.cpp:2240 | Two different cores of a grid that meets the edge conditions own no tile in common |
| Product.ReadWhatIsWritten | test_full_charac.cpp:2217-2279 | Each core reads real tiles of A and B for exactly the rows and columns it writes |
| Product.LocalIsGlobal | test_full_charac.cpp:2216-2279 | A core's own product entry is the entry of the whole product at the core's offset |
| Product.DeviceComputesProduct | kernels_common/in1_reader_writer_bmm_tile_layout_dram.cpp:86-193 | Main theorem: under the edge conditions, every interleaving of all kernels of all cores ends with the left fold over all of K at every tile id r*Nt+c, other ids untouched, and cannot get stuck before |
| Product.ReadsOfAInRange | kernels_common/in0_reader_bmm_tile_layout_dram.cpp:57-74 | No core reads a tile id outside A if and only if the row edge conditions hold |
| Product.ReadsOfBInRange | kernels_common/in1_reader_writer_bmm_tile_layout_dram.cpp:119-134 | The same for B and the columns |
| Channels.CircularBuffer.PushBack | kernels_common/in0_reader_bmm_tile_layout_dram.cpp:79 | Pushing appends the block behind what is waiting |
| Channels.CircularBuffer.PopFront | kernels_common/bmm_large_block_zm_fused_bias_activation.cpp:198-199 | Popping removes the oldest tiles |
| Channels.FrontBlock | kernels_common/bmm_large_block_zm_fused_bias_activation.cpp:70-71 | A consumer that has popped all earlier blocks of a reader's stream finds the block of its own position at the front |
| Readers.HostReaderMatches | test_full_charac.cpp:2216-2234 | The host's reader arguments are those of the core they are built for |
| Readers.In0Tile | kernels_common/in0_reader_bmm_tile_layout_dram.cpp:59-74 | Each tile of an in0 block is the tile at the running id, or zero in a ragged row |
| Readers.FillIn0Block | kernels_common/in0_reader_bmm_tile_layout_dram.cpp:57-74 | The h and w loops with running ids fill the reserved block with the row-major block of A, zero below the last valid row |
| Readers.In0ReaderKernel | kernels_common/in0_reader_bmm_tile_layout_dram.cpp:49-83 | The whole kernel pushes exactly the stream of in0 blocks that the compute kernel expects |
| Readers.HostIn1Matches | test_full_charac.cpp:2239-2279 | The host's in1 arguments are those of the core |
| Readers.In1Tile | kernels_common/in1_reader_writer_bmm_tile_layout_dram.cpp:121-134 | Each tile of an in1 block is the tile at the running id, or zero in a ragged column |
| Readers.FillIn1Block | kernels_common/in1_reader_writer_bmm_tile_layout_dram.cpp:119-134 | The loops fill the reserved block with the row-major block of B, zero right of the last valid column |
| Readers.PushIn1Blocks | kernels_common/in1_reader_writer_bmm_tile_layout_dram.cpp:113-139 | One outer block extends the in1 stream by its K blocks |
| ComputeLoops.HostComputeMatches | test_full_charac.cpp:2000-2028 | The compile-time arguments are those of the core: in1_per_core_w is the block width, block sizes are products of their parts |
| ComputeLoops.RunningIndex | kernels_common/bmm_large_block_zm_fused_bias_activation.cpp:101-107 | The running offsets address the row-major entry of the blocks, in range |
| ComputeLoops.AccumulateTile | kernels_common/bmm_large_block_zm_fused_bias_activation.cpp:98-108 | The inner loop turns one DST register into its chain and leaves the others |
| ComputeLoops.ComputeSubBlock | kernels_common/bmm_large_block_zm_fused_bias_activation.cpp:94-112 | The three loops compute exactly the sub-block arithmetic of the step machine |
| ComputeLoops.Reloads | kernels_common/bmm_large_block_zm_fused_bias_activation.cpp:84-88 | The front of the partials queue is the partial of the sub-block at hand |
| ComputeLoops.Rotates | kernels_common/bmm_large_block_zm_fused_bias_activation.cpp:84-186 | Queue invariant: the rest of the previous partial, then the finished sub-blocks of this one, is kept when one sub-block leaves and one joins |
| ComputeLoops.SubBlock | kernels_common/bmm_large_block_zm_fused_bias_activation.cpp:78-188 | One sub-block moves the queue invariant, or the output, on by one sub-block |
| ComputeLoops.KBlock | kernels_common/bmm_large_block_zm_fused_bias_activation.cpp:70-199 | One K block rotates the whole queue and pops one block from each input |
| ComputeLoops.OuterBlock | kernels_common/bmm_large_block_zm_fused_bias_activation.cpp:63-200 | For any number of K blocks, CB16 gets the full K sums in sub-block-major order and no partial is left |
| ComputeLoops.ComputeKernel | kernels_common/bmm_large_block_zm_fused_bias_activation.cpp:60-203 | The whole kernel turns the two input streams into the output stream and empties its inputs |
| WriterLoops.HostOutputMatches | test_full_charac.cpp:2240-2279 | The host's writer arguments are those of the core |
| WriterLoops.RunningId | kernels_common/in1_reader_writer_bmm_tile_layout_dram.cpp:142-192 | The running tile ids are the start id of the sub-block |
| WriterLoops.WriteSubBlock | kernels_common/in1_reader_writer_bmm_tile_layout_dram.cpp:161-173 | The h and w loops write row by row, skipping the padded tiles |
| WriterLoops.DrainSubBlock | kernels_common/in1_reader_writer_bmm_tile_layout_dram.cpp:145-178 | One visited sub-block is written and popped, as the step machine's writer does |
| WriterLoops.DrainRow | kernels_common/in1_reader_writer_bmm_tile_layout_dram.cpp:144-182 | One row of sub-blocks, with the padded sub-blocks at its end popped |
| WriterLoops.DrainBlock | kernels_common/in1_reader_writer_bmm_tile_layout_dram.cpp:141-186 | One output block is drained completely, padded rows included |
| WriterLoops.In1ReaderWriterKernel | kernels_common/in1_reader_writer_bmm_tile_layout_dram.cpp:86-193 | The whole kernel pushes the in1 stream, drains the output stream, and leaves the core's part of the product in the tensor |
| Searches.AlignmentCovers | test_full_charac.cpp:732-744 | Tiles cover the dimension with none wholly padding if and only if the dimension is at most 2^32 - 32 |
| Searches.AlignmentCanWrap | test_full_charac.cpp:734-737 | The largest dimension is rounded up to no tiles at all |
| Searches.CreatedIsFootprint | test_full_charac.cpp:1979-1986 | The buffers the program creates have the size the search budgets for |
| Searches.DivisorPairs | test_full_charac.cpp:808-820 | All pairs of divisors of the per-core sizes, each once, largest block height first, then largest width |
| Searches.DynamicL1BlockParams | test_full_charac.cpp:799-846 | The result is the lexicographically largest fitting triple among all divisor pairs and widths 4, 2, 1; width 0 exactly when nothing fits |
| Searches.BlocksInBytes | test_full_charac.cpp:799-846 | Without wrap-around: the created buffers fit the budget, no larger choice does, and the search gives up exactly when 7 tiles do not fit |
| Searches.SearchRightExactlyWhen | test_full_charac.cpp:799-846 | For all inputs: the search returns the largest blocks that fit in bytes, or gives up because none do, if and only if every triple accepted by wrapping comes after one that fits in bytes; giving up is always right |
| Searches.AcceptedFitsUnlessWrapped | test_full_charac.cpp:829-840 | A choice fits in bytes if and only if it passes the wrapped check and its size does not wrap |
| Searches.WrapAroundMisleads | test_full_charac.cpp:829-838 | An input for which the wrapped check accepts blocks of more than 2^32 bytes |
| Searches.WidthsAreCommonDivisors | test_full_charac.cpp:808-826 | The K block widths tried are the common divisors of 4 and Kt |
| L1Map.In0BlockW | test_full_charac.cpp:751-791 | The largest of 4, 2, 1 that divides Kt and passes the check; 0 exactly when none does; what passing means is the next row |
| L1Map.AddressMapFits | test_full_charac.cpp:1214-1248 | With the tensors in L1 (eight regions) or in DRAM (five: CB0, CB1, zero tiles, intermediate, output): all regions end inside L1 if and only if base plus the sum of their sizes does; a width passes the check if and only if that end modulo 2^32 does; below 2^32 the regions are contiguous from the base, pairwise disjoint, and end there; in DRAM mode the three tensor addresses are 0 |
| L1Map.AddressMapCanWrap | test_full_charac.cpp:785-790 | An input whose accepted and returned width needs more than 2^32 bytes, so that some region leaves L1 |
| L1Map.WidthRightExactlyWhen | test_full_charac.cpp:751-791 | In both modes: the width returned is the largest whose regions all lie inside L1, 0 if there is none, if and only if every width accepted by wrapping has a larger one that fits; so always when the map for width 4 ends below 2^32 |
| SubBlocks.OutSubblockParams | test_full_charac.cpp:1183-1206 | Without the table: among the dividing pairs of area at most 8, ordered by larger area, then shorter longer side, then more rows, exactly `choice` come before the result, or it is (1, 1) when there are no more than `choice`; choice 0 is the first of them |
| SubBlocks.TableComplete | test_full_charac.cpp:1186-1191 | The table lists every shape of at most eight tiles |
| SubBlocks.TableOrder | test_full_charac.cpp:1186-1191 | The table is in strictly falling order of area, squareness and rows |
| Plan.PlanDram | test_full_charac.cpp:2424-2471 | From dimensions to a shape: the least number of tiles covering each dimension, the least per-core sizes covering those, the best blocks for these very sizes, and the first sub-block; none if and only if no blocks fit for them |
| Plan.PlanL1 | test_full_charac.cpp:2424-2471 | In L1 mode the output block is the whole core, with the best width and the first sub-block; none if and only if no width passes |
| Plan.RingsFillBuffers | test_full_charac.cpp:1979-1986 | The circular buffers of the step machine are, in bytes, what the search budgets for, and each has a region of its own size in the address map |
| Plan.HostBuildsUncoveredGrids | test_full_charac.cpp:2424-2471 | Dimensions, core counts and L1 sizes for which the host plans exactly the two shapes whose cover fails |
| Layout.IndexBijection | test_full_charac_old.cpp:414-423 | The index maps between tile order and row-major order are inverse bijections on the matrix |
| Layout.TilizeRoundTrip | test_full_charac_old.cpp:399-453 | Tilizing and untilizing undo each other, in both orders |
| Layout.TilizedAt | test_full_charac_old.cpp:414-423 | Element (32a+r, 32b+c) of a matrix of ct tiles per row goes to place (a*ct+b)*1024 + 32r + c, and untilizing takes it back |
| Layout.TilizeCompat | test_full_charac_old.cpp:399-425 | The loops produce the tilized matrix; wrong dimensions and wrong size are errors |
| Layout.UntilizeCompat | test_full_charac_old.cpp:427-453 | The loops with a running source index write the untilized matrix, every place once |
| BlockMatrix.MatmulReference | test_full_charac.cpp:1387-1403 | The i, k, j loops that update c in place leave the row-by-column folds over k |
| BlockMatrix.Accumulate | test_full_charac.cpp:1391-1401 | One pass of the inner loop keeps rows above done, rows below fresh, and row i half way |
| BlockMatrix.DotSplit | test_full_charac.cpp:1387-1403 | In exact arithmetic a fold may be cut and its tail summed on its own |
| BlockMatrix.TileDot | test_full_charac.cpp:1387-1403 | An entry of a product tile is the entry of the element-level product |
| BlockMatrix.BlockMatrixProduct | test_full_charac.cpp:1387-1403 | The tile-level product of tilized matrices, read back and untilized, is the reference product |
| BlockMatrix.EndToEnd | test_full_charac.cpp:1387-1403 | Tilize, run the device in any interleaving until it stops, read back, untilize: exactly what matmul_reference computes |
| BlockMatrix.IntegerProduct | test_full_charac.cpp:1387-1403 | For integers, with no hypothesis on the arithmetic: entry (i, j) of what is read back is the sum over k of a[i,k] * b[k,j] |
| Variants.RingBuffer.Pack | kernels_common/bmm_large_block_zm_fused_bias_activation_copy.cpp:213-251 | Packing replaces the tiles behind the write pointer, or adds to them |
| Variants.MatmulBlock | kernels_common/bmm_large_block_zm_fused_bias_activation_copy.cpp:180-189 | One call advances the chain of every register by one step |
| Variants.BlockMath | kernels_common/bmm_large_block_zm_fused_bias_activation_copy.cpp:172-193 | With inner_dim outermost the registers come out as in the plain kernel |
| Variants.ChainShift | kernels_common/bmm_large_block_zm_fused_bias_activation_copy.cpp:242-248 | A chain started from a value is that value plus a chain started from zero |
| Variants.AccumulateIsReload | kernels_common/bmm_large_block_zm_fused_bias_activation_copy.cpp:213-248 | Adding a K block's own product in L1 equals reloading the partial and going on |
| Variants.SubBlockOf | kernels_common/bmm_large_block_zm_fused_bias_activation_copy.cpp:158-255 | In every mode one sub-block moves the partials buffer, or the output, on by one sub-block of the same sums |
| Variants.KBlockOf | kernels_common/bmm_large_block_zm_fused_bias_activation_copy.cpp:152-260 | In every mode a K block leaves the partial sums of that K block |
| Variants.KLoop | kernels_common/bmm_large_block_zm_fused_bias_activation_copy.cpp:142-290 | The K loop ends with the whole K sums, in the output or in the partials buffer, and hangs only through the underflow |
| Variants.BiasLoop | kernels_common/bmm_large_block_zm_fused_bias_activation_copy.cpp:292-347 | Every tile gets the bias tile of its column, in place in the queue or on its way out |
| Variants.ReblockAndUntilize | kernels_common/bmm_large_block_zm_fused_bias_activation_copy.cpp:42-74 | One row of sub-blocks comes out as rows of tiles and leaves the buffer |
| Variants.UntilizeBlock | kernels_common/bmm_large_block_zm_fused_bias_activation_copy.cpp:364-367 | The whole block comes out in row-major order and the partials buffer is empty |
| Variants.VariantOutputAt | kernels_common/bmm_large_block_zm_fused_bias_activation_copy.cpp:292-369 | Entry (r, c) of the output is the whole K sum, plus bias[c] where fused, at its row-major or packed place |
| Variants.VariantKernel | kernels_common/bmm_large_block_zm_fused_bias_activation_copy.cpp:127-381 | All combinations of the flags put out the same sums and empty their buffers, except that L1 accumulation without bias finishes if and only if there are at least two K blocks |
| L1Mode.L1CoreIsValid | test_full_charac.cpp:2312-2371 | The L1-mode arguments meet what the kernels rely on, with one outer block and the valid width as row stride |
| L1Mode.L1EdgeIs | test_full_charac.cpp:2356-2370 | Edge values passed on the last core only are the edge values of every core |
| L1Mode.HostL1Fits | test_full_charac.cpp:2316-2370 | The host's L1 arguments meet everything both L1 kernels ask for |
| L1Mode.FillIn0 | kernels_common/in0_reader_bmm_tile_layout.cpp:45-66 | Every K block is the first K block again |
| L1Mode.FillIn1 | kernels_common/in1_reader_writer_bmm_tile_layout.cpp:74-100 | K block by K block the reader makes up the identity |
| L1Mode.In0Kernel | kernels_common/in0_reader_bmm_tile_layout.cpp:40-73 | The whole kernel pushes the stream the compute kernel expects, the same block each time |
| L1Mode.In1WriterKernel | kernels_common/in1_reader_writer_bmm_tile_layout.cpp:67-160 | The whole kernel pushes the identity stream and drains the output block into the one possible output |
| L1Mode.DotIdentity | kernels_common/in1_reader_writer_bmm_tile_layout.cpp:76-96 | A product with the identity picks the entry once the fold has passed it, and is zero before |
| L1Mode.L1ClosedForm | kernels_common/in1_reader_writer_bmm_tile_layout.cpp:70-160 | After any completed run, output tile (r, c) is in0 tile (r, c mod in0_block_w) for c < Kt and zero otherwise |
| Legacy.Divisors | test_full_charac_old.cpp:798-805 | Exactly the divisors |
| Legacy.KWidths | test_full_charac_old.cpp:829-834 | Exactly the divisors of Kt, largest first |
| Legacy.SortedPairs | test_full_charac_old.cpp:807-827 | All pairs of divisors by falling area, equal areas by growing longer side |
| Legacy.BeforeIsNotBehind | test_full_charac_old.cpp:823-827 | Among equal areas the smaller ratio of the sides is the shorter longer side |
| Legacy.ScanByWidth | test_full_charac_old.cpp:836-859 | Finds a fitting triple of the tier if there is one: widest K block first, then largest area, then the shorter longer side |
| Legacy.ScanByArea | test_full_charac_old.cpp:861-867 | Finds any fitting triple if there is one: largest area first, then the shorter longer side, then the widest K block for its shape |
| Legacy.MultiDimPerCoreFactor | test_full_charac_old.cpp:771-870 | The tiers in order, each with its own optimum; (1, 1, 1) exactly when no divisor triple fits and the whole does not |
| Legacy.FitsWheneverPossible | test_full_charac_old.cpp:771-870 | The result passes the check whenever any divisor triple does |
| Legacy.ChoiceIsUnbeaten | test_full_charac_old.cpp:836-867 | The possible results are exactly the triples to which no other is preferred: whole core; tiers 1 and 2 by width, area, longer side; the rest by area, longer side, width |
| Legacy.LegacyRightExactlyWhen | test_full_charac_old.cpp:771-870 | No possible result that passes the check is too large in bytes if and only if every triple accepted by wrapping loses to one that fits in bytes |
| Legacy.FitsInBytesWheneverPossible | test_full_charac_old.cpp:771-870 | If the whole core does not wrap around, the result fits in bytes whenever any divisor triple does |
| Legacy.GivesUpExactlyWhen | test_full_charac_old.cpp:771-870 | If the whole core does not wrap around, the result fits in bytes if and only if eight tiles do |
| Legacy.LegacyBytesAre | test_full_charac_old.cpp:785-792 | What the check adds up is the room of the five buffers of the L1 address map: one output block more than the program creates |
| Legacy.FewBlocks | test_full_charac_old.cpp:836-839 | A divisor of Kt is wide enough for the first two tiers if and only if 16 blocks of that width cover Kt |
| Legacy.AvailIs | test_full_charac_old.cpp:779-783 | The budget is the free room less the margin where that leaves anything, and never nothing where there is room |
| Legacy.LegacyWrapMisleads | test_full_charac_old.cpp:785-796 | An input for which the first check accepts a whole core of more than 2^45 bytes |

## Left out

- Floating point: tiles are values of an abstract algebra, packing and unpacking of partials is lossless. Only `Exact` and `Neutral` results assume laws; the theorems about the device assume none.
- `uint32_t` wrap-around of tile ids in the kernels: ids are unbounded integers. Every id that is read or written is below Mt*Kt, Kt*Nt or Mt*Nt under the edge conditions, so ids modulo 2^32 are the same ids when those products fit.
- Finer steps than one block or sub-block: a fill, a pack or a write of a sub-block is one step of the machine. The memory it touches is reserved or unpopped throughout, which `Safety.NoOverwrite` and `Runs.ReadyIsInBounds` state.
- NoC addresses, read and write barriers, DRAM banks: a tile id is an index, reads are complete at the barrier. Address skips are counted in tiles.
- The split of the compute kernel into unpack, math and pack threads, format reconfiguration, activation functions and the FUSE_BIAS branch of the plain kernel; batch is 1.
- Channels.CircularBuffer.PushBack: no capacity, reserve or blocking: an unbounded channel. Bounded buffers, pointers and blocking are in `Machine`.
- Channels.CircularBuffer.PopFront: no wait and no pointer; the same holds.
- Readers.In0ReaderKernel: no reserve and no barrier, because its channel is unbounded.
- Readers.PushIn1Blocks: no reserve and no barrier, because its channel is unbounded.
- ComputeLoops.SubBlock: no reserves on CB16 and CB24; `Safety` has them, with the shared memory.
- ComputeLoops.KBlock: no waits or reserves, for the same reason.
- ComputeLoops.OuterBlock: the growing reserve on CB16 and the memory shared by CB16 and CB24 are part of `Machine` and `Safety` only.
- ComputeLoops.ComputeKernel: the same; batch is 1 and the bias branch is left out.
- WriterLoops.In1ReaderWriterKernel: takes the finished output stream as already waiting; that the kernels really meet this way is what `Protocol` and `Runs` prove.
- L1Mode.In0Kernel: no reserve, because its channel is unbounded; what lies below the last valid row is arbitrary.
- L1Mode.In1WriterKernel: takes the finished output block as already waiting, like the DRAM kernel.
- Product.ReadsOfAInRange: speaks of the ids of valid rows only, as the reader fetches no others.
- Legacy.SortedPairs: areas and ratios are compared exactly, not as `uint32_t` and `float`; which of (h, w) and (w, h) comes first is left open, as `std::sort` leaves it.
- Legacy.FitsWheneverPossible: about the check modulo 2^32; in bytes, see `Legacy.LegacyRightExactlyWhen` and `Legacy.FitsInBytesWheneverPossible`.
- L1Mode.L1ClosedForm: nothing is said about rows below the last valid one, whose source address the in0 reader cuts to 32 bits.
- Variants.SubBlockOf: no reserves, and CB16 is a channel with a memory of its own.
- Variants.KBlockOf: the same.
- Variants.KLoop: the growing reserve on CB16 and a memory shared by CB16 and CB24 are not modelled; the host code never builds a program with this kernel, so how it would lay out the two buffers is not known. The waits on the partials buffer are modelled.
- Variants.BiasLoop: no wait on the bias buffer and no reserves.
- Variants.VariantKernel: one batch; CB16 is an unbounded channel of its own, so neither the growing reserve nor memory shared by CB16 and CB24 is modelled; the DST registers of `matmul_block` and `pack_untilize_dest` appear by their effect on whole tiles.
- Splitting cores into sub-devices, trace replay, timing, command line, metrics, host readback, the single-core kernels and the scripts.
