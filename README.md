# learn-webgpu, modelled in Dafny

The repository benchmarks matrix multiplication and an element-wise square root on the GPU through
WebGPU, with CPU reference implementations in Rust. This project models its logic, with matrix
elements as mathematical integers and `sqrt` as an arbitrary function `int -> int`.

- **CPU reference multiplies** (`MatmulCpu`). These are `cpu_matmul_v1` (a comprehension), the two
  cursor iterators behind `cpu_matmul_v2` and `cpu_matmul_v3` (classes whose `Next` updates
  `x` and `y` in place), and `cpu_matmul_v4` (a triple loop). Each is proved equal to the naive
  product `Matrix.Product`, so all four agree. v1 and v4 do not check the slice lengths: they use
  the leading size * size elements, and v4 panics on an index past the end of a shorter slice.
- **The tiled WGSL kernel** (`TiledMatmul`). One 8 x 8 workgroup computes a 64 x 64 block of C. The
  two workgroup barriers split each k-tile into a load phase and a compute phase, so the workgroup
  is modelled sequentially: loads, then computes, then stores. The workgroup buffers, the private
  sums and C are arrays updated in place.
  - The model proves:
    - every global read is in bounds;
    - every slot of both workgroup tiles is written exactly once;
    - each compute phase adds the next 8 terms of each cell's dot product;
    - every cell of C is stored exactly once over the grid;
    - C ends as the naive product (`TiledMatmul.Dispatch`).
- **`ComputeKernelCall`** (`KernelCall`), against an abstract WebGPU device (`WebGpu`).
  - Buffers are numbered in creation order and the error scopes form a stack.
  - A compiled pipeline is an oracle. It maps the grid and the bound buffers' contents to their new
    contents.
  - The class keeps the three lists that `addBufferArgument` grows in place, plus a ghost list of
    the arguments added.
  - `RunKernel` pushes the three scopes, raises the errors the device reports, stages and copies
    the outputs, and submits.
  - It then pops the scopes until the first error, and otherwise reads every output back into its
    host array.
- **The hosts** (`MatmulHost`, `Elemwise`). These model the argument order, the launch grid, the
  kernel's effect on the launch the host makes, and the check loops.
  - The element-wise kernel's guard makes every output below the count be written exactly once,
    and nothing at or beyond it.

The error scopes are popped as js/call.js:97-102 pops them: last-pushed first, throwing at the
first error, so the scopes under it stay on the stack. `KernelCall.PopsStopAtFirstError` states
exactly which scopes remain.

## Model

| member | source | states |
|---|---|---|
| MatmulCpu.RowsV1 | rust/src/matmul_cpu.rs:48-55 | the outer `flat_map` over rows 0 .. i-1 yields `size` values per row, i * size in all (their values: `RowsV1IsProductPrefix`) |
| MatmulCpu.CpuMatmulV1 | rust/src/matmul_cpu.rs:43-56 | `cpu_matmul_v1` on slices of at least size * size elements yields size * size values (their values: `CpuMatmulV1IsProduct`) |
| MatmulCpu.RowsV1IsProductPrefix | rust/src/matmul_cpu.rs:48-55 | the first i rows of v1's `flat_map` are the first i * size elements of the product |
| MatmulCpu.CpuMatmulV1IsProduct | rust/src/matmul_cpu.rs:43-56 | `cpu_matmul_v1` yields exactly the naive row-major product of the leading size * size elements of each slice (nothing when size is 0); the lengths are not checked |
| MatmulCpu.CursorStep | rust/src/matmul_cpu.rs:73-81 | a step from an in-range cell stays inside the matrix, wraps to the next row at the row's end, and extends the yielded prefix of the product by that cell's dot product |
| MatmulCpu.CursorBounds | rust/src/matmul_cpu.rs:77-81 | an in-range cursor has a row-major position inside the matrix; at a row's end the next position starts the next row |
| MatmulCpu.MatmulIterator.constructor | rust/src/matmul_cpu.rs:93-99 | the iterator starts at (0, 0) having yielded nothing, which satisfies its invariant |
| MatmulCpu.MatmulIterator.Next | rust/src/matmul_cpu.rs:69-83 | None exactly when y >= size, with no state change (so it stays None); otherwise the dot product of row y with column x, the cursor moving one cell in row-major order, and the invariant that the values yielded are the product's prefix |
| MatmulCpu.CpuMatmulV2 | rust/src/matmul_cpu.rs:86-100 | panics (None) exactly when a slice does not have size * size elements; otherwise a fresh iterator at (0, 0) |
| MatmulCpu.CollectV2 | rust/src/matmul_cpu.rs:66-100 | draining v2 until its first None gives exactly the size * size values of the product, in row-major order, or the panic on wrong lengths |
| MatmulCpu.UnsafeMatmulIterator.constructor | rust/src/matmul_cpu.rs:141-148 | the raw-pointer iterator starts at (0, 0) having yielded nothing |
| MatmulCpu.UnsafeMatmulIterator.Next | rust/src/matmul_cpu.rs:114-131 | as `MatmulIterator.Next`; every pointer read is in bounds |
| MatmulCpu.CpuMatmulV3 | rust/src/matmul_cpu.rs:134-149 | panics exactly on wrong slice lengths; otherwise a fresh raw-pointer iterator at (0, 0) |
| MatmulCpu.CollectV3 | rust/src/matmul_cpu.rs:111-149 | draining v3 gives the product in row-major order, or the panic on wrong lengths |
| MatmulCpu.CellSumV4 | rust/src/matmul_cpu.rs:155-159 | the inner loop for cell (i, j) panics only when a slice is shorter than size * size; a cell of the last row panics unless `a` has size * size elements, one of the last column unless `b` has; on long enough slices it is the ascending-k dot product |
| MatmulCpu.CpuMatmulV4 | rust/src/matmul_cpu.rs:151-163 | the triple loop panics (an index past the end) exactly when a slice is shorter than size * size; otherwise it returns the product of the leading size * size elements of each, row-major |
| MatmulCpu.AllVersionsAgree | rust/src/matmul_cpu.rs:43-163 | on size * size slices v1, v2, v3 and v4 yield the same sequence and none panics |
| Matrix.FlatIndex | rust/src/matmul_cpu.rs:75 | an in-range (row, column) has flat index row * size + column, inside the matrix, and it decodes back |
| Matrix.Unflatten | rust/src/matmul_cpu.rs:151-163 | every flat index inside the matrix comes from an in-range (row, column) |
| Matrix.ProductEntry | js/matmul.js:39-46 | element (r, c) of the product is the ascending-k dot product the host recomputes |
| Matrix.RowRangeWrite | js/matmul.js:204-211 | writing a row's run of columns sets those cells, in order, and no other |
| Matrix.EqualByEntries | js/matmul.js:199-267 | two flat matrices equal at every (row, column) are equal |
| TiledMatmul.InvocationOf | js/matmul.js:74-98 | invocation t of the 8 x 8 workgroup has local id (t % 8, t / 8) and thread index t, and no other id has that index |
| TiledMatmul.LoadAExactlyOnce | js/matmul.js:89-95 | across the workgroup's 64 x 8 loads from A, every slot of `bufferA` is written by exactly one (invocation, j) |
| TiledMatmul.LoadBExactlyOnce | js/matmul.js:98-103 | every slot of `bufferB` is written by exactly one (invocation, j) |
| TiledMatmul.LoadASlotsDistinct | js/matmul.js:91-94 | distinct (tid, j) write distinct slots of `bufferA`, all below 512 |
| TiledMatmul.LoadBSlotsDistinct | js/matmul.js:99-102 | distinct (tid, j) write distinct slots of `bufferB`, all below 512 |
| TiledMatmul.BlockFits | js/matmul.js:80-85 | for a workgroup of the (size / 64)^2 grid and a k-tile start, the block and the tile lie inside the matrix |
| TiledMatmul.LoadInputsInBounds | js/matmul.js:85-103 | every global read index of both load loops is below size * size |
| TiledMatmul.StoreIndexIsCell | js/matmul.js:203-267 | the store of `sum[r*8+c]` lands on row aRow + tid.y*8 + r, column bCol + tid.x*8 + c |
| TiledMatmul.StoreCellUnique | js/matmul.js:203-267 | a store that lands on cell (R, C) is the one whose workgroup, invocation, r and c are R's and C's digits |
| TiledMatmul.StoreOfCell | js/matmul.js:203-267 | every cell of C is the target of a store of some workgroup of the grid |
| TiledMatmul.StoresCoverExactlyOnce | js/matmul.js:203-267 | over the whole grid every cell of C is stored exactly once |
| TiledMatmul.LoadThread | js/matmul.js:88-103 | one invocation's two load loops fill exactly its own 8 + 8 slots, with the tiles' elements, and leave all other slots |
| TiledMatmul.LoadPhase | js/matmul.js:86-105 | after the load phase of all 64 invocations both tiles hold the k-tile of A and of B |
| TiledMatmul.AccumulateRow | js/matmul.js:132-139 | the 8 updates of one row of `sum` add `localA{r} * localB{c}` to exactly those 8 sums |
| TiledMatmul.RowStep | js/matmul.js:132-195 | adding one more row's terms to a partly updated step extends it to that row, and nothing outside the invocation's sums changes |
| TiledMatmul.OuterProductStep | js/matmul.js:108-195 | step j of the compute loop adds its outer-product term to each of the invocation's 64 sums and changes no other sum |
| TiledMatmul.ComputeThread | js/matmul.js:108-196 | one invocation's compute loop adds the full outer-product sum to each of its sums and no other |
| TiledMatmul.ComputePhase | js/matmul.js:105-196 | the compute phase of all 64 invocations adds every sum's outer-product sum |
| TiledMatmul.OuterTermIsDotTerm | js/matmul.js:109-127 | with the tiles staged, the factors of step j of `sum[r*8+c]` are A[row][i + j] and B[i + j][column] of that sum's cell |
| TiledMatmul.OuterSumIsDotStep | js/matmul.js:108-196 | the first j outer-product terms extend the cell's dot product from i to i + j |
| TiledMatmul.TileStep | js/matmul.js:85-197 | each k-tile adds the next 8 terms of every cell's dot product to its sum |
| TiledMatmul.CellTileStep | js/matmul.js:108-196 | the same for one sum of one invocation |
| TiledMatmul.ProcessTile | js/matmul.js:85-197 | if every sum holds its cell's dot product up to i, after the tile it holds it up to i + 8 |
| TiledMatmul.AccumulateTiles | js/matmul.js:83-197 | after the k loop every sum holds its cell's full dot product |
| TiledMatmul.RowStart | js/matmul.js:203-211 | `startOutIndex + r*size` is the flat index of row r of the sub-block |
| TiledMatmul.StoreRow | js/matmul.js:204-211 | the 8 stores of one row of the sub-block put the sums there and change no other cell |
| TiledMatmul.CopyRun | js/matmul.js:204-211 | a run of element copies writes exactly its destination range, in order |
| TiledMatmul.StoreThread | js/matmul.js:203-267 | one invocation's 64 stores fill its 8 x 8 sub-block of C with its sums and change no other cell |
| TiledMatmul.ThreadBlockInBlock | js/matmul.js:203 | an invocation's sub-block lies inside its workgroup's block |
| TiledMatmul.SubBlocksDisjoint | js/matmul.js:203 | a cell of one invocation's sub-block is in no other invocation's sub-block |
| TiledMatmul.StorePhase | js/matmul.js:199-267 | the stores of all 64 invocations fill the workgroup's block with the sums and change no cell outside it |
| TiledMatmul.StoredBlockIsProduct | js/matmul.js:199-267 | after the stores the block holds the product's cells and every other cell is unchanged |
| TiledMatmul.StoreBlock | js/matmul.js:199-267 | the same, carried out on C |
| TiledMatmul.Workgroup | js/matmul.js:75-268 | one workgroup of the grid sets its 64 x 64 block of C to the product and leaves the rest |
| TiledMatmul.Dispatch | js/matmul.js:62-268 | for a side that is a multiple of 64, the (size / 64)^2 grid leaves C equal to the naive product A B |
| MatmulHost.MatmulDims | js/matmul.js:27 | the launch is (n / 64, n / 64, 1), with Y becoming 1 when n / 64 is 0 |
| MatmulHost.MatmulKernel | js/matmul.js:62-268 | the compiled kernel keeps the number of bindings and every binding's length and writes only C (binding 3); what it writes there: `TiledKernel` |
| MatmulHost.TiledKernel | js/matmul.js:62-268 | running the tiled workgroups over the grid gives exactly the kernel oracle's result |
| MatmulHost.MatmulDispatch | js/matmul.js:22-27 | bound as n, A, B, C with only C writable and launched on the host's grid, the kernel leaves A B in C |
| MatmulHost.BindInputs | js/matmul.js:22-24 | the first three arguments make read-only buffers 0, 1, 2 holding n, A and B, with no outputs |
| MatmulHost.BindArguments | js/matmul.js:22-25 | the four arguments make buffers 0-3 holding n, A, B, C; only C (binding 3) is an output and writable |
| MatmulHost.CallKernel | js/matmul.js:19-27 | the kernel call passes exactly when no error is raised, and then C read back is A B |
| MatmulHost.CellSum | js/matmul.js:39-44 | the host's recomputed sum for (i, j) is the dot product of row i with column j |
| MatmulHost.SampledCheck | js/matmul.js:33-56 | reports the first wrong sampled cell in row-major order, or nothing exactly when no sampled cell is wrong |
| MatmulHost.Run | js/matmul.js:7-59 | fails with no adapter; passes exactly when no error is raised; then C is A B and the check reports nothing |
| KernelCall.KindOf | js/call.js:32 | an entry's layout type is `storage` exactly when it is an output, else `read-only-storage` |
| KernelCall.ArgumentUsage | js/call.js:21 | an argument buffer is STORAGE, and COPY_SRC exactly when it is an output |
| KernelCall.OrOne | js/call.js:76 | `v \|\| 1` is v when v is given and nonzero, and 1 otherwise |
| KernelCall.DispatchDims | js/call.js:76 | X is passed unchanged; a missing or zero Y or Z becomes 1 |
| KernelCall.OutputsBelowPrefix | js/call.js:42-44 | adding arguments does not change the output entries of the ones already added |
| KernelCall.OutputPositions | js/call.js:42-44 | the output list is exactly the arguments added as outputs, in add order, each with its own array and buffer |
| KernelCall.ArgumentBindings | js/call.js:27-40 | the k-th argument gets binding k, binding its own buffer, writable exactly when it is an output |
| KernelCall.ArgumentBuffersDistinct | js/call.js:17-40 | no buffer is bound twice: each argument has a buffer of its own |
| KernelCall.OutputsLive | js/call.js:42-43 | every output entry names a buffer created with COPY_SRC, one word per element of its array |
| KernelCall.CallLaunchable | js/call.js:51-57 | the call's lists always give valid bindings and readable outputs |
| KernelCall.LiveKept | js/call.js:79-95 | creating staging buffers and running commands keeps every argument's buffer's usage and size |
| KernelCall.ArgumentAdded | js/call.js:17-45 | adding an argument keeps the three lists consistent with the arguments and every buffer live |
| KernelCall.ScopesBeforePops | js/call.js:48-69 | after the three pushes and the errors raised, the stack has three more scopes, filtered validation, internal and out-of-memory from the bottom |
| KernelCall.PopUntilError | js/call.js:97-102 | popping stops at the first scope holding an error: what is left is a prefix of the stack, every scope popped before that one was clean, and the error reported is that scope's; with no error all n are popped |
| KernelCall.PopsStopAtFirstError | js/call.js:48-102 | the pops run out-of-memory, internal, validation; the first holding an error ends them and the scopes under it stay pushed; each scope holds the first error of its kind |
| KernelCall.CleanIffNoErrors | js/call.js:97-102 | all three pops are clean exactly when no error was raised |
| KernelCall.PopScopes | js/call.js:97-102 | the pop loop leaves the scopes and reports the error the stop-at-first-error rule gives, and touches no buffer |
| KernelCall.StagingBuffers | js/call.js:80-83 | one staging buffer per output |
| KernelCall.StagingCopies | js/call.js:84-90 | one copy per output |
| KernelCall.StagingStep | js/call.js:79-92 | one more output extends the staging buffers and copies by its own buffer and copy |
| KernelCall.StagingCopiesUp | js/call.js:79-92 | each staging copy is a whole-buffer copy from an output buffer into a staging buffer of the same size |
| KernelCall.SubmitStaged | js/call.js:79-95 | after submission the argument buffers are as the dispatch left them and staging buffer k holds what the dispatch left in output k's buffer |
| KernelCall.StageOutputs | js/call.js:79-92 | the `forEach` creates, per output in order, a zero-filled COPY_DST \| MAP_READ buffer of the array's size and the copy into it |
| KernelCall.Launch | js/call.js:48-95 | the scopes hold the raised errors; one staging buffer per output follows the argument buffers; on a clean call the argument buffers are as the dispatch left them and staging buffer k holds output k's dispatched contents; after an error the argument buffers are unchanged and the staging buffers zero-filled |
| KernelCall.Execute | js/call.js:48-102 | as Launch, then the pops: the call fails exactly when an error was raised, and on success the scopes are back as before; the buffers as Launch leaves them |
| KernelCall.ExecuteCall | js/call.js:47-102 | Execute on the bindings the lists determine: every argument stays live, and the buffers are as Launch leaves them |
| KernelCall.StagedLengths | js/call.js:80-83 | staging buffer k has as many words as output k's array |
| KernelCall.SetAll | js/call.js:108 | `array.set(new constructor(arrayBuffer))` leaves the array equal to the mapped contents |
| KernelCall.ComputeKernelCall.constructor | js/call.js:2-7 | no device and empty lists |
| KernelCall.ComputeKernelCall.CreateDevice | js/call.js:9-15 | with no adapter it throws `failed to get WebGPU adapter` and changes nothing; otherwise a new device |
| KernelCall.ComputeKernelCall.AddBufferArgument | js/call.js:17-45 | a new buffer of the array's byte size holding a copy of it; binding k = the number of earlier arguments on both lists; outputs also listed for read-back |
| KernelCall.ComputeKernelCall.ReadBack | js/call.js:104-110 | each output array ends with its staging buffer's contents (the last one listed, if an array is listed twice) |
| KernelCall.ComputeKernelCall.RunKernel | js/call.js:47-111 | throws `error from kernel call: ` + the first popped error exactly when an error was raised, leaving the arrays and the argument buffers, with zero-filled staging buffers appended; otherwise the argument buffers hold what the dispatch left, one staging buffer per output holds its output's dispatched contents, and every output array holds them too; the lists never change |
| WebGpu.CreateBuffer | js/call.js:18-22 | a new zero-filled buffer of the given byte size and usage, numbered after the existing ones |
| WebGpu.WriteMappedRange | js/call.js:23-25 | writing the mapped range sets that buffer's contents and nothing else |
| WebGpu.PushErrorScope | js/call.js:48-50 | a new empty scope of the filter on top of the stack |
| WebGpu.PopErrorScope | js/call.js:98 | removes the top scope and yields its error |
| WebGpu.PushThenPop | js/call.js:48-50 | popping right after a push restores the device and reports no error |
| WebGpu.Capture | js/call.js:51-69 | an error changes one scope at most, and the stack keeps its length and every scope's filter |
| WebGpu.CaptureTopmost | js/call.js:51-69 | an error lands in the topmost scope of its filter unless that scope already has one, and no other scope changes |
| WebGpu.CaptureUncaught | js/call.js:51-69 | an error no pushed scope filters leaves the stack unchanged |
| WebGpu.RaiseAll | js/call.js:51-69 | raising errors keeps the stack's length and every scope's filter |
| WebGpu.FirstOf | js/call.js:97-102 | None exactly when no error of that kind occurs; otherwise the message of the first one |
| WebGpu.CaptureIntoThree | js/call.js:48-69 | with the call's three scopes on top, an error lands in the one with its filter, first error winning, and nothing below changes |
| WebGpu.RaiseIntoThree | js/call.js:48-69 | after raising errors, each of the three scopes holds the first error of its kind |
| WebGpu.Bound | js/call.js:54-57 | the pipeline reads the bound buffers' contents in binding order |
| WebGpu.Written | js/call.js:73-77 | a dispatch never changes a buffer's length |
| WebGpu.WrittenOnce | js/call.js:73-77 | with each buffer bound once, binding k alone decides what its buffer holds |
| WebGpu.WrittenUnbound | js/call.js:73-77 | an unbound buffer keeps its contents |
| WebGpu.Dispatched | js/call.js:73-77 | a dispatch keeps every buffer's usage and length |
| WebGpu.DispatchedBuffers | js/call.js:73-77 | with distinct buffers, writable binding k takes the pipeline's result k, and unbound buffers are untouched |
| WebGpu.DispatchIgnoresAppended | js/call.js:79-83 | buffers created after the bound ones are not touched by the dispatch |
| WebGpu.Copied | js/call.js:84-90 | a copy keeps every buffer's usage and length |
| WebGpu.CopiesValidOnSameShape | js/call.js:84-90 | copy validity depends only on usages and sizes |
| WebGpu.RunCopies | js/call.js:84-90 | the encoded copies keep every buffer's usage and length |
| WebGpu.Submit | js/call.js:94-95 | submitting keeps every buffer's usage and length |
| WebGpu.CopiesUpValid | js/call.js:84-90 | whole-buffer copies into later buffers pass copy validation |
| WebGpu.RunCopiesUp | js/call.js:84-90 | such copies fill destination k with the contents of its source and leave the earlier buffers |
| WebGpu.RunCopiesUpStep | js/call.js:84-90 | one more such copy extends that by its own destination |
| WebGpu.CopiesUpPrefix | js/call.js:84-90 | a prefix of such copies is again such copies |
| WebGpu.CopiedUp | js/call.js:84-90 | one such copy fills its destination with its source and changes nothing else |
| WebGpu.SubmitKeepsBelow | js/call.js:94-95 | the submitted command buffer leaves the argument buffers as the dispatch left them: the copies write only the appended staging buffers |
| WebGpu.SubmitDispatchThenCopies | js/call.js:94-95 | the submitted command buffer, dispatch then copies, leaves in staging buffer k what the dispatch left in copy k's source |
| WebGpu.CopiedBelowAppended | js/call.js:84-90 | copies from the argument buffers into appended buffers fill appended buffer k with its source's contents |
| WebGpu.CopiesUpOnSameShape | js/call.js:84-90 | copying upward depends only on usages and lengths |
| Elemwise.WorkgroupCount | js/elemwise.js:21 | `ceil(n / 256)` workgroups give at least n and fewer than n + 256 invocations |
| Elemwise.WriteTarget | js/elemwise.js:50 | an invocation writes exactly when `position.x` is below the count, and then only its own element |
| Elemwise.Invocation | js/elemwise.js:48-55 | invocation x writes `sqrt(inputs[x])` into `outputs[x]` when below the count, and changes nothing else |
| Elemwise.ExactlyOnce | js/elemwise.js:50-53 | with at least n invocations, every element below n is written by exactly one invocation, and none at or beyond n by any |
| Elemwise.Grid | js/elemwise.js:47-55 | running the first `count` invocations keeps the outputs' length (their values: `GridValue`) |
| Elemwise.GridValue | js/elemwise.js:47-55 | after the grid, element i holds `sqrt(inputs[i])` when an invocation below the count reached it, and its old value otherwise |
| Elemwise.ElemwiseKernel | js/elemwise.js:42-56 | the compiled kernel keeps the number of bindings and every binding's length and writes only the outputs (binding 2); what it writes there: `ElemwiseDispatch` |
| Elemwise.ElemwiseDispatch | js/elemwise.js:43-55 | bound as count, inputs, outputs and launched with enough workgroups, the kernel leaves every output the square root of its input |
| Elemwise.Iota | js/elemwise.js:7-10 | the inputs are 0, 1, ..., n - 1 |
| Elemwise.FirstMismatch | js/elemwise.js:26-36 | the lowest mismatching index is reported and the loop stops there; nothing is reported exactly when no index mismatches |
| Elemwise.BindArguments | js/elemwise.js:17-19 | the three arguments make buffers 0-2 holding count, inputs, outputs; only outputs (binding 2) is an output and writable |
| Elemwise.CallKernel | js/elemwise.js:14-21 | the kernel call passes exactly when no error is raised, and then every output is the square root of its input |
| Elemwise.Run | js/elemwise.js:6-39 | fails with no adapter; passes exactly when no error is raised; then the outputs are the square roots of 0 .. 999999 and the check reports nothing |

## Left out

- Floating point. Elements are integers and `sqrt` is an arbitrary function, so rounding, FMA,
  summation order and the tolerances (js/matmul.js:47, js/elemwise.js:29) are not modelled. A
  check that compares with a tolerance is modelled as an exact comparison.
- Random inputs and sampling. The matrices are parameters of `MatmulHost.Run`, and the
  `Math.random()` draw that decides whether a cell is checked is the parameter `sampled`.
  `random_matrix` and `time_cpu_matmul` are not modelled.
- Timing and logging: the `Date` readings, the log lines and the log text.
- GPU concurrency. The barriers are phase boundaries, so the invocations of a phase are modelled
  running one after another. They touch disjoint slots, as the exactly-once lemmas show.
- The real WebGPU implementation.
  - Which device call raises which error is an input of `RunKernel`: the list `errors` raised
    while the scopes are pushed.
  - Shader compilation, pipeline validation and bind-group validation are not modelled.
  - Submitted work is taken to run only when no error was raised.
  - A compiled pipeline is an oracle, and each host supplies the kernel it expects.
  - `await` becomes sequential steps.
- The kernels are described only on launches the hosts make.
  - The matmul kernel needs n a multiple of 64 and the host's grid. Any other launch is not given
    a meaning: the oracle leaves the buffers as they were.
  - Reads past the end of a WGSL array are not modelled.
- The Y and Z copies of the element-wise grid. `runKernel` launches `ceil(n / 256) x 1 x 1`, so
  only x varies.
- Integer widths.
  - Binding 0 is read as `u32` (`WebGpu.U32`), and the hosts' sizes are below 2^32. `MatmulHost.Run`
    requires below 2^31, because the count is stored in an `Int32Array`.
  - The WGSL index arithmetic is on unbounded integers: the `u32` wrap for sizes whose square
    exceeds 2^32 is not modelled.
  - `usize` arithmetic in the Rust code is unbounded too.
  - `MatmulHost.Run` and `MatmulHost.CallKernel` require the side to be a multiple of 64. The code
    does not check this, but the kernel covers C only then. The host's sizes 64, 1024 and 4096 all
    meet it.
- `MatmulCpu.CpuMatmulV1`: requires both slices to have at least size * size elements. On a
  shorter slice, `cpu_matmul_v1` panics while its iterator is consumed. That panic (like v4's,
  which `CpuMatmulV4` does model) is not modelled for the lazy comprehension.
- Byte-level reinterpretation. A buffer is a sequence of 4-byte words, so the `Float32Array` /
  `Int32Array` views of the same bytes are not modelled. Sizes are `4 * length` bytes.
- Bind-group entries are paired with layout entries by position. Both lists carry binding k at
  position k, so this equals pairing by binding number (`KernelCall.ArgumentBindings`).
- `outInfo.results` is not stored on the output entries. Staging buffer k is found by its
  position, after the argument buffers.
- `KernelCall.ComputeKernelCall.CreateDevice`: keeps the class invariant only when no argument was
  added yet. A new device has no buffers, so calling it after `addBufferArgument` leaves
  arguments without buffers; the hosts never do this.
- The error value is a string. `GPUError` objects and their formatting in the thrown message are
  not modelled.
- rust/src/matmul.rs and js/app.js (wgpu plumbing, the benchmark driver, the UI) are not part of
  this model.
- The raw-pointer reads of `UnsafeMatmulIterator` are indexed reads of the slices. Their being in
  bounds is what the verifier checks.
