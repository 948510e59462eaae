# FlexFlow Train: a Dafny model of its kernels, local execution, GPU loops and benchmark graphs

This project models four parts of FlexFlow Train and proves what they are for.

* **CPU tensor kernels.** Row-major tensors of any rank in flat heap buffers (`TensorIndex`, `Accessors`),
  transposes, products, broadcast and reductions (`TensorKernels`, `Matrices`, `Folds`, `Reduce`), and the
  linear, batch-matmul, reverse, upsample and SGD kernels built on them (`LinearKernels`,
  `ReluBranch`, `ReverseKernels`, `UpsampleKernels`, `Sgd`). The buffers are arrays, and the kernels are loops over them;
  each method states the buffer it leaves, and lemmas state what that buffer means: the backward kernels
  leave exact adjoints, rearrangements are bijections, reductions compose.
* **Local execution.** The passes that turn a graph of layers into the graph that is trained, the dataflow
  graph, its construction, tensor allocation, operator-state initialization, the argument accessor of a
  task, the cycle test and the topological ordering, and the instance that runs one fixed order all at once
  or phase by phase, with the timings it reports (`Digraphs`, `Scheduling`, `DynamicGraphs`,
  `LocalExecution`, `Timings`, `PassExpansion`, `TrainingGraphs`, `InstanceCreation`, `TrainingInstances`,
  `UpdateExamples`, `LayerExamples`).
* **Grid-stride GPU kernels.** How threads cover an index range however they interleave, between iterations
  or between single memory accesses, the atomic embedding scatter as a transition system under every
  interleaving, strided copies and adds, replica gathering (`GridStride`, `Interleavings`, `FineKernels`,
  `EmbeddingKernels`, `StridedKernels`, `Sgd`).
* **Benchmark graph generators.** The loops that grow graphs from a shared node counter, and the assertions
  inside them (`AdjacencyGraphs`, `NasnetCells`, `Nasnet`, `RandomDags`, `ParallelChains`).

`Sums`, `Sequences` and `Options` hold shared vocabulary.

## What turned out to be false, and when it holds

* **Execution order.** An update task writes its weight and optimizer buffers in place although they are
  inputs and it has no outputs (`lib/task-spec/src/task-spec/dynamic_graph/update_insertion.cc:78-83`), and
  the linear layer's backward task writes its bias in place (`lib/task-spec/src/task-spec/ops/impl/linear.cc:90-93`).
  Having one producer per value therefore does not by itself order all interfering tasks:
  `UpdateExamples.UnorderedUpdateShows` gives a valid graph with two topological orders that end in
  different stores. In general the choice of order is invisible exactly when the graph orders every
  interfering pair (`Scheduling.OrderIndependenceExactly`); here that means that every task that overwrites
  an input is ordered with the value's other users that write anything
  (`LocalExecution.OrderIsImmaterialExactly`). The passes build no graph like the
  example, whose update gets its gradient from outside: they order all users of every tensor whose gradient
  is computed (`TrainingGraphs.UsersAreOrdered`), so tasks may overwrite any of those
  (`TrainingGraphs.TrainingOrdersOverwrites`), and updates come last (`TrainingGraphs.UpdatesComeLast`).
* **Shared tensors.** The check of the expanded graph fails when a tensor that gradients come back through
  is read in two places, as in a residual connection, or is both read and used as logits: both readers'
  backward tasks produce its gradient. It succeeds exactly when there is no such tensor
  (`TrainingGraphs.ProducedOnceExactly`), and then an instance is created (`TrainingInstances.CreateFromLayers`).
* **Final inputs.** For the same reason a trained weight is not final when a task reads it
  (`UpdateExamples.TrainedWeightIsNotFinal`). An input is final exactly when no task that runs from its
  reader on overwrites its value (`LocalExecution.InputsAreFinalWhenRead`); when overwriting comes last, that
  is no task of the graph (`LocalExecution.OverwrittenInputsAreNotFinal`).
* **Phase split.** The three passes never run LOSS tasks. They agree with the combined run exactly when no
  LOSS task may write (`LocalExecution.SplitIsCombinedExactly`).
* **Timings.** The combined run keys timings by layer and keeps the first. A task's timing is lost in every
  order exactly when the graph leads from another task of its layer to it
  (`Timings.NeverReportedExactly`), and reported in every order exactly when the graph leads from it to all
  the others (`Timings.AlwaysReportedExactly`). So every forward timing is reported and no backward timing is
  (`TrainingGraphs.OnlyForwardIsReported`; `UpdateExamples.BackwardTimingIsLost` is a graph with one order).
  The C++ standard leaves open which of several equal keys a `std::map` built from a range keeps; the model
  has the first, as the common libraries do.
* **ReLU.** The backward branch maps the output gradient itself to 0 or 1. The gradients it leaves for the
  input, and for the projection, are those of the ReLU kernel for all other factors of the product
  exactly when on every cell the output gradient is zero, or one on an active cell, or negative on an
  inactive one (`ReluBranch.ReluInputGradientsExactly`, `ReluBranch.ReluProjectionGradientsExactly`;
  `ReluBranch.ReluBranchCounterexample` is a call that leaves the wrong one).
* **Averaging embeddings** rescale inside the word loop; forward and backward are adjoint exactly for at
  most one word per cell, or no cell (`EmbeddingKernels.AverageIsAdjointExactly`).
* **Upsample backward** indexes the input gradient by the output coordinate. On matching shapes it stays in
  bounds exactly for scale 1 (`UpsampleKernels.BackwardInBoundsExactly`).
* **Random DAG.** The generator's closing assertion holds exactly when there are at least three nodes and
  the sampled graph has no cycle (`RandomDags.MakeTwoTerminalRandomDag`). The column index is narrowed to
  32 bits, so a huge step wraps around and rows can sample earlier nodes or their own: no cycle arises,
  whatever the sampler says, exactly when the inner nodes and the low 32 bits of the step add up to less
  than 2^32 (`RandomDags.AcyclicForEverySampler`).
* **`foldl1 == foldr1`** holds on every sequence exactly for associative operations
  (`Folds.FoldsAgreeExactly`).

## Reading conventions

Floats are exact reals. `Tensor.Sized()` says that an allocated buffer has the size of its shape. A copy
between devices is a plain copy. Two arguments that the source hands to `memcpy`, or one kernel writes while
it reads the other, are required to be different buffers; where the source routes through a temporary
(`map_tensor_accessors.h`) they may be the same. A GPU launch has any grid and block size and any sequence
of turns of its threads, and every kernel call has a launch of its own. In `GridStride.Launch` a turn is one
iteration of the thread's loop; in `Interleavings.FineLaunch` it is one memory access, and
`Interleavings.InterleavingsAgree` shows that the two leave the same where iterations touch no cell that
another writes, as in the SGD and forward embedding kernels (`FineKernels`). Where iterations do collide, in
the embedding's backward kernel, a turn is a single atomic addition. The random sampler is an arbitrary
function of the pair of indices it is drawn for. Task bodies are arbitrary functions of the buffers in their
argument accessors; which of their inputs they overwrite is arbitrary too. A computation graph comes as its
layers in the form of `IsLayerGraph`: every layer computes something, and goes by different names for inputs
and outputs.

## Model

| member | source | states |
|---|---|---|
| TensorIndex.CalculateAccessorOffset | lib/kernels/src/kernels/accessor.cc:15-34 | The offset loop fails exactly on coordinates that do not fit the shape, and otherwise gives the row-major position, below the element count. |
| TensorIndex.OffsetIsBijective | lib/kernels/src/kernels/accessor.cc:15-34 | For every rank, addressing is a bijection from in-bounds coordinates onto the buffer, with a div/mod inverse both ways. |
| TensorIndex.OffsetOrder | lib/kernels/src/kernels/accessor.cc:15-34 | Row-major order is lexicographic order of coordinates. |
| TensorIndex.CoordSeqIsSortedSet | lib/kernels/include/kernels/map_tensor_accessors.h:48-49 | The coordinate traversal visits exactly the in-bounds coordinates, strictly increasing. |
| Accessors.At | lib/kernels/include/kernels/accessor.h:51-62 | Reading returns the addressed cell. |
| Accessors.SetAt | lib/kernels/include/kernels/accessor.h:125-136 | Writing changes the addressed cell and the cell of no other coordinate. |
| Accessors.CopyAccessorData | lib/kernels/src/kernels/accessor.cc:46-75 | The destination ends up equal to the source's elements, as many as its shape has. |
| Accessors.CopyToCpuIfNecessary | lib/kernels/src/kernels/copy_tensor_accessor.cc:46-53 | A device tensor is copied to a fresh buffer with equal contents; a CPU tensor is returned itself. |
| Accessors.MapTensorInPlace | lib/kernels/include/kernels/map_tensor_accessors.h:15-35 | Every cell is replaced by f of its old value, each exactly once. |
| Accessors.MapTensorTo | lib/kernels/include/kernels/map_tensor_accessors.h:37-73 | The output is f of the input as it was on entry, also when both share a buffer. |
| Accessors.MapTensors2To | lib/kernels/include/kernels/map_tensor_accessors.h:92-143 | As above with two inputs, either of which may be the output. |
| TensorKernels.TransposeTo | lib/kernels/src/kernels/tensor_accessor_unary_ops.cc:108-156 | Every element moves to the swapped coordinate; no element is lost. |
| TensorKernels.BatchTransposeTo | lib/kernels/src/kernels/tensor_accessor_unary_ops.cc:173-240 | The same for the last two of three dimensions. |
| TensorKernels.RearrangedBack | lib/kernels/src/kernels/tensor_accessor_unary_ops.cc:115-124 | Moving elements along a map and back along its inverse restores the buffer. |
| TensorKernels.MatmulTo | lib/kernels/src/kernels/tensor_accessor_binary_ops.cc:111-141 | The flat output holds, row by row, the matrix product of the inputs on entry, as many of its cells as the output's shape has. |
| TensorKernels.BatchMatmulTo | lib/kernels/src/kernels/tensor_accessor_binary_ops.cc:182-226 | The same for every entry of a batch. |
| TensorKernels.BroadcastTo | lib/kernels/src/kernels/tensor_accessor_unary_ops.cc:55-91 | Every output cell holds the input cell that right-aligned broadcasting assigns to it. |
| TensorKernels.BroadcastSrcCoord | lib/op-attrs/src/op-attrs/tensor_dims.cc:109-148 | The source coordinate of a broadcast is always in bounds of the input. |
| TensorKernels.BroadcastRepeats | lib/op-attrs/src/op-attrs/tensor_dims.cc:109-148 | An output coordinate repeats the input coordinate that it agrees with, from the innermost dimension outwards, in all dimensions of more than one element. |
| TensorKernels.BroadcastAlongLeading | lib/kernels/src/kernels/tensor_accessor_unary_ops.cc:55-91 | Leading dimensions repeat the whole input buffer; without any, broadcasting is the identity. |
| TensorKernels.ReduceTo | lib/kernels/src/kernels/tensor_accessor_unary_ops.cc:257-314 | Every output cell is the sum of all input cells that drop to it. |
| TensorKernels.ReductionDrops | lib/kernels/src/kernels/tensor_accessor_unary_ops.cc:264-272 | A coordinate is added to the one that has all its components but the reduced one. |
| TensorKernels.ScatteredDot | lib/kernels/src/kernels/tensor_accessor_unary_ops.cc:262-273 | Accumulating along any index map is the adjoint of reading along it, for all buffers. |
| Matrices.MatMulEntry | lib/kernels/src/kernels/tensor_accessor_binary_ops.cc:111-141 | An entry of the product adds up row entry times column entry, term by term from zero. |
| Matrices.MatMulLeftAdjoint | lib/kernels/src/kernels/linear_kernels_cpu.cc:80-81 | The product's inner product with G equals the left factor's with G times the transposed right factor. |
| Matrices.MatMulRightAdjoint | lib/kernels/src/kernels/linear_kernels_cpu.cc:82-88 | The same for the right factor. |
| Matrices.DotIsInner | lib/kernels/src/kernels/accessor.cc:29-30 | The inner product of two flat buffers is that of the matrices they hold. |
| LinearKernels.LinearForward | lib/kernels/src/kernels/linear_kernels_cpu.cc:12-43 | The output is input times transposed projection, plus broadcast bias, as many cells as its shape has; with the activation, every cell is the least number that is neither negative nor below that. |
| LinearKernels.LinearBackward | lib/kernels/src/kernels/linear_kernels_cpu.cc:54-94 | The three gradient buffers hold the two products and the column sums of the processed output gradient. |
| LinearKernels.InputGradientIsAdjoint | lib/kernels/src/kernels/linear_kernels_cpu.cc:80-81 | The product's pairing with any G equals the pairing of the input gradient with the input. |
| LinearKernels.ProjectionGradientIsAdjoint | lib/kernels/src/kernels/linear_kernels_cpu.cc:82-88 | The same for the projection gradient and the projection. |
| LinearKernels.BiasGradientIsAdjoint | lib/kernels/src/kernels/linear_kernels_cpu.cc:90-93 | The broadcast bias pairs with G as the bias gradient pairs with the bias. |
| LinearKernels.LinearGradients | lib/kernels/src/kernels/linear_kernels_cpu.cc:12-94 | Without activation the backward buffers are exact gradients: for all G, X, W, b the pairing with the output splits into theirs. |
| LinearKernels.GradientIsUnique | lib/kernels/src/kernels/linear_kernels_cpu.cc:54-94 | Pairing with all buffers determines a gradient, so adjointness leaves no other result. |
| ReluBranch.ReluGradientsPair | lib/kernels/src/kernels/linear_kernels_cpu.cc:66-72 | Passing a gradient on exactly where the output is positive is the right gradient of a ReLU layer: it pairs with the input as the gradient does with the output. |
| ReluBranch.ReluInputGradientsExactly | lib/kernels/src/kernels/linear_kernels_cpu.cc:46-81 | The input gradient buffer of the ReLU branch is the right one for all projections exactly when every cell meets the stated condition on output and gradient. |
| ReluBranch.ReluProjectionGradientsExactly | lib/kernels/src/kernels/linear_kernels_cpu.cc:46-88 | The same for the projection gradient buffer and all inputs. |
| ReluBranch.ReluBranchCounterexample | lib/kernels/src/kernels/linear_kernels_cpu.cc:12-94 | Running both kernels on one value: the output is 1, and for the output gradient 2 the input gradient buffer holds 1 instead of 2. |
| LinearKernels.BatchMatmulForward | lib/kernels/src/kernels/batch_matmul_kernels_cpu.cc:8-12 | The output is the batch product. |
| LinearKernels.BatchMatmulBackward | lib/kernels/src/kernels/batch_matmul_kernels_cpu.cc:14-51 | The two gradient buffers hold the products with the transposed other factor. |
| LinearKernels.BatchMatmulGradients | lib/kernels/src/kernels/batch_matmul_kernels_cpu.cc:8-51 | Summed over all batches, G pairs with the output as each gradient pairs with its input. |
| Folds.FoldsAgreeExactly | lib/kernels/include/kernels/reduce_tensor_accessor.h:50-53 | The two folds agree on all non-empty sequences exactly for associative operations. |
| Folds.FoldLeft | lib/utils/include/utils/containers/foldl1.h:28-43 | The loop computes the left fold. |
| Folds.FoldRight | lib/utils/include/utils/containers/foldr1.h:9-25 | The loop computes the right fold. |
| Folds.FoldAnyOrder | lib/kernels/include/kernels/reduce_tensor_accessor.h:45-50 | For an associative, commutative operation the order of a group's cells does not matter. |
| Folds.FoldInTwoSteps | lib/kernels/include/kernels/reduce_tensor_accessor.h:43-56 | Folding along one map and then another is folding along both at once. |
| Reduce.FibresCover | lib/kernels/include/kernels/reduce_tensor_accessor.h:36-41 | Every input cell belongs to one output cell, and every output cell has input cells. |
| Reduce.GroupOfCell | lib/kernels/include/kernels/reduce_tensor_accessor.h:36-41 | A cell belongs to the group of the coordinate that its own one drops to. |
| Reduce.GroupLists | lib/kernels/include/kernels/reduce_tensor_accessor.h:43-48 | A group's values are its cells in the order of the buffer. |
| Reduce.DropAppend | lib/kernels/include/kernels/reduce_tensor_accessor.h:32-34 | Dropping keeps the remaining dimensions in order. |
| Reduce.ReduceInDims | lib/kernels/include/kernels/reduce_tensor_accessor.h:20-84 | There is a result exactly when, for every group of cells, the fold from the left equals the fold from the right; each output cell is the fold of its group. |
| Reduce.AssociativeReducesAlways | lib/kernels/include/kernels/reduce_tensor_accessor.h:50-53 | For an associative operation the internal check never fails. |
| Reduce.ReduceInTwoSteps | lib/kernels/include/kernels/reduce_tensor_accessor.h:20-84 | Reducing some dimensions and then some of the rest equals reducing all of them at once. |
| Reduce.ComposeIsUnion | lib/kernels/include/kernels/reduce_tensor_accessor.h:32-34 | Composing two reductions drops exactly the union of the two sets of dimensions. |
| Reduce.ReduceInAllDims | lib/kernels/include/kernels/reduce_tensor_accessor.h:86-97 | Reducing all dimensions folds the whole buffer. |
| Reduce.TensorAccessorAll | lib/kernels/src/kernels/tensor_accessor_reductions.cc:7-16 | True exactly when every element is. |
| Reduce.TensorAccessorAny | lib/kernels/src/kernels/tensor_accessor_reductions.cc:18-27 | True exactly when some element is. |
| ReverseKernels.ReverseForward | lib/kernels/src/kernels/reverse_kernels_cpu.cc:7-27 | For any rank and axis, cells whose coordinates agree off the axis and add up to its last index on it hold the same element, and no cell of the output outside the input's shape changes. |
| ReverseKernels.ReversedAt | lib/kernels/src/kernels/reverse_kernels_cpu.cc:14-25 | What a rearrangement by the mirrored coordinate means, coordinate by coordinate. |
| ReverseKernels.ReversedEverywhere | lib/kernels/src/kernels/reverse_kernels_cpu.cc:14-25 | Every output cell is written, from its mirrored input cell. |
| ReverseKernels.ReverseTwice | lib/kernels/src/kernels/reverse_kernels_cpu.cc:7-27 | Reversing twice restores the buffer. |
| ReverseKernels.ReverseIsAdjoint | lib/kernels/src/kernels/reverse_kernels_cpu.cc:37-45 | The backward kernel, the same reversal, is the adjoint of the forward kernel. |
| ReverseKernels.ComputeReverseKernelsParams | lib/kernels/src/kernels/reverse_kernels_params.cc:7-30 | The three block sizes multiply to the element count, and the first is the size of the dimensions before the axis. |
| UpsampleKernels.UpsampleForward | lib/kernels/src/kernels/upsample_kernels_cpu.cc:9-52 | The kernel completes exactly when every read is in bounds, and then every output cell holds the element it shrinks to. |
| UpsampleKernels.UpsampledPixel | lib/kernels/src/kernels/upsample_kernels_cpu.cc:14-29 | Pixel (y, x) of an output image is pixel (y / scale, x / scale) of the same input image. |
| UpsampleKernels.AllReadsInBounds | lib/kernels/src/kernels/upsample_kernels_cpu.cc:14-22 | All reads are in bounds exactly when the last output coordinate of every dimension shrinks into the input. |
| UpsampleKernels.EnlargedShrinks | lib/kernels/src/kernels/upsample_kernels_cpu.cc:14-22 | When the last two output dimensions are the scaled input dimensions, all reads are in bounds. |
| UpsampleKernels.SamplingRecovers | lib/kernels/src/kernels/upsample_kernels_cpu.cc:24-29 | Reading the output at multiples of the scale gives back the input. |
| UpsampleKernels.UpsampledTotal | lib/kernels/src/kernels/upsample_kernels_cpu.cc:24-29 | The output total is the squared scale times the input total. |
| UpsampleKernels.CopiedSquareTimes | lib/kernels/src/kernels/upsample_kernels_cpu.cc:24-29 | Every input cell is copied to exactly squared-scale many output cells. |
| UpsampleKernels.UpsampleBackward | lib/kernels/src/kernels/upsample_kernels_cpu.cc:54-76 | As written, the loop completes exactly when no output dimension exceeds the input gradient's; then every cell inside the output shape has gained the gradient at its shrunk coordinate and no other cell has changed. |
| UpsampleKernels.AddedPixel | lib/kernels/src/kernels/upsample_kernels_cpu.cc:58-75 | As written, pixel (y, x) inside the output shape gains the gradient of pixel (y / scale, x / scale), and the other pixels gain nothing. |
| UpsampleKernels.BackwardInBoundsExactly | lib/kernels/src/kernels/upsample_kernels_cpu.cc:69-74 | On shapes that belong together that means scale 1. |
| UpsampleKernels.BackwardOfIdentity | lib/kernels/src/kernels/upsample_kernels_cpu.cc:69-74 | With scale 1 the forward kernel copies and the backward kernel adds the gradient, its adjoint. |
| Sgd.CpuSgdUpdateTask | lib/kernels/src/kernels/optimizer_kernels_cpu.cc:10-60 | In place and cell by cell one SGD step, for every momentum and Nesterov setting; momentum without a velocity fails before any write. |
| Sgd.SgdUpdate | lib/kernels/src/hip/optimizer_kernel.cpp:26-47 | However the iterations of a launch of any size interleave, the kernel performs the same step. |
| Sgd.StepIsDetermined | lib/kernels/src/kernels/optimizer_kernels_cpu.cc:17 | A step has one outcome, so the two updates agree on every buffer. |
| Sgd.GatherReplicas | lib/kernels/src/hip/optimizer_kernel.cpp:57-69 | The first replica ends as the sum of all and the others are untouched, whatever the launches. |
| Sgd.PsUpdateTask | lib/kernels/src/hip/optimizer_kernel.cpp:49-86 | With any number of replicas, one step on their summed gradient, whatever the launches. |
| Sgd.UpdateGas | lib/kernels/src/hip/hip_helper.cpp:195-225 | The averaging update is one plain step on the mean of the replica gradients, whatever the launches. |
| Sgd.ApplyAddWithScale | lib/kernels/src/hip/hip_helper.cpp:150-156 | A replica, scaled, is added onto the front; the rest is unchanged, for every launch. |
| Sgd.VelocityClosedForm | lib/kernels/src/hip/optimizer_kernel.cpp:36-44 | After T momentum steps the velocity is the damped initial one plus every gradient damped once per later step. |
| Sgd.WeightClosedForm | lib/kernels/src/hip/optimizer_kernel.cpp:36-45 | Without Nesterov the weight has moved by the learning rate times the sum of all velocities. |
| Sgd.PlainClosedForm | lib/kernels/src/hip/optimizer_kernel.cpp:36-45 | Without momentum it has moved by the sum of all gradients, and the velocity has not. |
| Sgd.MomentumConserves | lib/kernels/src/hip/optimizer_kernel.cpp:36-45 | With or without Nesterov, a fixed combination of weight and velocity loses exactly the learning rate times the sum of the gradients over any run. |
| Sgd.EveryCellRuns | lib/kernels/src/hip/optimizer_kernel.cpp:35-46 | Repeating either update makes every cell a run to which the closed forms apply. |
| GridStride.KernelLoop | lib/kernels/src/internal/device.h:60-62 | One thread visits, in increasing order, exactly the indices below n that lie whole grids away from its block's start plus its place in the block. |
| GridStride.VisitsExactly | lib/kernels/src/internal/device.h:60-62 | It visits exactly the indices of its residue from its position on. |
| GridStride.VisitsIncrease | lib/kernels/src/internal/device.h:60-62 | No thread visits an index twice: its visits increase. |
| GridStride.ThreadsPartition | lib/kernels/src/internal/device.h:60-62 | For every launch shape, every index is visited by exactly one thread. |
| GridStride.CompleteLaunchTakesEachOnce | lib/kernels/src/internal/device.h:60-62 | However many threads a launch has and however they take turns, once all have left their loops every index has been taken exactly once. |
| GridStride.EveryLaunchCompletes | lib/kernels/src/internal/device.h:60-62 | Any sequence of turns extends to one after which all threads have left their loops. |
| GridStride.ThreadNumbers | lib/kernels/src/internal/device.h:60-62 | The threads of all blocks have the numbers below blocks times block size, each one number. |
| Interleavings.CompleteLaunchIsFineRun | lib/kernels/src/internal/device.h:60-62 | However the threads interleave between single accesses, once all have left their loops they have made every access once, each iteration's in order. |
| Interleavings.CompleteExactly | lib/kernels/src/internal/device.h:60-62 | All threads have left their loops exactly when every access of every iteration has been made. |
| Interleavings.InterleavingsAgree | lib/kernels/src/internal/device.h:60-62 | Where iterations touch no cell that another writes, every interleaving of their accesses leaves what running them one by one leaves. |
| FineKernels.SgdFinelyInterleaved | lib/kernels/src/hip/optimizer_kernel.cpp:26-47 | With accesses of all threads interleaved in any way, every weight and velocity takes exactly one step. |
| FineKernels.ForwardFinelyInterleaved | lib/kernels/src/hip/embedding_kernels.cpp:72-125 | With accesses of all threads interleaved in any way, every output cell is what its words accumulate to. |
| GridStride.GetBlocksCovers | lib/kernels/src/internal/device.h:69-72 | At most 32768 blocks; one stride covers all indices exactly up to 2^25; the 32-bit sum fits exactly up to 2^31 - 1024. |
| EmbeddingKernels.TargetIsEntry | lib/kernels/src/hip/embedding_kernels.cpp:113-117 | The cell a word reads or adds to is the table entry in the word's row and the output cell's column. |
| EmbeddingKernels.WordIsAdded | lib/kernels/src/hip/embedding_kernels.cpp:111-118 | Without averaging, an output cell starts from zero and every word adds its entry. |
| EmbeddingKernels.WordIsAveraged | lib/kernels/src/hip/embedding_kernels.cpp:110-123 | With averaging, the cell is divided by the number of words after every word. |
| EmbeddingKernels.AdditionOfWord | lib/kernels/src/hip/embedding_kernels.cpp:232-247 | The backward addition of a word goes to the word's entry, and is the cell's gradient, divided by the number of words when averaging. |
| EmbeddingKernels.Forward | lib/kernels/src/hip/embedding_kernels.cpp:72-125 | For every launch and interleaving, every output cell is what its words accumulate to. |
| EmbeddingKernels.StepKeepsTable | lib/kernels/src/hip/embedding_kernels.cpp:243-246 | Every atomic addition of every thread keeps: the table has received exactly the additions that are done. |
| EmbeddingKernels.EveryInterleavingScatters | lib/kernels/src/hip/embedding_kernels.cpp:152-248 | For every launch size and interleaving, a finished backward call has added to each table cell the gradients of all words that select it. |
| EmbeddingKernels.EveryRunIsBounded | lib/kernels/src/hip/embedding_kernels.cpp:233-247 | No run performs more than the call's additions, and exactly the finished runs perform all of them. |
| EmbeddingKernels.BackwardIsAdjoint | lib/kernels/src/hip/embedding_kernels.cpp:72-248 | Without aggregation and with summation, the scatter is the adjoint of the gather, repeated words included. |
| EmbeddingKernels.AverageIsNotAdjoint | lib/kernels/src/hip/embedding_kernels.cpp:115-123 | With averaging of two or more words, pairing with ones already differs. |
| EmbeddingKernels.AverageIsAdjointExactly | lib/kernels/src/hip/embedding_kernels.cpp:110-124 | With averaging, adjointness holds for all tables and gradients exactly for at most one word per cell, or no cell. |
| StridedKernels.OffsetsDiffer | lib/kernels/src/hip/hip_helper.cpp:172-175 | Different loop indices address different cells, so no two threads collide. |
| StridedKernels.CopyWithStride | lib/kernels/src/hip/hip_helper.cpp:180-193 | For every launch and interleaving, the addressed cells receive their input cells; all others are unchanged. |
| StridedKernels.CopiedCells | lib/kernels/src/hip/hip_helper.cpp:180-193 | Block by block, output cell j is input cell j up to the smaller width; the rest of a wider output block is unchanged. |
| StridedKernels.AddWithStride | lib/kernels/src/hip/hip_helper.cpp:165-178 | The same with addition. |
| StridedKernels.AddedCells | lib/kernels/src/hip/hip_helper.cpp:165-178 | The same with addition to the old value. |
| StridedKernels.CopyThereAndBack | lib/kernels/src/hip/hip_helper.cpp:180-193 | Copying narrow blocks into wider ones and back restores the buffer, whatever the destinations held. |
| StridedKernels.StridedAdjoint | lib/kernels/src/hip/hip_helper.cpp:165-193 | Adding with exchanged roles is the adjoint of copying into a zeroed buffer. |
| Digraphs.IsAcyclic | lib/utils/src/utils/graph/digraph/algorithms/is_acyclic.cc:11-49 | The three-colour search answers true exactly on graphs where no node reaches itself. |
| Digraphs.CycleSearch.CycleDownstreamFromNode | lib/utils/src/utils/graph/digraph/algorithms/is_acyclic.cc:22-40 | A reported cycle exists; otherwise the node is finished after all of its successors. |
| Digraphs.IsTwoTerminalDag | lib/utils/src/utils/graph/digraph/algorithms/is_2_terminal_dag.cc:7-10 | True exactly when some source and sink make the graph two-terminal. |
| Digraphs.EveryNodeOnAPath | lib/utils/src/utils/graph/digraph/algorithms/is_2_terminal_dag.cc:7-10 | In a two-terminal graph every node lies on a path from source to sink. |
| Digraphs.GetTopologicalOrdering | lib/utils/src/utils/graph/digraph/algorithms/get_topological_ordering.cc:13-46 | The stack-driven traversal, although it drops nodes, keeps every node of an acyclic graph once, after its predecessors. |
| Digraphs.OrderingExists | lib/utils/src/utils/graph/digraph/algorithms/get_topological_ordering.cc:43-46 | Every acyclic graph has a topological ordering. |
| Digraphs.OrderedIsAcyclic | lib/utils/src/utils/graph/digraph/algorithms/get_topological_ordering.cc:43-46 | And every graph that has one is acyclic. |
| Scheduling.SameRuns | lib/local-execution/src/local-execution/computation_graph_instance.cc:105-130 | Two runs of the same tasks agree when they order every interfering pair alike. |
| Scheduling.RunTaskEffect | lib/local-execution/src/local-execution/task_execution.cc:57-127 | A task sees the buffers it may read; of what it returns, those it may write replace the old ones, and all others stay. |
| Scheduling.RunAllSteps | lib/local-execution/src/local-execution/computation_graph_instance.cc:105-130 | Tasks run one after the other, in the order of the list. |
| Scheduling.OrderIndependenceExactly | lib/local-execution/src/local-execution/computation_graph_instance.cc:94-130 | The chosen topological order is invisible, for all task bodies and stores, exactly when the graph orders every interfering pair. |
| Scheduling.FinalExactly | lib/local-execution/src/local-execution/computation_graph_instance.cc:94-130 | After k tasks a buffer is final, for all task bodies and stores, exactly when no later task may write it. |
| DynamicGraphs.AddAllInvocations | lib/task-spec/src/task-spec/dynamic_graph/dynamic_open_dataflow_graph.cc:470-565 | Building the dataflow graph succeeds exactly on acyclic graphs, and adds in a topological order. |
| DynamicGraphs.ProducersComeFirst | lib/local-execution/src/local-execution/computation_graph_instance.cc:94-99 | In a topological order, every value is produced before any task that reads it runs. |
| DynamicGraphs.RewritingKeepsValidity | lib/task-spec/src/task-spec/dynamic_graph/dynamic_open_dataflow_graph.cc:425-435 | A rewriting that keeps the wiring keeps validity, size and exactly the dataflow edges. |
| DynamicGraphs.LocalAllocator.Allocate | lib/kernels/src/kernels/local_cpu_allocator.cc:8-13 | A new buffer is none of the live ones. |
| DynamicGraphs.LocalAllocator.Deallocate | lib/kernels/src/kernels/local_cpu_allocator.cc:15-20 | Exactly that buffer stops being live. |
| DynamicGraphs.PerformTensorAllocationForValue | lib/local-execution/src/local-execution/tensor_allocation.cc:35-49 | Only the accessor changes; it has the value's shape and a new buffer. |
| DynamicGraphs.PerformTensorAllocation | lib/local-execution/src/local-execution/tensor_allocation.cc:51-95 | Erasing accessors gives the input graph back, and any two slots share a value exactly when they did before; every value is allocated, given accessors are kept, new buffers are new and distinct; the graph stays valid. |
| DynamicGraphs.ErasingForgets | lib/local-execution/src/local-execution/tensor_allocation.cc:75-94 | Erasing removes the accessor of every value and nothing else. |
| DynamicGraphs.AllocationKeepsGraph | lib/local-execution/src/local-execution/tensor_allocation.cc:75-94 | Filling in accessors changes nothing else: any two slots, on whichever sides, share a value exactly when they did before, and the closing assertion holds. |
| DynamicGraphs.AllocatedBuffersAreDisjoint | lib/local-execution/src/local-execution/tensor_allocation.cc:63-73 | No two values share a buffer, given distinct preallocated buffers that were in use before. |
| DynamicGraphs.PerformPerDeviceOpStateInitialization | lib/local-execution/src/local-execution/per_device_op_state_initialization.cc:21-71 | The result is the given graph with, for every operator, the state that its init task returns, and no state elsewhere; it keeps the sharing, and only operators need buffers. |
| LocalExecution.AdamAfter | lib/pcg/src/pcg/optimizer_attrs.cc:6-24 | After n iterations the running powers are those of n steps, and all else but the step size is unchanged. |
| LocalExecution.SgdStays | lib/pcg/src/pcg/optimizer_attrs.cc:21-23 | SGD's attributes are the same after any number of iterations. |
| LocalExecution.ParameterByRole | lib/local-execution/src/local-execution/task_execution.cc:20-43 | Forward, gradient, optimizer and loss slots become parameters of their own kind, with their name and optimizer slot. |
| LocalExecution.MakeTaskArgumentAccessor | lib/local-execution/src/local-execution/task_execution.cc:45-82 | The argument accessor exists exactly when all slots are distinct parameters with buffers, and maps each to its slot's buffer. |
| LocalExecution.BackingIsFootprint | lib/local-execution/src/local-execution/task_execution.cc:57-66 | The buffers in the accessor are exactly those the task may read, and those of its outputs and overwritten inputs exactly those it may write. |
| LocalExecution.ExecuteDynamicNodeInvocation | lib/local-execution/src/local-execution/task_execution.cc:84-127 | Runs the task on the buffers in its argument accessor; only forward and backward tasks are timed. |
| LocalExecution.ExecutedOperators | lib/local-execution/src/local-execution/task_execution.cc:105-116 | What the execution of a forward or backward task checks of its operator. |
| LocalExecution.ExecuteDynamicNodeInvocationSet | lib/local-execution/src/local-execution/computation_graph_instance.cc:105-130 | Runs the invocations in order; the first timing of a layer is kept. |
| LocalExecution.ValidGraphOrdersConflicts | lib/local-execution/src/local-execution/computation_graph_instance.cc:94-99 | In a valid graph with a buffer per value, dataflow orders every interfering pair, provided it orders every task that overwrites an input with the value's other users. |
| LocalExecution.OrderIsImmaterialExactly | lib/local-execution/src/local-execution/computation_graph_instance.cc:94-130 | In such a graph the order is invisible, for all task bodies and stores, exactly when every task that overwrites an input is ordered with the value's other users that write anything. |
| LocalExecution.ExecutionOrderIsImmaterial | lib/local-execution/src/local-execution/computation_graph_instance.cc:94-130 | Any two topological orders of such a graph end in the same store. |
| LocalExecution.InputsAreFinalWhenRead | lib/local-execution/src/local-execution/computation_graph_instance.cc:94-130 | An input is final when it is read, for all task bodies and stores, exactly when no task from its reader on overwrites its value. |
| LocalExecution.OverwrittenInputsAreNotFinal | lib/local-execution/src/local-execution/computation_graph_instance.cc:94-130 | When overwriting comes last, the inputs that are final are exactly those that no task of the graph overwrites. |
| UpdateExamples.UnorderedUpdateShows | lib/task-spec/src/task-spec/dynamic_graph/update_insertion.cc:70-83 | A valid graph with a buffer per value whose update task is given its gradient from outside, and two topological orders that end in different stores. |
| UpdateExamples.UnorderedUpdateIsNotOrdered | lib/task-spec/src/task-spec/dynamic_graph/update_insertion.cc:70-83 | The condition for the order to be invisible fails on that graph. |
| UpdateExamples.TrainedWeightIsNotFinal | lib/task-spec/src/task-spec/dynamic_graph/update_insertion.cc:70-83 | A valid graph whose update comes last, in which the weight is not final when the forward task reads it. |
| LocalExecution.SplitRunsAllButLoss | lib/local-execution/src/local-execution/computation_graph_instance.cc:152-219 | The three phases in sequence do what the combined order without LOSS tasks does. |
| LocalExecution.SplitIsCombinedExactly | lib/local-execution/src/local-execution/computation_graph_instance.cc:132-219 | They agree with the combined run, for all bodies and stores, exactly when no LOSS task may write. |
| Timings.TracelessExactly | lib/local-execution/src/local-execution/computation_graph_instance.cc:113-129 | In one order, a timed task leaves no trace in the result exactly when another task of its layer runs before it. |
| Timings.NeverReportedExactly | lib/local-execution/src/local-execution/computation_graph_instance.cc:113-129 | A timed task leaves no trace in any order exactly when the graph leads from another task of its layer to it. |
| Timings.AlwaysReportedExactly | lib/local-execution/src/local-execution/computation_graph_instance.cc:113-129 | It is reported in every order exactly when the graph leads from it to every other task of its layer. |
| Timings.BackwardTimingIsDropped | lib/local-execution/src/local-execution/computation_graph_instance.cc:113-129 | Since a backward task reads its layer's outputs, its timing leaves no trace in any order. |
| UpdateExamples.BackwardTimingIsLost | lib/local-execution/src/local-execution/computation_graph_instance.cc:113-129 | A graph with one order, in which the run reports for the layer what its forward task takes, however long the backward task takes. |
| LocalExecution.ComputationGraphInstance.PerformAllPasses | lib/local-execution/src/local-execution/computation_graph_instance.cc:132-150 | Runs the whole order and advances the optimizer attributes once. |
| LocalExecution.ComputationGraphInstance.PerformForwardPass | lib/local-execution/src/local-execution/computation_graph_instance.cc:152-173 | Runs the forward tasks in order; the attributes stay. |
| LocalExecution.ComputationGraphInstance.PerformBackwardPass | lib/local-execution/src/local-execution/computation_graph_instance.cc:175-196 | Runs the backward tasks in order; the attributes stay. |
| LocalExecution.ComputationGraphInstance.PerformUpdatePass | lib/local-execution/src/local-execution/computation_graph_instance.cc:198-219 | Runs the update tasks in order and advances the attributes once. |
| LocalExecution.Train | lib/local-execution/test/src/local-execution/computation_graph_instance.cc:341-355 | A loop over combined passes performs that many combined iterations on the buffers and the optimizer's attributes. |
| LocalExecution.TrainByPhases | lib/local-execution/src/local-execution/computation_graph_instance.cc:152-219 | Calling the three passes in turn, again and again, performs that many split iterations. |
| LocalExecution.TrainingAgrees | lib/local-execution/src/local-execution/computation_graph_instance.cc:132-219 | Over any number of iterations, split and combined training end in the same store and attributes. |
| PassExpansion.NeededExactly | lib/task-spec/src/task-spec/dynamic_graph/pass_expansion.cc:80-176 | The values whose gradients are computed are the least set that contains the weights and the inputs that ask for a gradient and is closed under the layers. |
| PassExpansion.NeededByLayer | lib/task-spec/src/task-spec/dynamic_graph/pass_expansion.cc:113-157 | The output of a layer needs a gradient exactly when the layer is a weight, is an input that asks for one, or reads a value that needs one; values that no layer produces need one. |
| PassExpansion.TasksOfLayer | lib/task-spec/src/task-spec/dynamic_graph/pass_expansion.cc:327-355 | Of every layer there is one forward task, a backward task exactly when it reads a value that needs a gradient, an update task when it is a weight, and no other. |
| PassExpansion.LossTaskExactly | lib/task-spec/src/task-spec/dynamic_graph/loss_insertion.cc:16-88 | The only LOSS task is that of the loss, with labels of the logits' shape that ask for no gradient, the logits, and the logits' gradient as output. |
| PassExpansion.ForwardValues | lib/task-spec/src/task-spec/dynamic_graph/pass_expansion.cc:217-258 | A forward task reads and writes its layer's values in forward role. |
| PassExpansion.ForwardSlots | lib/task-spec/src/task-spec/dynamic_graph/pass_expansion.cc:217-258 | Every slot and value of a forward task takes the forward role; a copy keeps its slots and node. |
| PassExpansion.BackwardValues | lib/task-spec/src/task-spec/dynamic_graph/pass_expansion.cc:260-325 | A backward task reads its layer's values and the outputs' gradients, and writes the inputs' gradients; merging its slots loses none. |
| PassExpansion.BackwardSlots | lib/task-spec/src/task-spec/dynamic_graph/pass_expansion.cc:306-319 | Slot by slot: merging keeps every forward slot of inputs and outputs and every gradient slot of outputs, and gradients of the inputs go out. |
| PassExpansion.BackwardSlotsOfMoves | lib/task-spec/src/task-spec/dynamic_graph/pass_expansion.cc:287-305 | Copies and replications only take the outputs' gradients to the inputs' gradients. |
| PassExpansion.UpdateSlotsExactly | lib/task-spec/src/task-spec/dynamic_graph/update_insertion.cc:46-84 | An update task reads the weight, its gradient and exactly the optimizer's tensors, produces nothing, and overwrites all it reads but the gradient. |
| PassExpansion.UpdateReadsCount | lib/pcg/src/pcg/optimizer_attrs.cc:26-43 | Adam's update reads four tensors, and SGD's two, or three with momentum. |
| TrainingGraphs.ProducedOnceExactly | lib/task-spec/src/task-spec/dynamic_graph/dynamic_open_dataflow_graph.cc:45-64 | The check that no value of the training graph is produced twice succeeds exactly when no two slots that gradients come back from read one value, and none reads the logits. |
| TrainingGraphs.TrainingGoesForward | lib/task-spec/src/task-spec/dynamic_graph/pass_expansion.cc:327-355 | The training graph has no cycle, and no dependency leads from a later phase back to an earlier one. |
| TrainingGraphs.UsersAreOrdered | lib/task-spec/src/task-spec/dynamic_graph/pass_expansion.cc:327-355 | Any two tasks that work on a tensor whose gradient is computed are ordered by the training graph. |
| TrainingGraphs.TrainingOrdersOverwrites | lib/task-spec/src/task-spec/dynamic_graph/update_insertion.cc:46-111 | Tasks may overwrite any tensors whose gradients are computed: the training graph orders them with all other users. |
| TrainingGraphs.UpdatesComeLast | lib/task-spec/src/task-spec/dynamic_graph/update_insertion.cc:46-111 | An update task comes after every other task that uses the weight or the optimizer's tensors. |
| TrainingGraphs.OnlyForwardIsReported | lib/local-execution/src/local-execution/computation_graph_instance.cc:113-129 | In every order of a training graph, every forward task's timing is reported and no backward task's is. |
| TrainingInstances.TrainingIsReady | lib/task-spec/src/task-spec/dynamic_graph/loss_insertion.cc:16-88 | Nothing that creating and executing an instance checks of the training graph fails when every gradient has one source. |
| TrainingInstances.BuildTrainingGraph | lib/local-execution/src/local-execution/computation_graph_instance.cc:69-83 | The passes succeed exactly when the logits are a tensor of the graph and every gradient has one source, and yield the training graph. |
| LayerExamples.ExampleGradients | lib/task-spec/src/task-spec/dynamic_graph/pass_expansion.cc:113-157 | For an operator that reads an input without gradient and a weight, the gradients of the weight and of the operator's output are needed, and no other. |
| LayerExamples.ExampleCanBeTrained | lib/local-execution/src/local-execution/computation_graph_instance.cc:69-83 | It is a graph of layers, and with that output as logits every gradient has one source. |
| TrainingInstances.CreateFromLayers | lib/local-execution/src/local-execution/computation_graph_instance.cc:61-103 | From layers to instance: it is created exactly when the logits are a layer's output, every gradient has one source and the logits' gradient can be written; it runs the training graph in a topological order, with the given buffers, that of the labels and new ones, and with the init tasks' states, and hands out the buffer of the gradient. |
| TrainingInstances.InstancesTrainAlike | lib/local-execution/src/local-execution/computation_graph_instance.cc:61-219 | With tasks that overwrite only trained tensors, every order of an instance's graph ends in the same store, and running it by phases leaves out the loss and nothing else. |
| TrainingInstances.InstancesTrainAlikeForever | lib/local-execution/src/local-execution/computation_graph_instance.cc:61-219 | Without a loss, any number of iterations in any order, combined or by phases, end in the same store and attributes. |
| InstanceCreation.CreateComputationGraphInstance | lib/local-execution/src/local-execution/computation_graph_instance.cc:61-103 | The instance runs exactly the given graph, in a topological order, and no execution check can fail; a value has one buffer wherever it appears, the preallocated one or a new one of its shape; every operator holds its init task's state; it meets the hypotheses of the run theorems whenever the given graph does, and hands out the writable buffer of the logits' gradient. |
| InstanceCreation.BlankForgets | lib/local-execution/src/local-execution/tensor_allocation.cc:75-94 | What the created graph is compared with: buffers and operator states are forgotten, and nothing else. |
| InstanceCreation.UpdatesIgnoreBuffers | lib/task-spec/src/task-spec/dynamic_graph/update_insertion.cc:46-84 | Which slots an update task overwrites does not depend on buffers or states, as the theorems on instances ask. |
| InstanceCreation.RewritingKeepsOrdering | lib/task-spec/src/task-spec/dynamic_graph/dynamic_open_dataflow_graph.cc:425-435 | A rewriting that changes only buffers and operator states and keeps the wiring keeps overwrites ordered and phases in order. |
| AdjacencyGraphs.AdjacencyDiGraph.AddNode | lib/utils/src/utils/graph/instances/adjacency_digraph.cc:18-22 | One node is added, with an identifier no graph has. |
| AdjacencyGraphs.AdjacencyDiGraph.AddEdge | lib/utils/src/utils/graph/instances/adjacency_digraph.cc:35-38 | One edge is added and nothing else changes. |
| AdjacencyGraphs.ParallelExtend | lib/utils/src/utils/graph/series_parallel/digraph_generation.cc:16-25 | The graph gains a copy of the other on fresh nodes, under a one-to-one renaming, with no edge between. |
| AdjacencyGraphs.JoinedIsAcyclic | bin/sp-ization-benchmarking/src/sp-ization-benchmarking/sample_graphs.cc:111-131 | Edges from one acyclic graph into another keep the union acyclic. |
| AdjacencyGraphs.JoinedIsTwoTerminal | bin/sp-ization-benchmarking/src/sp-ization-benchmarking/sample_graphs.cc:111-133 | Hanging a graph below the only terminal node, with all of its initial nodes fed, keeps a graph two-terminal. |
| AdjacencyGraphs.CrownedIsTwoTerminal | bin/sp-ization-benchmarking/src/sp-ization-benchmarking/sample_graphs.cc:334-344 | A source and a sink make any acyclic graph two-terminal, exactly when it is not empty. |
| AdjacencyGraphs.CrownedEdges | bin/sp-ization-benchmarking/src/sp-ization-benchmarking/sample_graphs.cc:334-343 | The source feeds exactly the nodes that nothing feeds, and exactly the nodes that feed nothing feed the sink. |
| NasnetCells.MakeNormalTasoNasnetCell | bin/sp-ization-benchmarking/src/sp-ization-benchmarking/sample_graphs.cc:17-56 | The builder yields exactly the stated wiring, and its assertions hold. |
| NasnetCells.MakeReductionTasoNasnetCell | bin/sp-ization-benchmarking/src/sp-ization-benchmarking/sample_graphs.cc:58-98 | The same for the reduction cell. |
| NasnetCells.CellEdges | bin/sp-ization-benchmarking/src/sp-ization-benchmarking/sample_graphs.cc:17-98 | What feeds every position of either cell. |
| NasnetCells.PlacedCellIsProper | bin/sp-ization-benchmarking/src/sp-ization-benchmarking/sample_graphs.cc:52-54 | Both cells are acyclic on 18 nodes with the two inputs as initial and the concatenation as terminal node. |
| Nasnet.AddCell | bin/sp-ization-benchmarking/src/sp-ization-benchmarking/sample_graphs.cc:107-135 | An iteration keeps the graph two-terminal and leaves the queues as the previous output, the new output twice, and nothing: none of its assertions fails. |
| Nasnet.BlockWiring | bin/sp-ization-benchmarking/src/sp-ization-benchmarking/sample_graphs.cc:107-114 | A block's 18 distinct nodes are wired like the cell of its kind, from its two inputs to its output. |
| Nasnet.MakeFullTasoNasnet | bin/sp-ization-benchmarking/src/sp-ization-benchmarking/sample_graphs.cc:100-138 | For all sizes the result is two-terminal, and is exactly the input node and a copy of the cell of each iteration, fed by the outputs two and one before it. |
| Nasnet.NasnetHasEdges | bin/sp-ization-benchmarking/src/sp-ization-benchmarking/sample_graphs.cc:116-131 | Every block's earlier input is fed by the output two blocks before it, and its later input by the output of the block before it. |
| Nasnet.NasnetEdgeComesFrom | bin/sp-ization-benchmarking/src/sp-ization-benchmarking/sample_graphs.cc:111-131 | There are no other edges than those and the cells' own. |
| Nasnet.NasnetCellCounts | bin/sp-ization-benchmarking/src/sp-ization-benchmarking/sample_graphs.cc:105-109 | Exactly the requested number of cells are reduction cells, the other N times (that number + 1) normal ones. |
| RandomDags.MakeTwoTerminalRandomDag | bin/sp-ization-benchmarking/src/sp-ization-benchmarking/sample_graphs.cc:323-346 | For every sampler outcome and step, narrowed as in the source, the closing assertion holds exactly when there are three nodes and the sampled graph has no cycle; the inner edges are exactly the sampled ones. |
| RandomDags.ColumnsOfRow | bin/sp-ization-benchmarking/src/sp-ization-benchmarking/sample_graphs.cc:328 | Row i looks at the columns from the signed 32-bit number congruent to i + step + 1, and at none when that is negative. |
| RandomDags.ColumnsWithoutWrap | bin/sp-ization-benchmarking/src/sp-ization-benchmarking/sample_graphs.cc:328 | While that number does not wrap, at exactly the columns more than step to the right. |
| RandomDags.AcyclicForEverySampler | bin/sp-ization-benchmarking/src/sp-ization-benchmarking/sample_graphs.cc:327-333 | The inner graph has no cycle for every sampler exactly when the step does not wrap around. |
| ParallelChains.MakeParallelChains | bin/sp-ization-benchmarking/src/sp-ization-benchmarking/sample_graphs.cc:204-228 | Exactly for valid arguments the result is the requested separate chains between source and sink, two-terminal, with every path of the requested length. |
| ParallelChains.ChainEnds | bin/sp-ization-benchmarking/src/sp-ization-benchmarking/sample_graphs.cc:222-225 | The chains' fronts and backs are the inner graph's initial and terminal nodes. |

## Left out

- Floating-point rounding and 32-bit overflow of index arithmetic inside kernels; the overflow of the launch size is modelled.
- Transcendental element-wise kernels, and the CPU kernels that the source leaves unimplemented.
- Device streams, profiling timers (an arbitrary clock parameter here), data-type dispatch, printing.
- Adam's step size is an arbitrary function, since it takes a square root.
- Copy insertion and shard expansion: the training graphs are those of computation graphs, which have no copy and no parallel operator. The expansion of copy and replicate layers is stated slot by slot (`PassExpansion.ForwardSlots`, `PassExpansion.BackwardSlotsOfMoves`), and the theorems on training graphs do not cover them.
- The construction of a computation graph's layers (`lib/task-spec/src/task-spec/dynamic_graph/make_dynamic_open_dataflow_graph_from_cg.cc`): they are given.
- Parallel tensor shapes: a value carries the shape of its piece on this device.
- `map_tensor_accessors3`, which repeats the two-input map with one more input.
- RandomDags.MakeTwoTerminalRandomDag: does not model fewer than two nodes, where the unsigned subtraction in the source wraps around, nor more inner nodes than 2^31 - 1, where its loop index overflows.
- TensorKernels.MatmulTo: requires an output with at most as many cells as the product, since the closing copy would read beyond the product otherwise.
- TensorKernels.BatchMatmulTo: requires the same, and the batch size that the source checks.
- LinearKernels.LinearForward: requires the same of its output as the product does.
- ReverseKernels.ReverseForward: requires an output in whose bounds the input's coordinates lie, as the source's access check does.
- Sgd.CpuSgdUpdateTask: requires the velocity buffer to be another than the weight's, without which the two forms of the update differ.
- UpsampleKernels.UpsampleForward: does not model output shapes of fewer than two dimensions, where the relative indices are undefined, nor what a run that leaves its bounds has written before.
- The NASBench cell generator, the series-parallel generators and the fixed sample graphs.
- The Unity and MCMC search, the Python bindings and the Legion backend.
