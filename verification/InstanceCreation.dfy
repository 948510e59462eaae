/** Creating an instance: allocate the graph's tensors, initialize its operators, and fix one
    topological ordering of the result for good. */
module InstanceCreation {
  import opened Digraphs
  import opened DynamicGraphs
  import opened Options
  import opened LocalExecution

  /** What executing an invocation checks, apart from its buffers. */
  ghost predicate Prepared(i: Invocation) {
    && (forall s :: s in i.inputs || s in i.outputs ==> s.role.Some?)
    && (forall s, t :: s in i.inputs && t in i.inputs && ParameterOf(s) == ParameterOf(t) ==> s == t)
    && (forall s, t :: s in i.outputs && t in i.outputs && ParameterOf(s) == ParameterOf(t) ==> s == t)
    && (forall s, t :: s in i.inputs && t in i.outputs ==> ParameterOf(s) != ParameterOf(t))
    && i.node.taskType.Some?
    && (i.node.taskType.value in {FWD, BWD} ==> HasOperator(i) && i.node.opAttrs.value.isComputation)
  }

  /** An invocation with its buffers and its operator state forgotten. */
  function Blank(i: Invocation): Invocation {
    EraseInvocation(EraseState(i))
  }

  /** Nothing else is forgotten. */
  lemma BlankForgets(i: Invocation)
    ensures Blank(i).node == i.node.(opState := None)
    ensures Blank(i).inputs.Keys == i.inputs.Keys && Blank(i).outputs.Keys == i.outputs.Keys
    ensures forall s :: s in i.inputs ==> Blank(i).inputs[s] == i.inputs[s].(accessor := None)
    ensures forall s :: s in i.outputs ==> Blank(i).outputs[s] == i.outputs[s].(accessor := None)
  {
  }

  /** The preallocated buffers are distinct blocks that are already in use. */
  ghost predicate PreallocatedDistinct(preallocated: map<ValueAttrs, Accessor>, live: set<Ptr>) {
    && (forall v :: v in preallocated ==> preallocated[v].ptr in live)
    && (forall v, w :: v in preallocated && w in preallocated && v != w ==> preallocated[v].ptr != preallocated[w].ptr)
  }

  /** What creating an instance checks of a graph. */
  ghost predicate ReadyToRun(dg: DynamicGraph) {
    && NoTensorsAllocated(dg) && ReadyForAllocation(dg) && NoNodesInitialized(dg) && ValidGraph(dg)
    && forall i :: i in dg ==> Prepared(i) && (HasOperator(i) ==> i.node.opAttrs.value.isComputation)
  }

  /** Which inputs a task overwrites does not depend on buffers or operator states. */
  ghost predicate IgnoresBuffers(inPlace: InPlace) {
    forall i, j :: Blank(i) == Blank(j) ==> inPlace(i) == inPlace(j)
  }

  /** The update tasks, for one, overwrite the same slots whatever their buffers. */
  lemma UpdatesIgnoreBuffers()
    ensures IgnoresBuffers(UpdatedInPlace)
  {
    forall i, j | Blank(i) == Blank(j) ensures UpdatedInPlace(i) == UpdatedInPlace(j) {
      BlankForgets(i);
      BlankForgets(j);
      assert i.inputs.Keys == j.inputs.Keys && i.node.taskType == j.node.taskType;
    }
  }

  /** What the run theorems ask of a graph. */
  ghost predicate KeepsRunnable(dg: DynamicGraph, g: DynamicGraph) {
    && (forall inPlace :: IgnoresBuffers(inPlace) && OverwritesOrdered(dg, inPlace) ==> OverwritesOrdered(g, inPlace))
    && (PhasesForward(dg) ==> PhasesForward(g))
  }

  /** g is the graph dg with buffers and operator states: forgetting them gives dg back. */
  ghost predicate IsCreatedFrom(dg: DynamicGraph, g: DynamicGraph) {
    && (set i | i in g :: Blank(i)) == dg && |g| == |dg|
    && ValidGraph(g) && AllTensorsAllocated(g) && KeepsRunnable(dg, g)
  }

  /** The logits' gradient is produced somewhere, it is the only output that goes by its name, and
      the buffer that it may be given can be written. */
  ghost predicate GradientIsFound(dg: DynamicGraph, preallocated: map<ValueAttrs, Accessor>, logitGrad: ValueAttrs) {
    && logitGrad in Produced(dg)
    && (forall v :: v in Produced(dg) && SameTensor(v, logitGrad) && v.role == logitGrad.role ==> v == logitGrad)
    && (logitGrad in preallocated ==> preallocated[logitGrad].WriteAccessor?)
  }

  /** The instance runs exactly the given graph: forgetting buffers and operator state gives it
      back, the order is topological for its dataflow, no check made during execution can
      fail, and distinct values have distinct buffers: the preallocated ones, and new ones of the
      right shape for all others. Every operator holds the state that its init task returned. The
      instance hands out the buffer of the logits' gradient. */
  method CreateComputationGraphInstance(
      dg: DynamicGraph, preallocated: map<ValueAttrs, Accessor>, logitGrad: Option<ValueAttrs>,
      allocator: LocalAllocator,
      memory: DeviceMemory, attrs: OptimizerAttrs, stepSize: StepSize, initTask: Invocation -> Option<nat>)
    returns (instance: ComputationGraphInstance, g: DynamicGraph)
    requires ReadyToRun(dg) && forall v :: v in preallocated ==> v.accessor.None?
    requires logitGrad.Some? ==> GradientIsFound(dg, preallocated, logitGrad.value)
    modifies allocator
    ensures fresh(instance) && instance.memory == memory && instance.optimizerAttrs == attrs
    ensures instance.stepSize == stepSize
    ensures IsCreatedFrom(dg, g)
    ensures forall i :: i in g ==>
      i.node.opState == if i.node.opAttrs.Some? && i.node.opAttrs.value.PcgOp?
        then initTask(Invocation(i.inputs, i.node.(opState := None), i.outputs)) else None
    ensures forall v :: v in GraphValues(g) ==>
      if v.(accessor := None) in preallocated then v.accessor == Some(preallocated[v.(accessor := None)])
      else
        && v.accessor.Some? && v.accessor.value.WriteAccessor? && v.pieceDims == Some(v.accessor.value.dims)
        && v.accessor.value.ptr in allocator.ptrs - old(allocator.ptrs)
    ensures forall v, w ::
      v in GraphValues(g) && w in GraphValues(g) && v.(accessor := None) == w.(accessor := None) ==> v == w
    ensures IsTopologicalOrdering(DataflowGraph(g), instance.executionOrder)
    ensures instance.Ready()
    ensures PreallocatedDistinct(preallocated, old(allocator.ptrs) + allocator.elsewhere) ==> BuffersDistinct(g)
    ensures IsBufferOf(g, logitGrad, instance.logitGradTensor)
    ensures instance.logitGradTensor.Some? <==> logitGrad.Some?
    ensures logitGrad.Some? ==>
      && instance.logitGradTensor.value.WriteAccessor?
      && exists v :: v in GraphValues(g) && v.(accessor := None) == logitGrad.value &&
           v.accessor == instance.logitGradTensor
  {
    var logitGradTensor;
    g, logitGradTensor := CreateGraph(dg, preallocated, logitGrad, allocator, initTask);
    var order := OrderGraph(dg, g);
    instance := new ComputationGraphInstance(order, memory, attrs, stepSize, logitGradTensor);
  }

  /** The buffer of the value, which can be written. */
  ghost predicate IsBufferOf(g: DynamicGraph, value: Option<ValueAttrs>, tensor: Option<Accessor>) {
    && (value.Some? <==> tensor.Some?)
    && (tensor.Some? ==> tensor.value.WriteAccessor?)
    && (value.Some? ==> exists v :: v in GraphValues(g) && EraseValue(v) == value.value && v.accessor == tensor)
  }

  /** The graph an instance runs. */
  method CreateGraph(
      dg: DynamicGraph, preallocated: map<ValueAttrs, Accessor>, logitGrad: Option<ValueAttrs>,
      allocator: LocalAllocator,
      initTask: Invocation -> Option<nat>)
    returns (g: DynamicGraph, logitGradTensor: Option<Accessor>)
    requires ReadyToRun(dg) && forall v :: v in preallocated ==> v.accessor.None?
    requires logitGrad.Some? ==> GradientIsFound(dg, preallocated, logitGrad.value)
    modifies allocator
    ensures IsCreatedFrom(dg, g)
    ensures forall i :: i in g ==>
      i.node.opState == if i.node.opAttrs.Some? && i.node.opAttrs.value.PcgOp?
        then initTask(Invocation(i.inputs, i.node.(opState := None), i.outputs)) else None
    ensures forall v :: v in GraphValues(g) ==>
      if v.(accessor := None) in preallocated then v.accessor == Some(preallocated[v.(accessor := None)])
      else
        && v.accessor.Some? && v.accessor.value.WriteAccessor? && v.pieceDims == Some(v.accessor.value.dims)
        && v.accessor.value.ptr in allocator.ptrs - old(allocator.ptrs)
    ensures forall v, w ::
      v in GraphValues(g) && w in GraphValues(g) && v.(accessor := None) == w.(accessor := None) ==> v == w
    ensures PreallocatedDistinct(preallocated, old(allocator.ptrs) + allocator.elsewhere) ==> BuffersDistinct(g)
    ensures IsBufferOf(g, logitGrad, logitGradTensor)
  {
    ghost var m, live;
    g, m, live, logitGradTensor := AllocateAndInitialize(dg, preallocated, logitGrad, allocator, initTask);
    CreatedGraph(dg, m, preallocated, live, allocator.ptrs, g, initTask);
    CreatedStates(dg, m, preallocated, live, allocator.ptrs, g, initTask);
    CreatedBuffers(dg, m, preallocated, live, allocator.ptrs, g, initTask);
    CreatedShares(dg, m, preallocated, live, allocator.ptrs, g, initTask);
    if logitGrad.Some? {
      CreatedHasValue(dg, m, preallocated, live, allocator.ptrs, g, initTask, logitGrad.value);
    }
  }

  /** Building the dataflow graph of a valid graph succeeds, and its nodes can be ordered. */
  method OrderGraph(ghost dg: DynamicGraph, g: DynamicGraph) returns (order: seq<Invocation>)
    requires (set i | i in g :: Blank(i)) == dg && AllTensorsAllocated(g) && ValidGraph(g)
    requires forall i :: i in dg ==> Prepared(i)
    ensures IsTopologicalOrdering(DataflowGraph(g), order)
    ensures forall i :: i in order ==> Executable(i)
  {
    var added := AddAllInvocations(g);
    assert added.Some?;
    DataflowGraphIsWellFormed(g);
    order := GetTopologicalOrdering(DataflowGraph(g));
    OrderIsExecutable(dg, g, order);
  }

  /** The buffer of the output with the given tensor and role. */
  method GetLossTensorAccessor(g: DynamicGraph, value: ValueAttrs) returns (tensor: Accessor)
    requires exists v :: v in Produced(g) && SameTensor(v, value) && v.role == value.role
    requires forall v :: v in Produced(g) && SameTensor(v, value) && v.role == value.role ==>
      v.accessor.Some? && v.accessor.value.WriteAccessor?
    ensures exists v :: v in Produced(g) && SameTensor(v, value) && v.role == value.role && v.accessor == Some(tensor)
  {
    var v :| v in Produced(g) && SameTensor(v, value) && v.role == value.role;
    tensor := v.accessor.value;
  }

  lemma CreatedGraph(
      dg: DynamicGraph, m: map<ValueAttrs, ValueAttrs>, preallocated: map<ValueAttrs, Accessor>, live: set<Ptr>,
      after: set<Ptr>,
      g: DynamicGraph, initTask: Invocation -> Option<nat>)
    requires IsCreated(dg, m, preallocated, live, after, g, initTask)
    ensures (set i | i in g :: Blank(i)) == dg && |g| == |dg| && ValidGraph(g) && AllTensorsAllocated(g)
    ensures PreallocatedDistinct(preallocated, live) ==> BuffersDistinct(g)
    ensures KeepsRunnable(dg, g)
  {
    CreatedIsValid(dg, m, preallocated, live, after, g, initTask);
    CreatedBuffersDistinct(dg, m, preallocated, live, after, g, initTask);
    CreatedKeepsOrdering(dg, m, preallocated, live, after, g, initTask);
  }

  lemma CreatedStates(
      dg: DynamicGraph, m: map<ValueAttrs, ValueAttrs>, preallocated: map<ValueAttrs, Accessor>, live: set<Ptr>,
      after: set<Ptr>,
      g: DynamicGraph, initTask: Invocation -> Option<nat>)
    requires IsCreated(dg, m, preallocated, live, after, g, initTask)
    ensures forall i :: i in g ==>
      i.node.opState == if i.node.opAttrs.Some? && i.node.opAttrs.value.PcgOp?
        then initTask(Invocation(i.inputs, i.node.(opState := None), i.outputs)) else None
  {
    var a := AllocatedGraph(dg, m);
    ErasingAllocation(dg, m);
    AllocationKeepsNodes(dg, a);
    InitializedStates(a, initTask);
  }

  /** A value with a preallocated buffer has that one; every other value has a new one. */
  lemma CreatedBuffers(
      dg: DynamicGraph, m: map<ValueAttrs, ValueAttrs>, preallocated: map<ValueAttrs, Accessor>, live: set<Ptr>,
      after: set<Ptr>,
      g: DynamicGraph, initTask: Invocation -> Option<nat>)
    requires IsCreated(dg, m, preallocated, live, after, g, initTask)
    ensures forall v :: v in GraphValues(g) ==>
      if v.(accessor := None) in preallocated then v.accessor == Some(preallocated[v.(accessor := None)])
      else
        && v.accessor.Some? && v.accessor.value.WriteAccessor? && v.pieceDims == Some(v.accessor.value.dims)
        && v.accessor.value.ptr in after - live
  {
    CreatedErases(dg, m, preallocated, live, after, g, initTask);
    forall v | v in GraphValues(g)
      ensures if v.(accessor := None) in preallocated then v.accessor == Some(preallocated[v.(accessor := None)])
        else
          && v.accessor.Some? && v.accessor.value.WriteAccessor? && v.pieceDims == Some(v.accessor.value.dims)
          && v.accessor.value.ptr in after - live
    {
      var w := CreatedValue(dg, m, AllocatedGraph(dg, m), g, v);
      PlacedBuffer(m, preallocated, live, after, w);
    }
  }

  /** A value has the same buffer wherever it appears. */
  lemma CreatedShares(
      dg: DynamicGraph, m: map<ValueAttrs, ValueAttrs>, preallocated: map<ValueAttrs, Accessor>, live: set<Ptr>,
      after: set<Ptr>,
      g: DynamicGraph, initTask: Invocation -> Option<nat>)
    requires IsCreated(dg, m, preallocated, live, after, g, initTask)
    ensures forall v, w ::
      v in GraphValues(g) && w in GraphValues(g) && v.(accessor := None) == w.(accessor := None) ==> v == w
  {
    CreatedErases(dg, m, preallocated, live, after, g, initTask);
    forall v | v in GraphValues(g) ensures v.(accessor := None) in m && m[v.(accessor := None)] == v {
      var w := CreatedValue(dg, m, AllocatedGraph(dg, m), g, v);
      PlacedBuffer(m, preallocated, live, after, w);
    }
  }

  lemma PlacedBuffer(
      m: map<ValueAttrs, ValueAttrs>, preallocated: map<ValueAttrs, Accessor>, live: set<Ptr>, after: set<Ptr>,
      v: ValueAttrs)
    requires IsAllocation(m, preallocated, live, after) && v in m
    ensures m[v].(accessor := None) == v
    ensures if v in preallocated then m[v].accessor == Some(preallocated[v])
      else
        && m[v].accessor.Some? && m[v].accessor.value.WriteAccessor?
        && m[v].pieceDims == Some(m[v].accessor.value.dims)
        && m[v].accessor.value.ptr in after - live
  {
    assert EraseValue(m[v]) == v;
  }

  lemma OrderIsExecutable(dg: DynamicGraph, g: DynamicGraph, order: seq<Invocation>)
    requires (set i | i in g :: Blank(i)) == dg && AllTensorsAllocated(g) && forall i :: i in dg ==> Prepared(i)
    requires forall i :: i in order ==> i in g
    ensures forall i :: i in order ==> Executable(i)
  {
    forall i | i in order ensures Executable(i) {
      assert Blank(i) in dg;
      PreparedIsExecutable(g, i);
    }
  }

  /** g is the graph with buffers placed by m and operator states from the init tasks. */
  ghost predicate IsCreated(
      dg: DynamicGraph, m: map<ValueAttrs, ValueAttrs>, preallocated: map<ValueAttrs, Accessor>, live: set<Ptr>,
      after: set<Ptr>,
      g: DynamicGraph, initTask: Invocation -> Option<nat>)
  {
    && ValidGraph(dg) && NoNodesInitialized(dg) && m.Keys == GraphValues(dg) &&
      IsAllocation(m, preallocated, live, after)
    && g == Rewritten(AllocatedGraph(dg, m), InitializationRewriting(AllocatedGraph(dg, m), initTask))
  }

  /** Gives the graph its buffers, looks up the logits' gradient, and gives the graph its operator
      states. */
  method AllocateAndInitialize(
      dg: DynamicGraph, preallocated: map<ValueAttrs, Accessor>, logitGrad: Option<ValueAttrs>,
      allocator: LocalAllocator,
      initTask: Invocation -> Option<nat>)
    returns (g: DynamicGraph, ghost m: map<ValueAttrs, ValueAttrs>, ghost live: set<Ptr>,
      logitGradTensor: Option<Accessor>)
    requires ReadyToRun(dg) && forall v :: v in preallocated ==> v.accessor.None?
    requires logitGrad.Some? ==> GradientIsFound(dg, preallocated, logitGrad.value)
    modifies allocator
    ensures live == old(allocator.ptrs) + allocator.elsewhere
    ensures IsCreated(dg, m, preallocated, live, allocator.ptrs, g, initTask)
    ensures logitGrad.Some? <==> logitGradTensor.Some?
    ensures logitGrad.Some? ==>
      logitGrad.value in m && m[logitGrad.value].accessor == logitGradTensor && logitGradTensor.value.WriteAccessor?
  {
    live := allocator.ptrs + allocator.elsewhere;
    var allocatedGraph, placed := PerformTensorAllocation(dg, preallocated, allocator);
    m := placed;
    logitGradTensor := None;
    if logitGrad.Some? {
      GradientIsPlaced(dg, m, preallocated, live, allocator.ptrs, logitGrad.value);
      var tensor := GetLossTensorAccessor(allocatedGraph, logitGrad.value);
      logitGradTensor := Some(tensor);
    }
    AllocationKeepsNodes(dg, allocatedGraph);
    AllAllocatedIn(allocatedGraph);
    g := PerformPerDeviceOpStateInitialization(allocatedGraph, initTask);
  }

  lemma AllAllocatedIn(g: DynamicGraph)
    requires AllTensorsAllocated(g)
    ensures forall i :: i in g ==> AllTensorsAllocated({i})
  {
    forall i, v | i in g && v in GraphValues({i}) ensures v.accessor.Some? {
      assert v in GraphValues(g);
    }
  }

  lemma AllocatedOutput(g: DynamicGraph, m: map<ValueAttrs, ValueAttrs>, w: ValueAttrs) returns (v: ValueAttrs)
    requires m.Keys == GraphValues(g) && w in Produced(AllocatedGraph(g, m))
    ensures v in Produced(g) && v in m && w == m[v]
  {
    var i :| i in AllocatedGraph(g, m) && w in i.outputs.Values;
    var j :| j in g && AllocationRewriting(g, m)[j] == i;
    var s :| s in i.outputs && i.outputs[s] == w;
    v := j.outputs[s];
    assert v in j.outputs.Values && v in ValuesOf(j);
  }

  lemma OutputIsAllocated(g: DynamicGraph, m: map<ValueAttrs, ValueAttrs>, v: ValueAttrs)
    requires m.Keys == GraphValues(g) && v in Produced(g)
    ensures v in m && m[v] in Produced(AllocatedGraph(g, m))
  {
    var j :| j in g && v in j.outputs.Values;
    var s :| s in j.outputs && j.outputs[s] == v;
    assert v in ValuesOf(j);
    var i := AllocationRewriting(g, m)[j];
    assert i in AllocatedGraph(g, m) && i.outputs[s] == m[v] && i.outputs[s] in i.outputs.Values;
  }

  /** Looking up the logits' gradient after allocation finds its buffer, and that one only. */
  lemma GradientIsPlaced(
      dg: DynamicGraph, m: map<ValueAttrs, ValueAttrs>, preallocated: map<ValueAttrs, Accessor>, live: set<Ptr>,
      after: set<Ptr>,
      logitGrad: ValueAttrs)
    requires m.Keys == GraphValues(dg) && IsAllocation(m, preallocated, live, after)
    requires GradientIsFound(dg, preallocated, logitGrad)
    ensures var a := AllocatedGraph(dg, m);
      && logitGrad in m && m[logitGrad].accessor.Some? && m[logitGrad].accessor.value.WriteAccessor?
      && m[logitGrad] in Produced(a) && SameTensor(m[logitGrad], logitGrad) && m[logitGrad].role == logitGrad.role
      && forall w :: w in Produced(a) && SameTensor(w, logitGrad) && w.role == logitGrad.role ==> w == m[logitGrad]
  {
    OutputIsAllocated(dg, m, logitGrad);
    PlacedKeepsName(m, logitGrad);
    forall w | w in Produced(AllocatedGraph(dg, m)) && SameTensor(w, logitGrad) && w.role == logitGrad.role
      ensures w == m[logitGrad]
    {
      var v := AllocatedOutput(dg, m, w);
      PlacedKeepsName(m, v);
      assert SameTensor(v, logitGrad);
    }
  }

  lemma PlacedKeepsName(m: map<ValueAttrs, ValueAttrs>, v: ValueAttrs)
    requires GivesAccessors(m) && v in m
    ensures SameTensor(m[v], v) && m[v].role == v.role && m[v].accessor.Some? && EraseValue(m[v]) == v
  {
  }

  /** The value, with its buffer, is in the created graph. */
  lemma CreatedHasValue(
      dg: DynamicGraph, m: map<ValueAttrs, ValueAttrs>, preallocated: map<ValueAttrs, Accessor>, live: set<Ptr>,
      after: set<Ptr>,
      g: DynamicGraph, initTask: Invocation -> Option<nat>, v: ValueAttrs)
    requires IsCreated(dg, m, preallocated, live, after, g, initTask) && v in Produced(dg)
    ensures v in m && m[v] in GraphValues(g) && EraseValue(m[v]) == v
  {
    OutputIsAllocated(dg, m, v);
    PlacedKeepsName(m, v);
    CreatedErases(dg, m, preallocated, live, after, g, initTask);
    StatesKeepValues(AllocatedGraph(dg, m), g, m[v]);
  }

  lemma StatesKeepValues(a: DynamicGraph, g: DynamicGraph, v: ValueAttrs)
    requires (set i | i in g :: EraseState(i)) == a && v in Produced(a)
    ensures v in GraphValues(g)
  {
    var i :| i in a && v in i.outputs.Values;
    var j :| j in g && EraseState(j) == i;
    assert v in ValuesOf(j);
  }

  lemma AllocationKeepsNodes(dg: DynamicGraph, a: DynamicGraph)
    requires EraseGraph(a) == dg && NoNodesInitialized(dg)
    ensures NoNodesInitialized(a)
    ensures (forall i :: i in dg && HasOperator(i) ==> i.node.opAttrs.value.isComputation)
      ==> forall i :: i in a && HasOperator(i) ==> i.node.opAttrs.value.isComputation
  {
    forall i | i in a
      ensures i.node.opState.None?
      ensures exists j :: j in dg && j.node == i.node
    {
      assert EraseInvocation(i) in EraseGraph(a);
    }
  }

  lemma CreatedIsValid(
      dg: DynamicGraph, m: map<ValueAttrs, ValueAttrs>, preallocated: map<ValueAttrs, Accessor>, live: set<Ptr>,
      after: set<Ptr>,
      g: DynamicGraph, initTask: Invocation -> Option<nat>)
    requires IsCreated(dg, m, preallocated, live, after, g, initTask)
    ensures (set i | i in g :: Blank(i)) == dg && |g| == |dg| && ValidGraph(g) && AllTensorsAllocated(g)
  {
    var a := AllocatedGraph(dg, m);
    AllocationKeepsGraph(dg, m);
    AllocationKeepsNodes(dg, a);
    InitializationKeepsGraph(a, initTask);
    BlankGraph(dg, a, g);
    RewritingKeepsValidity(dg, AllocationRewriting(dg, m));
  }

  lemma CreatedKeepsOrdering(
      dg: DynamicGraph, m: map<ValueAttrs, ValueAttrs>, preallocated: map<ValueAttrs, Accessor>, live: set<Ptr>,
      after: set<Ptr>,
      g: DynamicGraph, initTask: Invocation -> Option<nat>)
    requires IsCreated(dg, m, preallocated, live, after, g, initTask)
    ensures KeepsRunnable(dg, g)
  {
    var a := AllocatedGraph(dg, m);
    AllocationKeepsGraph(dg, m);
    AllocationKeepsNodes(dg, a);
    InitializationKeepsWiring(a, initTask);
    CreationKeepsOrdering(dg, m, a, initTask);
  }

  lemma CreationKeepsOrdering(
      dg: DynamicGraph, m: map<ValueAttrs, ValueAttrs>, a: DynamicGraph, initTask: Invocation -> Option<nat>)
    requires NoNodesInitialized(dg) && NoNodesInitialized(a)
    requires m.Keys == GraphValues(dg) && GivesAccessors(m) && a == AllocatedGraph(dg, m)
    requires KeepsWiring(dg, AllocationRewriting(dg, m)) && KeepsWiring(a, InitializationRewriting(a, initTask))
    ensures KeepsRunnable(dg, Rewritten(a, InitializationRewriting(a, initTask)))
  {
    AllocationBlanksAlike(dg, m);
    InitializationBlanksAlike(a, initTask);
    RewritingKeepsOrdering(dg, AllocationRewriting(dg, m));
    RewritingKeepsOrdering(a, InitializationRewriting(a, initTask));
  }

  lemma AllocationBlanksAlike(dg: DynamicGraph, m: map<ValueAttrs, ValueAttrs>)
    requires NoNodesInitialized(dg) && m.Keys == GraphValues(dg) && GivesAccessors(m)
    ensures forall i :: i in dg ==> SameBlank(i, AllocationRewriting(dg, m)[i])
  {
    forall i | i in dg ensures SameBlank(i, AllocationRewriting(dg, m)[i]) {
      CoversInvocation(dg, m, i);
      EraseAllocated(i, m);
      ValuesAreErased(i, m);
    }
  }

  /** The two invocations differ at most in buffers and operator states. */
  ghost predicate SameBlank(i: Invocation, j: Invocation) {
    Blank(i) == Blank(j)
  }

  lemma ValuesAreErased(i: Invocation, m: map<ValueAttrs, ValueAttrs>)
    requires i.node.opState.None? && ValuesOf(i) <= m.Keys && GivesAccessors(m)
    requires EraseInvocation(AllocatedInvocation(i, m)) == i
    ensures SameBlank(i, AllocatedInvocation(i, m))
  {
    var e := EraseInvocation(EraseState(i));
    forall s | s in i.inputs ensures e.inputs[s] == i.inputs[s] {
      assert i.inputs[s] in i.inputs.Values && EraseValue(m[i.inputs[s]]) == i.inputs[s];
    }
    forall s | s in i.outputs ensures e.outputs[s] == i.outputs[s] {
      assert i.outputs[s] in i.outputs.Values && EraseValue(m[i.outputs[s]]) == i.outputs[s];
    }
    assert e.inputs == i.inputs && e.outputs == i.outputs;
  }

  lemma InitializationBlanksAlike(a: DynamicGraph, initTask: Invocation -> Option<nat>)
    requires NoNodesInitialized(a)
    ensures forall i :: i in a ==> SameBlank(i, InitializationRewriting(a, initTask)[i])
  {
    forall i | i in a ensures SameBlank(i, InitializationRewriting(a, initTask)[i]) {
      assert EraseState(InitializeNode(i, initTask)) == EraseState(i);
    }
  }

  /** A rewriting that changes only buffers and operator states, and keeps the wiring, keeps what the
      run theorems ask of a graph. */
  lemma RewritingKeepsOrdering(g: DynamicGraph, f: map<Invocation, Invocation>)
    requires KeepsWiring(g, f) && forall i :: i in g ==> SameBlank(i, f[i])
    ensures KeepsRunnable(g, Rewritten(g, f))
  {
    forall inPlace | IgnoresBuffers(inPlace) && OverwritesOrdered(g, inPlace)
      ensures OverwritesOrdered(Rewritten(g, f), inPlace)
    {
      RewritingKeepsOverwrites(g, f, inPlace);
    }
    if PhasesForward(g) {
      forall i | i in g ensures f[i].node.taskType == i.node.taskType { assert SameBlank(i, f[i]); }
      RewritingKeepsPhases(g, f);
    }
  }

  lemma RewritingKeepsOverwrites(g: DynamicGraph, f: map<Invocation, Invocation>, inPlace: InPlace)
    requires KeepsWiring(g, f) && forall i :: i in g ==> SameBlank(i, f[i])
    requires IgnoresBuffers(inPlace) && OverwritesOrdered(g, inPlace)
    ensures OverwritesOrdered(Rewritten(g, f), inPlace)
  {
    var h := Rewritten(g, f);
    forall u', s, i' | u' in h && Overwrites(inPlace, u', s) && i' in h && i' != u' && u'.inputs[s] in ValuesOf(i')
      && WritesSomething(inPlace, i')
      ensures Ordered(h, u', i')
    {
      var u :| u in g && f[u] == u';
      var i :| i in g && f[i] == i';
      UserStays(g, f, u, s, i);
      StillWrites(g, f, inPlace, u, i, s);
      OrderStays(g, f, u, i);
    }
  }

  lemma StillWrites(
      g: DynamicGraph, f: map<Invocation, Invocation>, inPlace: InPlace, u: Invocation, i: Invocation, s: TensorSlot)
    requires KeepsWiring(g, f) && u in g && i in g && SameBlank(u, f[u]) && SameBlank(i, f[i])
    requires IgnoresBuffers(inPlace)
    requires Overwrites(inPlace, f[u], s) && WritesSomething(inPlace, f[i])
    ensures Overwrites(inPlace, u, s) && WritesSomething(inPlace, i)
  {
    assert WiredAlike(u, u, f[u], f[u]) && WiredAlike(i, i, f[i], f[i]);
    assert inPlace(u) == inPlace(f[u]) && inPlace(i) == inPlace(f[i]);
    if f[i].outputs != map[] {
      SameKeysEmpty(i.outputs, f[i].outputs);
    } else {
      var r :| Overwrites(inPlace, f[i], r);
      assert Overwrites(inPlace, i, r);
    }
  }

  lemma SameKeysEmpty(x: map<TensorSlot, ValueAttrs>, y: map<TensorSlot, ValueAttrs>)
    requires x.Keys == y.Keys && y != map[]
    ensures x != map[]
  {
    assert exists s :: s in y;
  }

  lemma OrderStays(g: DynamicGraph, f: map<Invocation, Invocation>, u: Invocation, i: Invocation)
    requires KeepsWiring(g, f) && u in g && i in g && Ordered(g, u, i)
    ensures Ordered(Rewritten(g, f), f[u], f[i])
  {
    if Reaches(DataflowGraph(g), u, i) {
      RewritingKeepsReaches(g, f, u, i);
    } else {
      RewritingKeepsReaches(g, f, i, u);
    }
  }

  lemma RewritingKeepsPhases(g: DynamicGraph, f: map<Invocation, Invocation>)
    requires KeepsWiring(g, f) && forall i :: i in g ==> f[i].node.taskType == i.node.taskType
    requires PhasesForward(g)
    ensures PhasesForward(Rewritten(g, f))
  {
    forall a', b' | a' in Rewritten(g, f) && b' in Rewritten(g, f) && Feeds(a', b')
      ensures PhaseRank(a') <= PhaseRank(b')
    {
      PhaseStays(g, f, a', b');
    }
  }

  lemma PhaseStays(g: DynamicGraph, f: map<Invocation, Invocation>, a': Invocation, b': Invocation)
    requires KeepsWiring(g, f) && PhasesForward(g) && a' in Rewritten(g, f) && b' in Rewritten(g, f) && Feeds(a', b')
    requires forall i :: i in g ==> f[i].node.taskType == i.node.taskType
    ensures PhaseRank(a') <= PhaseRank(b')
  {
    var a :| a in g && f[a] == a';
    var b :| b in g && f[b] == b';
    FedBefore(g, f, a, b);
  }

  lemma FedBefore(g: DynamicGraph, f: map<Invocation, Invocation>, a: Invocation, b: Invocation)
    requires KeepsWiring(g, f) && a in g && b in g && Feeds(f[a], f[b])
    ensures Feeds(a, b)
  {
    assert WiredAlike(a, b, f[a], f[b]);
    FeedsAlike(a, b, f[a], f[b]);
  }

  lemma UserStays(g: DynamicGraph, f: map<Invocation, Invocation>, u: Invocation, s: TensorSlot, i: Invocation)
    requires KeepsWiring(g, f) && u in g && i in g && s in f[u].inputs && f[u].inputs[s] in ValuesOf(f[i])
    ensures s in u.inputs && u.inputs[s] in ValuesOf(i)
  {
    assert WiredAlike(u, i, f[u], f[i]) && WiredAlike(i, u, f[i], f[u]);
    if f[u].inputs[s] in f[i].inputs.Values {
      var t :| t in f[i].inputs && f[i].inputs[t] == f[u].inputs[s];
      assert u.inputs[s] == i.inputs[t];
    } else {
      var t :| t in f[i].outputs && f[i].outputs[t] == f[u].inputs[s];
      assert i.outputs[t] == u.inputs[s];
    }
  }

  lemma RewritingKeepsReaches(g: DynamicGraph, f: map<Invocation, Invocation>, a: Invocation, b: Invocation)
    requires KeepsWiring(g, f) && Reaches(DataflowGraph(g), a, b)
    ensures a in g && b in g && Reaches(DataflowGraph(Rewritten(g, f)), f[a], f[b])
  {
    var w :| WalkBetween(DataflowGraph(g), w, a, b);
    DataflowGraphIsWellFormed(g);
    WalkStaysInside(DataflowGraph(g), w);
    RewritingKeepsEdges(g, f);
    var v := seq(|w|, k requires 0 <= k < |w| => f[w[k]]);
    ImageOfWalk(DataflowGraph(g), DataflowGraph(Rewritten(g, f)), f, w, v);
    assert WalkBetween(DataflowGraph(Rewritten(g, f)), v, f[a], f[b]);
  }

  lemma WalkStaysInside<N(!new)>(g: Digraph<N>, w: seq<N>)
    requires WellFormed(g) && IsWalk(g, w) && |w| >= 2
    ensures forall k :: 0 <= k < |w| ==> w[k] in g.nodes
  {
    forall k | 0 <= k < |w| ensures w[k] in g.nodes {
      assert if k < |w| - 1 then (w[k], w[k + 1]) in g.edges else (w[k - 1], w[k - 1 + 1]) in g.edges;
    }
  }

  lemma ImageOfWalk<N(!new)>(g: Digraph<N>, h: Digraph<N>, f: map<N, N>, w: seq<N>, v: seq<N>)
    requires IsWalk(g, w) && |v| == |w| && forall k :: 0 <= k < |w| ==> w[k] in f && v[k] == f[w[k]]
    requires forall a, b :: (a, b) in g.edges && a in f && b in f ==> (f[a], f[b]) in h.edges
    ensures IsWalk(h, v)
  {
    forall k | 0 <= k < |v| - 1 ensures (v[k], v[k + 1]) in h.edges {
      assert (w[k], w[k + 1]) in g.edges;
    }
  }

  lemma BlankGraph(dg: DynamicGraph, a: DynamicGraph, g: DynamicGraph)
    requires EraseGraph(a) == dg && (set i | i in g :: EraseState(i)) == a
    ensures (set i | i in g :: Blank(i)) == dg
  {
    forall i | i in g ensures Blank(i) in dg {
      assert EraseState(i) in a;
      assert EraseInvocation(EraseState(i)) in EraseGraph(a);
    }
    forall i | i in dg ensures i in (set j | j in g :: Blank(j)) {
      assert i in EraseGraph(a);
      var j :| j in a && EraseInvocation(j) == i;
      var k :| k in g && EraseState(k) == j;
      assert Blank(k) == i;
    }
  }

  lemma PreparedIsExecutable(g: DynamicGraph, i: Invocation)
    requires i in g && AllTensorsAllocated(g) && Prepared(Blank(i))
    ensures Executable(i)
  {
    assert Blank(i).inputs.Keys == i.inputs.Keys && Blank(i).outputs.Keys == i.outputs.Keys;
    forall s | s in i.inputs ensures i.inputs[s].accessor.Some? && s.role.Some? {
      assert i.inputs[s] in ValuesOf(i) && i.inputs[s] in GraphValues(g);
      assert s in Blank(i).inputs;
    }
    forall s | s in i.outputs ensures i.outputs[s].accessor.Some? && s.role.Some? {
      assert i.outputs[s] in ValuesOf(i) && i.outputs[s] in GraphValues(g);
      assert s in Blank(i).outputs;
    }
  }

  lemma CreatedValue(dg: DynamicGraph, m: map<ValueAttrs, ValueAttrs>, a: DynamicGraph, g: DynamicGraph, w: ValueAttrs)
    returns (v: ValueAttrs)
    requires m.Keys == GraphValues(dg) && a == AllocatedGraph(dg, m) && (set i | i in g :: EraseState(i)) == a
    requires w in GraphValues(g)
    ensures v in m && w == m[v]
  {
    var i :| i in g && w in ValuesOf(i);
    assert EraseState(i) in a && w in ValuesOf(EraseState(i));
    var j :| j in dg && AllocationRewriting(dg, m)[j] == EraseState(i);
    AllocatedValues(j, m, w);
    v :| v in ValuesOf(j) && w == m[v];
  }

  lemma CreatedBuffersDistinct(
      dg: DynamicGraph, m: map<ValueAttrs, ValueAttrs>, preallocated: map<ValueAttrs, Accessor>, live: set<Ptr>,
      after: set<Ptr>,
      g: DynamicGraph, initTask: Invocation -> Option<nat>)
    requires IsCreated(dg, m, preallocated, live, after, g, initTask)
    ensures PreallocatedDistinct(preallocated, live) ==> BuffersDistinct(g)
  {
    CreatedErases(dg, m, preallocated, live, after, g, initTask);
    if PreallocatedDistinct(preallocated, live) {
      PlacedBuffersDistinct(dg, m, preallocated, live, after, AllocatedGraph(dg, m), g);
    }
  }

  lemma CreatedErases(
      dg: DynamicGraph, m: map<ValueAttrs, ValueAttrs>, preallocated: map<ValueAttrs, Accessor>, live: set<Ptr>,
      after: set<Ptr>,
      g: DynamicGraph, initTask: Invocation -> Option<nat>)
    requires IsCreated(dg, m, preallocated, live, after, g, initTask)
    ensures (set i | i in g :: EraseState(i)) == AllocatedGraph(dg, m)
  {
    ErasingAllocation(dg, m);
    AllocationKeepsNodes(dg, AllocatedGraph(dg, m));
    ErasingInitialization(AllocatedGraph(dg, m), initTask);
  }

  lemma PlacedBuffersDistinct(
      dg: DynamicGraph, m: map<ValueAttrs, ValueAttrs>, preallocated: map<ValueAttrs, Accessor>, live: set<Ptr>,
      after: set<Ptr>, a: DynamicGraph, g: DynamicGraph)
    requires m.Keys == GraphValues(dg) && a == AllocatedGraph(dg, m) && (set i | i in g :: EraseState(i)) == a
    requires IsAllocation(m, preallocated, live, after) && PreallocatedDistinct(preallocated, live)
    ensures BuffersDistinct(g)
  {
    forall v, w | v in GraphValues(g) && w in GraphValues(g) && v.accessor.Some? && w.accessor.Some? && v != w
      ensures v.accessor.value.ptr != w.accessor.value.ptr
    {
      var x := CreatedValue(dg, m, a, g, v);
      var y := CreatedValue(dg, m, a, g, w);
      AllocatedBuffersAreDisjoint(m, preallocated, live, after, x, y);
    }
  }
}
