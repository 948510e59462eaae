/** From a graph of layers to an instance that trains it. */
module TrainingInstances {
  import opened Digraphs
  import opened DynamicGraphs
  import opened InstanceCreation
  import opened LocalExecution
  import opened Options
  import opened PassExpansion
  import opened Scheduling
  import opened TrainingGraphs

  // ------------------------------------------------------------ the tasks can be executed

  predicate PlainSlots(slots: map<TensorSlot, ValueAttrs>) {
    forall s :: s in slots ==> s.role.Some? && s.role != Some(LossTensor) && s.taskShard.None?
  }

  lemma SameParameterSameSlot(s: TensorSlot, t: TensorSlot)
    requires s.role.Some? && t.role.Some? && s.role != Some(LossTensor) && s.taskShard.None? && t.taskShard.None?
    requires ParameterOf(s) == ParameterOf(t)
    ensures s == t
  {
  }

  /** Slots that do not concern the loss are distinct parameters. */
  lemma PlainIsPrepared(t: Invocation)
    requires PlainSlots(t.inputs) && PlainSlots(t.outputs) && t.inputs.Keys !! t.outputs.Keys && t.node.taskType.Some?
    requires HasOperator(t) && t.node.opAttrs.value.isComputation
    ensures Prepared(t)
  {
    forall r, s | (r in t.inputs || r in t.outputs) && (s in t.inputs || s in t.outputs) &&
      ParameterOf(r) == ParameterOf(s)
      ensures r == s
    {
      SameParameterSameSlot(r, s);
    }
  }

  lemma ExpandedIsPlain(slots: map<TensorSlot, ValueAttrs>, kind: FwbTensorType)
    requires AreLayerSlots(slots)
    ensures PlainSlots(ExpandSlots(slots, kind))
  {
    forall t | t in ExpandSlots(slots, kind) ensures t.role.Some? && t.role != Some(LossTensor) && t.taskShard.None? {
      assert Unexpanded(t) in slots;
    }
  }

  lemma ForwardIsPrepared(cg: DynamicGraph, t: Invocation)
    requires AreLayers(cg) && t in ForwardTasks(cg)
    ensures Prepared(t) && t.node.opState.None? && t.node.opAttrs.value.isComputation
  {
    var i := ForwardLayer(cg, t);
    ExpandedIsPlain(i.inputs, Forward);
    ExpandedIsPlain(i.outputs, Forward);
    SlotsApart(i.inputs, i.outputs, Forward, Forward);
    PlainIsPrepared(t);
  }

  lemma BackwardIsPrepared(cg: DynamicGraph, t: Invocation)
    requires AreLayers(cg) && t in BackwardTasks(cg)
    ensures Prepared(t) && t.node.opState.None? && t.node.opAttrs.value.isComputation
  {
    var i := BackwardLayer(cg, t);
    BackwardIsPlain(i);
    PlainIsPrepared(t);
  }

  lemma BackwardIsPlain(i: Invocation)
    requires IsLayer(i) && ReadyForPassExpansion(i)
    ensures var t := BackwardTask(i); PlainSlots(t.inputs) && PlainSlots(t.outputs) && t.inputs.Keys !! t.outputs.Keys
    ensures BackwardTask(i).node == i.node.(taskType := Some(BWD))
  {
    BackwardSides(i);
    BackwardSidesArePlain(i.inputs, i.outputs);
  }

  lemma BackwardSidesArePlain(ins: map<TensorSlot, ValueAttrs>, outs: map<TensorSlot, ValueAttrs>)
    requires AreLayerSlots(ins) && AreLayerSlots(outs) && ins.Keys !! outs.Keys
    ensures PlainSlots(BackwardInputs(ins, outs)) && PlainSlots(ExpandSlots(ins, Gradient))
    ensures BackwardInputs(ins, outs).Keys !! ExpandSlots(ins, Gradient).Keys
  {
    ExpandedIsPlain(ins, Forward);
    ExpandedIsPlain(outs, Forward);
    ExpandedIsPlain(outs, Gradient);
    ExpandedIsPlain(ins, Gradient);
    SlotsApart(ins, outs, Gradient, Forward);
    SlotsApart(ins, outs, Gradient, Gradient);
    KindsApart(ins);
  }

  lemma UpdateIsPrepared(cg: DynamicGraph, attrs: OptimizerAttrs, t: Invocation)
    requires AreLayers(cg) && t in UpdateTasks(cg, attrs)
    ensures Prepared(t) && t.node.opState.None? && t.node.opAttrs.value.isComputation
  {
    var i := UpdateLayer(cg, attrs, t);
    var s := WeightSlot(i);
    assert s in i.outputs.Keys;
    UpdateSlots(s, i.outputs[s], attrs);
    PlainIsPrepared(t);
  }

  lemma UpdateSlots(s: TensorSlot, v: ValueAttrs, attrs: OptimizerAttrs)
    requires s.taskShard.None?
    ensures PlainSlots(UpdateInputs(s, v, attrs))
  {
  }

  lemma LossIsPrepared(loss: Option<Loss>, t: Invocation)
    requires t in LossTasks(loss)
    ensures Prepared(t) && t.node.opState.None? && !HasOperator(t)
  {
  }

  lemma TasksArePrepared(cg: DynamicGraph, loss: Option<Loss>, attrs: OptimizerAttrs, t: Invocation)
    requires AreLayers(cg) && t in TrainingGraph(cg, loss, attrs)
    ensures Prepared(t) && t.node.opState.None? && (HasOperator(t) ==> t.node.opAttrs.value.isComputation)
  {
    if t in ForwardTasks(cg) {
      ForwardIsPrepared(cg, t);
    } else if t in BackwardTasks(cg) {
      BackwardIsPrepared(cg, t);
    } else if t in UpdateTasks(cg, attrs) {
      UpdateIsPrepared(cg, attrs, t);
    } else {
      LossIsPrepared(loss, t);
    }
  }

  // ----------------------------------------------------------- the graph can be allocated

  lemma TensorIsOfLayer(
      cg: DynamicGraph, loss: Option<Loss>, attrs: OptimizerAttrs, t: Invocation, i: Invocation, x: ValueAttrs)
    requires AreLayers(cg) && HasLogits(cg, loss) && IsUser(cg, loss, attrs, t, i, x)
    ensures x in GraphValues(cg) && IsLayerValue(x)
  {
    var j: Invocation;
    if LossUser(loss, t, x) {
      j :| j in cg && x in j.outputs.Values;
    } else {
      j := i;
    }
    assert IsLayer(j) && x in ValuesOf(j);
  }

  lemma LogitsAreALayersValue(cg: DynamicGraph, loss: Option<Loss>)
    requires AreLayers(cg) && HasLogits(cg, loss) && loss.Some?
    ensures loss.value.logit in GraphValues(cg) && IsLayerValue(loss.value.logit)
  {
    var j :| j in cg && loss.value.logit in j.outputs.Values;
    assert IsLayer(j) && loss.value.logit in ValuesOf(j);
  }

  lemma LossRoleIsLabel(
      cg: DynamicGraph, loss: Option<Loss>, attrs: OptimizerAttrs, t: Invocation, v: ValueAttrs)
    requires AreLayers(cg) && t in TrainingGraph(cg, loss, attrs) && v in ValuesOf(t) && v.role == Some(LossTensor)
    ensures loss.Some? && v == LabelOf(loss.value.logit)
  {
    if t in ForwardTasks(cg) {
      ForwardRoles(cg, t);
    } else if t in BackwardTasks(cg) {
      BackwardAllRoles(cg, t, v);
    } else if t in UpdateTasks(cg, attrs) {
      UpdateWorksOnTrained(cg, attrs, t, v);
    } else {
      LabelOfLoss(loss, t, v);
    }
  }

  lemma LabelOfLoss(loss: Option<Loss>, t: Invocation, v: ValueAttrs)
    requires t in LossTasks(loss) && v in ValuesOf(t) && v.role == Some(LossTensor)
    ensures loss.Some? && v == LabelOf(loss.value.logit)
  {
    LossWorksOn(loss.value.logit, loss.value.attrs);
  }

  lemma BackwardAllRoles(cg: DynamicGraph, t: Invocation, v: ValueAttrs)
    requires AreLayers(cg) && t in BackwardTasks(cg) && v in ValuesOf(t)
    ensures v.role != Some(LossTensor)
  {
    var i := BackwardOrigin(cg, t);
    ExpandedRoles(i.inputs.Values, Forward);
    ExpandedRoles(i.outputs.Values, Forward);
    ExpandedRoles(i.outputs.Values, Gradient);
    ExpandedRoles(i.inputs.Values, Gradient);
  }

  lemma ValueIsReady(cg: DynamicGraph, loss: Option<Loss>, attrs: OptimizerAttrs, t: Invocation, v: ValueAttrs)
    requires AreLayers(cg) && HasLogits(cg, loss) && t in TrainingGraph(cg, loss, attrs) && v in ValuesOf(t)
    ensures v.accessor.None? && v.pieceDims.Some?
  {
    if loss.Some? { LogitsAreALayersValue(cg, loss); }
    if v.role == Some(LossTensor) {
      LossRoleIsLabel(cg, loss, attrs, t, v);
    } else {
      var i := EveryUser(cg, loss, attrs, t, v);
      TensorIsOfLayer(cg, loss, attrs, t, i, TensorOf(v));
    }
  }

  /** Nothing that creating an instance checks of the training graph fails, when every gradient has
      one source. */
  lemma TrainingIsReady(cg: DynamicGraph, loss: Option<Loss>, attrs: OptimizerAttrs)
    requires IsLayerGraph(cg) && HasLogits(cg, loss) && GradientsOnce(cg, loss)
    ensures ReadyToRun(TrainingGraph(cg, loss, attrs))
  {
    var g := TrainingGraph(cg, loss, attrs);
    if loss.Some? { LogitsAreALayersValue(cg, loss); }
    ProducedOnceExactly(cg, loss, attrs);
    TrainingGoesForward(cg, loss, attrs);
    forall v | v in GraphValues(g) ensures v.accessor.None? && v.pieceDims.Some? {
      var t :| t in g && v in ValuesOf(t);
      ValueIsReady(cg, loss, attrs, t, v);
    }
    forall t | t in g
      ensures Prepared(t) && t.node.opState.None? && (HasOperator(t) ==> t.node.opAttrs.value.isComputation)
    {
      TasksArePrepared(cg, loss, attrs, t);
    }
  }

  // ------------------------------------------------------------ the logits' gradient is found

  function LogitGradient(loss: Option<Loss>): Option<ValueAttrs> {
    if loss.Some? then Some(ExpandValue(loss.value.logit, Gradient)) else None
  }

  lemma LogitGradientIsProduced(cg: DynamicGraph, loss: Option<Loss>, attrs: OptimizerAttrs)
    requires AreLayers(cg) && loss.Some?
    ensures ExpandValue(loss.value.logit, Gradient) in Produced(TrainingGraph(cg, loss, attrs))
  {
    var t, s := LossGradient(loss);
    assert t in TrainingGraph(cg, loss, attrs) && t.outputs[s] in t.outputs.Values;
  }

  lemma GradientNames(cg: DynamicGraph, loss: Option<Loss>, attrs: OptimizerAttrs, t: Invocation, v: ValueAttrs)
    requires IsLayerGraph(cg) && HasLogits(cg, loss) && loss.Some?
    requires t in TrainingGraph(cg, loss, attrs) && v in t.outputs.Values && v.role == Some(FwbTensor(Gradient))
    requires SameTensor(v, ExpandValue(loss.value.logit, Gradient))
    ensures v == ExpandValue(loss.value.logit, Gradient)
  {
    LogitsAreALayersValue(cg, loss);
    var i := EveryUser(cg, loss, attrs, t, v);
    TensorIsOfLayer(cg, loss, attrs, t, i, TensorOf(v));
    assert SameTensor(TensorOf(v), loss.value.logit);
  }

  lemma LogitGradientIsFound(
      cg: DynamicGraph, loss: Option<Loss>, attrs: OptimizerAttrs, preallocated: map<ValueAttrs, Accessor>)
    requires IsLayerGraph(cg) && HasLogits(cg, loss) && loss.Some? && CanWriteGradient(loss, preallocated)
    ensures GradientIsFound(TrainingGraph(cg, loss, attrs), preallocated, ExpandValue(loss.value.logit, Gradient))
  {
    var g, l := TrainingGraph(cg, loss, attrs), ExpandValue(loss.value.logit, Gradient);
    LogitGradientIsProduced(cg, loss, attrs);
    forall v | v in Produced(g) && SameTensor(v, l) && v.role == l.role ensures v == l {
      var t :| t in g && v in t.outputs.Values;
      GradientNames(cg, loss, attrs, t, v);
    }
  }

  lemma GradientIsFoundIn(
      cg: DynamicGraph, dg: DynamicGraph, loss: Option<Loss>, attrs: OptimizerAttrs, given: map<ValueAttrs, Accessor>)
    requires IsLayerGraph(cg) && HasLogits(cg, loss) && CanWriteGradient(loss, given)
    requires dg == TrainingGraph(cg, loss, attrs)
    requires forall v :: v in given ==> v.accessor.None?
    ensures LogitGradient(loss).Some? ==> GradientIsFound(dg, WithLabels(loss, given), LogitGradient(loss).value)
    ensures forall v :: v in WithLabels(loss, given) ==> v.accessor.None?
  {
    LabelsStayReady(loss, given);
    if loss.Some? { LogitGradientIsFound(cg, loss, attrs, WithLabels(loss, given)); }
  }

  lemma LabelsStayReady(loss: Option<Loss>, given: map<ValueAttrs, Accessor>)
    requires CanWriteGradient(loss, given) && forall v :: v in given ==> v.accessor.None?
    ensures CanWriteGradient(loss, WithLabels(loss, given))
    ensures forall v :: v in WithLabels(loss, given) ==> v.accessor.None?
  {
  }

  /** A buffer given for the logits' gradient is one that can be written. */
  predicate CanWriteGradient(loss: Option<Loss>, given: map<ValueAttrs, Accessor>) {
    loss.Some? && LogitGradient(loss).value in given ==> given[LogitGradient(loss).value].WriteAccessor?
  }

  /** The given buffers, with that of the labels unless one is given already. */
  function WithLabels(loss: Option<Loss>, given: map<ValueAttrs, Accessor>): map<ValueAttrs, Accessor> {
    if loss.Some? && LabelOf(loss.value.logit) !in given then given[LabelOf(loss.value.logit) := loss.value.labels] else
      given
  }

  // --------------------------------------------------------------------- the instance

  /** An instance is created exactly when the loss is computed from a tensor of the graph, every
      gradient has one source, and the logits' gradient can be written. It runs the graph that the
      passes make of the layers. Every value has one buffer wherever it appears: the given one, for
      the label that of the labels, and otherwise a new one. */
  method CreateFromLayers(
      cg: DynamicGraph, loss: Option<Loss>, given: map<ValueAttrs, Accessor>, allocator: LocalAllocator,
      memory: DeviceMemory,
      attrs: OptimizerAttrs, stepSize: StepSize, initTask: Invocation -> Option<nat>)
    returns (created: Option<ComputationGraphInstance>, ghost g: DynamicGraph)
    requires IsLayerGraph(cg) && forall v :: v in given ==> v.accessor.None?
    modifies allocator
    ensures created.Some? <==>
      && (loss.Some? ==> loss.value.logit in Produced(cg))
      && GradientsOnce(cg, loss)
      && (loss.Some? && loss.value.logit.(role := Some(FwbTensor(Gradient))) in given ==>
            given[loss.value.logit.(role := Some(FwbTensor(Gradient)))].WriteAccessor?)
    ensures created.Some? ==>
      && fresh(created.value) && created.value.memory == memory
      && created.value.optimizerAttrs == attrs && created.value.stepSize == stepSize
      && IsTopologicalOrdering(DataflowGraph(g), created.value.executionOrder) && created.value.Ready()
      && IsBufferOf(g, LogitGradient(loss), created.value.logitGradTensor)
    ensures created.Some? ==> IsInstanceOf(cg, loss, attrs, g)
    ensures created.Some? ==> (created.value.logitGradTensor.Some? <==> loss.Some?)
    ensures created.Some? && loss.Some? ==>
      && created.value.logitGradTensor.value.WriteAccessor?
      && exists v :: v in GraphValues(g) && v.accessor == created.value.logitGradTensor &&
           v.(accessor := None) == loss.value.logit.(role := Some(FwbTensor(Gradient)))
    ensures created.Some? ==> forall i :: i in g ==>
      i.node.opState == if i.node.opAttrs.Some? && i.node.opAttrs.value.PcgOp?
        then initTask(Invocation(i.inputs, i.node.(opState := None), i.outputs)) else None
    ensures created.Some? ==> forall v :: v in GraphValues(g) ==>
      if v.(accessor := None) in given then v.accessor == Some(given[v.(accessor := None)])
      else if v.role == Some(LossTensor) then loss.Some? && v.accessor == Some(loss.value.labels)
      else
        && v.accessor.Some? && v.accessor.value.WriteAccessor? && v.pieceDims == Some(v.accessor.value.dims)
        && v.accessor.value.ptr in allocator.ptrs - old(allocator.ptrs)
    ensures created.Some? ==> forall v, w ::
      v in GraphValues(g) && w in GraphValues(g) && v.(accessor := None) == w.(accessor := None) ==> v == w
    ensures created.Some? && PreallocatedDistinct(WithLabels(loss, given), old(allocator.ptrs) + allocator.elsewhere)
      ==> BuffersDistinct(g)
  {
    g := {};
    var built := BuildTrainingGraph(cg, loss, attrs);
    if built.None? || !CanWriteGradient(loss, given) {
      return None, g;
    }
    GradientIsFoundIn(cg, built.value, loss, attrs, given);
    var instance;
    instance, g := CreateComputationGraphInstance(
      built.value, WithLabels(loss, given), LogitGradient(loss), allocator, memory, attrs, stepSize, initTask);
    LabelsAreGiven(cg, loss, attrs, given, g);
    created := Some(instance);
  }

  /** Only the label goes by the role of the loss, and it has the given buffer of the labels. */
  lemma LabelsAreGiven(
      cg: DynamicGraph, loss: Option<Loss>, attrs: OptimizerAttrs, given: map<ValueAttrs, Accessor>, g: DynamicGraph)
    requires AreLayers(cg) && IsInstanceOf(cg, loss, attrs, g)
    ensures forall v :: v in GraphValues(g) ==> IsGivenAs(loss, given, v.role, v.(accessor := None))
  {
    forall v | v in GraphValues(g) ensures IsGivenAs(loss, given, v.role, v.(accessor := None)) {
      if v.role == Some(LossTensor) { LabelInInstance(cg, loss, attrs, g, v); }
      LabelIsGiven(loss, given, v.(accessor := None));
    }
  }

  /** Which buffer a value is given. */
  ghost predicate IsGivenAs(
      loss: Option<Loss>, given: map<ValueAttrs, Accessor>, role: Option<TensorRole>, v: ValueAttrs)
  {
    if v in given then v in WithLabels(loss, given) && WithLabels(loss, given)[v] == given[v]
    else if role == Some(LossTensor) then
      loss.Some? && v in WithLabels(loss, given) && WithLabels(loss, given)[v] == loss.value.labels
    else v !in WithLabels(loss, given)
  }

  lemma LabelIsGiven(loss: Option<Loss>, given: map<ValueAttrs, Accessor>, v: ValueAttrs)
    requires v.role == Some(LossTensor) ==> loss.Some? && v == LabelOf(loss.value.logit)
    ensures IsGivenAs(loss, given, v.role, v)
  {
  }

  lemma LabelInInstance(cg: DynamicGraph, loss: Option<Loss>, attrs: OptimizerAttrs, g: DynamicGraph, v: ValueAttrs)
    requires AreLayers(cg) && IsInstanceOf(cg, loss, attrs, g) && v in GraphValues(g) && v.role == Some(LossTensor)
    ensures loss.Some? && v.(accessor := None) == LabelOf(loss.value.logit)
  {
    var i :| i in g && v in ValuesOf(i);
    var t := Blank(i);
    assert t in TrainingGraph(cg, loss, attrs);
    ErasedValue(i, v);
    LossRoleIsLabel(cg, loss, attrs, t, EraseValue(v));
  }

  lemma ErasedValue(i: Invocation, v: ValueAttrs)
    requires v in ValuesOf(i)
    ensures EraseValue(v) in ValuesOf(Blank(i))
  {
    if v in i.inputs.Values {
      var s :| s in i.inputs && i.inputs[s] == v;
      assert Blank(i).inputs[s] == EraseValue(v);
    } else {
      var s :| s in i.outputs && i.outputs[s] == v;
      assert Blank(i).outputs[s] == EraseValue(v);
    }
  }

  /** The passes, with the checks that they make: the lookup of the logits and the check of the
      resulting graph. */
  method BuildTrainingGraph(
      cg: DynamicGraph, loss: Option<Loss>, attrs: OptimizerAttrs)
    returns (dg: Option<DynamicGraph>)
    requires IsLayerGraph(cg)
    ensures dg.Some? <==> (loss.Some? ==> loss.value.logit in Produced(cg)) && GradientsOnce(cg, loss)
    ensures dg.Some? ==> dg.value == TrainingGraph(cg, loss, attrs) && ReadyToRun(dg.value)
  {
    if !HasLogits(cg, loss) {
      return None;
    }
    if loss.Some? { LogitsAreALayersValue(cg, loss); }
    var built := TrainingGraph(cg, loss, attrs);
    ProducedOnceExactly(cg, loss, attrs);
    if !ProducedOnce(built) {
      return None;
    }
    TrainingIsReady(cg, loss, attrs);
    dg := Some(built);
  }

  /** g is the training graph with buffers and operator states. */
  ghost predicate IsInstanceOf(cg: DynamicGraph, loss: Option<Loss>, attrs: OptimizerAttrs, g: DynamicGraph)
    requires AreLayers(cg)
  {
    IsCreatedFrom(TrainingGraph(cg, loss, attrs), g)
  }

  /** Training an instance: with tasks that overwrite only tensors whose gradients are computed, every
      order of its graph ends in the same store; running the phases one after the other leaves out
      the loss and nothing else. */
  lemma InstancesTrainAlike(
      cg: DynamicGraph, loss: Option<Loss>, attrs: OptimizerAttrs, g: DynamicGraph, impls: TaskImpls,
      now: OptimizerAttrs,
      o1: seq<Invocation>, o2: seq<Invocation>, st: Store)
    requires IsLayerGraph(cg) && HasLogits(cg, loss) && GradientsOnce(cg, loss) && IsInstanceOf(cg, loss, attrs, g)
    requires BuffersDistinct(g) && IgnoresBuffers(impls.inPlace) && OverwritesTrained(cg, loss, attrs, impls.inPlace)
    requires IsTopologicalOrdering(DataflowGraph(g), o1) && IsTopologicalOrdering(DataflowGraph(g), o2)
    ensures RunAll(TasksOf(impls), now, o1, st) == RunAll(TasksOf(impls), now, o2, st)
    ensures RunAll(TasksOf(impls), now, SplitOrder(o1), st) == RunAll(TasksOf(impls), now, WithoutLoss(o2), st)
  {
    InstanceIsRunnable(cg, loss, attrs, g, impls.inPlace);
    TypesStay(cg, loss, attrs, g);
    ExecutionOrderIsImmaterial(g, impls, now, o1, o2, st);
    ValidGraphOrdersConflicts(g, impls);
    SplitRunsAllButLoss(g, TasksOf(impls), now, o1, st);
    FilteredOrdersAgree(g, TasksOf(impls), now, NotLoss(), o1, o2, st);
  }

  lemma InstanceIsRunnable(
      cg: DynamicGraph, loss: Option<Loss>, attrs: OptimizerAttrs, g: DynamicGraph, inPlace: InPlace)
    requires IsLayerGraph(cg) && HasLogits(cg, loss) && GradientsOnce(cg, loss) && IsInstanceOf(cg, loss, attrs, g)
    requires IgnoresBuffers(inPlace) && OverwritesTrained(cg, loss, attrs, inPlace)
    ensures OverwritesOrdered(g, inPlace) && PhasesForward(g)
  {
    if loss.Some? { LogitsAreALayersValue(cg, loss); }
    TrainingOrdersOverwrites(cg, loss, attrs, inPlace);
    TrainingGoesForward(cg, loss, attrs);
  }

  lemma TypesStay(cg: DynamicGraph, loss: Option<Loss>, attrs: OptimizerAttrs, g: DynamicGraph)
    requires AreLayers(cg) && IsInstanceOf(cg, loss, attrs, g)
    ensures forall i :: i in g ==> i.node.taskType.Some?
    ensures loss.None? ==> forall i :: i in g ==> i.node.taskType != Some(LOSS)
  {
    forall i | i in g ensures i.node.taskType.Some? && (loss.None? ==> i.node.taskType != Some(LOSS)) {
      assert Blank(i) in TrainingGraph(cg, loss, attrs);
      TypesOfTasks(cg, loss, attrs, Blank(i));
    }
  }

  /** Without a loss task, training for any number of iterations, all at once or one phase at a time,
      ends in the same store and the same optimizer attributes. */
  lemma InstancesTrainAlikeForever(
      cg: DynamicGraph, attrs: OptimizerAttrs, g: DynamicGraph, impls: TaskImpls, stepSize: StepSize,
      o1: seq<Invocation>,
      o2: seq<Invocation>, n: nat, s: TrainingState)
    requires IsLayerGraph(cg) && GradientsOnce(cg, None) && IsInstanceOf(cg, None, attrs, g)
    requires BuffersDistinct(g) && IgnoresBuffers(impls.inPlace) && OverwritesTrained(cg, None, attrs, impls.inPlace)
    requires IsTopologicalOrdering(DataflowGraph(g), o1) && IsTopologicalOrdering(DataflowGraph(g), o2)
    ensures Iterated(n, CombinedStep(o1, impls, stepSize), s) == Iterated(n, SplitStep(o2, impls, stepSize), s)
    ensures Iterated(n, CombinedStep(o1, impls, stepSize), s).attrs == AttrsAfter(n, s.attrs, stepSize)
  {
    InstanceIsRunnable(cg, None, attrs, g, impls.inPlace);
    TypesStay(cg, None, attrs, g);
    TrainingAgrees(g, impls, stepSize, o1, o2, n, s);
  }
}
