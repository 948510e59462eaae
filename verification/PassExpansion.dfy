/** The passes that turn a graph of layers into the graph that is trained: every layer becomes a
    forward task, those that gradients have to pass through get a backward task, and a loss task
    and one update task for each weight are added. */
module PassExpansion {
  import opened Sequences
  import opened Digraphs
  import opened DynamicGraphs
  import opened LocalExecution
  import opened Options

  // ------------------------------------------------------------------------ layers

  /** The layer identifier that is set aside for the loss. */
  const LOSS_LAYER: nat := 0
  /** And the tensor identifier that is set aside for the label. */
  const LOSS_TENSOR: nat := 0

  predicate IsLayerValue(v: ValueAttrs) {
    v.role.None? && v.accessor.None? && v.pieceDims.Some? && v.createGrad.Some? && v.guid != LOSS_TENSOR
  }

  predicate AreLayerSlots(slots: map<TensorSlot, ValueAttrs>) {
    forall s :: s in slots ==> s.role.None? && s.taskShard.None? && IsLayerValue(slots[s])
  }

  predicate IsWeight(i: Invocation) {
    i.node.opAttrs.Some? && i.node.opAttrs.value.PcgOp? && i.node.opAttrs.value.op == WeightOperator
  }

  predicate IsInput(i: Invocation) {
    i.node.opAttrs.Some? && i.node.opAttrs.value.PcgOp? && i.node.opAttrs.value.op == InputOperator
  }

  /** A layer of a computation graph. Its inputs and outputs go by different names, and a weight
      has no input and one output. */
  predicate IsLayer(i: Invocation) {
    && AreLayerSlots(i.inputs) && AreLayerSlots(i.outputs) && i.inputs.Keys !! i.outputs.Keys
    && i.node.taskType.None? && i.node.opState.None? && i.node.layer != LOSS_LAYER && i.outputs != map[]
    && HasOperator(i) && i.node.opAttrs.value.isComputation && i.node.opAttrs.value.op != ReplicateOperator
    && (IsWeight(i) ==> i.inputs == map[] && forall s, t :: s in i.outputs && t in i.outputs ==> s == t)
  }

  ghost predicate AreLayers(cg: DynamicGraph) {
    forall i :: i in cg ==> IsLayer(i)
  }

  /** What is built from a computation graph: its layers, each once, and its tensors, each with one
      set of attributes and produced by one layer. */
  ghost predicate IsLayerGraph(cg: DynamicGraph) {
    && ValidGraph(cg) && AreLayers(cg)
    && (forall i, j {:trigger SameLayer(i, j)} :: i in cg && j in cg && SameLayer(i, j) ==> i == j)
    && (forall v, w {:trigger SameTensor(v, w)} ::
      v in GraphValues(cg) && w in GraphValues(cg) && SameTensor(v, w) ==> v == w)
  }

  // ---------------------------------------------------- where gradients are needed

  function Producers(cg: DynamicGraph, v: ValueAttrs): set<Invocation> {
    set i | i in cg && v in i.outputs.Values
  }

  /** Gradients are asked for of the weights, of the inputs that say so, and of what comes from
      outside. */
  predicate AsksForGradient(cg: DynamicGraph, v: ValueAttrs) {
    || v !in Produced(cg)
    || exists i :: i in Producers(cg, v) && (IsWeight(i) || (IsInput(i) && v.createGrad == Some(true)))
  }

  /** The values computed directly from those of `needed`. */
  function ComputedFrom(cg: DynamicGraph, needed: set<ValueAttrs>): set<ValueAttrs> {
    set i, v | i in cg && i.inputs.Values * needed != {} && v in i.outputs.Values :: v
  }

  /** Adds what is computed from the values of `needed` until nothing is new. */
  function Downstream(cg: DynamicGraph, needed: set<ValueAttrs>): (r: set<ValueAttrs>)
    requires needed <= GraphValues(cg)
    ensures needed <= r <= GraphValues(cg) && ComputedFrom(cg, r) <= r
    ensures forall c :: needed <= c && ComputedFrom(cg, c) <= c ==> r <= c
    decreases |GraphValues(cg) - needed|
  {
    ComputedAreValues(cg, needed);
    var more := needed + ComputedFrom(cg, needed);
    if more == needed then needed
    else
      FewerLeft(GraphValues(cg), needed, more);
      ComputedMonotone(cg);
      Downstream(cg, more)
  }

  lemma ComputedAreValues(cg: DynamicGraph, needed: set<ValueAttrs>)
    ensures ComputedFrom(cg, needed) <= GraphValues(cg)
  {
    forall v | v in ComputedFrom(cg, needed) ensures v in GraphValues(cg) {
      var i :| i in cg && i.inputs.Values * needed != {} && v in i.outputs.Values;
      assert v in ValuesOf(i);
    }
  }

  lemma FewerLeft(all: set<ValueAttrs>, a: set<ValueAttrs>, b: set<ValueAttrs>)
    requires a < b <= all
    ensures |all - b| < |all - a|
  {
    assert !(b <= a);
    var x :| x in b && x !in a;
    assert all - b <= (all - a) - {x};
    Subset(all - b, (all - a) - {x});
  }

  lemma Subset(a: set<ValueAttrs>, b: set<ValueAttrs>)
    requires a <= b
    ensures |a| <= |b|
  {
    assert b == a + (b - a);
  }

  lemma ComputedMonotone(cg: DynamicGraph)
    ensures forall a, b :: a <= b ==> ComputedFrom(cg, a) <= ComputedFrom(cg, b)
  {
    forall a, b, v | a <= b && v in ComputedFrom(cg, a) ensures v in ComputedFrom(cg, b) {
      var i :| i in cg && i.inputs.Values * a != {} && v in i.outputs.Values;
      var x :| x in i.inputs.Values * a;
      assert x in i.inputs.Values * b;
    }
  }

  /** The values whose gradients have to be computed. */
  function NeededValues(cg: DynamicGraph): set<ValueAttrs> {
    set v, w | v in GraphValues(cg) && AsksForGradient(cg, v) && w in Downstream(cg, {v}) :: w
  }

  /** The layers that get a backward task: those that read a value whose gradient is needed. */
  predicate NeededInBackward(cg: DynamicGraph, i: Invocation) {
    i in cg && i.inputs.Values * NeededValues(cg) != {}
  }

  ghost predicate ClosedUnderLayers(cg: DynamicGraph, c: set<ValueAttrs>) {
    && (forall v :: v in GraphValues(cg) && AsksForGradient(cg, v) ==> v in c)
    && ComputedFrom(cg, c) <= c
  }

  /** They are what can be computed from values that ask for a gradient: the least set that
      contains those values and is closed under the layers. */
  lemma NeededExactly(cg: DynamicGraph)
    ensures ClosedUnderLayers(cg, NeededValues(cg)) && NeededValues(cg) <= GraphValues(cg)
    ensures forall c :: ClosedUnderLayers(cg, c) ==> NeededValues(cg) <= c
  {
    forall v | v in GraphValues(cg) && AsksForGradient(cg, v) ensures v in NeededValues(cg) {
      assert v in Downstream(cg, {v});
    }
    forall v | v in ComputedFrom(cg, NeededValues(cg)) ensures v in NeededValues(cg) {
      NeededIsClosed(cg, v);
    }
    forall c | ClosedUnderLayers(cg, c) ensures NeededValues(cg) <= c {
      NeededIsLeast(cg, c);
    }
  }

  lemma NeededIsClosed(cg: DynamicGraph, v: ValueAttrs)
    requires v in ComputedFrom(cg, NeededValues(cg))
    ensures v in NeededValues(cg)
  {
    var i :| i in cg && i.inputs.Values * NeededValues(cg) != {} && v in i.outputs.Values;
    var x :| x in i.inputs.Values * NeededValues(cg);
    var u :| u in GraphValues(cg) && AsksForGradient(cg, u) && x in Downstream(cg, {u});
    assert x in i.inputs.Values * Downstream(cg, {u});
    assert v in ComputedFrom(cg, Downstream(cg, {u}));
  }

  lemma NeededIsLeast(cg: DynamicGraph, c: set<ValueAttrs>)
    requires ClosedUnderLayers(cg, c)
    ensures NeededValues(cg) <= c
  {
    forall w | w in NeededValues(cg) ensures w in c {
      var v :| v in GraphValues(cg) && AsksForGradient(cg, v) && w in Downstream(cg, {v});
      assert {v} <= c;
    }
  }

  /** One layer at a time: an output of a weight needs a gradient; an output of any other layer does
      exactly when the layer is an input that asks for one, or reads a value that needs one; and
      what no layer produces needs one. */
  lemma NeededByLayer(cg: DynamicGraph, i: Invocation, v: ValueAttrs)
    requires ProducedOnce(cg) && i in cg && v in i.outputs.Values
    ensures forall w :: w in i.inputs.Values && w !in Produced(cg) ==> w in NeededValues(cg)
    ensures v in NeededValues(cg)
      <==> || (i.node.opAttrs.Some? && i.node.opAttrs.value.PcgOp? && i.node.opAttrs.value.op == WeightOperator)
           || (i.node.opAttrs.Some? && i.node.opAttrs.value.PcgOp? && i.node.opAttrs.value.op == InputOperator &&
               v.createGrad == Some(true))
           || i.inputs.Values * NeededValues(cg) != {}
  {
    NeededExactly(cg);
    assert v in ValuesOf(i) && v in Produced(cg);
    forall w | w in i.inputs.Values && w !in Produced(cg) ensures w in NeededValues(cg) {
      assert w in ValuesOf(i) && AsksForGradient(cg, w);
    }
    if i.inputs.Values * NeededValues(cg) != {} {
      assert v in ComputedFrom(cg, NeededValues(cg));
    }
    if IsWeight(i) || (IsInput(i) && v.createGrad == Some(true)) {
      assert i in Producers(cg, v) && AsksForGradient(cg, v);
    }
    if v in NeededValues(cg) {
      NeededHasReason(cg, i, v);
    }
  }

  lemma NeededHasReason(cg: DynamicGraph, i: Invocation, v: ValueAttrs)
    requires ProducedOnce(cg) && i in cg && v in i.outputs.Values && v in NeededValues(cg)
    ensures IsWeight(i) || (IsInput(i) && v.createGrad == Some(true)) || i.inputs.Values * NeededValues(cg) != {}
  {
    var u :| u in GraphValues(cg) && AsksForGradient(cg, u) && v in Downstream(cg, {u});
    DownstreamIsComputed(cg, u, v);
    if v == u {
      assert v in Produced(cg);
      var j :| j in Producers(cg, v) && (IsWeight(j) || (IsInput(j) && v.createGrad == Some(true)));
      SoleProducer(cg, i, j, v);
    } else {
      var j :| j in cg && j.inputs.Values * Downstream(cg, {u}) != {} && v in j.outputs.Values;
      SoleProducer(cg, i, j, v);
      var x :| x in i.inputs.Values * Downstream(cg, {u});
      assert x in NeededValues(cg);
      assert x in i.inputs.Values * NeededValues(cg);
    }
  }

  /** What lies downstream of a value is that value or computed from something downstream of it. */
  lemma DownstreamIsComputed(cg: DynamicGraph, u: ValueAttrs, v: ValueAttrs)
    requires u in GraphValues(cg) && v in Downstream(cg, {u})
    ensures v == u || v in ComputedFrom(cg, Downstream(cg, {u}))
  {
    var d := Downstream(cg, {u});
    ComputedMonotone(cg);
    assert {u} + ComputedFrom(cg, d) <= d;
    assert ComputedFrom(cg, {u} + ComputedFrom(cg, d)) <= ComputedFrom(cg, d);
  }

  // ---------------------------------------------------------------- the three passes

  /** The same slot, in the given role. */
  function ExpandSlot(s: TensorSlot, kind: FwbTensorType): (r: TensorSlot)
    ensures r.role == Some(FwbTensor(kind)) && r.(role := s.role) == s
  {
    s.(role := Some(FwbTensor(kind)))
  }

  /** The same value, in the given role. */
  function ExpandValue(v: ValueAttrs, kind: FwbTensorType): (r: ValueAttrs)
    ensures r.role == Some(FwbTensor(kind)) && r.(role := v.role) == v
  {
    v.(role := Some(FwbTensor(kind)))
  }

  function Unexpanded(s: TensorSlot): (r: TensorSlot)
    ensures r.role == None && r.(role := s.role) == s
  {
    s.(role := None)
  }

  /** Every slot and its value, with a role. */
  function ExpandSlots(slots: map<TensorSlot, ValueAttrs>, kind: FwbTensorType): (r: map<TensorSlot, ValueAttrs>)
    requires forall s :: s in slots ==> s.role.None?
    ensures forall s :: s in slots ==> ExpandSlot(s, kind) in r && r[ExpandSlot(s, kind)] == ExpandValue(slots[s], kind)
    ensures forall t :: t in r ==> Unexpanded(t) in slots && t == ExpandSlot(Unexpanded(t), kind)
  {
    map s | s in slots :: ExpandSlot(s, kind) := ExpandValue(slots[s], kind)
  }

  /** A copy keeps its slots as they are. */
  function ExpandValues(slots: map<TensorSlot, ValueAttrs>, kind: FwbTensorType): (r: map<TensorSlot, ValueAttrs>)
    ensures r.Keys == slots.Keys && forall s :: s in slots ==> r[s] == ExpandValue(slots[s], kind)
  {
    map s | s in slots :: ExpandValue(slots[s], kind)
  }

  predicate ReadyForPassExpansion(i: Invocation) {
    && i.node.opAttrs.Some? && (!i.node.opAttrs.value.CopyOp? ==> i.node.taskType.None?)
    && (forall s :: s in i.inputs ==> s.role.None?) && (forall s :: s in i.outputs ==> s.role.None?)
    && (forall v :: v in ValuesOf(i) ==> v.role.None?)
  }

  function ForwardTask(i: Invocation): Invocation
    requires ReadyForPassExpansion(i)
  {
    if i.node.opAttrs.value.CopyOp? then
      Invocation(ExpandValues(i.inputs, Forward), i.node, ExpandValues(i.outputs, Forward))
    else
      Invocation(ExpandSlots(i.inputs, Forward), i.node.(taskType := Some(FWD)), ExpandSlots(i.outputs, Forward))
  }

  /** What a backward task reads: the values of its layer, and the gradients of the outputs. */
  function BackwardInputs(
      ins: map<TensorSlot, ValueAttrs>, outs: map<TensorSlot, ValueAttrs>): map<TensorSlot, ValueAttrs>
    requires (forall s :: s in ins ==> s.role.None?) && forall s :: s in outs ==> s.role.None?
  {
    ExpandSlots(ins, Forward) + ExpandSlots(outs, Forward) + ExpandSlots(outs, Gradient)
  }

  /** The maps that are merged have no slot in common. */
  function BackwardTask(i: Invocation): Invocation
    requires ReadyForPassExpansion(i) && i.inputs.Keys !! i.outputs.Keys
  {
    if i.node.opAttrs.value.CopyOp? then
      Invocation(ExpandValues(i.outputs, Gradient), i.node, ExpandValues(i.inputs, Gradient))
    else if HasOperator(i) && i.node.opAttrs.value.op == ReplicateOperator then
      Invocation(ExpandSlots(i.outputs, Gradient), i.node.(taskType := Some(BWD)), ExpandSlots(i.inputs, Gradient))
    else
      Invocation(
        BackwardInputs(i.inputs, i.outputs), i.node.(taskType := Some(BWD)), ExpandSlots(i.inputs, Gradient))
  }

  lemma LayersAreReady(cg: DynamicGraph)
    requires AreLayers(cg)
    ensures forall i :: i in cg ==> ReadyForPassExpansion(i) && i.inputs.Keys !! i.outputs.Keys
  {
    forall i, v | i in cg && v in ValuesOf(i) ensures v.role.None? {
      assert IsLayer(i);
    }
  }

  function ForwardTasks(cg: DynamicGraph): DynamicGraph
    requires AreLayers(cg)
  {
    LayersAreReady(cg);
    set i | i in cg :: ForwardTask(i)
  }

  function BackwardTasks(cg: DynamicGraph): DynamicGraph
    requires AreLayers(cg)
  {
    LayersAreReady(cg);
    set i | i in cg && NeededInBackward(cg, i) :: BackwardTask(i)
  }

  const LABEL_NAME: nat := 0
  const LOGIT_NAME: nat := 1

  function LabelOf(logit: ValueAttrs): ValueAttrs {
    ValueAttrs(LOSS_TENSOR, logit.pieceDims, Some(false), Some(LossTensor), None)
  }

  /** The loss task compares the logits with the labels and produces the logits' gradient. */
  function LossTask(logit: ValueAttrs, loss: nat): Invocation {
    Invocation(
      map[TensorSlot(LABEL_NAME, Some(LossTensor), None) := LabelOf(logit),
          TensorSlot(LOGIT_NAME, Some(FwbTensor(Forward)), None) := ExpandValue(logit, Forward)],
      NodeAttrs(Some(LOSS), Some(LossOp(loss)), LOSS_LAYER, None),
      map[TensorSlot(LOGIT_NAME, Some(FwbTensor(Gradient)), None) := ExpandValue(logit, Gradient)])
  }

  /** The tensor that the loss is computed from, its attributes, and the buffer of the labels. */
  datatype Loss = Loss(logit: ValueAttrs, attrs: nat, labels: Accessor)

  /** The logits are one of the tensors that the layers compute. */
  predicate HasLogits(cg: DynamicGraph, loss: Option<Loss>) {
    loss.Some? ==> loss.value.logit in Produced(cg)
  }

  function LossTasks(loss: Option<Loss>): DynamicGraph {
    if loss.Some? then {LossTask(loss.value.logit, loss.value.attrs)} else {}
  }

  /** SGD keeps a velocity when it has momentum; Adam keeps two moments. */
  function OptimizerSlots(attrs: OptimizerAttrs): set<nat> {
    match attrs
    case SGD(_, momentum, _, _) => if momentum > 0.0 then {0} else {}
    case Adam(_, _, _, _, _, _, _, _) => {1, 2}
  }

  function UpdateRoles(attrs: OptimizerAttrs): set<TensorRole> {
    {FwbTensor(Forward), FwbTensor(Gradient)} + set o | o in OptimizerSlots(attrs) :: OptimizerTensor(o)
  }

  /** The update task of a weight reads the weight, its gradient and the optimizer's tensors. */
  function UpdateInputs(s: TensorSlot, v: ValueAttrs, attrs: OptimizerAttrs): (r: map<TensorSlot, ValueAttrs>)
    ensures forall t :: t in r <==> t.role.Some? && t.role.value in UpdateRoles(attrs) && t == s.(role := t.role)
    ensures forall t :: t in r ==> r[t] == v.(role := t.role)
  {
    map r | r in UpdateRoles(attrs) :: s.(role := Some(r)) := v.(role := Some(r))
  }

  function WeightSlot(i: Invocation): (s: TensorSlot)
    requires IsLayer(i) && IsWeight(i)
    ensures i.outputs.Keys == {s}
  {
    assert exists s :: s in i.outputs;
    var s :| s in i.outputs;
    s
  }

  function UpdateTask(i: Invocation, attrs: OptimizerAttrs): Invocation
    requires IsLayer(i) && IsWeight(i)
  {
    Invocation(UpdateInputs(WeightSlot(i), i.outputs[WeightSlot(i)], attrs), i.node.(taskType := Some(UPD)), map[])
  }

  function UpdateTasks(cg: DynamicGraph, attrs: OptimizerAttrs): DynamicGraph
    requires AreLayers(cg)
  {
    set i | i in cg && IsWeight(i) :: UpdateTask(i, attrs)
  }

  /** The graph that is trained. */
  function TrainingGraph(cg: DynamicGraph, loss: Option<Loss>, attrs: OptimizerAttrs): DynamicGraph
    requires AreLayers(cg)
  {
    ForwardTasks(cg) + BackwardTasks(cg) + LossTasks(loss) + UpdateTasks(cg, attrs)
  }

  // ------------------------------------------------------ what the tasks read and write

  /** In the forward pass, every slot and its value take the forward role; a copy keeps its slots and
      its node as they are. */
  lemma ForwardSlots(i: Invocation)
    requires ReadyForPassExpansion(i)
    ensures i.node.opAttrs == Some(CopyOp) ==>
      && ForwardTask(i).node == i.node && ForwardTask(i).inputs == ExpandValues(i.inputs, Forward)
      && ForwardTask(i).outputs == ExpandValues(i.outputs, Forward)
    ensures i.node.opAttrs != Some(CopyOp) ==>
      && ForwardTask(i).node == i.node.(taskType := Some(FWD))
      && ForwardTask(i).inputs == ExpandSlots(i.inputs, Forward)
      && ForwardTask(i).outputs == ExpandSlots(i.outputs, Forward)
  {
  }

  /** In the backward pass, gradients of the outputs come in and gradients of the inputs go out. A
      copy and a replication read nothing else, and a copy keeps its slots. */
  lemma BackwardSlotsOfMoves(i: Invocation)
    requires ReadyForPassExpansion(i) && i.inputs.Keys !! i.outputs.Keys
    ensures i.node.opAttrs == Some(CopyOp) ==>
      && BackwardTask(i).node == i.node && BackwardTask(i).inputs == ExpandValues(i.outputs, Gradient)
      && BackwardTask(i).outputs == ExpandValues(i.inputs, Gradient)
    ensures i.node.opAttrs.value.PcgOp? && i.node.opAttrs.value.op == ReplicateOperator ==>
      && BackwardTask(i).node == i.node.(taskType := Some(BWD))
      && BackwardTask(i).inputs == ExpandSlots(i.outputs, Gradient)
      && BackwardTask(i).outputs == ExpandSlots(i.inputs, Gradient)
  {
  }

  /** All others also read what they read and wrote in the forward pass, and no slot is lost when the
      three kinds of slots are merged. */
  lemma BackwardSlots(i: Invocation)
    requires ReadyForPassExpansion(i) && i.inputs.Keys !! i.outputs.Keys && !i.node.opAttrs.value.CopyOp?
    requires i.node.opAttrs.value.PcgOp? ==> i.node.opAttrs.value.op != ReplicateOperator
    ensures BackwardTask(i).node == i.node.(taskType := Some(BWD))
    ensures BackwardTask(i).outputs == ExpandSlots(i.inputs, Gradient)
    ensures IsMerged(BackwardTask(i).inputs, ExpandSlots(i.inputs, Forward), ExpandSlots(i.outputs, Forward),
      ExpandSlots(i.outputs, Gradient))
  {
    MergedSlots(i.inputs, i.outputs);
    BackwardSides(i);
  }

  /** m has the entries of all three maps and no other. */
  ghost predicate IsMerged<K, V>(m: map<K, V>, x: map<K, V>, y: map<K, V>, z: map<K, V>) {
    && m.Keys == x.Keys + y.Keys + z.Keys
    && (forall s :: s in x ==> m[s] == x[s]) && (forall s :: s in y ==> m[s] == y[s])
    && (forall s :: s in z ==> m[s] == z[s])
  }

  lemma MergedSlots(ins: map<TensorSlot, ValueAttrs>, outs: map<TensorSlot, ValueAttrs>)
    requires (forall s :: s in ins ==> s.role.None?) && (forall s :: s in outs ==> s.role.None?)
    requires ins.Keys !! outs.Keys
    ensures IsMerged(
      BackwardInputs(ins, outs), ExpandSlots(ins, Forward), ExpandSlots(outs, Forward), ExpandSlots(outs, Gradient))
  {
    SlotsApart(ins, outs, Forward, Forward);
    SlotsApart(ins, outs, Forward, Gradient);
    KindsApart(outs);
    MergedMaps(ExpandSlots(ins, Forward), ExpandSlots(outs, Forward), ExpandSlots(outs, Gradient));
  }

  lemma MergedMaps<K, V>(x: map<K, V>, y: map<K, V>, z: map<K, V>)
    requires x.Keys !! y.Keys && x.Keys !! z.Keys && y.Keys !! z.Keys
    ensures IsMerged(x + y + z, x, y, z)
  {
  }

  lemma SlotsApart(x: map<TensorSlot, ValueAttrs>, y: map<TensorSlot, ValueAttrs>, j: FwbTensorType, k: FwbTensorType)
    requires (forall s :: s in x ==> s.role.None?) && (forall s :: s in y ==> s.role.None?) && x.Keys !! y.Keys
    ensures ExpandSlots(x, j).Keys !! ExpandSlots(y, k).Keys
  {
    forall t | t in ExpandSlots(x, j) ensures t !in ExpandSlots(y, k) {
      assert Unexpanded(t) in x.Keys;
    }
  }

  lemma KindsApart(x: map<TensorSlot, ValueAttrs>)
    requires forall s :: s in x ==> s.role.None?
    ensures ExpandSlots(x, Forward).Keys !! ExpandSlots(x, Gradient).Keys
  {
    forall t | t in ExpandSlots(x, Forward) ensures t !in ExpandSlots(x, Gradient) {
      assert t.role == Some(FwbTensor(Forward));
    }
  }

  function Expanded(values: set<ValueAttrs>, kind: FwbTensorType): set<ValueAttrs> {
    set v | v in values :: ExpandValue(v, kind)
  }

  lemma ExpandedValues(slots: map<TensorSlot, ValueAttrs>, kind: FwbTensorType)
    requires forall s :: s in slots ==> s.role.None?
    ensures ExpandSlots(slots, kind).Values == Expanded(slots.Values, kind)
  {
    var r := ExpandSlots(slots, kind);
    forall v | v in r.Values ensures v in Expanded(slots.Values, kind) {
      var t :| t in r && r[t] == v;
      assert slots[Unexpanded(t)] in slots.Values;
    }
    forall v | v in Expanded(slots.Values, kind) ensures v in r.Values {
      var s :| s in slots && ExpandValue(slots[s], kind) == v;
      assert r[ExpandSlot(s, kind)] == v;
    }
  }

  lemma LayerIsReady(i: Invocation)
    requires IsLayer(i)
    ensures ReadyForPassExpansion(i)
  {
  }

  lemma ForwardValues(i: Invocation)
    requires IsLayer(i)
    ensures ReadyForPassExpansion(i)
    ensures ForwardTask(i).inputs.Values == Expanded(i.inputs.Values, Forward)
    ensures ForwardTask(i).outputs.Values == Expanded(i.outputs.Values, Forward)
  {
    LayerIsReady(i);
    ExpandedValues(i.inputs, Forward);
    ExpandedValues(i.outputs, Forward);
  }

  lemma BackwardValues(i: Invocation)
    requires IsLayer(i)
    ensures ReadyForPassExpansion(i)
    ensures BackwardTask(i).inputs.Values
         == Expanded(i.inputs.Values, Forward) + Expanded(i.outputs.Values, Forward) +
           Expanded(i.outputs.Values, Gradient)
    ensures BackwardTask(i).outputs.Values == Expanded(i.inputs.Values, Gradient)
  {
    LayerIsReady(i);
    BackwardSides(i);
    BackwardInputValues(i.inputs, i.outputs);
    ExpandedValues(i.inputs, Gradient);
  }

  lemma BackwardSides(i: Invocation)
    requires ReadyForPassExpansion(i) && i.inputs.Keys !! i.outputs.Keys && !i.node.opAttrs.value.CopyOp?
    requires i.node.opAttrs.value.PcgOp? ==> i.node.opAttrs.value.op != ReplicateOperator
    ensures BackwardTask(i).node == i.node.(taskType := Some(BWD))
    ensures BackwardTask(i).inputs == BackwardInputs(i.inputs, i.outputs)
    ensures BackwardTask(i).outputs == ExpandSlots(i.inputs, Gradient)
  {
  }

  lemma BackwardInputValues(ins: map<TensorSlot, ValueAttrs>, outs: map<TensorSlot, ValueAttrs>)
    requires AreLayerSlots(ins) && AreLayerSlots(outs) && ins.Keys !! outs.Keys
    ensures BackwardInputs(ins, outs).Values
         == Expanded(ins.Values, Forward) + Expanded(outs.Values, Forward) + Expanded(outs.Values, Gradient)
  {
    ExpandedValues(ins, Forward);
    ExpandedValues(outs, Forward);
    ExpandedValues(outs, Gradient);
    SlotsApart(ins, outs, Forward, Forward);
    SlotsApart(ins, outs, Forward, Gradient);
    KindsApart(outs);
    MergedValues(ExpandSlots(ins, Forward), ExpandSlots(outs, Forward), ExpandSlots(outs, Gradient));
  }

  lemma MergedValues(x: map<TensorSlot, ValueAttrs>, y: map<TensorSlot, ValueAttrs>, z: map<TensorSlot, ValueAttrs>)
    requires x.Keys !! y.Keys && x.Keys !! z.Keys && y.Keys !! z.Keys
    ensures (x + y + z).Values == x.Values + y.Values + z.Values
  {
    var m := x + y + z;
    forall s | s in x ensures m[s] == x[s] {}
    forall s | s in y ensures m[s] == y[s] {}
    forall v | v in m.Values ensures v in x.Values + y.Values + z.Values {
      var s :| s in m && m[s] == v;
    }
    forall v | v in x.Values + y.Values + z.Values ensures v in m.Values {
      if v in x.Values {
        var s :| s in x && x[s] == v;
        assert m[s] == v;
      } else if v in y.Values {
        var s :| s in y && y[s] == v;
        assert m[s] == v;
      } else {
        var s :| s in z && z[s] == v;
        assert m[s] == v;
      }
    }
  }

  lemma UpdateValues(i: Invocation, attrs: OptimizerAttrs, v: ValueAttrs)
    requires IsLayer(i) && IsWeight(i) && v in UpdateTask(i, attrs).inputs.Values
    ensures v.role.Some? && v.role.value in UpdateRoles(attrs) && v.(role := None) in i.outputs.Values
  {
    var t :| t in UpdateTask(i, attrs).inputs && UpdateTask(i, attrs).inputs[t] == v;
    assert i.outputs[WeightSlot(i)] in i.outputs.Values;
  }

  // ------------------------------------------------------------------ the tasks by type

  lemma TypesOfTasks(cg: DynamicGraph, loss: Option<Loss>, attrs: OptimizerAttrs, t: Invocation)
    requires AreLayers(cg) && t in TrainingGraph(cg, loss, attrs)
    ensures t.node.taskType.Some?
    ensures t in ForwardTasks(cg) <==> t.node.taskType == Some(FWD)
    ensures t in BackwardTasks(cg) <==> t.node.taskType == Some(BWD)
    ensures t in LossTasks(loss) <==> t.node.taskType == Some(LOSS)
    ensures t in UpdateTasks(cg, attrs) <==> t.node.taskType == Some(UPD)
  {
    ForwardsAreForward(cg);
    BackwardsAreBackward(cg);
    UpdatesAreUpdates(cg, attrs);
  }

  lemma ForwardsAreForward(cg: DynamicGraph)
    requires AreLayers(cg)
    ensures forall t :: t in ForwardTasks(cg) ==> t.node.taskType == Some(FWD)
  {
    forall t | t in ForwardTasks(cg) ensures t.node.taskType == Some(FWD) { var i := ForwardLayer(cg, t); }
  }

  lemma BackwardsAreBackward(cg: DynamicGraph)
    requires AreLayers(cg)
    ensures forall t :: t in BackwardTasks(cg) ==> t.node.taskType == Some(BWD)
  {
    forall t | t in BackwardTasks(cg) ensures t.node.taskType == Some(BWD) { var i := BackwardLayer(cg, t); }
  }

  lemma UpdatesAreUpdates(cg: DynamicGraph, attrs: OptimizerAttrs)
    requires AreLayers(cg)
    ensures forall t :: t in UpdateTasks(cg, attrs) ==> t.node.taskType == Some(UPD)
  {
    forall t | t in UpdateTasks(cg, attrs) ensures t.node.taskType == Some(UPD) { var i := UpdateLayer(cg, attrs, t); }
  }

  lemma ForwardLayer(cg: DynamicGraph, t: Invocation) returns (i: Invocation)
    requires AreLayers(cg) && t in ForwardTasks(cg)
    ensures i in cg && IsLayer(i) && ReadyForPassExpansion(i) && t == ForwardTask(i)
  {
    LayersAreReady(cg);
    i :| i in cg && t == ForwardTask(i);
  }

  lemma BackwardLayer(cg: DynamicGraph, t: Invocation) returns (i: Invocation)
    requires AreLayers(cg) && t in BackwardTasks(cg)
    ensures i in cg && IsLayer(i) && NeededInBackward(cg, i) && ReadyForPassExpansion(i) && t == BackwardTask(i)
  {
    LayersAreReady(cg);
    i :| i in cg && NeededInBackward(cg, i) && t == BackwardTask(i);
  }

  lemma UpdateLayer(cg: DynamicGraph, attrs: OptimizerAttrs, t: Invocation) returns (i: Invocation)
    requires AreLayers(cg) && t in UpdateTasks(cg, attrs)
    ensures i in cg && IsLayer(i) && IsWeight(i) && t == UpdateTask(i, attrs)
  {
    i :| i in cg && IsWeight(i) && t == UpdateTask(i, attrs);
  }

  /** An update task produces nothing. It reads its weight in the forward and the gradient role and in
      the roles of the optimizer's tensors: the two moments of Adam, or the velocity of SGD when it
      has momentum. It overwrites all of them but the gradient. */
  lemma UpdateSlotsExactly(i: Invocation, attrs: OptimizerAttrs, s: TensorSlot)
    requires IsLayer(i) && IsWeight(i) && s in i.outputs
    ensures UpdateTask(i, attrs).node == i.node.(taskType := Some(UPD)) && UpdateTask(i, attrs).outputs == map[]
    ensures forall t :: t in UpdateTask(i, attrs).inputs <==>
      && t.role.Some? && t == s.(role := t.role)
      && (t.role.value.FwbTensor? || match attrs
            case SGD(_, momentum, _, _) => momentum > 0.0 && t.role.value == OptimizerTensor(0)
            case Adam(_, _, _, _, _, _, _, _) => t.role.value in {OptimizerTensor(1), OptimizerTensor(2)})
    ensures forall t :: t in UpdateTask(i, attrs).inputs ==>
      UpdateTask(i, attrs).inputs[t] == i.outputs[s].(role := t.role)
    ensures forall t :: t in UpdatedInPlace(UpdateTask(i, attrs)) <==>
      t in UpdateTask(i, attrs).inputs && t.role != Some(FwbTensor(Gradient))
  {
    assert s in i.outputs.Keys;
    assert s == WeightSlot(i);
    UpdateRolesExactly(attrs);
  }

  lemma UpdateRolesExactly(attrs: OptimizerAttrs)
    ensures forall r: TensorRole :: r in UpdateRoles(attrs) <==>
      || r.FwbTensor?
      || match attrs
         case SGD(_, momentum, _, _) => momentum > 0.0 && r == OptimizerTensor(0)
         case Adam(_, _, _, _, _, _, _, _) => r in {OptimizerTensor(1), OptimizerTensor(2)}
  {
    forall r: TensorRole | r.FwbTensor? ensures r in UpdateRoles(attrs) { TwoKinds(r); }
  }

  lemma TwoKinds(r: TensorRole)
    requires r.FwbTensor?
    ensures r in {FwbTensor(Forward), FwbTensor(Gradient)}
  {
    match r.kind
    case Forward =>
    case Gradient =>
  }

  /** Adam's update task reads four tensors, and SGD's two, or three when it has momentum. */
  lemma UpdateReadsCount(i: Invocation, attrs: OptimizerAttrs)
    requires IsLayer(i) && IsWeight(i)
    ensures |UpdateTask(i, attrs).inputs| == if attrs.Adam? then 4 else if attrs.momentum > 0.0 then 3 else 2
  {
    var s := WeightSlot(i);
    assert s in i.outputs.Keys;
    UpdateSlotsExactly(i, attrs, s);
    CountSlots(UpdateTask(i, attrs).inputs, attrs, s);
  }

  lemma CountSlots(ins: map<TensorSlot, ValueAttrs>, attrs: OptimizerAttrs, s: TensorSlot)
    requires forall t :: t in ins <==>
      && t.role.Some? && t == s.(role := t.role)
      && (t.role.value.FwbTensor? || match attrs
            case SGD(_, momentum, _, _) => momentum > 0.0 && t.role.value == OptimizerTensor(0)
            case Adam(_, _, _, _, _, _, _, _) => t.role.value in {OptimizerTensor(1), OptimizerTensor(2)})
    ensures |ins| == if attrs.Adam? then 4 else if attrs.momentum > 0.0 then 3 else 2
  {
    assert |ins| == |ins.Keys|;
    if attrs.Adam? {
      CountRoles(ins.Keys, s, {OptimizerTensor(1), OptimizerTensor(2)});
    } else if attrs.momentum > 0.0 {
      CountRoles(ins.Keys, s, {OptimizerTensor(0)});
    } else {
      CountRoles(ins.Keys, s, {});
    }
  }

  lemma CountRoles(keys: set<TensorSlot>, s: TensorSlot, more: set<TensorRole>)
    requires FwbTensor(Forward) !in more && FwbTensor(Gradient) !in more
    requires forall t :: t in keys <==>
      t.role.Some? && t == s.(role := t.role) && (t.role.value.FwbTensor? || t.role.value in more)
    ensures |keys| == |more| + 2
  {
    var roles := {FwbTensor(Forward), FwbTensor(Gradient)} + more;
    forall t | t in keys ensures t.role.value in roles {
      if t.role.value.FwbTensor? { TwoKinds(t.role.value); }
    }
    SlotPerRole(keys, s, roles);
  }

  lemma {:induction false} SlotPerRole(keys: set<TensorSlot>, s: TensorSlot, roles: set<TensorRole>)
    requires forall t :: t in keys <==> t.role.Some? && t == s.(role := t.role) && t.role.value in roles
    ensures |keys| == |roles|
  {
    if roles == {} {
      assert keys == {};
    } else {
      var r :| r in roles;
      var t := s.(role := Some(r));
      SlotPerRole(keys - {t}, s, roles - {r});
    }
  }

  /** Of every layer there is one forward task, a backward task when it reads a value whose gradient
      is needed, and an update task when it is a weight. */
  lemma TasksOfLayer(cg: DynamicGraph, loss: Option<Loss>, attrs: OptimizerAttrs, i: Invocation)
    requires IsLayerGraph(cg) && i in cg
    ensures ReadyForPassExpansion(i) && i.inputs.Keys !! i.outputs.Keys
    ensures ForwardTask(i) in TrainingGraph(cg, loss, attrs)
    ensures BackwardTask(i) in TrainingGraph(cg, loss, attrs) <==> i.inputs.Values * NeededValues(cg) != {}
    ensures IsWeight(i) ==> UpdateTask(i, attrs) in TrainingGraph(cg, loss, attrs)
    ensures forall t :: t in TrainingGraph(cg, loss, attrs) && t.node.layer == i.node.layer ==>
      t == ForwardTask(i) || t == BackwardTask(i) || (IsWeight(i) && t == UpdateTask(i, attrs))
  {
    LayersDiffer(cg, i);
    TasksOfSoleLayer(cg, loss, attrs, i);
  }

  lemma TasksOfSoleLayer(cg: DynamicGraph, loss: Option<Loss>, attrs: OptimizerAttrs, i: Invocation)
    requires AreLayers(cg) && IsSoleLayer(cg, i)
    ensures ReadyForPassExpansion(i) && i.inputs.Keys !! i.outputs.Keys
    ensures ForwardTask(i) in TrainingGraph(cg, loss, attrs)
    ensures BackwardTask(i) in TrainingGraph(cg, loss, attrs) <==> NeededInBackward(cg, i)
    ensures IsWeight(i) ==> UpdateTask(i, attrs) in TrainingGraph(cg, loss, attrs)
    ensures forall t :: t in TrainingGraph(cg, loss, attrs) && t.node.layer == i.node.layer ==>
      t == ForwardTask(i) || t == BackwardTask(i) || (IsWeight(i) && t == UpdateTask(i, attrs))
  {
    OwnTasks(cg, i);
    BackwardTaskExactly(cg, loss, attrs, i);
    forall t | t in TrainingGraph(cg, loss, attrs) && t.node.layer == i.node.layer
      ensures t == ForwardTask(i) || t == BackwardTask(i) || (IsWeight(i) && t == UpdateTask(i, attrs))
    {
      TaskOfLayer(cg, loss, attrs, i, t);
    }
  }

  lemma OwnTasks(cg: DynamicGraph, i: Invocation)
    requires AreLayers(cg) && i in cg
    ensures ReadyForPassExpansion(i) && i.inputs.Keys !! i.outputs.Keys && ForwardTask(i) in ForwardTasks(cg)
    ensures NeededInBackward(cg, i) ==> BackwardTask(i) in BackwardTasks(cg)
  {
    LayersAreReady(cg);
  }

  ghost predicate IsSoleLayer(cg: DynamicGraph, i: Invocation) {
    i in cg && forall j :: j in cg && SameLayer(i, j) ==> i == j
  }

  lemma LayersDiffer(cg: DynamicGraph, i: Invocation)
    requires IsLayerGraph(cg) && i in cg
    ensures AreLayers(cg) && IsSoleLayer(cg, i)
  {
  }

  lemma BackwardTaskExactly(cg: DynamicGraph, loss: Option<Loss>, attrs: OptimizerAttrs, i: Invocation)
    requires AreLayers(cg) && IsSoleLayer(cg, i)
    ensures ReadyForPassExpansion(i) && i.inputs.Keys !! i.outputs.Keys
    ensures BackwardTask(i) in TrainingGraph(cg, loss, attrs) <==> NeededInBackward(cg, i)
  {
    OwnTasks(cg, i);
    LayerBackward(i);
    BackwardIsNeeded(cg, loss, attrs, i, BackwardTask(i));
  }

  lemma BackwardIsNeeded(
      cg: DynamicGraph, loss: Option<Loss>, attrs: OptimizerAttrs, i: Invocation, t: Invocation)
    requires AreLayers(cg) && IsSoleLayer(cg, i)
    requires t.node.taskType == Some(BWD) && t.node.layer == i.node.layer
    ensures t in TrainingGraph(cg, loss, attrs) ==> NeededInBackward(cg, i)
  {
    if t in TrainingGraph(cg, loss, attrs) {
      TypesOfTasks(cg, loss, attrs, t);
      var j := BackwardLayer(cg, t);
      LayerBackward(j);
      assert SameLayer(i, j);
    }
  }

  lemma LayerBackward(i: Invocation)
    requires IsLayer(i)
    ensures ReadyForPassExpansion(i) && BackwardTask(i).node == i.node.(taskType := Some(BWD))
  {
    LayerIsReady(i);
    BackwardSides(i);
  }

  lemma TaskOfLayer(cg: DynamicGraph, loss: Option<Loss>, attrs: OptimizerAttrs, i: Invocation, t: Invocation)
    requires AreLayers(cg) && IsSoleLayer(cg, i)
    requires t in TrainingGraph(cg, loss, attrs) && t.node.layer == i.node.layer
    ensures ReadyForPassExpansion(i) && i.inputs.Keys !! i.outputs.Keys
    ensures t == ForwardTask(i) || t == BackwardTask(i) || (IsWeight(i) && t == UpdateTask(i, attrs))
  {
    OwnTasks(cg, i);
    LossIsNoLayer(loss, i, t);
    var j := OriginOf(cg, loss, attrs, t);
    assert SameLayer(i, j);
  }

  lemma OriginOf(
      cg: DynamicGraph, loss: Option<Loss>, attrs: OptimizerAttrs, t: Invocation) returns (i: Invocation)
    requires AreLayers(cg) && t in TrainingGraph(cg, loss, attrs) && t !in LossTasks(loss)
    ensures i in cg && t.node.layer == i.node.layer && ReadyForPassExpansion(i) && i.inputs.Keys !! i.outputs.Keys
    ensures t == ForwardTask(i) || t == BackwardTask(i) || (IsLayer(i) && IsWeight(i) && t == UpdateTask(i, attrs))
  {
    if t in ForwardTasks(cg) {
      i := ForwardLayer(cg, t);
    } else if t in BackwardTasks(cg) {
      i := BackwardLayer(cg, t);
      LayerBackward(i);
    } else {
      i := UpdateLayer(cg, attrs, t);
      LayerIsReady(i);
    }
  }

  lemma LossIsNoLayer(loss: Option<Loss>, i: Invocation, t: Invocation)
    requires t.node.layer == i.node.layer
    ensures IsLayer(i) ==> t !in LossTasks(loss)
  {
  }

  /** The tasks that belong to no layer are the one of the loss, if there is a loss. It compares the
      logits with labels of the same shape, and produces the gradient of the logits. */
  lemma LossTaskExactly(cg: DynamicGraph, loss: Option<Loss>, attrs: OptimizerAttrs, t: Invocation)
    requires AreLayers(cg)
    ensures t in TrainingGraph(cg, loss, attrs) && t.node.taskType == Some(LOSS) <==>
      && loss.Some? && t.node == NodeAttrs(Some(LOSS), Some(LossOp(loss.value.attrs)), LOSS_LAYER, None)
      && t.inputs == map[
           TensorSlot(LABEL_NAME, Some(LossTensor), None) :=
             ValueAttrs(LOSS_TENSOR, loss.value.logit.pieceDims, Some(false), Some(LossTensor), None),
           TensorSlot(LOGIT_NAME, Some(FwbTensor(Forward)), None) :=
             loss.value.logit.(role := Some(FwbTensor(Forward)))]
      && t.outputs == map[
           TensorSlot(LOGIT_NAME, Some(FwbTensor(Gradient)), None) :=
             loss.value.logit.(role := Some(FwbTensor(Gradient)))]
  {
    if t in TrainingGraph(cg, loss, attrs) { TypesOfTasks(cg, loss, attrs, t); }
    if loss.Some? { assert LossTask(loss.value.logit, loss.value.attrs) in LossTasks(loss); }
  }

  lemma ExpandIsInjective(v: ValueAttrs, w: ValueAttrs, j: FwbTensorType, k: FwbTensorType)
    requires v.role.None? && w.role.None? && ExpandValue(v, j) == ExpandValue(w, k)
    ensures v == w && j == k
  {
    assert v == ExpandValue(v, j).(role := None) && w == ExpandValue(w, k).(role := None);
  }
}
