/** What the passes make of a graph of layers: when the result is valid, that it has no cycle and
    goes through the phases in order, and that it orders all users of every tensor it trains. */
module TrainingGraphs {
  import opened Sequences
  import opened Digraphs
  import opened DynamicGraphs
  import opened LocalExecution
  import opened Options
  import opened PassExpansion
  import opened Timings

  // --------------------------------------------------------------- the dataflow of training

  predicate HaveNoRole(values: set<ValueAttrs>) {
    forall v :: v in values ==> v.role.None?
  }

  predicate HaveRole(values: set<ValueAttrs>, kind: FwbTensorType) {
    forall v :: v in values ==> v.role == Some(FwbTensor(kind))
  }

  lemma ExpandedRoles(values: set<ValueAttrs>, kind: FwbTensorType)
    ensures HaveRole(Expanded(values, kind), kind)
  {
  }

  lemma LayerRoles(i: Invocation)
    requires IsLayer(i)
    ensures HaveNoRole(i.inputs.Values) && HaveNoRole(i.outputs.Values)
  {
  }

  /** Expanded values meet only where the values did, and in the same role. */
  lemma ExpandedMeet(x: set<ValueAttrs>, y: set<ValueAttrs>, kind: FwbTensorType)
    requires HaveNoRole(x) && HaveNoRole(y) && Expanded(x, kind) * Expanded(y, kind) != {}
    ensures x * y != {}
  {
    var v :| v in Expanded(x, kind) * Expanded(y, kind);
    var a :| a in x && ExpandValue(a, kind) == v;
    var b :| b in y && ExpandValue(b, kind) == v;
    ExpandIsInjective(a, b, kind, kind);
    assert a in x * y;
  }

  lemma RolesApart(x: set<ValueAttrs>, y: set<ValueAttrs>)
    requires HaveRole(x, Forward) && HaveRole(y, Gradient)
    ensures x * y == {}
  {
  }

  /** The values of a forward task are those of its layer. */
  ghost predicate ForwardOf(t: Invocation, i: Invocation) {
    && HaveNoRole(i.inputs.Values) && HaveNoRole(i.outputs.Values) && SameLayer(i, t)
    && t.inputs.Values == Expanded(i.inputs.Values, Forward) && t.outputs.Values == Expanded(i.outputs.Values, Forward)
  }

  /** And so are those of a backward task, with the gradients of its layer's outputs read and those
      of the inputs written. */
  ghost predicate BackwardOf(t: Invocation, i: Invocation) {
    && HaveNoRole(i.inputs.Values) && HaveNoRole(i.outputs.Values) && SameLayer(i, t)
    && t.inputs.Values
       == Expanded(i.inputs.Values, Forward) + Expanded(i.outputs.Values, Forward) +
         Expanded(i.outputs.Values, Gradient)
    && t.outputs.Values == Expanded(i.inputs.Values, Gradient)
  }

  lemma ForwardOrigin(cg: DynamicGraph, t: Invocation) returns (i: Invocation)
    requires AreLayers(cg) && t in ForwardTasks(cg)
    ensures i in cg && ForwardOf(t, i)
  {
    i := ForwardLayer(cg, t);
    ForwardValues(i);
    LayerRoles(i);
  }

  lemma BackwardOrigin(cg: DynamicGraph, t: Invocation) returns (i: Invocation)
    requires AreLayers(cg) && t in BackwardTasks(cg)
    ensures i in cg && NeededInBackward(cg, i) && BackwardOf(t, i)
  {
    i := BackwardLayer(cg, t);
    BackwardValues(i);
    LayerRoles(i);
  }

  lemma ForwardFeeds(a: Invocation, b: Invocation, i: Invocation, j: Invocation)
    requires ForwardOf(a, i) && ForwardOf(b, j) && Feeds(a, b)
    ensures Feeds(i, j)
  {
    ExpandedMeet(i.outputs.Values, j.inputs.Values, Forward);
  }

  lemma BackwardFeeds(a: Invocation, b: Invocation, i: Invocation, j: Invocation)
    requires BackwardOf(a, i) && BackwardOf(b, j) && Feeds(a, b)
    ensures Feeds(j, i)
  {
    OnlyGradientsMeet(i.inputs.Values, j.inputs.Values, j.outputs.Values);
    ExpandedMeet(i.inputs.Values, j.outputs.Values, Gradient);
  }

  lemma OnlyGradientsMeet(x: set<ValueAttrs>, y: set<ValueAttrs>, z: set<ValueAttrs>)
    requires Expanded(x, Gradient) * (Expanded(y, Forward) + Expanded(z, Forward) + Expanded(z, Gradient)) != {}
    ensures Expanded(x, Gradient) * Expanded(z, Gradient) != {}
  {
    ExpandedRoles(x, Gradient);
    ExpandedRoles(y, Forward);
    ExpandedRoles(z, Forward);
    RolesApart(Expanded(y, Forward), Expanded(x, Gradient));
    RolesApart(Expanded(z, Forward), Expanded(x, Gradient));
  }

  lemma ForwardRoles(cg: DynamicGraph, t: Invocation)
    requires AreLayers(cg) && t in ForwardTasks(cg)
    ensures HaveRole(t.inputs.Values, Forward) && HaveRole(t.outputs.Values, Forward)
  {
    var i := ForwardOrigin(cg, t);
    ExpandedRoles(i.inputs.Values, Forward);
    ExpandedRoles(i.outputs.Values, Forward);
  }

  lemma BackwardRoles(cg: DynamicGraph, t: Invocation)
    requires AreLayers(cg) && t in BackwardTasks(cg)
    ensures HaveRole(t.outputs.Values, Gradient)
  {
    var i := BackwardOrigin(cg, t);
    ExpandedRoles(i.inputs.Values, Gradient);
  }

  lemma LossReadsNoGradient(loss: Option<Loss>, t: Invocation, v: ValueAttrs)
    requires t in LossTasks(loss) && v in t.inputs.Values
    ensures v.role != Some(FwbTensor(Gradient))
  {
  }

  /** The layer that a task comes from. */
  ghost predicate ComesFrom(cg: DynamicGraph, t: Invocation, i: Invocation) {
    i in cg && SameLayer(i, t)
  }

  /** The position of the layer's first entry in the order. */
  function Position(order: seq<Invocation>, layer: nat): (k: nat)
    ensures k <= |order|
    ensures k < |order| ==> order[k].node.layer == layer
    ensures forall j :: 0 <= j < k ==> order[j].node.layer != layer
  {
    if order == [] || order[0].node.layer == layer then 0 else 1 + Position(order[1..], layer)
  }

  /** Phases come one after the other; forward tasks follow the order of the layers, and backward
      tasks the reverse order. */
  function RankOf(order: seq<Invocation>, t: Invocation): int {
    var k: nat := Position(order, t.node.layer);
    PhaseRank(t) * (|order| + 1)
    + if t.node.taskType == Some(FWD) then k else if t.node.taskType == Some(BWD) then |order| - k else 0
  }

  lemma PositionOf(cg: DynamicGraph, order: seq<Invocation>, t: Invocation, i: Invocation)
    requires IsLayerGraph(cg) && IsTopologicalOrdering(DataflowGraph(cg), order) && ComesFrom(cg, t, i)
    ensures Position(order, t.node.layer) < |order| && order[Position(order, t.node.layer)] == i
  {
    assert i in order;
    var k :| 0 <= k < |order| && order[k] == i;
    var p := Position(order, t.node.layer);
    assert order[p] in order && order[p] in cg && SameLayer(order[p], i);
  }

  lemma LayersInOrder(cg: DynamicGraph, order: seq<Invocation>, i: Invocation, j: Invocation, p: nat, q: nat)
    requires IsTopologicalOrdering(DataflowGraph(cg), order) && i in cg && j in cg && Feeds(i, j)
    requires p < |order| && q < |order| && order[p] == i && order[q] == j
    ensures p < q
  {
    assert (i, j) in DataflowGraph(cg).edges;
    var k, l :| 0 <= k < l < |order| && order[k] == i && order[l] == j;
  }

  lemma RankBound(order: seq<Invocation>, t: Invocation)
    ensures PhaseRank(t) * (|order| + 1) <= RankOf(order, t) < (PhaseRank(t) + 1) * (|order| + 1)
  {
  }

  lemma LaterPhaseRanksHigher(order: seq<Invocation>, a: Invocation, b: Invocation)
    requires PhaseRank(a) < PhaseRank(b)
    ensures RankOf(order, a) < RankOf(order, b)
  {
    RankBound(order, a);
    RankBound(order, b);
    assert (PhaseRank(a) + 1) * (|order| + 1) <= PhaseRank(b) * (|order| + 1);
  }

  lemma WithinPhase(order: seq<Invocation>, a: Invocation, b: Invocation)
    requires a.node.taskType == b.node.taskType
    requires a.node.taskType == Some(FWD) ==> Position(order, a.node.layer) < Position(order, b.node.layer)
    requires a.node.taskType == Some(BWD) ==> Position(order, b.node.layer) < Position(order, a.node.layer)
    requires a.node.taskType == Some(FWD) || a.node.taskType == Some(BWD)
    ensures RankOf(order, a) < RankOf(order, b)
  {
    assert PhaseRank(a) * (|order| + 1) == PhaseRank(b) * (|order| + 1);
  }

  lemma LayersOfForwards(cg: DynamicGraph, a: Invocation, b: Invocation) returns (i: Invocation, j: Invocation)
    requires AreLayers(cg) && a in ForwardTasks(cg) && b in ForwardTasks(cg) && Feeds(a, b)
    ensures ComesFrom(cg, a, i) && ComesFrom(cg, b, j) && Feeds(i, j)
  {
    i := ForwardOrigin(cg, a);
    j := ForwardOrigin(cg, b);
    ForwardFeeds(a, b, i, j);
  }

  lemma LayersOfBackwards(cg: DynamicGraph, a: Invocation, b: Invocation) returns (i: Invocation, j: Invocation)
    requires AreLayers(cg) && a in BackwardTasks(cg) && b in BackwardTasks(cg) && Feeds(a, b)
    ensures ComesFrom(cg, a, i) && ComesFrom(cg, b, j) && Feeds(j, i)
  {
    i := BackwardOrigin(cg, a);
    j := BackwardOrigin(cg, b);
    BackwardFeeds(a, b, i, j);
  }

  lemma ForwardsRaiseRank(cg: DynamicGraph, order: seq<Invocation>, a: Invocation, b: Invocation)
    requires IsLayerGraph(cg) && IsTopologicalOrdering(DataflowGraph(cg), order)
    requires a in ForwardTasks(cg) && b in ForwardTasks(cg) && Feeds(a, b)
    ensures RankOf(order, a) < RankOf(order, b)
  {
    var i, j := LayersOfForwards(cg, a, b);
    LayersFollow(cg, order, a, b, i, j);
    ForwardsAreForward(cg);
    WithinPhase(order, a, b);
  }

  lemma BackwardsRaiseRank(cg: DynamicGraph, order: seq<Invocation>, a: Invocation, b: Invocation)
    requires IsLayerGraph(cg) && IsTopologicalOrdering(DataflowGraph(cg), order)
    requires a in BackwardTasks(cg) && b in BackwardTasks(cg) && Feeds(a, b)
    ensures RankOf(order, a) < RankOf(order, b)
  {
    var i, j := LayersOfBackwards(cg, a, b);
    LayersFollow(cg, order, b, a, j, i);
    BackwardsAreBackward(cg);
    WithinPhase(order, a, b);
  }

  lemma LayersFollow(
      cg: DynamicGraph, order: seq<Invocation>, a: Invocation, b: Invocation, i: Invocation, j: Invocation)
    requires IsLayerGraph(cg) && IsTopologicalOrdering(DataflowGraph(cg), order)
    requires ComesFrom(cg, a, i) && ComesFrom(cg, b, j) && Feeds(i, j)
    ensures Position(order, a.node.layer) < Position(order, b.node.layer)
  {
    PositionOf(cg, order, a, i);
    PositionOf(cg, order, b, j);
    LayersInOrder(cg, order, i, j, Position(order, a.node.layer), Position(order, b.node.layer));
  }

  /** A gradient is read only by backward and update tasks. */
  lemma GradientsGoOn(cg: DynamicGraph, loss: Option<Loss>, attrs: OptimizerAttrs, b: Invocation, v: ValueAttrs)
    requires AreLayers(cg) && b in TrainingGraph(cg, loss, attrs)
    requires v in b.inputs.Values && v.role == Some(FwbTensor(Gradient))
    ensures b.node.taskType == Some(BWD) || b.node.taskType == Some(UPD)
  {
    TypesOfTasks(cg, loss, attrs, b);
    if b in ForwardTasks(cg) { ForwardRoles(cg, b); }
    if b in LossTasks(loss) { LossReadsNoGradient(loss, b, v); }
  }

  lemma WhatFollowsBackward(
      cg: DynamicGraph, loss: Option<Loss>, attrs: OptimizerAttrs, a: Invocation, b: Invocation)
    requires AreLayers(cg) && b in TrainingGraph(cg, loss, attrs) && Feeds(a, b)
    requires a in BackwardTasks(cg) || a in LossTasks(loss)
    ensures b.node.taskType == Some(BWD) || b.node.taskType == Some(UPD)
  {
    var v :| v in a.outputs.Values * b.inputs.Values;
    if a in BackwardTasks(cg) { BackwardRoles(cg, a); }
    GradientsGoOn(cg, loss, attrs, b, v);
  }

  /** Data flows from an earlier kind of task to a later one, along the layers among forward tasks,
      and against them among backward tasks. */
  lemma DataRaisesRank(
      cg: DynamicGraph, loss: Option<Loss>, attrs: OptimizerAttrs, order: seq<Invocation>, a: Invocation, b: Invocation)
    requires IsLayerGraph(cg) && IsTopologicalOrdering(DataflowGraph(cg), order)
    requires a in TrainingGraph(cg, loss, attrs) && b in TrainingGraph(cg, loss, attrs) && Feeds(a, b)
    ensures RankOf(order, a) < RankOf(order, b)
  {
    if a.node.taskType == b.node.taskType {
      SamePhaseRaisesRank(cg, loss, attrs, order, a, b);
    } else {
      OtherPhaseIsLater(cg, loss, attrs, a, b);
      LaterPhaseRanksHigher(order, a, b);
    }
  }

  lemma SamePhaseRaisesRank(
      cg: DynamicGraph, loss: Option<Loss>, attrs: OptimizerAttrs, order: seq<Invocation>, a: Invocation, b: Invocation)
    requires IsLayerGraph(cg) && IsTopologicalOrdering(DataflowGraph(cg), order)
    requires a in TrainingGraph(cg, loss, attrs) && b in TrainingGraph(cg, loss, attrs) && Feeds(a, b)
    requires a.node.taskType == b.node.taskType
    ensures RankOf(order, a) < RankOf(order, b)
  {
    TypesOfTasks(cg, loss, attrs, a);
    TypesOfTasks(cg, loss, attrs, b);
    if a in ForwardTasks(cg) {
      ForwardsRaiseRank(cg, order, a, b);
    } else if a in BackwardTasks(cg) {
      BackwardsRaiseRank(cg, order, a, b);
    } else {
      UpdatesFeedNothing(cg, attrs, a, b);
      WhatFollowsBackward(cg, loss, attrs, a, b);
      assert false;
    }
  }

  lemma UpdatesFeedNothing(cg: DynamicGraph, attrs: OptimizerAttrs, a: Invocation, b: Invocation)
    requires AreLayers(cg) && Feeds(a, b)
    ensures a !in UpdateTasks(cg, attrs)
  {
    if a in UpdateTasks(cg, attrs) {
      var i := UpdateLayer(cg, attrs, a);
    }
  }

  lemma OtherPhaseIsLater(cg: DynamicGraph, loss: Option<Loss>, attrs: OptimizerAttrs, a: Invocation, b: Invocation)
    requires AreLayers(cg) && a in TrainingGraph(cg, loss, attrs) && b in TrainingGraph(cg, loss, attrs)
    requires Feeds(a, b) && a.node.taskType != b.node.taskType
    ensures PhaseRank(a) < PhaseRank(b)
  {
    TypesOfTasks(cg, loss, attrs, a);
    TypesOfTasks(cg, loss, attrs, b);
    UpdatesFeedNothing(cg, attrs, a, b);
    if a.node.taskType != Some(FWD) {
      WhatFollowsBackward(cg, loss, attrs, a, b);
    }
    OtherTypeRanksHigher(a, b);
  }

  lemma OtherTypeRanksHigher(a: Invocation, b: Invocation)
    requires a.node.taskType.Some? && b.node.taskType.Some? && a.node.taskType != b.node.taskType && !IsUpdate(a)
    requires a.node.taskType == Some(FWD) || b.node.taskType == Some(BWD) || IsUpdate(b)
    ensures PhaseRank(a) < PhaseRank(b)
  {
  }

  lemma HigherRankIsNoEarlierPhase(order: seq<Invocation>, a: Invocation, b: Invocation)
    requires RankOf(order, a) < RankOf(order, b)
    ensures PhaseRank(a) <= PhaseRank(b)
  {
    if PhaseRank(b) < PhaseRank(a) { LaterPhaseRanksHigher(order, b, a); }
  }

  /** The graph that is trained has no cycle, and no dependency leads from a later phase back to an
      earlier one. */
  lemma TrainingGoesForward(cg: DynamicGraph, loss: Option<Loss>, attrs: OptimizerAttrs)
    requires IsLayerGraph(cg)
    ensures Acyclic(DataflowGraph(TrainingGraph(cg, loss, attrs)))
    ensures PhasesForward(TrainingGraph(cg, loss, attrs))
  {
    var g := TrainingGraph(cg, loss, attrs);
    DataflowGraphIsWellFormed(cg);
    var order := OrderingExists(DataflowGraph(cg));
    var rank := map t | t in g :: RankOf(order, t);
    forall a, b | a in g && b in g && Feeds(a, b) ensures rank[a] < rank[b] && PhaseRank(a) <= PhaseRank(b) {
      DataRaisesRank(cg, loss, attrs, order, a, b);
      HigherRankIsNoEarlierPhase(order, a, b);
    }
    assert Ranks(DataflowGraph(g), rank);
    RankedIsAcyclic(DataflowGraph(g), rank);
  }

  // ------------------------------------------------------ when every gradient has one source

  /** No two slots of the layers that gradients pass through read the same value, and none of them
      reads the logits. */
  ghost predicate GradientsOnce(cg: DynamicGraph, loss: Option<Loss>) {
    && (forall i, j, s, t ::
          NeededInBackward(cg, i) && NeededInBackward(cg, j) && s in i.inputs && t in j.inputs &&
            i.inputs[s] == j.inputs[t]
          ==> i == j && s == t)
    && (loss.Some? ==> forall i :: NeededInBackward(cg, i) ==> loss.value.logit !in i.inputs.Values)
  }

  lemma ForwardOutput(cg: DynamicGraph, t: Invocation, s: TensorSlot) returns (i: Invocation)
    requires AreLayers(cg) && t in ForwardTasks(cg) && s in t.outputs
    ensures i in cg && IsLayer(i) && ReadyForPassExpansion(i) && t == ForwardTask(i)
    ensures Unexpanded(s) in i.outputs && t.outputs[s] == ExpandValue(i.outputs[Unexpanded(s)], Forward)
    ensures s == ExpandSlot(Unexpanded(s), Forward)
  {
    i := ForwardLayer(cg, t);
  }

  lemma BackwardOutput(cg: DynamicGraph, t: Invocation, s: TensorSlot) returns (i: Invocation)
    requires AreLayers(cg) && t in BackwardTasks(cg) && s in t.outputs
    ensures NeededInBackward(cg, i) && IsLayer(i) && ReadyForPassExpansion(i) && t == BackwardTask(i)
    ensures Unexpanded(s) in i.inputs && t.outputs[s] == ExpandValue(i.inputs[Unexpanded(s)], Gradient)
    ensures s == ExpandSlot(Unexpanded(s), Gradient)
  {
    i := BackwardLayer(cg, t);
  }

  lemma SlotValueHasNoRole(i: Invocation, s: TensorSlot)
    requires IsLayer(i)
    ensures s in i.inputs ==> i.inputs[s].role.None? && i.inputs[s] in ValuesOf(i)
    ensures s in i.outputs ==> i.outputs[s].role.None? && i.outputs[s] in ValuesOf(i)
  {
  }

  lemma ForwardsProduceOnce(cg: DynamicGraph, a: Invocation, b: Invocation, s: TensorSlot, t: TensorSlot)
    requires AreLayers(cg) && ProducedOnce(cg) && a in ForwardTasks(cg) && b in ForwardTasks(cg)
    requires s in a.outputs && t in b.outputs && a.outputs[s] == b.outputs[t]
    ensures a == b && s == t
  {
    var i := ForwardOutput(cg, a, s);
    var j := ForwardOutput(cg, b, t);
    SlotValueHasNoRole(i, Unexpanded(s));
    SlotValueHasNoRole(j, Unexpanded(t));
    ExpandIsInjective(i.outputs[Unexpanded(s)], j.outputs[Unexpanded(t)], Forward, Forward);
  }

  lemma BackwardsProduceOnce(
      cg: DynamicGraph, loss: Option<Loss>, a: Invocation, b: Invocation, s: TensorSlot, t: TensorSlot)
    requires AreLayers(cg) && GradientsOnce(cg, loss) && a in BackwardTasks(cg) && b in BackwardTasks(cg)
    requires s in a.outputs && t in b.outputs && a.outputs[s] == b.outputs[t]
    ensures a == b && s == t
  {
    var i := BackwardOutput(cg, a, s);
    var j := BackwardOutput(cg, b, t);
    SlotValueHasNoRole(i, Unexpanded(s));
    SlotValueHasNoRole(j, Unexpanded(t));
    ExpandIsInjective(i.inputs[Unexpanded(s)], j.inputs[Unexpanded(t)], Gradient, Gradient);
  }

  lemma LossOutput(loss: Option<Loss>, t: Invocation, s: TensorSlot)
    requires t in LossTasks(loss) && s in t.outputs
    ensures loss.Some? && t.outputs[s] == ExpandValue(loss.value.logit, Gradient)
    ensures s == TensorSlot(LOGIT_NAME, Some(FwbTensor(Gradient)), None)
  {
  }

  lemma LogitsHaveOneGradient(cg: DynamicGraph, loss: Option<Loss>, b: Invocation, t: TensorSlot)
    requires AreLayers(cg) && GradientsOnce(cg, loss) && b in BackwardTasks(cg) && t in b.outputs
    requires loss.Some? && loss.value.logit.role.None?
    ensures b.outputs[t] != ExpandValue(loss.value.logit, Gradient)
  {
    var i, x := GradientSource(cg, b, t);
    NotTheLogits(cg, loss, i, x);
    ExpandKeepsApart(x, loss.value.logit, Gradient);
  }

  lemma GradientSource(cg: DynamicGraph, b: Invocation, t: TensorSlot) returns (i: Invocation, x: ValueAttrs)
    requires AreLayers(cg) && b in BackwardTasks(cg) && t in b.outputs
    ensures NeededInBackward(cg, i) && x in i.inputs.Values && x.role.None? && b.outputs[t] == ExpandValue(x, Gradient)
  {
    i := BackwardOutput(cg, b, t);
    SlotValueHasNoRole(i, Unexpanded(t));
    x := i.inputs[Unexpanded(t)];
  }

  lemma NotTheLogits(cg: DynamicGraph, loss: Option<Loss>, i: Invocation, x: ValueAttrs)
    requires GradientsOnce(cg, loss) && NeededInBackward(cg, i) && x in i.inputs.Values && loss.Some?
    ensures x != loss.value.logit
  {
  }

  lemma ExpandKeepsApart(v: ValueAttrs, w: ValueAttrs, kind: FwbTensorType)
    requires v.role.None? && w.role.None? && v != w
    ensures ExpandValue(v, kind) != ExpandValue(w, kind)
  {
    if ExpandValue(v, kind) == ExpandValue(w, kind) { ExpandIsInjective(v, w, kind, kind); }
  }

  lemma SameTypeProducesOnce(
      cg: DynamicGraph, loss: Option<Loss>, attrs: OptimizerAttrs, a: Invocation, b: Invocation, s: TensorSlot,
      t: TensorSlot)
    requires AreLayers(cg) && ProducedOnce(cg) && GradientsOnce(cg, loss)
    requires a in TrainingGraph(cg, loss, attrs) && b in TrainingGraph(cg, loss, attrs)
    requires a.node.taskType == b.node.taskType && s in a.outputs && t in b.outputs && a.outputs[s] == b.outputs[t]
    ensures a == b && s == t
  {
    TypesOfTasks(cg, loss, attrs, a);
    TypesOfTasks(cg, loss, attrs, b);
    if a in ForwardTasks(cg) {
      ForwardsProduceOnce(cg, a, b, s, t);
    } else if a in BackwardTasks(cg) {
      BackwardsProduceOnce(cg, loss, a, b, s, t);
    } else if a in LossTasks(loss) {
      LossOutput(loss, a, s);
      LossOutput(loss, b, t);
    } else {
      var i := UpdateLayer(cg, attrs, a);
      assert false;
    }
  }

  lemma OutputRole(cg: DynamicGraph, loss: Option<Loss>, attrs: OptimizerAttrs, a: Invocation, s: TensorSlot)
    requires AreLayers(cg) && a in TrainingGraph(cg, loss, attrs) && s in a.outputs
    ensures a.node.taskType == Some(FWD) <==> a.outputs[s].role == Some(FwbTensor(Forward))
    ensures a.node.taskType != Some(FWD) ==>
      a.outputs[s].role == Some(FwbTensor(Gradient)) && (a in BackwardTasks(cg) || a in LossTasks(loss))
  {
    TypesOfTasks(cg, loss, attrs, a);
    if a in ForwardTasks(cg) {
      var i := ForwardOutput(cg, a, s);
    } else if a in BackwardTasks(cg) {
      var i := BackwardOutput(cg, a, s);
    } else if a in LossTasks(loss) {
      LossOutput(loss, a, s);
    } else {
      var i := UpdateLayer(cg, attrs, a);
      assert false;
    }
  }

  lemma OtherTypesProduceOther(
      cg: DynamicGraph, loss: Option<Loss>, attrs: OptimizerAttrs, a: Invocation, b: Invocation, s: TensorSlot,
      t: TensorSlot)
    requires AreLayers(cg) && GradientsOnce(cg, loss) && (loss.Some? ==> loss.value.logit.role.None?)
    requires a in TrainingGraph(cg, loss, attrs) && b in TrainingGraph(cg, loss, attrs)
    requires a.node.taskType != b.node.taskType && s in a.outputs && t in b.outputs
    ensures a.outputs[s] != b.outputs[t]
  {
    TypesOfTasks(cg, loss, attrs, a);
    TypesOfTasks(cg, loss, attrs, b);
    OutputRole(cg, loss, attrs, a, s);
    OutputRole(cg, loss, attrs, b, t);
    if a in LossTasks(loss) && b in BackwardTasks(cg) {
      LossOutput(loss, a, s);
      LogitsHaveOneGradient(cg, loss, b, t);
    } else if a in BackwardTasks(cg) && b in LossTasks(loss) {
      LossOutput(loss, b, t);
      LogitsHaveOneGradient(cg, loss, a, s);
    }
  }

  /** The graph's own check, that no value is produced twice, succeeds exactly when every gradient
      has one source: no value is read in two places that gradients come back from. */
  lemma ProducedOnceExactly(cg: DynamicGraph, loss: Option<Loss>, attrs: OptimizerAttrs)
    requires IsLayerGraph(cg) && (loss.Some? ==> loss.value.logit.role.None?)
    ensures ProducedOnce(TrainingGraph(cg, loss, attrs)) <==> GradientsOnce(cg, loss)
  {
    var g := TrainingGraph(cg, loss, attrs);
    if GradientsOnce(cg, loss) {
      forall a, b, s, t | a in g && b in g && s in a.outputs && t in b.outputs && a.outputs[s] == b.outputs[t]
        ensures a == b && s == t
      {
        if a.node.taskType == b.node.taskType {
          SameTypeProducesOnce(cg, loss, attrs, a, b, s, t);
        } else {
          OtherTypesProduceOther(cg, loss, attrs, a, b, s, t);
        }
      }
    }
    if ProducedOnce(g) {
      forall i, j, s, t | NeededInBackward(cg, i) && NeededInBackward(cg, j) && s in i.inputs && t in j.inputs
        && i.inputs[s] == j.inputs[t]
        ensures i == j && s == t
      {
        TwoReadersProduceTwice(cg, loss, attrs, i, j, s, t);
      }
      forall i | loss.Some? && NeededInBackward(cg, i) ensures loss.value.logit !in i.inputs.Values {
        ReadLogitsProduceTwice(cg, loss, attrs, i);
      }
    }
  }

  lemma TwoReadersProduceTwice(
      cg: DynamicGraph, loss: Option<Loss>, attrs: OptimizerAttrs, i: Invocation, j: Invocation, s: TensorSlot,
      t: TensorSlot)
    requires IsLayerGraph(cg) && ProducedOnce(TrainingGraph(cg, loss, attrs))
    requires NeededInBackward(cg, i) && NeededInBackward(cg, j) && s in i.inputs && t in j.inputs
    requires i.inputs[s] == j.inputs[t]
    ensures i == j && s == t
  {
    var a, s' := GradientOutput(cg, i, s);
    var b, t' := GradientOutput(cg, j, t);
    SoleOutput(TrainingGraph(cg, loss, attrs), a, b, s', t');
    assert SameLayer(i, j);
  }

  /** The place where a layer's backward task produces the gradient of one of its inputs. */
  lemma GradientOutput(cg: DynamicGraph, i: Invocation, s: TensorSlot) returns (a: Invocation, s': TensorSlot)
    requires AreLayers(cg) && NeededInBackward(cg, i) && s in i.inputs
    ensures a in BackwardTasks(cg) && SameLayer(i, a) && a.node.taskType == Some(BWD)
    ensures s' in a.outputs && a.outputs[s'] == ExpandValue(i.inputs[s], Gradient) && Unexpanded(s') == s
  {
    a := BackwardOfNeeded(cg, i);
    s' := ExpandSlot(s, Gradient);
    SlotHasNoRole(i, s);
  }

  lemma SlotHasNoRole(i: Invocation, s: TensorSlot)
    requires IsLayer(i) && s in i.inputs
    ensures s.role.None?
  {
  }

  lemma BackwardOfNeeded(cg: DynamicGraph, i: Invocation) returns (a: Invocation)
    requires AreLayers(cg) && NeededInBackward(cg, i)
    ensures IsLayer(i) && a in BackwardTasks(cg) && SameLayer(i, a) && a.node.taskType == Some(BWD)
    ensures a.outputs == ExpandSlots(i.inputs, Gradient)
  {
    LayersAreReady(cg);
    a := BackwardTask(i);
    BackwardShape(i);
  }

  lemma BackwardShape(i: Invocation)
    requires IsLayer(i)
    ensures ReadyForPassExpansion(i) && BackwardTask(i).node == i.node.(taskType := Some(BWD))
    ensures BackwardTask(i).outputs == ExpandSlots(i.inputs, Gradient)
  {
    LayerIsReady(i);
  }

  lemma SoleOutput(g: DynamicGraph, a: Invocation, b: Invocation, s: TensorSlot, t: TensorSlot)
    requires ProducedOnce(g) && a in g && b in g && s in a.outputs && t in b.outputs && a.outputs[s] == b.outputs[t]
    ensures a == b && s == t
  {
  }

  lemma LossGradient(loss: Option<Loss>) returns (b: Invocation, t: TensorSlot)
    requires loss.Some?
    ensures b in LossTasks(loss) && b.node.taskType == Some(LOSS)
    ensures t in b.outputs && b.outputs[t] == ExpandValue(loss.value.logit, Gradient)
  {
    b := LossTask(loss.value.logit, loss.value.attrs);
    t := TensorSlot(LOGIT_NAME, Some(FwbTensor(Gradient)), None);
  }

  lemma ReadLogitsProduceTwice(cg: DynamicGraph, loss: Option<Loss>, attrs: OptimizerAttrs, i: Invocation)
    requires IsLayerGraph(cg) && ProducedOnce(TrainingGraph(cg, loss, attrs)) && loss.Some?
    requires NeededInBackward(cg, i)
    ensures loss.value.logit !in i.inputs.Values
  {
    if s :| s in i.inputs && i.inputs[s] == loss.value.logit {
      var a, s' := GradientOutput(cg, i, s);
      var b, t := LossGradient(loss);
      SoleOutput(TrainingGraph(cg, loss, attrs), a, b, s', t);
      assert false;
    }
  }

  // ------------------------------------------------------ who uses a tensor, and in what order

  /** Tensor x is one of the layer's inputs, or one of its outputs. */
  predicate Reads(i: Invocation, x: ValueAttrs) {
    x in i.inputs.Values
  }

  predicate Makes(i: Invocation, x: ValueAttrs) {
    x in i.outputs.Values
  }

  lemma ForwardCarries(t: Invocation, i: Invocation, x: ValueAttrs)
    requires ForwardOf(t, i)
    ensures Reads(i, x) ==> ExpandValue(x, Forward) in t.inputs.Values
    ensures Makes(i, x) ==> ExpandValue(x, Forward) in t.outputs.Values
  {
  }

  lemma BackwardCarries(t: Invocation, i: Invocation, x: ValueAttrs)
    requires BackwardOf(t, i)
    ensures Reads(i, x) || Makes(i, x) ==> ExpandValue(x, Forward) in t.inputs.Values
    ensures Makes(i, x) ==> ExpandValue(x, Gradient) in t.inputs.Values
    ensures Reads(i, x) ==> ExpandValue(x, Gradient) in t.outputs.Values
  {
    if Reads(i, x) {
      assert ExpandValue(x, Forward) in Expanded(i.inputs.Values, Forward);
      assert ExpandValue(x, Gradient) in Expanded(i.inputs.Values, Gradient);
    }
    if Makes(i, x) {
      assert ExpandValue(x, Forward) in Expanded(i.outputs.Values, Forward);
      assert ExpandValue(x, Gradient) in Expanded(i.outputs.Values, Gradient);
    }
  }

  lemma ValueOrders(g: DynamicGraph, a: Invocation, b: Invocation, v: ValueAttrs)
    requires a in g && b in g && v in a.outputs.Values && v in b.inputs.Values
    ensures Reaches(DataflowGraph(g), a, b)
  {
    assert v in a.outputs.Values * b.inputs.Values;
    EdgeReaches(DataflowGraph(g), a, b);
  }

  lemma ForwardsOrdered(g: DynamicGraph, a: Invocation, b: Invocation, i: Invocation, j: Invocation, x: ValueAttrs)
    requires a in g && b in g && ForwardOf(a, i) && ForwardOf(b, j) && Makes(i, x) && Reads(j, x)
    ensures Reaches(DataflowGraph(g), a, b)
  {
    ForwardCarries(a, i, x);
    ForwardCarries(b, j, x);
    ValueOrders(g, a, b, ExpandValue(x, Forward));
  }

  lemma ForwardBeforeBackward(
      g: DynamicGraph, a: Invocation, b: Invocation, i: Invocation, j: Invocation, x: ValueAttrs)
    requires a in g && b in g && ForwardOf(a, i) && BackwardOf(b, j) && Makes(i, x) && (Reads(j, x) || Makes(j, x))
    ensures Reaches(DataflowGraph(g), a, b)
  {
    ForwardCarries(a, i, x);
    BackwardCarries(b, j, x);
    ValueOrders(g, a, b, ExpandValue(x, Forward));
  }

  lemma BackwardsOrdered(g: DynamicGraph, a: Invocation, b: Invocation, i: Invocation, j: Invocation, x: ValueAttrs)
    requires a in g && b in g && BackwardOf(a, i) && BackwardOf(b, j) && Reads(i, x) && Makes(j, x)
    ensures Reaches(DataflowGraph(g), a, b)
  {
    BackwardCarries(a, i, x);
    BackwardCarries(b, j, x);
    ValueOrders(g, a, b, ExpandValue(x, Gradient));
  }

  /** The task is the update task of the weight x. */
  ghost predicate UpdateOf(t: Invocation, x: ValueAttrs) {
    ExpandValue(x, Forward) in t.inputs.Values && ExpandValue(x, Gradient) in t.inputs.Values
  }

  /** The task computes the loss from x. */
  ghost predicate LossOf(t: Invocation, x: ValueAttrs) {
    ExpandValue(x, Forward) in t.inputs.Values && ExpandValue(x, Gradient) in t.outputs.Values
  }

  lemma BackwardBeforeUpdate(g: DynamicGraph, a: Invocation, b: Invocation, i: Invocation, x: ValueAttrs)
    requires a in g && b in g && BackwardOf(a, i) && Reads(i, x) && UpdateOf(b, x)
    ensures Reaches(DataflowGraph(g), a, b)
  {
    BackwardCarries(a, i, x);
    ValueOrders(g, a, b, ExpandValue(x, Gradient));
  }

  lemma LossBeforeBackward(g: DynamicGraph, a: Invocation, b: Invocation, j: Invocation, x: ValueAttrs)
    requires a in g && b in g && LossOf(a, x) && BackwardOf(b, j) && Makes(j, x)
    ensures Reaches(DataflowGraph(g), a, b)
  {
    BackwardCarries(b, j, x);
    ValueOrders(g, a, b, ExpandValue(x, Gradient));
  }

  lemma ForwardBefore(g: DynamicGraph, a: Invocation, b: Invocation, i: Invocation, x: ValueAttrs)
    requires a in g && b in g && ForwardOf(a, i) && Makes(i, x) && ExpandValue(x, Forward) in b.inputs.Values
    ensures Reaches(DataflowGraph(g), a, b)
  {
    ForwardCarries(a, i, x);
    ValueOrders(g, a, b, ExpandValue(x, Forward));
  }

  // ------------------------------------------------ the sole reader and the sole producer

  lemma SoleReader(cg: DynamicGraph, loss: Option<Loss>, i: Invocation, j: Invocation, x: ValueAttrs)
    requires GradientsOnce(cg, loss) && x in NeededValues(cg) && i in cg && j in cg && Reads(i, x) && Reads(j, x)
    ensures i == j && NeededInBackward(cg, i)
  {
    assert x in i.inputs.Values * NeededValues(cg) && x in j.inputs.Values * NeededValues(cg);
    var s :| s in i.inputs && i.inputs[s] == x;
    var t :| t in j.inputs && j.inputs[t] == x;
  }

  lemma LogitsAreNotRead(cg: DynamicGraph, loss: Option<Loss>, i: Invocation)
    requires GradientsOnce(cg, loss) && loss.Some? && loss.value.logit in NeededValues(cg) && i in cg
    ensures !Reads(i, loss.value.logit)
  {
    if !NeededInBackward(cg, i) {
      assert loss.value.logit !in i.inputs.Values * NeededValues(cg);
    }
  }

  lemma ForwardExists(cg: DynamicGraph, i: Invocation) returns (a: Invocation)
    requires AreLayers(cg) && i in cg
    ensures a in ForwardTasks(cg) && ForwardOf(a, i)
  {
    LayersAreReady(cg);
    a := ForwardTask(i);
    ForwardValues(i);
    LayerRoles(i);
  }

  lemma BackwardExists(cg: DynamicGraph, i: Invocation) returns (b: Invocation)
    requires AreLayers(cg) && NeededInBackward(cg, i)
    ensures b in BackwardTasks(cg) && BackwardOf(b, i)
  {
    LayersAreReady(cg);
    b := BackwardTask(i);
    BackwardValues(i);
    LayerRoles(i);
  }

  /** The forward task of a layer comes before its backward task. */
  lemma OwnBackwardFollows(cg: DynamicGraph, g: DynamicGraph, a: Invocation, b: Invocation, i: Invocation)
    requires AreLayers(cg) && i in cg && a in g && b in g && ForwardOf(a, i) && BackwardOf(b, i)
    ensures Reaches(DataflowGraph(g), a, b)
  {
    var y := SomeOutput(i);
    ForwardBeforeBackward(g, a, b, i, i, y);
  }

  lemma SomeOutput(i: Invocation) returns (y: ValueAttrs)
    requires IsLayer(i)
    ensures Makes(i, y)
  {
    assert exists s :: s in i.outputs;
    var s :| s in i.outputs;
    y := i.outputs[s];
  }

  lemma ReaderIsNeeded(cg: DynamicGraph, i: Invocation, x: ValueAttrs)
    requires i in cg && Reads(i, x) && x in NeededValues(cg)
    ensures NeededInBackward(cg, i)
  {
    assert x in i.inputs.Values * NeededValues(cg);
  }

  lemma OneForward(cg: DynamicGraph, a: Invocation, b: Invocation)
    requires IsLayerGraph(cg) && a in ForwardTasks(cg) && b in ForwardTasks(cg) && SameLayer(a, b)
    ensures a == b
  {
    var i := ForwardLayer(cg, a);
    var j := ForwardLayer(cg, b);
    assert SameLayer(i, j);
  }

  lemma OneBackward(cg: DynamicGraph, a: Invocation, b: Invocation)
    requires IsLayerGraph(cg) && a in BackwardTasks(cg) && b in BackwardTasks(cg) && SameLayer(a, b)
    ensures a == b
  {
    var i := BackwardLayer(cg, a);
    var j := BackwardLayer(cg, b);
    BackwardShape(i);
    BackwardShape(j);
    assert SameLayer(i, j);
  }

  lemma OneUpdate(cg: DynamicGraph, attrs: OptimizerAttrs, a: Invocation, b: Invocation)
    requires IsLayerGraph(cg) && a in UpdateTasks(cg, attrs) && b in UpdateTasks(cg, attrs) && SameLayer(a, b)
    ensures a == b
  {
    var i := UpdateLayer(cg, attrs, a);
    var j := UpdateLayer(cg, attrs, b);
    assert SameLayer(i, j);
  }

  // ----------------------------------------------------- all users of a tensor are ordered

  /** The task is the forward task of layer i, which works on tensor x. */
  ghost predicate ForwardUser(cg: DynamicGraph, t: Invocation, i: Invocation, x: ValueAttrs)
    requires AreLayers(cg)
  {
    i in cg && t in ForwardTasks(cg) && ForwardOf(t, i) && (Reads(i, x) || Makes(i, x))
  }

  ghost predicate BackwardUser(cg: DynamicGraph, t: Invocation, i: Invocation, x: ValueAttrs)
    requires AreLayers(cg)
  {
    i in cg && NeededInBackward(cg, i) && t in BackwardTasks(cg) && BackwardOf(t, i) && (Reads(i, x) || Makes(i, x))
  }

  ghost predicate UpdateUser(cg: DynamicGraph, attrs: OptimizerAttrs, t: Invocation, i: Invocation, x: ValueAttrs)
    requires AreLayers(cg)
  {
    i in cg && IsWeight(i) && t in UpdateTasks(cg, attrs) && SameLayer(i, t) && UpdateOf(t, x) && Makes(i, x)
  }

  ghost predicate LossUser(loss: Option<Loss>, t: Invocation, x: ValueAttrs) {
    loss.Some? && t in LossTasks(loss) && x == loss.value.logit && LossOf(t, x)
  }

  /** Gradients have one source each and x is a tensor whose gradient is computed. */
  ghost predicate IsTrained(cg: DynamicGraph, loss: Option<Loss>, x: ValueAttrs) {
    AreLayers(cg) && ProducedOnce(cg) && GradientsOnce(cg, loss) && x in NeededValues(cg)
  }

  lemma SoleMaker(cg: DynamicGraph, i: Invocation, j: Invocation, x: ValueAttrs)
    requires ProducedOnce(cg) && i in cg && j in cg && Makes(i, x) && Makes(j, x)
    ensures i == j
  {
    SoleProducer(cg, i, j, x);
  }

  lemma ForwardForward(
      cg: DynamicGraph, loss: Option<Loss>, g: DynamicGraph, a: Invocation, b: Invocation, i: Invocation,
      j: Invocation, x: ValueAttrs)
    requires IsTrained(cg, loss, x) && a in g && b in g && ForwardUser(cg, a, i, x) && ForwardUser(cg, b, j, x)
    requires i != j
    ensures Ordered(g, a, b)
  {
    if Makes(i, x) && Reads(j, x) {
      ForwardsOrdered(g, a, b, i, j, x);
    } else if Reads(i, x) && Makes(j, x) {
      ForwardsOrdered(g, b, a, j, i, x);
    } else if Reads(i, x) {
      SoleReader(cg, loss, i, j, x);
    } else {
      SoleMaker(cg, i, j, x);
    }
  }

  lemma BackwardBackward(
      cg: DynamicGraph, loss: Option<Loss>, g: DynamicGraph, a: Invocation, b: Invocation, i: Invocation,
      j: Invocation, x: ValueAttrs)
    requires IsTrained(cg, loss, x) && a in g && b in g && BackwardUser(cg, a, i, x) && BackwardUser(cg, b, j, x)
    requires i != j
    ensures Ordered(g, a, b)
  {
    if Makes(i, x) && Reads(j, x) {
      BackwardsOrdered(g, b, a, j, i, x);
    } else if Reads(i, x) && Makes(j, x) {
      BackwardsOrdered(g, a, b, i, j, x);
    } else if Reads(i, x) {
      SoleReader(cg, loss, i, j, x);
    } else {
      SoleMaker(cg, i, j, x);
    }
  }

  /** A layer that reads the tensor has a backward task, which comes after its forward task. */
  lemma ReaderGoesBack(
      cg: DynamicGraph, loss: Option<Loss>, g: DynamicGraph, a: Invocation, i: Invocation, x: ValueAttrs)
    returns (m: Invocation)
    requires IsTrained(cg, loss, x) && BackwardTasks(cg) <= g && a in g && ForwardUser(cg, a, i, x) && Reads(i, x)
    ensures m in g && BackwardOf(m, i) && Reaches(DataflowGraph(g), a, m)
  {
    ReaderIsNeeded(cg, i, x);
    m := BackwardExists(cg, i);
    OwnBackwardFollows(cg, g, a, m, i);
  }

  lemma ForwardBackward(
      cg: DynamicGraph, loss: Option<Loss>, g: DynamicGraph, a: Invocation, b: Invocation, i: Invocation,
      j: Invocation, x: ValueAttrs)
    requires IsTrained(cg, loss, x) && BackwardTasks(cg) <= g && a in g && b in g
    requires ForwardUser(cg, a, i, x) && BackwardUser(cg, b, j, x)
    ensures Reaches(DataflowGraph(g), a, b)
  {
    if Makes(i, x) {
      ForwardBeforeBackward(g, a, b, i, j, x);
    } else if Reads(j, x) {
      SoleReader(cg, loss, i, j, x);
      OwnBackwardFollows(cg, g, a, b, i);
    } else {
      var m := ReaderGoesBack(cg, loss, g, a, i, x);
      BackwardsOrdered(g, m, b, i, j, x);
      ReachesTrans(DataflowGraph(g), a, m, b);
    }
  }

  lemma ForwardUpdate(
      cg: DynamicGraph, loss: Option<Loss>, attrs: OptimizerAttrs, g: DynamicGraph, a: Invocation, b: Invocation,
      i: Invocation,
      j: Invocation, x: ValueAttrs)
    requires IsTrained(cg, loss, x) && BackwardTasks(cg) <= g && a in g && b in g
    requires ForwardUser(cg, a, i, x) && UpdateUser(cg, attrs, b, j, x)
    ensures Reaches(DataflowGraph(g), a, b)
  {
    if Makes(i, x) {
      ForwardBefore(g, a, b, i, x);
    } else {
      var m := ReaderGoesBack(cg, loss, g, a, i, x);
      BackwardBeforeUpdate(g, m, b, i, x);
      ReachesTrans(DataflowGraph(g), a, m, b);
    }
  }

  lemma ForwardLoss(
      cg: DynamicGraph, loss: Option<Loss>, g: DynamicGraph, a: Invocation, b: Invocation, i: Invocation, x: ValueAttrs)
    requires IsTrained(cg, loss, x) && a in g && b in g && ForwardUser(cg, a, i, x) && LossUser(loss, b, x)
    ensures Reaches(DataflowGraph(g), a, b)
  {
    LogitsAreNotRead(cg, loss, i);
    ForwardBefore(g, a, b, i, x);
  }

  lemma LossBackward(
      cg: DynamicGraph, loss: Option<Loss>, g: DynamicGraph, a: Invocation, b: Invocation, j: Invocation, x: ValueAttrs)
    requires IsTrained(cg, loss, x) && a in g && b in g && LossUser(loss, a, x) && BackwardUser(cg, b, j, x)
    ensures Reaches(DataflowGraph(g), a, b)
  {
    LogitsAreNotRead(cg, loss, j);
    LossBeforeBackward(g, a, b, j, x);
  }

  lemma LossUpdate(g: DynamicGraph, a: Invocation, b: Invocation, x: ValueAttrs)
    requires a in g && b in g && LossOf(a, x) && UpdateOf(b, x)
    ensures Reaches(DataflowGraph(g), a, b)
  {
    ValueOrders(g, a, b, ExpandValue(x, Gradient));
  }

  /** A weight's own layer reads nothing, so it has no backward task. */
  lemma BackwardUpdate(
      cg: DynamicGraph, loss: Option<Loss>, attrs: OptimizerAttrs, g: DynamicGraph, a: Invocation, b: Invocation,
      i: Invocation,
      j: Invocation, x: ValueAttrs)
    requires IsTrained(cg, loss, x) && a in g && b in g && BackwardUser(cg, a, i, x) && UpdateUser(cg, attrs, b, j, x)
    ensures Reaches(DataflowGraph(g), a, b)
  {
    if Makes(i, x) {
      SoleMaker(cg, i, j, x);
      WeightsHaveNoBackward(cg, i);
    }
    BackwardBeforeUpdate(g, a, b, i, x);
  }

  lemma WeightsHaveNoBackward(cg: DynamicGraph, i: Invocation)
    requires AreLayers(cg) && i in cg && IsWeight(i)
    ensures !NeededInBackward(cg, i)
  {
    assert IsLayer(i) && i.inputs == map[];
  }

  /** The tensor behind a value, whatever its role. */
  function TensorOf(v: ValueAttrs): ValueAttrs {
    v.(role := None)
  }

  lemma ForwardUses(cg: DynamicGraph, t: Invocation, v: ValueAttrs) returns (i: Invocation)
    requires AreLayers(cg) && t in ForwardTasks(cg) && v in ValuesOf(t)
    ensures ForwardUser(cg, t, i, TensorOf(v))
  {
    i := ForwardOrigin(cg, t);
    if v in t.inputs.Values {
      var x :| x in i.inputs.Values && ExpandValue(x, Forward) == v;
      assert TensorOf(v) == x;
    } else {
      var x :| x in i.outputs.Values && ExpandValue(x, Forward) == v;
      assert TensorOf(v) == x;
    }
  }

  lemma ExpandedTensor(values: set<ValueAttrs>, kind: FwbTensorType, v: ValueAttrs)
    requires HaveNoRole(values) && v in Expanded(values, kind)
    ensures TensorOf(v) in values
  {
    var x :| x in values && ExpandValue(x, kind) == v;
    assert TensorOf(v) == x;
  }

  lemma BackwardUses(cg: DynamicGraph, t: Invocation, v: ValueAttrs) returns (i: Invocation)
    requires AreLayers(cg) && t in BackwardTasks(cg) && v in ValuesOf(t)
    ensures BackwardUser(cg, t, i, TensorOf(v))
  {
    i := BackwardOrigin(cg, t);
    if v in Expanded(i.inputs.Values, Forward) {
      ExpandedTensor(i.inputs.Values, Forward, v);
    } else if v in Expanded(i.outputs.Values, Forward) {
      ExpandedTensor(i.outputs.Values, Forward, v);
    } else if v in Expanded(i.outputs.Values, Gradient) {
      ExpandedTensor(i.outputs.Values, Gradient, v);
    } else {
      ExpandedTensor(i.inputs.Values, Gradient, v);
    }
  }

  lemma UpdateUses(cg: DynamicGraph, attrs: OptimizerAttrs, t: Invocation, v: ValueAttrs) returns (i: Invocation)
    requires AreLayers(cg) && t in UpdateTasks(cg, attrs) && v in ValuesOf(t)
    ensures UpdateUser(cg, attrs, t, i, TensorOf(v))
  {
    i := UpdateLayer(cg, attrs, t);
    UpdateValues(i, attrs, v);
    var x := i.outputs[WeightSlot(i)];
    UpdateReads(i, attrs, x);
    assert TensorOf(v) == x by { SoleOutputOfWeight(i, TensorOf(v)); }
  }

  lemma SoleOutputOfWeight(i: Invocation, x: ValueAttrs)
    requires IsLayer(i) && IsWeight(i) && x in i.outputs.Values
    ensures x == i.outputs[WeightSlot(i)]
  {
    var s :| s in i.outputs && i.outputs[s] == x;
    assert s in {WeightSlot(i)};
  }

  lemma UpdateReads(i: Invocation, attrs: OptimizerAttrs, x: ValueAttrs)
    requires IsLayer(i) && IsWeight(i) && x == i.outputs[WeightSlot(i)]
    ensures UpdateOf(UpdateTask(i, attrs), x) && Makes(i, x)
  {
    var ins, s := UpdateInputs(WeightSlot(i), x, attrs), WeightSlot(i);
    var f, g := s.(role := Some(FwbTensor(Forward))), s.(role := Some(FwbTensor(Gradient)));
    assert ins[f] == ExpandValue(x, Forward) && ins[g] == ExpandValue(x, Gradient);
  }

  lemma LossUses(loss: Option<Loss>, t: Invocation, v: ValueAttrs)
    requires loss.Some? && loss.value.logit.role.None? && t in LossTasks(loss) && v in ValuesOf(t)
    ensures LossUser(loss, t, TensorOf(v)) || v.role == Some(LossTensor)
  {
    var l := loss.value.logit;
    LossWorksOn(l, loss.value.attrs);
    if v in t.inputs.Values && v.role != Some(LossTensor) {
      assert v == ExpandValue(l, Forward);
    }
    assert v.role != Some(LossTensor) ==> TensorOf(v) == l;
  }

  lemma LossWorksOn(logit: ValueAttrs, attrs: nat)
    ensures LossOf(LossTask(logit, attrs), logit)
    ensures LossTask(logit, attrs).inputs.Values == {LabelOf(logit), ExpandValue(logit, Forward)}
    ensures LossTask(logit, attrs).outputs.Values == {ExpandValue(logit, Gradient)}
  {
    var t := LossTask(logit, attrs);
    var lab := TensorSlot(LABEL_NAME, Some(LossTensor), None);
    var fwd := TensorSlot(LOGIT_NAME, Some(FwbTensor(Forward)), None);
    var grad := TensorSlot(LOGIT_NAME, Some(FwbTensor(Gradient)), None);
    assert t.inputs[lab] == LabelOf(logit) && t.inputs[fwd] == ExpandValue(logit, Forward);
    assert t.outputs[grad] == ExpandValue(logit, Gradient);
  }

  // ------------------------------------------------------- why training may overwrite tensors

  /** The task works on tensor x, on behalf of layer i if it comes from one. */
  ghost predicate IsUser(
      cg: DynamicGraph, loss: Option<Loss>, attrs: OptimizerAttrs, t: Invocation, i: Invocation, x: ValueAttrs)
    requires AreLayers(cg)
  {
    ForwardUser(cg, t, i, x) || BackwardUser(cg, t, i, x) || UpdateUser(cg, attrs, t, i, x) || LossUser(loss, t, x)
  }

  lemma EveryUser(cg: DynamicGraph, loss: Option<Loss>, attrs: OptimizerAttrs, t: Invocation, v: ValueAttrs)
    returns (i: Invocation)
    requires AreLayers(cg) && (loss.Some? ==> loss.value.logit.role.None?)
    requires t in TrainingGraph(cg, loss, attrs) && v in ValuesOf(t) && v.role != Some(LossTensor)
    ensures IsUser(cg, loss, attrs, t, i, TensorOf(v))
  {
    if t in ForwardTasks(cg) {
      i := ForwardUses(cg, t, v);
    } else if t in BackwardTasks(cg) {
      i := BackwardUses(cg, t, v);
    } else if t in UpdateTasks(cg, attrs) {
      i := UpdateUses(cg, attrs, t, v);
    } else {
      i := t;
      LossUses(loss, t, v);
    }
  }

  /** Any two tasks that work on a tensor whose gradient is computed are ordered: the forward task
      that makes it, the one that reads it or the loss, that layer's backward task, and then the
      backward task of the layer that makes it, or its update task. */
  lemma UsersAreOrdered(
      cg: DynamicGraph, loss: Option<Loss>, attrs: OptimizerAttrs, a: Invocation, b: Invocation, i: Invocation,
      j: Invocation,
      x: ValueAttrs)
    requires IsLayerGraph(cg) && IsTrained(cg, loss, x) && a != b
    requires a in TrainingGraph(cg, loss, attrs) && b in TrainingGraph(cg, loss, attrs)
    requires IsUser(cg, loss, attrs, a, i, x) && IsUser(cg, loss, attrs, b, j, x)
    ensures Ordered(TrainingGraph(cg, loss, attrs), a, b)
  {
    if ForwardUser(cg, a, i, x) {
      ForwardIsOrdered(cg, loss, attrs, a, b, i, j, x);
    } else if ForwardUser(cg, b, j, x) {
      ForwardIsOrdered(cg, loss, attrs, b, a, j, i, x);
    } else if BackwardUser(cg, a, i, x) {
      BackwardIsOrdered(cg, loss, attrs, a, b, i, j, x);
    } else if BackwardUser(cg, b, j, x) {
      BackwardIsOrdered(cg, loss, attrs, b, a, j, i, x);
    } else {
      RestIsOrdered(cg, loss, attrs, a, b, i, j, x);
    }
  }

  lemma ForwardIsOrdered(
      cg: DynamicGraph, loss: Option<Loss>, attrs: OptimizerAttrs, a: Invocation, b: Invocation, i: Invocation,
      j: Invocation,
      x: ValueAttrs)
    requires IsLayerGraph(cg) && IsTrained(cg, loss, x) && a != b
    requires a in TrainingGraph(cg, loss, attrs) && b in TrainingGraph(cg, loss, attrs)
    requires ForwardUser(cg, a, i, x) && IsUser(cg, loss, attrs, b, j, x)
    ensures Ordered(TrainingGraph(cg, loss, attrs), a, b)
  {
    var g := TrainingGraph(cg, loss, attrs);
    if ForwardUser(cg, b, j, x) {
      if i == j { OneForward(cg, a, b); }
      ForwardForward(cg, loss, g, a, b, i, j, x);
    } else if BackwardUser(cg, b, j, x) {
      ForwardBackward(cg, loss, g, a, b, i, j, x);
    } else if UpdateUser(cg, attrs, b, j, x) {
      ForwardUpdate(cg, loss, attrs, g, a, b, i, j, x);
    } else {
      ForwardLoss(cg, loss, g, a, b, i, x);
    }
  }

  lemma BackwardIsOrdered(
      cg: DynamicGraph, loss: Option<Loss>, attrs: OptimizerAttrs, a: Invocation, b: Invocation, i: Invocation,
      j: Invocation,
      x: ValueAttrs)
    requires IsLayerGraph(cg) && IsTrained(cg, loss, x) && a != b
    requires a in TrainingGraph(cg, loss, attrs) && b in TrainingGraph(cg, loss, attrs)
    requires BackwardUser(cg, a, i, x) && IsUser(cg, loss, attrs, b, j, x)
    ensures Ordered(TrainingGraph(cg, loss, attrs), a, b)
  {
    var g := TrainingGraph(cg, loss, attrs);
    if ForwardUser(cg, b, j, x) {
      ForwardBackward(cg, loss, g, b, a, j, i, x);
    } else if BackwardUser(cg, b, j, x) {
      if i == j { OneBackward(cg, a, b); }
      BackwardBackward(cg, loss, g, a, b, i, j, x);
    } else if UpdateUser(cg, attrs, b, j, x) {
      BackwardUpdate(cg, loss, attrs, g, a, b, i, j, x);
    } else {
      LossBackward(cg, loss, g, b, a, i, x);
    }
  }

  lemma RestIsOrdered(
      cg: DynamicGraph, loss: Option<Loss>, attrs: OptimizerAttrs, a: Invocation, b: Invocation, i: Invocation,
      j: Invocation,
      x: ValueAttrs)
    requires IsLayerGraph(cg) && IsTrained(cg, loss, x) && a != b
    requires a in TrainingGraph(cg, loss, attrs) && b in TrainingGraph(cg, loss, attrs)
    requires UpdateUser(cg, attrs, a, i, x) || LossUser(loss, a, x)
    requires UpdateUser(cg, attrs, b, j, x) || LossUser(loss, b, x)
    ensures Ordered(TrainingGraph(cg, loss, attrs), a, b)
  {
    if UpdateUser(cg, attrs, a, i, x) && UpdateUser(cg, attrs, b, j, x) {
      SameUpdate(cg, attrs, a, b, i, j, x);
    } else if UpdateUser(cg, attrs, b, j, x) {
      LossUpdate(TrainingGraph(cg, loss, attrs), a, b, x);
    } else if UpdateUser(cg, attrs, a, i, x) {
      LossUpdate(TrainingGraph(cg, loss, attrs), b, a, x);
    } else {
      SameLoss(loss, a, b, x);
    }
  }

  lemma SameUpdate(
      cg: DynamicGraph, attrs: OptimizerAttrs, a: Invocation, b: Invocation, i: Invocation, j: Invocation,
      x: ValueAttrs)
    requires IsLayerGraph(cg) && UpdateUser(cg, attrs, a, i, x) && UpdateUser(cg, attrs, b, j, x)
    ensures a == b
  {
    SoleMaker(cg, i, j, x);
    OneUpdate(cg, attrs, a, b);
  }

  lemma SameLoss(loss: Option<Loss>, a: Invocation, b: Invocation, x: ValueAttrs)
    requires LossUser(loss, a, x) && LossUser(loss, b, x)
    ensures a == b
  {
  }

  /** The tasks overwrite only tensors whose gradients are computed: not, say, the training data. */
  ghost predicate OverwritesTrained(cg: DynamicGraph, loss: Option<Loss>, attrs: OptimizerAttrs, inPlace: InPlace)
    requires AreLayers(cg)
  {
    forall t, s :: t in TrainingGraph(cg, loss, attrs) && Overwrites(inPlace, t, s)
      ==> t.inputs[s].role != Some(LossTensor) && TensorOf(t.inputs[s]) in NeededValues(cg)
  }

  /** So such tasks may overwrite what they like: the passes order all users of those tensors. */
  lemma TrainingOrdersOverwrites(cg: DynamicGraph, loss: Option<Loss>, attrs: OptimizerAttrs, inPlace: InPlace)
    requires IsLayerGraph(cg) && GradientsOnce(cg, loss) && (loss.Some? ==> loss.value.logit.role.None?)
    requires OverwritesTrained(cg, loss, attrs, inPlace)
    ensures OverwritesOrdered(TrainingGraph(cg, loss, attrs), inPlace)
  {
    var g := TrainingGraph(cg, loss, attrs);
    forall u, s, t | u in g && Overwrites(inPlace, u, s) && t in g && t != u && u.inputs[s] in ValuesOf(t)
      ensures Ordered(g, u, t)
    {
      var v := u.inputs[s];
      assert v in ValuesOf(u);
      var i := EveryUser(cg, loss, attrs, u, v);
      var j := EveryUser(cg, loss, attrs, t, v);
      UsersAreOrdered(cg, loss, attrs, u, t, i, j, TensorOf(v));
    }
  }

  /** The weights are among those tensors. */
  lemma WeightsAreNeeded(cg: DynamicGraph, i: Invocation, x: ValueAttrs)
    requires AreLayers(cg) && i in cg && IsWeight(i) && Makes(i, x)
    ensures x in NeededValues(cg)
  {
    assert x in ValuesOf(i) && i in Producers(cg, x);
    NeededExactly(cg);
  }

  lemma UpdatesOverwriteTrained(cg: DynamicGraph, loss: Option<Loss>, attrs: OptimizerAttrs)
    requires AreLayers(cg)
    ensures OverwritesTrained(cg, loss, attrs, UpdatedInPlace)
  {
    forall t, s | t in TrainingGraph(cg, loss, attrs) && Overwrites(UpdatedInPlace, t, s)
      ensures t.inputs[s].role != Some(LossTensor) && TensorOf(t.inputs[s]) in NeededValues(cg)
    {
      TypesOfTasks(cg, loss, attrs, t);
      UpdateWorksOnTrained(cg, attrs, t, t.inputs[s]);
    }
  }

  lemma UpdateWorksOnTrained(cg: DynamicGraph, attrs: OptimizerAttrs, t: Invocation, v: ValueAttrs)
    requires AreLayers(cg) && t in UpdateTasks(cg, attrs) && v in t.inputs.Values
    ensures v.role != Some(LossTensor) && TensorOf(v) in NeededValues(cg)
  {
    var i := UpdateUses(cg, attrs, t, v);
    WeightsAreNeeded(cg, i, TensorOf(v));
    UpdateReadsNoLabel(cg, attrs, t, v);
  }

  lemma UpdateReadsNoLabel(cg: DynamicGraph, attrs: OptimizerAttrs, t: Invocation, v: ValueAttrs)
    requires AreLayers(cg) && t in UpdateTasks(cg, attrs) && v in t.inputs.Values
    ensures v.role != Some(LossTensor)
  {
    var w := UpdateLayer(cg, attrs, t);
    UpdateValues(w, attrs, v);
  }

  /** An update task comes after every other task that uses one of its tensors. */
  lemma UpdatesComeLast(cg: DynamicGraph, loss: Option<Loss>, attrs: OptimizerAttrs)
    requires IsLayerGraph(cg) && GradientsOnce(cg, loss) && (loss.Some? ==> loss.value.logit.role.None?)
    ensures OverwritesComeLast(TrainingGraph(cg, loss, attrs), UpdatedInPlace)
  {
    var g := TrainingGraph(cg, loss, attrs);
    forall u, s, t | u in g && Overwrites(UpdatedInPlace, u, s) && t in g && t != u && u.inputs[s] in ValuesOf(t)
      ensures Reaches(DataflowGraph(g), t, u)
    {
      TypesOfTasks(cg, loss, attrs, u);
      var v := u.inputs[s];
      assert v in ValuesOf(u);
      UpdatesOverwriteTrained(cg, loss, attrs);
      var j := UpdateUses(cg, attrs, u, v);
      var i := EveryUser(cg, loss, attrs, t, v);
      UserComesFirst(cg, loss, attrs, t, u, i, j, TensorOf(v));
    }
  }

  lemma UserComesFirst(
      cg: DynamicGraph, loss: Option<Loss>, attrs: OptimizerAttrs, a: Invocation, b: Invocation, i: Invocation,
      j: Invocation,
      x: ValueAttrs)
    requires IsLayerGraph(cg) && IsTrained(cg, loss, x) && a != b
    requires a in TrainingGraph(cg, loss, attrs) && b in TrainingGraph(cg, loss, attrs)
    requires IsUser(cg, loss, attrs, a, i, x) && UpdateUser(cg, attrs, b, j, x)
    ensures Reaches(DataflowGraph(TrainingGraph(cg, loss, attrs)), a, b)
  {
    var g := TrainingGraph(cg, loss, attrs);
    if ForwardUser(cg, a, i, x) {
      ForwardUpdate(cg, loss, attrs, g, a, b, i, j, x);
    } else if BackwardUser(cg, a, i, x) {
      BackwardUpdate(cg, loss, attrs, g, a, b, i, j, x);
    } else if UpdateUser(cg, attrs, a, i, x) {
      SameUpdate(cg, attrs, a, b, i, j, x);
    } else {
      LossUpdate(g, a, b, x);
    }
  }

  // ------------------------------------------------------------------------ timings

  lemma ForwardReachesItsLayer(
      cg: DynamicGraph, loss: Option<Loss>, attrs: OptimizerAttrs, a: Invocation, t: Invocation, i: Invocation)
    requires IsLayerGraph(cg) && a in ForwardTasks(cg) && i in cg && ForwardOf(a, i)
    requires t in TrainingGraph(cg, loss, attrs) && t != a && SameLayer(t, a)
    ensures Reaches(DataflowGraph(TrainingGraph(cg, loss, attrs)), a, t)
  {
    var g := TrainingGraph(cg, loss, attrs);
    assert IsLayer(i);
    if t in ForwardTasks(cg) {
      OneForward(cg, a, t);
    } else if t in BackwardTasks(cg) {
      BackwardFollowsForward(cg, g, a, t, i);
    } else if t in UpdateTasks(cg, attrs) {
      UpdateFollowsForward(cg, attrs, g, a, t, i);
    } else {
      LossHasItsOwnLayer(loss, t);
    }
  }

  lemma LossHasItsOwnLayer(loss: Option<Loss>, t: Invocation)
    requires t in LossTasks(loss)
    ensures t.node.layer == LOSS_LAYER
  {
  }

  lemma BackwardFollowsForward(cg: DynamicGraph, g: DynamicGraph, a: Invocation, t: Invocation, i: Invocation)
    requires IsLayerGraph(cg) && a in g && t in g && i in cg && ForwardOf(a, i)
    requires t in BackwardTasks(cg) && SameLayer(t, a)
    ensures Reaches(DataflowGraph(g), a, t)
  {
    var j := BackwardOrigin(cg, t);
    assert SameLayer(i, j);
    OwnBackwardFollows(cg, g, a, t, i);
  }

  lemma UpdateFollowsForward(
      cg: DynamicGraph, attrs: OptimizerAttrs, g: DynamicGraph, a: Invocation, t: Invocation, i: Invocation)
    requires IsLayerGraph(cg) && a in g && t in g && i in cg && ForwardOf(a, i)
    requires t in UpdateTasks(cg, attrs) && SameLayer(t, a)
    ensures Reaches(DataflowGraph(g), a, t)
  {
    var w := UpdateLayer(cg, attrs, t);
    assert SameLayer(w, i);
    var x := w.outputs[WeightSlot(w)];
    UpdateReads(w, attrs, x);
    ForwardBefore(g, a, t, i, x);
  }

  /** In every order, the timings that a combined run reports are those of the forward tasks, and
      no backward task's. */
  lemma OnlyForwardIsReported(
      cg: DynamicGraph, loss: Option<Loss>, attrs: OptimizerAttrs, order: seq<Invocation>, t: Invocation)
    requires IsLayerGraph(cg) && IsTopologicalOrdering(DataflowGraph(TrainingGraph(cg, loss, attrs)), order)
    requires t in order && t.node.taskType in {Some(FWD), Some(BWD)}
    ensures t.node.taskType == Some(FWD) <==> !LeavesNoTrace(order, t)
  {
    var g := TrainingGraph(cg, loss, attrs);
    TypesOfTasks(cg, loss, attrs, t);
    TrainingGoesForward(cg, loss, attrs);
    if t in ForwardTasks(cg) {
      var i := ForwardOrigin(cg, t);
      forall a | a in g && a != t && SameLayer(a, t) ensures Reaches(DataflowGraph(g), t, a) {
        ForwardReachesItsLayer(cg, loss, attrs, t, a, i);
      }
      AlwaysReportedExactly(g, t);
    } else {
      var i := BackwardOrigin(cg, t);
      var a := ForwardExists(cg, i);
      OwnBackwardFollows(cg, g, a, t, i);
      NeverReportedExactly(g, t);
    }
  }
}
