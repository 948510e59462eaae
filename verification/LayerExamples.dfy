/** A small graph of layers to which the theorems on training graphs apply. */
module LayerExamples {
  import opened Sequences
  import opened Digraphs
  import opened DynamicGraphs
  import opened Options
  import opened PassExpansion
  import opened TrainingGraphs

  function Slot(name: nat): TensorSlot {
    TensorSlot(name, None, None)
  }

  function Tensor(guid: nat, createGrad: bool): ValueAttrs {
    ValueAttrs(guid, Some([1]), Some(createGrad), None, None)
  }

  function Layer(
      layer: nat, op: OperatorType, ins: map<TensorSlot, ValueAttrs>, outs: map<TensorSlot, ValueAttrs>): Invocation {
    Invocation(ins, NodeAttrs(None, Some(PcgOp(op, true)), layer, None), outs)
  }

  /** An input that asks for no gradient, a weight, and an operator that reads both. */
  function InputLayer(): Invocation {
    Layer(1, InputOperator, map[], map[Slot(0) := Tensor(1, false)])
  }

  function WeightLayer(): Invocation {
    Layer(2, WeightOperator, map[], map[Slot(0) := Tensor(2, true)])
  }

  function OperatorLayer(): Invocation {
    Layer(3, OtherOperator(0), map[Slot(0) := Tensor(1, false), Slot(1) := Tensor(2, true)],
      map[Slot(2) := Tensor(3, true)])
  }

  function Layers(): DynamicGraph {
    {InputLayer(), WeightLayer(), OperatorLayer()}
  }

  lemma ValuesOfLayers()
    ensures ValuesOf(InputLayer()) == {Tensor(1, false)} && ValuesOf(WeightLayer()) == {Tensor(2, true)}
    ensures InputLayer().outputs.Values == {Tensor(1, false)} && WeightLayer().outputs.Values == {Tensor(2, true)}
    ensures OperatorLayer().inputs.Values == {Tensor(1, false), Tensor(2, true)}
    ensures OperatorLayer().outputs.Values == {Tensor(3, true)}
    ensures InputLayer().inputs.Values == {} && WeightLayer().inputs.Values == {}
  {
    var i, w, o := InputLayer(), WeightLayer(), OperatorLayer();
    assert i.outputs[Slot(0)] == Tensor(1, false) && w.outputs[Slot(0)] == Tensor(2, true);
    assert o.inputs[Slot(0)] == Tensor(1, false) && o.inputs[Slot(1)] == Tensor(2, true);
    assert o.outputs[Slot(2)] == Tensor(3, true);
  }

  /** Every tensor is numbered like the layer that produces it. */
  lemma OutputOf(i: Invocation, s: TensorSlot)
    requires i in Layers() && s in i.outputs
    ensures i.outputs[s].guid == i.node.layer && s == if i.node.layer == 3 then Slot(2) else Slot(0)
  {
  }

  lemma InputOf(i: Invocation, v: ValueAttrs)
    requires i in Layers() && v in i.inputs.Values
    ensures v.guid < i.node.layer
  {
    var s :| s in i.inputs && i.inputs[s] == v;
  }

  lemma OneLayer(i: Invocation, j: Invocation)
    requires i in Layers() && j in Layers() && i.node.layer == j.node.layer
    ensures i == j
  {
  }

  lemma LayersAreOrdered()
    ensures ProducedOnce(Layers()) && Acyclic(DataflowGraph(Layers()))
  {
    forall i, j, s, t | i in Layers() && j in Layers() && s in i.outputs && t in j.outputs &&
      i.outputs[s] == j.outputs[t]
      ensures i == j && s == t
    {
      OutputOf(i, s);
      OutputOf(j, t);
      OneLayer(i, j);
    }
    var rank := map i | i in Layers() :: i.node.layer as int;
    forall a, b | (a, b) in DataflowGraph(Layers()).edges ensures a in rank && b in rank && rank[a] < rank[b] {
      FedByEarlier(a, b);
    }
    RankedIsAcyclic(DataflowGraph(Layers()), rank);
  }

  lemma FedByEarlier(a: Invocation, b: Invocation)
    requires a in Layers() && b in Layers() && Feeds(a, b)
    ensures a.node.layer < b.node.layer
  {
    var v :| v in a.outputs.Values * b.inputs.Values;
    var s :| s in a.outputs && a.outputs[s] == v;
    OutputOf(a, s);
    InputOf(b, v);
  }

  lemma AreExampleLayers()
    ensures AreLayers(Layers()) && GraphValues(Layers()) == {Tensor(1, false), Tensor(2, true), Tensor(3, true)}
  {
    InputIsLayer();
    WeightIsLayer();
    OperatorIsLayer();
    ExampleValues(Layers());
  }

  lemma InputIsLayer()
    ensures IsLayer(InputLayer())
  {
    assert Slot(0) in InputLayer().outputs;
  }

  lemma WeightIsLayer()
    ensures IsLayer(WeightLayer())
  {
    assert Slot(0) in WeightLayer().outputs;
  }

  lemma OperatorIsLayer()
    ensures IsLayer(OperatorLayer())
  {
    assert Slot(2) in OperatorLayer().outputs;
  }

  lemma ExampleValues(cg: DynamicGraph)
    requires cg == Layers()
    ensures GraphValues(cg) == {Tensor(1, false), Tensor(2, true), Tensor(3, true)}
  {
    ValuesOfLayers();
    assert InputLayer() in cg && WeightLayer() in cg && OperatorLayer() in cg;
    forall v | v in GraphValues(cg) ensures v in {Tensor(1, false), Tensor(2, true), Tensor(3, true)} {
      var l :| l in cg && v in ValuesOf(l);
    }
    assert Tensor(3, true) in ValuesOf(OperatorLayer());
  }

  lemma ExampleIsLayerGraph()
    ensures IsLayerGraph(Layers())
  {
    LayersAreOrdered();
    AreExampleLayers();
    LayersAreDistinct();
    TensorsAreDistinct(GraphValues(Layers()));
  }

  lemma LayersAreDistinct()
    ensures forall i, j {:trigger SameLayer(i, j)} :: i in Layers() && j in Layers() && SameLayer(i, j) ==> i == j
  {
    forall i, j | i in Layers() && j in Layers() && SameLayer(i, j) ensures i == j { OneLayer(i, j); }
  }

  lemma TensorsAreDistinct(values: set<ValueAttrs>)
    requires values == {Tensor(1, false), Tensor(2, true), Tensor(3, true)}
    ensures forall v, w {:trigger SameTensor(v, w)} :: v in values && w in values && SameTensor(v, w) ==> v == w
  {
    forall v, w | v in values && w in values && SameTensor(v, w) ensures v == w {}
  }

  /** The gradients of the weight and of what is computed from it are needed, and that of the input is
      not. */
  lemma ExampleGradients()
    ensures NeededValues(Layers()) == {Tensor(2, true), Tensor(3, true)}
  {
    LayersAreOrdered();
    AreExampleLayers();
    InputNeedsNone(Layers());
    WeightAndOutputNeedOne(Layers());
    NeededFrom(Layers());
  }

  lemma NeededFrom(cg: DynamicGraph)
    requires GraphValues(cg) == {Tensor(1, false), Tensor(2, true), Tensor(3, true)}
    requires Tensor(1, false) !in NeededValues(cg)
    requires Tensor(2, true) in NeededValues(cg) && Tensor(3, true) in NeededValues(cg)
    ensures NeededValues(cg) == {Tensor(2, true), Tensor(3, true)}
  {
    NeededExactly(cg);
  }

  lemma InputNeedsNone(cg: DynamicGraph)
    requires cg == Layers() && ProducedOnce(cg)
    ensures Tensor(1, false) !in NeededValues(cg)
  {
    ValuesOfLayers();
    NeededByLayer(cg, InputLayer(), Tensor(1, false));
  }

  lemma WeightAndOutputNeedOne(cg: DynamicGraph)
    requires cg == Layers() && ProducedOnce(cg)
    ensures Tensor(2, true) in NeededValues(cg) && Tensor(3, true) in NeededValues(cg)
  {
    ValuesOfLayers();
    NeededByLayer(cg, WeightLayer(), Tensor(2, true));
    NeededByLayer(cg, OperatorLayer(), Tensor(3, true));
    assert Tensor(2, true) in OperatorLayer().inputs.Values * NeededValues(cg);
  }

  /** It is a graph of layers, and with the operator's output as logits every gradient has one source. */
  lemma ExampleCanBeTrained(attrs: nat, labels: Accessor)
    ensures IsLayerGraph(Layers())
    ensures HasLogits(Layers(), Some(Loss(Tensor(3, true), attrs, labels)))
    ensures GradientsOnce(Layers(), Some(Loss(Tensor(3, true), attrs, labels)))
  {
    ExampleIsLayerGraph();
    GradientsHaveOneSource(Layers(), Some(Loss(Tensor(3, true), attrs, labels)));
  }

  lemma GradientsHaveOneSource(cg: DynamicGraph, loss: Option<Loss>)
    requires cg == Layers() && loss.Some? && loss.value.logit == Tensor(3, true)
    ensures HasLogits(cg, loss) && GradientsOnce(cg, loss)
  {
    ValuesOfLayers();
    assert OperatorLayer() in cg && Tensor(3, true) in OperatorLayer().outputs.Values;
    forall i | NeededInBackward(cg, i) ensures i == OperatorLayer() {
    }
  }
}
