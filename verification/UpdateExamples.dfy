/** A layer with one weight, its forward and backward task and the update of the weight: the
    smallest graphs on which the order of execution shows, on which an input is not final, and on
    which a timing is lost. */
module UpdateExamples {
  import opened Sequences
  import opened Digraphs
  import opened Scheduling
  import opened DynamicGraphs
  import opened LocalExecution
  import opened Options
  import opened Timings

  function Slot(name: nat, kind: FwbTensorType): TensorSlot {
    TensorSlot(name, Some(FwbTensor(kind)), None)
  }

  /** Tensor t, in the given role, with a buffer of its own. */
  function Value(t: nat, kind: FwbTensorType): ValueAttrs {
    ValueAttrs(t, Some([1]), Some(true), Some(FwbTensor(kind)), Some(WriteAccessor(Buffer(t, kind), [1])))
  }

  function Buffer(t: nat, kind: FwbTensorType): Ptr {
    if kind == Forward then 2 * t else 2 * t + 1
  }

  const WEIGHT := 0
  const RESULT := 1
  const OUTSIDE := 2

  const LAYER := 1
  const WEIGHT_LAYER := 2

  function Inputs(): map<TensorSlot, ValueAttrs> {
    map[Slot(WEIGHT, Forward) := Value(WEIGHT, Forward)]
  }

  function Results(): map<TensorSlot, ValueAttrs> {
    map[Slot(RESULT, Forward) := Value(RESULT, Forward)]
  }

  function ResultGradients(): map<TensorSlot, ValueAttrs> {
    map[Slot(RESULT, Gradient) := Value(RESULT, Gradient)]
  }

  function InputGradients(): map<TensorSlot, ValueAttrs> {
    map[Slot(WEIGHT, Gradient) := Value(WEIGHT, Gradient)]
  }

  /** The forward task reads the weight. */
  function Use(): Invocation {
    Invocation(Inputs(), NodeAttrs(Some(FWD), Some(PcgOp(OtherOperator(0), true)), LAYER, None), Results())
  }

  function Back(): Invocation {
    Invocation(
      Inputs() + Results() + ResultGradients(), NodeAttrs(Some(BWD), Some(PcgOp(OtherOperator(0), true)), LAYER, None),
      InputGradients())
  }

  /** The update task overwrites the weight. Its gradient comes from the backward task when it is
      `linked`, and from outside otherwise. */
  function Update(linked: bool): Invocation {
    Invocation(
      map[Slot(WEIGHT, Forward) := Value(WEIGHT, Forward),
          Slot(WEIGHT, Gradient) := Value(if linked then WEIGHT else OUTSIDE, Gradient)],
      NodeAttrs(Some(UPD), Some(PcgOp(WeightOperator, true)), WEIGHT_LAYER, None),
      map[])
  }

  function Graph(linked: bool): DynamicGraph {
    {Use(), Back(), Update(linked)}
  }

  // ------------------------------------------------------------- what the tasks work on

  lemma OneValue<K, V>(k: K, v: V)
    ensures map[k := v].Values == {v}
  {
    assert map[k := v][k] == v;
  }

  lemma UseValues()
    ensures Use().inputs.Values == {Value(WEIGHT, Forward)} && Use().outputs.Values == {Value(RESULT, Forward)}
  {
    OneValue(Slot(WEIGHT, Forward), Value(WEIGHT, Forward));
    OneValue(Slot(RESULT, Forward), Value(RESULT, Forward));
  }

  lemma BackValues()
    ensures Back().inputs.Values == {Value(WEIGHT, Forward), Value(RESULT, Forward), Value(RESULT, Gradient)}
    ensures Back().outputs.Values == {Value(WEIGHT, Gradient)}
  {
    var m := Back().inputs;
    assert m[Slot(WEIGHT, Forward)] == Value(WEIGHT, Forward) && m[Slot(RESULT, Forward)] == Value(RESULT, Forward);
    assert m[Slot(RESULT, Gradient)] == Value(RESULT, Gradient);
    OneValue(Slot(WEIGHT, Gradient), Value(WEIGHT, Gradient));
  }

  lemma UpdateValues(linked: bool)
    ensures Update(linked).inputs.Values == {Value(WEIGHT, Forward),
      Value(if linked then WEIGHT else OUTSIDE, Gradient)}
    ensures Update(linked).outputs.Values == {}
  {
    var m := Update(linked).inputs;
    assert m[Slot(WEIGHT, Forward)] == Value(WEIGHT, Forward);
    assert m[Slot(WEIGHT, Gradient)] == Value(if linked then WEIGHT else OUTSIDE, Gradient);
  }

  lemma ValueDiffers(t: nat, u: nat, j: FwbTensorType, k: FwbTensorType)
    ensures Value(t, j) == Value(u, k) <==> t == u && j == k
    ensures Buffer(t, j) == Buffer(u, k) <==> t == u && j == k
  {
  }

  /** Who feeds whom, whatever the three tasks are, as long as they work on these values. */
  ghost predicate WorkOn(u: Invocation, b: Invocation, w: Invocation, linked: bool) {
    && u.inputs.Values == {Value(WEIGHT, Forward)} && u.outputs.Values == {Value(RESULT, Forward)}
    && b.inputs.Values == {Value(WEIGHT, Forward), Value(RESULT, Forward), Value(RESULT, Gradient)}
    && b.outputs.Values == {Value(WEIGHT, Gradient)}
    && w.inputs.Values == {Value(WEIGHT, Forward), Value(if linked then WEIGHT else OUTSIDE, Gradient)}
    && w.outputs.Values == {}
  }

  lemma TasksWorkOn(linked: bool)
    ensures WorkOn(Use(), Back(), Update(linked), linked)
  {
    UseValues();
    BackValues();
    UpdateValues(linked);
  }

  lemma OneFeeds(a: Invocation, b: Invocation, v: ValueAttrs)
    requires a.outputs.Values == {v}
    ensures Feeds(a, b) <==> v in b.inputs.Values
  {
    if v in b.inputs.Values { assert v in a.outputs.Values * b.inputs.Values; }
  }

  lemma Edges(u: Invocation, b: Invocation, w: Invocation, linked: bool)
    requires WorkOn(u, b, w, linked)
    ensures !Feeds(u, u) && Feeds(u, b) && !Feeds(u, w)
    ensures !Feeds(b, u) && !Feeds(b, b) && (Feeds(b, w) <==> linked)
    ensures !Feeds(w, u) && !Feeds(w, b) && !Feeds(w, w)
  {
    ValuesDiffer();
    OneFeeds(u, u, Value(RESULT, Forward));
    OneFeeds(u, b, Value(RESULT, Forward));
    OneFeeds(u, w, Value(RESULT, Forward));
    OneFeeds(b, u, Value(WEIGHT, Gradient));
    OneFeeds(b, b, Value(WEIGHT, Gradient));
    OneFeeds(b, w, Value(WEIGHT, Gradient));
  }

  lemma ValuesDiffer()
    ensures Value(RESULT, Forward) != Value(WEIGHT, Forward) && Value(WEIGHT, Gradient) != Value(WEIGHT, Forward)
    ensures Value(WEIGHT, Gradient) != Value(RESULT, Forward) && Value(WEIGHT, Gradient) != Value(RESULT, Gradient)
    ensures Value(WEIGHT, Gradient) != Value(OUTSIDE, Gradient) && Value(RESULT, Forward) != Value(OUTSIDE, Gradient)
    ensures Value(RESULT, Forward) != Value(WEIGHT, Gradient)
  {
  }

  lemma TypesDiffer(linked: bool)
    ensures Use() != Back() && Use() != Update(linked) && Back() != Update(linked)
  {
    assert Use().node.taskType != Back().node.taskType && Use().node.taskType != Update(linked).node.taskType;
    assert Back().node.taskType != Update(linked).node.taskType;
  }

  // ------------------------------------------------------------------- the graph is valid

  lemma GraphIsAcyclic(linked: bool)
    ensures Acyclic(DataflowGraph(Graph(linked)))
  {
    var u, b, w := Use(), Back(), Update(linked);
    TasksWorkOn(linked);
    Edges(u, b, w, linked);
    TypesDiffer(linked);
    RankedIsAcyclic(DataflowGraph(Graph(linked)), map[u := 0, b := 1, w := 2]);
  }

  lemma GraphProducesOnce(linked: bool)
    ensures ProducedOnce(Graph(linked))
  {
    TasksWorkOn(linked);
    ValuesDiffer();
    forall i, j, s, t | i in Graph(linked) && j in Graph(linked) && s in i.outputs && t in j.outputs
      && i.outputs[s] == j.outputs[t]
      ensures i == j && s == t
    {
      assert i.outputs[s] in i.outputs.Values && j.outputs[t] in j.outputs.Values;
      SoleSlots(linked, i, s, t);
    }
  }

  lemma SoleSlots(linked: bool, i: Invocation, s: TensorSlot, t: TensorSlot)
    requires i in Graph(linked)
    ensures s in i.outputs && t in i.outputs ==> s == t
  {
  }

  lemma GraphBuffersAreDistinct(linked: bool)
    ensures BuffersDistinct(Graph(linked)) && AllTensorsAllocated(Graph(linked))
  {
    TasksWorkOn(linked);
    forall v | v in GraphValues(Graph(linked)) ensures exists t, k :: v == Value(t, k) {
      var i :| i in Graph(linked) && v in ValuesOf(i);
    }
    forall v, w | v in GraphValues(Graph(linked)) && w in GraphValues(Graph(linked)) && v != w
      ensures v.accessor.value.ptr != w.accessor.value.ptr
    {
      var t, j :| v == Value(t, j);
      var u, k :| w == Value(u, k);
      ValueDiffers(t, u, j, k);
    }
  }

  lemma GraphIsValid(linked: bool)
    ensures ValidGraph(Graph(linked)) && BuffersDistinct(Graph(linked)) && AllTensorsAllocated(Graph(linked))
  {
    GraphIsAcyclic(linked);
    GraphProducesOnce(linked);
    GraphBuffersAreDistinct(linked);
  }

  lemma ThreeInOrder<N(!new)>(d: Digraph<N>, x: N, y: N, z: N)
    requires d.nodes == {x, y, z} && x != y && x != z && y != z
    requires forall a, b :: (a, b) in d.edges ==> (a == x && b != x && b in d.nodes) || (a == y && b == z)
    ensures IsTopologicalOrdering(d, [x, y, z])
  {
    var order := [x, y, z];
    assert order[0] == x && order[1] == y && order[2] == z;
    forall a, b | (a, b) in d.edges ensures Before(order, a, b) {
      if a == x && b == y { BeforeAt(order, 0, 1); } else if a == x { BeforeAt(order, 0, 2); } else
        { BeforeAt(order, 1, 2); }
    }
  }

  lemma BeforeAt<N(!new)>(order: seq<N>, i: nat, j: nat)
    requires i < j < |order|
    ensures Before(order, order[i], order[j])
  {
  }

  lemma UseBackUpdate(linked: bool)
    ensures IsTopologicalOrdering(DataflowGraph(Graph(linked)), [Use(), Back(), Update(linked)])
  {
    TasksWorkOn(linked);
    Edges(Use(), Back(), Update(linked), linked);
    TypesDiffer(linked);
    ThreeInOrder(DataflowGraph(Graph(linked)), Use(), Back(), Update(linked));
  }

  /** When nothing links the update to the backward task, it may come second, or first. */
  lemma UpdateAnywhere()
    ensures IsTopologicalOrdering(DataflowGraph(Graph(false)), [Use(), Update(false), Back()])
    ensures IsTopologicalOrdering(DataflowGraph(Graph(false)), [Update(false), Use(), Back()])
  {
    TasksWorkOn(false);
    Edges(Use(), Back(), Update(false), false);
    TypesDiffer(false);
    ThreeInOrder(DataflowGraph(Graph(false)), Use(), Update(false), Back());
    ThreeInOrder(DataflowGraph(Graph(false)), Update(false), Use(), Back());
  }

  // ------------------------------------------------------- the order of execution shows

  lemma Footprints(linked: bool)
    ensures Buffer(WEIGHT, Forward) in MayRead(Use()) && Buffer(RESULT, Forward) in MayWrite(UpdatedInPlace)(Use())
    ensures Overwrites(UpdatedInPlace, Update(linked), Slot(WEIGHT, Forward))
    ensures Update(linked).inputs[Slot(WEIGHT, Forward)] == Value(WEIGHT, Forward)
    ensures Buffer(WEIGHT, Forward) in MayWrite(UpdatedInPlace)(Update(linked))
  {
    assert Use().inputs[Slot(WEIGHT, Forward)] == Value(WEIGHT, Forward);
    assert Use().outputs[Slot(RESULT, Forward)] == Value(RESULT, Forward);
    assert Update(linked).inputs[Slot(WEIGHT, Forward)] == Value(WEIGHT, Forward) && UpdatedSlot(Slot(WEIGHT, Forward));
  }

  /** One producer per value and one buffer per value do not make the order of execution
      immaterial: here two topological orderings end in different stores. */
  lemma UnorderedUpdateShows(attrs: OptimizerAttrs)
    returns (o1: seq<Invocation>, o2: seq<Invocation>, impls: TaskImpls, st: Store)
    ensures ValidGraph(Graph(false)) && BuffersDistinct(Graph(false)) && impls.inPlace == UpdatedInPlace
    ensures IsTopologicalOrdering(DataflowGraph(Graph(false)), o1)
    ensures IsTopologicalOrdering(DataflowGraph(Graph(false)), o2)
    ensures RunAll(TasksOf(impls), attrs, o1, st) != RunAll(TasksOf(impls), attrs, o2, st)
  {
    GraphIsValid(false);
    UpdateAnywhere();
    TypesDiffer(false);
    Footprints(false);
    o1, o2 := [Use(), Update(false), Back()], [Update(false), Use(), Back()];
    impls, st := SwapShows(attrs, Use(), Update(false), Back(), Buffer(WEIGHT, Forward), Buffer(RESULT, Forward));
  }

  lemma ReaderInterferes(body: TaskBody, u: Invocation, w: Invocation, p: Ptr, q: Ptr)
    requires p in MayRead(u) && p in MayWrite(UpdatedInPlace)(w) && q in MayWrite(UpdatedInPlace)(u)
    ensures Interferes(Tasks(MayRead, MayWrite(UpdatedInPlace), body), u, w)
  {
    assert p in MayWrite(UpdatedInPlace)(w) * MayRead(u);
  }

  lemma TwoAndOne<N>(x: N, y: N, z: N)
    ensures [] + [x, y] + [z] == [x, y, z]
  {
  }

  lemma SwapShows(attrs: OptimizerAttrs, u: Invocation, w: Invocation, b: Invocation, p: Ptr, q: Ptr)
    returns (impls: TaskImpls, st: Store)
    requires u != w && b != u && b != w
    requires p in MayRead(u) && p in MayWrite(UpdatedInPlace)(w) && q in MayWrite(UpdatedInPlace)(u)
    ensures impls.inPlace == UpdatedInPlace
    ensures RunAll(TasksOf(impls), attrs, [u, w, b], st) != RunAll(TasksOf(impls), attrs, [w, u, b], st)
  {
    ReaderInterferes((i: Invocation, a: OptimizerAttrs, s: Store) => s, u, w, p, q);
    var t;
    t, st := InterferenceIsVisible(MayRead, MayWrite(UpdatedInPlace), attrs, u, w, [], [b]);
    impls := TaskImpls(UpdatedInPlace, t.body);
    assert t == TasksOf(impls);
    TwoAndOne(u, w, b);
    TwoAndOne(w, u, b);
  }

  /** The graph does not order the update after the task that reads the weight. */
  lemma UnorderedUpdateIsNotOrdered()
    ensures !OverwritesOrdered(Graph(false), UpdatedInPlace)
  {
    var attrs := SGD(1.0, 0.0, false, 0.0);
    var o1, o2, impls, st := UnorderedUpdateShows(attrs);
    if OverwritesOrdered(Graph(false), UpdatedInPlace) {
      ExecutionOrderIsImmaterial(Graph(false), impls, attrs, o1, o2, st);
    }
  }

  // ------------------------------------------------------------ an input is not final

  lemma LinkedUpdateComesLast()
    ensures OverwritesComeLast(Graph(true), UpdatedInPlace)
  {
    var u, b, w, d := Use(), Back(), Update(true), DataflowGraph(Graph(true));
    TasksWorkOn(true);
    Edges(u, b, w, true);
    EdgeReaches(d, u, b);
    EdgeReaches(d, b, w);
    ReachesTrans(d, u, b, w);
    OnlyUpdateOverwrites(true);
  }

  lemma OnlyUpdateOverwrites(linked: bool)
    ensures forall i, s :: i in Graph(linked) && Overwrites(UpdatedInPlace, i, s) ==> i == Update(linked)
  {
    forall i, s | i in Graph(linked) && Overwrites(UpdatedInPlace, i, s) ensures i == Update(linked) {
      assert IsUpdate(i);
    }
  }

  /** Even when updates come last, the weight is not final when the forward task reads it. */
  lemma TrainedWeightIsNotFinal(attrs: OptimizerAttrs) returns (impls: TaskImpls, st: Store)
    ensures ValidGraph(Graph(true)) && BuffersDistinct(Graph(true)) && OverwritesComeLast(Graph(true), UpdatedInPlace)
    ensures IsTopologicalOrdering(DataflowGraph(Graph(true)), [Use(), Back(), Update(true)])
    ensures impls.inPlace == UpdatedInPlace
    ensures !FinalAt(TasksOf(impls), attrs, [Use(), Back(), Update(true)], 0, Buffer(WEIGHT, Forward), st)
  {
    var order := [Use(), Back(), Update(true)];
    GraphIsValid(true);
    UseBackUpdate(true);
    LinkedUpdateComesLast();
    Footprints(true);
    assert order[2] == Update(true) && order[0].inputs[Slot(WEIGHT, Forward)] == Value(WEIGHT, Forward);
    assert OverwrittenFrom(UpdatedInPlace, order, 0, Value(WEIGHT, Forward));
    InputsAreFinalWhenRead(Graph(true), UpdatedInPlace, attrs, order, 0, Slot(WEIGHT, Forward));
    var body: TaskBody;
    body, st :| !FinalAt(Tasks(MayRead, MayWrite(UpdatedInPlace), body), attrs, order, 0, Buffer(WEIGHT, Forward), st);
    impls := TaskImpls(UpdatedInPlace, body);
  }

  // ------------------------------------------------------------------ a timing is lost

  /** The linked graph has one order only, and however long its backward task takes, the run reports
      for its layer what the forward task takes. */
  lemma BackwardTimingIsLost(order: seq<Invocation>, clock: Clock, timings: map<nat, Option<real>>)
    requires IsTopologicalOrdering(DataflowGraph(Graph(true)), order) && Reports(order, clock, timings)
    ensures order == [Use(), Back(), Update(true)]
    ensures timings == map[LAYER := clock(Use()), WEIGHT_LAYER := None]
  {
    OnlyOrder(order);
    var keys := LayersOf(order);
    assert keys == [LAYER, LAYER, WEIGHT_LAYER];
    assert timings.Keys == {LAYER, WEIGHT_LAYER} by { assert keys[0] in keys && keys[2] in keys; }
    FirstOfItsLayer(order, clock, timings, 0);
    FirstOfItsLayer(order, clock, timings, 2);
  }

  lemma OnlyOrder(order: seq<Invocation>)
    requires IsTopologicalOrdering(DataflowGraph(Graph(true)), order)
    ensures order == [Use(), Back(), Update(true)]
  {
    var u, b, w := Use(), Back(), Update(true);
    TasksWorkOn(true);
    Edges(u, b, w, true);
    TypesDiffer(true);
    assert (u, b) in DataflowGraph(Graph(true)).edges && (b, w) in DataflowGraph(Graph(true)).edges;
    ChainOfThree(order, u, b, w);
  }

  lemma ChainOfThree<N(!new)>(order: seq<N>, x: N, y: N, z: N)
    requires NoDuplicates(order) && (forall i :: i in order <==> i in {x, y, z}) && Before(order, x, y)
    requires Before(order, y, z)
    ensures order == [x, y, z]
  {
    BeforeTrans(order, x, y, z);
    var i, j :| 0 <= i < j < |order| && order[i] == x && order[j] == y;
    var k, l :| 0 <= k < l < |order| && order[k] == y && order[l] == z;
    assert j == k;
    LengthIsCardinality(order);
    assert (set m | m in order) == {x, y, z};
  }
}
