/** The dynamic open dataflow graph: a set of node invocations wired together by the values
    they share, and the checks and rewrites the local backend performs on it. */
module DynamicGraphs {
  import opened Sequences
  import opened Digraphs
  import opened Options

  type Ptr = nat

  datatype Accessor = ReadAccessor(ptr: Ptr, dims: seq<nat>) | WriteAccessor(ptr: Ptr, dims: seq<nat>)

  datatype FwbTensorType = Forward | Gradient

  datatype TensorRole = FwbTensor(kind: FwbTensorType) | OptimizerTensor(optimizerSlot: nat) | LossTensor

  datatype TensorSlot = TensorSlot(name: nat, role: Option<TensorRole>, taskShard: Option<nat>)

  /** `pieceDims` stands for the per-device shape of the value's parallel tensor shape. */
  datatype ValueAttrs = ValueAttrs(
    guid: nat,
    pieceDims: Option<seq<nat>>,
    createGrad: Option<bool>,
    role: Option<TensorRole>,
    accessor: Option<Accessor>)

  datatype TaskType = FWD | BWD | UPD | LOSS

  datatype OperatorType = WeightOperator | InputOperator | ReplicateOperator | OtherOperator(op: nat)

  /** A PCG operator; `isComputation` says that it is one of the operators that exist in a
      computation graph, not one of the four parallel operators. */
  datatype OperationAttrs = PcgOp(op: OperatorType, isComputation: bool) | LossOp(loss: nat) | CopyOp

  datatype NodeAttrs = NodeAttrs(
    taskType: Option<TaskType>,
    opAttrs: Option<OperationAttrs>,
    layer: nat,
    opState: Option<nat>)

  datatype Invocation = Invocation(
    inputs: map<TensorSlot, ValueAttrs>,
    node: NodeAttrs,
    outputs: map<TensorSlot, ValueAttrs>)

  type DynamicGraph = set<Invocation>

  predicate SameLayer(a: Invocation, b: Invocation) {
    a.node.layer == b.node.layer
  }

  predicate SameTensor(v: ValueAttrs, w: ValueAttrs) {
    v.guid == w.guid
  }

  function ValuesOf(i: Invocation): set<ValueAttrs> {
    i.inputs.Values + i.outputs.Values
  }

  function GraphValues(g: DynamicGraph): set<ValueAttrs> {
    set i, v | i in g && v in ValuesOf(i) :: v
  }

  // ------------------------------------------------------- the graph as a digraph

  predicate Feeds(a: Invocation, b: Invocation) {
    a.outputs.Values * b.inputs.Values != {}
  }

  function DataflowGraph(g: DynamicGraph): Digraph<Invocation> {
    Digraph(g, set a, b | a in g && b in g && Feeds(a, b) :: (a, b))
  }

  /** No value is produced by two output slots. */
  predicate ProducedOnce(g: DynamicGraph) {
    forall i, j, s, t :: i in g && j in g && s in i.outputs && t in j.outputs && i.outputs[s] == j.outputs[t]
      ==> i == j && s == t
  }

  ghost predicate ValidGraph(g: DynamicGraph) {
    ProducedOnce(g) && Acyclic(DataflowGraph(g))
  }

  lemma DataflowGraphIsWellFormed(g: DynamicGraph)
    ensures WellFormed(DataflowGraph(g))
  {
  }

  // ------------------------------------------------- building the dataflow graph

  function Produced(g: DynamicGraph): set<ValueAttrs> {
    set i, v | i in g && v in i.outputs.Values :: v
  }

  /** The values that exist once the invocations of `order` have been added. */
  function Available(g: DynamicGraph, order: seq<Invocation>): set<ValueAttrs> {
    (GraphValues(g) - Produced(g)) + (set i, v | i in order && v in i.outputs.Values :: v)
  }

  lemma ReadyIffPredecessorsAdded(g: DynamicGraph, order: seq<Invocation>, i: Invocation)
    requires ProducedOnce(g) && i in g && forall x :: x in order ==> x in g
    ensures i.inputs.Values <= Available(g, order) <==> AllPredecessorsIn(DataflowGraph(g), order, i)
  {
    if i.inputs.Values <= Available(g, order) {
      forall y | (y, i) in DataflowGraph(g).edges ensures y in order {
        var v :| v in y.outputs.Values && v in i.inputs.Values by {
          assert y.outputs.Values * i.inputs.Values != {};
        }
        assert v in Produced(g);
        var x :| x in order && v in x.outputs.Values;
        SoleProducer(g, x, y, v);
      }
    }
    if AllPredecessorsIn(DataflowGraph(g), order, i) {
      forall v | v in i.inputs.Values ensures v in Available(g, order) {
        if v in Produced(g) {
          var y :| y in g && v in y.outputs.Values;
          assert v in y.outputs.Values * i.inputs.Values;
          assert (y, i) in DataflowGraph(g).edges;
        } else {
          assert v in ValuesOf(i);
        }
      }
    }
  }

  lemma SoleProducer(g: DynamicGraph, x: Invocation, y: Invocation, v: ValueAttrs)
    requires ProducedOnce(g) && x in g && y in g && v in x.outputs.Values && v in y.outputs.Values
    ensures x == y
  {
    var s :| s in x.outputs && x.outputs[s] == v;
    var t :| t in y.outputs && y.outputs[t] == v;
  }

  /** In a topological ordering, a value is produced before it is read. */
  lemma ProducersComeFirst(g: DynamicGraph, order: seq<Invocation>, i: nat, j: nat, v: ValueAttrs)
    requires IsTopologicalOrdering(DataflowGraph(g), order) && i < |order| && j < |order|
    requires v in order[i].outputs.Values && v in order[j].inputs.Values
    ensures i < j
  {
    assert order[i] in order && order[j] in order;
    assert v in order[i].outputs.Values * order[j].inputs.Values;
    assert (order[i], order[j]) in DataflowGraph(g).edges;
    assert Before(order, order[i], order[j]);
  }

  /** Building the dataflow graph adds, again and again, some invocation whose inputs are all
      graph inputs or outputs of invocations already added, and fails when there is none. It
      fails exactly on the graphs that have a cycle. */
  method AddAllInvocations(g: DynamicGraph) returns (added: Option<seq<Invocation>>)
    requires ProducedOnce(g)
    ensures added.Some? <==> Acyclic(DataflowGraph(g))
    ensures added.Some? ==> IsTopologicalOrdering(DataflowGraph(g), added.value)
  {
    var toAdd := g;
    var order: seq<Invocation> := [];
    while toAdd != {}
      invariant toAdd <= g && NoDuplicates(order)
      invariant forall x :: x in order <==> x in g && x !in toAdd
      invariant PredecessorsEarlier(DataflowGraph(g), order)
      decreases toAdd
    {
      var available := Available(g, order);
      var ready := set i | i in toAdd && i.inputs.Values <= available;
      if ready == {} {
        forall i | i in toAdd ensures !(i.inputs.Values <= available) { assert i !in ready; }
        NothingReady(g, order, toAdd);
        return None;
      }
      var i :| i in ready;
      ReadyIffPredecessorsAdded(g, order, i);
      KeepNode(DataflowGraph(g), order, i);
      order := order + [i];
      toAdd := toAdd - {i};
    }
    CompleteOrdering(DataflowGraph(g), order);
    OrderedIsAcyclic(DataflowGraph(g), order);
    added := Some(order);
  }

  lemma NothingReady(g: DynamicGraph, order: seq<Invocation>, toAdd: set<Invocation>)
    requires ProducedOnce(g) && toAdd != {} && toAdd <= g
    requires forall x :: x in order <==> x in g && x !in toAdd
    requires forall i :: i in toAdd ==> !(i.inputs.Values <= Available(g, order))
    ensures !Acyclic(DataflowGraph(g))
  {
    if Acyclic(DataflowGraph(g)) {
      var x := MinimalElement(DataflowGraph(g), toAdd);
      ReadyIffPredecessorsAdded(g, order, x);
      assert false;
    }
  }

  // ------------------------------------------------- rewriting every invocation

  /** A rewriting of the invocations that keeps the wiring: it merges no two invocations,
      slots stay where they are, and two slots, on whichever side, hold equal values after it
      exactly when they did before it. */
  ghost predicate KeepsWiring(g: DynamicGraph, f: map<Invocation, Invocation>) {
    && f.Keys == g
    && (forall i, j :: i in g && j in g && f[i] == f[j] ==> i == j)
    && (forall i, j :: i in g && j in g ==> WiredAlike(i, j, f[i], f[j]))
  }

  /** The slots of i meet the slots of j in the same places as before. */
  ghost predicate WiredAlike(i: Invocation, j: Invocation, i': Invocation, j': Invocation) {
    && SharedAlike(i.outputs, j.outputs, i'.outputs, j'.outputs)
    && SharedAlike(i.outputs, j.inputs, i'.outputs, j'.inputs)
    && SharedAlike(i.inputs, j.inputs, i'.inputs, j'.inputs)
  }

  /** Slot s of the one list and slot t of the other hold the same value after exactly when
      they did before. */
  ghost predicate SharedAlike<S(!new), V>(x: map<S, V>, y: map<S, V>, x': map<S, V>, y': map<S, V>) {
    && x'.Keys == x.Keys && y'.Keys == y.Keys
    && forall s, t :: s in x && t in y ==> (x'[s] == y'[t] <==> x[s] == y[t])
  }

  function Rewritten(g: DynamicGraph, f: map<Invocation, Invocation>): DynamicGraph
    requires f.Keys == g
  {
    set i | i in g :: f[i]
  }

  lemma FeedsAlike(a: Invocation, b: Invocation, a': Invocation, b': Invocation)
    requires WiredAlike(a, b, a', b')
    ensures Feeds(a, b) <==> Feeds(a', b')
  {
    if Feeds(a, b) {
      SharedSlots(a, b);
      var s, t :| s in a.outputs && t in b.inputs && a.outputs[s] == b.inputs[t];
      assert a'.outputs[s] in a'.outputs.Values * b'.inputs.Values;
    }
    if Feeds(a', b') {
      SharedSlots(a', b');
      var s, t :| s in a'.outputs && t in b'.inputs && a'.outputs[s] == b'.inputs[t];
      assert a.outputs[s] in a.outputs.Values * b.inputs.Values;
    }
  }

  lemma SharedSlots(a: Invocation, b: Invocation)
    requires Feeds(a, b)
    ensures exists s, t :: s in a.outputs && t in b.inputs && a.outputs[s] == b.inputs[t]
  {
    var v :| v in a.outputs.Values * b.inputs.Values;
    var s :| s in a.outputs && a.outputs[s] == v;
    var t :| t in b.inputs && b.inputs[t] == v;
  }

  lemma RewritingKeepsEdges(g: DynamicGraph, f: map<Invocation, Invocation>)
    requires KeepsWiring(g, f)
    ensures forall a, b :: a in g && b in g ==>
      ((a, b) in DataflowGraph(g).edges <==> (f[a], f[b]) in DataflowGraph(Rewritten(g, f)).edges)
  {
    forall a, b | a in g && b in g
      ensures (a, b) in DataflowGraph(g).edges <==> (f[a], f[b]) in DataflowGraph(Rewritten(g, f)).edges
    {
      assert WiredAlike(a, b, f[a], f[b]);
      FeedsAlike(a, b, f[a], f[b]);
    }
  }

  /** The check made after every rewriting cannot fail when the wiring is kept: the graph
      stays valid and keeps exactly its dataflow edges. */
  lemma RewritingKeepsValidity(g: DynamicGraph, f: map<Invocation, Invocation>)
    requires ValidGraph(g) && KeepsWiring(g, f)
    ensures ValidGraph(Rewritten(g, f)) && |Rewritten(g, f)| == |g|
    ensures forall a, b :: a in g && b in g ==>
      ((a, b) in DataflowGraph(g).edges <==> (f[a], f[b]) in DataflowGraph(Rewritten(g, f)).edges)
  {
    var h := Rewritten(g, f);
    RewritingKeepsEdges(g, f);
    RewritingKeepsProducers(g, f);
    var order := OrderingExists(DataflowGraph(g));
    var image := ImageOfOrdering(DataflowGraph(g), DataflowGraph(h), f, order);
    OrderedIsAcyclic(DataflowGraph(h), image);
  }

  lemma RewritingKeepsProducers(g: DynamicGraph, f: map<Invocation, Invocation>)
    requires ProducedOnce(g) && KeepsWiring(g, f)
    ensures ProducedOnce(Rewritten(g, f))
  {
    var h := Rewritten(g, f);
    forall i', j', s, t | i' in h && j' in h && s in i'.outputs && t in j'.outputs && i'.outputs[s] == j'.outputs[t]
      ensures i' == j' && s == t
    {
      var i :| i in g && f[i] == i';
      var j :| j in g && f[j] == j';
      assert WiredAlike(i, j, i', j');
      assert i.outputs[s] == j.outputs[t];
    }
  }

  /** A one-to-one renaming that keeps the edges carries a topological ordering along. */
  lemma ImageOfOrdering<N(!new)>(g: Digraph<N>, h: Digraph<N>, f: map<N, N>, order: seq<N>) returns (image: seq<N>)
    requires f.Keys == g.nodes && h.nodes == set i | i in g.nodes :: f[i]
    requires forall i, j :: i in g.nodes && j in g.nodes && f[i] == f[j] ==> i == j
    requires forall a, b :: a in g.nodes && b in g.nodes ==> ((a, b) in g.edges <==> (f[a], f[b]) in h.edges)
    requires WellFormed(h) && IsTopologicalOrdering(g, order)
    ensures IsTopologicalOrdering(h, image) && |h.nodes| == |g.nodes|
  {
    assert forall k :: 0 <= k < |order| ==> order[k] in order;
    image := seq(|order|, k requires 0 <= k < |order| => f[order[k]]);
    forall a, b | (a, b) in h.edges ensures Before(image, a, b) {
      var x :| x in g.nodes && f[x] == a;
      var y :| y in g.nodes && f[y] == b;
      assert (x, y) in g.edges;
      assert Before(order, x, y);
      var i, j :| 0 <= i < j < |order| && order[i] == x && order[j] == y;
      assert image[i] == a && image[j] == b;
    }
    forall x | x in h.nodes ensures x in image {
      var i :| i in g.nodes && f[i] == x;
      assert i in order;
      var k :| 0 <= k < |order| && order[k] == i;
      assert image[k] == x;
    }
    LengthIsCardinality(image);
    LengthIsCardinality(order);
    assert (set x | x in image) == h.nodes && (set x | x in order) == g.nodes;
  }

  // ------------------------------------------------------------- tensor allocation

  predicate NoTensorsAllocated(g: DynamicGraph) {
    forall v :: v in GraphValues(g) ==> v.accessor.None?
  }

  predicate AllTensorsAllocated(g: DynamicGraph) {
    forall v :: v in GraphValues(g) ==> v.accessor.Some?
  }

  predicate ReadyForAllocation(g: DynamicGraph) {
    forall v :: v in GraphValues(g) ==> v.pieceDims.Some?
  }

  /** A memory allocator: the blocks it owns. `elsewhere` are the addresses in use that it
      does not own, which the system never hands out again. */
  class LocalAllocator {
    var ptrs: set<Ptr>
    const elsewhere: set<Ptr>

    constructor (elsewhere: set<Ptr>)
      ensures ptrs == {} && this.elsewhere == elsewhere
    {
      this.elsewhere := elsewhere;
      ptrs := {};
    }

    method Allocate() returns (ptr: Ptr)
      modifies this
      ensures ptr !in old(ptrs) && ptr !in elsewhere && ptrs == old(ptrs) + {ptr}
    {
      UnusedAddress(ptrs + elsewhere);
      ptr :| ptr !in ptrs + elsewhere;
      ptrs := ptrs + {ptr};
    }

    /** Only a pointer that this allocator handed out, and that is still live, can be given back. */
    method Deallocate(ptr: Ptr)
      requires ptr in ptrs
      modifies this
      ensures ptrs == old(ptrs) - {ptr}
    {
      ptrs := ptrs - {ptr};
    }

    method AllocateTensor(dims: seq<nat>) returns (a: Accessor)
      modifies this
      ensures a.WriteAccessor? && a.dims == dims
      ensures a.ptr !in old(ptrs) && a.ptr !in elsewhere && ptrs == old(ptrs) + {a.ptr}
    {
      var ptr := Allocate();
      a := WriteAccessor(ptr, dims);
    }
  }

  lemma UnusedAddress(used: set<Ptr>)
    ensures exists p: Ptr :: p !in used
  {
    var bound := BoundOf(used);
    assert bound !in used;
  }

  ghost function BoundOf(s: set<Ptr>): (b: Ptr)
    ensures forall p :: p in s ==> p < b
  {
    if s == {} then 0 else
      var x :| x in s;
      var b := BoundOf(s - {x});
      assert forall p :: p in s ==> p == x || p in s - {x};
      if x < b then b else x + 1
  }

  method PerformTensorAllocationForValue(value: ValueAttrs, allocator: LocalAllocator) returns (result: ValueAttrs)
    requires value.accessor.None? && value.pieceDims.Some?
    modifies allocator
    ensures result == value.(accessor := result.accessor)
    ensures result.accessor.Some? && result.accessor.value.dims == value.pieceDims.value
    ensures result.accessor.value.WriteAccessor?
    ensures result.accessor.value.ptr !in old(allocator.ptrs) + allocator.elsewhere
    ensures allocator.ptrs == old(allocator.ptrs) + {result.accessor.value.ptr}
  {
    var accessor := allocator.AllocateTensor(value.pieceDims.value);
    result := value.(accessor := Some(accessor));
  }

  /** Each value is mapped to itself with some accessor filled in. */
  ghost predicate GivesAccessors(m: map<ValueAttrs, ValueAttrs>) {
    forall v :: v in m ==> EraseValue(m[v]) == v && m[v].accessor.Some?
  }

  /** What the allocation map promises for the values it covers. `live` are the blocks that
      were in use before. */
  ghost predicate IsAllocation(
      m: map<ValueAttrs, ValueAttrs>, preallocated: map<ValueAttrs, Accessor>, live: set<Ptr>, after: set<Ptr>)
  {
    && GivesAccessors(m)
    && (forall v :: v in m && v in preallocated ==> m[v].accessor == Some(preallocated[v]))
    && (forall v :: v in m && v !in preallocated ==>
          && m[v].accessor.value.WriteAccessor?
          && v.pieceDims == Some(m[v].accessor.value.dims)
          && m[v].accessor.value.ptr in after - live)
    && (forall v, w :: v in m && w in m && v !in preallocated && w !in preallocated && v != w ==>
          m[v].accessor.value.ptr != m[w].accessor.value.ptr)
  }

  function AllocatedInvocation(i: Invocation, m: map<ValueAttrs, ValueAttrs>): Invocation
    requires ValuesOf(i) <= m.Keys
  {
    Invocation(
      map s | s in i.inputs :: m[SlotValue(i.inputs, s)],
      i.node,
      map s | s in i.outputs :: m[SlotValue(i.outputs, s)])
  }

  function AllocationRewriting(g: DynamicGraph, m: map<ValueAttrs, ValueAttrs>): (f: map<Invocation, Invocation>)
    requires GraphValues(g) <= m.Keys
    ensures f.Keys == g && forall i :: i in g ==> ValuesOf(i) <= m.Keys && f[i] == AllocatedInvocation(i, m)
  {
    map i | i in g :: CoversInvocation(g, m, i); AllocatedInvocation(i, m)
  }

  function AllocatedGraph(g: DynamicGraph, m: map<ValueAttrs, ValueAttrs>): DynamicGraph
    requires GraphValues(g) <= m.Keys
  {
    Rewritten(g, AllocationRewriting(g, m))
  }

  lemma CoversInvocation(g: DynamicGraph, m: map<ValueAttrs, ValueAttrs>, i: Invocation)
    requires GraphValues(g) <= m.Keys && i in g
    ensures ValuesOf(i) <= m.Keys
  {
    forall v | v in ValuesOf(i) ensures v in GraphValues(g) {}
  }

  function EraseValue(v: ValueAttrs): ValueAttrs {
    v.(accessor := None)
  }

  /** The invocation with its buffers forgotten. */
  function EraseInvocation(i: Invocation): Invocation {
    Invocation(map s | s in i.inputs :: EraseValue(i.inputs[s]), i.node, map s | s in i.outputs ::
      EraseValue(i.outputs[s]))
  }

  lemma ErasingForgets(i: Invocation)
    ensures EraseInvocation(i).node == i.node
    ensures EraseInvocation(i).inputs.Keys == i.inputs.Keys && EraseInvocation(i).outputs.Keys == i.outputs.Keys
    ensures forall s :: s in i.inputs ==> EraseInvocation(i).inputs[s] == i.inputs[s].(accessor := None)
    ensures forall s :: s in i.outputs ==> EraseInvocation(i).outputs[s] == i.outputs[s].(accessor := None)
  {
  }

  function EraseGraph(g: DynamicGraph): DynamicGraph {
    set i | i in g :: EraseInvocation(i)
  }

  method PerformTensorAllocation(g: DynamicGraph, preallocated: map<ValueAttrs, Accessor>, allocator: LocalAllocator)
    returns (result: DynamicGraph, placed: map<ValueAttrs, ValueAttrs>)
    requires NoTensorsAllocated(g) && ReadyForAllocation(g) && ValidGraph(g)
    requires forall v :: v in preallocated ==> v.accessor.None?
    modifies allocator
    ensures placed.Keys == GraphValues(g)
    ensures IsAllocation(placed, preallocated, old(allocator.ptrs) + allocator.elsewhere, allocator.ptrs)
    ensures old(allocator.ptrs) <= allocator.ptrs
    ensures result == AllocatedGraph(g, placed) && KeepsWiring(g, AllocationRewriting(g, placed))
    ensures EraseGraph(result) == g && AllTensorsAllocated(result) && ValidGraph(result)
  {
    var todo := GraphValues(g);
    placed := map[];
    while todo != {}
      invariant todo <= GraphValues(g) && placed.Keys == GraphValues(g) - todo
      invariant old(allocator.ptrs) <= allocator.ptrs
      invariant IsAllocation(placed, preallocated, old(allocator.ptrs) + allocator.elsewhere, allocator.ptrs)
      decreases todo
    {
      var v :| v in todo;
      placed := PlaceValue(placed, v, preallocated, allocator, old(allocator.ptrs) + allocator.elsewhere);
      todo := todo - {v};
    }
    result := AllocatedGraph(g, placed);
    AllocationKeepsGraph(g, placed);
  }

  /** One value gets its given accessor, or else a new buffer. */
  method PlaceValue(
      placed: map<ValueAttrs, ValueAttrs>, v: ValueAttrs, preallocated: map<ValueAttrs, Accessor>,
      allocator: LocalAllocator,
      ghost live: set<Ptr>)
    returns (placed': map<ValueAttrs, ValueAttrs>)
    requires v !in placed && v.accessor.None? && v.pieceDims.Some? && live <= allocator.ptrs + allocator.elsewhere
    requires IsAllocation(placed, preallocated, live, allocator.ptrs)
    modifies allocator
    ensures placed'.Keys == placed.Keys + {v} && old(allocator.ptrs) <= allocator.ptrs
    ensures IsAllocation(placed', preallocated, live, allocator.ptrs)
  {
    if v in preallocated {
      placed' := placed[v := v.(accessor := Some(preallocated[v]))];
    } else {
      var withBuffer := PerformTensorAllocationForValue(v, allocator);
      placed' := placed[v := withBuffer];
    }
  }

  /** Filling in accessors changes nothing else: forgetting them gives the graph back, and any two
      slots, of whichever invocations and on whichever sides, hold the same value exactly when
      they did before. */
  lemma AllocationKeepsGraph(g: DynamicGraph, m: map<ValueAttrs, ValueAttrs>)
    requires ValidGraph(g) && m.Keys == GraphValues(g) && GivesAccessors(m)
    ensures EraseGraph(AllocatedGraph(g, m)) == g && KeepsWiring(g, AllocationRewriting(g, m))
    ensures AllTensorsAllocated(AllocatedGraph(g, m)) && ValidGraph(AllocatedGraph(g, m))
  {
    ErasingAllocation(g, m);
    EverythingAllocated(g, m);
    AllocationKeepsWiring(g, m, AllocationRewriting(g, m));
    RewritingKeepsValidity(g, AllocationRewriting(g, m));
  }

  lemma ErasingAllocation(g: DynamicGraph, m: map<ValueAttrs, ValueAttrs>)
    requires m.Keys == GraphValues(g) && GivesAccessors(m)
    ensures EraseGraph(AllocatedGraph(g, m)) == g
  {
    var h := AllocatedGraph(g, m);
    forall i | i in g ensures ValuesOf(i) <= m.Keys && EraseInvocation(AllocatedInvocation(i, m)) == i {
      CoversInvocation(g, m, i);
      EraseAllocated(i, m);
    }
    forall i | i in g ensures i in EraseGraph(h) {
      assert AllocatedInvocation(i, m) in h;
      assert EraseInvocation(AllocatedInvocation(i, m)) == i;
    }
    forall i | i in EraseGraph(h) ensures i in g {
      var j :| j in h && EraseInvocation(j) == i;
      var k :| k in g && ValuesOf(k) <= m.Keys && AllocatedInvocation(k, m) == j;
    }
  }

  lemma EverythingAllocated(g: DynamicGraph, m: map<ValueAttrs, ValueAttrs>)
    requires m.Keys == GraphValues(g) && GivesAccessors(m)
    ensures AllTensorsAllocated(AllocatedGraph(g, m))
  {
    forall w | w in GraphValues(AllocatedGraph(g, m)) ensures w.accessor.Some? {
      forall i | i in g ensures ValuesOf(i) <= m.Keys { CoversInvocation(g, m, i); }
      var i :| i in g && w in ValuesOf(AllocatedInvocation(i, m));
      AllocatedValues(i, m, w);
    }
  }

  lemma EraseAllocated(i: Invocation, m: map<ValueAttrs, ValueAttrs>)
    requires ValuesOf(i) <= m.Keys && GivesAccessors(m)
    ensures EraseInvocation(AllocatedInvocation(i, m)) == i
  {
    var e := EraseInvocation(AllocatedInvocation(i, m));
    forall s | s in i.inputs ensures e.inputs[s] == i.inputs[s] {
      assert i.inputs[s] in i.inputs.Values;
    }
    forall s | s in i.outputs ensures e.outputs[s] == i.outputs[s] {
      assert i.outputs[s] in i.outputs.Values;
    }
    assert e.inputs == i.inputs && e.outputs == i.outputs;
  }

  lemma AllocatedValues(i: Invocation, m: map<ValueAttrs, ValueAttrs>, w: ValueAttrs)
    requires ValuesOf(i) <= m.Keys && w in ValuesOf(AllocatedInvocation(i, m))
    ensures exists v :: v in ValuesOf(i) && w == m[v]
  {
    var a := AllocatedInvocation(i, m);
    if w in a.inputs.Values {
      var s :| s in a.inputs && a.inputs[s] == w;
      assert i.inputs[s] in i.inputs.Values;
    } else {
      var s :| s in a.outputs && a.outputs[s] == w;
      assert i.outputs[s] in i.outputs.Values;
    }
  }

  lemma AllocationKeepsWiring(g: DynamicGraph, m: map<ValueAttrs, ValueAttrs>, f: map<Invocation, Invocation>)
    requires m.Keys == GraphValues(g) && GivesAccessors(m)
    requires f.Keys == g && forall i :: i in g ==> ValuesOf(i) <= m.Keys && f[i] == AllocatedInvocation(i, m)
    ensures KeepsWiring(g, f)
  {
    forall i, j | i in g && j in g && f[i] == f[j] ensures i == j {
      EraseAllocated(i, m);
      EraseAllocated(j, m);
    }
    forall i, j | i in g && j in g ensures WiredAlike(i, j, f[i], f[j]) {
      AllocationWiresAlike(i, j, m);
    }
  }

  lemma AllocationWiresAlike(i: Invocation, j: Invocation, m: map<ValueAttrs, ValueAttrs>)
    requires ValuesOf(i) <= m.Keys && ValuesOf(j) <= m.Keys && GivesAccessors(m)
    ensures WiredAlike(i, j, AllocatedInvocation(i, m), AllocatedInvocation(j, m))
  {
    forall s, t | s in i.outputs && t in j.outputs && m[SlotValue(i.outputs, s)] == m[SlotValue(j.outputs, t)]
      ensures i.outputs[s] == j.outputs[t]
    {
      assert EraseValue(m[i.outputs[s]]) == i.outputs[s];
    }
    forall s, t | s in i.outputs && t in j.inputs && m[SlotValue(i.outputs, s)] == m[SlotValue(j.inputs, t)]
      ensures i.outputs[s] == j.inputs[t]
    {
      assert EraseValue(m[i.outputs[s]]) == i.outputs[s];
    }
    forall s, t | s in i.inputs && t in j.inputs && m[SlotValue(i.inputs, s)] == m[SlotValue(j.inputs, t)]
      ensures i.inputs[s] == j.inputs[t]
    {
      assert EraseValue(m[i.inputs[s]]) == i.inputs[s];
    }
  }

  function SlotValue(slots: map<TensorSlot, ValueAttrs>, s: TensorSlot): (v: ValueAttrs)
    requires s in slots
    ensures v in slots.Values
  {
    slots[s]
  }

  /** When the preallocated buffers are distinct and were in use before, no two values of the
      allocated graph share a buffer. */
  lemma AllocatedBuffersAreDisjoint(
      m: map<ValueAttrs, ValueAttrs>, preallocated: map<ValueAttrs, Accessor>, live: set<Ptr>, after: set<Ptr>,
      v: ValueAttrs, w: ValueAttrs)
    requires IsAllocation(m, preallocated, live, after)
    requires forall u :: u in preallocated ==> preallocated[u].ptr in live
    requires forall x, y :: x in preallocated && y in preallocated && x != y ==>
      preallocated[x].ptr != preallocated[y].ptr
    requires v in m && w in m && v != w
    ensures m[v].accessor.value.ptr != m[w].accessor.value.ptr
  {
    if v in preallocated && w !in preallocated {
      assert m[w].accessor.value.ptr in after - live;
    } else if v !in preallocated && w in preallocated {
      assert m[v].accessor.value.ptr in after - live;
    }
  }

  // -------------------------------------------------- per-device operator state

  predicate NoNodesInitialized(g: DynamicGraph) {
    forall i :: i in g ==> i.node.opState.None?
  }

  predicate HasOperator(i: Invocation) {
    i.node.opAttrs.Some? && i.node.opAttrs.value.PcgOp?
  }

  /** `initTask` stands for the operator's init task, which may produce no state. */
  function InitializeNode(i: Invocation, initTask: Invocation -> Option<nat>): Invocation {
    if !HasOperator(i) then i else i.(node := i.node.(opState := initTask(i)))
  }

  function EraseState(i: Invocation): Invocation {
    i.(node := i.node.(opState := None))
  }

  /** Every operator receives the state that its init task returns, and nothing else changes. */
  method PerformPerDeviceOpStateInitialization(g: DynamicGraph, initTask: Invocation -> Option<nat>)
    returns (result: DynamicGraph)
    requires NoNodesInitialized(g) && ValidGraph(g)
    requires forall i :: i in g && HasOperator(i) ==> i.node.opAttrs.value.isComputation
    requires forall i :: i in g && HasOperator(i) ==> AllTensorsAllocated({i})
    ensures (set i | i in result :: EraseState(i)) == g && |result| == |g|
    ensures ValidGraph(result) && (AllTensorsAllocated(g) ==> AllTensorsAllocated(result))
    ensures result == set i | i in g ::
      Invocation(
        i.inputs,
        NodeAttrs(
          i.node.taskType, i.node.opAttrs, i.node.layer,
          if i.node.opAttrs.Some? && i.node.opAttrs.value.PcgOp? then initTask(i) else None),
        i.outputs)
    ensures result == Rewritten(g, InitializationRewriting(g, initTask))
    ensures KeepsWiring(g, InitializationRewriting(g, initTask))
  {
    var todo := g;
    result := {};
    while todo != {}
      invariant todo <= g
      invariant result == set i | i in g - todo :: InitializeNode(i, initTask)
      decreases todo
    {
      var i :| i in todo;
      result := result + {InitializeNode(i, initTask)};
      todo := todo - {i};
    }
    assert g - todo == g;
    assert result == Rewritten(g, InitializationRewriting(g, initTask));
    InitializationKeepsGraph(g, initTask);
    InitializedStates(g, initTask);
  }

  function InitializationRewriting(
      g: DynamicGraph, initTask: Invocation -> Option<nat>): (f: map<Invocation, Invocation>)
    ensures f.Keys == g
  {
    map i | i in g :: InitializeNode(i, initTask)
  }

  /** An operator holds what its init task returns for it; any other node holds no state. */
  lemma InitializedStates(g: DynamicGraph, initTask: Invocation -> Option<nat>)
    requires NoNodesInitialized(g)
    ensures Rewritten(g, InitializationRewriting(g, initTask)) == set i | i in g ::
      Invocation(
        i.inputs,
        NodeAttrs(
          i.node.taskType, i.node.opAttrs, i.node.layer,
          if i.node.opAttrs.Some? && i.node.opAttrs.value.PcgOp? then initTask(i) else None),
        i.outputs)
    ensures forall i :: i in Rewritten(g, InitializationRewriting(g, initTask)) ==>
      i.node.opState == if i.node.opAttrs.Some? && i.node.opAttrs.value.PcgOp?
        then initTask(Invocation(i.inputs, i.node.(opState := None), i.outputs)) else None
  {
    var f := InitializationRewriting(g, initTask);
    forall i | i in g
      ensures f[i] == Invocation(
        i.inputs,
        NodeAttrs(
          i.node.taskType, i.node.opAttrs, i.node.layer,
          if i.node.opAttrs.Some? && i.node.opAttrs.value.PcgOp? then initTask(i) else None),
        i.outputs)
      ensures Invocation(f[i].inputs, f[i].node.(opState := None), f[i].outputs) == i
    {
    }
  }

  lemma InitializationKeepsWiring(g: DynamicGraph, initTask: Invocation -> Option<nat>)
    requires NoNodesInitialized(g)
    ensures KeepsWiring(g, InitializationRewriting(g, initTask))
  {
    var f := InitializationRewriting(g, initTask);
    forall i, j | i in g && j in g && f[i] == f[j] ensures i == j {
      assert EraseState(f[i]) == i && EraseState(f[j]) == j;
    }
  }

  /** Filling in operator states changes nothing else. */
  lemma InitializationKeepsGraph(g: DynamicGraph, initTask: Invocation -> Option<nat>)
    requires NoNodesInitialized(g) && ValidGraph(g)
    ensures KeepsWiring(g, InitializationRewriting(g, initTask))
    ensures var h := Rewritten(g, InitializationRewriting(g, initTask));
      && (set i | i in h :: EraseState(i)) == g && |h| == |g|
      && ValidGraph(h) && (AllTensorsAllocated(g) ==> AllTensorsAllocated(h))
  {
    var f := InitializationRewriting(g, initTask);
    InitializationKeepsWiring(g, initTask);
    RewritingKeepsValidity(g, f);
    ErasingInitialization(g, initTask);
    InitializationKeepsValues(g, initTask);
  }

  lemma ErasingInitialization(g: DynamicGraph, initTask: Invocation -> Option<nat>)
    requires NoNodesInitialized(g)
    ensures (set i | i in Rewritten(g, InitializationRewriting(g, initTask)) :: EraseState(i)) == g
  {
    var f := InitializationRewriting(g, initTask);
    var h := Rewritten(g, f);
    forall i | i in g ensures EraseState(f[i]) == i && i in (set j | j in h :: EraseState(j)) {
      assert f[i] in h;
    }
  }

  lemma InitializationKeepsValues(g: DynamicGraph, initTask: Invocation -> Option<nat>)
    ensures GraphValues(Rewritten(g, InitializationRewriting(g, initTask))) <= GraphValues(g)
  {
    var f := InitializationRewriting(g, initTask);
    forall v | v in GraphValues(Rewritten(g, f)) ensures v in GraphValues(g) {
      var i :| i in g && v in ValuesOf(f[i]);
      assert v in ValuesOf(i);
    }
  }
}
