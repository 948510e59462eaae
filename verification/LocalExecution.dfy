/** The local backend: an instance holds the allocated and initialized graph as one fixed
    execution order, and runs it either all at once or one phase at a time. */
module LocalExecution {
  import opened Sequences
  import opened Digraphs
  import opened Scheduling
  import opened DynamicGraphs
  import opened Options
  import Sums

  // ------------------------------------------------------------ optimizer attributes

  datatype OptimizerAttrs =
    | SGD(lr: real, momentum: real, nesterov: bool, sgdWeightDecay: real)
    | Adam(alpha: real, beta1: real, beta2: real, adamWeightDecay: real,
           alphaT: real, betaT: real, beta2T: real, epsilon: real)

  /** The step size as a function of alpha and the two advanced powers; it involves a square
      root and a division, and is left abstract. */
  type StepSize = (real, real, real) -> real

  function AttrsForNextIter(old_: OptimizerAttrs, stepSize: StepSize): OptimizerAttrs {
    match old_
    case SGD(_, _, _, _) => old_
    case Adam(alpha, beta1, beta2, wd, _, betaT, beta2T, epsilon) =>
      var newBeta1T := betaT * beta1;
      var newBeta2T := beta2T * beta2;
      Adam(alpha, beta1, beta2, wd, stepSize(alpha, newBeta1T, newBeta2T), newBeta1T, newBeta2T, epsilon)
  }

  function AttrsAfter(n: nat, attrs: OptimizerAttrs, stepSize: StepSize): OptimizerAttrs {
    if n == 0 then attrs else AttrsForNextIter(AttrsAfter(n - 1, attrs, stepSize), stepSize)
  }

  /** After n iterations Adam's two running powers have been multiplied by exactly the n-th
      powers of its betas, and its step size is the one for those powers. */
  lemma {:induction false} AdamAfter(n: nat, attrs: OptimizerAttrs, stepSize: StepSize)
    requires attrs.Adam?
    ensures var a := AttrsAfter(n, attrs, stepSize);
      && a.Adam? && a == attrs.(alphaT := a.alphaT, betaT := a.betaT, beta2T := a.beta2T)
      && a.betaT == attrs.betaT * Sums.Power(attrs.beta1, n)
      && a.beta2T == attrs.beta2T * Sums.Power(attrs.beta2, n)
      && (n > 0 ==> a.alphaT == stepSize(attrs.alpha, a.betaT, a.beta2T))
  {
    if n > 0 {
      AdamAfter(n - 1, attrs, stepSize);
    }
  }

  /** SGD's attributes never change. */
  lemma {:induction false} SgdStays(n: nat, attrs: OptimizerAttrs, stepSize: StepSize)
    requires attrs.SGD?
    ensures AttrsAfter(n, attrs, stepSize) == attrs
  {
    if n > 0 {
      SgdStays(n - 1, attrs, stepSize);
    }
  }

  // ------------------------------------------------------------------ footprints

  datatype TaskParameter =
    | ForwardParameter(name: nat)
    | GradientParameter(name: nat)
    | OptimizerParameter(name: nat, optimizerSlot: nat)
    | LossParameter

  function ParameterOf(slot: TensorSlot): TaskParameter
    requires slot.role.Some?
  {
    match slot.role.value
    case FwbTensor(Forward) => ForwardParameter(slot.name)
    case FwbTensor(Gradient) => GradientParameter(slot.name)
    case OptimizerTensor(o) => OptimizerParameter(slot.name, o)
    case LossTensor => LossParameter
  }

  /** The role of a slot decides the kind of parameter it becomes; except for the loss, the name
      stays. */
  lemma ParameterByRole(slot: TensorSlot)
    requires slot.role.Some?
    ensures slot.role == Some(FwbTensor(Forward)) <==> ParameterOf(slot) == ForwardParameter(slot.name)
    ensures slot.role == Some(FwbTensor(Gradient)) <==> ParameterOf(slot) == GradientParameter(slot.name)
    ensures forall o :: slot.role == Some(OptimizerTensor(o)) <==> ParameterOf(slot) == OptimizerParameter(slot.name, o)
    ensures slot.role == Some(LossTensor) <==> ParameterOf(slot) == LossParameter
  {
  }

  /** Every slot has a role and a buffer, and no two slots, on either side, become the same
      parameter. */
  ghost predicate SlotsAreParameters(i: Invocation) {
    && (forall s :: s in i.inputs || s in i.outputs ==> s.role.Some?)
    && (forall s :: s in i.inputs ==> i.inputs[s].accessor.Some?)
    && (forall s :: s in i.outputs ==> i.outputs[s].accessor.Some?)
    && (forall s, t :: s in i.inputs && t in i.inputs && ParameterOf(s) == ParameterOf(t) ==> s == t)
    && (forall s, t :: s in i.outputs && t in i.outputs && ParameterOf(s) == ParameterOf(t) ==> s == t)
    && (forall s, t :: s in i.inputs && t in i.outputs ==> ParameterOf(s) != ParameterOf(t))
  }

  /** Builds the map from parameters to buffers of one side of an invocation; None when a
      slot lacks a role or a buffer or when two slots collide. */
  method ParametersOf(slots: map<TensorSlot, ValueAttrs>) returns (backing: Option<map<TaskParameter, Accessor>>)
    ensures backing.Some? <==>
      && (forall s :: s in slots ==> s.role.Some? && slots[s].accessor.Some?)
      && (forall s, t :: s in slots && t in slots && ParameterOf(s) == ParameterOf(t) ==> s == t)
    ensures backing.Some? ==>
      && Backs(slots, backing.value)
      && (forall p :: p in backing.value ==> exists s :: s in slots && s.role.Some? && ParameterOf(s) == p)
  {
    var todo := slots.Keys;
    var made: map<TaskParameter, Accessor> := map[];
    while todo != {}
      invariant todo <= slots.Keys
      invariant forall s :: s in slots && s !in todo ==> s.role.Some? && slots[s].accessor.Some?
      invariant forall s, t ::
        s in slots && t in slots && s !in todo && t !in todo && ParameterOf(s) == ParameterOf(t) ==> s == t
      invariant forall s :: s in slots && s !in todo ==>
        ParameterOf(s) in made && Some(made[ParameterOf(s)]) == slots[s].accessor
      invariant forall p :: p in made ==> exists s :: s in slots && s !in todo && s.role.Some? && ParameterOf(s) == p
      decreases todo
    {
      var s :| s in todo;
      if s.role.None? || slots[s].accessor.None? || ParameterOf(s) in made {
        return None;
      }
      made := made[ParameterOf(s) := slots[s].accessor.value];
      todo := todo - {s};
    }
    backing := Some(made);
  }

  /** The parameters of one side of an invocation, each with the buffer of its slot. */
  ghost predicate Backs(slots: map<TensorSlot, ValueAttrs>, backing: map<TaskParameter, Accessor>) {
    forall s :: s in slots ==>
      s.role.Some? && ParameterOf(s) in backing && Some(backing[ParameterOf(s)]) == slots[s].accessor
  }

  ghost predicate IsParameterOf(i: Invocation, p: TaskParameter) {
    exists s :: (s in i.inputs || s in i.outputs) && s.role.Some? && ParameterOf(s) == p
  }

  /** The argument accessor of an invocation exists exactly when its slots are parameters,
      and then hands every task parameter the buffer of its slot. */
  method MakeTaskArgumentAccessor(i: Invocation) returns (backing: Option<map<TaskParameter, Accessor>>)
    ensures backing.Some? <==> SlotsAreParameters(i)
    ensures backing.Some? ==> Backs(i.inputs, backing.value) && Backs(i.outputs, backing.value)
    ensures backing.Some? ==> forall p :: p in backing.value ==> IsParameterOf(i, p)
  {
    var ins := ParametersOf(i.inputs);
    var outs := ParametersOf(i.outputs);
    if ins.None? || outs.None? {
      return None;
    }
    if ins.value.Keys * outs.value.Keys != {} {
      ParametersCollide(i, ins.value, outs.value);
      return None;
    }
    ParametersApart(i, ins.value, outs.value);
    backing := Some(ins.value + outs.value);
  }

  lemma ParametersCollide(i: Invocation, ins: map<TaskParameter, Accessor>, outs: map<TaskParameter, Accessor>)
    requires forall p :: p in ins ==> exists s :: s in i.inputs && s.role.Some? && ParameterOf(s) == p
    requires forall p :: p in outs ==> exists s :: s in i.outputs && s.role.Some? && ParameterOf(s) == p
    requires ins.Keys * outs.Keys != {}
    ensures !SlotsAreParameters(i)
  {
    var p :| p in ins.Keys * outs.Keys;
  }

  lemma ParametersApart(i: Invocation, ins: map<TaskParameter, Accessor>, outs: map<TaskParameter, Accessor>)
    requires Backs(i.inputs, ins) && Backs(i.outputs, outs) && ins.Keys * outs.Keys == {}
    ensures forall s, t :: s in i.inputs && t in i.outputs ==> ParameterOf(s) != ParameterOf(t)
    ensures Backs(i.inputs, ins + outs) && Backs(i.outputs, ins + outs)
  {
    forall s, t | s in i.inputs && t in i.outputs ensures ParameterOf(s) != ParameterOf(t) {
      assert ParameterOf(s) !in ins.Keys * outs.Keys;
    }
    forall s | s in i.inputs ensures ParameterOf(s) !in outs {
      assert ParameterOf(s) !in ins.Keys * outs.Keys;
    }
  }

  function BuffersOf(slots: map<TensorSlot, ValueAttrs>): set<Ptr> {
    set s | s in slots && slots[s].accessor.Some? :: slots[s].accessor.value.ptr
  }

  predicate IsUpdate(i: Invocation) {
    i.node.taskType == Some(UPD)
  }

  /** The slots that a task may write although they are among its inputs. */
  type InPlace = Invocation -> set<TensorSlot>

  predicate Overwrites(inPlace: InPlace, i: Invocation, s: TensorSlot) {
    s in i.inputs && s in inPlace(i)
  }

  /** An update task writes, in place, the weight and the optimizer's buffers. */
  predicate UpdatedSlot(s: TensorSlot) {
    s.role.Some? && (s.role.value == FwbTensor(Forward) || s.role.value.OptimizerTensor?)
  }

  function UpdatedInPlace(i: Invocation): set<TensorSlot> {
    if IsUpdate(i) then set s | s in i.inputs && UpdatedSlot(s) else {}
  }

  function MayRead(i: Invocation): set<Ptr> {
    BuffersOf(i.inputs) + BuffersOf(i.outputs)
  }

  function BuffersInPlace(inPlace: InPlace, i: Invocation): set<Ptr> {
    set s | s in i.inputs && Overwrites(inPlace, i, s) && i.inputs[s].accessor.Some? :: i.inputs[s].accessor.value.ptr
  }

  /** A task may write its outputs, and the inputs that it overwrites. */
  function MayWrite(inPlace: InPlace): Invocation -> set<Ptr> {
    (i: Invocation) => BuffersOf(i.outputs) + BuffersInPlace(inPlace, i)
  }

  type TaskBody = (Invocation, OptimizerAttrs, Store) -> Store

  /** The implementations of all tasks: which inputs they overwrite, and what they compute. */
  datatype TaskImpls = TaskImpls(inPlace: InPlace, body: TaskBody)

  function TasksOf(impls: TaskImpls): Tasks<Invocation, OptimizerAttrs> {
    Tasks(MayRead, MayWrite(impls.inPlace), impls.body)
  }

  // ------------------------------------------------ when the order does not matter

  ghost predicate BuffersDistinct(g: DynamicGraph) {
    forall v, w ::
      v in GraphValues(g) && w in GraphValues(g) && v.accessor.Some? && w.accessor.Some? && v != w
      ==> v.accessor.value.ptr != w.accessor.value.ptr
  }

  ghost predicate WritesSomething(inPlace: InPlace, i: Invocation) {
    i.outputs != map[] || exists s :: Overwrites(inPlace, i, s)
  }

  ghost predicate Ordered(g: DynamicGraph, a: Invocation, b: Invocation) {
    Reaches(DataflowGraph(g), a, b) || Reaches(DataflowGraph(g), b, a)
  }

  /** The graph orders every task that overwrites a value with every other user of that value
      that writes anything. */
  ghost predicate OverwritesOrdered(g: DynamicGraph, inPlace: InPlace) {
    forall u, s, i ::
      u in g && Overwrites(inPlace, u, s) && i in g && i != u && u.inputs[s] in ValuesOf(i) &&
        WritesSomething(inPlace, i)
      ==> Ordered(g, u, i)
  }

  /** Every other user of a value that a task overwrites comes before that task. */
  ghost predicate OverwritesComeLast(g: DynamicGraph, inPlace: InPlace) {
    forall u, s, i :: u in g && Overwrites(inPlace, u, s) && i in g && i != u && u.inputs[s] in ValuesOf(i)
      ==> Reaches(DataflowGraph(g), i, u)
  }

  lemma BufferHasValue(slots: map<TensorSlot, ValueAttrs>, p: Ptr) returns (v: ValueAttrs)
    requires p in BuffersOf(slots)
    ensures v in slots.Values && v.accessor.Some? && v.accessor.value.ptr == p
  {
    var s :| s in slots && slots[s].accessor.Some? && slots[s].accessor.value.ptr == p;
    v := slots[s];
  }

  lemma UsedBuffer(i: Invocation, p: Ptr) returns (v: ValueAttrs)
    requires p in MayRead(i)
    ensures v in ValuesOf(i) && v.accessor.Some? && v.accessor.value.ptr == p
  {
    if p in BuffersOf(i.inputs) {
      v := BufferHasValue(i.inputs, p);
    } else {
      v := BufferHasValue(i.outputs, p);
    }
  }

  lemma OverwrittenValue(g: DynamicGraph, inPlace: InPlace, u: Invocation, p: Ptr) returns (s: TensorSlot)
    requires u in g && p in BuffersInPlace(inPlace, u)
    ensures Overwrites(inPlace, u, s) && u.inputs[s] in GraphValues(g)
    ensures u.inputs[s].accessor.Some? && u.inputs[s].accessor.value.ptr == p
  {
    s :| s in u.inputs && Overwrites(inPlace, u, s) && u.inputs[s].accessor.Some? &&
      u.inputs[s].accessor.value.ptr == p;
    assert u.inputs[s] in ValuesOf(u);
  }

  /** A task that writes a buffer of another task overwrites the other's value in place, or feeds
      it. */
  lemma WriterOf(g: DynamicGraph, inPlace: InPlace, a: Invocation, v: ValueAttrs, b: Invocation)
    requires ValidGraph(g) && BuffersDistinct(g) && a in g && b in g && a != b
    requires v in ValuesOf(b) && v.accessor.Some? && v.accessor.value.ptr in MayWrite(inPlace)(a)
    ensures (exists s :: Overwrites(inPlace, a, s) && a.inputs[s] == v) || Reaches(DataflowGraph(g), a, b)
  {
    var p := v.accessor.value.ptr;
    assert v in GraphValues(g);
    if p in BuffersInPlace(inPlace, a) {
      var s := OverwrittenValue(g, inPlace, a, p);
      assert a.inputs[s] == v;
    } else {
      var w := BufferHasValue(a.outputs, p);
      assert w in ValuesOf(a) && w in GraphValues(g) && w == v;
      if v in b.outputs.Values {
        SoleProducer(g, a, b, v);
        assert false;
      }
      assert v in a.outputs.Values * b.inputs.Values;
      EdgeReaches(DataflowGraph(g), a, b);
    }
  }

  lemma SharedBufferOrders(g: DynamicGraph, inPlace: InPlace, a: Invocation, b: Invocation, p: Ptr)
    requires ValidGraph(g) && BuffersDistinct(g) && OverwritesOrdered(g, inPlace)
    requires a in g && b in g && a != b && p in MayWrite(inPlace)(a) && p in MayRead(b) && MayWrite(inPlace)(b) != {}
    ensures Ordered(g, a, b)
  {
    var v := UsedBuffer(b, p);
    WriterOf(g, inPlace, a, v, b);
    WriterWrites(inPlace, b);
    if s :| Overwrites(inPlace, a, s) && a.inputs[s] == v {
      assert Ordered(g, a, b);
    }
  }

  lemma WriterWrites(inPlace: InPlace, i: Invocation)
    requires MayWrite(inPlace)(i) != {}
    ensures WritesSomething(inPlace, i)
  {
    var p :| p in MayWrite(inPlace)(i);
    if p in BuffersOf(i.outputs) {
      var v := BufferHasValue(i.outputs, p);
    }
  }

  lemma MayWriteWithinMayRead(inPlace: InPlace, i: Invocation)
    ensures MayWrite(inPlace)(i) <= MayRead(i)
  {
  }

  /** In a valid graph whose values have buffers of their own, dataflow orders every pair of
      interfering tasks, provided it orders the tasks that overwrite a value with its other users. */
  lemma ValidGraphOrdersConflicts(g: DynamicGraph, impls: TaskImpls)
    requires ValidGraph(g) && BuffersDistinct(g) && OverwritesOrdered(g, impls.inPlace)
    ensures ConflictsOrdered(DataflowGraph(g), TasksOf(impls))
  {
    forall a, b | a in g && b in g && a != b && Interferes(TasksOf(impls), a, b)
      ensures Reaches(DataflowGraph(g), a, b) || Reaches(DataflowGraph(g), b, a)
    {
      InterferingAreOrdered(g, impls, a, b);
    }
  }

  lemma InterferingAreOrdered(g: DynamicGraph, impls: TaskImpls, a: Invocation, b: Invocation)
    requires ValidGraph(g) && BuffersDistinct(g) && OverwritesOrdered(g, impls.inPlace)
    requires a in g && b in g && a != b && Interferes(TasksOf(impls), a, b)
    ensures Ordered(g, a, b)
  {
    var t := TasksOf(impls);
    MayWriteWithinMayRead(impls.inPlace, a);
    MayWriteWithinMayRead(impls.inPlace, b);
    if t.mayWrite(a) * t.mayWrite(b) != {} {
      var p :| p in t.mayWrite(a) * t.mayWrite(b);
      SharedBufferOrders(g, impls.inPlace, a, b, p);
    } else if t.mayWrite(a) * t.mayRead(b) != {} && t.mayWrite(b) != {} {
      var p :| p in t.mayWrite(a) * t.mayRead(b);
      SharedBufferOrders(g, impls.inPlace, a, b, p);
    } else {
      var p :| p in t.mayWrite(b) * t.mayRead(a);
      SharedBufferOrders(g, impls.inPlace, b, a, p);
    }
  }

  lemma UsersInterfere(g: DynamicGraph, impls: TaskImpls, u: Invocation, s: TensorSlot, i: Invocation)
    requires AllTensorsAllocated(g) && u in g && i in g && Overwrites(impls.inPlace, u, s)
    requires u.inputs[s] in ValuesOf(i) && WritesSomething(impls.inPlace, i)
    ensures Interferes(TasksOf(impls), u, i)
  {
    assert u.inputs[s] in ValuesOf(u) && u.inputs[s] in GraphValues(g);
    var p := u.inputs[s].accessor.value.ptr;
    assert p in MayWrite(impls.inPlace)(u);
    ReadsItsValues(i, u.inputs[s]);
    SomethingIsWritten(g, impls.inPlace, i);
    assert p in TasksOf(impls).mayWrite(u) * TasksOf(impls).mayRead(i);
  }

  lemma ReadsItsValues(i: Invocation, v: ValueAttrs)
    requires v in ValuesOf(i) && v.accessor.Some?
    ensures v.accessor.value.ptr in MayRead(i)
  {
    if v in i.inputs.Values {
      var t :| t in i.inputs && i.inputs[t] == v;
    } else {
      var t :| t in i.outputs && i.outputs[t] == v;
    }
  }

  lemma SomethingIsWritten(g: DynamicGraph, inPlace: InPlace, i: Invocation)
    requires AllTensorsAllocated(g) && i in g && WritesSomething(inPlace, i)
    ensures MayWrite(inPlace)(i) != {}
  {
    if t :| t in i.outputs {
      assert i.outputs[t] in ValuesOf(i) && i.outputs[t] in GraphValues(g);
      assert i.outputs[t].accessor.value.ptr in MayWrite(inPlace)(i);
    } else {
      assert i.outputs == map[];
      var t :| Overwrites(inPlace, i, t);
      assert i.inputs[t] in ValuesOf(i) && i.inputs[t] in GraphValues(g);
      assert i.inputs[t].accessor.value.ptr in MayWrite(inPlace)(i);
    }
  }

  /** Conversely, where every value has a buffer, overwriting a value interferes with its other
      users. So the choice of order is invisible exactly when the graph orders every task that
      overwrites a value with the value's other users that write anything. */
  lemma OrderIsImmaterialExactly(g: DynamicGraph, inPlace: InPlace, attrs: OptimizerAttrs)
    requires ValidGraph(g) && BuffersDistinct(g) && AllTensorsAllocated(g)
    ensures OverwritesOrdered(g, inPlace)
      <==> forall body: TaskBody, st, o1, o2 ::
        IsTopologicalOrdering(DataflowGraph(g), o1) && IsTopologicalOrdering(DataflowGraph(g), o2) ==>
        (RunAll(Tasks(MayRead, MayWrite(inPlace), body), attrs, o1, st)
        == RunAll(Tasks(MayRead, MayWrite(inPlace), body), attrs, o2, st))
  {
    var idle := TaskImpls(inPlace, (i: Invocation, a: OptimizerAttrs, s: Store) => s);
    OverwritesOrderedExactly(g, idle);
    DataflowGraphIsWellFormed(g);
    OrderIndependenceExactly(DataflowGraph(g), MayRead, MayWrite(inPlace), attrs);
    SameConflicts(DataflowGraph(g), TasksOf(idle), Tasks(MayRead, MayWrite(inPlace), (i, a, s) => s));
  }

  lemma OverwritesOrderedExactly(g: DynamicGraph, impls: TaskImpls)
    requires ValidGraph(g) && BuffersDistinct(g) && AllTensorsAllocated(g)
    ensures OverwritesOrdered(g, impls.inPlace) <==> ConflictsOrdered(DataflowGraph(g), TasksOf(impls))
  {
    if OverwritesOrdered(g, impls.inPlace) {
      ValidGraphOrdersConflicts(g, impls);
    }
    if ConflictsOrdered(DataflowGraph(g), TasksOf(impls)) {
      forall u, s, i | u in g && Overwrites(impls.inPlace, u, s) && i in g && i != u && u.inputs[s] in ValuesOf(i)
        && WritesSomething(impls.inPlace, i)
        ensures Ordered(g, u, i)
      {
        UsersInterfere(g, impls, u, s, i);
      }
    }
  }

  lemma SameConflicts(
      d: Digraph<Invocation>, t: Tasks<Invocation, OptimizerAttrs>, t': Tasks<Invocation, OptimizerAttrs>)
    requires t.mayRead == t'.mayRead && t.mayWrite == t'.mayWrite
    ensures ConflictsOrdered(d, t) <==> ConflictsOrdered(d, t')
  {
    assert forall a, b :: Interferes(t, a, b) <==> Interferes(t', a, b);
  }

  /** Any two topological orderings of such a graph train identically. */
  lemma ExecutionOrderIsImmaterial(
      g: DynamicGraph, impls: TaskImpls, attrs: OptimizerAttrs, o1: seq<Invocation>, o2: seq<Invocation>, st: Store)
    requires ValidGraph(g) && BuffersDistinct(g) && OverwritesOrdered(g, impls.inPlace)
    requires IsTopologicalOrdering(DataflowGraph(g), o1) && IsTopologicalOrdering(DataflowGraph(g), o2)
    ensures RunAll(TasksOf(impls), attrs, o1, st) == RunAll(TasksOf(impls), attrs, o2, st)
  {
    ValidGraphOrdersConflicts(g, impls);
    OrderedConflictsAgree(DataflowGraph(g), TasksOf(impls), attrs, o1, o2, st);
  }

  /** Some task from position k on overwrites the value. */
  ghost predicate OverwrittenFrom(inPlace: InPlace, order: seq<Invocation>, k: nat, v: ValueAttrs) {
    exists j, r :: k <= j < |order| && Overwrites(inPlace, order[j], r) && order[j].inputs[r] == v
  }

  /** Only tasks that overwrite it write an input's buffer once the reader's turn has come. */
  lemma LaterWriterOverwrites(
      g: DynamicGraph, inPlace: InPlace, order: seq<Invocation>, k: nat, s: TensorSlot, j: nat)
    requires ValidGraph(g) && BuffersDistinct(g) && IsTopologicalOrdering(DataflowGraph(g), order) && k <= j < |order|
    requires s in order[k].inputs && order[k].inputs[s].accessor.Some?
    requires order[k].inputs[s].accessor.value.ptr in MayWrite(inPlace)(order[j])
    ensures OverwrittenFrom(inPlace, order, k, order[k].inputs[s])
  {
    var reader, v, w := order[k], order[k].inputs[s], order[j];
    assert reader in order && w in order && v in reader.inputs.Values;
    if k == j {
      OwnWriterOverwrites(g, inPlace, reader, v);
    } else {
      WriterOf(g, inPlace, w, v, reader);
      if Reaches(DataflowGraph(g), w, reader) {
        ReachesFollowsOrder(DataflowGraph(g), order, w, reader);
        assert false;
      }
    }
  }

  /** No task of a valid graph has a value among its inputs and its outputs. */
  lemma OwnWriterOverwrites(g: DynamicGraph, inPlace: InPlace, i: Invocation, v: ValueAttrs)
    requires ValidGraph(g) && BuffersDistinct(g) && i in g && v in i.inputs.Values && v.accessor.Some?
    requires v.accessor.value.ptr in MayWrite(inPlace)(i)
    ensures exists r :: Overwrites(inPlace, i, r) && i.inputs[r] == v
  {
    var p := v.accessor.value.ptr;
    assert v in ValuesOf(i) && v in GraphValues(g);
    if p in BuffersInPlace(inPlace, i) {
      var r := OverwrittenValue(g, inPlace, i, p);
      assert i.inputs[r] == v;
    } else {
      var w := BufferHasValue(i.outputs, p);
      assert w in ValuesOf(i) && w in GraphValues(g);
      assert w in i.outputs.Values * i.inputs.Values;
      EdgeReaches(DataflowGraph(g), i, i);
      assert false;
    }
  }

  lemma OverwritingWrites(inPlace: InPlace, u: Invocation, r: TensorSlot)
    requires Overwrites(inPlace, u, r) && u.inputs[r].accessor.Some?
    ensures u.inputs[r].accessor.value.ptr in MayWrite(inPlace)(u)
  {
  }

  /** An input is final when it is read, whatever the tasks compute and whatever store they start
      from, exactly when no task from the reader on overwrites its value. */
  lemma InputsAreFinalWhenRead(
      g: DynamicGraph, inPlace: InPlace, attrs: OptimizerAttrs, order: seq<Invocation>, k: nat, s: TensorSlot)
    requires ValidGraph(g) && BuffersDistinct(g) && IsTopologicalOrdering(DataflowGraph(g), order) && k < |order|
    requires s in order[k].inputs && order[k].inputs[s].accessor.Some?
    ensures !OverwrittenFrom(inPlace, order, k, order[k].inputs[s])
      <==> forall body: TaskBody, st ::
        FinalAt(Tasks(MayRead, MayWrite(inPlace), body), attrs, order, k, order[k].inputs[s].accessor.value.ptr, st)
  {
    var v := order[k].inputs[s];
    var p := v.accessor.value.ptr;
    if j :| k <= j < |order| && p in MayWrite(inPlace)(order[j]) {
      LaterWriterOverwrites(g, inPlace, order, k, s, j);
    }
    if OverwrittenFrom(inPlace, order, k, v) {
      var j, r :| k <= j < |order| && Overwrites(inPlace, order[j], r) && order[j].inputs[r] == v;
      OverwritingWrites(inPlace, order[j], r);
    }
    FinalExactly(MayRead, MayWrite(inPlace), attrs, order, k, p);
  }

  /** When overwriting comes last, that is: exactly the values that no task of the graph
      overwrites are final when they are read. The trained weights are not. */
  lemma OverwrittenInputsAreNotFinal(
      g: DynamicGraph, inPlace: InPlace, attrs: OptimizerAttrs, order: seq<Invocation>, k: nat, s: TensorSlot)
    requires ValidGraph(g) && BuffersDistinct(g) && OverwritesComeLast(g, inPlace)
    requires IsTopologicalOrdering(DataflowGraph(g), order) && k < |order|
    requires s in order[k].inputs && order[k].inputs[s].accessor.Some?
    ensures (forall u, r :: u in g && Overwrites(inPlace, u, r) ==> u.inputs[r] != order[k].inputs[s])
      <==> forall body: TaskBody, st ::
        FinalAt(Tasks(MayRead, MayWrite(inPlace), body), attrs, order, k, order[k].inputs[s].accessor.value.ptr, st)
  {
    InputsAreFinalWhenRead(g, inPlace, attrs, order, k, s);
    OverwrittenFromExactly(g, inPlace, order, k, s);
  }

  lemma OverwrittenFromExactly(g: DynamicGraph, inPlace: InPlace, order: seq<Invocation>, k: nat, s: TensorSlot)
    requires OverwritesComeLast(g, inPlace) && IsTopologicalOrdering(DataflowGraph(g), order)
    requires k < |order| && s in order[k].inputs
    ensures OverwrittenFrom(inPlace, order, k, order[k].inputs[s])
      <==> exists u, r :: u in g && Overwrites(inPlace, u, r) && u.inputs[r] == order[k].inputs[s]
  {
    var reader, v := order[k], order[k].inputs[s];
    assert reader in order && reader in g && v in ValuesOf(reader);
    if u, r :| u in g && Overwrites(inPlace, u, r) && u.inputs[r] == v {
      var j :| 0 <= j < |order| && order[j] == u;
      if u != reader {
        ReachesFollowsOrder(DataflowGraph(g), order, reader, u);
      }
      assert k <= j && OverwrittenFrom(inPlace, order, k, v);
    }
    if OverwrittenFrom(inPlace, order, k, v) {
      var j, r :| k <= j < |order| && Overwrites(inPlace, order[j], r) && order[j].inputs[r] == v;
      assert order[j] in order && order[j] in g;
    }
  }

  // -------------------------------------------------------- one phase at a time

  function TypeIs(tt: TaskType): Invocation -> bool {
    (i: Invocation) => i.node.taskType == Some(tt)
  }

  function NotLoss(): Invocation -> bool {
    (i: Invocation) => i.node.taskType != Some(LOSS)
  }

  function OfType(order: seq<Invocation>, tt: TaskType): seq<Invocation> {
    Filter(order, TypeIs(tt))
  }

  function WithoutLoss(order: seq<Invocation>): seq<Invocation> {
    Filter(order, NotLoss())
  }

  /** What the forward, backward and update passes run, one after the other. */
  function SplitOrder(order: seq<Invocation>): seq<Invocation> {
    OfType(order, FWD) + OfType(order, BWD) + OfType(order, UPD)
  }

  function PhaseRank(i: Invocation): int {
    match i.node.taskType
    case Some(FWD) => 0
    case Some(LOSS) => 1
    case Some(BWD) => 2
    case Some(UPD) => 3
    case None => 4
  }

  /** No dependency leads from a later phase back to an earlier one. */
  ghost predicate PhasesForward(g: DynamicGraph) {
    forall a, b :: a in g && b in g && Feeds(a, b) ==> PhaseRank(a) <= PhaseRank(b)
  }

  lemma {:induction false} PhaseRankAlongWalk(g: DynamicGraph, w: seq<Invocation>)
    requires PhasesForward(g) && |w| >= 2 && IsWalk(DataflowGraph(g), w)
    ensures PhaseRank(w[0]) <= PhaseRank(w[|w| - 1])
  {
    assert (w[0], w[1]) in DataflowGraph(g).edges;
    if |w| > 2 {
      assert IsWalk(DataflowGraph(g), w[1..]);
      PhaseRankAlongWalk(g, w[1..]);
    }
  }

  lemma SplitOrderContents(order: seq<Invocation>)
    requires NoDuplicates(order) && forall i :: i in order ==> i.node.taskType.Some?
    ensures NoDuplicates(SplitOrder(order)) && NoDuplicates(WithoutLoss(order))
    ensures forall i :: i in SplitOrder(order) <==> i in WithoutLoss(order)
  {
    var fwd, bwd, upd := OfType(order, FWD), OfType(order, BWD), OfType(order, UPD);
    FilterNoDuplicates(order, TypeIs(FWD));
    FilterNoDuplicates(order, TypeIs(BWD));
    FilterNoDuplicates(order, TypeIs(UPD));
    FilterNoDuplicates(order, NotLoss());
    AppendNoDuplicates(fwd, bwd);
    AppendNoDuplicates(fwd + bwd, upd);
    forall i | i in WithoutLoss(order) ensures i in SplitOrder(order) {
      assert i in order && NotLoss()(i);
      match i.node.taskType.value
      case FWD => assert TypeIs(FWD)(i);
      case BWD => assert TypeIs(BWD)(i);
      case UPD => assert TypeIs(UPD)(i);
    }
  }

  lemma SplitOrderKeepsPhases(order: seq<Invocation>, a: Invocation, b: Invocation)
    requires Before(order, a, b) && PhaseRank(a) <= PhaseRank(b)
    requires a.node.taskType.Some? && b.node.taskType.Some? && NotLoss()(a) && NotLoss()(b)
    ensures Before(SplitOrder(order), a, b)
  {
    var fwd, bwd, upd := OfType(order, FWD), OfType(order, BWD), OfType(order, UPD);
    assert a in order && b in order;
    if TypeIs(FWD)(a) && TypeIs(FWD)(b) {
      FilterKeepsOrder(order, TypeIs(FWD), a, b);
      BeforeWithin([], fwd, bwd + upd, a, b);
      assert [] + fwd + (bwd + upd) == SplitOrder(order);
    } else if TypeIs(FWD)(a) {
      BeforeAcross(fwd, bwd + upd, a, b);
      assert fwd + (bwd + upd) == SplitOrder(order);
    } else if TypeIs(BWD)(b) {
      FilterKeepsOrder(order, TypeIs(BWD), a, b);
      BeforeWithin(fwd, bwd, upd, a, b);
    } else if TypeIs(BWD)(a) {
      BeforeAcross(fwd + bwd, upd, a, b);
    } else {
      FilterKeepsOrder(order, TypeIs(UPD), a, b);
      BeforeWithin(fwd + bwd, upd, [], a, b);
      assert fwd + bwd + upd + [] == SplitOrder(order);
    }
  }

  /** Running the phases one after the other is the same as running, in the combined order,
      everything but the LOSS tasks. */
  lemma SplitRunsAllButLoss(
      g: DynamicGraph, t: Tasks<Invocation, OptimizerAttrs>, attrs: OptimizerAttrs, order: seq<Invocation>, st: Store)
    requires IsTopologicalOrdering(DataflowGraph(g), order) && forall i :: i in order ==> i.node.taskType.Some?
    requires ConflictsOrdered(DataflowGraph(g), t) && PhasesForward(g)
    ensures RunAll(t, attrs, SplitOrder(order), st) == RunAll(t, attrs, WithoutLoss(order), st)
  {
    SplitOrderContents(order);
    forall a, b | Before(WithoutLoss(order), a, b) && Interferes(t, a, b) ensures Before(SplitOrder(order), a, b) {
      assert a in WithoutLoss(order) && b in WithoutLoss(order);
      BeforeInFilter(order, NotLoss(), a, b);
      ConflictKeepsOrder(g, t, order, order, a, b);
      var w :| WalkBetween(DataflowGraph(g), w, a, b);
      PhaseRankAlongWalk(g, w);
      SplitOrderKeepsPhases(order, a, b);
    }
    SameRuns(t, attrs, WithoutLoss(order), SplitOrder(order), st);
  }

  /** Leaving out the same tasks of two topological orderings leaves runs that agree. */
  lemma FilteredOrdersAgree(
      g: DynamicGraph, t: Tasks<Invocation, OptimizerAttrs>, attrs: OptimizerAttrs, keep: Invocation -> bool,
      o1: seq<Invocation>, o2: seq<Invocation>, st: Store)
    requires IsTopologicalOrdering(DataflowGraph(g), o1) && IsTopologicalOrdering(DataflowGraph(g), o2)
    requires ConflictsOrdered(DataflowGraph(g), t)
    ensures RunAll(t, attrs, Filter(o1, keep), st) == RunAll(t, attrs, Filter(o2, keep), st)
  {
    FilterNoDuplicates(o1, keep);
    FilterNoDuplicates(o2, keep);
    forall a, b | Before(Filter(o1, keep), a, b) && Interferes(t, a, b) ensures Before(Filter(o2, keep), a, b) {
      assert a in Filter(o1, keep) && b in Filter(o1, keep);
      BeforeInFilter(o1, keep, a, b);
      ConflictKeepsOrder(g, t, o1, o2, a, b);
      FilterKeepsOrder(o2, keep, a, b);
    }
    SameRuns(t, attrs, Filter(o1, keep), Filter(o2, keep), st);
  }

  lemma ConflictKeepsOrder(
      g: DynamicGraph, t: Tasks<Invocation, OptimizerAttrs>, o1: seq<Invocation>, o2: seq<Invocation>,
      a: Invocation, b: Invocation)
    requires IsTopologicalOrdering(DataflowGraph(g), o1) && IsTopologicalOrdering(DataflowGraph(g), o2)
    requires ConflictsOrdered(DataflowGraph(g), t) && Before(o1, a, b) && Interferes(t, a, b)
    ensures Before(o2, a, b) && Reaches(DataflowGraph(g), a, b)
  {
    assert a in o1 && b in o1;
    if a == b || Reaches(DataflowGraph(g), b, a) {
      if a != b { ReachesFollowsOrder(DataflowGraph(g), o1, b, a); }
      BeforeAsymmetric(o1, a, b);
    } else {
      ReachesFollowsOrder(DataflowGraph(g), o2, a, b);
    }
  }

  lemma BeforeInFilter<I(!new)>(s: seq<I>, keep: I -> bool, a: I, b: I)
    requires NoDuplicates(s) && Before(Filter(s, keep), a, b)
    ensures Before(s, a, b)
  {
    var f := Filter(s, keep);
    FilterNoDuplicates(s, keep);
    assert a in f && b in f;
    var i :| 0 <= i < |s| && s[i] == a;
    var j :| 0 <= j < |s| && s[j] == b;
    if j < i {
      assert Before(s, b, a);
      FilterKeepsOrder(s, keep, b, a);
      BeforeAsymmetric(f, a, b);
    }
  }

  /** With no LOSS task the phases, run one after the other, do exactly what one combined
      run does. */
  lemma SplitIsCombined(
      g: DynamicGraph, t: Tasks<Invocation, OptimizerAttrs>, attrs: OptimizerAttrs, order: seq<Invocation>, st: Store)
    requires IsTopologicalOrdering(DataflowGraph(g), order) && forall i :: i in order ==> i.node.taskType.Some?
    requires ConflictsOrdered(DataflowGraph(g), t) && PhasesForward(g)
    requires forall i :: i in order && TypeIs(LOSS)(i) ==> t.mayWrite(i) == {}
    ensures RunAll(t, attrs, SplitOrder(order), st) == RunAll(t, attrs, order, st)
  {
    SplitRunsAllButLoss(g, t, attrs, order, st);
    WritelessLossIsIdle(t, attrs, order, st);
  }

  lemma {:induction false} WritelessLossIsIdle(
      t: Tasks<Invocation, OptimizerAttrs>, attrs: OptimizerAttrs, order: seq<Invocation>, st: Store)
    requires forall i :: i in order && TypeIs(LOSS)(i) ==> t.mayWrite(i) == {}
    ensures RunAll(t, attrs, WithoutLoss(order), st) == RunAll(t, attrs, order, st)
  {
    if order != [] {
      var rest := order[1..];
      assert order[0] in order && forall i :: i in rest ==> i in order;
      WritelessLossIsIdle(t, attrs, rest, RunTask(t, attrs, order[0], st));
      FirstRunsOrIdles(t, attrs, order, st);
    }
  }

  lemma FirstRunsOrIdles(t: Tasks<Invocation, OptimizerAttrs>, attrs: OptimizerAttrs, order: seq<Invocation>, st: Store)
    requires order != [] && (TypeIs(LOSS)(order[0]) ==> t.mayWrite(order[0]) == {})
    ensures RunAll(t, attrs, WithoutLoss(order), st)
         == RunAll(t, attrs, WithoutLoss(order[1..]), RunTask(t, attrs, order[0], st))
  {
    FirstWithoutLoss(order);
    if TypeIs(LOSS)(order[0]) {
      assert RunTask(t, attrs, order[0], st) == st;
      assert WithoutLoss(order) == WithoutLoss(order[1..]);
    } else {
      assert WithoutLoss(order)[1..] == WithoutLoss(order[1..]);
    }
  }

  lemma FirstWithoutLoss(order: seq<Invocation>)
    requires order != []
    ensures WithoutLoss(order) == (if TypeIs(LOSS)(order[0]) then [] else [order[0]]) + WithoutLoss(order[1..])
  {
  }

  /** Whatever a LOSS task may write, some task bodies show that only the combined run ran it. */
  lemma LossIsVisible(
      mayRead: Invocation -> set<Ptr>, mayWrite: Invocation -> set<Ptr>, attrs: OptimizerAttrs, order: seq<Invocation>,
      loss: Invocation) returns (body: TaskBody, st: Store)
    requires NoDuplicates(order) && loss in order && TypeIs(LOSS)(loss) && mayWrite(loss) != {}
    ensures RunAll(Tasks(mayRead, mayWrite, body), attrs, SplitOrder(order), st)
         != RunAll(Tasks(mayRead, mayWrite, body), attrs, order, st)
  {
    var p :| p in mayWrite(loss);
    st := map[];
    body := (i: Invocation, a: OptimizerAttrs, s: Store) => if i == loss then map[p := [1.0]] else map[];
    var t := Tasks(mayRead, mayWrite, body);
    assert loss !in SplitOrder(order);
    IdleRun(t, attrs, SplitOrder(order), st);
    var before, after := AroundOne(order, loss);
    RunOfOne(t, attrs, before, loss, after, st);
    assert RunTask(t, attrs, loss, st)[p] == [1.0];
  }

  lemma AroundOne<I(!new)>(order: seq<I>, x: I) returns (before: seq<I>, after: seq<I>)
    requires NoDuplicates(order) && x in order
    ensures order == before + [x] + after && x !in before && x !in after
  {
    var k :| 0 <= k < |order| && order[k] == x;
    before, after := order[..k], order[k + 1..];
  }

  /** The three passes and the combined run agree, whatever the tasks compute and whatever
      store they start from, exactly when no LOSS task may write anything: the three passes
      never run the LOSS tasks. */
  lemma SplitIsCombinedExactly(
      g: DynamicGraph, mayRead: Invocation -> set<Ptr>, mayWrite: Invocation -> set<Ptr>, any: TaskBody,
      attrs: OptimizerAttrs, order: seq<Invocation>)
    requires IsTopologicalOrdering(DataflowGraph(g), order) && forall i :: i in order ==> i.node.taskType.Some?
    requires ConflictsOrdered(DataflowGraph(g), Tasks(mayRead, mayWrite, any)) && PhasesForward(g)
    ensures (forall i :: i in order && TypeIs(LOSS)(i) ==> mayWrite(i) == {})
      <==> forall body: TaskBody, st ::
        RunAll(Tasks(mayRead, mayWrite, body), attrs, SplitOrder(order), st)
        == RunAll(Tasks(mayRead, mayWrite, body), attrs, order, st)
  {
    if forall i :: i in order && TypeIs(LOSS)(i) ==> mayWrite(i) == {} {
      forall body: TaskBody, st
        ensures RunAll(Tasks(mayRead, mayWrite, body), attrs, SplitOrder(order), st)
             == RunAll(Tasks(mayRead, mayWrite, body), attrs, order, st)
      {
        var t := Tasks(mayRead, mayWrite, body);
        assert forall a, b :: Interferes(t, a, b) <==> Interferes(Tasks(mayRead, mayWrite, any), a, b);
        SplitIsCombined(g, t, attrs, order, st);
      }
    } else {
      var loss :| loss in order && TypeIs(LOSS)(loss) && mayWrite(loss) != {};
      var body, st := LossIsVisible(mayRead, mayWrite, attrs, order, loss);
    }
  }

  // ------------------------------------------------------------------- timings

  type Clock = Invocation -> Option<real>

  function TimingOf(i: Invocation, clock: Clock): Option<real> {
    if i.node.taskType == Some(FWD) || i.node.taskType == Some(BWD) then clock(i) else None
  }

  function LayersOf(order: seq<Invocation>): seq<nat> {
    seq(|order|, k requires 0 <= k < |order| => order[k].node.layer)
  }

  function TimingsOf(order: seq<Invocation>, clock: Clock): seq<Option<real>> {
    seq(|order|, k requires 0 <= k < |order| => TimingOf(order[k], clock))
  }

  /** The map holds exactly the keys of the list, each with the first value listed for it. */
  ghost predicate FirstWins<V(!new)>(keys: seq<nat>, values: seq<V>, m: map<nat, V>)
    requires |keys| == |values|
  {
    && (forall l :: l in m <==> l in keys)
    && (forall k :: 0 <= k < |keys| && keys[k] !in keys[..k] ==> m[keys[k]] == values[k])
  }

  lemma AddTiming<V(!new)>(keys: seq<nat>, values: seq<V>, m: map<nat, V>, key: nat, value: V)
    requires |keys| == |values| && FirstWins(keys, values, m)
    ensures FirstWins(keys + [key], values + [value], if key in m then m else m[key := value])
  {
    var ks := keys + [key];
    forall k | 0 <= k < |ks| && ks[k] !in ks[..k]
      ensures (if key in m then m else m[key := value])[ks[k]] == (values + [value])[k]
    {
      assert ks[..k] == keys[..k];
    }
  }

  // ------------------------------------------------------------------ execution

  /** Nothing that executing the invocation checks can fail. */
  ghost predicate Executable(i: Invocation) {
    && SlotsAreParameters(i) && i.node.taskType.Some?
    && (i.node.taskType.value in {FWD, BWD} ==> HasOperator(i) && i.node.opAttrs.value.isComputation)
  }

  /** A forward or backward task is one of an operator of a computation graph. */
  lemma ExecutedOperators(i: Invocation)
    requires Executable(i) && i.node.taskType in {Some(FWD), Some(BWD)}
    ensures i.node.opAttrs.Some? && i.node.opAttrs.value.PcgOp? && i.node.opAttrs.value.isComputation
  {
  }

  /** The buffers that the tasks work on. */
  class DeviceMemory {
    var store: Store

    constructor (store: Store)
      ensures this.store == store
    {
      this.store := store;
    }
  }

  function Pointers(backing: map<TaskParameter, Accessor>): set<Ptr> {
    set p | p in backing :: backing[p].ptr
  }

  /** The buffers that the accessor hands out for writing. */
  function WritablePointers(inPlace: InPlace, i: Invocation, backing: map<TaskParameter, Accessor>): set<Ptr>
    requires forall s :: s in i.inputs || s in i.outputs ==> s.role.Some? && ParameterOf(s) in backing
  {
    (set s | s in i.outputs :: backing[ParameterOf(s)].ptr)
    + (set s | s in i.inputs && Overwrites(inPlace, i, s) :: backing[ParameterOf(s)].ptr)
  }

  /** A task sees and changes exactly the buffers in its argument accessor. */
  method CallTask(
      i: Invocation, backing: map<TaskParameter, Accessor>, memory: DeviceMemory, attrs: OptimizerAttrs,
      impls: TaskImpls)
    requires Backs(i.inputs, backing) && Backs(i.outputs, backing) && forall p :: p in backing ==> IsParameterOf(i, p)
    modifies memory
    ensures memory.store == RunTask(TasksOf(impls), attrs, i, old(memory.store))
  {
    var result := impls.body(i, attrs, Restrict(memory.store, Pointers(backing)));
    memory.store := memory.store + Restrict(result, WritablePointers(impls.inPlace, i, backing));
    BackingIsFootprint(impls.inPlace, i, backing);
  }

  /** The buffers in the argument accessor are the ones that the task may read, and those it hands
      out for writing are the ones that it may write. */
  lemma BackingIsFootprint(inPlace: InPlace, i: Invocation, backing: map<TaskParameter, Accessor>)
    requires Backs(i.inputs, backing) && Backs(i.outputs, backing) && forall p :: p in backing ==> IsParameterOf(i, p)
    ensures Pointers(backing) == MayRead(i) && WritablePointers(inPlace, i, backing) == MayWrite(inPlace)(i)
  {
    PointersAreFootprint(i, backing);
    WritableIsFootprint(inPlace, i, backing);
  }

  lemma PointersAreFootprint(i: Invocation, backing: map<TaskParameter, Accessor>)
    requires Backs(i.inputs, backing) && Backs(i.outputs, backing) && forall p :: p in backing ==> IsParameterOf(i, p)
    ensures Pointers(backing) == MayRead(i)
  {
    forall x | x in Pointers(backing) ensures x in MayRead(i) {
      var p :| p in backing && backing[p].ptr == x;
      assert IsParameterOf(i, p);
      var s :| (s in i.inputs || s in i.outputs) && s.role.Some? && ParameterOf(s) == p;
      if s in i.inputs {
        assert x in BuffersOf(i.inputs);
      } else {
        assert x in BuffersOf(i.outputs);
      }
    }
    forall x | x in MayRead(i) ensures x in Pointers(backing) {
      if x in BuffersOf(i.inputs) {
        var s :| s in i.inputs && i.inputs[s].accessor.Some? && i.inputs[s].accessor.value.ptr == x;
        assert ParameterOf(s) in backing;
      } else {
        var s :| s in i.outputs && i.outputs[s].accessor.Some? && i.outputs[s].accessor.value.ptr == x;
        assert ParameterOf(s) in backing;
      }
    }
  }

  lemma WritableIsFootprint(inPlace: InPlace, i: Invocation, backing: map<TaskParameter, Accessor>)
    requires Backs(i.inputs, backing) && Backs(i.outputs, backing)
    ensures WritablePointers(inPlace, i, backing) == MayWrite(inPlace)(i)
  {
    forall s | s in i.outputs
      ensures i.outputs[s].accessor.Some? && i.outputs[s].accessor.value == backing[ParameterOf(s)]
    {
    }
    forall s | s in i.inputs
      ensures i.inputs[s].accessor.Some? && i.inputs[s].accessor.value == backing[ParameterOf(s)]
    {
    }
    assert BuffersOf(i.outputs) == set s | s in i.outputs :: backing[ParameterOf(s)].ptr;
    assert BuffersInPlace(inPlace, i) == set s | s in i.inputs && Overwrites(inPlace, i, s) ::
      backing[ParameterOf(s)].ptr;
  }

  method ExecuteDynamicNodeInvocation(
      i: Invocation, memory: DeviceMemory, attrs: OptimizerAttrs, impls: TaskImpls, clock: Clock)
    returns (timing: Option<real>)
    requires Executable(i)
    modifies memory
    ensures memory.store == RunTask(TasksOf(impls), attrs, i, old(memory.store))
    ensures timing == TimingOf(i, clock)
  {
    var backing := MakeTaskArgumentAccessor(i);
    match i.node.taskType.value
    case FWD =>
      CallTask(i, backing.value, memory, attrs, impls);
      timing := clock(i);
    case BWD =>
      CallTask(i, backing.value, memory, attrs, impls);
      timing := clock(i);
    case UPD =>
      CallTask(i, backing.value, memory, attrs, impls);
      timing := None;
    case LOSS =>
      CallTask(i, backing.value, memory, attrs, impls);
      timing := None;
  }

  method ExecuteDynamicNodeInvocationSet(
      invocations: seq<Invocation>, memory: DeviceMemory, attrs: OptimizerAttrs, impls: TaskImpls, clock: Clock)
    returns (timings: map<nat, Option<real>>)
    requires forall i :: i in invocations ==> Executable(i)
    modifies memory
    ensures memory.store == RunAll(TasksOf(impls), attrs, invocations, old(memory.store))
    ensures FirstWins(LayersOf(invocations), TimingsOf(invocations, clock), timings)
  {
    timings := map[];
    for k := 0 to |invocations|
      invariant memory.store == RunAll(TasksOf(impls), attrs, invocations[..k], old(memory.store))
      invariant FirstWins(LayersOf(invocations[..k]), TimingsOf(invocations[..k], clock), timings)
    {
      var i := invocations[k];
      var timing := ExecuteDynamicNodeInvocation(i, memory, attrs, impls, clock);
      ghost var done, next := invocations[..k], invocations[..k + 1];
      assert next == done + [i];
      RunAllAppend(TasksOf(impls), attrs, done, [i], old(memory.store));
      assert [i][1..] == [];
      AddTiming(LayersOf(done), TimingsOf(done, clock), timings, i.node.layer, timing);
      assert LayersOf(next) == LayersOf(done) + [i.node.layer];
      assert TimingsOf(next, clock) == TimingsOf(done, clock) + [timing];
      if i.node.layer !in timings {
        timings := timings[i.node.layer := timing];
      }
    }
    assert invocations[..|invocations|] == invocations;
  }

  class ComputationGraphInstance {
    const executionOrder: seq<Invocation>
    const memory: DeviceMemory
    const stepSize: StepSize
    const logitGradTensor: Option<Accessor>
    var optimizerAttrs: OptimizerAttrs

    constructor (
        executionOrder: seq<Invocation>, memory: DeviceMemory, optimizerAttrs: OptimizerAttrs, stepSize: StepSize,
        logitGradTensor: Option<Accessor>)
      ensures this.executionOrder == executionOrder && this.memory == memory
      ensures this.optimizerAttrs == optimizerAttrs && this.stepSize == stepSize
      ensures this.logitGradTensor == logitGradTensor
    {
      this.logitGradTensor := logitGradTensor;
      this.executionOrder := executionOrder;
      this.memory := memory;
      this.optimizerAttrs := optimizerAttrs;
      this.stepSize := stepSize;
    }

    ghost predicate Ready() {
      forall i :: i in executionOrder ==> Executable(i)
    }

    method UpdateOptimizerAttrsForNextIter()
      modifies this`optimizerAttrs
      ensures optimizerAttrs == AttrsForNextIter(old(optimizerAttrs), stepSize)
    {
      optimizerAttrs := AttrsForNextIter(optimizerAttrs, stepSize);
    }

    method PerformAllPasses(impls: TaskImpls, clock: Clock) returns (timings: map<nat, Option<real>>)
      requires Ready()
      modifies this`optimizerAttrs, memory
      ensures memory.store == RunAll(TasksOf(impls), old(optimizerAttrs), executionOrder, old(memory.store))
      ensures optimizerAttrs == AttrsForNextIter(old(optimizerAttrs), stepSize)
      ensures FirstWins(LayersOf(executionOrder), TimingsOf(executionOrder, clock), timings)
    {
      timings := ExecuteDynamicNodeInvocationSet(executionOrder, memory, optimizerAttrs, impls, clock);
      UpdateOptimizerAttrsForNextIter();
    }

    method PerformForwardPass(impls: TaskImpls, clock: Clock) returns (timings: map<nat, Option<real>>)
      requires Ready()
      modifies memory
      ensures memory.store == RunAll(TasksOf(impls), optimizerAttrs, OfType(executionOrder, FWD), old(memory.store))
      ensures FirstWins(LayersOf(OfType(executionOrder, FWD)), TimingsOf(OfType(executionOrder, FWD), clock), timings)
    {
      var order := Filter(executionOrder, TypeIs(FWD));
      timings := ExecuteDynamicNodeInvocationSet(order, memory, optimizerAttrs, impls, clock);
    }

    method PerformBackwardPass(impls: TaskImpls, clock: Clock) returns (timings: map<nat, Option<real>>)
      requires Ready()
      modifies memory
      ensures memory.store == RunAll(TasksOf(impls), optimizerAttrs, OfType(executionOrder, BWD), old(memory.store))
      ensures FirstWins(LayersOf(OfType(executionOrder, BWD)), TimingsOf(OfType(executionOrder, BWD), clock), timings)
    {
      var order := Filter(executionOrder, TypeIs(BWD));
      timings := ExecuteDynamicNodeInvocationSet(order, memory, optimizerAttrs, impls, clock);
    }

    method PerformUpdatePass(impls: TaskImpls, clock: Clock)
      requires Ready()
      modifies this`optimizerAttrs, memory
      ensures memory.store == RunAll(TasksOf(impls), old(optimizerAttrs), OfType(executionOrder, UPD),
        old(memory.store))
      ensures optimizerAttrs == AttrsForNextIter(old(optimizerAttrs), stepSize)
    {
      var order := Filter(executionOrder, TypeIs(UPD));
      var _ := ExecuteDynamicNodeInvocationSet(order, memory, optimizerAttrs, impls, clock);
      UpdateOptimizerAttrsForNextIter();
    }
  }

  // ------------------------------------------------------------- many iterations

  /** One training state: the buffers and the optimizer's attributes. */
  datatype TrainingState = TrainingState(store: Store, attrs: OptimizerAttrs)

  function CombinedIteration(
      order: seq<Invocation>, impls: TaskImpls, stepSize: StepSize, s: TrainingState): TrainingState {
    TrainingState(RunAll(TasksOf(impls), s.attrs, order, s.store), AttrsForNextIter(s.attrs, stepSize))
  }

  function SplitIteration(
      order: seq<Invocation>, impls: TaskImpls, stepSize: StepSize, s: TrainingState): TrainingState {
    var t := TasksOf(impls);
    var afterFwd := RunAll(t, s.attrs, OfType(order, FWD), s.store);
    var afterBwd := RunAll(t, s.attrs, OfType(order, BWD), afterFwd);
    var afterUpd := RunAll(t, s.attrs, OfType(order, UPD), afterBwd);
    TrainingState(afterUpd, AttrsForNextIter(s.attrs, stepSize))
  }

  function Iterated(n: nat, step: TrainingState -> TrainingState, s: TrainingState): TrainingState {
    if n == 0 then s else step(Iterated(n - 1, step, s))
  }

  function CombinedStep(order: seq<Invocation>, impls: TaskImpls, stepSize: StepSize): TrainingState -> TrainingState {
    s => CombinedIteration(order, impls, stepSize, s)
  }

  function SplitStep(order: seq<Invocation>, impls: TaskImpls, stepSize: StepSize): TrainingState -> TrainingState {
    s => SplitIteration(order, impls, stepSize, s)
  }

  /** The training loop, with combined passes. */
  method Train(instance: ComputationGraphInstance, impls: TaskImpls, clock: Clock, n: nat)
    requires instance.Ready()
    modifies instance`optimizerAttrs, instance.memory
    ensures TrainingState(instance.memory.store, instance.optimizerAttrs)
         == Iterated(n, CombinedStep(instance.executionOrder, impls, instance.stepSize),
           TrainingState(old(instance.memory.store), old(instance.optimizerAttrs)))
  {
    for k := 0 to n
      invariant TrainingState(instance.memory.store, instance.optimizerAttrs)
             == Iterated(k, CombinedStep(instance.executionOrder, impls, instance.stepSize),
               TrainingState(old(instance.memory.store), old(instance.optimizerAttrs)))
    {
      var _ := instance.PerformAllPasses(impls, clock);
    }
  }

  /** The training loop, one phase at a time. */
  method TrainByPhases(instance: ComputationGraphInstance, impls: TaskImpls, clock: Clock, n: nat)
    requires instance.Ready()
    modifies instance`optimizerAttrs, instance.memory
    ensures TrainingState(instance.memory.store, instance.optimizerAttrs)
         == Iterated(n, SplitStep(instance.executionOrder, impls, instance.stepSize),
           TrainingState(old(instance.memory.store), old(instance.optimizerAttrs)))
  {
    for k := 0 to n
      invariant TrainingState(instance.memory.store, instance.optimizerAttrs)
             == Iterated(k, SplitStep(instance.executionOrder, impls, instance.stepSize),
               TrainingState(old(instance.memory.store), old(instance.optimizerAttrs)))
    {
      var _ := instance.PerformForwardPass(impls, clock);
      var _ := instance.PerformBackwardPass(impls, clock);
      instance.PerformUpdatePass(impls, clock);
    }
  }

  lemma IterationAgrees(
      g: DynamicGraph, impls: TaskImpls, stepSize: StepSize, o1: seq<Invocation>, o2: seq<Invocation>, s: TrainingState)
    requires ValidGraph(g) && BuffersDistinct(g) && OverwritesOrdered(g, impls.inPlace) && PhasesForward(g)
    requires IsTopologicalOrdering(DataflowGraph(g), o1) && IsTopologicalOrdering(DataflowGraph(g), o2)
    requires forall i :: i in g ==> i.node.taskType.Some? && i.node.taskType != Some(LOSS)
    ensures CombinedIteration(o1, impls, stepSize, s) == SplitIteration(o2, impls, stepSize, s)
  {
    ExecutionOrderIsImmaterial(g, impls, s.attrs, o1, o2, s.store);
    ValidGraphOrdersConflicts(g, impls);
    SplitIsCombined(g, TasksOf(impls), s.attrs, o2, s.store);
    SplitIterationRunsSplitOrder(o2, impls, stepSize, s);
  }

  lemma {:induction false} IteratedExt(
      n: nat, f: TrainingState -> TrainingState, h: TrainingState -> TrainingState, s: TrainingState)
    requires forall r :: f(r) == h(r)
    ensures Iterated(n, f, s) == Iterated(n, h, s)
  {
    if n > 0 { IteratedExt(n - 1, f, h, s); }
  }

  lemma {:induction false} IteratedAttrs(
      n: nat, order: seq<Invocation>, impls: TaskImpls, stepSize: StepSize, s: TrainingState)
    ensures Iterated(n, CombinedStep(order, impls, stepSize), s).attrs == AttrsAfter(n, s.attrs, stepSize)
  {
    if n > 0 { IteratedAttrs(n - 1, order, impls, stepSize, s); }
  }

  /** Training for any number of iterations, with any topological ordering of the graph and
      either combined or one phase at a time, ends in the same buffers and the same optimizer
      attributes, which have then advanced exactly once an iteration. */
  lemma TrainingAgrees(
      g: DynamicGraph, impls: TaskImpls, stepSize: StepSize, o1: seq<Invocation>, o2: seq<Invocation>, n: nat,
      s: TrainingState)
    requires ValidGraph(g) && BuffersDistinct(g) && OverwritesOrdered(g, impls.inPlace) && PhasesForward(g)
    requires IsTopologicalOrdering(DataflowGraph(g), o1) && IsTopologicalOrdering(DataflowGraph(g), o2)
    requires forall i :: i in g ==> i.node.taskType.Some? && i.node.taskType != Some(LOSS)
    ensures Iterated(n, CombinedStep(o1, impls, stepSize), s) == Iterated(n, SplitStep(o2, impls, stepSize), s)
    ensures Iterated(n, CombinedStep(o1, impls, stepSize), s).attrs == AttrsAfter(n, s.attrs, stepSize)
  {
    forall r ensures CombinedStep(o1, impls, stepSize)(r) == SplitStep(o2, impls, stepSize)(r) {
      IterationAgrees(g, impls, stepSize, o1, o2, r);
    }
    IteratedExt(n, CombinedStep(o1, impls, stepSize), SplitStep(o2, impls, stepSize), s);
    IteratedAttrs(n, o1, impls, stepSize, s);
  }

  lemma SplitIterationRunsSplitOrder(order: seq<Invocation>, impls: TaskImpls, stepSize: StepSize, s: TrainingState)
    ensures SplitIteration(order, impls, stepSize, s).store ==
      RunAll(TasksOf(impls), s.attrs, SplitOrder(order), s.store)
  {
    RunAllAppend(TasksOf(impls), s.attrs, OfType(order, FWD) + OfType(order, BWD), OfType(order, UPD), s.store);
    RunAllAppend(TasksOf(impls), s.attrs, OfType(order, FWD), OfType(order, BWD), s.store);
  }
}
