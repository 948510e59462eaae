/** Stochastic gradient descent: the update written as whole-tensor operations, the update
    written as a loop over cells, the gathering of replica gradients, and what runs of many
    steps amount to. */
module Sgd {
  import opened Options
  import opened Sums
  import opened TensorIndex
  import opened Accessors
  import opened GridStride

  datatype SgdAttrs = SgdAttrs(lr: real, weightDecay: real, momentum: real, nesterov: bool)

  /** The gradient with weight decay. */
  function Decayed(a: SgdAttrs, g: real, w: real): real {
    g + a.weightDecay * w
  }

  function NextVelocity(a: SgdAttrs, g: real, w: real, v: real): real {
    if a.momentum > 0.0 then v * a.momentum + Decayed(a, g, w) else v
  }

  /** The weight after a step with the decayed gradient gt and the new velocity v. */
  function WeightWith(a: SgdAttrs, w: real, gt: real, v: real): real {
    var step := if a.momentum <= 0.0 then gt else if a.nesterov then gt + a.momentum * v else v;
    w - a.lr * step
  }

  function NextWeight(a: SgdAttrs, g: real, w: real, v: real): real {
    WeightWith(a, w, Decayed(a, g, w), NextVelocity(a, g, w, v))
  }

  /** One step on every cell of a buffer. Without momentum the velocity plays no part, and may
      be missing. */
  ghost predicate IsStep(a: SgdAttrs, g: seq<real>, w: seq<real>, v: seq<real>, w': seq<real>, v': seq<real>) {
    && |w'| == |w| <= |g|
    && |v'| == |v| && (|v| == |w| || (v == [] && a.momentum <= 0.0))
    && forall i :: 0 <= i < |w| ==> StepAt(a, g, w, v, w', v', i)
  }

  ghost predicate StepAt(a: SgdAttrs, g: seq<real>, w: seq<real>, v: seq<real>, w': seq<real>, v': seq<real>, i: nat)
    requires i < |w| == |w'| <= |g|
  {
    && w'[i] == NextWeight(a, g[i], w[i], Elem(v, i))
    && Elem(v', i) == NextVelocity(a, g[i], w[i], Elem(v, i))
  }

  /** A step is determined by what it starts from: the two updates below, which both perform
      one, end in the same buffers. */
  lemma StepIsDetermined(
      a: SgdAttrs, g: seq<real>, w: seq<real>, v: seq<real>, w1: seq<real>, v1: seq<real>, w2: seq<real>, v2: seq<real>)
    requires IsStep(a, g, w, v, w1, v1) && IsStep(a, g, w, v, w2, v2)
    ensures w1 == w2 && v1 == v2
  {
    forall i | 0 <= i < |w| ensures w1[i] == w2[i] && Elem(v1, i) == Elem(v2, i) {
      assert StepAt(a, g, w, v, w1, v1, i) && StepAt(a, g, w, v, w2, v2, i);
    }
    assert forall i :: 0 <= i < |v1| ==> Elem(v1, i) == v1[i] && Elem(v2, i) == v2[i];
  }

  // ---------------------------------------------------- as whole-tensor operations

  /** The velocity buffer, scaled and increased in place: input and output share the buffer. */
  method AccumulateVelocity(v: Tensor<real>, momentum: real, gt: Tensor<real>)
    requires v.Sized() && gt.Sized() && v.dims == gt.dims && v.device == CPU && v.ptr != gt.ptr
    modifies v.ptr
    ensures forall i :: 0 <= i < v.ptr.Length ==> v.ptr[i] == old(v.ptr[i]) * momentum + gt.ptr[i]
  {
    MapTensorInPlace(v, (x: real) => x * momentum);
    MapTensors2To(v, gt, (l: real, r: real) => l + r, v);
  }

  method DecayedGradient(a: SgdAttrs, weightGrad: Tensor<real>, weight: Tensor<real>) returns (gt: Tensor<real>)
    requires weightGrad.Sized() && weight.Sized() && weightGrad.dims == weight.dims
    ensures gt.Sized() && gt.dims == weight.dims && fresh(gt.ptr)
    ensures forall i :: 0 <= i < gt.ptr.Length ==> gt.ptr[i] == weightGrad.ptr[i] + weight.ptr[i] * a.weightDecay
  {
    var scaled := MapTensor(weight, (x: real) => x * a.weightDecay);
    gt := MapTensors2(weightGrad, scaled, (l: real, r: real) => l + r);
  }

  method AddScaled(l: Tensor<real>, r: Tensor<real>, c: real, output: Tensor<real>)
    requires l.Sized() && r.Sized() && output.Sized() && l.dims == r.dims == output.dims
    modifies output.ptr
    ensures forall i :: 0 <= i < output.ptr.Length ==> output.ptr[i] == old(l.ptr[i]) + old(r.ptr[i]) * c
  {
    var scaled := MapTensor(r, (x: real) => x * c);
    MapTensors2To(l, scaled, (x: real, y: real) => x + y, output);
  }

  method SubtractScaled(l: Tensor<real>, r: Tensor<real>, c: real, output: Tensor<real>)
    requires l.Sized() && r.Sized() && output.Sized() && l.dims == r.dims == output.dims
    modifies output.ptr
    ensures forall i :: 0 <= i < output.ptr.Length ==> output.ptr[i] == old(l.ptr[i]) - old(r.ptr[i]) * c
  {
    var scaled := MapTensor(r, (x: real) => x * c);
    MapTensors2To(l, scaled, (x: real, y: real) => x - y, output);
  }

  /** What momentum makes of the velocity and of the direction of the step. */
  method ApplyMomentum(a: SgdAttrs, gt: Tensor<real>, v: Tensor<real>)
    requires v.Sized() && gt.Sized() && v.dims == gt.dims && v.device == CPU && v.ptr != gt.ptr
    modifies gt.ptr, v.ptr
    ensures forall i :: 0 <= i < v.ptr.Length ==> v.ptr[i] == old(v.ptr[i]) * a.momentum + old(gt.ptr[i])
    ensures forall i :: 0 <= i < gt.ptr.Length ==>
      gt.ptr[i] == if a.nesterov then old(gt.ptr[i]) + v.ptr[i] * a.momentum else v.ptr[i]
  {
    AccumulateVelocity(v, a.momentum, gt);
    if a.nesterov {
      AddScaled(gt, v, a.momentum, gt);
    } else {
      CopyAccessorData(gt, v);
    }
  }

  ghost function Velocity(sgdV: Option<Tensor<real>>): seq<real>
    reads if sgdV.Some? then {sgdV.value.ptr} else {}
  {
    if sgdV.Some? then sgdV.value.ptr[..] else []
  }

  lemma CellStep(a: SgdAttrs, g: real, w: real, v: real, gt: real, v': real, direction: real)
    requires gt == g + w * a.weightDecay
    requires if a.momentum > 0.0
      then v' == v * a.momentum + gt && direction == if a.nesterov then gt + v' * a.momentum else v'
      else v' == v && direction == gt
    ensures v' == NextVelocity(a, g, w, v) && w - direction * a.lr == NextWeight(a, g, w, v)
  {
    assert gt == Decayed(a, g, w);
  }

  /** The velocity and the direction of the step, before the weight has moved. */
  ghost predicate IsDirection(
      a: SgdAttrs, g: seq<real>, w: seq<real>, v: seq<real>, v': seq<real>, direction: seq<real>) {
    && |direction| == |w| <= |g| && |v'| == |v| && (|v| == |w| || (v == [] && a.momentum <= 0.0))
    && forall i :: 0 <= i < |w| ==> DirectionAt(a, g, w, v, v', direction, i)
  }

  ghost predicate DirectionAt(
      a: SgdAttrs, g: seq<real>, w: seq<real>, v: seq<real>, v': seq<real>, direction: seq<real>, i: nat)
    requires i < |w| == |direction| <= |g|
  {
    && Elem(v', i) == NextVelocity(a, g[i], w[i], Elem(v, i))
    && w[i] - direction[i] * a.lr == NextWeight(a, g[i], w[i], Elem(v, i))
  }

  lemma DirectionFromParts(
      a: SgdAttrs, g: seq<real>, w: seq<real>, v: seq<real>, decayed: seq<real>, v': seq<real>, direction: seq<real>)
    requires |w| == |decayed| == |direction| <= |g| && |v'| == |v| && (|v| == |w| || (v == [] && a.momentum <= 0.0))
    requires forall i :: 0 <= i < |w| ==> decayed[i] == g[i] + w[i] * a.weightDecay
    requires a.momentum > 0.0 ==> forall i :: 0 <= i < |w| ==>
      v'[i] == v[i] * a.momentum + decayed[i] &&
        direction[i] == if a.nesterov then decayed[i] + v'[i] * a.momentum else v'[i]
    requires a.momentum <= 0.0 ==> v' == v && direction == decayed
    ensures IsDirection(a, g, w, v, v', direction)
  {
    forall i | 0 <= i < |w| ensures DirectionAt(a, g, w, v, v', direction, i) {
      CellStep(a, g[i], w[i], Elem(v, i), decayed[i], Elem(v', i), direction[i]);
    }
  }

  /** The first half of the update, up to the weight. */
  method ComputeDirection(a: SgdAttrs, weightGrad: Tensor<real>, weight: Tensor<real>, sgdV: Option<Tensor<real>>)
    returns (gt: Tensor<real>)
    requires weightGrad.Sized() && weight.Sized() && weightGrad.dims == weight.dims
    requires sgdV.Some? ==>
      && sgdV.value.Sized() && sgdV.value.dims == weight.dims
      && sgdV.value.device == CPU && sgdV.value.ptr != weight.ptr
    requires a.momentum > 0.0 ==> sgdV.Some?
    modifies if sgdV.Some? then {sgdV.value.ptr} else {}
    ensures gt.Sized() && gt.dims == weight.dims && fresh(gt.ptr)
    ensures IsDirection(a, old(weightGrad.ptr[..]), weight.ptr[..], old(Velocity(sgdV)), Velocity(sgdV), gt.ptr[..])
  {
    ghost var g, w, v := weightGrad.ptr[..], weight.ptr[..], Velocity(sgdV);
    gt := DecayedGradient(a, weightGrad, weight);
    ghost var decayed := gt.ptr[..];
    if a.momentum > 0.0 {
      ApplyMomentum(a, gt, sgdV.value);
    }
    DirectionFromParts(a, g, w, v, decayed, Velocity(sgdV), gt.ptr[..]);
  }

  lemma StepFromDirection(
      a: SgdAttrs, g: seq<real>, w: seq<real>, v: seq<real>, v': seq<real>, direction: seq<real>, w': seq<real>)
    requires IsDirection(a, g, w, v, v', direction)
    requires |w'| == |w| && forall i :: 0 <= i < |w| ==> w'[i] == w[i] - direction[i] * a.lr
    ensures IsStep(a, g, w, v, w', v')
  {
    forall i | 0 <= i < |w| ensures StepAt(a, g, w, v, w', v', i) {
      assert DirectionAt(a, g, w, v, v', direction, i);
    }
  }

  /** The gradient may even share the weight's buffer; only the velocity must not. Momentum
      without a velocity is an error, raised before anything is written. */
  method CpuSgdUpdateTask(a: SgdAttrs, weightGrad: Tensor<real>, weight: Tensor<real>, sgdV: Option<Tensor<real>>)
    returns (ok: bool)
    requires weightGrad.Sized() && weight.Sized() && weightGrad.dims == weight.dims
    requires sgdV.Some? ==>
      && sgdV.value.Sized() && sgdV.value.dims == weight.dims
      && sgdV.value.device == CPU && sgdV.value.ptr != weight.ptr
    modifies weight.ptr, if sgdV.Some? then {sgdV.value.ptr} else {}
    ensures ok == (a.momentum > 0.0 ==> sgdV.Some?)
    ensures !ok ==> weight.ptr[..] == old(weight.ptr[..])
    ensures ok ==>
      IsStep(a, old(weightGrad.ptr[..]), old(weight.ptr[..]), old(Velocity(sgdV)), weight.ptr[..], Velocity(sgdV))
  {
    ok := !(a.momentum > 0.0 && sgdV.None?);
    if ok {
      ghost var g, w, v := weightGrad.ptr[..], weight.ptr[..], Velocity(sgdV);
      var gt := ComputeDirection(a, weightGrad, weight, sgdV);
      ghost var v', direction := Velocity(sgdV), gt.ptr[..];
      SubtractScaled(weight, gt, a.lr, weight);
      assert Velocity(sgdV) == v';
      StepFromDirection(a, g, w, v, v', direction, weight.ptr[..]);
    }
  }

  // ------------------------------------------------------- as a loop over the cells

  ghost function Contents(v: Option<array<real>>): seq<real>
    reads if v.Some? then {v.value} else {}
  {
    if v.Some? then v.value[..] else []
  }

  /** The body of the kernel's loop. */
  method UpdateCell(a: SgdAttrs, wGrad: array<real>, v: Option<array<real>>, w: array<real>, i: nat)
    requires i < w.Length <= wGrad.Length
    requires v.Some? ==> v.value.Length == w.Length && v.value != w
    requires a.momentum > 0.0 ==> v.Some?
    modifies w, if v.Some? then {v.value} else {}
    ensures w[..] == old(w[..])[i := NextWeight(a, old(wGrad[i]), old(w[i]), Elem(old(Contents(v)), i))]
    ensures v.Some? ==>
      Contents(v) == old(Contents(v))[i := NextVelocity(a, old(wGrad[i]), old(w[i]), Elem(old(Contents(v)), i))]
  {
    ghost var g, w0, v0 := wGrad[i], w[i], Elem(Contents(v), i);
    ghost var ws, vs := w[..], Contents(v);
    var gt := wGrad[i] + a.weightDecay * w[i];
    if a.momentum > 0.0 {
      v.value[i] := v.value[i] * a.momentum + gt;
      assert v.value[i] == NextVelocity(a, g, w0, v0);
      if a.nesterov {
        gt := gt + a.momentum * v.value[i];
      } else {
        gt := v.value[i];
      }
    }
    ghost var next := NextVelocity(a, g, w0, v0);
    assert v.Some? ==> Contents(v) == vs[i := next];
    w[i] := w[i] - a.lr * gt;
    assert w[i] == NextWeight(a, g, w0, v0);
    assert w[..] == ws[i := w[i]];
    assert v.Some? ==> v.value[..] == vs[i := next];
  }

  /** The cells of `done` have taken the step; the others are as before. */
  ghost predicate Stepped(
      a: SgdAttrs, g: seq<real>, w: seq<real>, v: seq<real>, w': seq<real>, v': seq<real>, done: set<nat>) {
    && |w'| == |w| <= |g| && |v'| == |v| && (|v| == |w| || (v == [] && a.momentum <= 0.0))
    && forall i :: 0 <= i < |w| ==>
      if i in done then StepAt(a, g, w, v, w', v', i) else w'[i] == w[i] && Elem(v', i) == Elem(v, i)
  }

  /** However the threads interleave, the kernel performs a step. The gradient buffer may be longer
      than the weight's. */
  method SgdUpdate(a: SgdAttrs, wGrad: array<real>, v: Option<array<real>>, w: array<real>, launch: Launch)
    requires w.Length <= wGrad.Length && wGrad != w
    requires (v.Some? ==> v.value.Length == w.Length && v.value != w && v.value != wGrad)
    requires a.momentum > 0.0 ==> v.Some?
    requires launch.Complete(w.Length)
    modifies w, if v.Some? then {v.value} else {}
    ensures IsStep(a, wGrad[..], old(w[..]), old(Contents(v)), w[..], Contents(v))
  {
    ghost var g, w0, v0 := wGrad[..], w[..], Contents(v);
    var order := launch.Indices(w.Length);
    CompleteLaunchTakesEachOnce(launch, w.Length);
    for k := 0 to |order|
      invariant Stepped(a, g, w0, v0, w[..], Contents(v), Taken(order, k))
    {
      TakeNext(order, w.Length, k);
      UpdateCell(a, wGrad, v, w, order[k]);
    }
    AllTaken(order, w.Length);
    assert forall i: nat :: i < w.Length ==> IsBelow(i, w.Length) && StepAt(a, g, w0, v0, w[..], Contents(v), i);
  }

  // ------------------------------------------------------------- replica gradients

  /** Entry i of replica r, in a buffer of consecutive replicas. */
  function ReplicaEntry(buffer: seq<real>, size: nat, i: nat): nat -> real {
    (r: nat) => Elem(buffer, Copies(r, size) + i)
  }

  function Plus(x: seq<real>, y: seq<real>, scale: real): (r: seq<real>)
    requires |x| == |y|
    ensures |r| == |x| && forall i :: 0 <= i < |r| ==> r[i] == x[i] + y[i] * scale
  {
    seq(|x|, i requires 0 <= i < |x| => x[i] + y[i] * scale)
  }

  /** Adds a replica, scaled, onto the front of the buffer. */
  method ApplyAddWithScale(data: array<real>, start: nat, size: nat, scale: real, launch: Launch)
    requires size <= start && start + size <= data.Length && launch.Complete(size)
    modifies data
    ensures data[..size] == Plus(old(data[..size]), old(data[start..start + size]), scale)
    ensures data[size..] == old(data[size..])
  {
    ghost var before := data[..];
    ghost var goal := Plus(before[..size], before[start..start + size], scale);
    var order := launch.Indices(size);
    CompleteLaunchTakesEachOnce(launch, size);
    for k := 0 to |order|
      invariant forall i: nat :: i < size ==> data[i] == if i in Taken(order, k) then goal[i] else before[i]
      invariant data[size..] == before[size..]
    {
      TakeNext(order, size, k);
      var i := order[k];
      ReplicaCell(data[..], before, size, start, i);
      AddCells(data, i, start + i, scale);
      assert data[i] == goal[i];
      assert forall j: nat :: j < size && j != i ==> (j in Taken(order, k + 1) <==> j in Taken(order, k));
    }
    AllTaken(order, size);
    assert forall i: nat :: i < size ==> IsBelow(i, size);
  }

  lemma ReplicaCell(s: seq<real>, before: seq<real>, size: nat, start: nat, i: nat)
    requires i < size <= start && start + size <= |s| == |before| && s[size..] == before[size..]
    ensures s[start + i] == before[start..start + size][i]
  {
    assert s[start + i] == s[size..][start + i - size] && before[start + i] == before[size..][start + i - size];
  }

  method AddCells(data: array<real>, i: nat, j: nat, scale: real)
    requires i < data.Length && j < data.Length
    modifies data
    ensures data[..] == old(data[..])[i := old(data[i]) + old(data[j]) * scale]
  {
    data[i] := data[i] + data[j] * scale;
  }

  /** The first replica holds the sum of the first r; the others are untouched. */
  ghost predicate Gathered(s: seq<real>, before: seq<real>, size: nat, r: nat) {
    && |s| == |before| >= size
    && (forall i :: 0 <= i < size ==> s[i] == Sum(r, ReplicaEntry(before, size, i)))
    && (forall i :: size <= i < |s| ==> s[i] == before[i])
  }

  lemma GatherCell(buffer: seq<real>, size: nat, i: nat, r: nat, start: nat)
    requires start == Copies(r, size) && start + i < |buffer|
    ensures Sum(r + 1, ReplicaEntry(buffer, size, i)) == Sum(r, ReplicaEntry(buffer, size, i)) + buffer[start + i]
  {
    assert ReplicaEntry(buffer, size, i)(r) == Elem(buffer, start + i);
    SumNext(r, ReplicaEntry(buffer, size, i), buffer[start + i]);
  }

  lemma PlusAt(s: seq<real>, s': seq<real>, before: seq<real>, size: nat, start: nat, i: nat)
    requires i < size <= start && start + size <= |s| == |s'| == |before|
    requires s'[..size] == Plus(s[..size], s[start..start + size], 1.0)
    requires forall k :: size <= k < |s| ==> s[k] == before[k]
    ensures s'[i] == s[i] + before[start + i]
  {
    assert s'[i] == s'[..size][i] && s[i] == s[..size][i];
    assert s[start..start + size][i] == s[start + i];
  }

  lemma GatherOne(s: seq<real>, s': seq<real>, before: seq<real>, size: nat, r: nat, start: nat)
    requires Gathered(s, before, size, r) && |s'| == |s| && start == Copies(r, size) && size <= start <= |s| - size
    requires s'[..size] == Plus(s[..size], s[start..start + size], 1.0) && s'[size..] == s[size..]
    ensures Gathered(s', before, size, r + 1)
  {
    forall i | 0 <= i < size ensures s'[i] == Sum(r + 1, ReplicaEntry(before, size, i)) {
      GatheredCell(s, s', before, size, r, start, i);
    }
    RestUntouched(s, s', before, size);
  }

  lemma GatheredCell(s: seq<real>, s': seq<real>, before: seq<real>, size: nat, r: nat, start: nat, i: nat)
    requires Gathered(s, before, size, r) && |s'| == |s| && start == Copies(r, size) && i < size <= start <= |s| - size
    requires s'[..size] == Plus(s[..size], s[start..start + size], 1.0)
    ensures s'[i] == Sum(r + 1, ReplicaEntry(before, size, i))
  {
    PlusAt(s, s', before, size, start, i);
    GatherCell(before, size, i, r, start);
  }

  lemma RestUntouched(s: seq<real>, s': seq<real>, before: seq<real>, size: nat)
    requires |s'| == |s| == |before| >= size && s'[size..] == s[size..]
    requires forall i :: size <= i < |s| ==> s[i] == before[i]
    ensures forall i :: size <= i < |s| ==> s'[i] == before[i]
  {
    forall i | size <= i < |s| ensures s'[i] == before[i] {
      assert s'[i] == s'[size..][i - size] && s[i] == s[size..][i - size];
    }
  }

  /** One launch for every replica but the first, each with an interleaving of its own. */
  ghost predicate AreLaunches(launches: seq<Launch>, replicas: Pos, n: nat) {
    |launches| == replicas as int - 1 && forall launch :: launch in launches ==> launch.Complete(n)
  }

  /** Gathers all replicas into the first. */
  method GatherReplicas(grads: array<real>, size: nat, replicas: Pos, launches: seq<Launch>)
    requires grads.Length == Copies(replicas, size) && AreLaunches(launches, replicas, size)
    modifies grads
    ensures Gathered(grads[..], old(grads[..]), size, replicas)
  {
    ghost var before := grads[..];
    CopiesGrow(1, replicas, size);
    FirstReplica(before, size);
    for r := 1 to replicas
      invariant Gathered(grads[..], before, size, r)
    {
      CopiesGrow(1, r, size);
      CopiesGrow(r + 1, replicas, size);
      ghost var s := grads[..];
      var start := Copies(r, size);
      ApplyAddWithScale(grads, start, size, 1.0, launches[r - 1]);
      GatherOne(s, grads[..], before, size, r, start);
    }
  }

  lemma FirstReplica(before: seq<real>, size: nat)
    requires size <= |before|
    ensures Gathered(before, before, size, 1)
  {
    forall i | 0 <= i < size ensures before[i] == Sum(1, ReplicaEntry(before, size, i)) {
      assert Sum(1, ReplicaEntry(before, size, i)) ==
        Sum(0, ReplicaEntry(before, size, i)) + ReplicaEntry(before, size, i)(0);
    }
  }

  /** The summed gradient over all replicas. */
  function Summed(buffer: seq<real>, size: nat, replicas: nat): (g: seq<real>)
    ensures |g| == size && forall i :: 0 <= i < size ==> g[i] == Sum(replicas, ReplicaEntry(buffer, size, i))
  {
    seq(size, i requires 0 <= i < size => Sum(replicas, ReplicaEntry(buffer, size, i)))
  }

  /** The parameter server, whatever the number of replicas, takes one step on their sum. */
  method PsUpdateTask(a: SgdAttrs, wGrad: array<real>, replicas: Pos, w: array<real>, v: Option<array<real>>,
      launches: seq<Launch>, last: Launch)
    requires wGrad.Length == Copies(replicas, w.Length) && AreLaunches(launches, replicas, w.Length)
    requires last.Complete(w.Length)
    requires wGrad != w && (v.Some? ==> v.value.Length == w.Length && v.value != w && v.value != wGrad)
    requires a.momentum > 0.0 ==> v.Some?
    modifies wGrad, w, if v.Some? then {v.value} else {}
    ensures IsStep(a, Summed(old(wGrad[..]), w.Length, replicas), old(w[..]), old(Contents(v)), w[..], Contents(v))
  {
    ghost var g := Summed(wGrad[..], w.Length, replicas);
    ghost var w0, v0 := w[..], Contents(v);
    CopiesGrow(1, replicas, w.Length);
    GatherReplicas(wGrad, w.Length, replicas, launches);
    assert w[..] == w0 && Contents(v) == v0;
    ghost var first := wGrad[..];
    SgdUpdate(a, wGrad, v, w, last);
    StepReadsPrefix(a, first, g, w0, v0, w[..], Contents(v));
  }

  lemma StepReadsPrefix(
      a: SgdAttrs, g: seq<real>, h: seq<real>, w: seq<real>, v: seq<real>, w': seq<real>, v': seq<real>)
    requires IsStep(a, g, w, v, w', v') && |h| == |w| && forall i :: 0 <= i < |w| ==> g[i] == h[i]
    ensures IsStep(a, h, w, v, w', v')
  {
    forall i | 0 <= i < |w| ensures StepAt(a, h, w, v, w', v', i) {
      assert StepAt(a, g, w, v, w', v', i);
    }
  }

  /** The averaging update: gathers the replicas, then moves against their mean. */
  method UpdateGas(
      para: array<real>, grads: array<real>, replicas: Pos, learningRate: real, launches: seq<Launch>, last: Launch)
    requires grads.Length == Copies(replicas, para.Length) && grads != para
    requires AreLaunches(launches, replicas, para.Length) && last.Complete(para.Length)
    modifies para, grads
    ensures var mean := Scaled(Summed(old(grads[..]), para.Length, replicas), 1.0 / replicas as real);
      IsStep(SgdAttrs(learningRate, 0.0, 0.0, false), mean, old(para[..]), [], para[..], [])
  {
    ghost var g, w := Summed(grads[..], para.Length, replicas), para[..];
    CopiesGrow(1, replicas, para.Length);
    GatherReplicas(grads, para.Length, replicas, launches);
    var share := 1.0 / replicas as real;
    MoveAgainst(para, grads, share, learningRate, last, w, g);
  }

  method MoveAgainst(
      para: array<real>, grads: array<real>, share: real, learningRate: real, launch: Launch, ghost w: seq<real>,
      ghost g: seq<real>)
    requires para != grads && para.Length <= grads.Length && launch.Complete(para.Length)
    requires para[..] == w && |g| == |w| && forall i :: 0 <= i < |g| ==> grads[i] == g[i]
    modifies para
    ensures IsStep(SgdAttrs(learningRate, 0.0, 0.0, false), Scaled(g, share), w, [], para[..], [])
  {
    var scaleFactor := share * -learningRate;
    AddScaledReplica(para, grads, scaleFactor, launch);
    MeanStep(g, w, para[..], share, learningRate, scaleFactor);
  }

  method AddScaledReplica(data: array<real>, grads: array<real>, scale: real, launch: Launch)
    requires data != grads && data.Length <= grads.Length && launch.Complete(data.Length)
    modifies data
    ensures forall i :: 0 <= i < data.Length ==> data[i] == old(data[i]) + grads[i] * scale
  {
    ghost var before := data[..];
    var order := launch.Indices(data.Length);
    CompleteLaunchTakesEachOnce(launch, data.Length);
    for k := 0 to |order|
      invariant forall i: nat :: i < data.Length ==>
        data[i] == if i in Taken(order, k) then before[i] + grads[i] * scale else before[i]
    {
      TakeNext(order, data.Length, k);
      var i := order[k];
      assert data[i] == before[i];
      var x := data[i] + grads[i] * scale;
      data[i] := x;
      assert forall j: nat :: j < data.Length && j != i ==> (j in Taken(order, k + 1) <==> j in Taken(order, k));
    }
    AllTaken(order, data.Length);
    assert forall i: nat :: i < data.Length ==> IsBelow(i, data.Length);
  }

  function Scaled(s: seq<real>, c: real): (r: seq<real>)
    ensures |r| == |s| && forall i :: 0 <= i < |s| ==> r[i] == s[i] * c
  {
    seq(|s|, i requires 0 <= i < |s| => s[i] * c)
  }

  lemma MeanStep(g: seq<real>, w: seq<real>, w': seq<real>, c: real, lr: real, factor: real)
    requires factor == c * -lr
    requires |g| == |w| == |w'| && forall i :: 0 <= i < |w| ==> w'[i] == w[i] + g[i] * factor
    ensures IsStep(SgdAttrs(lr, 0.0, 0.0, false), Scaled(g, c), w, [], w', [])
  {
    forall i | 0 <= i < |w| ensures StepAt(SgdAttrs(lr, 0.0, 0.0, false), Scaled(g, c), w, [], w', [], i) {
      assert g[i] * (c * -lr) == -(lr * (g[i] * c));
      assert Decayed(SgdAttrs(lr, 0.0, 0.0, false), Scaled(g, c)[i], w[i]) == g[i] * c;
    }
  }

  lemma {:induction false} CopiesGrow(n: nat, m: nat, d: nat)
    requires n <= m
    ensures Copies(n, d) <= Copies(m, d)
  {
    if n < m { CopiesGrow(n, m - 1, d); }
  }

  // --------------------------------------------------------- runs of many steps

  /** The weight and velocity of one cell over T steps, step t + 1 seeing the gradient g(t)
      and acting on e(t), which includes the weight decay. */
  ghost predicate IsRun(a: SgdAttrs, g: nat -> real, e: nat -> real, w: nat -> real, v: nat -> real, T: nat) {
    forall t: nat :: t < T ==> StepsAt(a, g, e, w, v, t)
  }

  predicate StepsAt(a: SgdAttrs, g: nat -> real, e: nat -> real, w: nat -> real, v: nat -> real, t: nat) {
    e(t) == Decayed(a, g(t), w(t)) && w(t + 1) == NextWeight(a, g(t), w(t), v(t)) &&
      v(t + 1) == NextVelocity(a, g(t), w(t), v(t))
  }

  /** The decayed gradients that the steps act on. */
  function Effective(a: SgdAttrs, g: nat -> real, w: nat -> real): nat -> real {
    (t: nat) => Decayed(a, g(t), w(t))
  }

  /** The gradient of step t + 1, damped by the steps taken since. */
  function Damped(mu: real, e: nat -> real, T: nat): nat -> real {
    (t: nat) => if t < T then Power(mu, T - 1 - t) * e(t) else 0.0
  }

  lemma DampedOnce(mu: real, e: nat -> real, T: nat, t: nat)
    requires t < T
    ensures Damped(mu, e, T + 1)(t) == mu * Damped(mu, e, T)(t)
  {
    var p := Power(mu, T - 1 - t);
    assert Power(mu, T - t) == mu * p;
    Associate(mu, p, e(t));
  }

  lemma Associate(x: real, y: real, z: real)
    ensures x * y * z == x * (y * z)
  {
  }

  lemma OneMoreDamping(mu: real, e: nat -> real, T: nat)
    ensures Sum(T + 1, Damped(mu, e, T + 1)) == mu * Sum(T, Damped(mu, e, T)) + e(T)
  {
    forall t: nat | t < T ensures Damped(mu, e, T + 1)(t) == mu * Damped(mu, e, T)(t) {
      DampedOnce(mu, e, T, t);
    }
    SumScale(T, mu, Damped(mu, e, T), Damped(mu, e, T + 1));
    assert Damped(mu, e, T + 1)(T) == e(T);
  }

  lemma DampedAgain(mu: real, p: real, v: real, sum: real)
    ensures (p * v + sum) * mu == mu * p * v + mu * sum
  {
  }

  predicate Recurs(mu: real, e: nat -> real, v: nat -> real, t: nat) {
    v(t + 1) == v(t) * mu + e(t)
  }

  predicate Drops(d: nat -> real, x: nat -> real, t: nat) {
    x(t + 1) == x(t) - d(t)
  }

  /** The initial velocity damped T times, and every gradient damped once for each later step. */
  function DampedTotal(mu: real, e: nat -> real, v0: real, T: nat): real {
    Power(mu, T) * v0 + Sum(T, Damped(mu, e, T))
  }

  lemma NextTotal(mu: real, p: real, v0: real, sum: real, e: real, p': real, sum': real)
    requires p' == mu * p && sum' == mu * sum + e
    ensures p' * v0 + sum' == (p * v0 + sum) * mu + e
  {
    DampedAgain(mu, p, v0, sum);
  }

  lemma DampedTotalNext(mu: real, e: nat -> real, v0: real, T: nat)
    ensures DampedTotal(mu, e, v0, T + 1) == DampedTotal(mu, e, v0, T) * mu + e(T)
  {
    OneMoreDamping(mu, e, T);
    NextTotal(mu, Power(mu, T), v0, Sum(T, Damped(mu, e, T)), e(T), Power(mu, T + 1), Sum(T + 1, Damped(mu, e, T + 1)));
  }

  lemma SameNext(mu: real, x: real, x': real, y: real, y': real, e: real)
    requires x == y && x' == x * mu + e && y' == y * mu + e
    ensures x' == y'
  {
  }

  lemma {:induction false} Recurrence(mu: real, e: nat -> real, v: nat -> real, T: nat)
    requires forall t: nat :: t < T ==> Recurs(mu, e, v, t)
    ensures v(T) == DampedTotal(mu, e, v(0), T)
  {
    if T > 0 {
      Recurrence(mu, e, v, T - 1);
      DampedTotalNext(mu, e, v(0), T - 1);
      assert Recurs(mu, e, v, T - 1);
      SameNext(mu, v(T - 1), v(T), DampedTotal(mu, e, v(0), T - 1), DampedTotal(mu, e, v(0), T), e(T - 1));
    }
  }

  lemma {:induction false} Telescope(d: nat -> real, x: nat -> real, T: nat)
    requires forall t: nat :: t < T ==> Drops(d, x, t)
    ensures x(T) == x(0) - Sum(T, d)
  {
    if T > 0 {
      Telescope(d, x, T - 1);
      assert Drops(d, x, T - 1);
    }
  }

  lemma TelescopeScaled(c: real, e: nat -> real, x: nat -> real, T: nat)
    requires forall t: nat :: t < T ==> Drops(ScaledBy(c, e), x, t)
    ensures x(T) == x(0) - c * Sum(T, e)
  {
    Telescope(ScaledBy(c, e), x, T);
    SumScale(T, c, e, ScaledBy(c, e));
  }

  lemma VelocityStep(a: SgdAttrs, g: real, w: real, v: real, e: real)
    requires a.momentum > 0.0 && e == Decayed(a, g, w)
    ensures NextVelocity(a, g, w, v) == v * a.momentum + e
  {
  }

  lemma WeightStep(a: SgdAttrs, g: real, w: real, v: real, v': real)
    requires a.momentum > 0.0 && !a.nesterov && v' == NextVelocity(a, g, w, v)
    ensures NextWeight(a, g, w, v) == w - a.lr * v'
  {
  }

  lemma PlainStep(a: SgdAttrs, g: real, w: real, v: real, e: real)
    requires a.momentum <= 0.0 && e == Decayed(a, g, w)
    ensures NextWeight(a, g, w, v) == w - a.lr * e && NextVelocity(a, g, w, v) == v
  {
  }

  /** With momentum, the velocity is the initial one damped T times plus every gradient, damped
      once for each later step. */
  lemma VelocityClosedForm(a: SgdAttrs, g: nat -> real, e: nat -> real, w: nat -> real, v: nat -> real, T: nat)
    requires a.momentum > 0.0 && IsRun(a, g, e, w, v, T)
    ensures v(T) == Power(a.momentum, T) * v(0) + Sum(T, Damped(a.momentum, e, T))
  {
    VelocitySteps(a, g, e, w, v, T);
    Recurrence(a.momentum, e, v, T);
  }

  lemma VelocitySteps(a: SgdAttrs, g: nat -> real, e: nat -> real, w: nat -> real, v: nat -> real, T: nat)
    requires a.momentum > 0.0 && IsRun(a, g, e, w, v, T)
    ensures forall t: nat :: t < T ==> Recurs(a.momentum, e, v, t)
  {
    forall t: nat | t < T ensures Recurs(a.momentum, e, v, t) {
      assert StepsAt(a, g, e, w, v, t);
      VelocityStep(a, g(t), w(t), v(t), e(t));
    }
  }

  function Next(f: nat -> real): nat -> real {
    (t: nat) => f(t + 1)
  }

  /** Without Nesterov's correction, the weight has moved against the sum of all velocities. */
  lemma WeightClosedForm(a: SgdAttrs, g: nat -> real, e: nat -> real, w: nat -> real, v: nat -> real, T: nat)
    requires a.momentum > 0.0 && !a.nesterov && IsRun(a, g, e, w, v, T)
    ensures w(T) == w(0) - a.lr * Sum(T, Next(v))
  {
    WeightSteps(a, g, e, w, v, T);
    TelescopeScaled(a.lr, Next(v), w, T);
  }

  lemma WeightSteps(a: SgdAttrs, g: nat -> real, e: nat -> real, w: nat -> real, v: nat -> real, T: nat)
    requires a.momentum > 0.0 && !a.nesterov && IsRun(a, g, e, w, v, T)
    ensures forall t: nat :: t < T ==> Drops(ScaledBy(a.lr, Next(v)), w, t)
  {
    var next := Next(v);
    forall t: nat | t < T ensures Drops(ScaledBy(a.lr, next), w, t) {
      assert StepsAt(a, g, e, w, v, t);
      WeightStep(a, g(t), w(t), v(t), next(t));
    }
  }

  /** Without momentum, against the sum of all gradients, and the velocity has not moved. */
  lemma PlainClosedForm(a: SgdAttrs, g: nat -> real, e: nat -> real, w: nat -> real, v: nat -> real, T: nat)
    requires a.momentum <= 0.0 && IsRun(a, g, e, w, v, T)
    ensures w(T) == w(0) - a.lr * Sum(T, e)
    ensures v(T) == v(0)
  {
    PlainVelocity(a, g, e, w, v, T);
    PlainSteps(a, g, e, w, v, T);
    TelescopeScaled(a.lr, e, w, T);
  }

  lemma PlainSteps(a: SgdAttrs, g: nat -> real, e: nat -> real, w: nat -> real, v: nat -> real, T: nat)
    requires a.momentum <= 0.0 && IsRun(a, g, e, w, v, T)
    ensures forall t: nat :: t < T ==> Drops(ScaledBy(a.lr, e), w, t)
  {
    forall t: nat | t < T ensures Drops(ScaledBy(a.lr, e), w, t) {
      assert StepsAt(a, g, e, w, v, t);
      PlainStep(a, g(t), w(t), v(t), e(t));
    }
  }

  lemma {:induction false} PlainVelocity(
      a: SgdAttrs, g: nat -> real, e: nat -> real, w: nat -> real, v: nat -> real, T: nat)
    requires a.momentum <= 0.0 && IsRun(a, g, e, w, v, T)
    ensures v(T) == v(0)
  {
    if T > 0 {
      PlainVelocity(a, g, e, w, v, T - 1);
      assert StepsAt(a, g, e, w, v, T - 1);
    }
  }

  /** A combination of weight and velocity that moves by exactly the gradient at every step,
      with or without Nesterov's correction. */
  function Potential(a: SgdAttrs, w: real, v: real): real {
    var mu := a.momentum;
    (1.0 - mu) * w - a.lr * (if a.nesterov then mu * mu else mu) * v
  }

  lemma PotentialStep(a: SgdAttrs, g: real, w: real, v: real, e: real)
    requires a.momentum > 0.0 && e == Decayed(a, g, w)
    ensures Potential(a, NextWeight(a, g, w, v), NextVelocity(a, g, w, v)) == Potential(a, w, v) - a.lr * e
  {
    var mu, lr := a.momentum, a.lr;
    var v' := v * mu + e;
    if a.nesterov {
      NesterovPotential(mu, lr, e, w, v, v');
    } else {
      HeavyBallPotential(mu, lr, e, w, v, v');
    }
  }

  lemma NesterovPotential(mu: real, lr: real, e: real, w: real, v: real, v': real)
    requires v' == v * mu + e
    ensures (1.0 - mu) * (w - lr * (e + mu * v')) - lr * (mu * mu) * v' == (1.0 - mu) * w - lr * (mu * mu) * v - lr * e
  {
  }

  lemma HeavyBallPotential(mu: real, lr: real, e: real, w: real, v: real, v': real)
    requires v' == v * mu + e
    ensures (1.0 - mu) * (w - lr * v') - lr * mu * v' == (1.0 - mu) * w - lr * mu * v - lr * e
  {
  }

  function PotentialAt(a: SgdAttrs, w: nat -> real, v: nat -> real): nat -> real {
    (t: nat) => Potential(a, w(t), v(t))
  }

  /** Over any run, that combination loses exactly the learning rate times the sum of the
      gradients, however the velocity delays them. */
  lemma MomentumConserves(a: SgdAttrs, g: nat -> real, e: nat -> real, w: nat -> real, v: nat -> real, T: nat)
    requires a.momentum > 0.0 && IsRun(a, g, e, w, v, T)
    ensures Potential(a, w(T), v(T)) == Potential(a, w(0), v(0)) - a.lr * Sum(T, e)
  {
    PotentialSteps(a, g, e, w, v, T);
    TelescopeScaled(a.lr, e, PotentialAt(a, w, v), T);
  }

  lemma PotentialSteps(a: SgdAttrs, g: nat -> real, e: nat -> real, w: nat -> real, v: nat -> real, T: nat)
    requires a.momentum > 0.0 && IsRun(a, g, e, w, v, T)
    ensures forall t: nat :: t < T ==> Drops(ScaledBy(a.lr, e), PotentialAt(a, w, v), t)
  {
    forall t: nat | t < T
      ensures Drops(ScaledBy(a.lr, e), PotentialAt(a, w, v), t)
    {
      assert StepsAt(a, g, e, w, v, t);
      PotentialStepAt(a, g, e, w, v, t);
    }
  }

  lemma PotentialStepAt(a: SgdAttrs, g: nat -> real, e: nat -> real, w: nat -> real, v: nat -> real, t: nat)
    requires a.momentum > 0.0 && StepsAt(a, g, e, w, v, t)
    ensures Drops(ScaledBy(a.lr, e), PotentialAt(a, w, v), t)
  {
    PotentialStep(a, g(t), w(t), v(t), e(t));
  }

  // ------------------------------------------------------- runs over whole buffers

  ghost predicate IsTraining(a: SgdAttrs, G: nat -> seq<real>, W: nat -> seq<real>, V: nat -> seq<real>, T: nat) {
    forall t: nat :: t < T ==> IsStep(a, G(t), W(t), V(t), W(t + 1), V(t + 1))
  }

  function CellOf(S: nat -> seq<real>, i: nat): nat -> real {
    (t: nat) => Elem(S(t), i)
  }

  lemma {:induction false} TrainingKeepsLength(
      a: SgdAttrs, G: nat -> seq<real>, W: nat -> seq<real>, V: nat -> seq<real>, T: nat, t: nat)
    requires IsTraining(a, G, W, V, T) && t <= T
    ensures |W(t)| == |W(0)|
  {
    if t > 0 {
      TrainingKeepsLength(a, G, W, V, T, t - 1);
      assert IsStep(a, G(t - 1), W(t - 1), V(t - 1), W(t - 1 + 1), V(t - 1 + 1));
    }
  }

  /** When either kernel is run T times on the same buffers, every cell makes a run, to which
      all of the above applies. */
  lemma EveryCellRuns(a: SgdAttrs, G: nat -> seq<real>, W: nat -> seq<real>, V: nat -> seq<real>, T: nat, i: nat)
    requires IsTraining(a, G, W, V, T) && i < |W(0)|
    ensures IsRun(a, CellOf(G, i), Effective(a, CellOf(G, i), CellOf(W, i)), CellOf(W, i), CellOf(V, i), T)
  {
    forall t: nat | t < T
      ensures StepsAt(a, CellOf(G, i), Effective(a, CellOf(G, i), CellOf(W, i)), CellOf(W, i), CellOf(V, i), t)
    {
      TrainingKeepsLength(a, G, W, V, T, t);
      assert IsStep(a, G(t), W(t), V(t), W(t + 1), V(t + 1));
      CellStepsAt(a, G, W, V, t, i);
    }
  }

  lemma CellStepsAt(a: SgdAttrs, G: nat -> seq<real>, W: nat -> seq<real>, V: nat -> seq<real>, t: nat, i: nat)
    requires IsStep(a, G(t), W(t), V(t), W(t + 1), V(t + 1)) && i < |W(t)|
    ensures StepsAt(a, CellOf(G, i), Effective(a, CellOf(G, i), CellOf(W, i)), CellOf(W, i), CellOf(V, i), t)
  {
    assert StepAt(a, G(t), W(t), V(t), W(t + 1), V(t + 1), i);
  }
}
