/** The SGD kernel and the embedding's forward kernel, access by access: however the threads of a
    launch interleave between their memory accesses, the kernels leave what their loops leave. */
module FineKernels {
  import opened EmbeddingKernels
  import opened Interleavings
  import opened Scheduling
  import opened Sums
  import opened TensorIndex
  import Sgd

  /** The store after the first k accesses of an iteration. */
  function After(program: Program, i: nat, k: nat, st: Store): Store {
    if k == 0 then st
    else
      var s := After(program, i, k - 1, st);
      s[program(Access(i, k - 1)).target := [program(Access(i, k - 1)).value(s)]]
  }

  ghost predicate ReadsWhatItSays(program: Program) {
    forall x: Access :: ReadsOnly(program(x))
  }

  lemma {:induction false} IterationIsAfter(program: Program, i: nat, k: nat, st: Store)
    requires ReadsWhatItSays(program)
    ensures RunAll(Accesses(program), (), Iteration(i, k), st) == After(program, i, k, st)
  {
    if k > 0 {
      IterationIsAfter(program, i, k - 1, st);
      var x := Access(i, k - 1);
      assert Iteration(i, k) == Iteration(i, k - 1) + [x];
      RunAllAppend(Accesses(program), (), Iteration(i, k - 1), [x], st);
      assert [x][1..] == [];
      AccessSets(program, x, After(program, i, k - 1, st));
    }
  }

  // ------------------------------------------------------------------------ SGD

  /** Iteration i works on its weight, its velocity, its gradient and two registers. */
  function WeightCell(i: nat): Ptr { 5 * i }
  function VelocityCell(i: nat): Ptr { 5 * i + 1 }
  function GradientCell(i: nat): Ptr { 5 * i + 2 }
  function DirectionCell(i: nat): Ptr { 5 * i + 3 }
  function LoadedCell(i: nat): Ptr { 5 * i + 4 }

  function OwnCells(i: nat): set<Ptr> {
    {WeightCell(i), VelocityCell(i), GradientCell(i), DirectionCell(i), LoadedCell(i)}
  }

  const SGD_ACCESSES: Pos := 8

  /** Each step loads or stores one cell of a buffer, or computes in registers. */
  function SgdTarget(a: Sgd.SgdAttrs, i: nat, k: nat): Ptr {
    if k == 0 || k == 2 || k == 5 then DirectionCell(i)
    else if k == 4 && a.momentum > 0.0 then VelocityCell(i)
    else if k == 7 then WeightCell(i)
    else LoadedCell(i)
  }

  function SgdValue(a: Sgd.SgdAttrs, i: nat, k: nat, st: Store): real {
    var direction, loaded := Load(st, DirectionCell(i)), Load(st, LoadedCell(i));
    if k == 0 then Load(st, GradientCell(i))
    else if k == 1 || k == 6 then Load(st, WeightCell(i))
    else if k == 2 then direction + a.weightDecay * loaded
    else if k == 3 then Load(st, VelocityCell(i))
    else if k == 4 && a.momentum > 0.0 then loaded * a.momentum + direction
    else if k == 5 then
      if a.momentum <= 0.0 then direction
      else if a.nesterov then direction + a.momentum * Load(st, VelocityCell(i))
      else Load(st, VelocityCell(i))
    else if k == 7 then loaded - a.lr * direction
    else loaded
  }

  function SgdProgram(a: Sgd.SgdAttrs): Program {
    (x: Access) => Op(OwnCells(x.index), SgdTarget(a, x.index, x.step), (st: Store) => SgdValue(a, x.index, x.step, st))
  }

  lemma OwnCellsOf(i: nat, p: Ptr)
    requires p in OwnCells(i)
    ensures p / 5 == i
  {
  }

  lemma SgdIterationsApart(a: Sgd.SgdAttrs)
    ensures IterationsApart(SgdProgram(a))
  {
    forall x: Access, y: Access | x.index != y.index
      ensures SgdTarget(a, x.index, x.step) != SgdTarget(a, y.index, y.step)
      ensures SgdTarget(a, x.index, x.step) !in OwnCells(y.index)
    {
      var p, q := SgdTarget(a, x.index, x.step), SgdTarget(a, y.index, y.step);
      OwnCellsOf(x.index, p);
      OwnCellsOf(y.index, q);
      if p in OwnCells(y.index) { OwnCellsOf(y.index, p); }
    }
  }

  lemma RestrictedCell(st: Store, st': Store, ps: set<Ptr>, p: Ptr)
    requires Restrict(st, ps) == Restrict(st', ps) && p in ps
    ensures Load(st, p) == Load(st', p)
  {
    assert p in st <==> p in Restrict(st, ps);
    assert p in st' <==> p in Restrict(st', ps);
    if p in st { assert Restrict(st, ps)[p] == st[p] && Restrict(st', ps)[p] == st'[p]; }
  }

  lemma SgdReadsWhatItSays(a: Sgd.SgdAttrs)
    ensures ReadsWhatItSays(SgdProgram(a))
  {
    forall x: Access, st, st' | Restrict(st, OwnCells(x.index)) == Restrict(st', OwnCells(x.index))
      ensures SgdValue(a, x.index, x.step, st) == SgdValue(a, x.index, x.step, st')
    {
      forall p | p in OwnCells(x.index) ensures Load(st, p) == Load(st', p) {
        RestrictedCell(st, st', OwnCells(x.index), p);
      }
      SgdValueDepends(a, x.index, x.step, st, st');
    }
  }

  lemma SgdValueDepends(a: Sgd.SgdAttrs, i: nat, k: nat, st: Store, st': Store)
    requires forall p :: p in OwnCells(i) ==> Load(st, p) == Load(st', p)
    ensures SgdValue(a, i, k, st) == SgdValue(a, i, k, st')
  {
    assert Load(st, WeightCell(i)) == Load(st', WeightCell(i));
    assert Load(st, VelocityCell(i)) == Load(st', VelocityCell(i));
    assert Load(st, GradientCell(i)) == Load(st', GradientCell(i));
    assert Load(st, DirectionCell(i)) == Load(st', DirectionCell(i));
    assert Load(st, LoadedCell(i)) == Load(st', LoadedCell(i));
  }

  /** The values of an iteration's cells. */
  datatype SgdState = SgdState(w: real, v: real, g: real, direction: real, loaded: real)

  ghost predicate Holds(st: Store, i: nat, s: SgdState) {
    && Load(st, WeightCell(i)) == s.w && Load(st, VelocityCell(i)) == s.v && Load(st, GradientCell(i)) == s.g
    && Load(st, DirectionCell(i)) == s.direction && Load(st, LoadedCell(i)) == s.loaded
  }

  /** One access, on those values. */
  function NextState(a: Sgd.SgdAttrs, k: nat, s: SgdState): SgdState {
    if k == 0 then s.(direction := s.g)
    else if k == 1 || k == 6 then s.(loaded := s.w)
    else if k == 2 then s.(direction := s.direction + a.weightDecay * s.loaded)
    else if k == 3 then s.(loaded := s.v)
    else if k == 4 && a.momentum > 0.0 then s.(v := s.loaded * a.momentum + s.direction)
    else if k == 5 && a.momentum > 0.0 then s.(direction := if a.nesterov then s.direction + a.momentum * s.v else s.v)
    else if k == 7 then s.(w := s.loaded - a.lr * s.direction)
    else s
  }

  lemma SetCell(st: Store, p: Ptr, x: real)
    ensures forall q :: Load(st[p := [x]], q) == if q == p then x else Load(st, q)
  {
    var s := st[p := [x]];
    forall q ensures Load(s, q) == if q == p then x else Load(st, q) {
      assert q != p ==> (q in s <==> q in st);
    }
  }

  lemma SgdDoes(a: Sgd.SgdAttrs, i: nat, k: nat, st: Store, s: SgdState)
    requires Holds(After(SgdProgram(a), i, k, st), i, s)
    ensures Holds(After(SgdProgram(a), i, k + 1, st), i, NextState(a, k, s))
  {
    var now := After(SgdProgram(a), i, k, st);
    SetCell(now, SgdTarget(a, i, k), SgdValue(a, i, k, now));
  }

  function StateAfter(a: Sgd.SgdAttrs, k: nat, s: SgdState): SgdState {
    if k == 0 then s else NextState(a, k - 1, StateAfter(a, k - 1, s))
  }

  lemma {:induction false} SgdDoesAll(a: Sgd.SgdAttrs, i: nat, k: nat, st: Store, s: SgdState)
    requires Holds(st, i, s)
    ensures Holds(After(SgdProgram(a), i, k, st), i, StateAfter(a, k, s))
  {
    if k > 0 {
      SgdDoesAll(a, i, k - 1, st, s);
      SgdDoes(a, i, k - 1, st, StateAfter(a, k - 1, s));
    }
  }

  /** The first five accesses compute the direction without momentum, and the velocity. */
  function Halfway(a: Sgd.SgdAttrs, s: SgdState): SgdState {
    NextState(a, 4, NextState(a, 3, NextState(a, 2, NextState(a, 1, NextState(a, 0, s)))))
  }

  lemma HalfwayIs(a: Sgd.SgdAttrs, s: SgdState)
    ensures Halfway(a, s) == SgdState(s.w, Sgd.NextVelocity(a, s.g, s.w, s.v), s.g, Sgd.Decayed(a, s.g, s.w), s.v)
  {
  }

  lemma OneMore(a: Sgd.SgdAttrs, k: nat, s: SgdState, s': SgdState)
    requires StateAfter(a, k, s) == s'
    ensures StateAfter(a, k + 1, s) == NextState(a, k, s')
  {
  }

  lemma FiveAccesses(a: Sgd.SgdAttrs, s: SgdState)
    ensures StateAfter(a, 5, s) == Halfway(a, s)
  {
    var s1 := NextState(a, 0, s);
    var s2 := NextState(a, 1, s1);
    var s3 := NextState(a, 2, s2);
    var s4 := NextState(a, 3, s3);
    OneMore(a, 0, s, s);
    OneMore(a, 1, s, s1);
    OneMore(a, 2, s, s2);
    OneMore(a, 3, s, s3);
    OneMore(a, 4, s, s4);
  }

  /** The eight accesses together are a step. */
  lemma EightAccessesAreAStep(a: Sgd.SgdAttrs, s: SgdState)
    ensures var s' := StateAfter(a, SGD_ACCESSES, s);
      s'.w == Sgd.NextWeight(a, s.g, s.w, s.v) && s'.v == Sgd.NextVelocity(a, s.g, s.w, s.v)
  {
    var s5 := Halfway(a, s);
    FiveAccesses(a, s);
    HalfwayIs(a, s);
    OneMore(a, 5, s, s5);
    var s6 := NextState(a, 5, s5);
    OneMore(a, 6, s, s6);
    OneMore(a, 7, s, NextState(a, 6, s6));
    LastThree(a, s5);
  }

  lemma LastThree(a: Sgd.SgdAttrs, s: SgdState)
    ensures var s' := NextState(a, 7, NextState(a, 6, NextState(a, 5, s)));
      s'.v == s.v && s'.w == Sgd.WeightWith(a, s.w, s.direction, s.v)
  {
    var s7 := NextState(a, 6, NextState(a, 5, s));
    StepInDirection(a, s7.loaded, s7.direction, s.w, s.direction, s.v);
  }

  lemma StepInDirection(a: Sgd.SgdAttrs, loaded: real, step: real, w: real, gt: real, v: real)
    requires loaded == w
    requires step == if a.momentum <= 0.0 then gt else if a.nesterov then gt + a.momentum * v else v
    ensures loaded - a.lr * step == Sgd.WeightWith(a, w, gt, v)
  {
  }

  // ------------------------------------------------------------------- many iterations

  /** The iterations of the first n indices, run one by one. */
  function Loop(program: Program, n: nat, steps: nat, st: Store): Store {
    if n == 0 then st else RunAll(Accesses(program), (), Iteration(n - 1, steps), Loop(program, n - 1, steps, st))
  }

  lemma {:induction false} IterationsAreLoop(program: Program, n: nat, steps: nat, st: Store)
    ensures RunAll(Accesses(program), (), Iterations(n, steps), st) == Loop(program, n, steps, st)
  {
    if n > 0 {
      IterationsAreLoop(program, n - 1, steps, st);
      RunAllAppend(Accesses(program), (), Iterations(n - 1, steps), Iteration(n - 1, steps), st);
    }
  }

  /** Every access writes a cell of its own iteration. */
  ghost predicate WritesItsOwn(program: Program, own: Ptr -> nat) {
    forall x: Access :: own(program(x).target) == x.index
  }

  lemma OtherCellsStay(program: Program, own: Ptr -> nat, i: nat, steps: nat, st: Store, p: Ptr)
    requires WritesItsOwn(program, own) && own(p) != i
    ensures Load(RunAll(Accesses(program), (), Iteration(i, steps), st), p) == Load(st, p)
  {
    forall x | x in Iteration(i, steps) ensures p !in WritesOf(program)(x) {
      assert own(program(x).target) == x.index;
    }
    UntouchedBuffer(Accesses(program), (), Iteration(i, steps), p, st);
  }

  lemma NextIterationKeeps(program: Program, own: Ptr -> nat, n: nat, steps: nat, st: Store, p: Ptr)
    requires WritesItsOwn(program, own) && n > 0 && own(p) != n - 1
    ensures Load(Loop(program, n, steps, st), p) == Load(Loop(program, n - 1, steps, st), p)
  {
    OtherCellsStay(program, own, n - 1, steps, Loop(program, n - 1, steps, st), p);
  }

  lemma {:induction false} LaterCellsStay(program: Program, own: Ptr -> nat, n: nat, steps: nat, st: Store, p: Ptr)
    requires WritesItsOwn(program, own) && n <= own(p)
    ensures Load(Loop(program, n, steps, st), p) == Load(st, p)
  {
    if n > 0 {
      LaterCellsStay(program, own, n - 1, steps, st, p);
      NextIterationKeeps(program, own, n, steps, st, p);
    }
  }

  /** Once iteration i is over, its cells keep their values. */
  lemma {:induction false} EarlierCellsStay(
      program: Program, own: Ptr -> nat, n: nat, steps: nat, st: Store, i: nat, p: Ptr)
    requires WritesItsOwn(program, own) && own(p) == i < n
    ensures Load(Loop(program, n, steps, st), p) == Load(Loop(program, i + 1, steps, st), p)
  {
    if i < n - 1 {
      EarlierCellsStay(program, own, n - 1, steps, st, i, p);
      NextIterationKeeps(program, own, n, steps, st, p);
    }
  }

  /** However the threads interleave, the loops do what their iterations do one by one. */
  lemma FineIsLoop(program: Program, launch: FineLaunch, n: nat, steps: Pos, st: Store)
    requires IterationsApart(program) && launch.Complete(n, steps)
    ensures RunAll(Accesses(program), (), launch.Accesses(n, steps), st) == Loop(program, n, steps, st)
  {
    CompleteLaunchIsFineRun(launch, n, steps);
    InterleavingsAgree(program, launch.Accesses(n, steps), n, steps, st);
    IterationsAreLoop(program, n, steps, st);
  }

  function OwnerOf(p: Ptr): nat {
    p / 5
  }

  lemma SgdOwns(a: Sgd.SgdAttrs)
    ensures WritesItsOwn(SgdProgram(a), OwnerOf)
  {
    forall x: Access ensures OwnerOf(SgdProgram(a)(x).target) == x.index {
      OwnCellsOf(x.index, SgdTarget(a, x.index, x.step));
    }
  }

  /** Index i has taken the step. */
  ghost predicate SteppedAt(a: Sgd.SgdAttrs, st: Store, st': Store, i: nat) {
    && Load(st', WeightCell(i))
       == Sgd.NextWeight(a, Load(st, GradientCell(i)), Load(st, WeightCell(i)), Load(st, VelocityCell(i)))
    && Load(st', VelocityCell(i))
       == Sgd.NextVelocity(a, Load(st, GradientCell(i)), Load(st, WeightCell(i)), Load(st, VelocityCell(i)))
  }

  lemma SgdLoop(a: Sgd.SgdAttrs, n: nat, st: Store, i: nat)
    requires i < n
    ensures SteppedAt(a, st, Loop(SgdProgram(a), n, SGD_ACCESSES, st), i)
  {
    var program := SgdProgram(a);
    var before, after := Loop(program, i, SGD_ACCESSES, st), Loop(program, i + 1, SGD_ACCESSES, st);
    SgdIteration(a, i, before);
    OwnCellsStay(a, n, st, i);
    StepsFrom(a, st, before, after, i);
    StaysStepped(a, st, after, Loop(program, n, SGD_ACCESSES, st), i);
  }

  /** Only its own iteration changes the cells of an index. */
  lemma OwnCellsStay(a: Sgd.SgdAttrs, n: nat, st: Store, i: nat)
    requires i < n
    ensures forall p :: p in OwnCells(i) ==>
      && Load(Loop(SgdProgram(a), i, SGD_ACCESSES, st), p) == Load(st, p)
      && Load(Loop(SgdProgram(a), n, SGD_ACCESSES, st), p) == Load(Loop(SgdProgram(a), i + 1, SGD_ACCESSES, st), p)
  {
    SgdOwns(a);
    forall p | p in OwnCells(i)
      ensures Load(Loop(SgdProgram(a), i, SGD_ACCESSES, st), p) == Load(st, p)
      ensures Load(Loop(SgdProgram(a), n, SGD_ACCESSES, st), p) == Load(Loop(SgdProgram(a), i + 1, SGD_ACCESSES, st), p)
    {
      OwnCellsOf(i, p);
      LaterCellsStay(SgdProgram(a), OwnerOf, i, SGD_ACCESSES, st, p);
      EarlierCellsStay(SgdProgram(a), OwnerOf, n, SGD_ACCESSES, st, i, p);
    }
  }

  lemma StaysStepped(a: Sgd.SgdAttrs, st: Store, st': Store, st'': Store, i: nat)
    requires SteppedAt(a, st, st', i)
    requires Load(st'', WeightCell(i)) == Load(st', WeightCell(i))
    requires Load(st'', VelocityCell(i)) == Load(st', VelocityCell(i))
    ensures SteppedAt(a, st, st'', i)
  {
  }

  lemma StepsFrom(a: Sgd.SgdAttrs, st: Store, st': Store, st'': Store, i: nat)
    requires SteppedAt(a, st', st'', i) && Load(st', WeightCell(i)) == Load(st, WeightCell(i))
    requires Load(st', VelocityCell(i)) == Load(st, VelocityCell(i))
    requires Load(st', GradientCell(i)) == Load(st, GradientCell(i))
    ensures SteppedAt(a, st, st'', i)
  {
  }

  lemma SgdIteration(a: Sgd.SgdAttrs, i: nat, st: Store)
    ensures SteppedAt(a, st, RunAll(Accesses(SgdProgram(a)), (), Iteration(i, SGD_ACCESSES), st), i)
  {
    var s := SgdState(Load(st, WeightCell(i)), Load(st, VelocityCell(i)), Load(st, GradientCell(i)),
      Load(st, DirectionCell(i)), Load(st, LoadedCell(i)));
    SgdReadsWhatItSays(a);
    IterationIsAfter(SgdProgram(a), i, SGD_ACCESSES, st);
    SgdDoesAll(a, i, SGD_ACCESSES, st, s);
    EightAccessesAreAStep(a, s);
  }

  /** The SGD kernel, with threads that interleave between single accesses in any way: when all have
      left their loops, every weight and velocity has taken one step. */
  lemma SgdFinelyInterleaved(a: Sgd.SgdAttrs, launch: FineLaunch, n: nat, st: Store, i: nat)
    requires launch.Complete(n, SGD_ACCESSES) && i < n
    ensures SteppedAt(a, st, RunAll(Accesses(SgdProgram(a)), (), launch.Accesses(n, SGD_ACCESSES), st), i)
  {
    SgdIterationsApart(a);
    FineIsLoop(SgdProgram(a), launch, n, SGD_ACCESSES, st);
    SgdLoop(a, n, st, i);
  }

  // --------------------------------------------------------------- embedding, forward

  /** Iteration i works on its output cell and a register; the table is only read. */
  function OutputCell(i: nat): Ptr { 3 * i }
  function RegisterCell(i: nat): Ptr { 3 * i + 1 }
  function TableCell(q: nat): Ptr { 3 * q + 2 }

  /** Zeroing the output cell, and five accesses for every word. */
  function ForwardAccesses(c: Call): Pos {
    1 + 5 * c.inDim
  }

  predicate IsWord(c: Call, i: nat, j: nat) {
    c.Valid() && i < c.Cells() && j < c.inDim
  }

  /** The five accesses for word j: load the output cell, add the table's, store it, and with
      averaging load it and store it once more, rescaled. Without aggregation the table's cell is
      stored as it is. */
  function WordTarget(c: Call, i: nat, phase: nat): Ptr {
    if phase == 2 || (phase == 4 && c.aggr == AvgAggr) then OutputCell(i) else RegisterCell(i)
  }

  function WordValue(c: Call, i: nat, j: nat, phase: nat, st: Store): real {
    var out, register := Load(st, OutputCell(i)), Load(st, RegisterCell(i));
    if phase == 0 then out
    else if phase == 1 && IsWord(c, i, j) then WithWord(c, register, Load(st, TableCell(c.Target(i, j))))
    else if phase == 3 then Rescaled(c, out, register)
    else register
  }

  datatype WordPhase = WordPhase(word: nat, phase: nat)

  /** Five accesses for word 0, five for word 1, and so on. */
  function Decoded(k: nat): WordPhase {
    if k < 5 then WordPhase(0, k) else WordPhase(Decoded(k - 5).word + 1, Decoded(k - 5).phase)
  }

  function ForwardTarget(c: Call, i: nat, k: nat): Ptr {
    if k == 0 then OutputCell(i) else WordTarget(c, i, Decoded(k - 1).phase)
  }

  function ForwardValue(c: Call, i: nat, k: nat, st: Store): real {
    if k == 0 then 0.0 else WordValue(c, i, Decoded(k - 1).word, Decoded(k - 1).phase, st)
  }

  function Rescaled(c: Call, out: real, register: real): real {
    if c.aggr == AvgAggr && c.inDim > 0 then out * c.Scale() else register
  }

  function WithWord(c: Call, x: real, v: real): real {
    if c.aggr == NoAggr then v else x + v
  }

  function ForwardSources(c: Call, i: nat, k: nat): set<Ptr> {
    {OutputCell(i), RegisterCell(i)}
    + if k > 0 && IsWord(c, i, Decoded(k - 1).word) then {TableCell(c.Target(i, Decoded(k - 1).word))} else {}
  }

  function ForwardProgram(c: Call): Program {
    (x: Access) =>
      Op(ForwardSources(c, x.index, x.step), ForwardTarget(c, x.index, x.step),
        (st: Store) => ForwardValue(c, x.index, x.step, st))
  }

  /** The index that a cell other than the table's belongs to; the table belongs to index n. */
  function ForwardOwner(n: nat): Ptr -> nat {
    (p: Ptr) => if p % 3 == 2 then n else p / 3
  }

  lemma ForwardOwns(c: Call, n: nat)
    ensures WritesItsOwn(ForwardProgram(c), ForwardOwner(n))
  {
  }

  lemma ForwardTargetOf(c: Call, i: nat, k: nat)
    ensures ForwardTarget(c, i, k) / 3 == i && ForwardTarget(c, i, k) % 3 != 2
  {
  }

  lemma ForwardSourceOf(c: Call, i: nat, k: nat, p: Ptr)
    requires p in ForwardSources(c, i, k)
    ensures p % 3 == 2 || p / 3 == i
  {
    if p != OutputCell(i) && p != RegisterCell(i) {
      TableOwner(0, c.Target(i, Decoded(k - 1).word));
    }
  }

  lemma ForwardIterationsApart(c: Call)
    ensures IterationsApart(ForwardProgram(c))
  {
    forall x: Access, y: Access | x.index != y.index
      ensures ForwardTarget(c, x.index, x.step) != ForwardTarget(c, y.index, y.step)
      ensures ForwardTarget(c, x.index, x.step) !in ForwardSources(c, y.index, y.step)
    {
      var p := ForwardTarget(c, x.index, x.step);
      ForwardTargetOf(c, x.index, x.step);
      ForwardTargetOf(c, y.index, y.step);
      if p in ForwardSources(c, y.index, y.step) { ForwardSourceOf(c, y.index, y.step, p); }
    }
  }

  lemma ForwardReadsWhatItSays(c: Call)
    ensures ReadsWhatItSays(ForwardProgram(c))
  {
    forall x: Access, st, st' | Restrict(st, ForwardSources(c, x.index, x.step)) ==
      Restrict(st', ForwardSources(c, x.index, x.step))
      ensures ForwardValue(c, x.index, x.step, st) == ForwardValue(c, x.index, x.step, st')
    {
      forall p | p in ForwardSources(c, x.index, x.step) ensures Load(st, p) == Load(st', p) {
        RestrictedCell(st, st', ForwardSources(c, x.index, x.step), p);
      }
    }
  }

  /** The table in the store is w. */
  ghost predicate HasTable(c: Call, st: Store, w: seq<real>) {
    |w| == c.TableSize() && forall q: nat :: q < c.TableSize() ==> Load(st, TableCell(q)) == Elem(w, q)
  }

  function WordStep(c: Call, i: nat, j: nat, phase: nat, st: Store): Store {
    st[WordTarget(c, i, phase) := [WordValue(c, i, j, phase, st)]]
  }

  /** The values of an iteration's two cells, and of the table's cell that it reads. */
  ghost predicate CellsAre(c: Call, st: Store, i: nat, j: nat, out: real, register: real, v: real)
    requires IsWord(c, i, j)
  {
    && Load(st, OutputCell(i)) == out && Load(st, RegisterCell(i)) == register
    && Load(st, TableCell(c.Target(i, j))) == v
  }

  lemma WordStepDoes(c: Call, i: nat, j: nat, phase: nat, st: Store, out: real, register: real, v: real)
    requires IsWord(c, i, j) && CellsAre(c, st, i, j, out, register, v)
    ensures var x := WordValue(c, i, j, phase, st);
      CellsAre(c, WordStep(c, i, j, phase, st), i, j,
        if WordTarget(c, i, phase) == OutputCell(i) then x else out,
        if WordTarget(c, i, phase) == OutputCell(i) then register else x, v)
  {
    SetCell(st, WordTarget(c, i, phase), WordValue(c, i, j, phase, st));
  }

  function FiveSteps(c: Call, i: nat, j: nat, st: Store): Store {
    WordStep(c, i, j, 4, WordStep(c, i, j, 3, WordStep(c, i, j, 2, WordStep(c, i, j, 1, WordStep(c, i, j, 0, st)))))
  }

  /** The five accesses for a word take it up. */
  lemma FiveStepsTakeWord(c: Call, i: nat, j: nat, st: Store, x: real, v: real)
    requires IsWord(c, i, j) && CellsAre(c, st, i, j, x, Load(st, RegisterCell(i)), v)
    requires (c.aggr == NoAggr ==> x == 0.0)
    ensures Load(FiveSteps(c, i, j, st), OutputCell(i)) == AfterWord(c, x, v)
  {
    var t := WithWord(c, x, v);
    WordStepDoes(c, i, j, 0, st, x, Load(st, RegisterCell(i)), v);
    var s1 := WordStep(c, i, j, 0, st);
    WordStepDoes(c, i, j, 1, s1, x, x, v);
    var s2 := WordStep(c, i, j, 1, s1);
    WordStepDoes(c, i, j, 2, s2, x, t, v);
    var s3 := WordStep(c, i, j, 2, s2);
    WordStepDoes(c, i, j, 3, s3, t, t, v);
    WordStepDoes(c, i, j, 4, WordStep(c, i, j, 3, s3), t, Rescaled(c, t, t), v);
    AfterWordIs(c, x, v);
  }

  lemma {:induction false} PhaseOf(j: nat, r: nat)
    requires r < 5
    ensures Decoded(5 * j + r) == WordPhase(j, r)
  {
    if j > 0 { PhaseOf(j - 1, r); }
  }

  lemma AfterPhase(c: Call, i: nat, j: nat, r: nat, k: nat, st: Store)
    requires r < 5 && k == 1 + 5 * j + r
    ensures After(ForwardProgram(c), i, k + 1, st) == WordStep(c, i, j, r, After(ForwardProgram(c), i, k, st))
  {
    PhaseOf(j, r);
    assert k - 1 == 5 * j + r;
  }

  /** The first r accesses for word j. */
  function WordSteps(c: Call, i: nat, j: nat, r: nat, st: Store): Store {
    if r == 0 then st else WordStep(c, i, j, r - 1, WordSteps(c, i, j, r - 1, st))
  }

  lemma {:induction false} AfterSteps(c: Call, i: nat, j: nat, r: nat, k: nat, st: Store, before: Store)
    requires r <= 5 && k == 1 + 5 * j + r && After(ForwardProgram(c), i, k - r, st) == before
    ensures After(ForwardProgram(c), i, k, st) == WordSteps(c, i, j, r, before)
    decreases r
  {
    if r > 0 {
      AfterSteps(c, i, j, r - 1, k - 1, st, before);
      AfterPhase(c, i, j, r - 1, k - 1, st);
    }
  }

  lemma WordStepsAreFive(c: Call, i: nat, j: nat, st: Store)
    ensures WordSteps(c, i, j, 5, st) == FiveSteps(c, i, j, st)
  {
    assert WordSteps(c, i, j, 1, st) == WordStep(c, i, j, 0, st);
    assert WordSteps(c, i, j, 3, st) == WordStep(c, i, j, 2, WordSteps(c, i, j, 2, st));
    assert WordSteps(c, i, j, 5, st) == WordStep(c, i, j, 4, WordSteps(c, i, j, 4, st));
  }

  lemma TableOwner(n: nat, q: nat)
    ensures ForwardOwner(n)(TableCell(q)) == n
  {
    assert TableCell(q) % 3 == 2;
  }

  /** The accesses of an iteration change no cell of the table. */
  lemma TableStays(c: Call, i: nat, k: nat, st: Store, q: nat)
    ensures Load(After(ForwardProgram(c), i, k, st), TableCell(q)) == Load(st, TableCell(q))
  {
    ForwardReadsWhatItSays(c);
    IterationIsAfter(ForwardProgram(c), i, k, st);
    ForwardOwns(c, i + 1);
    TableOwner(i + 1, q);
    OtherCellsStay(ForwardProgram(c), ForwardOwner(i + 1), i, k, st, TableCell(q));
  }

  lemma AccumulatedNext(c: Call, w: seq<real>, i: nat, j: nat)
    requires IsWord(c, i, j)
    ensures Accumulated(c, w, i, j + 1) == AfterWord(c, Accumulated(c, w, i, j), Elem(w, c.Target(i, j)))
    ensures c.aggr == NoAggr ==> Accumulated(c, w, i, j) == 0.0
  {
    assert c.aggr == NoAggr ==> j == 0;
  }

  lemma AfterWordIs(c: Call, x: real, v: real)
    requires c.inDim > 0 && (c.aggr == NoAggr ==> x == 0.0)
    ensures AfterWord(c, x, v) == Rescaled(c, WithWord(c, x, v), WithWord(c, x, v))
  {
  }

  /** The store after the accesses for j words. */
  function AfterWords(c: Call, i: nat, j: nat, st: Store): Store {
    if j == 0 then st[OutputCell(i) := [0.0]] else WordSteps(c, i, j - 1, 5, AfterWords(c, i, j - 1, st))
  }

  lemma AfterZeroing(c: Call, i: nat, st: Store)
    ensures After(ForwardProgram(c), i, 1, st) == AfterWords(c, i, 0, st)
  {
    assert After(ForwardProgram(c), i, 0, st) == st;
  }

  lemma {:induction false} AfterIsWords(c: Call, i: nat, j: nat, k: nat, st: Store)
    requires k == 1 + 5 * j
    ensures After(ForwardProgram(c), i, k, st) == AfterWords(c, i, j, st)
    decreases j
  {
    if j == 0 {
      AfterZeroing(c, i, st);
    } else {
      AfterIsWords(c, i, j - 1, k - 5, st);
      AfterNextWord(c, i, j, k, st);
    }
  }

  lemma AfterNextWord(c: Call, i: nat, j: nat, k: nat, st: Store)
    requires j > 0 && k == 1 + 5 * j
    requires After(ForwardProgram(c), i, k - 5, st) == AfterWords(c, i, j - 1, st)
    ensures After(ForwardProgram(c), i, k, st) == AfterWords(c, i, j, st)
  {
    AfterSteps(c, i, j - 1, 5, k, st, AfterWords(c, i, j - 1, st));
  }

  lemma WordsKeepTable(c: Call, i: nat, j: nat, st: Store, w: seq<real>)
    requires HasTable(c, st, w)
    ensures HasTable(c, AfterWords(c, i, j, st), w)
  {
    AfterIsWords(c, i, j, 1 + 5 * j, st);
    forall q: nat | q < c.TableSize() ensures Load(AfterWords(c, i, j, st), TableCell(q)) == Elem(w, q) {
      TableStays(c, i, 1 + 5 * j, st, q);
    }
  }

  lemma NextWordIsTaken(c: Call, i: nat, j: nat, st: Store, w: seq<real>)
    requires IsWord(c, i, j) && HasTable(c, st, w) && Load(st, OutputCell(i)) == Accumulated(c, w, i, j)
    ensures Load(WordSteps(c, i, j, 5, st), OutputCell(i)) == Accumulated(c, w, i, j + 1)
  {
    WordStepsAreFive(c, i, j, st);
    AccumulatedNext(c, w, i, j);
    FiveStepsTakeWord(c, i, j, st, Accumulated(c, w, i, j), Elem(w, c.Target(i, j)));
  }

  /** After the accesses for j words, the output cell is what they accumulate to. */
  lemma {:induction false} WordsAreTaken(c: Call, i: nat, j: nat, st: Store, w: seq<real>)
    requires c.Valid() && i < c.Cells() && j <= c.inDim && HasTable(c, st, w)
    ensures Load(AfterWords(c, i, j, st), OutputCell(i)) == Accumulated(c, w, i, j)
  {
    if j > 0 {
      WordsAreTaken(c, i, j - 1, st, w);
      WordsKeepTable(c, i, j - 1, st, w);
      NextWordIsTaken(c, i, j - 1, AfterWords(c, i, j - 1, st), w);
    }
  }

  /** The forward kernel, with threads that interleave between single accesses in any way: when all
      have left their loops, every output cell is what its words accumulate to. */
  lemma ForwardFinelyInterleaved(c: Call, launch: FineLaunch, st: Store, w: seq<real>, i: nat)
    requires c.Valid() && launch.Complete(c.Cells(), ForwardAccesses(c)) && HasTable(c, st, w) && i < c.Cells()
    ensures Load(RunAll(Accesses(ForwardProgram(c)), (), launch.Accesses(c.Cells(), ForwardAccesses(c)), st),
      OutputCell(i))
         == ForwardOutput(c, w)[i]
  {
    ForwardIterationsApart(c);
    FineIsLoop(ForwardProgram(c), launch, c.Cells(), ForwardAccesses(c), st);
    ForwardLoop(c, st, w, i);
  }

  lemma ForwardLoop(c: Call, st: Store, w: seq<real>, i: nat)
    requires c.Valid() && HasTable(c, st, w) && i < c.Cells()
    ensures Load(Loop(ForwardProgram(c), c.Cells(), ForwardAccesses(c), st), OutputCell(i)) ==
      Accumulated(c, w, i, c.inDim)
  {
    ForwardOwns(c, c.Cells());
    EarlierCellsStay(ForwardProgram(c), ForwardOwner(c.Cells()), c.Cells(), ForwardAccesses(c), st, i, OutputCell(i));
    ForwardIteration(c, st, w, i);
  }

  lemma ForwardIteration(c: Call, st: Store, w: seq<real>, i: nat)
    requires c.Valid() && HasTable(c, st, w) && i < c.Cells()
    ensures Load(Loop(ForwardProgram(c), i + 1, ForwardAccesses(c), st), OutputCell(i)) == Accumulated(c, w, i, c.inDim)
  {
    var program, steps := ForwardProgram(c), ForwardAccesses(c);
    var before := Loop(program, i, steps, st);
    TableIsKept(c, st, w, i);
    ForwardReadsWhatItSays(c);
    IterationIsAfter(program, i, steps, before);
    AfterIsWords(c, i, c.inDim, steps, before);
    WordsAreTaken(c, i, c.inDim, before, w);
  }

  lemma TableIsKept(c: Call, st: Store, w: seq<real>, i: nat)
    requires HasTable(c, st, w)
    ensures HasTable(c, Loop(ForwardProgram(c), i, ForwardAccesses(c), st), w)
  {
    ForwardOwns(c, i);
    forall q: nat | q < c.TableSize()
      ensures Load(Loop(ForwardProgram(c), i, ForwardAccesses(c), st), TableCell(q)) == Elem(w, q)
    {
      TableOwner(i, q);
      LaterCellsStay(ForwardProgram(c), ForwardOwner(i), i, ForwardAccesses(c), st, TableCell(q));
    }
  }
}
