/** GPU loops whose threads interleave between single memory accesses: when no iteration touches
    what another writes, every interleaving does what running whole iterations one by one does. */
module Interleavings {
  import opened Sequences
  import opened Digraphs
  import opened Scheduling
  import opened TensorIndex
  import opened GridStride

  /** One memory access: step `step` of the iteration for index `index`. */
  datatype Access = Access(index: nat, step: nat)

  // ------------------------------------------------------------------ launches, finely

  /** A launch whose turns are single accesses; every iteration makes `steps` of them. */
  datatype FineLaunch = FineLaunch(blockDim: Pos, gridDim: Pos, turns: seq<nat>)
  {
    function Threads(): Pos {
      assert blockDim * gridDim > 0;
      blockDim * gridDim
    }

    /** All threads have left their loops over the indices below n. */
    predicate Complete(n: nat, steps: Pos) {
      var p := RunAccesses(Threads(), steps, turns, n);
      forall t :: 0 <= t < |p.count| ==> IndexAt(Threads(), steps, t, p.count[t]) >= n
    }

    /** The accesses in the order in which the threads have made them. */
    function Accesses(n: nat, steps: Pos): seq<Access> {
      RunAccesses(Threads(), steps, turns, n).taken
    }
  }

  lemma AsManyThreads(launch: FineLaunch)
    ensures launch.Threads() == Launch(launch.blockDim, launch.gridDim, []).Threads()
  {
  }

  /** `count[t]` is the number of accesses that thread t has made. */
  datatype FineProgress = FineProgress(count: seq<nat>, taken: seq<Access>)

  /** The index that thread t is at after m accesses. */
  function IndexAt(threads: Pos, steps: Pos, t: nat, m: nat): nat {
    m / steps * threads + t
  }

  function MakeAccess(p: FineProgress, threads: Pos, steps: Pos, t: nat, n: nat): FineProgress {
    if t < |p.count| && IndexAt(threads, steps, t, p.count[t]) < n
    then
      FineProgress(
        p.count[t := p.count[t] + 1], p.taken + [Access(IndexAt(threads, steps, t, p.count[t]), p.count[t] % steps)])
    else p
  }

  function RunAccesses(threads: Pos, steps: Pos, turns: seq<nat>, n: nat): FineProgress
    decreases |turns|
  {
    if turns == [] then FineProgress(seq(threads, t requires 0 <= t < threads => 0), [])
    else MakeAccess(RunAccesses(threads, steps, turns[..|turns| - 1], n), threads, steps, turns[|turns| - 1], n)
  }

  /** How many accesses its thread makes before this one. */
  function RankOfAccess(threads: Pos, steps: Pos, x: Access): nat {
    x.index / threads * steps + x.step
  }

  ghost predicate Made(p: FineProgress, threads: Pos, steps: Pos, n: nat, x: Access)
    requires |p.count| == threads
  {
    && x.index < n && x.step < steps && x.index % threads < threads
    && RankOfAccess(threads, steps, x) < p.count[x.index % threads]
  }

  /** Accesses of one iteration are in the order of its steps. */
  ghost predicate InProgramOrder(taken: seq<Access>) {
    forall j, k :: 0 <= j < k < |taken| && taken[j].index == taken[k].index ==> taken[j].step < taken[k].step
  }

  /** What every access keeps: exactly the accesses that the threads have passed are taken, each
      iteration's in order. */
  ghost predicate MadeSoFar(p: FineProgress, threads: Pos, steps: Pos, n: nat) {
    && |p.count| == threads && (forall x :: x in p.taken <==> Made(p, threads, steps, n, x))
    && InProgramOrder(p.taken)
  }

  /** The m-th access of thread t. */
  lemma AccessOf(threads: Pos, steps: Pos, t: nat, m: nat)
    requires t < threads
    ensures var x := Access(IndexAt(threads, steps, t, m), m % steps);
      x.step < steps && x.index % threads == t && x.index / threads == m / steps && RankOfAccess(threads, steps, x) == m
  {
    DivModOf(m / steps, t, threads);
    DivModBack(m, steps);
  }

  /** An access is determined by its thread and its rank. */
  lemma SameRank(threads: Pos, steps: Pos, x: Access, y: Access)
    requires x.step < steps && y.step < steps && x.index % threads == y.index % threads
    requires RankOfAccess(threads, steps, x) == RankOfAccess(threads, steps, y)
    ensures x == y
  {
    DivModOf(x.index / threads, x.step, steps);
    DivModOf(y.index / threads, y.step, steps);
    DivModBack(x.index, threads);
    DivModBack(y.index, threads);
  }

  lemma AccessKeepsMade(p: FineProgress, threads: Pos, steps: Pos, t: nat, n: nat)
    requires MadeSoFar(p, threads, steps, n)
    ensures MadeSoFar(MakeAccess(p, threads, steps, t, n), threads, steps, n)
  {
    if t < |p.count| && IndexAt(threads, steps, t, p.count[t]) < n {
      var m, q := p.count[t], MakeAccess(p, threads, steps, t, n);
      var x := Access(IndexAt(threads, steps, t, m), m % steps);
      AccessOf(threads, steps, t, m);
      forall y ensures y in q.taken <==> Made(q, threads, steps, n, y) {
        if y.step < steps && y.index % threads == t && RankOfAccess(threads, steps, y) == m {
          SameRank(threads, steps, x, y);
        }
      }
      forall j | 0 <= j < |p.taken| && p.taken[j].index == x.index ensures p.taken[j].step < x.step {
        assert p.taken[j] in p.taken;
      }
    }
  }

  lemma {:induction false} RunKeepsMade(threads: Pos, steps: Pos, turns: seq<nat>, n: nat)
    ensures MadeSoFar(RunAccesses(threads, steps, turns, n), threads, steps, n)
    decreases |turns|
  {
    if turns != [] {
      RunKeepsMade(threads, steps, turns[..|turns| - 1], n);
      AccessKeepsMade(RunAccesses(threads, steps, turns[..|turns| - 1], n), threads, steps, turns[|turns| - 1], n);
    }
  }

  /** Every access of the loops is made once, and each iteration's accesses in order. */
  ghost predicate FineRun(fine: seq<Access>, n: nat, steps: nat) {
    && (forall x :: x in fine <==> x.index < n && x.step < steps)
    && InProgramOrder(fine)
  }

  /** All threads have left their loops exactly when every access has been made. */
  lemma CompleteExactly(launch: FineLaunch, n: nat, steps: Pos)
    ensures launch.Complete(n, steps) <==>
      forall x: Access :: x.index < n && x.step < steps ==> x in launch.Accesses(n, steps)
  {
    var threads := launch.Threads();
    var p := RunAccesses(threads, steps, launch.turns, n);
    RunKeepsMade(threads, steps, launch.turns, n);
    if launch.Complete(n, steps) {
      CompleteLaunchIsFineRun(launch, n, steps);
    } else {
      var t: nat :| t < |p.count| && IndexAt(threads, steps, t, p.count[t]) < n;
      AccessOf(threads, steps, t, p.count[t]);
      var x := Access(IndexAt(threads, steps, t, p.count[t]), p.count[t] % steps);
      assert x.index < n && x.step < steps && !Made(p, threads, steps, n, x);
    }
  }

  /** However the threads interleave between accesses: once all have left their loops, they have
      made every access once, and each iteration's accesses in order. */
  lemma CompleteLaunchIsFineRun(launch: FineLaunch, n: nat, steps: Pos)
    requires launch.Complete(n, steps)
    ensures FineRun(launch.Accesses(n, steps), n, steps)
  {
    var threads := launch.Threads();
    RunKeepsMade(threads, steps, launch.turns, n);
    var p := RunAccesses(threads, steps, launch.turns, n);
    forall x: Access | x.index < n && x.step < steps ensures x in p.taken {
      LeftBehind(p, threads, steps, n, x);
    }
  }

  lemma LeftBehind(p: FineProgress, threads: Pos, steps: Pos, n: nat, x: Access)
    requires |p.count| == threads && x.index < n && x.step < steps
    requires forall t :: 0 <= t < |p.count| ==> IndexAt(threads, steps, t, p.count[t]) >= n
    ensures Made(p, threads, steps, n, x)
  {
    DivModBack(x.index, threads);
    var t, a := x.index % threads, x.index / threads;
    var m := p.count[t];
    assert IndexAt(threads, steps, t, m) > x.index;
    assert a * threads < m / steps * threads;
    SmallerFactor(a, m / steps, threads);
    DivModBack(m, steps);
    MulBound(a, x.step, steps, m / steps);
  }

  // ------------------------------------------------------------------ loop programs

  /** An access computes one cell from the cells it reads; a register is a cell as well. */
  datatype Op = Op(sources: set<Ptr>, target: Ptr, value: Store -> real)

  type Program = Access -> Op

  function WritesOf(program: Program): Access -> set<Ptr> {
    (x: Access) => {program(x).target}
  }

  function ReadsOf(program: Program): Access -> set<Ptr> {
    (x: Access) => program(x).sources
  }

  function Accesses(program: Program): Tasks<Access, ()> {
    Tasks(ReadsOf(program), WritesOf(program), (x: Access, u: (), st: Store) => Effect(program, x, st))
  }

  function Effect(program: Program, x: Access, st: Store): Store {
    map[program(x).target := [program(x).value(st)]]
  }

  /** Iterations for different indices do not touch what the other writes. */
  ghost predicate IterationsApart(program: Program) {
    forall x: Access, y: Access :: x.index != y.index ==>
      program(x).target != program(y).target && program(x).target !in program(y).sources
  }

  lemma ApartAccessesDoNotInterfere(program: Program, x: Access, y: Access)
    requires IterationsApart(program) && x.index != y.index
    ensures !Interferes(Accesses(program), x, y)
  {
    assert WritesOf(program)(x) * WritesOf(program)(y) == {};
    assert WritesOf(program)(x) * ReadsOf(program)(y) == {} && WritesOf(program)(y) * ReadsOf(program)(x) == {};
  }

  /** The accesses of whole iterations, one after the other, for the indices below n. */
  function Iterations(n: nat, steps: nat): seq<Access> {
    if n == 0 then [] else Iterations(n - 1, steps) + Iteration(n - 1, steps)
  }

  function Iteration(index: nat, steps: nat): (r: seq<Access>)
    ensures |r| == steps && forall k :: 0 <= k < steps ==> r[k] == Access(index, k)
  {
    seq(steps, k requires 0 <= k < steps => Access(index, k))
  }

  lemma {:induction false} IterationsAreFine(n: nat, steps: nat)
    ensures FineRun(Iterations(n, steps), n, steps)
    ensures forall j, k :: 0 <= j < k < |Iterations(n, steps)| ==>
      Iterations(n, steps)[j].index <= Iterations(n, steps)[k].index
  {
    if n > 0 {
      IterationsAreFine(n - 1, steps);
      var before, last := Iterations(n - 1, steps), Iteration(n - 1, steps);
      forall x: Access ensures x in before + last <==> x.index < n && x.step < steps {
        if x.index == n - 1 && x.step < steps { assert last[x.step] == x; }
      }
      forall j | 0 <= j < |before| ensures before[j].index < n - 1 { assert before[j] in before; }
    }
  }

  lemma ProgramOrderHasNoDuplicates(taken: seq<Access>)
    requires InProgramOrder(taken)
    ensures NoDuplicates(taken)
  {
  }

  lemma SameIterationSameOrder(o1: seq<Access>, o2: seq<Access>, x: Access, y: Access)
    requires InProgramOrder(o1) && InProgramOrder(o2) && Before(o1, x, y) && x.index == y.index && x in o2 && y in o2
    ensures Before(o2, x, y)
  {
    var i, j :| 0 <= i < j < |o1| && o1[i] == x && o1[j] == y;
    var k :| 0 <= k < |o2| && o2[k] == x;
    var l :| 0 <= l < |o2| && o2[l] == y;
  }

  /** However the accesses interleave, the loops do what running their iterations one by one does. */
  lemma InterleavingsAgree(program: Program, fine: seq<Access>, n: nat, steps: nat, st: Store)
    requires IterationsApart(program) && FineRun(fine, n, steps)
    ensures RunAll(Accesses(program), (), fine, st) == RunAll(Accesses(program), (), Iterations(n, steps), st)
  {
    var t, coarse := Accesses(program), Iterations(n, steps);
    IterationsAreFine(n, steps);
    ProgramOrderHasNoDuplicates(fine);
    ProgramOrderHasNoDuplicates(coarse);
    forall x, y | Before(fine, x, y) && Interferes(t, x, y) ensures Before(coarse, x, y) {
      if x.index != y.index { ApartAccessesDoNotInterfere(program, x, y); }
      assert x in fine && y in fine;
      SameIterationSameOrder(fine, coarse, x, y);
    }
    SameRuns(t, (), fine, coarse, st);
  }

  // ------------------------------------------------------ what whole iterations leave behind

  function Load(st: Store, p: Ptr): real {
    if p in st && |st[p]| == 1 then st[p][0] else 0.0
  }

  /** The value of a cell depends on the cells that the access says it reads. */
  ghost predicate ReadsOnly(op: Op) {
    forall st, st' :: Restrict(st, op.sources) == Restrict(st', op.sources) ==> op.value(st) == op.value(st')
  }

  lemma AccessSets(program: Program, x: Access, st: Store)
    requires ReadsOnly(program(x))
    ensures RunTask(Accesses(program), (), x, st) == st[program(x).target := [program(x).value(st)]]
  {
    var op := program(x);
    assert Restrict(Restrict(st, op.sources), op.sources) == Restrict(st, op.sources);
    var result := map[op.target := [op.value(Restrict(st, op.sources))]];
    assert Restrict(result, {op.target}) == result;
  }
}
