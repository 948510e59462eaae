/** Grid-stride loops: how a launch of any shape covers an index range. */
module GridStride {
  import opened Sequences
  import opened TensorIndex

  const CUDA_NUM_THREADS := 1024
  const BLOCK_SIZE_LIMIT := 32768
  const INT_MAX := 0x7fff_ffff

  /** The indices one thread visits: from its own position, in steps of the whole grid. */
  ghost function Visits(i: nat, stride: Pos, n: nat): seq<nat>
    decreases if i < n then n - i else 0
  {
    if i >= n then [] else [i] + Visits(i + stride, stride, n)
  }

  /** A thread visits, in increasing order, the indices that lie whole grids away from its own
      position. */
  method KernelLoop(blockIdx: nat, threadIdx: nat, blockDim: Pos, gridDim: Pos, n: nat) returns (visited: seq<nat>)
    ensures blockDim * gridDim > 0
    ensures visited == Visits(ThreadId(blockIdx, threadIdx, blockDim), blockDim * gridDim, n)
    ensures forall i: nat :: i in visited <==>
      && blockIdx * blockDim + threadIdx <= i < n
      && (i - (blockIdx * blockDim + threadIdx)) % (blockDim * gridDim) == 0
    ensures forall j, k :: 0 <= j < k < |visited| ==> visited[j] < visited[k]
  {
    var i: nat := ThreadId(blockIdx, threadIdx, blockDim);
    var stride: Pos := blockDim * gridDim;
    ghost var all := Visits(i, stride, n);
    visited := [];
    while i < n
      invariant all == visited + Visits(i, stride, n)
      decreases n - i
    {
      visited := visited + [i];
      i := i + stride;
    }
    ghost var t := ThreadId(blockIdx, threadIdx, blockDim);
    forall k: nat ensures k in visited <==> t <= k < n && (k - t) % stride == 0 {
      VisitsExactly(t, stride, n, k);
    }
    VisitsIncrease(t, stride, n);
  }

  function ThreadId(blockIdx: nat, threadIdx: nat, blockDim: Pos): (t: nat)
  {
    assert blockIdx * blockDim >= 0;
    blockIdx * blockDim + threadIdx
  }

  lemma {:induction false} VisitsExactly(t: nat, stride: Pos, n: nat, i: nat)
    ensures i in Visits(t, stride, n) <==> t <= i < n && (i - t) % stride == 0
    decreases if t < n then n - t else 0
  {
    if t < n {
      VisitsExactly(t + stride, stride, n, i);
      assert Visits(t, stride, n) == [t] + Visits(t + stride, stride, n);
      if i >= t + stride {
        StepBack(i - t, stride);
      } else if t <= i {
        SmallRemainder(i - t, stride);
      }
    }
  }

  lemma StepBack(x: nat, d: Pos)
    requires x >= d
    ensures (x - d) % d == x % d
  {
    DivModBack(x, d);
    var q, r := x / d, x % d;
    assert q == 0 ==> x == r;
    assert x - d == (q - 1) * d + r;
    DivModOf(q - 1, r, d);
  }

  lemma SmallRemainder(x: nat, d: Pos)
    requires x < d
    ensures x % d == x && x / d == 0
  {
    DivModOf(0, x, d);
  }

  /** No thread visits an index twice: its visits increase. */
  lemma {:induction false} VisitsIncrease(t: nat, stride: Pos, n: nat)
    ensures forall j, k :: 0 <= j < k < |Visits(t, stride, n)| ==> Visits(t, stride, n)[j] < Visits(t, stride, n)[k]
    decreases if t < n then n - t else 0
  {
    if t < n {
      VisitsIncrease(t + stride, stride, n);
      var rest := Visits(t + stride, stride, n);
      var all := Visits(t, stride, n);
      assert all == [t] + rest;
      forall j, k | 0 <= j < k < |all| ensures all[j] < all[k] {
        assert all[k] == rest[k - 1] && all[k] in rest;
        VisitsExactly(t + stride, stride, n, all[k]);
      }
    }
  }

  /** Every index is visited by exactly one thread of the grid. */
  lemma ThreadsPartition(blockDim: Pos, gridDim: Pos, n: nat, i: nat)
    requires i < n
    ensures blockDim * gridDim > 0
    ensures exists b: nat, x: nat ::
      b < gridDim && x < blockDim && i in Visits(ThreadId(b, x, blockDim), blockDim * gridDim, n)
    ensures forall b: nat, x: nat, b': nat, x': nat ::
      b < gridDim && x < blockDim && i in Visits(ThreadId(b, x, blockDim), blockDim * gridDim, n)
      && b' < gridDim && x' < blockDim && i in Visits(ThreadId(b', x', blockDim), blockDim * gridDim, n)
      ==> b == b' && x == x'
  {
    var stride: Pos := blockDim * gridDim;
    var t := i % stride;
    DivModBack(i, stride);
    var b, x := t / blockDim, t % blockDim;
    DivModBack(t, blockDim);
    QuotientBound(t, blockDim, gridDim);
    assert ThreadId(b, x, blockDim) == t;
    assert i - t == (i / stride) * stride + 0;
    DivModOf(i / stride, 0, stride);
    VisitsExactly(t, stride, n, i);
    forall b: nat, x: nat | b < gridDim && x < blockDim && i in Visits(ThreadId(b, x, blockDim), stride, n)
      ensures b == t / blockDim && x == t % blockDim
    {
      OwnerIs(blockDim, gridDim, n, i, b, x);
    }
  }

  lemma OwnerIs(blockDim: Pos, gridDim: Pos, n: nat, i: nat, b: nat, x: nat)
    requires b < gridDim && x < blockDim && blockDim * gridDim > 0
    requires i in Visits(ThreadId(b, x, blockDim), blockDim * gridDim, n)
    ensures b == i % (blockDim * gridDim) / blockDim && x == i % (blockDim * gridDim) % blockDim
  {
    var stride: Pos := blockDim * gridDim;
    var t := ThreadId(b, x, blockDim);
    VisitsExactly(t, stride, n, i);
    MulBound(b, x, blockDim, gridDim);
    DivModBack(i - t, stride);
    var q := (i - t) / stride;
    assert i == q * stride + t;
    DivModOf(q, t, stride);
    DivModOf(b, x, blockDim);
  }

  /** An order in which every index below n is taken exactly once. */
  ghost predicate EachOnce(order: seq<nat>, n: nat) {
    && (forall i: nat :: i in order <==> i < n)
    && (forall j, k :: 0 <= j < k < |order| ==> order[j] != order[k])
  }

  // ------------------------------------------------------------------ interleavings

  /** A launch whose threads take turns in the order of `turns`, which is arbitrary. Thread b, x
      has the number ThreadId(b, x, blockDim). A turn is one iteration of the thread's loop. */
  datatype Launch = Launch(blockDim: Pos, gridDim: Pos, turns: seq<nat>)
  {
    function Threads(): Pos {
      assert blockDim * gridDim > 0;
      blockDim * gridDim
    }

    /** All threads have left their loops over the indices below n. */
    predicate Complete(n: nat) {
      var p := RunTurns(Threads(), turns, n);
      forall t :: 0 <= t < |p.pos| ==> p.pos[t] >= n
    }

    /** The indices in the order in which the threads have taken them. */
    function Indices(n: nat): seq<nat> {
      RunTurns(Threads(), turns, n).taken
    }
  }

  /** Every thread of every block has one number below the number of threads, and no other thread has it. */
  lemma ThreadNumbers(launch: Launch, t: nat)
    ensures forall b: nat, x: nat :: b < launch.gridDim && x < launch.blockDim ==>
      && ThreadId(b, x, launch.blockDim) < launch.Threads()
      && (ThreadId(b, x, launch.blockDim) == t ==> b == t / launch.blockDim && x == t % launch.blockDim)
    ensures t < launch.Threads() ==>
      var b: nat, x: nat := t / launch.blockDim, t % launch.blockDim;
      b < launch.gridDim && x < launch.blockDim && ThreadId(b, x, launch.blockDim) == t
  {
    forall b: nat, x: nat | b < launch.gridDim && x < launch.blockDim
      ensures ThreadId(b, x, launch.blockDim) < launch.Threads()
      ensures ThreadId(b, x, launch.blockDim) == t ==> b == t / launch.blockDim && x == t % launch.blockDim
    {
      MulBound(b, x, launch.blockDim, launch.gridDim);
      DivModOf(b, x, launch.blockDim);
    }
    if t < launch.Threads() {
      DivModBack(t, launch.blockDim);
      QuotientBound(t, launch.blockDim, launch.gridDim);
    }
  }

  /** `pos[t]` is the value of thread t's loop variable. */
  datatype Progress = Progress(pos: seq<nat>, taken: seq<nat>)

  /** A turn of a thread that has left its loop, or of no thread at all, changes nothing. */
  function TakeTurn(p: Progress, threads: Pos, t: nat, n: nat): Progress {
    if t < |p.pos| && p.pos[t] < n
    then Progress(p.pos[t := p.pos[t] + threads], p.taken + [p.pos[t]])
    else p
  }

  function RunTurns(threads: Pos, turns: seq<nat>, n: nat): Progress
    decreases |turns|
  {
    if turns == [] then Progress(seq(threads, t requires 0 <= t < threads => t), [])
    else TakeTurn(RunTurns(threads, turns[..|turns| - 1], n), threads, turns[|turns| - 1], n)
  }

  /** What every turn keeps: each thread stays in its residue class, and exactly the indices that
      it has passed are taken, each once. */
  ghost predicate Passed(p: Progress, threads: Pos, n: nat) {
    && |p.pos| == threads && (forall t :: 0 <= t < threads ==> p.pos[t] % threads == t)
    && (forall i: nat :: i in p.taken <==> i < n && PassedBy(p, threads, i))
    && NoDuplicates(p.taken)
  }

  predicate PassedBy(p: Progress, threads: Pos, i: nat) {
    i % threads < |p.pos| && i < p.pos[i % threads]
  }

  lemma SameClass(i: nat, j: nat, d: Pos)
    requires i % d == j % d && i < j
    ensures i + d <= j
  {
    DivModBack(i, d);
    DivModBack(j, d);
    SmallerFactor(i / d, j / d, d);
    MulBound(i / d, d as int - 1, d, j / d);
  }

  lemma TurnKeepsPassed(p: Progress, threads: Pos, t: nat, n: nat)
    requires Passed(p, threads, n)
    ensures Passed(TakeTurn(p, threads, t, n), threads, n)
  {
    if t < |p.pos| && p.pos[t] < n {
      var q, x := TakeTurn(p, threads, t, n), p.pos[t];
      StepBack(x + threads, threads);
      forall i: nat ensures PassedBy(q, threads, i) <==> PassedBy(p, threads, i) || i == x {
        if i % threads == t {
          if x < i { SameClass(x, i, threads); }
        }
      }
      assert !PassedBy(p, threads, x);
    }
  }

  lemma {:induction false} RunKeepsPassed(threads: Pos, turns: seq<nat>, n: nat)
    ensures Passed(RunTurns(threads, turns, n), threads, n)
    decreases |turns|
  {
    if turns == [] {
      var p := RunTurns(threads, turns, n);
      forall t: nat | t < threads ensures p.pos[t] % threads == t {
        SmallRemainder(t, threads);
      }
      forall i: nat ensures !PassedBy(p, threads, i) {
        DivModBack(i, threads);
      }
    } else {
      RunKeepsPassed(threads, turns[..|turns| - 1], n);
      TurnKeepsPassed(RunTurns(threads, turns[..|turns| - 1], n), threads, turns[|turns| - 1], n);
    }
  }

  /** However many threads there are and however they take turns: once all have left their loops,
      every index below n has been taken exactly once. */
  lemma CompleteLaunchTakesEachOnce(launch: Launch, n: nat)
    requires launch.Complete(n)
    ensures EachOnce(launch.Indices(n), n)
  {
    var threads := launch.Threads();
    RunKeepsPassed(threads, launch.turns, n);
    var p := RunTurns(threads, launch.turns, n);
    forall i: nat | i < n ensures PassedBy(p, threads, i) {
      DivModBack(i, threads);
      assert p.pos[i % threads] >= n;
    }
  }

  lemma {:induction false} AtMost(s: seq<nat>, n: nat)
    requires NoDuplicates(s) && forall i: nat :: i in s ==> i < n
    ensures |s| <= n
    decreases n
  {
    if n == 0 {
      EmptyOrNot(s);
    } else if n - 1 in s {
      var k :| 0 <= k < |s| && s[k] == n - 1;
      WithoutOne(s, k);
      AtMost(Without(s, k), n - 1);
    } else {
      AtMost(s, n - 1);
    }
  }

  lemma WithoutOne(s: seq<nat>, k: nat)
    requires NoDuplicates(s) && k < |s|
    ensures NoDuplicates(Without(s, k)) && forall i: nat :: i in Without(s, k) ==> i in s && i != s[k]
  {
  }

  /** Whatever turns have been taken, giving more turns to threads that are still in their loops
      completes the launch. */
  lemma EveryLaunchCompletes(launch: Launch, n: nat) returns (complete: Launch)
    ensures complete.Complete(n) && launch.turns <= complete.turns
    ensures complete.blockDim == launch.blockDim && complete.gridDim == launch.gridDim
    decreases n as int - |launch.Indices(n)|
  {
    var threads := launch.Threads();
    RunKeepsPassed(threads, launch.turns, n);
    AtMost(launch.Indices(n), n);
    if launch.Complete(n) {
      complete := launch;
    } else {
      var t :| 0 <= t < threads && RunTurns(threads, launch.turns, n).pos[t] < n;
      var next := launch.(turns := launch.turns + [t]);
      assert next.turns[..|next.turns| - 1] == launch.turns;
      assert next.Threads() == threads;
      RunKeepsPassed(threads, next.turns, n);
      AtMost(next.Indices(n), n);
      complete := EveryLaunchCompletes(next, n);
    }
  }

  predicate IsBelow(i: nat, n: nat) {
    i < n
  }

  function Below(n: nat): set<nat> {
    set i: nat | i < n && IsBelow(i, n)
  }

  function Taken(order: seq<nat>, k: nat): set<nat>
    requires k <= |order|
  {
    set j | 0 <= j < k :: order[j]
  }

  lemma TakeNext(order: seq<nat>, n: nat, k: nat)
    requires EachOnce(order, n) && k < |order|
    ensures order[k] < n && order[k] !in Taken(order, k) && Taken(order, k + 1) == Taken(order, k) + {order[k]}
  {
    assert order[k] in order;
  }

  lemma AllTaken(order: seq<nat>, n: nat)
    requires EachOnce(order, n)
    ensures Taken(order, |order|) == Below(n)
  {
    forall i: nat | i in Below(n) ensures i in Taken(order, |order|) {
      assert i in order;
    }
    forall i | i in Taken(order, |order|) ensures i in Below(n) {
      assert i in order && IsBelow(i, n);
    }
  }

  // ------------------------------------------------------------------ launch size

  /** The number of blocks for N indices; the sum N + 1023 is taken in a 32-bit int. */
  function GetBlocks(N: nat): int {
    var ret := (N + CUDA_NUM_THREADS - 1) / CUDA_NUM_THREADS;
    if ret > BLOCK_SIZE_LIMIT then BLOCK_SIZE_LIMIT else ret
  }

  predicate GetBlocksFits(N: nat) {
    N + CUDA_NUM_THREADS - 1 <= INT_MAX
  }

  /** The launch never exceeds the limit; one stride of it covers all N indices exactly when N
      is at most 2^25; it wastes no whole block; and its arithmetic stays in range exactly up
      to 2^31 - 1024. */
  lemma GetBlocksCovers(N: nat)
    ensures 0 <= GetBlocks(N) <= BLOCK_SIZE_LIMIT
    ensures GetBlocks(N) * CUDA_NUM_THREADS >= N <==> N <= BLOCK_SIZE_LIMIT * CUDA_NUM_THREADS
    ensures N > 0 ==> GetBlocks(N) >= 1 && (GetBlocks(N) - 1) * CUDA_NUM_THREADS < N
    ensures GetBlocksFits(N) <==> N <= 0x8000_0000 - 1024
  {
  }
}
