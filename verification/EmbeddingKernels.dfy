/** The embedding kernels, with and without aggregation. The backward kernel is a set of
    threads that add atomically into shared rows; its results are proved for every launch
    size and for every interleaving of the threads. */
module EmbeddingKernels {
  import opened Sums
  import opened TensorIndex
  import opened Matrices
  import opened TensorKernels
  import opened GridStride

  /** NoAggr is the kernel without aggregation: one word per output row. */
  datatype Aggr = NoAggr | SumAggr | AvgAggr

  /** One call: `input` holds inDim words for each of `batch` rows of outDim values, taken
      from a table of `entries` rows. */
  datatype Call = Call(aggr: Aggr, input: seq<nat>, batch: nat, inDim: nat, outDim: Pos, entries: nat)
  {
    predicate Valid() {
      && batch * inDim == |input|
      && (forall k :: 0 <= k < |input| ==> input[k] < entries)
      && (aggr == NoAggr ==> inDim == 1)
    }

    /** The number of output cells. */
    function Cells(): nat {
      assert batch * outDim >= 0;
      batch * outDim
    }

    /** The number of table cells. */
    function TableSize(): nat {
      assert entries * outDim >= 0;
      entries * outDim
    }

    /** The table cell that word j of output cell i reads, or adds to. */
    function Target(i: nat, j: nat): nat
      requires Valid() && i < Cells() && j < inDim
      ensures Target(i, j) < TableSize()
    {
      WordInRange(i, j);
      var word := input[i / outDim * inDim + j];
      MulBound(word, i % outDim, outDim, entries);
      assert word * outDim >= 0;
      word * outDim + i % outDim
    }

    lemma WordInRange(i: nat, j: nat)
      requires Valid() && i < Cells() && j < inDim
      ensures 0 <= i / outDim * inDim + j < |input|
    {
      QuotientBound(i, outDim, batch);
      MulBound(i / outDim, j, inDim, batch);
    }

    function Scale(): real
      requires inDim > 0
    {
      1.0 / inDim as real
    }

    /** The number of single additions of a backward call. */
    function Adds(): nat {
      assert Cells() * inDim >= 0;
      Cells() * inDim
    }

    /** Addition k is word k % inDim of output cell k / inDim. */
    function Phi(): nat -> nat
      requires Valid()
    {
      (k: nat) =>
        if k < Adds() then
          AddInRange(k);
          Target(k / inDim, k % inDim)
        else 0
    }

    lemma AddInRange(k: nat)
      requires k < Adds()
      ensures inDim > 0 && k / inDim < Cells() && k % inDim < inDim
    {
      assert inDim == 0 ==> Cells() * inDim == 0;
      QuotientBound(k, inDim, Cells());
    }

    /** What one addition adds, for the given output gradient. */
    function Value(grad: seq<real>): nat -> real {
      (k: nat) =>
        if inDim == 0 then 0.0
        else if aggr == AvgAggr then Elem(grad, k / inDim) * Scale()
        else Elem(grad, k / inDim)
    }
  }

  /** The cell is the entry of the table in the word's row and the output cell's column. */
  lemma TargetIsEntry(c: Call, i: nat, j: nat)
    requires c.Valid() && i < c.Cells() && j < c.inDim
    ensures 0 <= i / c.outDim * c.inDim + j < |c.input|
    ensures var word := c.input[i / c.outDim * c.inDim + j];
      word < c.entries && c.Target(i, j) == Offset([word, i % c.outDim], [c.entries, c.outDim])
  {
    c.WordInRange(i, j);
    var word := c.input[i / c.outDim * c.inDim + j];
    Offset2(word, i % c.outDim, c.entries, c.outDim);
  }

  // ------------------------------------------------------------- backward, as steps

  /** `pcs[t]` counts the additions thread t has performed. */
  datatype State = State(pcs: seq<nat>, table: seq<real>)

  /** The output cell that a thread is working on after p additions. */
  function CurrentCell(c: Call, threads: Pos, t: nat, p: nat): nat
    requires c.inDim > 0
  {
    assert p / c.inDim * threads >= 0;
    t + p / c.inDim * threads
  }

  predicate Enabled(c: Call, threads: Pos, s: State, t: nat) {
    c.inDim > 0 && t < |s.pcs| && CurrentCell(c, threads, t, s.pcs[t]) < c.Cells()
  }

  /** The number, among all additions, of the one that thread t performs after p others. */
  function AddNumber(c: Call, threads: Pos, t: nat, p: nat): nat
    requires c.inDim > 0
  {
    assert CurrentCell(c, threads, t, p) * c.inDim >= 0;
    CurrentCell(c, threads, t, p) * c.inDim + p % c.inDim
  }

  /** Thread t performs its next atomic addition; a thread that has left its loop does nothing. */
  function Step(c: Call, grad: seq<real>, threads: Pos, s: State, t: nat): State
    requires c.Valid()
  {
    if !Enabled(c, threads, s, t) then s else
      var k := AddNumber(c, threads, t, s.pcs[t]);
      var q := c.Phi()(k);
      if q < |s.table| then
        State(s.pcs[t := s.pcs[t] + 1], s.table[q := s.table[q] + c.Value(grad)(k)])
      else s
  }

  /** The threads take turns in the order of the schedule, which is arbitrary. */
  function Execute(c: Call, grad: seq<real>, threads: Pos, s: State, schedule: seq<nat>): State
    requires c.Valid()
    decreases |schedule|
  {
    if schedule == [] then s
    else
      var n := |schedule| - 1;
      Step(c, grad, threads, Execute(c, grad, threads, s, schedule[..n]), schedule[n])
  }

  ghost predicate Initial(c: Call, threads: Pos, s: State) {
    |s.pcs| == threads && (forall t :: 0 <= t < threads ==> s.pcs[t] == 0) && |s.table| == c.TableSize()
  }

  /** All threads have left their loops. */
  predicate Finished(c: Call, threads: Pos, s: State) {
    forall t: nat :: t < |s.pcs| ==> !Enabled(c, threads, s, t)
  }

  // --------------------------------------------------- which additions are done

  /** The thread that performs addition k, and how many it performs before it. */
  function Owner(c: Call, threads: Pos, k: nat): nat
    requires c.inDim > 0
  {
    k / c.inDim % threads
  }

  function Place(c: Call, threads: Pos, k: nat): nat
    requires c.inDim > 0
  {
    var round: nat := k / c.inDim / threads;
    assert round * c.inDim >= 0;
    round * c.inDim + k % c.inDim
  }

  predicate Done(c: Call, threads: Pos, pcs: seq<nat>, k: nat) {
    c.inDim > 0 && Owner(c, threads, k) < |pcs| && Place(c, threads, k) < pcs[Owner(c, threads, k)]
  }

  function DoneValue(c: Call, threads: Pos, pcs: seq<nat>, x: nat -> real): nat -> real {
    (k: nat) => if Done(c, threads, pcs, k) then x(k) else 0.0
  }

  /** Owner and Place name an addition uniquely, and AddNumber inverts them. */
  lemma AddNumberInverts(c: Call, threads: Pos, k: nat)
    requires c.inDim > 0
    ensures AddNumber(c, threads, Owner(c, threads, k), Place(c, threads, k)) == k
  {
    var d := c.inDim;
    var i, j := k / d, k % d;
    DivModBack(k, d);
    DivModBack(i, threads);
    DivModOf(i / threads, j, d);
  }

  lemma OwnerAndPlaceOfNext(c: Call, threads: Pos, t: nat, p: nat)
    requires c.inDim > 0 && t < threads
    ensures var k := AddNumber(c, threads, t, p);
      Owner(c, threads, k) == t && Place(c, threads, k) == p
      && k / c.inDim == CurrentCell(c, threads, t, p) && k % c.inDim == p % c.inDim
  {
    var d := c.inDim;
    var i, j := CurrentCell(c, threads, t, p), p % d;
    DivModBack(p, d);
    DivModOf(i, j, d);
    DivModOf(p / d, t, threads);
  }

  lemma NextIsAnAdd(c: Call, threads: Pos, s: State, t: nat)
    requires Enabled(c, threads, s, t)
    ensures AddNumber(c, threads, t, s.pcs[t]) < c.Adds()
  {
    MulBound(CurrentCell(c, threads, t, s.pcs[t]), s.pcs[t] % c.inDim, c.inDim, c.Cells());
  }

  /** A step makes exactly one more addition done. */
  lemma StepDoesOne(c: Call, threads: Pos, pcs: seq<nat>, t: nat, k: nat)
    requires c.inDim > 0 && |pcs| == threads && t < threads
    ensures var next := AddNumber(c, threads, t, pcs[t]);
      && !Done(c, threads, pcs, next)
      && (Done(c, threads, pcs[t := pcs[t] + 1], k) <==> Done(c, threads, pcs, k) || k == next)
  {
    OwnerAndPlaceOfNext(c, threads, t, pcs[t]);
    if Owner(c, threads, k) == t && Place(c, threads, k) == pcs[t] {
      AddNumberInverts(c, threads, k);
    }
  }

  /** When no thread is left in its loop, every addition is done. */
  lemma FinishedDidAll(c: Call, threads: Pos, s: State, k: nat)
    requires |s.pcs| == threads && Finished(c, threads, s) && k < c.Adds()
    ensures Done(c, threads, s.pcs, k)
  {
    c.AddInRange(k);
    var i := k / c.inDim;
    var t := i % threads;
    DivModBack(i, threads);
    assert !Enabled(c, threads, s, t);
    PassedIt(i, k % c.inDim, threads, c.inDim, s.pcs[t], c.Cells());
  }

  /** A thread whose next cell lies beyond the end has passed all of its additions before it. */
  lemma PassedIt(i: nat, j: nat, threads: Pos, d: Pos, p: nat, cells: nat)
    requires i < cells && j < d && i % threads + p / d * threads >= cells
    ensures i / threads * d + j < p
  {
    DivModBack(i, threads);
    DivModBack(p, d);
    var a, b := i / threads, p / d;
    SmallerFactor(a, b, threads);
    MulBound(a, j, d, b);
  }

  // ------------------------------------------------------------ what a run computes

  /** The table has received exactly the additions that are done. */
  ghost predicate TableIs(c: Call, grad: seq<real>, threads: Pos, before: seq<real>, s: State)
    requires c.Valid()
  {
    && |s.pcs| == threads && |s.table| == |before| == c.TableSize()
    && forall q: nat :: q < |before| ==>
      s.table[q] == before[q] + Scatter(c.Adds(), c.Phi(), DoneValue(c, threads, s.pcs, c.Value(grad)), q)
  }

  lemma InitialTable(c: Call, grad: seq<real>, threads: Pos, s: State)
    requires c.Valid() && Initial(c, threads, s)
    ensures TableIs(c, grad, threads, s.table, s)
  {
    var x := DoneValue(c, threads, s.pcs, c.Value(grad));
    forall k: nat ensures x(k) == 0.0 {
      assert !Done(c, threads, s.pcs, k);
    }
    forall q: nat | q < |s.table| ensures Scatter(c.Adds(), c.Phi(), x, q) == 0.0 {
      SumZero(c.Adds(), Hit(c.Phi(), x, q));
    }
  }

  lemma ScatterOneMore(n: nat, phi: nat -> nat, x: nat -> real, y: nat -> real, k: nat, q: nat)
    requires k < n && x(k) == 0.0 && forall j :: 0 <= j < n && j != k ==> x(j) == y(j)
    ensures Scatter(n, phi, y, q) == Scatter(n, phi, x, q) + if phi(k) == q then y(k) else 0.0
  {
    SumChange(n, Hit(phi, x, q), Hit(phi, y, q), k);
  }

  /** Every step of every thread keeps it. */
  lemma StepKeepsTable(c: Call, grad: seq<real>, threads: Pos, before: seq<real>, s: State, t: nat)
    requires c.Valid() && TableIs(c, grad, threads, before, s)
    ensures TableIs(c, grad, threads, before, Step(c, grad, threads, s, t))
  {
    if Enabled(c, threads, s, t) {
      var k := AddNumber(c, threads, t, s.pcs[t]);
      NextIsAnAdd(c, threads, s, t);
      c.AddInRange(k);
      assert c.Phi()(k) < |s.table|;
      AdditionKeepsTable(c, grad, threads, before, s, Step(c, grad, threads, s, t), t, k);
    }
  }

  lemma AdditionKeepsTable(
      c: Call, grad: seq<real>, threads: Pos, before: seq<real>, s: State, s': State, t: nat, k: nat)
    requires c.Valid() && TableIs(c, grad, threads, before, s) && Enabled(c, threads, s, t)
    requires k == AddNumber(c, threads, t, s.pcs[t]) < c.Adds() && c.Phi()(k) < |s.table|
    requires s' == State(s.pcs[t := s.pcs[t] + 1], s.table[c.Phi()(k) := s.table[c.Phi()(k)] + c.Value(grad)(k)])
    ensures TableIs(c, grad, threads, before, s')
  {
    var value, phi, n := c.Value(grad), c.Phi(), c.Adds();
    var x, y := DoneValue(c, threads, s.pcs, value), DoneValue(c, threads, s'.pcs, value);
    forall j: nat | j < n ensures if j == k then x(j) == 0.0 && y(j) == value(k) else x(j) == y(j) {
      StepDoesOne(c, threads, s.pcs, t, j);
    }
    forall q: nat | q < |before| ensures s'.table[q] == before[q] + Scatter(n, phi, y, q) {
      ScatterOneMore(n, phi, x, y, k, q);
    }
  }

  lemma {:induction false} ExecuteKeepsTable(c: Call, grad: seq<real>, threads: Pos, s: State, schedule: seq<nat>)
    requires c.Valid() && Initial(c, threads, s)
    ensures TableIs(c, grad, threads, s.table, Execute(c, grad, threads, s, schedule))
    decreases |schedule|
  {
    if schedule == [] {
      InitialTable(c, grad, threads, s);
    } else {
      var n := |schedule| - 1;
      ExecuteKeepsTable(c, grad, threads, s, schedule[..n]);
      StepKeepsTable(c, grad, threads, s.table, Execute(c, grad, threads, s, schedule[..n]), schedule[n]);
    }
  }

  /** However the threads interleave, and however many there are, a finished backward call has
      added to every table cell the gradients of all words that select it, repeated ones as
      often as they are repeated. */
  lemma EveryInterleavingScatters(c: Call, grad: seq<real>, threads: Pos, s: State, schedule: seq<nat>)
    requires c.Valid() && Initial(c, threads, s)
    requires Finished(c, threads, Execute(c, grad, threads, s, schedule))
    ensures var last := Execute(c, grad, threads, s, schedule);
      && |last.table| == |s.table| == c.TableSize()
      && forall q: nat :: q < |last.table| ==>
        last.table[q] == s.table[q] + Scatter(c.Adds(), c.Phi(), c.Value(grad), q)
  {
    ExecuteKeepsTable(c, grad, threads, s, schedule);
    var last := Execute(c, grad, threads, s, schedule);
    var x, value, phi, n := DoneValue(c, threads, last.pcs, c.Value(grad)), c.Value(grad), c.Phi(), c.Adds();
    forall k: nat | k < n ensures x(k) == value(k) {
      FinishedDidAll(c, threads, last, k);
    }
    forall q: nat | q < |last.table| ensures Scatter(n, phi, x, q) == Scatter(n, phi, value, q) {
      SumExt(n, Hit(phi, x, q), Hit(phi, value, q));
    }
  }

  // ----------------------------------------------------------- how long a run takes

  /** Every turn of the schedule belongs to a thread that is still in its loop. */
  predicate NoIdleTurns(c: Call, grad: seq<real>, threads: Pos, s: State, schedule: seq<nat>)
    requires c.Valid()
    decreases |schedule|
  {
    schedule == [] ||
    var n := |schedule| - 1;
    NoIdleTurns(c, grad, threads, s, schedule[..n])
    && Enabled(c, threads, Execute(c, grad, threads, s, schedule[..n]), schedule[n])
  }

  function One(): nat -> real {
    (k: nat) => 1.0
  }

  function DoneCount(c: Call, threads: Pos, pcs: seq<nat>): real {
    Sum(c.Adds(), DoneValue(c, threads, pcs, One()))
  }

  lemma {:induction false} SumOnes(n: nat)
    ensures Sum(n, One()) == n as real
  {
    if n > 0 { SumOnes(n - 1); }
  }

  lemma {:induction false} TurnsAreAdditions(c: Call, grad: seq<real>, threads: Pos, s: State, schedule: seq<nat>)
    requires c.Valid() && Initial(c, threads, s) && NoIdleTurns(c, grad, threads, s, schedule)
    ensures DoneCount(c, threads, Execute(c, grad, threads, s, schedule).pcs) == |schedule| as real
    decreases |schedule|
  {
    ExecuteKeepsTable(c, grad, threads, s, schedule);
    if schedule == [] {
      forall k: nat ensures DoneValue(c, threads, s.pcs, One())(k) == 0.0 {
        assert !Done(c, threads, s.pcs, k);
      }
      SumZero(c.Adds(), DoneValue(c, threads, s.pcs, One()));
    } else {
      var n := |schedule| - 1;
      TurnsAreAdditions(c, grad, threads, s, schedule[..n]);
      ExecuteKeepsTable(c, grad, threads, s, schedule[..n]);
      OneTurn(c, grad, threads, Execute(c, grad, threads, s, schedule[..n]), schedule[n]);
    }
  }

  lemma OneTurn(c: Call, grad: seq<real>, threads: Pos, s: State, t: nat)
    requires c.Valid() && |s.pcs| == threads && |s.table| == c.TableSize() && Enabled(c, threads, s, t)
    ensures DoneCount(c, threads, Step(c, grad, threads, s, t).pcs) == DoneCount(c, threads, s.pcs) + 1.0
  {
    var k := AddNumber(c, threads, t, s.pcs[t]);
    NextIsAnAdd(c, threads, s, t);
    c.AddInRange(k);
    assert c.Phi()(k) < |s.table|;
    var pcs' := s.pcs[t := s.pcs[t] + 1];
    var x, y := DoneValue(c, threads, s.pcs, One()), DoneValue(c, threads, pcs', One());
    forall j: nat | j < c.Adds() ensures if j == k then x(j) == 0.0 && y(j) == 1.0 else x(j) == y(j) {
      StepDoesOne(c, threads, s.pcs, t, j);
    }
    SumChange(c.Adds(), x, y, k);
  }

  lemma {:induction false} SumAtMost(n: nat, f: nat -> real, g: nat -> real)
    requires forall k :: 0 <= k < n ==> f(k) <= g(k)
    ensures Sum(n, f) <= Sum(n, g)
  {
    if n > 0 { SumAtMost(n - 1, f, g); }
  }

  /** No interleaving performs more than the call's additions, and one that has performed as
      many as there are, or finished, has performed exactly those. */
  lemma EveryRunIsBounded(c: Call, grad: seq<real>, threads: Pos, s: State, schedule: seq<nat>)
    requires c.Valid() && Initial(c, threads, s) && NoIdleTurns(c, grad, threads, s, schedule)
    ensures |schedule| <= c.Adds()
    ensures Finished(c, threads, Execute(c, grad, threads, s, schedule)) <==> |schedule| == c.Adds()
  {
    var last := Execute(c, grad, threads, s, schedule);
    var x := DoneValue(c, threads, last.pcs, One());
    ExecuteKeepsTable(c, grad, threads, s, schedule);
    TurnsAreAdditions(c, grad, threads, s, schedule);
    SumOnes(c.Adds());
    SumAtMost(c.Adds(), x, One());
    if Finished(c, threads, last) {
      forall k: nat | k < c.Adds() ensures x(k) == 1.0 {
        FinishedDidAll(c, threads, last, k);
      }
      SumExt(c.Adds(), x, One());
    } else {
      var t: nat :| t < |last.pcs| && Enabled(c, threads, last, t);
      OneTurn(c, grad, threads, last, t);
      SumAtMost(c.Adds(), DoneValue(c, threads, Step(c, grad, threads, last, t).pcs, One()), One());
    }
  }

  // ------------------------------------------------------------------- forward

  /** A running value after one more word. Averaging rescales it at every word. */
  function AfterWord(c: Call, x: real, v: real): real
    requires c.inDim > 0
  {
    if c.aggr == AvgAggr then (x + v) * c.Scale() else x + v
  }

  /** An output cell after j of its words have been taken up. */
  function Accumulated(c: Call, w: seq<real>, i: nat, j: nat): real
    requires c.Valid() && i < c.Cells() && j <= c.inDim
  {
    if j == 0 then 0.0 else AfterWord(c, Accumulated(c, w, i, j - 1), Elem(w, c.Target(i, j - 1)))
  }

  /** The body of the loop over the words of one cell, for the table entry v. */
  method TakeWord(c: Call, output: array<real>, i: nat, v: real)
    requires c.inDim > 0 && i < output.Length
    modifies output
    ensures output[..] == old(output[..])[i := AfterWord(c, old(output[i]), v)]
  {
    ghost var x := output[i];
    output[i] := output[i] + v;
    if c.aggr == AvgAggr {
      output[i] := output[i] * c.Scale();
    }
    assert output[i] == AfterWord(c, x, v);
    assert output[..] == old(output[..])[i := output[i]];
  }

  lemma NextWord(c: Call, w: seq<real>, i: nat, j: nat, x: real, v: real)
    requires c.Valid() && i < c.Cells() && j < c.inDim && x == Accumulated(c, w, i, j) && v == Elem(w, c.Target(i, j))
    ensures Accumulated(c, w, i, j + 1) == AfterWord(c, x, v)
  {
  }

  /** The body of the forward loop for one index: it touches only its own output cell. */
  method ForwardCell(c: Call, table: array<real>, output: array<real>, i: nat)
    requires c.Valid() && table.Length == c.TableSize() && output.Length == c.Cells() && table != output
    requires i < c.Cells()
    modifies output
    ensures output[..] == old(output[..])[i := Accumulated(c, table[..], i, c.inDim)]
  {
    output[i] := 0.0;
    ghost var w := table[..];
    if c.aggr == NoAggr {
      output[i] := table[c.Target(i, 0)];
      assert Accumulated(c, w, i, 0) == 0.0;
    } else {
      for j := 0 to c.inDim
        invariant table[..] == w && output[..] == old(output[..])[i := Accumulated(c, w, i, j)]
      {
        var q := c.Target(i, j);
        assert Elem(w, q) == table[q];
        TakeWord(c, output, i, table[q]);
      }
    }
  }

  /** However the threads interleave, the output is the same. */
  method Forward(c: Call, table: array<real>, output: array<real>, launch: Launch)
    requires c.Valid() && table.Length == c.TableSize() && output.Length == c.Cells() && table != output
    requires launch.Complete(c.Cells())
    modifies output
    ensures output[..] == ForwardOutput(c, table[..])
  {
    var order := launch.Indices(c.Cells());
    CompleteLaunchTakesEachOnce(launch, c.Cells());
    for k := 0 to |order|
      invariant forall j :: 0 <= j < k ==>
        order[j] in order && output[order[j]] == Accumulated(c, table[..], order[j], c.inDim)
    {
      assert forall j :: 0 <= j < |order| ==> order[j] in order;
      ForwardCell(c, table, output, order[k]);
    }
    forall i: nat | i < c.Cells() ensures output[i] == Accumulated(c, table[..], i, c.inDim) {
      assert i in order;
    }
  }

  function ForwardOutput(c: Call, w: seq<real>): (out: seq<real>)
    requires c.Valid()
    ensures |out| == c.Cells() && forall i :: 0 <= i < |out| ==> out[i] == Accumulated(c, w, i, c.inDim)
  {
    seq(c.Cells(), i requires 0 <= i < c.Cells() => Accumulated(c, w, i, c.inDim))
  }

  /** What every finished backward call adds to the table. */
  function BackwardDelta(c: Call, grad: seq<real>): (delta: seq<real>)
    requires c.Valid()
    ensures |delta| == c.TableSize()
    ensures forall q :: 0 <= q < |delta| ==> delta[q] == Scatter(c.Adds(), c.Phi(), c.Value(grad), q)
  {
    seq(c.TableSize(), q requires 0 <= q < c.TableSize() => Scatter(c.Adds(), c.Phi(), c.Value(grad), q))
  }

  // ------------------------------------------------------------------ adjointness

  function TargetOf(c: Call): (nat, nat) -> nat
    requires c.Valid()
  {
    (i: nat, j: nat) => if i < c.Cells() && j < c.inDim then c.Target(i, j) else 0
  }

  /** What each word of an output cell receives. */
  function Share(c: Call, grad: seq<real>): nat -> real
    requires c.inDim > 0
  {
    (i: nat) => if c.aggr == AvgAggr then Elem(grad, i) * c.Scale() else Elem(grad, i)
  }

  /** The words that output cell i takes up. */
  function Words(c: Call, w: seq<real>, i: nat): nat -> real
    requires c.Valid()
  {
    ReadAlong(ElemsOf(w), TargetOf(c), i)
  }

  lemma WordsAt(c: Call, w: seq<real>, i: nat, j: nat)
    requires c.Valid() && i < c.Cells() && j < c.inDim
    ensures Words(c, w, i)(j) == Elem(w, c.Target(i, j))
  {
  }

  lemma {:induction false} AccumulatedIsSum(c: Call, w: seq<real>, i: nat, j: nat)
    requires c.Valid() && c.aggr != AvgAggr && i < c.Cells() && j <= c.inDim
    ensures Accumulated(c, w, i, j) == Sum(j, Words(c, w, i))
  {
    if j > 0 {
      AccumulatedIsSum(c, w, i, j - 1);
      WordsAt(c, w, i, j - 1);
    }
  }

  lemma AddOfWord(c: Call, i: nat, j: nat) returns (k: nat)
    requires i < c.Cells() && j < c.inDim
    ensures k == i * c.inDim + j < c.Adds() && k / c.inDim == i && k % c.inDim == j
  {
    MulBound(i, j, c.inDim, c.Cells());
    DivModOf(i, j, c.inDim);
    assert i * c.inDim >= 0;
    k := i * c.inDim + j;
  }

  lemma PhiOfAdd(c: Call, k: nat, i: nat, j: nat)
    requires c.Valid() && k < c.Adds() && c.inDim > 0 && i < c.Cells() && j < c.inDim
    requires k / c.inDim == i && k % c.inDim == j
    ensures c.Phi()(k) == TargetOf(c)(i, j)
  {
  }

  lemma ValueOfAdd(c: Call, grad: seq<real>, k: nat, i: nat)
    requires c.inDim > 0 && k / c.inDim == i
    ensures c.Value(grad)(k) == Share(c, grad)(i)
  {
  }

  lemma ValueOfCell(c: Call, grad: seq<real>, i: nat, j: nat)
    requires c.Valid() && i < c.Cells() && j < c.inDim
    ensures Cell(c.inDim, c.Value(grad))(i, j) == Share(c, grad)(i)
  {
    var k := AddOfWord(c, i, j);
    CellAt(c.inDim, c.Value(grad), i, j, k);
    ValueOfAdd(c, grad, k, i);
  }

  lemma WordOfCell(c: Call, y: nat -> real, i: nat, j: nat)
    requires c.Valid() && i < c.Cells() && j < c.inDim
    ensures Cell(c.inDim, Composed(y, c.Phi()))(i, j) == y(TargetOf(c)(i, j))
  {
    var k := AddOfWord(c, i, j);
    CellAt(c.inDim, Composed(y, c.Phi()), i, j, k);
    PhiOfAdd(c, k, i, j);
  }

  lemma DividedBack(x: real, d: real, scaled: real)
    requires d > 0.0 && scaled == x * (1.0 / d)
    ensures scaled * d == x
  {
    assert 1.0 / d * d == 1.0;
    assert x * (1.0 / d) * d == x * (1.0 / d * d);
  }

  lemma WordAdds(c: Call, x: real, v: real, next: real)
    requires c.inDim > 0 && next == AfterWord(c, x, v)
    ensures if c.aggr == AvgAggr then Product(next, c.inDim as real) == x + v else next == x + v
  {
    if c.aggr == AvgAggr { DividedBack(x + v, c.inDim as real, next); }
  }

  function Product(a: real, b: real): real {
    a * b
  }

  lemma TakenUp(c: Call, w: seq<real>, i: nat, j: nat, x: real, v: real, next: real)
    requires c.Valid() && i < c.Cells() && j < c.inDim && x == Accumulated(c, w, i, j) && v == Elem(w, c.Target(i, j))
    requires next == Accumulated(c, w, i, j + 1)
    ensures if c.aggr == AvgAggr then Product(next, c.inDim as real) == x + v else next == x + v
  {
    NextWord(c, w, i, j, x, v);
    WordAdds(c, x, v, next);
  }

  /** Without averaging, every word adds its entry to the cell, which starts from zero. */
  lemma WordIsAdded(c: Call, w: seq<real>, i: nat, j: nat)
    requires c.Valid() && |w| == c.TableSize() && i < c.Cells() && j < c.inDim && c.aggr != AvgAggr
    ensures Accumulated(c, w, i, 0) == 0.0
    ensures Accumulated(c, w, i, j + 1) == Accumulated(c, w, i, j) + w[c.Target(i, j)]
  {
    TakenUp(c, w, i, j, Accumulated(c, w, i, j), w[c.Target(i, j)], Accumulated(c, w, i, j + 1));
  }

  /** Averaging divides the cell by the number of words after every one of them. */
  lemma WordIsAveraged(c: Call, w: seq<real>, i: nat, j: nat, x: real, v: real, next: real)
    requires c.Valid() && |w| == c.TableSize() && i < c.Cells() && j < c.inDim && c.aggr == AvgAggr
    requires x == Accumulated(c, w, i, j) && v == w[c.Target(i, j)] && next == Accumulated(c, w, i, j + 1)
    ensures next * c.inDim as real == x + v
  {
    TakenUp(c, w, i, j, x, v, next);
    ProductIs(next, c.inDim as real, x + v);
  }

  lemma ProductIs(a: real, b: real, y: real)
    requires Product(a, b) == y
    ensures a * b == y
  {
  }

  /** The backward addition for word j of output cell i goes to that word's entry. It is the gradient
      of the cell; averaging divides it by the number of words. */
  lemma AdditionOfWord(c: Call, grad: seq<real>, i: nat, j: nat)
    requires c.Valid() && |grad| == c.Cells() && i < c.Cells() && j < c.inDim
    ensures 0 <= i * c.inDim + j < c.Adds() && c.Phi()(i * c.inDim + j) == c.Target(i, j)
    ensures c.aggr != AvgAggr ==> c.Value(grad)(i * c.inDim + j) == grad[i]
    ensures c.aggr == AvgAggr ==> c.Value(grad)(i * c.inDim + j) * c.inDim as real == grad[i]
  {
    var k := AddOfWord(c, i, j);
    PhiOfAdd(c, k, i, j);
    ValueOfAdd(c, grad, k, i);
    if c.aggr == AvgAggr { DividedBack(grad[i], c.inDim as real, c.Value(grad)(k)); }
  }

  /** What the table gains, paired with any table, as a sum over output cells. */
  lemma DeltaPairing(c: Call, grad: seq<real>, w: seq<real>)
    requires c.Valid() && c.inDim > 0 && |w| == c.TableSize()
    ensures Dot(BackwardDelta(c, grad), w) ==
      Sum(c.Cells(), CellShare(c.inDim, Share(c, grad), ElemsOf(w), TargetOf(c)))
  {
    forall k: nat | k < c.Adds() ensures c.Phi()(k) < |w| {
      c.AddInRange(k);
    }
    ScatteredDot(c.Adds(), c.Phi(), c.Value(grad), BackwardDelta(c, grad), w);
    forall i: nat, j: nat | i < c.Cells() && j < c.inDim
      ensures Cell(c.inDim, c.Value(grad))(i, j) == Share(c, grad)(i)
      ensures Cell(c.inDim, Composed(ElemsOf(w), c.Phi()))(i, j) == ElemsOf(w)(TargetOf(c)(i, j))
    {
      ValueOfCell(c, grad, i, j);
      WordOfCell(c, ElemsOf(w), i, j);
    }
    GatherByCells(c.Cells(), c.inDim, c.Phi(), c.Value(grad), ElemsOf(w), Share(c, grad), TargetOf(c));
  }

  lemma DotTermWith(a: seq<real>, b: seq<real>, i: nat, u: real, x: real)
    requires Elem(a, i) == u && i < |b| && b[i] == x
    ensures DotTerm(a, b)(i) == u * x
  {
    assert Elem(b, i) == x;
  }

  /** Each pairing term is the cell's share times the sum of what the cell reads. */
  ghost predicate SharesAgree(
      n: nat, d: nat, share: nat -> real, y: nat -> real, target: (nat, nat) -> nat, f: nat -> real, acc: nat -> real)
  {
    forall i: nat :: i < n ==> ShareAgrees(d, share, y, target, f, acc, i)
  }

  predicate ShareAgrees(
      d: nat, share: nat -> real, y: nat -> real, target: (nat, nat) -> nat, f: nat -> real, acc: nat -> real, i: nat)
  {
    f(i) == share(i) * acc(i) && acc(i) == Sum(d, ReadAlong(y, target, i))
  }

  lemma ShareIsPairing(
      d: nat, share: nat -> real, y: nat -> real, target: (nat, nat) -> nat, f: nat -> real, acc: nat -> real, i: nat)
    requires ShareAgrees(d, share, y, target, f, acc, i)
    ensures CellShare(d, share, y, target)(i) == f(i)
  {
  }

  lemma SharesArePairing(
      n: nat, d: nat, share: nat -> real, y: nat -> real, target: (nat, nat) -> nat, f: nat -> real, acc: nat -> real)
    requires SharesAgree(n, d, share, y, target, f, acc)
    ensures Sum(n, CellShare(d, share, y, target)) == Sum(n, f)
  {
    forall i: nat | i < n ensures CellShare(d, share, y, target)(i) == f(i) {
      ShareIsPairing(d, share, y, target, f, acc, i);
    }
    SumExt(n, CellShare(d, share, y, target), f);
  }

  function AccumulatedOf(c: Call, w: seq<real>): nat -> real
    requires c.Valid()
  {
    (i: nat) => if i < c.Cells() then Accumulated(c, w, i, c.inDim) else 0.0
  }

  /** Without aggregation and with summation, the scatter is the adjoint of the gather, for
      every table and every output gradient, repeated words included. */
  lemma BackwardIsAdjoint(c: Call, grad: seq<real>, w: seq<real>)
    requires c.Valid() && c.aggr != AvgAggr && |w| == c.TableSize() && |grad| == c.Cells()
    ensures Dot(grad, ForwardOutput(c, w)) == Dot(BackwardDelta(c, grad), w)
  {
    if c.inDim == 0 {
      NothingToAdd(c, grad, w);
    } else {
      DeltaPairing(c, grad, w);
      OutputPairing(c, grad, w);
    }
  }

  lemma OutputPairing(c: Call, grad: seq<real>, w: seq<real>)
    requires c.Valid() && c.aggr != AvgAggr && c.inDim > 0 && |grad| == c.Cells()
    ensures Dot(grad, ForwardOutput(c, w)) ==
      Sum(c.Cells(), CellShare(c.inDim, Share(c, grad), ElemsOf(w), TargetOf(c)))
  {
    SummedCells(c, grad, w);
    SharesArePairing(c.Cells(), c.inDim, Share(c, grad), ElemsOf(w), TargetOf(c),
      DotTerm(grad, ForwardOutput(c, w)), AccumulatedOf(c, w));
  }

  lemma SummedCells(c: Call, grad: seq<real>, w: seq<real>)
    requires c.Valid() && c.aggr != AvgAggr && c.inDim > 0
    ensures SharesAgree(c.Cells(), c.inDim, Share(c, grad), ElemsOf(w), TargetOf(c),
      DotTerm(grad, ForwardOutput(c, w)), AccumulatedOf(c, w))
  {
    forall i: nat | i < c.Cells()
      ensures ShareAgrees(c.inDim, Share(c, grad), ElemsOf(w), TargetOf(c), DotTerm(grad, ForwardOutput(c, w)),
        AccumulatedOf(c, w), i)
    {
      SummedCell(c, grad, w, i);
    }
  }

  lemma SummedCell(c: Call, grad: seq<real>, w: seq<real>, i: nat)
    requires c.Valid() && c.aggr != AvgAggr && c.inDim > 0 && i < c.Cells()
    ensures ShareAgrees(c.inDim, Share(c, grad), ElemsOf(w), TargetOf(c), DotTerm(grad, ForwardOutput(c, w)),
      AccumulatedOf(c, w), i)
  {
    CellPairs(c, grad, w, i);
    CellSums(c, w, i);
  }

  lemma CellPairs(c: Call, grad: seq<real>, w: seq<real>, i: nat)
    requires c.Valid() && c.aggr != AvgAggr && c.inDim > 0 && i < c.Cells()
    ensures DotTerm(grad, ForwardOutput(c, w))(i) == Share(c, grad)(i) * AccumulatedOf(c, w)(i)
  {
    DotTermWith(grad, ForwardOutput(c, w), i, Share(c, grad)(i), AccumulatedOf(c, w)(i));
  }

  lemma CellSums(c: Call, w: seq<real>, i: nat)
    requires c.Valid() && c.aggr != AvgAggr && i < c.Cells()
    ensures AccumulatedOf(c, w)(i) == Sum(c.inDim, ReadAlong(ElemsOf(w), TargetOf(c), i))
  {
    AccumulatedIsSum(c, w, i, c.inDim);
  }

  lemma NothingToAdd(c: Call, grad: seq<real>, w: seq<real>)
    requires c.Valid() && (c.inDim == 0 || c.Cells() == 0) && |w| == c.TableSize() && |grad| == c.Cells()
    ensures Dot(grad, ForwardOutput(c, w)) == 0.0 == Dot(BackwardDelta(c, grad), w)
  {
    var out, delta := ForwardOutput(c, w), BackwardDelta(c, grad);
    forall i: nat | i < c.Cells() ensures DotTerm(grad, out)(i) == 0.0 {
      assert out[i] == 0.0;
    }
    SumZero(c.Cells(), DotTerm(grad, out));
    assert c.Adds() == 0;
    forall q: nat | q < c.TableSize() ensures DotTerm(delta, w)(q) == 0.0 {
      assert delta[q] == 0.0;
    }
    SumZero(c.TableSize(), DotTerm(delta, w));
  }

  // -------------------------------------------------------------------- averaging

  /** With one word a cell, averaging is summation. */
  lemma AverageOfOne(c: Call, grad: seq<real>, w: seq<real>)
    requires c.Valid() && c.aggr == AvgAggr && c.inDim == 1
    ensures ForwardOutput(c, w) == ForwardOutput(c.(aggr := SumAggr), w)
    ensures BackwardDelta(c, grad) == BackwardDelta(c.(aggr := SumAggr), grad)
  {
    var d := c.(aggr := SumAggr);
    forall i: nat | i < c.Cells() ensures Accumulated(c, w, i, 1) == Accumulated(d, w, i, 1) {
      assert Accumulated(c, w, i, 0) == Accumulated(d, w, i, 0) == 0.0;
    }
    forall q: nat | q < c.TableSize()
      ensures Scatter(c.Adds(), c.Phi(), c.Value(grad), q) == Scatter(d.Adds(), d.Phi(), d.Value(grad), q)
    {
      forall k: nat | k < c.Adds() ensures Hit(c.Phi(), c.Value(grad), q)(k) == Hit(d.Phi(), d.Value(grad), q)(k) {
        c.AddInRange(k);
      }
      SumExt(c.Adds(), Hit(c.Phi(), c.Value(grad), q), Hit(d.Phi(), d.Value(grad), q));
    }
  }

  function Ones(n: nat): (s: seq<real>)
    ensures |s| == n && forall k :: 0 <= k < n ==> s[k] == 1.0
  {
    seq(n, k requires 0 <= k < n => 1.0)
  }

  lemma OnesAt(c: Call, i: nat, j: nat)
    requires c.Valid() && i < c.Cells() && j < c.inDim
    ensures Elem(Ones(c.TableSize()), c.Target(i, j)) == 1.0
  {
  }

  /** A table of ones averages to less than one as soon as a cell has two words. */
  lemma {:induction false} AveragedOnes(c: Call, i: nat, j: nat)
    requires c.Valid() && c.aggr == AvgAggr && c.inDim >= 2 && i < c.Cells() && j <= c.inDim
    ensures 0.0 <= Accumulated(c, Ones(c.TableSize()), i, j) < 1.0
  {
    if j > 0 {
      AveragedOnes(c, i, j - 1);
      OneMoreOne(c, i, j - 1, Accumulated(c, Ones(c.TableSize()), i, j - 1));
    }
  }

  lemma OneMoreOne(c: Call, i: nat, j: nat, before: real)
    requires c.Valid() && c.aggr == AvgAggr && c.inDim >= 2 && i < c.Cells() && j < c.inDim
    requires before == Accumulated(c, Ones(c.TableSize()), i, j) && 0.0 <= before < 1.0
    ensures 0.0 <= Accumulated(c, Ones(c.TableSize()), i, j + 1) < 1.0
  {
    OnesAt(c, i, j);
    NextWord(c, Ones(c.TableSize()), i, j, before, 1.0);
    OneMoreAveraged(c, before);
  }

  lemma OneMoreAveraged(c: Call, x: real)
    requires c.aggr == AvgAggr && c.inDim >= 2 && 0.0 <= x < 1.0
    ensures 0.0 <= AfterWord(c, x, 1.0) < 1.0
  {
    ScaleAtMostHalf(c.inDim, x + 1.0);
  }

  lemma ScaleAtMostHalf(d: nat, x: real)
    requires d >= 2 && 0.0 <= x < 2.0
    ensures 0.0 <= x * (1.0 / d as real) < 1.0
  {
    var s := 1.0 / d as real;
    assert s * d as real == 1.0;
    assert 0.0 < s <= 0.5;
  }

  lemma ShareOfOnes(c: Call, i: nat)
    requires c.Valid() && c.aggr == AvgAggr && c.inDim > 0 && i < c.Cells()
    ensures Share(c, Ones(c.Cells()))(i) * c.inDim as real == 1.0
  {
    assert Share(c, Ones(c.Cells()))(i) == c.Scale();
  }

  lemma WordsOfOnes(c: Call, i: nat)
    requires c.Valid() && i < c.Cells()
    ensures Sum(c.inDim, Words(c, Ones(c.TableSize()), i)) == c.inDim as real
  {
    var w := Ones(c.TableSize());
    forall j: nat | j < c.inDim ensures Words(c, w, i)(j) == One()(j) {
      OnesAt(c, i, j);
      WordsAt(c, w, i, j);
    }
    SumExt(c.inDim, Words(c, w, i), One());
    SumOnes(c.inDim);
  }

  function Reals(d: nat): nat -> real {
    (i: nat) => d as real
  }

  lemma {:induction false} SumBelow(n: nat, f: nat -> real)
    requires n > 0 && forall k :: 0 <= k < n ==> f(k) < 1.0
    ensures Sum(n, f) < n as real
  {
    if n > 1 {
      SumBelow(n - 1, f);
    } else {
      assert Sum(1, f) == Sum(0, f) + f(0);
    }
  }

  /** Averaging several words is not undone by its backward kernel: paired with ones, the two
      already differ. */
  lemma AverageIsNotAdjoint(c: Call)
    requires c.Valid() && c.aggr == AvgAggr && c.inDim >= 2 && c.Cells() > 0
    ensures Dot(Ones(c.Cells()), ForwardOutput(c, Ones(c.TableSize())))
         != Dot(BackwardDelta(c, Ones(c.Cells())), Ones(c.TableSize()))
  {
    DeltaOfOnes(c);
    OutputOfOnes(c);
  }

  lemma OnesShare(c: Call, i: nat)
    requires c.Valid() && c.aggr == AvgAggr && c.inDim > 0 && i < c.Cells()
    ensures One()(i) == Share(c, Ones(c.Cells()))(i) * Reals(c.inDim)(i)
  {
    ShareOfOnes(c, i);
  }

  lemma DeltaOfOnes(c: Call)
    requires c.Valid() && c.aggr == AvgAggr && c.inDim > 0
    ensures Dot(BackwardDelta(c, Ones(c.Cells())), Ones(c.TableSize())) == c.Cells() as real
  {
    var grad, w := Ones(c.Cells()), Ones(c.TableSize());
    DeltaPairing(c, grad, w);
    OnesAgree(c);
    SharesArePairing(c.Cells(), c.inDim, Share(c, grad), ElemsOf(w), TargetOf(c), One(), Reals(c.inDim));
    SumOnes(c.Cells());
  }

  lemma OnesAgree(c: Call)
    requires c.Valid() && c.aggr == AvgAggr && c.inDim > 0
    ensures SharesAgree(c.Cells(), c.inDim, Share(c, Ones(c.Cells())), ElemsOf(Ones(c.TableSize())), TargetOf(c), One(),
      Reals(c.inDim))
  {
    forall i: nat | i < c.Cells()
      ensures ShareAgrees(c.inDim, Share(c, Ones(c.Cells())), ElemsOf(Ones(c.TableSize())), TargetOf(c), One(),
        Reals(c.inDim), i)
    {
      OnesAgreeAt(c, i);
    }
  }

  lemma OnesAgreeAt(c: Call, i: nat)
    requires c.Valid() && c.aggr == AvgAggr && c.inDim > 0 && i < c.Cells()
    ensures ShareAgrees(c.inDim, Share(c, Ones(c.Cells())), ElemsOf(Ones(c.TableSize())), TargetOf(c), One(),
      Reals(c.inDim), i)
  {
    OnesShare(c, i);
    WordsOfOnes(c, i);
  }

  lemma OutputOfOnes(c: Call)
    requires c.Valid() && c.aggr == AvgAggr && c.inDim >= 2 && c.Cells() > 0
    ensures Dot(Ones(c.Cells()), ForwardOutput(c, Ones(c.TableSize()))) < c.Cells() as real
  {
    var grad, w := Ones(c.Cells()), Ones(c.TableSize());
    forall i: nat | i < c.Cells() ensures DotTerm(grad, ForwardOutput(c, w))(i) < 1.0 {
      AveragedOnes(c, i, c.inDim);
      DotTermWith(grad, ForwardOutput(c, w), i, 1.0, Accumulated(c, w, i, c.inDim));
    }
    SumBelow(c.Cells(), DotTerm(grad, ForwardOutput(c, w)));
  }

  /** With averaging, the backward kernel is the adjoint of the forward kernel, for all tables
      and output gradients, exactly when no cell averages several words. */
  lemma AverageIsAdjointExactly(c: Call)
    requires c.Valid() && c.aggr == AvgAggr
    ensures c.inDim <= 1 || c.Cells() == 0 <==>
      forall grad, w :: |grad| == c.Cells() && |w| == c.TableSize() ==>
        Dot(grad, ForwardOutput(c, w)) == Dot(BackwardDelta(c, grad), w)
  {
    if c.inDim <= 1 || c.Cells() == 0 {
      forall grad, w | |grad| == c.Cells() && |w| == c.TableSize()
        ensures Dot(grad, ForwardOutput(c, w)) == Dot(BackwardDelta(c, grad), w)
      {
        AverageOfAtMostOne(c, grad, w);
      }
    } else {
      AverageIsNotAdjoint(c);
    }
  }

  lemma AverageOfAtMostOne(c: Call, grad: seq<real>, w: seq<real>)
    requires c.Valid() && c.aggr == AvgAggr && (c.inDim <= 1 || c.Cells() == 0)
    requires |grad| == c.Cells() && |w| == c.TableSize()
    ensures Dot(grad, ForwardOutput(c, w)) == Dot(BackwardDelta(c, grad), w)
  {
    if c.inDim == 1 {
      AverageOfOne(c, grad, w);
      BackwardIsAdjoint(c.(aggr := SumAggr), grad, w);
    } else {
      NothingToAdd(c, grad, w);
    }
  }
}
