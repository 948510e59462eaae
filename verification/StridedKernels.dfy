/** Copying and adding between buffers made of blocks of different widths. */
module StridedKernels {
  import opened Sums
  import opened TensorIndex
  import opened GridStride
  import opened Matrices
  import opened TensorKernels

  function Min(a: Pos, b: Pos): Pos {
    if a <= b then a else b
  }

  /** Where loop index i lies in a buffer of blocks of width `blk`, when the loop runs over the
      first `width` cells of every block. */
  function StridedOffset(width: Pos, blk: Pos, i: nat): nat {
    assert i / width * blk >= 0;
    i / width * blk + i % width
  }

  lemma OffsetInBuffer(width: Pos, blk: Pos, blocks: nat, i: nat)
    requires width <= blk && i < blocks * width
    ensures blocks * blk >= 0 && StridedOffset(width, blk, i) < blocks * blk
  {
    DivModBack(i, width);
    QuotientBound(i, width, blocks);
    MulBound(i / width, i % width, blk, blocks);
  }

  /** Different loop indices address different cells. */
  lemma OffsetsDiffer(width: Pos, blk: Pos, i: nat, j: nat)
    requires width <= blk && StridedOffset(width, blk, i) == StridedOffset(width, blk, j)
    ensures i == j
  {
    DivModBack(i, width);
    DivModBack(j, width);
    DivModOf(i / width, i % width, blk);
    DivModOf(j / width, j % width, blk);
  }

  /** The shape of one call. */
  datatype Strides = Strides(blocks: nat, outBlk: Pos, inBlk: Pos)
  {
    function Width(): Pos {
      Min(outBlk, inBlk)
    }

    function Count(): nat {
      assert blocks * Width() >= 0;
      blocks * Width()
    }

    function Out(): nat -> nat {
      (i: nat) => StridedOffset(Width(), outBlk, i)
    }

    function In(): nat -> nat {
      (i: nat) => StridedOffset(Width(), inBlk, i)
    }

    predicate Fits(out: nat, input: nat) {
      out == blocks * outBlk && input == blocks * inBlk
    }

    function Swapped(): Strides {
      Strides(blocks, inBlk, outBlk)
    }
  }

  lemma IndexesFit(s: Strides, out: nat, input: nat, i: nat)
    requires s.Fits(out, input) && i < s.Count()
    ensures s.Out()(i) < out && s.In()(i) < input
  {
    OffsetInBuffer(s.Width(), s.outBlk, s.blocks, i);
    OffsetInBuffer(s.Width(), s.inBlk, s.blocks, i);
  }

  // ------------------------------------------------------------------------ copy

  ghost predicate Addressed(s: Strides, done: set<nat>, q: nat) {
    exists i :: i in done && s.Out()(i) == q
  }

  /** The cells addressed by `done` hold what they were to receive; all others are as before. */
  ghost predicate CopiedFor(s: Strides, before: seq<real>, input: seq<real>, out: seq<real>, done: set<nat>) {
    && |out| == |before| && s.Fits(|out|, |input|)
    && (forall i :: i in done ==> CopiedAt(s, input, out, i))
    && (forall q: nat :: q < |out| && !Addressed(s, done, q) ==> out[q] == before[q])
  }

  predicate CopiedAt(s: Strides, input: seq<real>, out: seq<real>, i: nat) {
    s.Out()(i) < |out| && s.In()(i) < |input| && out[s.Out()(i)] == input[s.In()(i)]
  }

  lemma CopyOneMore(
      s: Strides, before: seq<real>, input: seq<real>, out: seq<real>, done: set<nat>, i: nat, out': seq<real>)
    requires CopiedFor(s, before, input, out, done) && i !in done && i < s.Count()
    requires s.Out()(i) < |out| && s.In()(i) < |input| && out' == out[s.Out()(i) := input[s.In()(i)]]
    ensures CopiedFor(s, before, input, out', done + {i})
  {
    forall j | j in done + {i} ensures CopiedAt(s, input, out', j) {
      if j != i {
        assert CopiedAt(s, input, out, j);
        if s.Out()(j) == s.Out()(i) { OffsetsDiffer(s.Width(), s.outBlk, j, i); }
      }
    }
    forall q: nat | q < |out| && !Addressed(s, done + {i}, q) ensures out'[q] == before[q] {
      assert i in done + {i};
      assert q != s.Out()(i);
      assert forall j :: j in done ==> j in done + {i};
      assert !Addressed(s, done, q);
    }
  }

  /** However the threads interleave, the result is the same: no two indices share a cell. */
  method CopyWithStride(output: array<real>, input: array<real>, s: Strides, launch: Launch)
    requires output != input && s.Fits(output.Length, input.Length) && launch.Complete(s.Count())
    modifies output
    ensures CopiedFor(s, old(output[..]), input[..], output[..], Below(s.Count()))
  {
    var order := launch.Indices(s.Count());
    CompleteLaunchTakesEachOnce(launch, s.Count());
    ghost var before := output[..];
    for k := 0 to |order|
      invariant CopiedFor(s, before, input[..], output[..], Taken(order, k))
    {
      TakeNext(order, s.Count(), k);
      var i := order[k];
      IndexesFit(s, output.Length, input.Length, i);
      ghost var out := output[..];
      output[s.Out()(i)] := input[s.In()(i)];
      CopyOneMore(s, before, input[..], out, Taken(order, k), i, output[..]);
    }
    AllTaken(order, s.Count());
  }

  lemma EveryIndexCopied(s: Strides, before: seq<real>, input: seq<real>, out: seq<real>, i: nat)
    requires CopiedFor(s, before, input, out, Below(s.Count())) && i < s.Count()
    ensures CopiedAt(s, input, out, i)
  {
    assert IsBelow(i, s.Count()) && i in Below(s.Count());
  }

  /** Loop index b * width + j, where width is the smaller of the two, is cell j of block b on either
      side. */
  lemma CellOfBlock(s: Strides, b: nat, j: nat)
    requires b < s.blocks && j < s.Width()
    ensures b * s.Width() >= 0 && b * s.Width() + j < s.Count()
    ensures s.Out()(b * s.Width() + j) == b * s.outBlk + j && s.In()(b * s.Width() + j) == b * s.inBlk + j
  {
    MulBound(b, j, s.Width(), s.blocks);
    DivModOf(b, j, s.Width());
    assert b * s.Width() >= 0;
  }

  /** No loop index addresses a cell past the smaller width. */
  lemma RestOfBlock(s: Strides, b: nat, j: nat)
    requires s.Width() <= j < s.outBlk
    ensures b * s.outBlk >= 0 && !Addressed(s, Below(s.Count()), b * s.outBlk + j)
  {
    assert b * s.outBlk >= 0;
    forall i: nat ensures s.Out()(i) != b * s.outBlk + j {
      DivModBack(i, s.Width());
      DivModOf(i / s.Width(), i % s.Width(), s.outBlk);
      DivModOf(b, j, s.outBlk);
    }
  }

  /** Block by block, the first cells are those of the input, as many as the smaller width, and the
      rest of a wider output block is as before. */
  lemma CopiedCells(s: Strides, before: seq<real>, input: seq<real>, out: seq<real>, b: nat, j: nat)
    requires CopiedFor(s, before, input, out, Below(s.Count())) && b < s.blocks && j < s.outBlk
    ensures 0 <= b * s.outBlk + j < |out| == |before|
    ensures j < s.inBlk ==> 0 <= b * s.inBlk + j < |input| && out[b * s.outBlk + j] == input[b * s.inBlk + j]
    ensures j >= s.inBlk ==> out[b * s.outBlk + j] == before[b * s.outBlk + j]
  {
    MulBound(b, j, s.outBlk, s.blocks);
    if j < s.inBlk {
      CellOfBlock(s, b, j);
      EveryIndexCopied(s, before, input, out, b * s.Width() + j);
    } else {
      RestOfBlock(s, b, j);
    }
  }

  /** Copying narrow blocks into wider ones and back, whatever the two buffers held before, restores
      every cell. */
  lemma CopyThereAndBack(s: Strides, a: seq<real>, b0: seq<real>, b: seq<real>, c0: seq<real>, c: seq<real>)
    requires s.inBlk <= s.outBlk
    requires CopiedFor(s, b0, a, b, Below(s.Count())) && CopiedFor(s.Swapped(), c0, b, c, Below(s.Swapped().Count()))
    ensures c == a
  {
    forall p: nat | p < |a| ensures c[p] == a[p] {
      assert p < s.Count() && s.Swapped().Count() == s.Count();
      EveryIndexCopied(s, b0, a, b, p);
      EveryIndexCopied(s.Swapped(), c0, b, c, p);
      DivModBack(p, s.inBlk);
      assert s.In()(p) == p && s.Swapped().Out()(p) == p;
    }
  }

  // ------------------------------------------------------------------------- add

  ghost predicate AddedFor(s: Strides, before: seq<real>, input: seq<real>, out: seq<real>, done: set<nat>) {
    && |out| == |before| && s.Fits(|out|, |input|)
    && (forall i :: i in done ==> AddedAt(s, before, input, out, i))
    && (forall q: nat :: q < |out| && !Addressed(s, done, q) ==> out[q] == before[q])
  }

  predicate AddedAt(s: Strides, before: seq<real>, input: seq<real>, out: seq<real>, i: nat) {
    && s.Out()(i) < |out| == |before| && s.In()(i) < |input|
    && out[s.Out()(i)] == before[s.Out()(i)] + input[s.In()(i)]
  }

  lemma AddOneMore(
      s: Strides, before: seq<real>, input: seq<real>, out: seq<real>, done: set<nat>, i: nat, out': seq<real>)
    requires AddedFor(s, before, input, out, done) && i !in done && i < s.Count()
    requires s.Out()(i) < |out| && s.In()(i) < |input| && out' == out[s.Out()(i) := out[s.Out()(i)] + input[s.In()(i)]]
    ensures AddedFor(s, before, input, out', done + {i})
  {
    assert !Addressed(s, done, s.Out()(i)) by {
      if Addressed(s, done, s.Out()(i)) {
        var j :| j in done && s.Out()(j) == s.Out()(i);
        OffsetsDiffer(s.Width(), s.outBlk, j, i);
      }
    }
    forall j | j in done + {i} ensures AddedAt(s, before, input, out', j) {
      if j != i {
        assert AddedAt(s, before, input, out, j);
        if s.Out()(j) == s.Out()(i) { OffsetsDiffer(s.Width(), s.outBlk, j, i); }
      }
    }
    forall q: nat | q < |out| && !Addressed(s, done + {i}, q) ensures out'[q] == before[q] {
      assert i in done + {i};
      assert q != s.Out()(i);
      assert forall j :: j in done ==> j in done + {i};
      assert !Addressed(s, done, q);
    }
  }

  method AddWithStride(output: array<real>, input: array<real>, s: Strides, launch: Launch)
    requires output != input && s.Fits(output.Length, input.Length) && launch.Complete(s.Count())
    modifies output
    ensures AddedFor(s, old(output[..]), input[..], output[..], Below(s.Count()))
  {
    var order := launch.Indices(s.Count());
    CompleteLaunchTakesEachOnce(launch, s.Count());
    ghost var before := output[..];
    for k := 0 to |order|
      invariant AddedFor(s, before, input[..], output[..], Taken(order, k))
    {
      TakeNext(order, s.Count(), k);
      var i := order[k];
      IndexesFit(s, output.Length, input.Length, i);
      ghost var out := output[..];
      output[s.Out()(i)] := output[s.Out()(i)] + input[s.In()(i)];
      AddOneMore(s, before, input[..], out, Taken(order, k), i, output[..]);
    }
    AllTaken(order, s.Count());
  }

  lemma EveryIndexAdded(s: Strides, before: seq<real>, input: seq<real>, out: seq<real>, i: nat)
    requires AddedFor(s, before, input, out, Below(s.Count())) && i < s.Count()
    ensures AddedAt(s, before, input, out, i)
  {
    assert IsBelow(i, s.Count()) && i in Below(s.Count());
  }

  /** Block by block, the first cells receive those of the input, as many as the smaller width, and the
      rest of a wider output block is as before. */
  lemma AddedCells(s: Strides, before: seq<real>, input: seq<real>, out: seq<real>, b: nat, j: nat)
    requires AddedFor(s, before, input, out, Below(s.Count())) && b < s.blocks && j < s.outBlk
    ensures 0 <= b * s.outBlk + j < |out| == |before|
    ensures j < s.inBlk ==>
      && 0 <= b * s.inBlk + j < |input|
      && out[b * s.outBlk + j] == before[b * s.outBlk + j] + input[b * s.inBlk + j]
    ensures j >= s.inBlk ==> out[b * s.outBlk + j] == before[b * s.outBlk + j]
  {
    MulBound(b, j, s.outBlk, s.blocks);
    if j < s.inBlk {
      CellOfBlock(s, b, j);
      EveryIndexAdded(s, before, input, out, b * s.Width() + j);
    } else {
      RestOfBlock(s, b, j);
    }
  }

  // ------------------------------------------------------------------- adjointness

  function ReadIn(s: Strides, input: seq<real>): nat -> real {
    (i: nat) => Elem(input, s.In()(i))
  }

  function Zeros(n: nat): (z: seq<real>)
    ensures |z| == n && forall k :: 0 <= k < n ==> z[k] == 0.0
  {
    seq(n, k => 0.0)
  }

  /** What cell q receives, as a scatter: at most one index addresses it. */
  lemma CellReceives(s: Strides, input: seq<real>, q: nat, i: nat)
    requires i < s.Count() && s.Out()(i) == q
    ensures Scatter(s.Count(), s.Out(), ReadIn(s, input), q) == Elem(input, s.In()(i))
  {
    var f := Hit(s.Out(), ReadIn(s, input), q);
    forall j: nat | j < s.Count() && j != i ensures f(j) == 0.0 {
      if s.Out()(j) == q { OffsetsDiffer(s.Width(), s.outBlk, j, i); }
    }
    SumSingle(s.Count(), f, i);
  }

  lemma CellReceivesNothing(s: Strides, input: seq<real>, q: nat)
    requires forall i: nat :: i < s.Count() ==> s.Out()(i) != q
    ensures Scatter(s.Count(), s.Out(), ReadIn(s, input), q) == 0.0
  {
    SumZero(s.Count(), Hit(s.Out(), ReadIn(s, input), q));
  }

  /** Copying into a zeroed buffer, and adding to one, both scatter the input. */
  lemma CopyIsScatter(s: Strides, input: seq<real>, out: seq<real>, done: set<nat>, q: nat)
    requires CopiedFor(s, Zeros(|out|), input, out, done) && done == Below(s.Count()) && q < |out|
    ensures out[q] == Scatter(s.Count(), s.Out(), ReadIn(s, input), q)
  {
    if Addressed(s, done, q) {
      var i :| i in done && s.Out()(i) == q;
      assert CopiedAt(s, input, out, i);
      CellReceives(s, input, q, i);
    } else {
      CellReceivesNothing(s, input, q);
    }
  }

  lemma AddIsScatter(s: Strides, before: seq<real>, input: seq<real>, out: seq<real>, done: set<nat>, q: nat)
    requires AddedFor(s, before, input, out, done) && done == Below(s.Count()) && q < |out|
    ensures out[q] == before[q] + Scatter(s.Count(), s.Out(), ReadIn(s, input), q)
  {
    if Addressed(s, done, q) {
      var i :| i in done && s.Out()(i) == q;
      assert AddedAt(s, before, input, out, i);
      CellReceives(s, input, q, i);
    } else {
      CellReceivesNothing(s, input, q);
    }
  }

  lemma ScatterPairs(s: Strides, input: seq<real>, out: seq<real>, y: seq<real>)
    requires s.Fits(|out|, |input|) && |y| == |out|
    requires forall q: nat :: q < |out| ==> out[q] == Scatter(s.Count(), s.Out(), ReadIn(s, input), q)
    ensures Dot(out, y) == Sum(s.Count(), GatherTerm(s.Out(), ReadIn(s, input), ElemsOf(y)))
  {
    forall i: nat | i < s.Count() ensures s.Out()(i) < |y| {
      IndexesFit(s, |out|, |input|, i);
    }
    ScatteredDot(s.Count(), s.Out(), ReadIn(s, input), out, y);
  }

  /** Adding with the roles of input and output exchanged is the adjoint of copying into a zeroed
      buffer: whatever y is, it pairs with the copy of x as the sum of y's cells pairs with x. */
  lemma StridedAdjoint(s: Strides, x: seq<real>, out: seq<real>, y: seq<real>, back: seq<real>)
    requires CopiedFor(s, Zeros(|out|), x, out, Below(s.Count())) && |y| == |out|
    requires AddedFor(s.Swapped(), Zeros(|back|), y, back, Below(s.Swapped().Count()))
    ensures Dot(out, y) == Dot(back, x)
  {
    forall q: nat | q < |out| ensures out[q] == Scatter(s.Count(), s.Out(), ReadIn(s, x), q) {
      CopyIsScatter(s, x, out, Below(s.Count()), q);
    }
    ScatterPairs(s, x, out, y);
    var t := s.Swapped();
    forall q: nat | q < |back| ensures back[q] == Scatter(t.Count(), t.Out(), ReadIn(t, y), q) {
      AddIsScatter(t, Zeros(|back|), y, back, Below(t.Count()), q);
    }
    ScatterPairs(t, y, back, x);
    SamePairs(s, x, y);
  }

  lemma SwappedRoles(s: Strides, i: nat)
    ensures s.Swapped().Out()(i) == s.In()(i) && s.Swapped().In()(i) == s.Out()(i)
  {
    assert s.Swapped().Width() == s.Width();
  }

  lemma SamePairs(s: Strides, x: seq<real>, y: seq<real>)
    ensures s.Count() == s.Swapped().Count()
    ensures Sum(s.Count(), GatherTerm(s.Out(), ReadIn(s, x), ElemsOf(y)))
         == Sum(s.Count(), GatherTerm(s.Swapped().Out(), ReadIn(s.Swapped(), y), ElemsOf(x)))
  {
    var t := s.Swapped();
    forall i: nat
      ensures ReadIn(t, y)(i) == ElemsOf(y)(s.Out()(i)) && ElemsOf(x)(t.Out()(i)) == ReadIn(s, x)(i)
    {
      SwappedRoles(s, i);
    }
    ExchangedPairs(s.Count(), s.Out(), ReadIn(s, x), ElemsOf(y), t.Out(), ReadIn(t, y), ElemsOf(x));
  }

  lemma ExchangedPair(
      phi: nat -> nat, x: nat -> real, y: nat -> real, phi': nat -> nat, x': nat -> real, y': nat -> real, i: nat)
    requires x'(i) == y(phi(i)) && y'(phi'(i)) == x(i)
    ensures GatherTerm(phi, x, y)(i) == GatherTerm(phi', x', y')(i)
  {
    GatherIsProduct(phi, x, y, i);
    GatherIsProduct(phi', x', y', i);
    ProductCommutes(x(i), y(phi(i)));
  }

  function Product(a: real, b: real): real {
    a * b
  }

  lemma ProductCommutes(a: real, b: real)
    ensures Product(a, b) == Product(b, a)
  {
  }

  lemma GatherIsProduct(phi: nat -> nat, x: nat -> real, y: nat -> real, i: nat)
    ensures GatherTerm(phi, x, y)(i) == Product(x(i), y(phi(i)))
  {
  }

  lemma ExchangedPairs(
      n: nat, phi: nat -> nat, x: nat -> real, y: nat -> real, phi': nat -> nat, x': nat -> real, y': nat -> real)
    requires forall i: nat :: x'(i) == y(phi(i)) && y'(phi'(i)) == x(i)
    ensures Sum(n, GatherTerm(phi, x, y)) == Sum(n, GatherTerm(phi', x', y'))
  {
    forall i: nat | i < n ensures GatherTerm(phi, x, y)(i) == GatherTerm(phi', x', y')(i) {
      ExchangedPair(phi, x, y, phi', x', y', i);
    }
    SumExt(n, GatherTerm(phi, x, y), GatherTerm(phi', x', y'));
  }
}
