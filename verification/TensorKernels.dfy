/** The CPU tensor kernels behind the operators: transposes, products, broadcast and the
    summing reduction, each as the loop that runs it, over flat buffers. */
module TensorKernels {
  import opened Sequences
  import opened Sums
  import opened TensorIndex
  import opened Accessors
  import opened Matrices

  // ------------------------------------------------- moving cells along a bijection

  /** Each in-bounds coordinate's element has been moved to the place phi gives it. */
  ghost predicate Rearranged<T>(src: seq<T>, srcDims: Dims, dst: seq<T>, dstDims: Dims, phi: Coord -> Coord) {
    && |src| == Size(srcDims) && |dst| == Size(dstDims)
    && forall c :: InBounds(c, srcDims) ==> MovedTo(src, srcDims, dst, dstDims, c, phi(c))
  }

  ghost predicate MovedTo<T>(src: seq<T>, srcDims: Dims, dst: seq<T>, dstDims: Dims, c: Coord, d: Coord) {
    && |c| == |srcDims| && InBounds(d, dstDims)
    && Offset(c, srcDims) < |src| && Offset(d, dstDims) < |dst|
    && dst[Offset(d, dstDims)] == src[Offset(c, srcDims)]
  }

  /** The first p coordinates of the traversal have been moved. */
  ghost predicate RearrangedUpTo<T>(
      src: seq<T>, srcDims: Dims, dst: seq<T>, dstDims: Dims, phi: Coord -> Coord, p: nat) {
    && |src| == Size(srcDims) && |dst| == Size(dstDims) && p <= Size(srcDims)
    && forall q: nat :: q < p ==> MovedTo(src, srcDims, dst, dstDims, Unflatten(q, srcDims), phi(Unflatten(q, srcDims)))
  }

  ghost predicate MapsInto(phi: Coord -> Coord, srcDims: Dims, dstDims: Dims) {
    && (forall c :: InBounds(c, srcDims) ==> InBounds(phi(c), dstDims))
    && (forall c, d :: InBounds(c, srcDims) && InBounds(d, srcDims) && phi(c) == phi(d) ==> c == d)
  }

  /** Writing one more cell disturbs none of the cells already written, because neither phi
      nor addressing ever sends two coordinates to one place. */
  lemma MoveOne<T>(src: seq<T>, srcDims: Dims, dst: seq<T>, dstDims: Dims, phi: Coord -> Coord, p: nat)
    requires RearrangedUpTo(src, srcDims, dst, dstDims, phi, p) && p < Size(srcDims) && MapsInto(phi, srcDims, dstDims)
    requires InBounds(Unflatten(p, srcDims), srcDims) && Offset(phi(Unflatten(p, srcDims)), dstDims) < |dst|
    ensures RearrangedUpTo(src, srcDims, dst[Offset(phi(Unflatten(p, srcDims)), dstDims) := src[p]], dstDims, phi,
      p + 1)
  {
    var c := Unflatten(p, srcDims);
    var next := dst[Offset(phi(c), dstDims) := src[p]];
    OffsetOfUnflatten(p, srcDims);
    forall q: nat | q < p + 1
      ensures MovedTo(src, srcDims, next, dstDims, Unflatten(q, srcDims), phi(Unflatten(q, srcDims)))
    {
      if q < p {
        var d := Unflatten(q, srcDims);
        assert MovedTo(src, srcDims, dst, dstDims, d, phi(d));
        UnflattenInBounds(q, srcDims);
        OffsetOfUnflatten(q, srcDims);
        if Offset(phi(d), dstDims) == Offset(phi(c), dstDims) {
          OffsetInjective(phi(d), phi(c), dstDims);
        }
      }
    }
  }

  lemma MovedAll<T>(src: seq<T>, srcDims: Dims, dst: seq<T>, dstDims: Dims, phi: Coord -> Coord)
    requires RearrangedUpTo(src, srcDims, dst, dstDims, phi, Size(srcDims))
    ensures Rearranged(src, srcDims, dst, dstDims, phi)
  {
    forall c | InBounds(c, srcDims) ensures MovedTo(src, srcDims, dst, dstDims, c, phi(c)) {
      OffsetBound(c, srcDims);
      UnflattenOfOffset(c, srcDims);
      var q := Offset(c, srcDims);
      assert MovedTo(src, srcDims, dst, dstDims, Unflatten(q, srcDims), phi(Unflatten(q, srcDims)));
    }
  }

  /** Moving there and back restores the buffer. */
  lemma RearrangedBack<T>(
      a: seq<T>, aDims: Dims, b: seq<T>, bDims: Dims, c: seq<T>, phi: Coord -> Coord, psi: Coord -> Coord)
    requires Rearranged(a, aDims, b, bDims, phi) && Rearranged(b, bDims, c, aDims, psi)
    requires forall x :: InBounds(x, aDims) ==> psi(phi(x)) == x
    ensures c == a
  {
    forall p | 0 <= p < |a| ensures c[p] == a[p] {
      var x := Unflatten(p, aDims);
      UnflattenInBounds(p, aDims);
      OffsetOfUnflatten(p, aDims);
      assert MovedTo(a, aDims, b, bDims, x, phi(x));
      assert MovedTo(b, bDims, c, aDims, phi(x), psi(phi(x)));
    }
  }

  // ------------------------------------------------------------------ transposes

  function Reversed2(): Coord -> Coord {
    (c: Coord) => if |c| == 2 then [c[1], c[0]] else c
  }

  function SwapLast(): Coord -> Coord {
    (c: Coord) => if |c| == 3 then [c[0], c[2], c[1]] else c
  }

  method TransposeTo<T(0)>(input: Tensor<T>, output: Tensor<T>)
    requires input.Sized() && output.Sized() && |input.dims| == 2
    requires output.dims == [input.dims[1], input.dims[0]]
    modifies output.ptr
    ensures Rearranged(old(input.ptr[..]), input.dims, output.ptr[..], output.dims, Reversed2())
  {
    var inputCpu := CopyToCpuIfNecessary(input);
    var outputCpu := AllocateTensor<T>(output.dims, CPU);
    ghost var src := inputCpu.ptr[..];
    var coords := CoordSeq(input.dims);
    for p := 0 to |coords|
      invariant inputCpu.ptr[..] == src && output.ptr[..] == old(output.ptr[..])
      invariant RearrangedUpTo(src, input.dims, outputCpu.ptr[..], output.dims, Reversed2(), p)
    {
      UnflattenInBounds(p, input.dims);
      OffsetOfUnflatten(p, input.dims);
      var inputCoord := coords[p];
      var outputCoord := [inputCoord[1], inputCoord[0]];
      var v := At(inputCpu, inputCoord);
      OffsetBound(outputCoord, output.dims);
      MoveOne(src, input.dims, outputCpu.ptr[..], output.dims, Reversed2(), p);
      SetAt(outputCpu, outputCoord, v);
    }
    MovedAll(src, input.dims, outputCpu.ptr[..], output.dims, Reversed2());
    CopyAccessorData(output, outputCpu);
  }

  method Transpose<T(0)>(input: Tensor<T>) returns (output: Tensor<T>)
    requires input.Sized() && |input.dims| == 2
    ensures output.Sized() && output.dims == [input.dims[1], input.dims[0]] && output.device == CPU && fresh(output.ptr)
    ensures Rearranged(input.ptr[..], input.dims, output.ptr[..], output.dims, Reversed2())
  {
    output := AllocateTensor<T>([input.dims[1], input.dims[0]], CPU);
    TransposeTo(input, output);
  }

  method BatchTransposeTo<T(0)>(input: Tensor<T>, output: Tensor<T>)
    requires input.Sized() && output.Sized() && |input.dims| == 3
    requires output.dims == [input.dims[0], input.dims[2], input.dims[1]]
    modifies output.ptr
    ensures Rearranged(old(input.ptr[..]), input.dims, output.ptr[..], output.dims, SwapLast())
  {
    var inputCpu := CopyToCpuIfNecessary(input);
    var outputCpu := AllocateTensor<T>(output.dims, CPU);
    ghost var src := inputCpu.ptr[..];
    var coords := CoordSeq(input.dims);
    for p := 0 to |coords|
      invariant inputCpu.ptr[..] == src && output.ptr[..] == old(output.ptr[..])
      invariant RearrangedUpTo(src, input.dims, outputCpu.ptr[..], output.dims, SwapLast(), p)
    {
      UnflattenInBounds(p, input.dims);
      OffsetOfUnflatten(p, input.dims);
      var inputCoord := coords[p];
      var outputCoord := [inputCoord[0], inputCoord[2], inputCoord[1]];
      var v := At(inputCpu, inputCoord);
      OffsetBound(outputCoord, output.dims);
      MoveOne(src, input.dims, outputCpu.ptr[..], output.dims, SwapLast(), p);
      SetAt(outputCpu, outputCoord, v);
    }
    MovedAll(src, input.dims, outputCpu.ptr[..], output.dims, SwapLast());
    CopyAccessorData(output, outputCpu);
  }

  method BatchTranspose<T(0)>(input: Tensor<T>) returns (output: Tensor<T>)
    requires input.Sized() && |input.dims| == 3
    ensures output.Sized() && output.device == CPU && fresh(output.ptr)
    ensures output.dims == [input.dims[0], input.dims[2], input.dims[1]]
    ensures Rearranged(input.ptr[..], input.dims, output.ptr[..], output.dims, SwapLast())
  {
    output := AllocateTensor<T>([input.dims[0], input.dims[2], input.dims[1]], CPU);
    BatchTransposeTo(input, output);
  }

  lemma TransposedView(src: seq<real>, dims: Dims, dst: seq<real>, dstDims: Dims)
    requires |dims| == 2 && dstDims == [dims[1], dims[0]]
    requires Rearranged(src, dims, dst, dstDims, Reversed2())
    ensures Agree(dims[1], dims[0], View2(dst, dstDims), Transposed(View2(src, dims)))
  {
    forall i: nat, j: nat | i < dims[1] && j < dims[0]
      ensures View2(dst, dstDims)(i, j) == Transposed(View2(src, dims))(i, j)
    {
      assert InBounds([j, i], dims) && Reversed2()([j, i]) == [i, j];
      assert MovedTo(src, dims, dst, dstDims, [j, i], Reversed2()([j, i]));
      EntryOfView2(src, dims, j, i);
      EntryOfView2(dst, dstDims, i, j);
    }
  }

  lemma BatchTransposedView(src: seq<real>, dims: Dims, dst: seq<real>, dstDims: Dims, b: nat)
    requires |dims| == 3 && dstDims == [dims[0], dims[2], dims[1]] && b < dims[0]
    requires Rearranged(src, dims, dst, dstDims, SwapLast())
    ensures Agree(dims[2], dims[1], View3(dst, dstDims, b), Transposed(View3(src, dims, b)))
  {
    forall i: nat, j: nat | i < dims[2] && j < dims[1]
      ensures View3(dst, dstDims, b)(i, j) == Transposed(View3(src, dims, b))(i, j)
    {
      assert InBounds([b, j, i], dims) && SwapLast()([b, j, i]) == [b, i, j];
      assert MovedTo(src, dims, dst, dstDims, [b, j, i], SwapLast()([b, j, i]));
      EntryOfView3(src, dims, b, j, i);
      EntryOfView3(dst, dstDims, b, i, j);
    }
  }

  // -------------------------------------------------------------------- products

  /** The first p cells of a buffer. */
  ghost predicate Filled(s: seq<real>, p: nat, value: nat -> real) {
    p <= |s| && forall q: nat :: q < p ==> s[q] == value(q)
  }

  lemma FillNext(s: seq<real>, p: nat, value: nat -> real, v: real)
    requires Filled(s, p, value) && p < |s| && v == value(p)
    ensures Filled(s[p := v], p + 1, value)
  {
  }

  /** The cells of a matrix in row-major order. */
  function Entries2(P: Matrix, dims: Dims): nat -> real
    requires |dims| == 2
  {
    (q: nat) => var c := Unflatten(q, dims); P(c[0], c[1])
  }

  function Entries3(P: nat -> Matrix, dims: Dims): nat -> real
    requires |dims| == 3
  {
    (q: nat) => var c := Unflatten(q, dims); P(c[0])(c[1], c[2])
  }

  lemma Entries2At(P: Matrix, dims: Dims, i: nat, j: nat)
    requires |dims| == 2 && i < dims[0] && j < dims[1]
    ensures Offset([i, j], dims) == i * dims[1] + j < Size(dims) == dims[0] * dims[1]
    ensures Entries2(P, dims)(i * dims[1] + j) == P(i, j)
  {
    var c: Coord := [i, j];
    assert dims == [dims[0], dims[1]];
    Offset2(i, j, dims[0], dims[1]);
    Size2(dims[0], dims[1]);
    OffsetBound(c, dims);
    UnflattenOfOffset(c, dims);
  }

  lemma Entries3At(P: nat -> Matrix, dims: Dims, b: nat, i: nat, j: nat)
    requires |dims| == 3 && b < dims[0] && i < dims[1] && j < dims[2]
    ensures Offset([b, i, j], dims) == b * (dims[1] * dims[2]) + i * dims[2] + j < Size(dims) ==
      dims[0] * (dims[1] * dims[2])
    ensures Entries3(P, dims)(b * (dims[1] * dims[2]) + i * dims[2] + j) == P(b)(i, j)
  {
    var c: Coord := [b, i, j];
    assert dims == [dims[0], dims[1], dims[2]];
    Offset3(b, i, j, dims[0], dims[1], dims[2]);
    Size3(dims[0], dims[1], dims[2]);
    OffsetBound(c, dims);
    UnflattenOfOffset(c, dims);
  }

  lemma FilledMatrix(s: seq<real>, dims: Dims, P: Matrix)
    requires |dims| == 2 && |s| == Size(dims) && Filled(s, |s|, Entries2(P, dims))
    ensures Agree(dims[0], dims[1], View2(s, dims), P)
  {
    forall i: nat, j: nat | i < dims[0] && j < dims[1] ensures View2(s, dims)(i, j) == P(i, j) {
      FilledEntry(s, dims, P, i, j);
    }
  }

  lemma FilledEntry(s: seq<real>, dims: Dims, P: Matrix, i: nat, j: nat)
    requires |dims| == 2 && |s| == Size(dims) && Filled(s, |s|, Entries2(P, dims))
    requires i < dims[0] && j < dims[1]
    ensures View2(s, dims)(i, j) == P(i, j)
  {
    var c: Coord := [i, j];
    OffsetBound(c, dims);
    UnflattenOfOffset(c, dims);
    FilledCell(s, dims, Entries2(P, dims), i, j, Offset([i, j], dims));
  }

  lemma FilledCell(s: seq<real>, dims: Dims, value: nat -> real, i: nat, j: nat, q: nat)
    requires |dims| == 2 && q == Offset([i, j], dims) < |s| && Filled(s, |s|, value)
    ensures View2(s, dims)(i, j) == value(q)
  {
    EntryOfView2(s, dims, i, j);
  }

  lemma FilledBatch(s: seq<real>, dims: Dims, P: nat -> Matrix)
    requires |dims| == 3 && |s| == Size(dims) && Filled(s, |s|, Entries3(P, dims))
    ensures forall b: nat :: b < dims[0] ==> Agree(dims[1], dims[2], View3(s, dims, b), P(b))
  {
    forall b: nat, i: nat, j: nat | b < dims[0] && i < dims[1] && j < dims[2]
      ensures View3(s, dims, b)(i, j) == P(b)(i, j)
    {
      Entries3At(P, dims, b, i, j);
      EntryOfView3(s, dims, b, i, j);
    }
  }

  /** Writes the next cell in row-major order. */
  method WriteNext(t: Tensor<real>, coord: Coord, v: real, ghost p: nat, ghost value: nat -> real)
    requires t.Sized() && t.device == CPU && InBounds(coord, t.dims)
    requires Offset(coord, t.dims) == p < Size(t.dims) && Filled(t.ptr[..], p, value) && v == value(p)
    modifies t.ptr
    ensures Filled(t.ptr[..], p + 1, value)
  {
    FillNext(t.ptr[..], p, value, v);
    SetAt(t, coord, v);
  }

  method ReadEntry(t: Tensor<real>, i: nat, j: nat) returns (v: real)
    requires t.Sized() && t.device == CPU && |t.dims| == 2 && i < t.dims[0] && j < t.dims[1]
    ensures v == View2(t.ptr[..], t.dims)(i, j)
  {
    var c: Coord := [i, j];
    v := At(t, c);
    EntryOfView2(t.ptr[..], t.dims, i, j);
  }

  method ReadBatchEntry(t: Tensor<real>, b: nat, i: nat, j: nat) returns (v: real)
    requires t.Sized() && t.device == CPU && |t.dims| == 3 && b < t.dims[0] && i < t.dims[1] && j < t.dims[2]
    ensures v == View3(t.ptr[..], t.dims, b)(i, j)
  {
    var c: Coord := [b, i, j];
    v := At(t, c);
    EntryOfView3(t.ptr[..], t.dims, b, i, j);
  }

  /** The product of two buffers as matrices. */
  function Product(l: seq<real>, lDims: Dims, r: seq<real>, rDims: Dims): Matrix
    requires |lDims| == 2 && |rDims| == 2
  {
    MatMul(lDims[1], View2(l, lDims), View2(r, rDims))
  }

  /** The innermost loop of a product. */
  method InnerProduct(lhs: Tensor<real>, rhs: Tensor<real>, i: nat, j: nat) returns (accum: real)
    requires lhs.Sized() && rhs.Sized() && lhs.device == CPU && rhs.device == CPU
    requires |lhs.dims| == 2 && |rhs.dims| == 2 && lhs.dims[1] == rhs.dims[0] && i < lhs.dims[0] && j < rhs.dims[1]
    ensures accum == Product(lhs.ptr[..], lhs.dims, rhs.ptr[..], rhs.dims)(i, j)
  {
    ghost var A, B := View2(lhs.ptr[..], lhs.dims), View2(rhs.ptr[..], rhs.dims);
    ghost var term := ProductTerm(A, B, i, j);
    accum := 0.0;
    var inner: nat := lhs.dims[1];
    for k := 0 to inner
      invariant accum == Sum(k, term)
    {
      var xy := ProductOfEntries(lhs, rhs, i, j, k);
      SumNext(k, term, xy);
      accum := accum + xy;
    }
  }

  method ProductOfEntries(lhs: Tensor<real>, rhs: Tensor<real>, i: nat, j: nat, k: nat) returns (xy: real)
    requires lhs.Sized() && rhs.Sized() && lhs.device == CPU && rhs.device == CPU && |lhs.dims| == 2 && |rhs.dims| == 2
    requires i < lhs.dims[0] && k < lhs.dims[1] == rhs.dims[0] && j < rhs.dims[1]
    ensures xy == ProductTerm(View2(lhs.ptr[..], lhs.dims), View2(rhs.ptr[..], rhs.dims), i, j)(k)
  {
    var x := ReadEntry(lhs, i, k);
    var y := ReadEntry(rhs, k, j);
    ProductTermAt(View2(lhs.ptr[..], lhs.dims), View2(rhs.ptr[..], rhs.dims), i, j, k);
    xy := x * y;
  }

  /** The loop over the columns of row i. */
  method MatmulRow(lhs: Tensor<real>, rhs: Tensor<real>, output: Tensor<real>, i: nat, ghost P: Matrix)
    requires lhs.Sized() && rhs.Sized() && output.Sized() && lhs.device == CPU && rhs.device == CPU
    requires output.device == CPU
    requires |lhs.dims| == 2 && |rhs.dims| == 2 && lhs.dims[1] == rhs.dims[0]
    requires output.dims == [lhs.dims[0], rhs.dims[1]] && i < lhs.dims[0]
    requires output.ptr != lhs.ptr && output.ptr != rhs.ptr
    requires P == Product(lhs.ptr[..], lhs.dims, rhs.ptr[..], rhs.dims)
    requires i * rhs.dims[1] >= 0 && Filled(output.ptr[..], i * rhs.dims[1], Entries2(P, output.dims))
    modifies output.ptr
    ensures i * rhs.dims[1] >= 0 && Filled(output.ptr[..], i * rhs.dims[1] + rhs.dims[1], Entries2(P, output.dims))
  {
    ghost var l, r := lhs.ptr[..], rhs.ptr[..];
    var cols: nat := rhs.dims[1];
    ghost var start: nat := i * rhs.dims[1];
    for j := 0 to cols
      invariant lhs.ptr[..] == l && rhs.ptr[..] == r
      invariant Filled(output.ptr[..], start + j, Entries2(P, output.dims))
    {
      var accum := InnerProduct(lhs, rhs, i, j);
      Entries2At(P, output.dims, i, j);
      WriteNext(output, [i, j], accum, start + j, Entries2(P, output.dims));
    }
  }

  function MatmulShape(lDims: Dims, rDims: Dims): Dims
    requires |lDims| == 2 && |rDims| == 2
  {
    [lDims[0], rDims[1]]
  }

  /** As many cells of the product are copied as the output's shape has. */
  method MatmulTo(lhs: Tensor<real>, rhs: Tensor<real>, output: Tensor<real>)
    requires lhs.Sized() && rhs.Sized() && output.Sized()
    requires |lhs.dims| == 2 && |rhs.dims| == 2 && lhs.dims[1] == rhs.dims[0]
    requires Size(output.dims) <= Size(MatmulShape(lhs.dims, rhs.dims))
    modifies output.ptr
    ensures var P := Product(old(lhs.ptr[..]), lhs.dims, old(rhs.ptr[..]), rhs.dims);
      && Filled(output.ptr[..], Size(output.dims), Entries2(P, MatmulShape(lhs.dims, rhs.dims)))
      && (output.dims == MatmulShape(lhs.dims, rhs.dims)
        ==> Agree(lhs.dims[0], rhs.dims[1], View2(output.ptr[..], output.dims), P))
  {
    var lhsCpu := CopyToCpuIfNecessary(lhs);
    var rhsCpu := CopyToCpuIfNecessary(rhs);
    var outputCpu := MatmulOnCpu(lhsCpu, rhsCpu);
    ghost var P := Product(lhsCpu.ptr[..], lhs.dims, rhsCpu.ptr[..], rhs.dims);
    CopyAccessorData(output, outputCpu);
    if output.dims == outputCpu.dims { FilledMatrix(output.ptr[..], output.dims, P); }
  }

  method MatmulOnCpu(lhs: Tensor<real>, rhs: Tensor<real>) returns (output: Tensor<real>)
    requires lhs.Sized() && rhs.Sized() && lhs.device == CPU && rhs.device == CPU
    requires |lhs.dims| == 2 && |rhs.dims| == 2 && lhs.dims[1] == rhs.dims[0]
    ensures output.Sized() && output.dims == MatmulShape(lhs.dims, rhs.dims) && fresh(output.ptr)
    ensures Filled(output.ptr[..], Size(output.dims),
      Entries2(Product(lhs.ptr[..], lhs.dims, rhs.ptr[..], rhs.dims), output.dims))
  {
    output := AllocateTensor<real>(MatmulShape(lhs.dims, rhs.dims), CPU);
    ghost var l, r := lhs.ptr[..], rhs.ptr[..];
    ghost var P := Product(l, lhs.dims, r, rhs.dims);
    var rows: nat, cols: nat := lhs.dims[0], rhs.dims[1];
    for i := 0 to rows
      invariant lhs.ptr[..] == l && rhs.ptr[..] == r
      invariant i * cols >= 0 && Filled(output.ptr[..], i * cols, Entries2(P, output.dims))
    {
      MatmulRow(lhs, rhs, output, i, P);
      assert i * cols + cols == (i + 1) * cols;
    }
    Size2(output.dims[0], output.dims[1]);
  }

  method Matmul(lhs: Tensor<real>, rhs: Tensor<real>) returns (output: Tensor<real>)
    requires lhs.Sized() && rhs.Sized()
    requires |lhs.dims| == 2 && |rhs.dims| == 2 && lhs.dims[1] == rhs.dims[0]
    ensures output.Sized() && output.dims == [lhs.dims[0], rhs.dims[1]] && output.device == CPU && fresh(output.ptr)
    ensures Agree(lhs.dims[0], rhs.dims[1], View2(output.ptr[..], output.dims),
      Product(lhs.ptr[..], lhs.dims, rhs.ptr[..], rhs.dims))
  {
    output := AllocateTensor<real>([lhs.dims[0], rhs.dims[1]], CPU);
    MatmulTo(lhs, rhs, output);
  }

  // --------------------------------------------------------------- batch products

  /** Matrix b of the batch product of two buffers. */
  function BatchProduct(l: seq<real>, lDims: Dims, r: seq<real>, rDims: Dims, b: nat): Matrix
    requires |lDims| == 3 && |rDims| == 3
  {
    MatMul(lDims[2], View3(l, lDims, b), View3(r, rDims, b))
  }

  /** Each matrix of the output batch is the product of the two matrices at its place. */
  ghost predicate IsBatchProduct(out: seq<real>, outDims: Dims, l: seq<real>, lDims: Dims, r: seq<real>, rDims: Dims) {
    && |outDims| == 3 && |lDims| == 3 && |rDims| == 3
    && forall b: nat :: b < outDims[0] ==> Agree(outDims[1], outDims[2], View3(out, outDims, b),
      BatchProduct(l, lDims, r, rDims, b))
  }

  method BatchInnerProduct(lhs: Tensor<real>, rhs: Tensor<real>, b: nat, i: nat, j: nat) returns (accum: real)
    requires lhs.Sized() && rhs.Sized() && lhs.device == CPU && rhs.device == CPU
    requires |lhs.dims| == 3 && |rhs.dims| == 3 && lhs.dims[0] == rhs.dims[0] && lhs.dims[2] == rhs.dims[1]
    requires b < lhs.dims[0] && i < lhs.dims[1] && j < rhs.dims[2]
    ensures accum == BatchProduct(lhs.ptr[..], lhs.dims, rhs.ptr[..], rhs.dims, b)(i, j)
  {
    ghost var A, B := View3(lhs.ptr[..], lhs.dims, b), View3(rhs.ptr[..], rhs.dims, b);
    ghost var term := ProductTerm(A, B, i, j);
    accum := 0.0;
    var inner: nat := lhs.dims[2];
    for k := 0 to inner
      invariant accum == Sum(k, term)
    {
      var xy := ProductOfBatchEntries(lhs, rhs, b, i, j, k);
      SumNext(k, term, xy);
      accum := accum + xy;
    }
  }

  method ProductOfBatchEntries(lhs: Tensor<real>, rhs: Tensor<real>, b: nat, i: nat, j: nat, k: nat) returns (xy: real)
    requires lhs.Sized() && rhs.Sized() && lhs.device == CPU && rhs.device == CPU && |lhs.dims| == 3 && |rhs.dims| == 3
    requires b < lhs.dims[0] == rhs.dims[0] && i < lhs.dims[1] && k < lhs.dims[2] == rhs.dims[1] && j < rhs.dims[2]
    ensures xy == ProductTerm(View3(lhs.ptr[..], lhs.dims, b), View3(rhs.ptr[..], rhs.dims, b), i, j)(k)
  {
    var x := ReadBatchEntry(lhs, b, i, k);
    var y := ReadBatchEntry(rhs, b, k, j);
    ProductTermAt(View3(lhs.ptr[..], lhs.dims, b), View3(rhs.ptr[..], rhs.dims, b), i, j, k);
    xy := x * y;
  }

  /** The loop over the columns of row i of batch entry b; `start` is the row's first cell. */
  method BatchMatmulRow(
      lhs: Tensor<real>, rhs: Tensor<real>, output: Tensor<real>, b: nat, i: nat, ghost P: nat -> Matrix,
      ghost start: nat)
    requires lhs.Sized() && rhs.Sized() && output.Sized() && lhs.device == CPU && rhs.device == CPU
    requires output.device == CPU
    requires |lhs.dims| == 3 && |rhs.dims| == 3 && lhs.dims[0] == rhs.dims[0] && lhs.dims[2] == rhs.dims[1]
    requires output.dims == [lhs.dims[0], lhs.dims[1], rhs.dims[2]] && b < lhs.dims[0] && i < lhs.dims[1]
    requires output.ptr != lhs.ptr && output.ptr != rhs.ptr
    requires P(b) == BatchProduct(lhs.ptr[..], lhs.dims, rhs.ptr[..], rhs.dims, b)
    requires start == b * (output.dims[1] * output.dims[2]) + i * output.dims[2]
    requires Filled(output.ptr[..], start, Entries3(P, output.dims))
    modifies output.ptr
    ensures Filled(output.ptr[..], start + rhs.dims[2], Entries3(P, output.dims))
  {
    ghost var l, r := lhs.ptr[..], rhs.ptr[..];
    var cols: nat := rhs.dims[2];
    for j := 0 to cols
      invariant lhs.ptr[..] == l && rhs.ptr[..] == r
      invariant Filled(output.ptr[..], start + j, Entries3(P, output.dims))
    {
      var accum := BatchInnerProduct(lhs, rhs, b, i, j);
      Entries3At(P, output.dims, b, i, j);
      WriteNext(output, [b, i, j], accum, start + j, Entries3(P, output.dims));
    }
  }

  function BatchMatmulShape(lDims: Dims, rDims: Dims): Dims
    requires |lDims| == 3 && |rDims| == 3
  {
    [lDims[0], lDims[1], rDims[2]]
  }

  function BatchProducts(l: seq<real>, lDims: Dims, r: seq<real>, rDims: Dims): nat -> Matrix
    requires |lDims| == 3 && |rDims| == 3
  {
    (b: nat) => BatchProduct(l, lDims, r, rDims, b)
  }

  /** As many cells of the products are copied as the output's shape has. */
  method BatchMatmulTo(lhs: Tensor<real>, rhs: Tensor<real>, output: Tensor<real>)
    requires lhs.Sized() && rhs.Sized() && output.Sized()
    requires |lhs.dims| == 3 && |rhs.dims| == 3 && lhs.dims[0] == rhs.dims[0] && lhs.dims[2] == rhs.dims[1]
    requires |output.dims| >= 1 && output.dims[0] == lhs.dims[0]
    requires Size(output.dims) <= Size(BatchMatmulShape(lhs.dims, rhs.dims))
    modifies output.ptr
    ensures Filled(output.ptr[..], Size(output.dims),
      Entries3(BatchProducts(old(lhs.ptr[..]), lhs.dims, old(rhs.ptr[..]), rhs.dims),
        BatchMatmulShape(lhs.dims, rhs.dims)))
    ensures output.dims == BatchMatmulShape(lhs.dims, rhs.dims)
      ==> IsBatchProduct(output.ptr[..], output.dims, old(lhs.ptr[..]), lhs.dims, old(rhs.ptr[..]), rhs.dims)
  {
    var lhsCpu := CopyToCpuIfNecessary(lhs);
    var rhsCpu := CopyToCpuIfNecessary(rhs);
    var outputCpu := BatchMatmulOnCpu(lhsCpu, rhsCpu);
    ghost var P := BatchProducts(lhsCpu.ptr[..], lhs.dims, rhsCpu.ptr[..], rhs.dims);
    CopyAccessorData(output, outputCpu);
    if output.dims == outputCpu.dims { FilledBatch(output.ptr[..], output.dims, P); }
  }

  method BatchMatmulOnCpu(lhs: Tensor<real>, rhs: Tensor<real>) returns (output: Tensor<real>)
    requires lhs.Sized() && rhs.Sized() && lhs.device == CPU && rhs.device == CPU
    requires |lhs.dims| == 3 && |rhs.dims| == 3 && lhs.dims[0] == rhs.dims[0] && lhs.dims[2] == rhs.dims[1]
    ensures output.Sized() && output.dims == BatchMatmulShape(lhs.dims, rhs.dims) && fresh(output.ptr)
    ensures Filled(output.ptr[..], Size(output.dims),
      Entries3(BatchProducts(lhs.ptr[..], lhs.dims, rhs.ptr[..], rhs.dims), output.dims))
  {
    output := AllocateTensor<real>(BatchMatmulShape(lhs.dims, rhs.dims), CPU);
    ghost var l, r := lhs.ptr[..], rhs.ptr[..];
    ghost var P := BatchProducts(l, lhs.dims, r, rhs.dims);
    var batch: nat, rows: nat, cols: nat := lhs.dims[0], lhs.dims[1], rhs.dims[2];
    ghost var size: nat := output.dims[1] * output.dims[2];
    for b := 0 to batch
      invariant lhs.ptr[..] == l && rhs.ptr[..] == r
      invariant b * size >= 0 && Filled(output.ptr[..], b * size, Entries3(P, output.dims))
    {
      for i := 0 to rows
        invariant lhs.ptr[..] == l && rhs.ptr[..] == r
        invariant b * size + i * cols >= 0 && Filled(output.ptr[..], b * size + i * cols, Entries3(P, output.dims))
      {
        BatchMatmulRow(lhs, rhs, output, b, i, P, b * size + i * cols);
        assert i * cols + cols == (i + 1) * cols;
      }
      assert rows * cols == size && b * size + size == (b + 1) * size;
    }
    Size3(output.dims[0], output.dims[1], output.dims[2]);
    assert output.dims == [output.dims[0], output.dims[1], output.dims[2]];
  }

  // ------------------------------------------------------------------- broadcast

  predicate Broadcastable(dims: Dims, goal: Dims) {
    && |dims| <= |goal|
    && forall k :: 0 <= k < |dims| ==> dims[k] == 1 || dims[k] == goal[|goal| - |dims| + k]
  }

  /** The coordinate of the input that a coordinate of the output repeats: dimensions are
      matched from the innermost outwards, and a dimension of size one is always at zero. */
  function BroadcastSrcCoord(dims: Dims, goal: Dims, c: Coord): (s: Coord)
    requires Broadcastable(dims, goal) && InBounds(c, goal)
    ensures InBounds(s, dims)
  {
    seq(|dims|, k requires 0 <= k < |dims| => if dims[k] == 1 then 0 else c[|goal| - |dims| + k])
  }

  /** The cell of the input that cell p of the output repeats. */
  function BroadcastIndex(dims: Dims, goal: Dims, p: nat): (q: nat)
    requires Broadcastable(dims, goal) && p < Size(goal)
    ensures q < Size(dims)
  {
    UnflattenInBounds(p, goal);
    var c := BroadcastSrcCoord(dims, goal, Unflatten(p, goal));
    OffsetBound(c, dims);
    Offset(c, dims)
  }

  /** A coordinate of the output repeats the one coordinate of the input that it agrees with in all
      dimensions of more than one element, matched from the innermost outwards. */
  lemma BroadcastRepeats(dims: Dims, goal: Dims, c: Coord, s: Coord)
    requires Broadcastable(dims, goal) && InBounds(c, goal) && InBounds(s, dims)
    requires forall k :: 0 <= k < |dims| ==> dims[k] == 1 || s[k] == c[|goal| - |dims| + k]
    ensures Offset(c, goal) < Size(goal) && BroadcastIndex(dims, goal, Offset(c, goal)) == Offset(s, dims)
  {
    OffsetBound(c, goal);
    UnflattenOfOffset(c, goal);
    SourceIs(dims, goal, c, s);
    IndexOfSource(dims, goal, Offset(c, goal), c);
  }

  lemma SourceIs(dims: Dims, goal: Dims, c: Coord, s: Coord)
    requires Broadcastable(dims, goal) && InBounds(c, goal) && InBounds(s, dims)
    requires forall k :: 0 <= k < |dims| ==> dims[k] == 1 || s[k] == c[|goal| - |dims| + k]
    ensures BroadcastSrcCoord(dims, goal, c) == s
  {
  }

  lemma BroadcastStays(dims: Dims, p: nat)
    requires p < Size(dims)
    ensures Broadcastable(dims, dims) && BroadcastIndex(dims, dims, p) == p == p % Size(dims)
  {
    DivModOf(0, p, Size(dims));
    UnflattenInBounds(p, dims);
    OffsetOfUnflatten(p, dims);
    BroadcastRepeats(dims, dims, Unflatten(p, dims), Unflatten(p, dims));
  }

  /** Leading dimensions repeat the whole buffer; without any, the buffer stays as it is. */
  lemma {:induction false} BroadcastAlongLeading(lead: Dims, dims: Dims, p: nat)
    requires p < Size(lead + dims)
    ensures Broadcastable(dims, lead + dims) && BroadcastIndex(dims, lead + dims, p) == p % Size(dims)
  {
    if lead == [] {
      assert lead + dims == dims;
      BroadcastStays(dims, p);
    } else {
      var inner := lead[1..] + dims;
      assert (lead + dims)[1..] == inner;
      BroadcastAlongLeading(lead[1..], dims, p % Size(inner));
      RestRemainder(lead[1..], dims, p);
      NextLeading(lead + dims, inner, dims, p, p % Size(dims));
    }
  }

  lemma NextLeading(goal: Dims, inner: Dims, dims: Dims, p: nat, r: nat)
    requires |dims| < |goal| && goal[1..] == inner && Broadcastable(dims, inner) && p < Size(goal)
    requires p % Size(inner) < Size(inner) && BroadcastIndex(dims, inner, p % Size(inner)) == r
    ensures Broadcastable(dims, goal) && BroadcastIndex(dims, goal, p) == r
  {
    OuterDimensionRepeats(dims, goal, p);
  }

  lemma RestRemainder(lead: Dims, dims: Dims, p: nat)
    ensures p % Size(lead + dims) % Size(dims) == p % Size(dims)
  {
    SizeDivides(lead, dims);
    RemainderOfRemainder(p, Size(lead), Size(dims));
  }

  lemma OuterDimensionRepeats(dims: Dims, goal: Dims, p: nat)
    requires |dims| < |goal| && Broadcastable(dims, goal[1..]) && p < Size(goal)
    ensures Broadcastable(dims, goal) && p % Size(goal[1..]) < Size(goal[1..])
    ensures BroadcastIndex(dims, goal, p) == BroadcastIndex(dims, goal[1..], p % Size(goal[1..]))
  {
    var q := p % Size(goal[1..]);
    UnflattenInBounds(p, goal);
    UnflattenInBounds(q, goal[1..]);
    var c, d := Unflatten(p, goal), Unflatten(q, goal[1..]);
    TailOfUnflatten(p, goal);
    SameSource(dims, goal, c);
    IndexOfSource(dims, goal, p, c);
    IndexOfSource(dims, goal[1..], q, d);
  }

  lemma TailOfUnflatten(p: nat, dims: Dims)
    requires dims != []
    ensures Unflatten(p, dims)[1..] == Unflatten(p % Size(dims[1..]), dims[1..])
  {
  }

  lemma SameSource(dims: Dims, goal: Dims, c: Coord)
    requires |dims| < |goal| && Broadcastable(dims, goal[1..]) && InBounds(c, goal)
    ensures Broadcastable(dims, goal) && InBounds(c[1..], goal[1..])
    ensures BroadcastSrcCoord(dims, goal, c) == BroadcastSrcCoord(dims, goal[1..], c[1..])
  {
  }

  lemma IndexOfSource(dims: Dims, goal: Dims, p: nat, c: Coord)
    requires Broadcastable(dims, goal) && p < Size(goal) && c == Unflatten(p, goal) && InBounds(c, goal)
    ensures BroadcastIndex(dims, goal, p) == Offset(BroadcastSrcCoord(dims, goal, c), dims)
  {
  }

  lemma {:induction false} SizeDivides(lead: Dims, dims: Dims)
    ensures Size(lead + dims) == Size(lead) * Size(dims)
  {
    if lead == [] {
      assert lead + dims == dims;
    } else {
      var all := lead + dims;
      assert all[1..] == lead[1..] + dims && all[0] == lead[0];
      SizeDivides(lead[1..], dims);
      SizeIsProduct(lead);
      SizeIsProduct(all);
      ProductsAssociate(lead[0], Size(lead[1..]), Size(dims));
    }
  }

  lemma RemainderOfRemainder(p: nat, k: Pos, d: Pos)
    requires k * d > 0
    ensures p % (k * d) % d == p % d
  {
    var n := k * d;
    DivModBack(p, n);
    DivModBack(p % n, d);
    SameRemainder(p / n, k, d, p % n / d, p % n % d);
  }

  lemma SameRemainder(q: nat, k: nat, d: Pos, s: nat, r: nat)
    requires r < d
    ensures 0 <= q * (k * d) + (s * d + r) && (q * (k * d) + (s * d + r)) % d == r
  {
    ProductsAssociate(q, k, d);
    assert q * k * d + s * d == (q * k + s) * d;
    DivModOf(q * k + s, r, d);
  }

  method BroadcastTo<T(0)>(input: Tensor<T>, output: Tensor<T>)
    requires input.Sized() && output.Sized() && Broadcastable(input.dims, output.dims)
    modifies output.ptr
    ensures forall p :: 0 <= p < output.ptr.Length ==>
      output.ptr[p] == old(input.ptr[BroadcastIndex(input.dims, output.dims, p)])
  {
    var inputCpu := CopyToCpuIfNecessary(input);
    var outputCpu := AllocateTensor<T>(output.dims, CPU);
    ghost var src := inputCpu.ptr[..];
    var coords := CoordSeq(output.dims);
    for p := 0 to |coords|
      invariant inputCpu.ptr[..] == src && output.ptr[..] == old(output.ptr[..])
      invariant forall q :: 0 <= q < p ==> outputCpu.ptr[q] == src[BroadcastIndex(input.dims, output.dims, q)]
    {
      BroadcastCell(inputCpu, outputCpu, coords[p], p);
    }
    CopyAccessorData(output, outputCpu);
  }

  method BroadcastCell<T>(input: Tensor<T>, output: Tensor<T>, coord: Coord, ghost p: nat)
    requires input.Sized() && output.Sized() && input.device == CPU && output.device == CPU && input.ptr != output.ptr
    requires Broadcastable(input.dims, output.dims) && p < Size(output.dims) && coord == Unflatten(p, output.dims)
    modifies output.ptr
    ensures output.ptr[..] == old(output.ptr[..])[p := input.ptr[BroadcastIndex(input.dims, output.dims, p)]]
  {
    UnflattenInBounds(p, output.dims);
    OffsetOfUnflatten(p, output.dims);
    var v := At(input, BroadcastSrcCoord(input.dims, output.dims, coord));
    SetAt(output, coord, v);
  }

  method Broadcast<T(0)>(input: Tensor<T>, goal: Dims) returns (output: Tensor<T>)
    requires input.Sized() && Broadcastable(input.dims, goal)
    ensures output.Sized() && output.dims == goal && output.device == CPU && fresh(output.ptr)
    ensures forall p :: 0 <= p < output.ptr.Length ==>
      output.ptr[p] == input.ptr[BroadcastIndex(input.dims, goal, p)]
  {
    output := AllocateTensor<T>(goal, CPU);
    BroadcastTo(input, output);
  }

  // ------------------------------------------------------------ summing reduction

  lemma WithoutInBounds(c: Coord, dims: Dims, k: nat)
    requires InBounds(c, dims) && k < |dims|
    ensures InBounds(Without(c, k), Without(dims, k))
  {
  }

  /** The cell that cell p of the input is added to. */
  function ReduceIndex(dims: Dims, k: nat): nat -> nat
    requires k < |dims|
  {
    (p: nat) => Offset(Without(Unflatten(p, dims), k), Without(dims, k))
  }

  /** Coordinate c is added to the coordinate that has all its components but the k-th. */
  lemma ReductionDrops(dims: Dims, k: nat, c: Coord, d: Coord)
    requires k < |dims| && InBounds(c, dims) && |d| == |c| - 1
    requires forall j :: 0 <= j < |d| ==> d[j] == c[if j < k then j else j + 1]
    ensures InBounds(d, Without(dims, k)) && ReduceIndex(dims, k)(Offset(c, dims)) == Offset(d, Without(dims, k))
  {
    UnflattenOfOffset(c, dims);
    WithoutInBounds(c, dims, k);
    assert Without(c, k) == d;
    ReducedCell(dims, k, Offset(c, dims), c);
  }

  lemma ReducedCell(dims: Dims, k: nat, p: nat, c: Coord)
    requires k < |dims| && |c| == |dims| && Unflatten(p, dims) == c
    ensures ReduceIndex(dims, k)(p) == Offset(Without(c, k), Without(dims, k))
  {
  }

  function ElemsOf(s: seq<real>): nat -> real {
    (p: nat) => Elem(s, p)
  }

  method FillWithZeros(t: Tensor<real>)
    requires t.Sized()
    modifies t.ptr
    ensures forall q :: 0 <= q < t.ptr.Length ==> t.ptr[q] == 0.0
  {
    for k := 0 to t.ptr.Length
      invariant forall q :: 0 <= q < k ==> t.ptr[q] == 0.0
    {
      t.ptr[k] := 0.0;
    }
  }

  lemma HitNext(p: nat, phi: nat -> nat, x: nat -> real, q: nat)
    ensures Scatter(0, phi, x, q) == 0.0
    ensures Scatter(p + 1, phi, x, q) == Scatter(p, phi, x, q) + if phi(p) == q then x(p) else 0.0
  {
    assert Hit(phi, x, q)(p) == if phi(p) == q then x(p) else 0.0;
  }

  /** Each output cell is the sum of the input cells that differ from it only in dimension k. */
  method ReduceTo(input: Tensor<real>, k: nat, output: Tensor<real>)
    requires input.Sized() && output.Sized() && k < |input.dims| && output.dims == Without(input.dims, k)
    modifies output.ptr
    ensures forall q: nat :: q < output.ptr.Length ==>
      output.ptr[q] == Scatter(Size(input.dims), ReduceIndex(input.dims, k), ElemsOf(old(input.ptr[..])), q)
  {
    var inputCpu := CopyToCpuIfNecessary(input);
    var outputCpu := AllocateTensor<real>(output.dims, CPU);
    FillWithZeros(outputCpu);
    ghost var src := inputCpu.ptr[..];
    ghost var phi, x := ReduceIndex(input.dims, k), ElemsOf(src);
    var coords := CoordSeq(input.dims);
    for p := 0 to |coords|
      invariant inputCpu.ptr[..] == src && output.ptr[..] == old(output.ptr[..])
      invariant forall q: nat :: q < outputCpu.ptr.Length ==> outputCpu.ptr[q] == Scatter(p, phi, x, q)
    {
      AddCell(inputCpu, k, outputCpu, coords[p], p, x);
    }
    CopyAccessorData(output, outputCpu);
  }

  method AddCell(input: Tensor<real>, k: nat, output: Tensor<real>, coord: Coord, ghost p: nat, ghost x: nat -> real)
    requires input.Sized() && output.Sized() && input.device == CPU && output.device == CPU && input.ptr != output.ptr
    requires k < |input.dims| && output.dims == Without(input.dims, k)
    requires p < Size(input.dims) && coord == Unflatten(p, input.dims) && x == ElemsOf(input.ptr[..])
    requires forall q: nat :: q < output.ptr.Length ==> output.ptr[q] == Scatter(p, ReduceIndex(input.dims, k), x, q)
    modifies output.ptr
    ensures forall q: nat :: q < output.ptr.Length ==> output.ptr[q] == Scatter(p + 1, ReduceIndex(input.dims, k), x, q)
  {
    UnflattenInBounds(p, input.dims);
    OffsetOfUnflatten(p, input.dims);
    WithoutInBounds(coord, input.dims, k);
    var outputCoord := Without(coord, k);
    var sum := At(output, outputCoord);
    var v := At(input, coord);
    ghost var before := output.ptr[..];
    SetAt(output, outputCoord, sum + v);
    ghost var phi := ReduceIndex(input.dims, k);
    assert phi(p) == Offset(outputCoord, output.dims) && x(p) == v;
    forall q: nat | q < output.ptr.Length ensures output.ptr[q] == Scatter(p + 1, phi, x, q) {
      HitNext(p, phi, x, q);
      assert output.ptr[q] == if q == phi(p) then before[q] + v else before[q];
    }
  }

  lemma ScatterTermAt(n: nat, phi: nat -> nat, x: nat -> real, delta: seq<real>, w: seq<real>, q: nat)
    requires q < |delta| && delta[q] == Scatter(n, phi, x, q)
    ensures DotTerm(delta, w)(q) == ScatterTerm(n, phi, x, ElemsOf(w))(q)
  {
  }

  /** A buffer that has received x along phi pairs with w as x does with w read along phi. */
  lemma ScatteredDot(n: nat, phi: nat -> nat, x: nat -> real, delta: seq<real>, w: seq<real>)
    requires |delta| == |w| && forall p: nat :: p < n ==> phi(p) < |w|
    requires forall q: nat :: q < |delta| ==> delta[q] == Scatter(n, phi, x, q)
    ensures Dot(delta, w) == Sum(n, GatherTerm(phi, x, ElemsOf(w)))
  {
    ScatterGatherAdjoint(n, |w|, phi, x, ElemsOf(w));
    forall q: nat | q < |delta| ensures DotTerm(delta, w)(q) == ScatterTerm(n, phi, x, ElemsOf(w))(q) {
      ScatterTermAt(n, phi, x, delta, w, q);
    }
    SumExt(|delta|, DotTerm(delta, w), ScatterTerm(n, phi, x, ElemsOf(w)));
  }
}
