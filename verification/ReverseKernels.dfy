/** Reversal of a tensor along one axis; the same kernel serves forward and backward. */
module ReverseKernels {
  import opened Sums
  import opened TensorIndex
  import opened Accessors
  import opened Matrices
  import opened TensorKernels

  /** The coordinate with component `axis` counted from the other end. */
  function Flip(dims: Dims, axis: nat): Coord -> Coord
    requires axis < |dims|
  {
    (c: Coord) => if |c| == |dims| && c[axis] < dims[axis] then c[axis := dims[axis] - c[axis] - 1] else c
  }

  lemma FlipMapsInto(dims: Dims, axis: nat)
    requires axis < |dims|
    ensures MapsInto(Flip(dims, axis), dims, dims)
    ensures forall c :: InBounds(c, dims) ==> Flip(dims, axis)(Flip(dims, axis)(c)) == c
  {
    var phi := Flip(dims, axis);
    forall c | InBounds(c, dims) ensures InBounds(phi(c), dims) && phi(phi(c)) == c {
    }
    forall c, d | InBounds(c, dims) && InBounds(d, dims) && phi(c) == phi(d) ensures c == d {
      assert phi(phi(c)) == phi(phi(d));
    }
  }

  lemma FlipMapsWithin(dims: Dims, axis: nat, bounds: Dims)
    requires axis < |dims| && Within(dims, bounds)
    ensures MapsInto(Flip(dims, axis), dims, bounds)
  {
    FlipMapsInto(dims, axis);
  }

  /** The cells of coordinates outside the smaller shape are as before. */
  ghost predicate KeepsOutside<T>(s: seq<T>, before: seq<T>, dims: Dims, inner: Dims) {
    && |s| == |before| == Size(dims)
    && forall d :: InBounds(d, dims) && !InBounds(d, inner) ==> SameAt(s, before, dims, d)
  }

  ghost predicate SameAt<T>(s: seq<T>, before: seq<T>, dims: Dims, d: Coord)
    requires |s| == |before| == Size(dims) && InBounds(d, dims)
  {
    OffsetBound(d, dims);
    s[Offset(d, dims)] == before[Offset(d, dims)]
  }

  lemma WriteInside<T>(s: seq<T>, before: seq<T>, dims: Dims, inner: Dims, c: Coord, v: T)
    requires KeepsOutside(s, before, dims, inner) && InBounds(c, dims) && InBounds(c, inner)
    requires Offset(c, dims) < |s|
    ensures KeepsOutside(s[Offset(c, dims) := v], before, dims, inner)
  {
    forall d | InBounds(d, dims) && !InBounds(d, inner) ensures SameAt(s[Offset(c, dims) := v], before, dims, d) {
      assert SameAt(s, before, dims, d);
      OffsetBound(d, dims);
      if Offset(d, dims) == Offset(c, dims) {
        OffsetInjective(c, d, dims);
      }
    }
  }

  method MoveFlipped<T(0)>(
      input: Tensor<T>, output: Tensor<T>, axis: nat, coord: Coord, ghost p: nat, ghost before: seq<T>)
    requires input.Sized() && output.Sized() && input.device == CPU && output.device == CPU && input.ptr != output.ptr
    requires axis < |input.dims| && Within(input.dims, output.dims) && p < Size(input.dims)
    requires coord == Unflatten(p, input.dims)
    requires RearrangedUpTo(input.ptr[..], input.dims, output.ptr[..], output.dims, Flip(input.dims, axis), p)
    requires KeepsOutside(output.ptr[..], before, output.dims, input.dims)
    modifies output.ptr
    ensures RearrangedUpTo(input.ptr[..], input.dims, output.ptr[..], output.dims, Flip(input.dims, axis), p + 1)
    ensures KeepsOutside(output.ptr[..], before, output.dims, input.dims)
  {
    UnflattenInBounds(p, input.dims);
    OffsetOfUnflatten(p, input.dims);
    FlipMapsInto(input.dims, axis);
    FlipMapsWithin(input.dims, axis, output.dims);
    var outputCoord := coord[axis := input.dims[axis] - coord[axis] - 1];
    assert outputCoord == Flip(input.dims, axis)(coord);
    OffsetBound(outputCoord, output.dims);
    MoveOne(input.ptr[..], input.dims, output.ptr[..], output.dims, Flip(input.dims, axis), p);
    var v := At(input, coord);
    WriteInside(output.ptr[..], before, output.dims, input.dims, outputCoord, v);
    SetAt(output, outputCoord, v);
  }

  /** Every element moves to its mirrored place, and no other cell changes; together with
      ReversedEverywhere, every cell of an output of the input's shape is written. */
  method ReverseForward<T(0)>(input: Tensor<T>, output: Tensor<T>, axis: nat)
    requires input.Sized() && output.Sized() && input.device == CPU && output.device == CPU && input.ptr != output.ptr
    requires axis < |input.dims| && Within(input.dims, output.dims)
    modifies output.ptr
    ensures Rearranged(input.ptr[..], input.dims, output.ptr[..], output.dims, Flip(input.dims, axis))
    ensures KeepsOutside(output.ptr[..], old(output.ptr[..]), output.dims, input.dims)
    ensures forall c, d | InBounds(c, input.dims) && InBounds(d, input.dims) &&
      c[axis] + d[axis] + 1 == input.dims[axis] && (forall k :: 0 <= k < |c| && k != axis ==> d[k] == c[k]) ::
      && Offset(c, input.dims) < input.ptr.Length && Offset(d, output.dims) < output.ptr.Length
      && output.ptr[Offset(d, output.dims)] == input.ptr[Offset(c, input.dims)]
  {
    ghost var before := output.ptr[..];
    var coords := CoordSeq(input.dims);
    for p := 0 to |coords|
      invariant RearrangedUpTo(input.ptr[..], input.dims, output.ptr[..], output.dims, Flip(input.dims, axis), p)
      invariant KeepsOutside(output.ptr[..], before, output.dims, input.dims)
    {
      MoveFlipped(input, output, axis, coords[p], p, before);
    }
    MovedAll(input.ptr[..], input.dims, output.ptr[..], output.dims, Flip(input.dims, axis));
    forall c, d | InBounds(c, input.dims) && InBounds(d, input.dims) &&
      c[axis] + d[axis] + 1 == input.dims[axis] && (forall k :: 0 <= k < |c| && k != axis ==> d[k] == c[k])
      ensures Offset(c, input.dims) < input.ptr.Length && Offset(d, output.dims) < output.ptr.Length
      ensures output.ptr[Offset(d, output.dims)] == input.ptr[Offset(c, input.dims)]
    {
      ReversedAt(input.ptr[..], input.dims, output.ptr[..], output.dims, axis, c, d);
    }
  }

  /** Coordinates that agree off the axis, and lie at mirrored places on it, hold the same element. */
  lemma ReversedAt<T>(src: seq<T>, dims: Dims, dst: seq<T>, dstDims: Dims, axis: nat, c: Coord, d: Coord)
    requires axis < |dims| && Within(dims, dstDims) && Rearranged(src, dims, dst, dstDims, Flip(dims, axis))
    requires InBounds(c, dims) && InBounds(d, dims)
    requires c[axis] + d[axis] + 1 == dims[axis] && forall k :: 0 <= k < |c| && k != axis ==> d[k] == c[k]
    ensures Offset(c, dims) < |src| && Offset(d, dstDims) < |dst| && dst[Offset(d, dstDims)] == src[Offset(c, dims)]
  {
    assert Flip(dims, axis)(c) == d;
    assert MovedTo(src, dims, dst, dstDims, c, Flip(dims, axis)(c));
  }

  /** The cell that an output cell's value comes from. */
  function FlipIndex(dims: Dims, axis: nat): nat -> nat
    requires axis < |dims|
  {
    (p: nat) => Offset(Flip(dims, axis)(Unflatten(p, dims)), dims)
  }

  lemma FlipIndexInvolutive(dims: Dims, axis: nat, p: nat)
    requires axis < |dims| && p < Size(dims)
    ensures FlipIndex(dims, axis)(p) < Size(dims) && FlipIndex(dims, axis)(FlipIndex(dims, axis)(p)) == p
  {
    var c := Unflatten(p, dims);
    var phi := Flip(dims, axis);
    UnflattenInBounds(p, dims);
    OffsetOfUnflatten(p, dims);
    FlipMapsInto(dims, axis);
    OffsetBound(phi(c), dims);
    UnflattenOfOffset(phi(c), dims);
  }

  lemma ReversedEverywhere<T>(src: seq<T>, dst: seq<T>, dims: Dims, axis: nat)
    requires axis < |dims| && Rearranged(src, dims, dst, dims, Flip(dims, axis))
    ensures forall p: nat :: p < |dst| ==> FlipIndex(dims, axis)(p) < |src| && dst[p] == src[FlipIndex(dims, axis)(p)]
  {
    var phi := Flip(dims, axis);
    forall p: nat | p < |dst| ensures FlipIndex(dims, axis)(p) < |src| && dst[p] == src[FlipIndex(dims, axis)(p)] {
      var c := Unflatten(p, dims);
      UnflattenInBounds(p, dims);
      OffsetOfUnflatten(p, dims);
      FlipMapsInto(dims, axis);
      assert MovedTo(src, dims, dst, dims, phi(c), phi(phi(c)));
    }
  }

  /** Reversing twice restores the buffer. */
  lemma ReverseTwice<T>(a: seq<T>, b: seq<T>, c: seq<T>, dims: Dims, axis: nat)
    requires axis < |dims| && Rearranged(a, dims, b, dims, Flip(dims, axis))
    requires Rearranged(b, dims, c, dims, Flip(dims, axis))
    ensures c == a
  {
    FlipMapsInto(dims, axis);
    RearrangedBack(a, dims, b, dims, c, Flip(dims, axis), Flip(dims, axis));
  }

  predicate Returns(n: nat, phi: nat -> nat, p: nat) {
    phi(p) < n && phi(phi(p)) == p
  }

  lemma OneSource(n: nat, phi: nat -> nat, x: nat -> real, q: nat)
    requires q < n && forall p: nat :: p < n ==> Returns(n, phi, p)
    ensures Scatter(n, phi, x, q) == x(phi(q))
  {
    var k := phi(q);
    assert Returns(n, phi, q);
    forall p: nat | p < n && p != k ensures Hit(phi, x, q)(p) == 0.0 {
      assert Returns(n, phi, p);
    }
    SumSingle(n, Hit(phi, x, q), k);
  }

  /** The backward kernel, which is the same reversal, is the adjoint of the forward kernel. */
  lemma ReverseIsAdjoint(x: seq<real>, out: seq<real>, g: seq<real>, inputGrad: seq<real>, dims: Dims, axis: nat)
    requires axis < |dims|
    requires Rearranged(x, dims, out, dims, Flip(dims, axis)) && Rearranged(g, dims, inputGrad, dims, Flip(dims, axis))
    ensures Dot(out, g) == Dot(x, inputGrad)
  {
    var n, phi := Size(dims), FlipIndex(dims, axis);
    forall p: nat | p < n ensures Returns(n, phi, p) {
      FlipIndexInvolutive(dims, axis, p);
    }
    ReversedEverywhere(x, out, dims, axis);
    ReversedEverywhere(g, inputGrad, dims, axis);
    InvolutionIsAdjoint(n, phi, x, out, g, inputGrad);
  }

  lemma InvolutionIsAdjoint(n: nat, phi: nat -> nat, x: seq<real>, out: seq<real>, g: seq<real>, inputGrad: seq<real>)
    requires |x| == |out| == |g| == |inputGrad| == n && forall p: nat :: p < n ==> Returns(n, phi, p)
    requires forall p: nat :: p < n ==> phi(p) < n && out[p] == x[phi(p)]
    requires forall p: nat :: p < n ==> phi(p) < n && inputGrad[p] == g[phi(p)]
    ensures Dot(out, g) == Dot(x, inputGrad)
  {
    forall q: nat | q < n ensures out[q] == Scatter(n, phi, ElemsOf(x), q) {
      OneSource(n, phi, ElemsOf(x), q);
    }
    ScatteredDot(n, phi, ElemsOf(x), out, g);
    GatherIsDot(n, phi, x, g, inputGrad);
  }

  lemma GatherIsDot(n: nat, phi: nat -> nat, x: seq<real>, g: seq<real>, inputGrad: seq<real>)
    requires |x| == |g| == |inputGrad| == n && forall p: nat :: p < n ==> phi(p) < n && inputGrad[p] == g[phi(p)]
    ensures Sum(n, GatherTerm(phi, ElemsOf(x), ElemsOf(g))) == Dot(x, inputGrad)
  {
    forall p: nat | p < n ensures GatherTerm(phi, ElemsOf(x), ElemsOf(g))(p) == DotTerm(x, inputGrad)(p) {
      GatherIsDotAt(phi, x, g, inputGrad, p);
    }
    SumExt(n, GatherTerm(phi, ElemsOf(x), ElemsOf(g)), DotTerm(x, inputGrad));
  }

  lemma GatherIsDotAt(phi: nat -> nat, x: seq<real>, g: seq<real>, inputGrad: seq<real>, p: nat)
    requires p < |inputGrad| && phi(p) < |g| && inputGrad[p] == g[phi(p)]
    ensures GatherTerm(phi, ElemsOf(x), ElemsOf(g))(p) == DotTerm(x, inputGrad)(p)
  {
    assert ElemsOf(g)(phi(p)) == Elem(inputGrad, p);
  }

  // ---------------------------------------------------- sizes for the other device

  /** The three sizes after the dimensions before i. */
  ghost predicate BlockSizes(dims: Dims, axis: nat, i: nat, inBlk: Pos, reverseDim: Pos, outBlks: Pos)
    requires i <= |dims|
  {
    && inBlk == Size(dims[..if i < axis then i else if axis < |dims| then axis else i])
    && (if axis < i then reverseDim == dims[axis] else reverseDim == 1 && outBlks == 1)
    && inBlk * reverseDim * outBlks == Size(dims[..i])
  }

  lemma NextBlockSizes(dims: Dims, axis: nat, i: nat, inBlk: Pos, reverseDim: Pos, outBlks: Pos)
    requires i < |dims| && BlockSizes(dims, axis, i, inBlk, reverseDim, outBlks)
    ensures i < axis ==> inBlk * dims[i] > 0 && BlockSizes(dims, axis, i + 1, inBlk * dims[i], reverseDim, outBlks)
    ensures i == axis ==> BlockSizes(dims, axis, i + 1, inBlk, dims[i], outBlks)
    ensures i > axis ==> outBlks * dims[i] > 0 && BlockSizes(dims, axis, i + 1, inBlk, reverseDim, outBlks * dims[i])
  {
    LastDimension(dims, i);
    var d := dims[i];
    if i > axis {
      Regroup(inBlk * reverseDim, outBlks, d);
    }
  }

  lemma Regroup(a: int, b: int, d: int)
    ensures a * (b * d) == a * b * d
  {
  }

  /** The three block sizes account for every element, whatever the axis. */
  method ComputeReverseKernelsParams(
      dims: Dims, axis: nat)
    returns (inBlkSize: Pos, reverseDimSize: Pos, numOutBlks: Pos, outSize: nat)
    ensures outSize == Size(dims) && (axis < |dims| ==> reverseDimSize == dims[axis])
    ensures inBlkSize * reverseDimSize * numOutBlks == outSize
    ensures inBlkSize == Size(if axis < |dims| then dims[..axis] else dims)
  {
    inBlkSize, reverseDimSize, numOutBlks := 1, 1, 1;
    for i := 0 to |dims|
      invariant BlockSizes(dims, axis, i, inBlkSize, reverseDimSize, numOutBlks)
    {
      NextBlockSizes(dims, axis, i, inBlkSize, reverseDimSize, numOutBlks);
      if i < axis {
        inBlkSize := inBlkSize * dims[i];
      } else if i == axis {
        reverseDimSize := dims[i];
      } else {
        numOutBlks := numOutBlks * dims[i];
      }
    }
    assert dims[..|dims|] == dims;
    outSize := Size(dims);
  }

  lemma LastDimension(dims: Dims, i: nat)
    requires i < |dims|
    ensures Size(dims[..i + 1]) == Size(dims[..i]) * dims[i]
  {
    SizeAppend(dims[..i], dims[i]);
    assert dims[..i + 1] == dims[..i] + [dims[i]];
  }

  lemma {:induction false} SizeAppend(dims: Dims, d: Pos)
    ensures Size(dims + [d]) == Size(dims) * d
  {
    var all := dims + [d];
    SizeIsProduct(all);
    if dims == [] {
      assert all[1..] == [];
    } else {
      assert all[1..] == dims[1..] + [d];
      SizeAppend(dims[1..], d);
      SizeIsProduct(dims);
      ProductsAssociate(dims[0], Size(dims[1..]), d);
    }
  }
}
