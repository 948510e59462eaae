/** Nearest-neighbour upsampling of batches of images, forward and backward as written. */
module UpsampleKernels {
  import opened Sums
  import opened TensorIndex
  import opened Accessors
  import opened TensorKernels

  /** The input coordinate that an output coordinate copies. */
  function Shrink(c: Coord, scale: Pos): (r: Coord)
    requires |c| >= 2
    ensures |r| == |c|
  {
    var n := |c|;
    c[n - 1 := c[n - 1] / scale][n - 2 := c[n - 2] / scale]
  }

  /** Images of four dimensions whose shrunk coordinates all exist. */
  predicate Shrinks(inDims: Dims, outDims: Dims, scale: Pos) {
    && |inDims| == 4 && |outDims| == 4
    && outDims[0] <= inDims[0] && outDims[1] <= inDims[1]
    && Last(outDims[2]) / scale < inDims[2] && Last(outDims[3]) / scale < inDims[3]
  }

  function Last(d: Pos): nat {
    d as int - 1
  }

  lemma QuotientGrows(x: nat, y: nat, d: Pos)
    requires x <= y
    ensures x / d <= y / d
  {
    DivModBack(y, d);
    assert (y / d + 1) * d == y / d * d + d;
    QuotientBound(x, d, y / d + 1);
  }

  lemma ShrinkInBounds(c: Coord, inDims: Dims, outDims: Dims, scale: Pos)
    requires Shrinks(inDims, outDims, scale) && InBounds(c, outDims)
    ensures InBounds(Shrink(c, scale), inDims)
  {
    QuotientGrows(c[2], Last(outDims[2]), scale);
    QuotientGrows(c[3], Last(outDims[3]), scale);
  }

  /** The last coordinate of all. */
  function Corner(dims: Dims): (c: Coord)
    ensures InBounds(c, dims)
  {
    seq(|dims|, k requires 0 <= k < |dims| => Last(dims[k]))
  }

  /** Reads stay inside the input exactly when the shapes shrink. */
  lemma AllReadsInBounds(inDims: Dims, outDims: Dims, scale: Pos)
    requires |inDims| == 4 && |outDims| >= 2
    ensures Shrinks(inDims, outDims, scale) <==> forall c :: InBounds(c, outDims) ==> InBounds(Shrink(c, scale), inDims)
  {
    if Shrinks(inDims, outDims, scale) {
      forall c | InBounds(c, outDims) ensures InBounds(Shrink(c, scale), inDims) {
        ShrinkInBounds(c, inDims, outDims, scale);
      }
    } else {
      assert !InBounds(Shrink(Corner(outDims), scale), inDims);
    }
  }

  /** The input cell that output cell p copies. */
  function SourceIndex(inDims: Dims, outDims: Dims, scale: Pos): nat -> nat
    requires |inDims| == |outDims| >= 2
  {
    (p: nat) => Offset(Shrink(Unflatten(p, outDims), scale), inDims)
  }

  /** The read for output cell p stays inside the input. */
  predicate ReadFits(inDims: Dims, outDims: Dims, scale: Pos, p: nat) {
    |outDims| >= 2 && InBounds(Shrink(Unflatten(p, outDims), scale), inDims)
  }

  lemma ReadsFitExactly(inDims: Dims, outDims: Dims, scale: Pos)
    requires |inDims| == 4 && |outDims| >= 2
    ensures Shrinks(inDims, outDims, scale) <==> forall p: nat ::
      p < Size(outDims) ==> ReadFits(inDims, outDims, scale, p)
  {
    AllReadsInBounds(inDims, outDims, scale);
    OffsetIsBijective(outDims);
    if forall p: nat :: p < Size(outDims) ==> ReadFits(inDims, outDims, scale, p) {
      forall c | InBounds(c, outDims) ensures InBounds(Shrink(c, scale), inDims) {
        assert ReadFits(inDims, outDims, scale, Offset(c, outDims));
      }
    }
  }

  /** Output cell p has been copied from the cell it shrinks to. */
  predicate Copied(src: seq<real>, inDims: Dims, dst: seq<real>, outDims: Dims, scale: Pos, p: nat) {
    && |inDims| == |outDims| >= 2 && p < |dst|
    && SourceIndex(inDims, outDims, scale)(p) < |src| && dst[p] == src[SourceIndex(inDims, outDims, scale)(p)]
  }

  ghost predicate IsUpsampled(src: seq<real>, inDims: Dims, dst: seq<real>, outDims: Dims, scale: Pos) {
    && |src| == Size(inDims) && |dst| == Size(outDims)
    && forall p: nat :: p < |dst| ==> Copied(src, inDims, dst, outDims, scale, p)
  }

  method CopyPixel(input: Tensor<real>, output: Tensor<real>, scale: Pos, coord: Coord, ghost p: nat) returns (ok: bool)
    requires input.Sized() && output.Sized() && input.device == CPU && output.device == CPU && input.ptr != output.ptr
    requires |output.dims| >= 2 && p < Size(output.dims) && coord == Unflatten(p, output.dims)
    modifies output.ptr
    ensures ok <==> ReadFits(input.dims, output.dims, scale, p)
    ensures ok ==> Copied(input.ptr[..], input.dims, output.ptr[..], output.dims, scale, p)
    ensures forall k: nat :: k < p ==> output.ptr[k] == old(output.ptr[k])
  {
    UnflattenInBounds(p, output.dims);
    OffsetOfUnflatten(p, output.dims);
    var inputCoord := Shrink(coord, scale);
    ok := InBounds(inputCoord, input.dims);
    if ok {
      var v := At(input, inputCoord);
      SetAt(output, coord, v);
    }
  }

  /** The kernel runs to its end exactly when the input has four dimensions and every read is in
      bounds; every output cell then holds the element it shrinks to. */
  method UpsampleForward(input: Tensor<real>, output: Tensor<real>, scale: Pos) returns (ok: bool)
    requires input.Sized() && output.Sized() && input.device == CPU && output.device == CPU && input.ptr != output.ptr
    requires |output.dims| >= 2
    modifies output.ptr
    ensures ok <==> Shrinks(input.dims, output.dims, scale)
    ensures ok ==> IsUpsampled(input.ptr[..], input.dims, output.ptr[..], output.dims, scale)
  {
    if |input.dims| != 4 {
      return false;
    }
    ReadsFitExactly(input.dims, output.dims, scale);
    var coords := CoordSeq(output.dims);
    for p := 0 to |coords|
      invariant forall k: nat :: k < p ==>
        ReadFits(input.dims, output.dims, scale, k) &&
          Copied(input.ptr[..], input.dims, output.ptr[..], output.dims, scale, k)
    {
      ghost var before := output.ptr[..];
      ok := CopyPixel(input, output, scale, coords[p], p);
      if !ok {
        return false;
      }
      forall k: nat | k < p ensures Copied(input.ptr[..], input.dims, output.ptr[..], output.dims, scale, k) {
        assert Copied(input.ptr[..], input.dims, before, output.dims, scale, k);
      }
    }
    ok := true;
  }

  /** Pixel (y, x) of every image is pixel (y / scale, x / scale) of the input's image. */
  lemma UpsampledPixel(
      src: seq<real>, inDims: Dims, dst: seq<real>, outDims: Dims, scale: Pos, n: nat, c: nat, y: nat, x: nat)
    requires Shrinks(inDims, outDims, scale) && IsUpsampled(src, inDims, dst, outDims, scale)
    requires InBounds([n, c, y, x], outDims)
    ensures InBounds([n, c, y / scale, x / scale], inDims)
    ensures Offset([n, c, y, x], outDims) < |dst| && Offset([n, c, y / scale, x / scale], inDims) < |src|
    ensures dst[Offset([n, c, y, x], outDims)] == src[Offset([n, c, y / scale, x / scale], inDims)]
  {
    var big: Coord := [n, c, y, x];
    ShrunkPixel(n, c, y, x, scale);
    ShrinkInBounds(big, inDims, outDims, scale);
    OffsetBound(big, outDims);
    OffsetBound(Shrink(big, scale), inDims);
    UnflattenOfOffset(big, outDims);
    assert Copied(src, inDims, dst, outDims, scale, Offset(big, outDims));
  }

  lemma ShrunkPixel(n: nat, c: nat, y: nat, x: nat, scale: Pos)
    ensures Shrink([n, c, y, x], scale) == [n, c, y / scale, x / scale]
  {
  }

  // -------------------------------------------------------------- sampling it back

  /** The output shape that belongs to an input shape. */
  predicate Enlarged(inDims: Dims, outDims: Dims, scale: Pos) {
    && |inDims| == 4 && |outDims| == 4 && outDims[0] == inDims[0] && outDims[1] == inDims[1]
    && outDims[2] == inDims[2] * scale && outDims[3] == inDims[3] * scale
  }

  lemma LastFits(d: Pos, e: Pos, scale: Pos)
    requires e == d * scale
    ensures Last(e) / scale < d
  {
    QuotientBound(Last(e), scale, d);
  }

  lemma EnlargedShrinks(inDims: Dims, outDims: Dims, scale: Pos)
    requires Enlarged(inDims, outDims, scale)
    ensures Shrinks(inDims, outDims, scale)
  {
    LastFits(inDims[2], outDims[2], scale);
    LastFits(inDims[3], outDims[3], scale);
  }

  function Magnify(c: Coord, scale: Pos): (r: Coord)
    requires |c| == 4
    ensures |r| == 4
  {
    assert c[2] * scale >= 0 && c[3] * scale >= 0;
    var r: Coord := [c[0], c[1], c[2] * scale, c[3] * scale];
    r
  }

  lemma MagnifyFits(x: nat, d: Pos, e: Pos, scale: Pos)
    requires e == d * scale && x < d
    ensures 0 <= x * scale < e && x * scale / scale == x
  {
    MulBound(x, 0, scale, d);
    DivModOf(x, 0, scale);
  }

  /** Reading the result at multiples of the scale recovers the input. */
  lemma SamplingRecovers(src: seq<real>, inDims: Dims, dst: seq<real>, outDims: Dims, scale: Pos, c: Coord)
    requires Enlarged(inDims, outDims, scale) && IsUpsampled(src, inDims, dst, outDims, scale) && InBounds(c, inDims)
    ensures InBounds(Magnify(c, scale), outDims)
    ensures Offset(Magnify(c, scale), outDims) < |dst| && Offset(c, inDims) < |src|
    ensures dst[Offset(Magnify(c, scale), outDims)] == src[Offset(c, inDims)]
  {
    MagnifyFits(c[2], inDims[2], outDims[2], scale);
    MagnifyFits(c[3], inDims[3], outDims[3], scale);
    var big := Magnify(c, scale);
    OffsetBound(c, inDims);
    OffsetBound(big, outDims);
    UnflattenOfOffset(big, outDims);
    assert Shrink(big, scale) == c;
    assert Copied(src, inDims, dst, outDims, scale, Offset(big, outDims));
  }

  // -------------------------------------------------------------------- totals

  function Prefixed(F: Coord -> real, i: nat): Coord -> real {
    (c: Coord) => F([i] + c)
  }

  /** A sum over all coordinates, dimension by dimension. */
  function CoordSum(dims: Dims, F: Coord -> real): real
    decreases |dims|, 0
  {
    if dims == [] then F([]) else Sum(dims[0], Slices(dims[1..], F))
  }

  function Slices(rest: Dims, F: Coord -> real): nat -> real
    decreases |rest|, 1
  {
    (i: nat) => CoordSum(rest, Prefixed(F, i))
  }

  function Flat(dims: Dims, F: Coord -> real): nat -> real {
    (p: nat) => F(Unflatten(p, dims))
  }

  lemma FlatSlice(dims: Dims, F: Coord -> real, i: nat, j: nat, rest: Pos)
    requires dims != [] && rest == Size(dims[1..]) && j < rest
    ensures Cell(rest, Flat(dims, F))(i, j) == Flat(dims[1..], Prefixed(F, i))(j)
  {
    DivModOf(i, j, rest);
    assert i * rest >= 0;
    assert Unflatten(i * rest + j, dims) == [i] + Unflatten(j, dims[1..]);
  }

  lemma FlatRow(dims: Dims, F: Coord -> real, i: nat, rest: Pos)
    requires dims != [] && rest == Size(dims[1..])
    ensures RowSum(rest, Cell(rest, Flat(dims, F)))(i) == Sum(rest, Flat(dims[1..], Prefixed(F, i)))
  {
    forall j: nat | j < rest ensures Row(Cell(rest, Flat(dims, F)), i)(j) == Flat(dims[1..], Prefixed(F, i))(j) {
      FlatSlice(dims, F, i, j, rest);
    }
    SumExt(rest, Row(Cell(rest, Flat(dims, F)), i), Flat(dims[1..], Prefixed(F, i)));
  }

  /** Summing over the buffer is summing over the coordinates. */
  lemma {:induction false} BufferSum(dims: Dims, F: Coord -> real)
    ensures Sum(Size(dims), Flat(dims, F)) == CoordSum(dims, F)
    decreases |dims|
  {
    if dims == [] {
      OneTerm(Flat(dims, F));
      var c := Unflatten(0, dims);
      assert Flat(dims, F)(0) == F(c) && c == [];
    } else {
      var rest: Pos := Size(dims[1..]);
      SizeIsProduct(dims);
      SumFlatten(dims[0], rest, Flat(dims, F));
      forall i: nat | i < dims[0] ensures RowSum(rest, Cell(rest, Flat(dims, F)))(i) == Slices(dims[1..], F)(i) {
        FlatRow(dims, F, i, rest);
        BufferSum(dims[1..], Prefixed(F, i));
      }
      SumExt(dims[0], RowSum(rest, Cell(rest, Flat(dims, F))), Slices(dims[1..], F));
    }
  }

  lemma OneTerm(f: nat -> real)
    ensures Sum(1, f) == f(0)
  {
    assert Sum(1, f) == Sum(0, f) + f(0);
  }

  // ------------------------------------------------------------ stretching a sum

  function Stretched(f: nat -> real, scale: Pos): nat -> real {
    (i: nat) => f(i / scale)
  }

  lemma StretchedCell(f: nat -> real, scale: Pos, i: nat, j: nat)
    requires j < scale
    ensures Cell(scale, Stretched(f, scale))(i, j) == f(i)
  {
    DivModOf(i, j, scale);
    assert i * scale >= 0;
  }

  function Constant(x: real): nat -> real {
    (i: nat) => x
  }

  lemma {:induction false} SumConstant(n: nat, x: real)
    ensures Sum(n, Constant(x)) == n as real * x
  {
    if n > 0 {
      SumConstant(n - 1, x);
      assert (n - 1) as real * x + x == n as real * x;
    }
  }

  lemma StretchedRow(f: nat -> real, scale: Pos, i: nat)
    ensures RowSum(scale, Cell(scale, Stretched(f, scale)))(i) == scale as real * f(i)
  {
    forall j: nat | j < scale ensures Row(Cell(scale, Stretched(f, scale)), i)(j) == Constant(f(i))(j) {
      StretchedCell(f, scale, i, j);
    }
    SumExt(scale, Row(Cell(scale, Stretched(f, scale)), i), Constant(f(i)));
    SumConstant(scale, f(i));
  }

  /** Repeating every term scale times multiplies the sum by scale. */
  lemma StretchedSum(n: nat, m: nat, f: nat -> real, scale: Pos)
    requires m == n * scale
    ensures Sum(m, Stretched(f, scale)) == scale as real * Sum(n, f)
  {
    SumFlatten(n, scale, Stretched(f, scale));
    RowsTotal(n, f, scale);
  }

  lemma RowsTotal(n: nat, f: nat -> real, scale: Pos)
    ensures Sum(n, RowSum(scale, Cell(scale, Stretched(f, scale)))) == scale as real * Sum(n, f)
  {
    StretchedRows(f, scale);
    SumScale(n, scale as real, f, RowSum(scale, Cell(scale, Stretched(f, scale))));
  }

  lemma StretchedRows(f: nat -> real, scale: Pos)
    ensures forall i: nat :: RowSum(scale, Cell(scale, Stretched(f, scale)))(i) == scale as real * f(i)
  {
    forall i: nat ensures RowSum(scale, Cell(scale, Stretched(f, scale)))(i) == scale as real * f(i) {
      StretchedRow(f, scale, i);
    }
  }

  /** A dimension that is the same in both shapes passes a common factor on. */
  lemma SameDimension(d: Pos, rest: Dims, rest': Dims, F: Coord -> real, F': Coord -> real, k: real)
    requires forall i: nat :: i < d ==> CoordSum(rest', Prefixed(F', i)) == k * CoordSum(rest, Prefixed(F, i))
    ensures Sum(d, Slices(rest', F')) == k * Sum(d, Slices(rest, F))
  {
    SumScale(d, k, Slices(rest, F), Slices(rest', F'));
  }

  // ------------------------------------------------------- totals of an upsampling

  /** G at the coordinates that the last two components shrink to. */
  function ShrinkOf(G: Coord -> real, scale: Pos): Coord -> real {
    (c: Coord) => if |c| >= 2 then G(Shrink(c, scale)) else 0.0
  }

  /** One image row: w pixels, each repeated. */
  function RowOf(G: Coord -> real, h: nat): nat -> real {
    (w: nat) => G([h, w])
  }

  lemma Rank2(h: Pos, w: Pos, F: Coord -> real)
    ensures CoordSum([h, w], F) == Sum(h, ImageRows(w, F))
  {
    var dims: Dims := [h, w];
    assert dims[1..] == [w];
    forall i: nat | i < h ensures Slices(dims[1..], F)(i) == ImageRows(w, F)(i) {
      Rank1(w, Prefixed(F, i));
      forall j: nat | j < w ensures LineOf(Prefixed(F, i))(j) == RowOf(F, i)(j) {
        var c: Coord := [j];
        assert [i] + c == [i, j];
      }
      SumExt(w, LineOf(Prefixed(F, i)), RowOf(F, i));
    }
    SumExt(h, Slices(dims[1..], F), ImageRows(w, F));
  }

  function LineOf(F: Coord -> real): nat -> real {
    (w: nat) => F([w])
  }

  function ImageRows(w: Pos, F: Coord -> real): nat -> real {
    (h: nat) => Sum(w, RowOf(F, h))
  }

  lemma Rank1(w: Pos, F: Coord -> real)
    ensures CoordSum([w], F) == Sum(w, LineOf(F))
  {
    var dims: Dims := [w];
    assert dims[1..] == [];
    forall i: nat | i < w ensures Slices(dims[1..], F)(i) == LineOf(F)(i) {
      var c: Coord := [];
      assert [i] + c == [i];
      assert CoordSum([], Prefixed(F, i)) == Prefixed(F, i)(c);
    }
    SumExt(w, Slices(dims[1..], F), LineOf(F));
  }

  ghost predicate Repeats(F: Coord -> real, G: Coord -> real, scale: Pos) {
    forall i: nat, j: nat :: RepeatsAt(F, G, scale, i, j)
  }

  predicate RepeatsAt(F: Coord -> real, G: Coord -> real, scale: Pos, i: nat, j: nat) {
    F([i, j]) == G([i / scale, j / scale])
  }

  lemma RepeatedRow(F: Coord -> real, G: Coord -> real, w: Pos, ws: Pos, scale: Pos, i: nat)
    requires ws == w * scale && Repeats(F, G, scale)
    ensures ImageRows(ws, F)(i) == scale as real * ImageRows(w, G)(i / scale)
  {
    var f := RowOf(G, i / scale);
    forall j: nat | j < ws ensures RowOf(F, i)(j) == Stretched(f, scale)(j) {
      assert RepeatsAt(F, G, scale, i, j);
    }
    SumExt(ws, RowOf(F, i), Stretched(f, scale));
    StretchedSum(w, ws, f, scale);
  }

  lemma RepeatedRows(F: Coord -> real, G: Coord -> real, h: Pos, w: Pos, hs: Pos, ws: Pos, scale: Pos)
    requires hs == h * scale && ws == w * scale && Repeats(F, G, scale)
    ensures Sum(hs, ImageRows(ws, F)) == Sum(hs, Stretched(ScaledBy(scale as real, ImageRows(w, G)), scale))
  {
    var rows := Stretched(ScaledBy(scale as real, ImageRows(w, G)), scale);
    forall i: nat | i < hs ensures ImageRows(ws, F)(i) == rows(i) {
      RepeatedRow(F, G, w, ws, scale, i);
    }
    SumExt(hs, ImageRows(ws, F), rows);
  }

  lemma ScaledSum(n: nat, k: real, f: nat -> real)
    ensures Sum(n, ScaledBy(k, f)) == k * Sum(n, f)
  {
    SumScale(n, k, f, ScaledBy(k, f));
  }

  /** An image whose pixels are repeated scale times both ways has scale squared times the total. */
  lemma RepeatedImage(F: Coord -> real, G: Coord -> real, h: Pos, w: Pos, hs: Pos, ws: Pos, scale: Pos)
    requires hs == h * scale && ws == w * scale && Repeats(F, G, scale)
    ensures CoordSum([hs, ws], F) == scale as real * (scale as real * CoordSum([h, w], G))
  {
    Rank2(hs, ws, F);
    Rank2(h, w, G);
    RepeatedTotal(F, G, h, w, hs, ws, scale, CoordSum([h, w], G));
  }

  lemma RepeatedTotal(
      F: Coord -> real, G: Coord -> real, h: Pos, w: Pos, hs: Pos, ws: Pos, scale: Pos, total: real)
    requires hs == h * scale && ws == w * scale && Repeats(F, G, scale) && total == Sum(h, ImageRows(w, G))
    ensures Sum(hs, ImageRows(ws, F)) == scale as real * (scale as real * total)
  {
    RepeatedRows(F, G, h, w, hs, ws, scale);
    StretchedImage(h, hs, ImageRows(w, G), scale, total);
  }

  lemma StretchedImage(h: Pos, hs: Pos, rows: nat -> real, scale: Pos, total: real)
    requires hs == h * scale && total == Sum(h, rows)
    ensures Sum(hs, Stretched(ScaledBy(scale as real, rows), scale)) == scale as real * (scale as real * total)
  {
    StretchedSum(h, hs, ScaledBy(scale as real, rows), scale);
    ScaledSum(h, scale as real, rows);
  }

  /** scale times scale. */
  function Squared(scale: Pos): real {
    Copies(scale, scale) as real
  }

  lemma SquareOf(scale: Pos, x: real)
    ensures scale as real * (scale as real * x) == Squared(scale) * x
  {
    CopiesIsProduct(scale, scale);
    SquareOfReal(scale as real, Squared(scale), x);
  }

  lemma SquareOfReal(s: real, square: real, x: real)
    requires square == s * s
    ensures s * (s * x) == square * x
  {
  }

  lemma InnerRepeats(G: Coord -> real, scale: Pos, n: nat, c: nat)
    ensures Repeats(Prefixed(Prefixed(ShrinkOf(G, scale), n), c), Prefixed(Prefixed(G, n), c), scale)
  {
    var F, H := Prefixed(Prefixed(ShrinkOf(G, scale), n), c), Prefixed(Prefixed(G, n), c);
    forall i: nat, j: nat ensures RepeatsAt(F, H, scale, i, j) {
      var d: Coord := [i, j];
      var full: Coord := [n, c, i, j];
      var small: Coord := [i / scale, j / scale];
      var shrunk: Coord := [n, c, i / scale, j / scale];
      assert [n] + ([c] + d) == full && [n] + ([c] + small) == shrunk;
      assert Shrink(full, scale) == shrunk;
    }
  }

  lemma ChannelTotal(G: Coord -> real, inDims: Dims, outDims: Dims, scale: Pos, n: nat)
    requires Enlarged(inDims, outDims, scale)
    ensures CoordSum(outDims[1..], Prefixed(ShrinkOf(G, scale), n)) ==
      Squared(scale) * CoordSum(inDims[1..], Prefixed(G, n))
  {
    var C := outDims[1];
    var rest: Dims := [inDims[2], inDims[3]];
    var rest': Dims := [outDims[2], outDims[3]];
    assert outDims[1..][1..] == rest' && inDims[1..][1..] == rest;
    forall c: nat | c < C
      ensures CoordSum(rest', Prefixed(Prefixed(ShrinkOf(G, scale), n), c)) ==
        Squared(scale) * CoordSum(rest, Prefixed(Prefixed(G, n), c))
    {
      ImageTotal(G, inDims, outDims, scale, n, c);
    }
    SameDimension(C, rest, rest', Prefixed(G, n), Prefixed(ShrinkOf(G, scale), n), Squared(scale));
  }

  lemma ImageTotal(G: Coord -> real, inDims: Dims, outDims: Dims, scale: Pos, n: nat, c: nat)
    requires Enlarged(inDims, outDims, scale)
    ensures CoordSum([outDims[2], outDims[3]], Prefixed(Prefixed(ShrinkOf(G, scale), n), c))
         == Squared(scale) * CoordSum([inDims[2], inDims[3]], Prefixed(Prefixed(G, n), c))
  {
    var F, H := Prefixed(Prefixed(ShrinkOf(G, scale), n), c), Prefixed(Prefixed(G, n), c);
    InnerRepeats(G, scale, n, c);
    RepeatedImage(F, H, inDims[2], inDims[3], outDims[2], outDims[3], scale);
    SquareOf(scale, CoordSum([inDims[2], inDims[3]], H));
  }

  lemma BatchTotal(G: Coord -> real, inDims: Dims, outDims: Dims, scale: Pos)
    requires Enlarged(inDims, outDims, scale)
    ensures CoordSum(outDims, ShrinkOf(G, scale)) == Squared(scale) * CoordSum(inDims, G)
  {
    forall n: nat | n < outDims[0]
      ensures CoordSum(outDims[1..], Prefixed(ShrinkOf(G, scale), n)) ==
        Squared(scale) * CoordSum(inDims[1..], Prefixed(G, n))
    {
      ChannelTotal(G, inDims, outDims, scale, n);
    }
    SameDimension(outDims[0], inDims[1..], outDims[1..], G, ShrinkOf(G, scale), Squared(scale));
  }

  /** The same over the buffers. */
  lemma BufferTotal(G: Coord -> real, inDims: Dims, outDims: Dims, scale: Pos)
    requires Enlarged(inDims, outDims, scale)
    ensures Sum(Size(outDims), Flat(outDims, ShrinkOf(G, scale))) == Squared(scale) * Sum(Size(inDims), Flat(inDims, G))
  {
    BufferSum(outDims, ShrinkOf(G, scale));
    BufferSum(inDims, G);
    BatchTotal(G, inDims, outDims, scale);
  }

  function ValueAt(src: seq<real>, dims: Dims): Coord -> real {
    (c: Coord) => if |c| == |dims| then Elem(src, Offset(c, dims)) else 0.0
  }

  lemma FlatOfValues(src: seq<real>, dims: Dims)
    requires |src| == Size(dims)
    ensures Sum(|src|, ElemsOf(src)) == Sum(Size(dims), Flat(dims, ValueAt(src, dims)))
  {
    forall p: nat | p < |src| ensures ElemsOf(src)(p) == Flat(dims, ValueAt(src, dims))(p) {
      OffsetOfUnflatten(p, dims);
    }
    SumExt(|src|, ElemsOf(src), Flat(dims, ValueAt(src, dims)));
  }

  /** The output total is scale squared times the input total. */
  lemma UpsampledTotal(
      src: seq<real>, inDims: Dims, dst: seq<real>, outDims: Dims, scale: Pos, input: real, output: real)
    requires Enlarged(inDims, outDims, scale) && IsUpsampled(src, inDims, dst, outDims, scale)
    requires input == Sum(|src|, ElemsOf(src)) && output == Sum(|dst|, ElemsOf(dst))
    ensures output == Squared(scale) * input
  {
    FlatOfCopies(src, inDims, dst, outDims, scale);
    FlatOfValues(src, inDims);
    TotalOfValues(src, inDims, outDims, scale, input, output);
  }

  lemma TotalOfValues(src: seq<real>, inDims: Dims, outDims: Dims, scale: Pos, input: real, output: real)
    requires Enlarged(inDims, outDims, scale)
    requires input == Sum(Size(inDims), Flat(inDims, ValueAt(src, inDims)))
    requires output == Sum(Size(outDims), Flat(outDims, ShrinkOf(ValueAt(src, inDims), scale)))
    ensures output == Squared(scale) * input
  {
    BufferTotal(ValueAt(src, inDims), inDims, outDims, scale);
  }

  lemma FlatOfCopies(src: seq<real>, inDims: Dims, dst: seq<real>, outDims: Dims, scale: Pos)
    requires Enlarged(inDims, outDims, scale) && IsUpsampled(src, inDims, dst, outDims, scale)
    ensures Sum(|dst|, ElemsOf(dst)) == Sum(Size(outDims), Flat(outDims, ShrinkOf(ValueAt(src, inDims), scale)))
  {
    var f := Flat(outDims, ShrinkOf(ValueAt(src, inDims), scale));
    forall p: nat | p < |dst| ensures ElemsOf(dst)(p) == f(p) {
      CopyIsFlat(src, inDims, dst, outDims, scale, p);
    }
    SumExt(|dst|, ElemsOf(dst), f);
  }

  lemma CopyIsFlat(src: seq<real>, inDims: Dims, dst: seq<real>, outDims: Dims, scale: Pos, p: nat)
    requires Copied(src, inDims, dst, outDims, scale, p)
    ensures ElemsOf(dst)(p) == Flat(outDims, ShrinkOf(ValueAt(src, inDims), scale))(p)
  {
  }

  function Indicator(c: Coord): Coord -> real {
    (d: Coord) => if d == c then 1.0 else 0.0
  }

  /** Counts 1 for every output cell that copies the input cell at c. */
  function CopiesOf(c: Coord, outDims: Dims, scale: Pos): nat -> real {
    Flat(outDims, ShrinkOf(Indicator(c), scale))
  }

  /** Every input cell is copied to exactly scale squared output cells. */
  lemma CopiedSquareTimes(c: Coord, inDims: Dims, outDims: Dims, scale: Pos)
    requires Enlarged(inDims, outDims, scale) && InBounds(c, inDims)
    ensures Sum(Size(outDims), CopiesOf(c, outDims, scale)) == Squared(scale)
  {
    var q := Offset(c, inDims);
    OffsetBound(c, inDims);
    UnflattenOfOffset(c, inDims);
    var f := Flat(inDims, Indicator(c));
    forall p: nat | p < Size(inDims) && p != q ensures f(p) == 0.0 {
      OffsetOfUnflatten(p, inDims);
    }
    SumSingle(Size(inDims), f, q);
    BufferTotal(Indicator(c), inDims, outDims, scale);
  }

  // ------------------------------------------------------------ backward, as written

  /** The output gradient that the loop reads for an output coordinate: at the shrunk one. */
  function ShrunkRead(g: seq<real>, gDims: Dims, scale: Pos, c: Coord): real
    requires |c| == |gDims| >= 2
  {
    Elem(g, Offset(Shrink(c, scale), gDims))
  }

  /** What the cell at c holds once the first p output coordinates have been visited. */
  ghost predicate AddedAt(
      s: seq<real>, before: seq<real>, dims: Dims, g: seq<real>, gDims: Dims, scale: Pos, p: nat, c: Coord)
    requires |s| == |before| == Size(dims) && |gDims| >= 2 && InBounds(c, dims)
  {
    OffsetBound(c, dims);
    var k := Offset(c, dims);
    s[k] == before[k] + if InBounds(c, gDims) && Offset(c, gDims) < p then ShrunkRead(g, gDims, scale, c) else 0.0
  }

  ghost predicate AddedUpTo(
      s: seq<real>, before: seq<real>, dims: Dims, g: seq<real>, gDims: Dims, scale: Pos, p: nat) {
    && |s| == |before| == Size(dims) && |gDims| >= 2
    && forall c :: InBounds(c, dims) ==> AddedAt(s, before, dims, g, gDims, scale, p, c)
  }

  lemma AddOne(
      s: seq<real>, before: seq<real>, dims: Dims, g: seq<real>, gDims: Dims, scale: Pos, p: nat, coord: Coord,
      s': seq<real>)
    requires AddedUpTo(s, before, dims, g, gDims, scale, p) && InBounds(coord, dims) && InBounds(coord, gDims)
    requires Offset(coord, gDims) == p && Offset(coord, dims) < |s|
    requires s' == s[Offset(coord, dims) := s[Offset(coord, dims)] + ShrunkRead(g, gDims, scale, coord)]
    ensures AddedUpTo(s', before, dims, g, gDims, scale, p + 1)
  {
    forall c | InBounds(c, dims) ensures AddedAt(s', before, dims, g, gDims, scale, p + 1, c) {
      assert AddedAt(s, before, dims, g, gDims, scale, p, c);
      if c != coord {
        OtherUnchanged(s, before, dims, g, gDims, scale, p, coord, c, s');
      }
    }
  }

  lemma OtherUnchanged(
      s: seq<real>, before: seq<real>, dims: Dims, g: seq<real>, gDims: Dims, scale: Pos, p: nat, coord: Coord,
      c: Coord,
      s': seq<real>)
    requires |s| == |before| == |s'| == Size(dims) && |gDims| >= 2 && InBounds(c, dims) && c != coord
    requires InBounds(coord, dims) && InBounds(coord, gDims) && Offset(coord, gDims) == p
    requires forall k :: 0 <= k < |s| && k != Offset(coord, dims) ==> s'[k] == s[k]
    requires AddedAt(s, before, dims, g, gDims, scale, p, c)
    ensures AddedAt(s', before, dims, g, gDims, scale, p + 1, c)
  {
    OffsetBound(c, dims);
    if Offset(c, dims) == Offset(coord, dims) { OffsetInjective(c, coord, dims); }
    if InBounds(c, gDims) && Offset(c, gDims) == p { OffsetInjective(c, coord, gDims); }
  }

  /** The backward loop adds into the cell of the output coordinate, reading the gradient at the
      shrunk one. It completes exactly when no output dimension exceeds the input gradient's, and
      then every cell inside the output shape has gained one read, and no other has changed. */
  method UpsampleBackward(outputGrad: Tensor<real>, inputGrad: Tensor<real>, scale: Pos) returns (ok: bool)
    requires outputGrad.Sized() && inputGrad.Sized() && outputGrad.device == CPU && inputGrad.device == CPU
    requires outputGrad.ptr != inputGrad.ptr && |outputGrad.dims| >= 2
    modifies inputGrad.ptr
    ensures ok <==> |inputGrad.dims| == 4 && Within(outputGrad.dims, inputGrad.dims)
    ensures ok ==> AddedUpTo(
      inputGrad.ptr[..], old(inputGrad.ptr[..]), inputGrad.dims, outputGrad.ptr[..], outputGrad.dims, scale,
        Size(outputGrad.dims))
  {
    if |inputGrad.dims| != 4 {
      return false;
    }
    var coords := CoordSeq(outputGrad.dims);
    for p := 0 to |coords|
      invariant WithinUpTo(outputGrad.dims, inputGrad.dims, p)
      invariant AddedUpTo(
        inputGrad.ptr[..], old(inputGrad.ptr[..]), inputGrad.dims, outputGrad.ptr[..], outputGrad.dims, scale, p)
    {
      ghost var s := inputGrad.ptr[..];
      var added := AddPixel(outputGrad, inputGrad, scale, coords[p], p);
      if !added {
        OutOfBoundsOutside(coords[p], outputGrad.dims, inputGrad.dims);
        return false;
      }
      AddOne(s, old(inputGrad.ptr[..]), inputGrad.dims, outputGrad.ptr[..], outputGrad.dims, scale, p, coords[p],
        inputGrad.ptr[..]);
    }
    CornerDecides(outputGrad.dims, inputGrad.dims);
    ok := true;
  }

  /** Inside the output shape, pixel (y, x) of every image gains the gradient of pixel
      (y / scale, x / scale) of the same image; the other pixels gain nothing. */
  lemma AddedPixel(
      s: seq<real>, before: seq<real>, dims: Dims, g: seq<real>, gDims: Dims, scale: Pos, n: nat, c: nat, y: nat,
      x: nat)
    requires AddedUpTo(s, before, dims, g, gDims, scale, Size(gDims)) && |g| == Size(gDims)
    requires |dims| == |gDims| == 4 && InBounds([n, c, y, x], dims)
    ensures Offset([n, c, y, x], dims) < |s| == |before|
    ensures InBounds([n, c, y, x], gDims) ==> Offset([n, c, y / scale, x / scale], gDims) < |g|
    ensures s[Offset([n, c, y, x], dims)] == before[Offset([n, c, y, x], dims)] +
      if InBounds([n, c, y, x], gDims) then g[Offset([n, c, y / scale, x / scale], gDims)] else 0.0
  {
    var cell: Coord := [n, c, y, x];
    OffsetBound(cell, dims);
    ShrunkPixel(n, c, y, x, scale);
    assert AddedAt(s, before, dims, g, gDims, scale, Size(gDims), cell);
    if InBounds(cell, gDims) {
      OffsetBound(cell, gDims);
      ShrinkStays(cell, gDims, scale);
      OffsetBound(Shrink(cell, scale), gDims);
    }
  }

  /** The first p coordinates of the one shape are in bounds of the other. */
  ghost predicate WithinUpTo(dims: Dims, bounds: Dims, p: nat) {
    forall k: nat :: k < p ==> InBounds(Unflatten(k, dims), bounds)
  }

  /** With nothing to upsample, the forward kernel copies, and the backward kernel adds the whole
      gradient: its adjoint. */
  lemma BackwardOfIdentity(s: seq<real>, before: seq<real>, g: seq<real>, dims: Dims)
    requires |dims| == 4 && |g| == Size(dims) && AddedUpTo(s, before, dims, g, dims, 1, Size(dims))
    ensures forall k :: 0 <= k < |s| ==> s[k] == before[k] + g[k]
    ensures forall src, dst :: IsUpsampled(src, dims, dst, dims, 1) ==> dst == src
  {
    forall p: nat | p < Size(dims) ensures SourceIndex(dims, dims, 1)(p) == p {
      UnshrunkIndex(dims, p);
    }
    forall k | 0 <= k < |s| ensures s[k] == before[k] + g[k] {
      UnshrunkIndex(dims, k);
      assert AddedAt(s, before, dims, g, dims, 1, Size(dims), Unflatten(k, dims));
    }
    forall src, dst | IsUpsampled(src, dims, dst, dims, 1) ensures dst == src {
      forall p: nat | p < |dst| ensures dst[p] == src[p] {
        assert Copied(src, dims, dst, dims, 1, p);
      }
    }
  }

  lemma UnshrunkIndex(dims: Dims, p: nat)
    requires |dims| == 4 && p < Size(dims)
    ensures InBounds(Unflatten(p, dims), dims) && Offset(Unflatten(p, dims), dims) == p
    ensures Shrink(Unflatten(p, dims), 1) == Unflatten(p, dims) && SourceIndex(dims, dims, 1)(p) == p
  {
    UnflattenInBounds(p, dims);
    OffsetOfUnflatten(p, dims);
  }

  lemma ShrinkStays(c: Coord, dims: Dims, scale: Pos)
    requires |dims| >= 2 && InBounds(c, dims)
    ensures InBounds(Shrink(c, scale), dims)
  {
    QuotientAtMost(c[|c| - 1], scale);
    QuotientAtMost(c[|c| - 2], scale);
  }

  lemma QuotientAtMost(x: nat, d: Pos)
    ensures x / d <= x
  {
    assert x < (x + 1) * d;
    QuotientBound(x, d, x + 1);
  }

  lemma OutOfBoundsOutside(c: Coord, dims: Dims, bounds: Dims)
    requires InBounds(c, dims) && !InBounds(c, bounds)
    ensures !Within(dims, bounds)
  {
  }

  lemma CornerDecides(dims: Dims, bounds: Dims)
    requires WithinUpTo(dims, bounds, Size(dims))
    ensures Within(dims, bounds)
  {
    var c := Corner(dims);
    OffsetBound(c, dims);
    UnflattenOfOffset(c, dims);
    assert InBounds(Unflatten(Offset(c, dims), dims), bounds);
  }

  method AddPixel(
      outputGrad: Tensor<real>, inputGrad: Tensor<real>, scale: Pos, coord: Coord, ghost p: nat)
    returns (ok: bool)
    requires outputGrad.Sized() && inputGrad.Sized() && outputGrad.device == CPU && inputGrad.device == CPU
    requires outputGrad.ptr != inputGrad.ptr && |outputGrad.dims| >= 2
    requires p < Size(outputGrad.dims) && coord == Unflatten(p, outputGrad.dims)
    modifies inputGrad.ptr
    ensures InBounds(coord, outputGrad.dims) && Offset(coord, outputGrad.dims) == p
    ensures ok <==> InBounds(coord, inputGrad.dims)
    ensures ok ==> Offset(coord, inputGrad.dims) < inputGrad.ptr.Length && inputGrad.ptr[..] == old(inputGrad.ptr[..])[
      Offset(coord, inputGrad.dims) := old(inputGrad.ptr[Offset(coord, inputGrad.dims)])
        + ShrunkRead(outputGrad.ptr[..], outputGrad.dims, scale, coord)]
  {
    UnflattenInBounds(p, outputGrad.dims);
    OffsetOfUnflatten(p, outputGrad.dims);
    ShrinkStays(coord, outputGrad.dims, scale);
    var v := At(outputGrad, Shrink(coord, scale));
    ok := InBounds(coord, inputGrad.dims);
    if ok {
      var x := At(inputGrad, coord);
      SetAt(inputGrad, coord, x + v);
    }
  }

  /** On shapes that belong together, the backward loop stays in bounds exactly when there is
      nothing to upsample. */
  lemma BackwardInBoundsExactly(inDims: Dims, outDims: Dims, scale: Pos)
    requires Enlarged(inDims, outDims, scale)
    ensures Within(outDims, inDims) <==> scale == 1
  {
    assert scale >= 2 ==> inDims[2] * scale >= inDims[2] * 2;
  }
}
