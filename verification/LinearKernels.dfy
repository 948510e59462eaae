/** The linear and batch-matmul operators on the CPU, and the proof that their backward
    kernels compute the gradients of their forward kernels. */
module LinearKernels {
  import opened Sequences
  import opened Options
  import opened Sums
  import opened TensorIndex
  import opened Accessors
  import opened Matrices
  import opened TensorKernels

  datatype Activation = RELU

  /** The least number that is neither negative nor below x. */
  function Relu(x: real): (r: real)
    ensures r >= 0.0 && r >= x && (r == 0.0 || r == x)
  {
    if x >= 0.0 then x else 0.0
  }

  /** What the backward kernel uses, under ReLU, in place of an output gradient. */
  function ReluBackward(g: real): (r: real)
    ensures (r == 1.0 || r == 0.0) && (r == 1.0 <==> g > 0.0)
  {
    if g > 0.0 then 1.0 else 0.0
  }

  function Activate(a: Option<Activation>, x: real): real {
    if a.Some? then Relu(x) else x
  }

  /** The bias added to cell p of the output. */
  function BiasAt(bias: Option<seq<real>>, biasDims: Dims, dims: Dims, p: nat): real
    requires bias.Some? ==> Broadcastable(biasDims, dims)
    requires p < Size(dims)
  {
    if bias.Some? then Elem(bias.value, BroadcastIndex(biasDims, dims, p)) else 0.0
  }

  /** `out` holds a product plus the broadcast bias, activated. */
  ghost predicate IsLinearOutput(
      out: seq<real>, dims: Dims, product: seq<real>, bias: Option<seq<real>>, biasDims: Dims, act: Option<Activation>)
  {
    && (bias.Some? ==> Broadcastable(biasDims, dims))
    && |out| == |product| == Size(dims)
    && forall p: nat :: p < |out| ==> out[p] == Activate(act, product[p] + BiasAt(bias, biasDims, dims, p))
  }

  ghost predicate IsProduct(product: seq<real>, dims: Dims, k: nat, A: Matrix, B: Matrix) {
    |dims| == 2 && |product| == Size(dims) && Agree(dims[0], dims[1], View2(product, dims), MatMul(k, A, B))
  }

  /** The output is the input times the transposed projection, plus the bias. With the activation,
      every cell holds the least number that is neither negative nor below that. */
  method LinearForward(
      useBias: bool, act: Option<Activation>, input: Tensor<real>, output: Tensor<real>, projection: Tensor<real>,
      bias: Option<Tensor<real>>)
    returns (ghost product: seq<real>)
    requires input.Sized() && output.Sized() && projection.Sized()
    requires |input.dims| == 2 && |projection.dims| == 2 && input.dims[1] == projection.dims[1]
    requires Size(output.dims) <= Size([input.dims[0], projection.dims[0]])
    requires useBias == bias.Some?
    requires bias.Some? ==>
      bias.value.Sized() && Broadcastable(bias.value.dims, output.dims) && bias.value.ptr != output.ptr
    modifies output.ptr
    ensures IsFlatProduct(product, output.dims, input.dims[0], projection.dims[0], input.dims[1],
      View2(old(input.ptr[..]), input.dims), Transposed(View2(old(projection.ptr[..]), projection.dims)))
    ensures IsLinearOutput(output.ptr[..], output.dims, product,
      if bias.Some? then Some(bias.value.ptr[..]) else None, if bias.Some? then bias.value.dims else [], act)
    ensures forall p: nat :: p < output.ptr.Length ==>
      var sum := product[p] +
        if bias.Some? then bias.value.ptr[BroadcastIndex(bias.value.dims, output.dims, p)] else 0.0;
      && (act.None? ==> output.ptr[p] == sum)
      && (act.Some? ==>
            output.ptr[p] >= 0.0 && output.ptr[p] >= sum && (output.ptr[p] == 0.0 || output.ptr[p] == sum))
  {
    product := TimesTransposed(input, projection, output);
    AddBias(output, bias);
    if act.Some? {
      MapTensorTo(output, Relu, output);
    }
  }

  /** The buffer holds, row by row, as many cells of the product as its shape has; when that is the
      product's shape, it holds the product. */
  ghost predicate IsFlatProduct(product: seq<real>, dims: Dims, m: Pos, n: Pos, k: nat, A: Matrix, B: Matrix) {
    && |product| == Size(dims) && Filled(product, Size(dims), Entries2(MatMul(k, A, B), [m, n]))
    && (dims == [m, n] ==> IsProduct(product, dims, k, A, B))
  }

  method TimesTransposed(
      input: Tensor<real>, projection: Tensor<real>, output: Tensor<real>)
    returns (ghost product: seq<real>)
    requires input.Sized() && output.Sized() && projection.Sized()
    requires |input.dims| == 2 && |projection.dims| == 2 && input.dims[1] == projection.dims[1]
    requires Size(output.dims) <= Size([input.dims[0], projection.dims[0]])
    modifies output.ptr
    ensures product == output.ptr[..]
    ensures IsFlatProduct(product, output.dims, input.dims[0], projection.dims[0], input.dims[1],
      View2(old(input.ptr[..]), input.dims), Transposed(View2(old(projection.ptr[..]), projection.dims)))
  {
    ghost var A, W := View2(input.ptr[..], input.dims), View2(projection.ptr[..], projection.dims);
    ghost var m, n, k := input.dims[0], projection.dims[0], input.dims[1];
    var transposed := Transpose(projection);
    ghost var T := View2(transposed.ptr[..], transposed.dims);
    TransposedView(projection.ptr[..], projection.dims, transposed.ptr[..], transposed.dims);
    MatmulTo(input, transposed, output);
    product := output.ptr[..];
    MatMulExt(m, n, k, A, T, A, Transposed(W));
    SameEntries(product, Size(output.dims), [m, n], MatMul(k, A, T), MatMul(k, A, Transposed(W)));
  }

  lemma SameEntries(s: seq<real>, p: nat, dims: Dims, P: Matrix, Q: Matrix)
    requires |dims| == 2 && p <= Size(dims) && Filled(s, p, Entries2(P, dims)) && Agree(dims[0], dims[1], P, Q)
    ensures Filled(s, p, Entries2(Q, dims))
  {
    forall q: nat | q < p ensures Entries2(P, dims)(q) == Entries2(Q, dims)(q) {
      UnflattenInBounds(q, dims);
    }
  }

  method AddBias(output: Tensor<real>, bias: Option<Tensor<real>>)
    requires output.Sized()
    requires bias.Some? ==>
      bias.value.Sized() && Broadcastable(bias.value.dims, output.dims) && bias.value.ptr != output.ptr
    modifies output.ptr
    ensures IsLinearOutput(output.ptr[..], output.dims, old(output.ptr[..]),
      if bias.Some? then Some(bias.value.ptr[..]) else None, if bias.Some? then bias.value.dims else [], None)
  {
    if bias.Some? {
      var broadcasted := Broadcast(bias.value, output.dims);
      MapTensors2To(output, broadcasted, (x: real, y: real) => x + y, output);
    }
  }

  /** The gradient buffers the backward kernel writes are separate from each other and from
      everything it still has to read. */
  ghost predicate SeparateGradients(
      outputGrad: Tensor<real>, input: Tensor<real>, inputGrad: Tensor<real>, projection: Tensor<real>,
      projectionGrad: Tensor<real>, biasGrad: Option<Tensor<real>>)
  {
    && inputGrad.ptr != input.ptr && inputGrad.ptr != outputGrad.ptr && inputGrad.ptr != projectionGrad.ptr
    && projectionGrad.ptr != outputGrad.ptr
    && (biasGrad.Some? ==> biasGrad.value.ptr != inputGrad.ptr && biasGrad.value.ptr != projectionGrad.ptr)
  }

  /** The output gradient that the backward kernel works with. */
  function ProcessedGrad(act: Option<Activation>, g: seq<real>): (r: seq<real>)
    ensures |r| == |g|
  {
    if act.Some? then Map(ReluBackward, g) else g
  }

  /** What the kernel leaves in the input gradient's buffer for a processed output gradient. */
  ghost predicate IsInputGradient(dx: seq<real>, processed: seq<real>, w: seq<real>, m: Pos, n: Pos, k: Pos) {
    && |dx| == Size([m, k])
    && Agree(m, k, View2(dx, [m, k]), MatMul(n, View2(processed, [m, n]), View2(w, [n, k])))
  }

  /** And in the projection gradient's. */
  ghost predicate IsProjectionGradient(dw: seq<real>, processed: seq<real>, x: seq<real>, m: Pos, n: Pos, k: Pos) {
    && |dw| == Size([n, k])
    && Agree(n, k, View2(dw, [n, k]), MatMul(m, Transposed(View2(processed, [m, n])), View2(x, [m, k])))
  }

  method LinearBackward(
      act: Option<Activation>, outputGrad: Tensor<real>, input: Tensor<real>, inputGrad: Tensor<real>,
      projection: Tensor<real>, projectionGrad: Tensor<real>, biasGrad: Option<Tensor<real>>)
    requires outputGrad.Sized() && input.Sized() && inputGrad.Sized() && projection.Sized() && projectionGrad.Sized()
    requires |input.dims| == 2 && |projection.dims| == 2 && input.dims[1] == projection.dims[1]
    requires outputGrad.dims == [input.dims[0], projection.dims[0]]
    requires inputGrad.dims == input.dims && projectionGrad.dims == projection.dims
    requires biasGrad.Some? ==> biasGrad.value.Sized() && biasGrad.value.dims == [projection.dims[0]]
    requires SeparateGradients(outputGrad, input, inputGrad, projection, projectionGrad, biasGrad)
    modifies inputGrad.ptr, projectionGrad.ptr, if biasGrad.Some? then {biasGrad.value.ptr} else {}
    ensures IsInputGradient(inputGrad.ptr[..], ProcessedGrad(act, old(outputGrad.ptr[..])), old(projection.ptr[..]),
      input.dims[0], projection.dims[0], input.dims[1])
    ensures IsProjectionGradient(projectionGrad.ptr[..], ProcessedGrad(act, old(outputGrad.ptr[..])),
      old(input.ptr[..]),
      input.dims[0], projection.dims[0], input.dims[1])
    ensures biasGrad.Some? ==> forall q: nat :: q < biasGrad.value.ptr.Length ==>
      biasGrad.value.ptr[q] == Scatter(Size(outputGrad.dims), ReduceIndex(outputGrad.dims, 0),
        ElemsOf(ProcessedGrad(act, old(outputGrad.ptr[..]))), q)
  {
    assert input.dims == [input.dims[0], input.dims[1]] && projection.dims == [projection.dims[0], projection.dims[1]];
    var processed := outputGrad;
    if act.Some? {
      processed := MapTensor(outputGrad, ReluBackward);
    }
    MatmulTo(processed, projection, inputGrad);
    ProjectionGradient(processed, input, projectionGrad);
    if biasGrad.Some? {
      ReduceTo(processed, 0, biasGrad.value);
    }
  }

  /** The transpose of inputᵗ times the output gradient. */
  method ProjectionGradient(processed: Tensor<real>, input: Tensor<real>, projectionGrad: Tensor<real>)
    requires processed.Sized() && input.Sized() && projectionGrad.Sized()
    requires |input.dims| == 2 && |processed.dims| == 2 && processed.dims[0] == input.dims[0]
    requires projectionGrad.dims == [processed.dims[1], input.dims[1]]
    modifies projectionGrad.ptr
    ensures Agree(processed.dims[1], input.dims[1], View2(projectionGrad.ptr[..], projectionGrad.dims),
      MatMul(input.dims[0], Transposed(View2(old(processed.ptr[..]), processed.dims)),
        View2(old(input.ptr[..]), input.dims)))
  {
    ghost var m, n, k := processed.dims[0], processed.dims[1], input.dims[1];
    ghost var G, X := View2(processed.ptr[..], processed.dims), View2(input.ptr[..], input.dims);
    var inputT := Transpose(input);
    TransposedView(input.ptr[..], input.dims, inputT.ptr[..], inputT.dims);
    var product := Matmul(inputT, processed);
    ghost var XT := View2(inputT.ptr[..], inputT.dims);
    MatMulExt(k, n, m, XT, G, Transposed(X), G);
    TransposeTo(product, projectionGrad);
    TransposedView(product.ptr[..], product.dims, projectionGrad.ptr[..], projectionGrad.dims);
    TransposedProductBack(m, n, k, G, X, View2(product.ptr[..], product.dims),
      View2(projectionGrad.ptr[..], projectionGrad.dims));
  }

  lemma TransposedProductBack(m: nat, n: nat, k: nat, G: Matrix, X: Matrix, P: Matrix, R: Matrix)
    requires Agree(k, n, P, MatMul(m, Transposed(X), G)) && Agree(n, k, R, Transposed(P))
    ensures Agree(n, k, R, MatMul(m, Transposed(G), X))
  {
    forall i: nat, j: nat | i < n && j < k ensures R(i, j) == MatMul(m, Transposed(G), X)(i, j) {
      assert R(i, j) == P(j, i) == Sum(m, ProductTerm(Transposed(X), G, j, i));
      SumExt(m, ProductTerm(Transposed(X), G, j, i), ProductTerm(Transposed(G), X, i, j));
    }
  }

  // ------------------------------------------------------------------ adjointness

  lemma DotAdd(g: seq<real>, a: seq<real>, b: seq<real>, c: seq<real>)
    requires |g| == |a| == |b| == |c| && forall p :: 0 <= p < |g| ==> c[p] == a[p] + b[p]
    ensures Dot(g, c) == Dot(g, a) + Dot(g, b)
  {
    forall p: nat | p < |g| ensures DotTerm(g, c)(p) == DotTerm(g, a)(p) + DotTerm(g, b)(p) {
      assert g[p] * (a[p] + b[p]) == g[p] * a[p] + g[p] * b[p];
    }
    SumAdd(|g|, DotTerm(g, a), DotTerm(g, b), DotTerm(g, c));
  }

  /** Buffers holding a G, an X, a W and the product of X with the transposed W. */
  ghost predicate LinearShapes(g: seq<real>, x: seq<real>, w: seq<real>, product: seq<real>, m: Pos, n: Pos, k: Pos) {
    && |g| == Size([m, n]) && |x| == Size([m, k]) && |w| == Size([n, k])
    && IsProduct(product, [m, n], k, View2(x, [m, k]), Transposed(View2(w, [n, k])))
  }

  /** <G, X Wᵗ> == <G W, X>. */
  lemma InputGradientIsAdjoint(
      g: seq<real>, x: seq<real>, w: seq<real>, product: seq<real>, dx: seq<real>, m: Pos, n: Pos, k: Pos)
    requires LinearShapes(g, x, w, product, m, n, k) && |dx| == Size([m, k])
    requires Agree(m, k, View2(dx, [m, k]), MatMul(n, View2(g, [m, n]), View2(w, [n, k])))
    ensures Dot(g, product) == Dot(dx, x)
  {
    var G, X, W := View2(g, [m, n]), View2(x, [m, k]), View2(w, [n, k]);
    DotIsInner(g, product, [m, n]);
    InnerExt(m, n, G, View2(product, [m, n]), G, MatMul(k, X, Transposed(W)));
    MatMulLeftAdjoint(m, n, k, G, X, Transposed(W));
    MatMulExt(m, k, n, G, Transposed(Transposed(W)), G, W);
    InnerExt(m, k, MatMul(n, G, Transposed(Transposed(W))), X, View2(dx, [m, k]), X);
    DotIsInner(dx, x, [m, k]);
  }

  /** <G, X Wᵗ> == <Gᵗ X, W>. */
  lemma ProjectionGradientIsAdjoint(
      g: seq<real>, x: seq<real>, w: seq<real>, product: seq<real>, dw: seq<real>, m: Pos, n: Pos, k: Pos)
    requires LinearShapes(g, x, w, product, m, n, k) && |dw| == Size([n, k])
    requires Agree(n, k, View2(dw, [n, k]), MatMul(m, Transposed(View2(g, [m, n])), View2(x, [m, k])))
    ensures Dot(g, product) == Dot(dw, w)
  {
    var G, X, W := View2(g, [m, n]), View2(x, [m, k]), View2(w, [n, k]);
    DotIsInner(g, product, [m, n]);
    InnerExt(m, n, G, View2(product, [m, n]), G, MatMul(k, X, Transposed(W)));
    MatMulRightAdjoint(m, n, k, G, X, Transposed(W));
    var D := MatMul(m, Transposed(X), G);
    InnerTransposed(k, n, D, Transposed(W));
    TransposedProductBack(m, n, k, G, X, D, Transposed(D));
    InnerExt(n, k, Transposed(D), Transposed(Transposed(W)), View2(dw, [n, k]), W);
    DotIsInner(dw, w, [n, k]);
  }

  lemma RowBroadcastIsReduction(m: Pos, n: Pos, p: nat)
    requires p < Size([m, n])
    ensures Broadcastable([n], [m, n]) && ReduceIndex([m, n], 0)(p) == BroadcastIndex([n], [m, n], p) < n
  {
    Size2(m, n);
    var dims: Dims := [m, n];
    var c := Unflatten(p, dims);
    UnflattenInBounds(p, dims);
    assert Without(dims, 0) == [n];
    assert Without(c, 0) == [c[1]];
    assert BroadcastSrcCoord([n], dims, c) == [c[1]];
  }

  lemma SpreadTermAt(g: seq<real>, b: seq<real>, spread: seq<real>, phi: nat -> nat, p: nat)
    requires |g| == |spread| && p < |g| && spread[p] == Elem(b, phi(p))
    ensures DotTerm(g, spread)(p) == GatherTerm(phi, ElemsOf(g), ElemsOf(b))(p)
  {
  }

  /** Reading b along phi and adding along phi pair equally. */
  lemma SpreadIsAdjoint(g: seq<real>, b: seq<real>, spread: seq<real>, db: seq<real>, phi: nat -> nat)
    requires |g| == |spread| && |db| == |b|
    requires forall p: nat :: p < |g| ==> phi(p) < |b| && spread[p] == Elem(b, phi(p))
    requires forall q: nat :: q < |db| ==> db[q] == Scatter(|g|, phi, ElemsOf(g), q)
    ensures Dot(g, spread) == Dot(db, b)
  {
    ScatteredDot(|g|, phi, ElemsOf(g), db, b);
    forall p: nat | p < |g| ensures DotTerm(g, spread)(p) == GatherTerm(phi, ElemsOf(g), ElemsOf(b))(p) {
      SpreadTermAt(g, b, spread, phi, p);
    }
    SumExt(|g|, DotTerm(g, spread), GatherTerm(phi, ElemsOf(g), ElemsOf(b)));
  }

  /** <G, broadcast b> == <sum of the rows of G, b>. */
  lemma BiasGradientIsAdjoint(g: seq<real>, b: seq<real>, spread: seq<real>, db: seq<real>, m: Pos, n: Pos)
    requires |g| == |spread| == Size([m, n]) && |b| == |db| == n
    requires forall p: nat :: p < |g| ==> spread[p] == BiasAt(Some(b), [n], [m, n], p)
    requires forall q: nat :: q < |db| ==> db[q] == Scatter(Size([m, n]), ReduceIndex([m, n], 0), ElemsOf(g), q)
    ensures Dot(g, spread) == Dot(db, b)
  {
    var phi := ReduceIndex([m, n], 0);
    forall p: nat | p < |g| ensures phi(p) < n && spread[p] == Elem(b, phi(p)) {
      RowBroadcastIsReduction(m, n, p);
    }
    SpreadIsAdjoint(g, b, spread, db, phi);
  }

  /** Without activation, what the backward kernel leaves in its three buffers are the
      gradients of the forward kernel: paired with any output gradient, the output splits into
      a part linear in the input (or, equally, in the projection) and a part linear in the
      bias, and the buffers are the coefficients. */
  lemma LinearGradients(
      g: seq<real>, x: seq<real>, w: seq<real>, b: Option<seq<real>>, product: seq<real>, out: seq<real>,
      dx: seq<real>, dw: seq<real>, db: seq<real>, m: Pos, n: Pos, k: Pos)
    requires LinearShapes(g, x, w, product, m, n, k)
    requires |dx| == Size([m, k]) && |dw| == Size([n, k]) && |db| == n && (b.Some? ==> |b.value| == n)
    requires IsLinearOutput(out, [m, n], product, b, [n], None)
    requires Agree(m, k, View2(dx, [m, k]), MatMul(n, View2(g, [m, n]), View2(w, [n, k])))
    requires Agree(n, k, View2(dw, [n, k]), MatMul(m, Transposed(View2(g, [m, n])), View2(x, [m, k])))
    requires forall q: nat :: q < |db| ==> db[q] == Scatter(Size([m, n]), ReduceIndex([m, n], 0), ElemsOf(g), q)
    ensures Dot(g, out) == Dot(dx, x) + if b.Some? then Dot(db, b.value) else 0.0
    ensures Dot(g, out) == Dot(dw, w) + if b.Some? then Dot(db, b.value) else 0.0
  {
    InputGradientIsAdjoint(g, x, w, product, dx, m, n, k);
    ProjectionGradientIsAdjoint(g, x, w, product, dw, m, n, k);
    var spread := seq(|out|, p requires 0 <= p < |out| => BiasAt(b, [n], [m, n], p));
    DotAdd(g, product, spread, out);
    if b.Some? {
      BiasGradientIsAdjoint(g, b.value, spread, db, m, n);
    } else {
      SumZero(|g|, DotTerm(g, spread));
    }
  }

  function Unit(n: nat, k: nat): (u: seq<real>)
    ensures |u| == n
  {
    seq(n, p requires 0 <= p < n => if p == k then 1.0 else 0.0)
  }

  /** Pairing with every buffer determines a gradient: there is only one. */
  lemma GradientIsUnique(d: seq<real>, e: seq<real>)
    requires |d| == |e| && forall x: seq<real> :: |x| == |d| ==> Dot(d, x) == Dot(e, x)
    ensures d == e
  {
    forall k | 0 <= k < |d| ensures d[k] == e[k] {
      var u := Unit(|d|, k);
      assert Dot(d, u) == Dot(e, u);
      SumSingle(|d|, DotTerm(d, u), k);
      SumSingle(|e|, DotTerm(e, u), k);
    }
  }

  // --------------------------------------------------------------- batch matmul

  method BatchMatmulForward(lhs: Tensor<real>, rhs: Tensor<real>, output: Tensor<real>)
    requires lhs.Sized() && rhs.Sized() && output.Sized()
    requires |lhs.dims| == 3 && |rhs.dims| == 3 && lhs.dims[0] == rhs.dims[0] && lhs.dims[2] == rhs.dims[1]
    requires output.dims == [lhs.dims[0], lhs.dims[1], rhs.dims[2]]
    modifies output.ptr
    ensures IsBatchProduct(output.ptr[..], output.dims, old(lhs.ptr[..]), lhs.dims, old(rhs.ptr[..]), rhs.dims)
  {
    BatchMatmulTo(lhs, rhs, output);
  }

  method BatchMatmulBackward(
      outputGrad: Tensor<real>, lhs: Tensor<real>, lhsGrad: Tensor<real>, rhs: Tensor<real>, rhsGrad: Tensor<real>)
    requires outputGrad.Sized() && lhs.Sized() && lhsGrad.Sized() && rhs.Sized() && rhsGrad.Sized()
    requires |lhs.dims| == 3 && |rhs.dims| == 3 && lhs.dims[0] == rhs.dims[0] && lhs.dims[2] == rhs.dims[1]
    requires outputGrad.dims == [lhs.dims[0], lhs.dims[1], rhs.dims[2]]
    requires lhsGrad.dims == lhs.dims && rhsGrad.dims == rhs.dims
    requires lhsGrad.ptr != lhs.ptr && lhsGrad.ptr != outputGrad.ptr && lhsGrad.ptr != rhsGrad.ptr
    modifies lhsGrad.ptr, rhsGrad.ptr
    ensures IsLhsGradient(lhsGrad.ptr[..], old(outputGrad.ptr[..]), old(rhs.ptr[..]), lhs.dims, rhs.dims)
    ensures IsRhsGradient(rhsGrad.ptr[..], old(outputGrad.ptr[..]), old(lhs.ptr[..]), lhs.dims, rhs.dims)
  {
    ghost var g, l, r := outputGrad.ptr[..], lhs.ptr[..], rhs.ptr[..];
    var rhsT := BatchTranspose(rhs);
    ghost var rt := rhsT.ptr[..];
    assert lhs.dims == BatchMatmulShape(outputGrad.dims, rhsT.dims);
    BatchMatmulTo(outputGrad, rhsT, lhsGrad);
    LhsGradientFromProduct(lhsGrad.ptr[..], g, r, rt, lhs.dims, rhs.dims);
    var lhsT := BatchTranspose(lhs);
    ghost var lt := lhsT.ptr[..];
    assert rhs.dims == BatchMatmulShape(lhsT.dims, outputGrad.dims);
    BatchMatmulTo(lhsT, outputGrad, rhsGrad);
    RhsGradientFromProduct(rhsGrad.ptr[..], g, l, lt, lhs.dims, rhs.dims);
  }

  ghost predicate BatchShapes(lDims: Dims, rDims: Dims) {
    |lDims| == 3 && |rDims| == 3 && lDims[0] == rDims[0] && lDims[2] == rDims[1]
  }

  /** In every batch entry, the gradient is the output gradient times the transposed rhs. */
  ghost predicate IsLhsGradient(d: seq<real>, g: seq<real>, r: seq<real>, lDims: Dims, rDims: Dims) {
    && BatchShapes(lDims, rDims)
    && var gDims := [lDims[0], lDims[1], rDims[2]];
      forall b: nat :: b < lDims[0] ==>
        Agree(lDims[1], lDims[2], View3(d, lDims, b),
          MatMul(rDims[2], View3(g, gDims, b), Transposed(View3(r, rDims, b))))
  }

  /** In every batch entry, the gradient is the transposed lhs times the output gradient. */
  ghost predicate IsRhsGradient(d: seq<real>, g: seq<real>, l: seq<real>, lDims: Dims, rDims: Dims) {
    && BatchShapes(lDims, rDims)
    && var gDims := [lDims[0], lDims[1], rDims[2]];
      forall b: nat :: b < lDims[0] ==>
        Agree(rDims[1], rDims[2], View3(d, rDims, b),
          MatMul(lDims[1], Transposed(View3(l, lDims, b)), View3(g, gDims, b)))
  }

  lemma LhsGradientFromProduct(d: seq<real>, g: seq<real>, r: seq<real>, rt: seq<real>, lDims: Dims, rDims: Dims)
    requires BatchShapes(lDims, rDims)
    requires IsBatchProduct(d, lDims, g, [lDims[0], lDims[1], rDims[2]], rt, [rDims[0], rDims[2], rDims[1]])
    requires Rearranged(r, rDims, rt, [rDims[0], rDims[2], rDims[1]], SwapLast())
    ensures IsLhsGradient(d, g, r, lDims, rDims)
  {
    var gDims, tDims := [lDims[0], lDims[1], rDims[2]], [rDims[0], rDims[2], rDims[1]];
    forall b: nat | b < lDims[0]
      ensures Agree(lDims[1], lDims[2], View3(d, lDims, b),
        MatMul(rDims[2], View3(g, gDims, b), Transposed(View3(r, rDims, b))))
    {
      BatchTransposedView(r, rDims, rt, tDims, b);
      var G := View3(g, gDims, b);
      MatMulExt(lDims[1], lDims[2], rDims[2], G, View3(rt, tDims, b), G, Transposed(View3(r, rDims, b)));
      assert Agree(lDims[1], lDims[2], View3(d, lDims, b), BatchProduct(g, gDims, rt, tDims, b));
    }
  }

  lemma RhsGradientFromProduct(d: seq<real>, g: seq<real>, l: seq<real>, lt: seq<real>, lDims: Dims, rDims: Dims)
    requires BatchShapes(lDims, rDims)
    requires IsBatchProduct(d, rDims, lt, [lDims[0], lDims[2], lDims[1]], g, [lDims[0], lDims[1], rDims[2]])
    requires Rearranged(l, lDims, lt, [lDims[0], lDims[2], lDims[1]], SwapLast())
    ensures IsRhsGradient(d, g, l, lDims, rDims)
  {
    var gDims, tDims := [lDims[0], lDims[1], rDims[2]], [lDims[0], lDims[2], lDims[1]];
    forall b: nat | b < lDims[0]
      ensures Agree(rDims[1], rDims[2], View3(d, rDims, b),
        MatMul(lDims[1], Transposed(View3(l, lDims, b)), View3(g, gDims, b)))
    {
      BatchTransposedView(l, lDims, lt, tDims, b);
      var G := View3(g, gDims, b);
      MatMulExt(rDims[1], rDims[2], lDims[1], View3(lt, tDims, b), G, Transposed(View3(l, lDims, b)), G);
      assert Agree(rDims[1], rDims[2], View3(d, rDims, b), BatchProduct(lt, tDims, g, gDims, b));
    }
  }

  /** Summed over all batch entries, the backward kernel's two buffers pair with the two
      inputs exactly as the output gradient pairs with the forward kernel's output. */
  lemma BatchMatmulGradients(
      g: seq<real>, l: seq<real>, r: seq<real>, out: seq<real>, dl: seq<real>, dr: seq<real>, lDims: Dims, rDims: Dims)
    requires BatchShapes(lDims, rDims) && |l| == |dl| == Size(lDims) && |r| == |dr| == Size(rDims)
    requires |g| == |out| == Size([lDims[0], lDims[1], rDims[2]])
    requires IsBatchProduct(out, [lDims[0], lDims[1], rDims[2]], l, lDims, r, rDims)
    requires IsLhsGradient(dl, g, r, lDims, rDims) && IsRhsGradient(dr, g, l, lDims, rDims)
    ensures Dot(g, out) == Dot(dl, l) == Dot(dr, r)
  {
    var gDims: Dims := [lDims[0], lDims[1], rDims[2]];
    DotIsBatchInner(g, out, gDims);
    DotIsBatchInner(dl, l, lDims);
    DotIsBatchInner(dr, r, rDims);
    forall b: nat | b < lDims[0]
      ensures BatchTerm(g, out, gDims)(b) == BatchTerm(dl, l, lDims)(b) == BatchTerm(dr, r, rDims)(b)
    {
      BatchEntryGradients(g, l, r, out, dl, dr, lDims, rDims, b);
    }
    SumExt(lDims[0], BatchTerm(g, out, gDims), BatchTerm(dl, l, lDims));
    SumExt(lDims[0], BatchTerm(g, out, gDims), BatchTerm(dr, r, rDims));
  }

  lemma BatchEntryGradients(
      g: seq<real>, l: seq<real>, r: seq<real>, out: seq<real>, dl: seq<real>, dr: seq<real>, lDims: Dims, rDims: Dims,
      b: nat)
    requires BatchShapes(lDims, rDims) && b < lDims[0]
    requires IsBatchProduct(out, [lDims[0], lDims[1], rDims[2]], l, lDims, r, rDims)
    requires IsLhsGradient(dl, g, r, lDims, rDims) && IsRhsGradient(dr, g, l, lDims, rDims)
    ensures var gDims := [lDims[0], lDims[1], rDims[2]];
      BatchTerm(g, out, gDims)(b) == BatchTerm(dl, l, lDims)(b) == BatchTerm(dr, r, rDims)(b)
  {
    var gDims: Dims := [lDims[0], lDims[1], rDims[2]];
    var m, k, n := lDims[1], lDims[2], rDims[2];
    var G, L, R := View3(g, gDims, b), View3(l, lDims, b), View3(r, rDims, b);
    assert Agree(m, n, View3(out, gDims, b), BatchProduct(l, lDims, r, rDims, b));
    InnerExt(m, n, G, View3(out, gDims, b), G, MatMul(k, L, R));
    MatMulLeftAdjoint(m, n, k, G, L, R);
    InnerExt(m, k, MatMul(n, G, Transposed(R)), L, View3(dl, lDims, b), L);
    MatMulRightAdjoint(m, n, k, G, L, R);
    InnerExt(k, n, MatMul(m, Transposed(L), G), R, View3(dr, rDims, b), R);
  }
}
