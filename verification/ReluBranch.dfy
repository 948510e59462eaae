/** What the linear backward kernel leaves in its gradient buffers when it goes through its ReLU
    branch, against what it should leave. */
module ReluBranch {
  import opened Options
  import opened Sums
  import opened TensorIndex
  import opened Accessors
  import opened Matrices
  import opened TensorKernels
  import opened LinearKernels

  /** What an output gradient becomes on its way back through a ReLU with that output. */
  function ReluGradient(out: real, g: real): real {
    if out > 0.0 then g else 0.0
  }

  function ReluGradients(out: seq<real>, g: seq<real>): (r: seq<real>)
    requires |out| == |g|
    ensures |r| == |g| && forall p :: 0 <= p < |g| ==> r[p] == ReluGradient(out[p], g[p])
  {
    seq(|g|, p requires 0 <= p < |g| => ReluGradient(out[p], g[p]))
  }

  lemma PairAt(x: real, g: real)
    ensures g * Relu(x) == ReluGradient(Relu(x), g) * x
  {
  }

  /** That is the right gradient: it pairs with what goes into the ReLU as g does with what comes
      out of it. */
  lemma ReluGradientsPair(pre: seq<real>, out: seq<real>, g: seq<real>)
    requires |pre| == |out| == |g| && forall p :: 0 <= p < |g| ==> out[p] == Relu(pre[p])
    ensures Dot(g, out) == Dot(ReluGradients(out, g), pre)
  {
    var r := ReluGradients(out, g);
    forall p: nat | p < |g| ensures DotTerm(g, out)(p) == DotTerm(r, pre)(p) {
      PairAt(pre[p], g[p]);
    }
    SumExt(|g|, DotTerm(g, out), DotTerm(r, pre));
  }

  /** The cells on which the branch, which looks only at the sign of the output gradient, agrees:
      where the output gradient is zero, or one on an active cell, or negative on an inactive
      one. */
  predicate CellFits(out: real, g: real) {
    g == 0.0 || (out > 0.0 && g == 1.0) || (out <= 0.0 && g < 0.0)
  }

  lemma CellFitsExactly(out: real, g: real)
    ensures CellFits(out, g) <==> ReluBackward(g) == ReluGradient(out, g)
  {
  }

  /** The buffer of a matrix. */
  lemma BufferOf(P: Matrix, r: Pos, c: Pos) returns (s: seq<real>)
    ensures |s| == Size([r, c]) && Agree(r, c, View2(s, [r, c]), P)
  {
    var f := Entries2(P, [r, c]);
    s := seq(Size([r, c]), p requires 0 <= p < Size([r, c]) => f(p));
    FilledMatrix(s, [r, c], P);
  }

  /** Row q is one throughout, all others are zero. */
  function UnitRow(q: nat): Matrix {
    (i: nat, j: nat) => if i == q then 1.0 else 0.0
  }

  lemma UnitTerm(P: Matrix, W: Matrix, i: nat, q: nat, j: nat, r: nat)
    requires W(r, j) == UnitRow(q)(r, j)
    ensures ProductTerm(P, W, i, j)(r) == if r == q then P(i, q) else 0.0
  {
    ProductTermAt(P, W, i, j, r);
  }

  /** Multiplying with it picks column q. */
  lemma UnitRowPicks(P: Matrix, W: Matrix, n: nat, c: Pos, i: nat, q: nat)
    requires q < n && Agree(n, c, W, UnitRow(q))
    ensures MatMul(n, P, W)(i, 0) == P(i, q)
  {
    forall r: nat | r < n ensures ProductTerm(P, W, i, 0)(r) == if r == q then P(i, q) else 0.0 {
      UnitTerm(P, W, i, q, 0, r);
    }
    SumSingle(n, ProductTerm(P, W, i, 0), q);
  }

  /** Matrices that multiply alike with every buffer are equal. */
  lemma EqualProducts(P: Matrix, C: Matrix, W: Matrix, D: Matrix, m: nat, n: nat, c: Pos, i: nat, q: nat)
    requires i < m && q < n && Agree(n, c, W, UnitRow(q))
    requires Agree(m, c, D, MatMul(n, P, W)) && Agree(m, c, D, MatMul(n, C, W))
    ensures P(i, q) == C(i, q)
  {
    UnitRowPicks(P, W, n, c, i, q);
    UnitRowPicks(C, W, n, c, i, q);
  }

  lemma CellOfView(s: seq<real>, m: Pos, n: Pos, p: nat)
    requires |s| == Size([m, n]) && p < |s|
    ensures p / n < m && p % n < n && View2(s, [m, n])(p / n, p % n) == s[p]
  {
    Size2(m, n);
    QuotientBound(p, n, m);
    DivModBack(p, n);
    Offset2(p / n, p % n, m, n);
    EntryOfView2(s, [m, n], p / n, p % n);
  }

  /** The input gradients that the ReLU branch leaves are the right ones, for every projection,
      exactly when every cell fits. */
  lemma ReluInputGradientsExactly(out: seq<real>, g: seq<real>, m: Pos, n: Pos, k: Pos)
    requires |out| == |g| == Size([m, n])
    ensures (forall p :: 0 <= p < |g| ==> CellFits(out[p], g[p]))
      <==> forall w, dx ::
        (|w| == Size([n, k]) && IsInputGradient(dx, ProcessedGrad(Some(RELU), g), w, m, n, k))
        ==> IsInputGradient(dx, ReluGradients(out, g), w, m, n, k)
  {
    if forall p :: 0 <= p < |g| ==> CellFits(out[p], g[p]) {
      FittingCellsAgree(out, g);
    } else {
      var p: nat :| p < |g| && !CellFits(out[p], g[p]);
      var w, dx := WrongInputGradient(out, g, m, n, k, p);
    }
  }

  lemma FittingCellsAgree(out: seq<real>, g: seq<real>)
    requires |out| == |g| && forall p :: 0 <= p < |g| ==> CellFits(out[p], g[p])
    ensures ProcessedGrad(Some(RELU), g) == ReluGradients(out, g)
  {
    forall p | 0 <= p < |g| ensures ProcessedGrad(Some(RELU), g)[p] == ReluGradients(out, g)[p] {
      CellFitsExactly(out[p], g[p]);
    }
  }

  lemma WrongInputGradient(
      out: seq<real>, g: seq<real>, m: Pos, n: Pos, k: Pos, p: nat)
    returns (w: seq<real>, dx: seq<real>)
    requires |out| == |g| == Size([m, n]) && p < |g| && !CellFits(out[p], g[p])
    ensures |w| == Size([n, k]) && IsInputGradient(dx, ProcessedGrad(Some(RELU), g), w, m, n, k)
    ensures !IsInputGradient(dx, ReluGradients(out, g), w, m, n, k)
  {
    var processed, right := ProcessedGrad(Some(RELU), g), ReluGradients(out, g);
    var P, C := View2(processed, [m, n]), View2(right, [m, n]);
    CellOfView(processed, m, n, p);
    CellOfView(right, m, n, p);
    CellFitsExactly(out[p], g[p]);
    w := BufferOf(UnitRow(p % n), n, k);
    dx := BufferOf(MatMul(n, P, View2(w, [n, k])), m, k);
    if IsInputGradient(dx, right, w, m, n, k) {
      EqualProducts(P, C, View2(w, [n, k]), View2(dx, [m, k]), m, n, k, p / n, p % n);
    }
  }

  /** The same for the projection gradients and every input. */
  lemma ReluProjectionGradientsExactly(out: seq<real>, g: seq<real>, m: Pos, n: Pos, k: Pos)
    requires |out| == |g| == Size([m, n])
    ensures (forall p :: 0 <= p < |g| ==> CellFits(out[p], g[p]))
      <==> forall x, dw ::
        (|x| == Size([m, k]) && IsProjectionGradient(dw, ProcessedGrad(Some(RELU), g), x, m, n, k))
        ==> IsProjectionGradient(dw, ReluGradients(out, g), x, m, n, k)
  {
    if forall p :: 0 <= p < |g| ==> CellFits(out[p], g[p]) {
      FittingCellsAgree(out, g);
    } else {
      var p: nat :| p < |g| && !CellFits(out[p], g[p]);
      var x, dw := WrongProjectionGradient(out, g, m, n, k, p);
    }
  }

  lemma WrongProjectionGradient(
      out: seq<real>, g: seq<real>, m: Pos, n: Pos, k: Pos, p: nat)
    returns (x: seq<real>, dw: seq<real>)
    requires |out| == |g| == Size([m, n]) && p < |g| && !CellFits(out[p], g[p])
    ensures |x| == Size([m, k]) && IsProjectionGradient(dw, ProcessedGrad(Some(RELU), g), x, m, n, k)
    ensures !IsProjectionGradient(dw, ReluGradients(out, g), x, m, n, k)
  {
    var processed, right := ProcessedGrad(Some(RELU), g), ReluGradients(out, g);
    var P, C := Transposed(View2(processed, [m, n])), Transposed(View2(right, [m, n]));
    CellOfView(processed, m, n, p);
    CellOfView(right, m, n, p);
    CellFitsExactly(out[p], g[p]);
    x := BufferOf(UnitRow(p / n), m, k);
    dw := BufferOf(MatMul(m, P, View2(x, [m, k])), n, k);
    if IsProjectionGradient(dw, right, x, m, n, k) {
      EqualProducts(P, C, View2(x, [m, k]), View2(dw, [n, k]), n, m, k, p % n, p / n);
    }
  }

  lemma OneEntry(s: seq<real>)
    requires |s| == 1
    ensures View2(s, [1, 1])(0, 0) == s[0]
  {
    Size2(1, 1);
    CellOfView(s, 1, 1, 0);
  }

  lemma OneTermProduct(A: Matrix, B: Matrix, x: real, y: real)
    requires A(0, 0) == x && B(0, 0) == y
    ensures MatMul(1, A, B)(0, 0) == x * y
  {
    ProductTermAt(A, B, 0, 0, 0);
    SumNext(0, ProductTerm(A, B, 0, 0), x * y);
  }

  /** A batch of one value: the forward kernel turns 1 into 1, and for the output gradient 2 the
      backward kernel leaves 1 where 2 is the gradient. */
  method ReluBranchCounterexample() returns (out: real, left: real, right: real)
    ensures out == 1.0 && left == 1.0 && right == 2.0
  {
    out := ForwardOfOne();
    left := BackwardOfOne();
    right := ReluGradient(out, 2.0) * 1.0;
  }

  method ForwardOfOne() returns (out: real)
    ensures out == 1.0
  {
    var input := OneByOne(1.0);
    var projection := OneByOne(1.0);
    var output := OneByOne(0.0);
    ghost var x, w := input.ptr[..], projection.ptr[..];
    ghost var product := LinearForward(false, Some(RELU), input, output, projection, None);
    OneEntry(x);
    OneEntry(w);
    OneEntry(product);
    OneTermProduct(View2(x, [1, 1]), Transposed(View2(w, [1, 1])), 1.0, 1.0);
    out := output.ptr[0];
  }

  method BackwardOfOne() returns (left: real)
    ensures left == 1.0
  {
    var input := OneByOne(1.0);
    var projection := OneByOne(1.0);
    var outputGrad := OneByOne(2.0);
    var inputGrad := OneByOne(0.0);
    var projectionGrad := OneByOne(0.0);
    ghost var processed, w := ProcessedGrad(Some(RELU), outputGrad.ptr[..]), projection.ptr[..];
    LinearBackward(Some(RELU), outputGrad, input, inputGrad, projection, projectionGrad, None);
    OneEntry(processed);
    OneEntry(w);
    OneEntry(inputGrad.ptr[..]);
    OneTermProduct(View2(processed, [1, 1]), View2(w, [1, 1]), 1.0, 1.0);
    left := inputGrad.ptr[0];
  }

  method OneByOne(x: real) returns (t: Tensor<real>)
    ensures t.Sized() && t.dims == [1, 1] && t.device == CPU && fresh(t.ptr) && t.ptr[..] == [x]
  {
    var dims: Dims := [1, 1];
    Size2(1, 1);
    t := AllocateTensor<real>(dims, CPU);
    t.ptr[0] := x;
  }
}
