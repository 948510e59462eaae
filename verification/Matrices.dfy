/** Matrices as functions of a row and a column, their product, and the adjointness of
    multiplication in each of its two arguments. */
module Matrices {
  import opened Sums
  import opened TensorIndex

  type Matrix = (nat, nat) -> real

  /** The matrix whose entry (i, j) is element ix(i, j) of a buffer. */
  function View(s: seq<real>, ix: (nat, nat) -> nat): Matrix {
    (i: nat, j: nat) => Elem(s, ix(i, j))
  }

  function Index2(dims: Dims): (nat, nat) -> nat
    requires |dims| == 2
  {
    (i: nat, j: nat) => Offset([i, j], dims)
  }

  function Index3(dims: Dims, n: nat): (nat, nat) -> nat
    requires |dims| == 3
  {
    (i: nat, j: nat) => Offset([n, i, j], dims)
  }

  /** The matrix held by a buffer of the given two-dimensional shape. */
  function View2(s: seq<real>, dims: Dims): Matrix
    requires |dims| == 2
  {
    View(s, Index2(dims))
  }

  /** Matrix n of a buffer holding a batch of them. */
  function View3(s: seq<real>, dims: Dims, n: nat): Matrix
    requires |dims| == 3
  {
    View(s, Index3(dims, n))
  }

  lemma ViewAt(s: seq<real>, ix: (nat, nat) -> nat, i: nat, j: nat)
    ensures View(s, ix)(i, j) == Elem(s, ix(i, j))
  {
  }

  lemma Index2At(dims: Dims, i: nat, j: nat)
    requires |dims| == 2
    ensures Index2(dims)(i, j) == Offset([i, j], dims)
  {
  }

  lemma Index3At(dims: Dims, n: nat, i: nat, j: nat)
    requires |dims| == 3
    ensures Index3(dims, n)(i, j) == Offset([n, i, j], dims)
  {
  }

  lemma EntryOfView2(s: seq<real>, dims: Dims, i: nat, j: nat)
    requires |dims| == 2 && Offset([i, j], dims) < |s|
    ensures View2(s, dims)(i, j) == s[Offset([i, j], dims)]
  {
    Index2At(dims, i, j);
    ViewAt(s, Index2(dims), i, j);
  }

  lemma EntryOfView3(s: seq<real>, dims: Dims, n: nat, i: nat, j: nat)
    requires |dims| == 3 && Offset([n, i, j], dims) < |s|
    ensures View3(s, dims, n)(i, j) == s[Offset([n, i, j], dims)]
  {
    Index3At(dims, n, i, j);
    ViewAt(s, Index3(dims, n), i, j);
  }

  function Transposed(a: Matrix): Matrix {
    (i: nat, j: nat) => a(j, i)
  }

  function ProductTerm(a: Matrix, b: Matrix, i: nat, j: nat): nat -> real {
    (q: nat) => a(i, q) * b(q, j)
  }

  lemma ProductTermAt(a: Matrix, b: Matrix, i: nat, j: nat, q: nat)
    ensures ProductTerm(a, b, i, j)(q) == a(i, q) * b(q, j)
  {
  }

  function MatMul(k: nat, a: Matrix, b: Matrix): Matrix {
    (i: nat, j: nat) => Sum(k, ProductTerm(a, b, i, j))
  }

  /** An entry of the product is the row times the column, summed up term by term. */
  lemma MatMulEntry(k: nat, a: Matrix, b: Matrix, i: nat, j: nat)
    ensures MatMul(0, a, b)(i, j) == 0.0
    ensures MatMul(k + 1, a, b)(i, j) == MatMul(k, a, b)(i, j) + a(i, k) * b(k, j)
  {
    SumNext(k, ProductTerm(a, b, i, j), a(i, k) * b(k, j));
  }

  function Times(a: Matrix, b: Matrix): Matrix {
    (i: nat, j: nat) => a(i, j) * b(i, j)
  }

  /** The inner product of two m by n matrices. */
  function Inner(m: nat, n: nat, a: Matrix, b: Matrix): real {
    Sum(m, RowSum(n, Times(a, b)))
  }

  ghost predicate Agree(m: nat, n: nat, a: Matrix, b: Matrix) {
    forall i: nat, j: nat :: i < m && j < n ==> a(i, j) == b(i, j)
  }

  lemma RowSumExt(m: nat, n: nat, F: Matrix, G: Matrix)
    requires Agree(m, n, F, G)
    ensures Sum(m, RowSum(n, F)) == Sum(m, RowSum(n, G))
  {
    forall i: nat | i < m ensures RowSum(n, F)(i) == RowSum(n, G)(i) {
      SumExt(n, Row(F, i), Row(G, i));
    }
    SumExt(m, RowSum(n, F), RowSum(n, G));
  }

  lemma InnerExt(m: nat, n: nat, a: Matrix, b: Matrix, c: Matrix, d: Matrix)
    requires Agree(m, n, a, c) && Agree(m, n, b, d)
    ensures Inner(m, n, a, b) == Inner(m, n, c, d)
  {
    RowSumExt(m, n, Times(a, b), Times(c, d));
  }

  lemma InnerTransposed(m: nat, n: nat, a: Matrix, b: Matrix)
    ensures Inner(m, n, a, b) == Inner(n, m, Transposed(a), Transposed(b))
  {
    SumSwap(m, n, Times(a, b));
    forall j: nat | j < n ensures ColSum(m, Times(a, b))(j) == RowSum(m, Times(Transposed(a), Transposed(b)))(j) {
      SumExt(m, Col(Times(a, b), j), Row(Times(Transposed(a), Transposed(b)), j));
    }
    SumExt(n, ColSum(m, Times(a, b)), RowSum(m, Times(Transposed(a), Transposed(b))));
  }

  lemma MatMulExt(m: nat, n: nat, k: nat, a: Matrix, b: Matrix, c: Matrix, d: Matrix)
    requires Agree(m, k, a, c) && Agree(k, n, b, d)
    ensures Agree(m, n, MatMul(k, a, b), MatMul(k, c, d))
  {
    forall i: nat, j: nat | i < m && j < n ensures MatMul(k, a, b)(i, j) == MatMul(k, c, d)(i, j) {
      SumExt(k, ProductTerm(a, b, i, j), ProductTerm(c, d, i, j));
    }
  }

  /** The summands of <G, L R> that involve row i: entry (j, q). */
  function RowTerms(g: Matrix, l: Matrix, r: Matrix, i: nat): Matrix {
    (j: nat, q: nat) => g(i, j) * (l(i, q) * r(q, j))
  }

  lemma RowByColumns(n: nat, k: nat, g: Matrix, l: Matrix, r: Matrix, i: nat)
    ensures RowSum(n, Times(g, MatMul(k, l, r)))(i) == Sum(n, RowSum(k, RowTerms(g, l, r, i)))
  {
    var T := RowTerms(g, l, r, i);
    forall j: nat | j < n ensures Row(Times(g, MatMul(k, l, r)), i)(j) == RowSum(k, T)(j) {
      forall q: nat | q < k ensures Row(T, j)(q) == g(i, j) * ProductTerm(l, r, i, j)(q) {
        assert T(j, q) == g(i, j) * (l(i, q) * r(q, j));
      }
      SumScale(k, g(i, j), ProductTerm(l, r, i, j), Row(T, j));
    }
    SumExt(n, Row(Times(g, MatMul(k, l, r)), i), RowSum(k, T));
  }

  lemma RowByInner(n: nat, k: nat, g: Matrix, l: Matrix, r: Matrix, i: nat)
    ensures RowSum(k, Times(MatMul(n, g, Transposed(r)), l))(i) == Sum(k, ColSum(n, RowTerms(g, l, r, i)))
  {
    var T := RowTerms(g, l, r, i);
    var R := Times(MatMul(n, g, Transposed(r)), l);
    forall q: nat | q < k ensures Row(R, i)(q) == ColSum(n, T)(q) {
      var p := ProductTerm(g, Transposed(r), i, q);
      forall j: nat | j < n ensures Col(T, q)(j) == l(i, q) * p(j) {
        assert T(j, q) == g(i, j) * (l(i, q) * r(q, j));
        assert p(j) == g(i, j) * r(q, j);
        Rearrange(g(i, j), l(i, q), r(q, j));
      }
      SumScale(n, l(i, q), p, Col(T, q));
    }
    SumExt(k, Row(R, i), ColSum(n, T));
  }

  lemma Rearrange(x: real, y: real, z: real)
    ensures x * (y * z) == y * (x * z)
  {
  }

  /** <G, L R> = <G Rt, L>: the gradient of a product in its left factor. */
  lemma MatMulLeftAdjoint(m: nat, n: nat, k: nat, g: Matrix, l: Matrix, r: Matrix)
    ensures Inner(m, n, g, MatMul(k, l, r)) == Inner(m, k, MatMul(n, g, Transposed(r)), l)
  {
    forall i: nat | i < m
      ensures RowSum(n, Times(g, MatMul(k, l, r)))(i) == RowSum(k, Times(MatMul(n, g, Transposed(r)), l))(i)
    {
      RowByColumns(n, k, g, l, r, i);
      RowByInner(n, k, g, l, r, i);
      SumSwap(n, k, RowTerms(g, l, r, i));
    }
    SumExt(m, RowSum(n, Times(g, MatMul(k, l, r))), RowSum(k, Times(MatMul(n, g, Transposed(r)), l)));
  }

  lemma TransposedProduct(m: nat, n: nat, k: nat, a: Matrix, b: Matrix)
    ensures Agree(m, n, Transposed(MatMul(k, b, a)), MatMul(k, Transposed(a), Transposed(b)))
  {
    forall i: nat, j: nat | i < m && j < n
      ensures Transposed(MatMul(k, b, a))(i, j) == MatMul(k, Transposed(a), Transposed(b))(i, j)
    {
      SumExt(k, ProductTerm(b, a, j, i), ProductTerm(Transposed(a), Transposed(b), i, j));
    }
  }

  /** <G, L R> = <Lt G, R>: the gradient of a product in its right factor. */
  lemma MatMulRightAdjoint(m: nat, n: nat, k: nat, g: Matrix, l: Matrix, r: Matrix)
    ensures Inner(m, n, g, MatMul(k, l, r)) == Inner(k, n, MatMul(m, Transposed(l), g), r)
  {
    var gt, lt, rt := Transposed(g), Transposed(l), Transposed(r);
    InnerTransposed(m, n, g, MatMul(k, l, r));
    TransposedProduct(n, m, k, r, l);
    InnerExt(n, m, gt, Transposed(MatMul(k, l, r)), gt, MatMul(k, rt, lt));
    MatMulLeftAdjoint(n, m, k, gt, rt, lt);
    InnerTransposed(n, k, MatMul(m, gt, Transposed(lt)), rt);
    var D := Transposed(MatMul(m, gt, Transposed(lt)));
    forall q: nat, j: nat | q < k && j < n ensures D(q, j) == MatMul(m, lt, g)(q, j) {
      SumExt(m, ProductTerm(gt, Transposed(lt), j, q), ProductTerm(lt, g, q, j));
    }
    InnerExt(k, n, D, Transposed(rt), MatMul(m, lt, g), r);
  }

  // ----------------------------------------------------- inner products of buffers

  function DotTerm(a: seq<real>, b: seq<real>): nat -> real {
    (p: nat) => Elem(a, p) * Elem(b, p)
  }

  /** The inner product of two buffers, cell by cell. */
  function Dot(a: seq<real>, b: seq<real>): real {
    Sum(|a|, DotTerm(a, b))
  }

  lemma DotNext(a: seq<real>, b: seq<real>, x: real, y: real)
    requires |a| == |b|
    ensures Dot([], []) == 0.0 && Dot(a + [x], b + [y]) == Dot(a, b) + x * y
  {
    var f, g := DotTerm(a, b), DotTerm(a + [x], b + [y]);
    forall k: nat | k < |a| ensures f(k) == g(k) {
      assert Elem(a + [x], k) == Elem(a, k) && Elem(b + [y], k) == Elem(b, k);
    }
    SumExt(|a|, f, g);
    SumNext(|a|, g, x * y);
  }

  lemma CellAt(n: nat, f: nat -> real, i: nat, j: nat, p: nat)
    requires p == i * n + j
    ensures Cell(n, f)(i, j) == f(p)
  {
  }

  lemma TimesAt(a: seq<real>, b: seq<real>, ix: (nat, nat) -> nat, i: nat, j: nat)
    ensures Times(View(a, ix), View(b, ix))(i, j) == DotTerm(a, b)(ix(i, j))
  {
  }

  /** A sum over the cells of a matrix stored row by row is its inner product. */
  lemma RowMajorInner(m: nat, n: nat, f: nat -> real, a: seq<real>, b: seq<real>, ix: (nat, nat) -> nat)
    requires forall i: nat, j: nat :: i < m && j < n ==> Cell(n, f)(i, j) == DotTerm(a, b)(ix(i, j))
    ensures m * n >= 0 && Sum(m * n, f) == Inner(m, n, View(a, ix), View(b, ix))
  {
    SumFlatten(m, n, f);
    var F, T := Cell(n, f), Times(View(a, ix), View(b, ix));
    forall i: nat, j: nat | i < m && j < n ensures F(i, j) == T(i, j) {
      TimesAt(a, b, ix, i, j);
    }
    RowSumExt(m, n, F, T);
  }

  lemma DotIsInner(a: seq<real>, b: seq<real>, dims: Dims)
    requires |dims| == 2 && |a| == |b| == Size(dims)
    ensures Dot(a, b) == Inner(dims[0], dims[1], View2(a, dims), View2(b, dims))
  {
    var m, n, f := dims[0], dims[1], DotTerm(a, b);
    assert dims == [m, n];
    Size2(m, n);
    forall i: nat, j: nat | i < m && j < n ensures Cell(n, f)(i, j) == f(Index2(dims)(i, j)) {
      Offset2(i, j, m, n);
      CellAt(n, f, i, j, Index2(dims)(i, j));
    }
    RowMajorInner(m, n, f, a, b, Index2(dims));
  }

  /** The inner products of the matrices of two batches, one summand per batch entry. */
  function BatchTerm(a: seq<real>, b: seq<real>, dims: Dims): nat -> real
    requires |dims| == 3
  {
    (n: nat) => Inner(dims[1], dims[2], View3(a, dims, n), View3(b, dims, n))
  }

  lemma DotIsBatchInner(a: seq<real>, b: seq<real>, dims: Dims)
    requires |dims| == 3 && |a| == |b| == Size(dims)
    ensures Dot(a, b) == Sum(dims[0], BatchTerm(a, b, dims))
  {
    var n, r, c := dims[0], dims[1], dims[2];
    assert dims == [n, r, c];
    Size3(n, r, c);
    var f := DotTerm(a, b);
    var size := r * c;
    SumFlatten(n, size, f);
    forall e: nat | e < n ensures RowSum(size, Cell(size, f))(e) == BatchTerm(a, b, dims)(e) {
      BatchEntry(f, a, b, dims, e, size);
    }
    SumExt(n, RowSum(size, Cell(size, f)), BatchTerm(a, b, dims));
  }

  lemma EntryAt(f: nat -> real, dims: Dims, e: nat, size: nat, i: nat, j: nat)
    requires |dims| == 3 && size == dims[1] * dims[2]
    ensures Cell(dims[2], Row(Cell(size, f), e))(i, j) == f(Offset([e, i, j], dims))
  {
    var p := i * dims[2] + j;
    assert p >= 0;
    CellAt(dims[2], Row(Cell(size, f), e), i, j, p);
    assert dims == [dims[0], dims[1], dims[2]];
    Offset3(e, i, j, dims[0], dims[1], dims[2]);
    CellAt(size, f, e, p, Offset([e, i, j], dims));
  }

  lemma BatchEntry(f: nat -> real, a: seq<real>, b: seq<real>, dims: Dims, e: nat, size: nat)
    requires |dims| == 3 && e < dims[0] && size == dims[1] * dims[2] && f == DotTerm(a, b)
    ensures Sum(size, Row(Cell(size, f), e)) == Inner(dims[1], dims[2], View3(a, dims, e), View3(b, dims, e))
  {
    var row := Row(Cell(size, f), e);
    forall i: nat, j: nat | i < dims[1] && j < dims[2] ensures Cell(dims[2], row)(i, j) == f(Index3(dims, e)(i, j)) {
      EntryAt(f, dims, e, size, i, j);
    }
    RowMajorInner(dims[1], dims[2], row, a, b, Index3(dims, e));
  }
}
