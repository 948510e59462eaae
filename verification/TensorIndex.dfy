/** Row-major addressing of tensors of any rank: the offset loop, and the proof that it is a
    one-to-one correspondence between in-bounds coordinates and buffer cells. */
module TensorIndex {
  import opened Options

  type Pos = x: int | x > 0 witness 1
  type Dims = seq<Pos>
  type Coord = seq<nat>

  /** n times m, as repeated addition: unfolding an offset then stays linear. */
  function Copies(n: nat, m: nat): nat {
    if n == 0 then 0 else Copies(n - 1, m) + m
  }

  lemma {:induction false} CopiesIsProduct(n: nat, m: nat)
    ensures Copies(n, m) == n * m
  {
    if n > 0 {
      CopiesIsProduct(n - 1, m);
      assert n * m == (n - 1) * m + m;
    }
  }

  /** The number of elements. */
  function Size(dims: Dims): (n: nat)
    ensures n > 0
  {
    if dims == [] then 1 else CopiesIsProduct(dims[0], Size(dims[1..])); Copies(dims[0], Size(dims[1..]))
  }

  lemma SizeIsProduct(dims: Dims)
    requires dims != []
    ensures Size(dims) == Copies(dims[0], Size(dims[1..])) == dims[0] * Size(dims[1..])
  {
    CopiesIsProduct(dims[0], Size(dims[1..]));
  }

  predicate InBounds(c: Coord, dims: Dims) {
    |c| == |dims| && forall k :: 0 <= k < |c| ==> c[k] < dims[k]
  }

  /** The row-major position of a coordinate. */
  function Offset(c: Coord, dims: Dims): nat
    requires |c| == |dims|
  {
    if dims == [] then 0 else Copies(c[0], Size(dims[1..])) + Offset(c[1..], dims[1..])
  }

  /** The coordinate at a row-major position. */
  function Unflatten(p: nat, dims: Dims): (c: Coord)
    ensures |c| == |dims|
  {
    if dims == [] then [] else
      var rest := Size(dims[1..]);
      [p / rest] + Unflatten(p % rest, dims[1..])
  }

  lemma DivModOf(q: nat, r: nat, d: nat)
    requires r < d
    ensures (q * d + r) / d == q && (q * d + r) % d == r
  {
    var n := q * d + r;
    assert n == (n / d) * d + n % d;
    var k := n / d;
    assert k > q ==> k * d >= (q + 1) * d;
    assert k < q ==> k * d <= (q - 1) * d;
  }

  lemma DivModBack(p: nat, d: nat)
    requires d > 0
    ensures p == (p / d) * d + p % d && p % d < d
  {
  }

  lemma MulBound(q: nat, r: nat, d: nat, n: nat)
    requires r < d && q < n
    ensures q * d + r < n * d
  {
    assert (q + 1) * d <= n * d;
  }

  lemma ProductsAssociate(a: nat, b: nat, c: nat)
    ensures a * (b * c) == a * b * c
  {
  }

  lemma SmallerFactor(a: nat, b: nat, d: Pos)
    requires a * d < b * d
    ensures a < b
  {
  }

  lemma QuotientBound(p: nat, d: nat, n: nat)
    requires d > 0 && p < n * d
    ensures p / d < n
  {
    var k := p / d;
    assert k >= n ==> k * d >= n * d;
  }

  /** No dimension of the one exceeds the other's. */
  predicate Within(dims: Dims, bounds: Dims) {
    |dims| == |bounds| && forall k :: 0 <= k < |dims| ==> dims[k] <= bounds[k]
  }

  lemma {:induction false} OffsetBound(c: Coord, dims: Dims)
    requires InBounds(c, dims)
    ensures Offset(c, dims) < Size(dims)
  {
    if dims != [] {
      OffsetBound(c[1..], dims[1..]);
      SizeIsProduct(dims);
      CopiesIsProduct(c[0], Size(dims[1..]));
      MulBound(c[0], Offset(c[1..], dims[1..]), Size(dims[1..]), dims[0]);
    }
  }

  lemma {:induction false} UnflattenInBounds(p: nat, dims: Dims)
    requires p < Size(dims)
    ensures InBounds(Unflatten(p, dims), dims)
    decreases |dims|
  {
    if dims != [] {
      var rest := Size(dims[1..]);
      SizeIsProduct(dims);
      QuotientBound(p, rest, dims[0]);
      UnflattenInBounds(p % rest, dims[1..]);
    }
  }

  lemma {:induction false} OffsetOfUnflatten(p: nat, dims: Dims)
    requires p < Size(dims)
    ensures Offset(Unflatten(p, dims), dims) == p
  {
    if dims != [] {
      var rest := Size(dims[1..]);
      var q, r := p / rest, p % rest;
      DivModBack(p, rest);
      CopiesIsProduct(q, rest);
      OffsetOfUnflatten(r, dims[1..]);
      var c := Unflatten(p, dims);
      assert c[0] == q && c[1..] == Unflatten(r, dims[1..]);
      assert Offset(c, dims) == q * rest + r;
    }
  }

  lemma {:induction false} UnflattenOfOffset(c: Coord, dims: Dims)
    requires InBounds(c, dims)
    ensures Unflatten(Offset(c, dims), dims) == c
  {
    if dims != [] {
      var rest, inner := Size(dims[1..]), Offset(c[1..], dims[1..]);
      OffsetBound(c[1..], dims[1..]);
      UnflattenOfOffset(c[1..], dims[1..]);
      CopiesIsProduct(c[0], rest);
      DivModOf(c[0], inner, rest);
    }
  }

  /** Addressing is a bijection: in-bounds coordinates get distinct cells, every cell of the
      buffer is some coordinate's, and Unflatten is the inverse both ways. */
  lemma OffsetIsBijective(dims: Dims)
    ensures forall c :: InBounds(c, dims) ==> Offset(c, dims) < Size(dims) && Unflatten(Offset(c, dims), dims) == c
    ensures forall p: nat :: p < Size(dims) ==>
      InBounds(Unflatten(p, dims), dims) && Offset(Unflatten(p, dims), dims) == p
    ensures forall c, d :: InBounds(c, dims) && InBounds(d, dims) && Offset(c, dims) == Offset(d, dims) ==> c == d
  {
    forall c | InBounds(c, dims)
      ensures Offset(c, dims) < Size(dims) && Unflatten(Offset(c, dims), dims) == c
    {
      OffsetBound(c, dims);
      UnflattenOfOffset(c, dims);
    }
    forall p: nat | p < Size(dims)
      ensures InBounds(Unflatten(p, dims), dims) && Offset(Unflatten(p, dims), dims) == p
    {
      UnflattenInBounds(p, dims);
      OffsetOfUnflatten(p, dims);
    }
  }

  lemma OffsetInjective(c: Coord, d: Coord, dims: Dims)
    requires InBounds(c, dims) && InBounds(d, dims) && Offset(c, dims) == Offset(d, dims)
    ensures c == d
  {
    UnflattenOfOffset(c, dims);
    UnflattenOfOffset(d, dims);
  }

  /** The offset loop runs from the innermost dimension outwards. It fails exactly on
      coordinates that do not fit, and otherwise computes the row-major position; the running
      multiplier never exceeds the number of elements, nor does the running offset. */
  method CalculateAccessorOffset(coord: Coord, dims: Dims) returns (offset: Option<nat>)
    ensures offset.Some? <==> InBounds(coord, dims)
    ensures offset.Some? ==> offset.value == Offset(coord, dims) && offset.value < Size(dims)
  {
    if |coord| != |dims| {
      return None;
    }
    var sum: nat, multiplier: Pos := 0, 1;
    var k := |dims|;
    while k > 0
      invariant 0 <= k <= |dims|
      invariant multiplier == Size(dims[k..]) <= Size(dims)
      invariant InBounds(coord[k..], dims[k..])
      invariant sum == Offset(coord[k..], dims[k..]) < multiplier
    {
      k := k - 1;
      assert dims[k..][1..] == dims[k + 1..] && coord[k..][1..] == coord[k + 1..];
      if coord[k] >= dims[k] {
        return None;
      }
      MulBound(coord[k], sum, multiplier, dims[k]);
      SizeIsProduct(dims[k..]);
      CopiesIsProduct(coord[k], multiplier);
      SuffixSize(dims, k);
      assert coord[k] * multiplier >= 0;
      sum := sum + coord[k] * multiplier;
      multiplier := multiplier * dims[k];
    }
    assert dims[0..] == dims && coord[0..] == coord;
    offset := Some(sum);
  }

  lemma {:induction false} SuffixSize(dims: Dims, k: nat)
    requires k <= |dims|
    ensures Size(dims[k..]) <= Size(dims)
  {
    if k == 0 {
      assert dims[0..] == dims;
    } else {
      SuffixSize(dims[1..], k - 1);
      assert dims[1..][k - 1..] == dims[k..];
    }
  }

  // -------------------------------------------------- enumerating the coordinates

  /** All in-bounds coordinates in the order in which a sorted set of them is traversed. */
  function CoordSeq(dims: Dims): (s: seq<Coord>)
    ensures |s| == Size(dims) && forall p :: 0 <= p < |s| ==> s[p] == Unflatten(p, dims)
  {
    seq(Size(dims), p requires 0 <= p < Size(dims) => Unflatten(p, dims))
  }

  predicate LexLess(c: Coord, d: Coord) {
    if c == [] || d == [] then c == [] && d != []
    else c[0] < d[0] || (c[0] == d[0] && LexLess(c[1..], d[1..]))
  }

  /** Row-major order is lexicographic order. */
  lemma {:induction false} OffsetOrder(c: Coord, d: Coord, dims: Dims)
    requires InBounds(c, dims) && InBounds(d, dims)
    ensures LexLess(c, d) <==> Offset(c, dims) < Offset(d, dims)
  {
    if dims != [] {
      var rest := Size(dims[1..]);
      var x, y := Offset(c[1..], dims[1..]), Offset(d[1..], dims[1..]);
      OffsetBound(c[1..], dims[1..]);
      OffsetBound(d[1..], dims[1..]);
      OffsetOrder(c[1..], d[1..], dims[1..]);
      CopiesIsProduct(c[0], rest);
      CopiesIsProduct(d[0], rest);
      if c[0] < d[0] { MulBound(c[0], x, rest, d[0]); }
      if d[0] < c[0] { MulBound(d[0], y, rest, c[0]); }
    }
  }

  /** The traversal visits exactly the in-bounds coordinates, in strictly increasing order. */
  lemma CoordSeqIsSortedSet(dims: Dims)
    ensures forall c :: c in CoordSeq(dims) <==> InBounds(c, dims)
    ensures forall p, q :: 0 <= p < q < Size(dims) ==> LexLess(CoordSeq(dims)[p], CoordSeq(dims)[q])
  {
    OffsetIsBijective(dims);
    forall c | InBounds(c, dims) ensures c in CoordSeq(dims) {
      assert CoordSeq(dims)[Offset(c, dims)] == c;
    }
    forall p, q | 0 <= p < q < Size(dims) ensures LexLess(CoordSeq(dims)[p], CoordSeq(dims)[q]) {
      OffsetOrder(Unflatten(p, dims), Unflatten(q, dims), dims);
    }
  }

  // ------------------------------------------------------------- small ranks

  lemma Size2(r: Pos, c: Pos)
    ensures Size([r, c]) == r * c && Size([c]) == c
  {
    assert [r, c][1..] == [c] && [c][1..] == [];
    SizeIsProduct([r, c]);
    SizeIsProduct([c]);
  }

  lemma Offset2(i: nat, j: nat, r: Pos, c: Pos)
    ensures Offset([i, j], [r, c]) == i * c + j
  {
    Size2(r, c);
    assert [r, c][1..] == [c] && [c][1..] == [];
    assert [i, j][1..] == [j] && [j][1..] == [];
    CopiesIsProduct(i, c);
    CopiesIsProduct(j, 1);
    assert Offset([j], [c]) == Copies(j, Size([])) + Offset([], []);
  }

  lemma Size3(b: Pos, r: Pos, c: Pos)
    ensures Size([b, r, c]) == b * (r * c)
  {
    assert [b, r, c][1..] == [r, c];
    SizeIsProduct([b, r, c]);
    Size2(r, c);
  }

  lemma Offset3(n: nat, i: nat, j: nat, b: Pos, r: Pos, c: Pos)
    ensures Offset([n, i, j], [b, r, c]) == n * (r * c) + i * c + j
  {
    assert [b, r, c][1..] == [r, c] && [n, i, j][1..] == [i, j];
    Size2(r, c);
    CopiesIsProduct(n, r * c);
    Offset2(i, j, r, c);
  }
}
