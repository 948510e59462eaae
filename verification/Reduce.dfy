/** Reduction of a tensor, of any rank, in any set of its dimensions. */
module Reduce {
  import opened Sequences
  import opened Options
  import opened TensorIndex
  import opened Accessors
  import opened Folds

  // -------------------------------------------------------------- dropping dimensions

  /** A mask says of every dimension whether it is dropped. */
  function Kept(mask: seq<bool>): nat {
    if mask == [] then 0 else (if mask[0] then 0 else 1) + Kept(mask[1..])
  }

  function Drop<T>(s: seq<T>, mask: seq<bool>): (r: seq<T>)
    requires |s| == |mask|
    ensures |r| == Kept(mask)
  {
    if s == [] then [] else (if mask[0] then [] else [s[0]]) + Drop(s[1..], mask[1..])
  }

  /** Extending by one dimension, which is the last that remains unless it is dropped. */
  lemma {:induction false} DropAppend<T>(s: seq<T>, mask: seq<bool>, x: T, dropped: bool)
    requires |s| == |mask|
    ensures s == [] ==> Drop(s, mask) == []
    ensures Drop(s + [x], mask + [dropped]) == Drop(s, mask) + if dropped then [] else [x]
  {
    var all, masks := s + [x], mask + [dropped];
    if s == [] {
      assert all[1..] == [] && masks[1..] == [];
    } else {
      DropAppend(s[1..], mask[1..], x, dropped);
      assert all[1..] == s[1..] + [x] && masks[1..] == mask[1..] + [dropped];
    }
  }

  lemma {:induction false} DropInBounds(c: Coord, dims: Dims, mask: seq<bool>)
    requires InBounds(c, dims) && |dims| == |mask|
    ensures InBounds(Drop(c, mask), Drop(dims, mask))
  {
    if c != [] { DropInBounds(c[1..], dims[1..], mask[1..]); }
  }

  /** A coordinate with the given remaining components, and zeros in the dropped ones. */
  function Lift(c: Coord, mask: seq<bool>): (r: Coord)
    requires |c| == Kept(mask)
    ensures |r| == |mask|
  {
    if mask == [] then []
    else if mask[0] then [0] + Lift(c, mask[1..])
    else [c[0]] + Lift(c[1..], mask[1..])
  }

  lemma {:induction false} DropOfLift(c: Coord, mask: seq<bool>)
    requires |c| == Kept(mask)
    ensures Drop(Lift(c, mask), mask) == c
  {
    if mask != [] {
      var rest := if mask[0] then c else c[1..];
      DropOfLift(rest, mask[1..]);
      assert Lift(c, mask)[1..] == Lift(rest, mask[1..]);
    }
  }

  lemma {:induction false} LiftInBounds(c: Coord, dims: Dims, mask: seq<bool>)
    requires |dims| == |mask| && InBounds(c, Drop(dims, mask))
    ensures InBounds(Lift(c, mask), dims)
  {
    if mask != [] {
      var d := Drop(dims, mask);
      if mask[0] {
        assert d == Drop(dims[1..], mask[1..]);
        LiftInBounds(c, dims[1..], mask[1..]);
      } else {
        assert d[0] == dims[0] && d[1..] == Drop(dims[1..], mask[1..]);
        LiftInBounds(c[1..], dims[1..], mask[1..]);
      }
    }
  }

  /** The output cell to which input cell p belongs. */
  function DropIndex(dims: Dims, mask: seq<bool>): nat -> nat
    requires |dims| == |mask|
  {
    (p: nat) => Offset(Drop(Unflatten(p, dims), mask), Drop(dims, mask))
  }

  lemma DropIndexOfLift(dims: Dims, mask: seq<bool>, q: nat)
    requires |dims| == |mask| && q < Size(Drop(dims, mask))
    ensures exists p: nat :: p < Size(dims) && DropIndex(dims, mask)(p) == q
  {
    var out := Unflatten(q, Drop(dims, mask));
    UnflattenInBounds(q, Drop(dims, mask));
    OffsetOfUnflatten(q, Drop(dims, mask));
    DropOfLift(out, mask);
    LiftInBounds(out, dims, mask);
    var p := Offset(Lift(out, mask), dims);
    OffsetBound(Lift(out, mask), dims);
    UnflattenOfOffset(Lift(out, mask), dims);
    assert DropIndex(dims, mask)(p) == q;
  }

  lemma DropIndexBound(dims: Dims, mask: seq<bool>, p: nat)
    requires |dims| == |mask| && p < Size(dims)
    ensures DropIndex(dims, mask)(p) < Size(Drop(dims, mask))
  {
    UnflattenInBounds(p, dims);
    DropInBounds(Unflatten(p, dims), dims, mask);
    OffsetBound(Drop(Unflatten(p, dims), mask), Drop(dims, mask));
  }

  /** Every input cell belongs to an output cell, and every output cell has input cells. */
  lemma FibresCover(dims: Dims, mask: seq<bool>)
    requires |dims| == |mask|
    ensures Covers(Size(dims), DropIndex(dims, mask), Size(Drop(dims, mask)))
  {
    var n, phi, m := Size(dims), DropIndex(dims, mask), Size(Drop(dims, mask));
    forall p: nat | p < n ensures phi(p) < m {
      DropIndexBound(dims, mask, p);
    }
    forall q: nat | q < m ensures Fibre(n, phi, q) != [] {
      DropIndexOfLift(dims, mask, q);
      var p: nat :| p < n && phi(p) == q;
      assert p in Fibre(n, phi, q);
    }
  }

  // ----------------------------------------------------------------- the kernel

  function Cells<T>(s: seq<T>): nat -> T
    requires s != []
  {
    (p: nat) => if p < |s| then s[p] else s[0]
  }

  /** The input cells of group q, in order. There is at least one. */
  ghost function Values<T>(s: seq<T>, dims: Dims, mask: seq<bool>, q: nat): (r: seq<T>)
    requires |dims| == |mask| && |s| == Size(dims)
    ensures q < Size(Drop(dims, mask)) ==> r != []
  {
    FibresCover(dims, mask);
    Map(Cells(s), Fibre(Size(dims), DropIndex(dims, mask), q))
  }

  /** A cell belongs to the group of the coordinate that its own one drops to. */
  lemma GroupOfCell(dims: Dims, mask: seq<bool>, c: Coord)
    requires |dims| == |mask| && InBounds(c, dims)
    ensures Offset(c, dims) < Size(dims)
    ensures DropIndex(dims, mask)(Offset(c, dims)) == Offset(Drop(c, mask), Drop(dims, mask))
  {
    OffsetBound(c, dims);
    UnflattenOfOffset(c, dims);
  }

  /** A group lists its cells in the order of the buffer. */
  lemma GroupLists<T>(s: seq<T>, dims: Dims, mask: seq<bool>, q: nat)
    requires |dims| == |mask| && |s| == Size(dims) && q < Size(Drop(dims, mask))
    ensures var fibre := Fibre(Size(dims), DropIndex(dims, mask), q);
      && |Values(s, dims, mask, q)| == |fibre|
      && forall k :: 0 <= k < |fibre| ==> fibre[k] < |s| && Values(s, dims, mask, q)[k] == s[fibre[k]]
  {
    var fibre := Fibre(Size(dims), DropIndex(dims, mask), q);
    forall k | 0 <= k < |fibre| ensures fibre[k] < |s| && Values(s, dims, mask, q)[k] == s[fibre[k]] {
      assert fibre[k] in fibre;
    }
  }

  lemma SameCell(dims: Dims, mask: seq<bool>, p: nat, q: nat)
    requires |dims| == |mask| && p < Size(dims) && q < Size(Drop(dims, mask))
    ensures Drop(Unflatten(p, dims), mask) == Unflatten(q, Drop(dims, mask)) <==> DropIndex(dims, mask)(p) == q
  {
    UnflattenInBounds(p, dims);
    DropInBounds(Unflatten(p, dims), dims, mask);
    UnflattenOfOffset(Drop(Unflatten(p, dims), mask), Drop(dims, mask));
    OffsetOfUnflatten(q, Drop(dims, mask));
  }

  method ReadCell<T>(input: Tensor<T>, mask: seq<bool>, coord: Coord, outputCoord: Coord, ghost p: nat, ghost q: nat)
    returns (belongs: bool, v: T)
    requires input.Sized() && input.device == CPU && |input.dims| == |mask|
    requires q < Size(Drop(input.dims, mask)) && outputCoord == Unflatten(q, Drop(input.dims, mask))
    requires p < Size(input.dims) && coord == Unflatten(p, input.dims)
    ensures v == input.ptr[p] && (belongs <==> DropIndex(input.dims, mask)(p) == q)
  {
    SameCell(input.dims, mask, p, q);
    UnflattenInBounds(p, input.dims);
    OffsetOfUnflatten(p, input.dims);
    belongs := Drop(coord, mask) == outputCoord;
    v := At(input, coord);
  }

  lemma MapFibreNext<T>(v: nat -> T, p: nat, phi: nat -> nat, q: nat)
    ensures Map(v, Fibre(p + 1, phi, q)) == Map(v, Fibre(p, phi, q)) + if phi(p) == q then [v(p)] else []
  {
  }

  /** The values of one group of input coordinates, in sorted order. */
  method GroupValues<T>(input: Tensor<T>, mask: seq<bool>, outputCoord: Coord, ghost q: nat) returns (values: seq<T>)
    requires input.Sized() && input.device == CPU && |input.dims| == |mask|
    requires q < Size(Drop(input.dims, mask)) && outputCoord == Unflatten(q, Drop(input.dims, mask))
    ensures values == Values(input.ptr[..], input.dims, mask, q)
  {
    var coords := CoordSeq(input.dims);
    ghost var phi, x := DropIndex(input.dims, mask), Cells(input.ptr[..]);
    values := [];
    for p := 0 to |coords|
      invariant values == Map(x, Fibre(p, phi, q))
    {
      var belongs, v := ReadCell(input, mask, coords[p], outputCoord, p, q);
      MapFibreNext(x, p, phi, q);
      if belongs {
        values := values + [v];
      }
    }
  }

  /** The kernel's own check: both folds of a group agree. */
  ghost predicate FoldsAgreeAt<T(!new)>(f: (T, T) -> T, s: seq<T>, dims: Dims, mask: seq<bool>, q: nat)
    requires |dims| == |mask| && |s| == Size(dims) && q < Size(Drop(dims, mask))
  {
    Foldl1(f, Values(s, dims, mask, q)) == Foldr1(f, Values(s, dims, mask, q))
  }

  /** Every output cell is the fold of its group. */
  ghost predicate IsReduction<T(!new)>(f: (T, T) -> T, s: seq<T>, dims: Dims, mask: seq<bool>, out: seq<T>) {
    && |dims| == |mask| && |s| == Size(dims) && |out| == Size(Drop(dims, mask))
    && forall q: nat :: q < |out| ==> out[q] == Foldl1(f, Values(s, dims, mask, q))
  }

  method ReduceGroup<T(==,!new)>(input: Tensor<T>, mask: seq<bool>, f: (T, T) -> T, outputCoord: Coord, ghost q: nat)
    returns (result: T, agree: bool)
    requires input.Sized() && input.device == CPU && |input.dims| == |mask|
    requires q < Size(Drop(input.dims, mask)) && outputCoord == Unflatten(q, Drop(input.dims, mask))
    ensures result == Foldl1(f, Values(input.ptr[..], input.dims, mask, q))
    ensures agree <==> FoldsAgreeAt(f, input.ptr[..], input.dims, mask, q)
  {
    var values := GroupValues(input, mask, outputCoord, q);
    result := FoldLeft(f, values);
    var fromRight := FoldRight(f, values);
    agree := result == fromRight;
  }

  ghost predicate AllAgree<T(!new)>(f: (T, T) -> T, s: seq<T>, dims: Dims, mask: seq<bool>)
    requires |dims| == |mask| && |s| == Size(dims)
  {
    forall q: nat :: q < Size(Drop(dims, mask)) ==> FoldsAgreeAt(f, s, dims, mask, q)
  }

  /** The first q output cells are done. */
  ghost predicate ReducedUpTo<T(!new)>(f: (T, T) -> T, s: seq<T>, dims: Dims, mask: seq<bool>, out: seq<T>, q: nat)
    requires |dims| == |mask| && |s| == Size(dims)
  {
    && q <= |out| == Size(Drop(dims, mask))
    && forall k: nat :: k < q ==> FoldsAgreeAt(f, s, dims, mask, k) && out[k] == Foldl1(f, Values(s, dims, mask, k))
  }

  method ReduceCell<T(==,!new)>(
      input: Tensor<T>, mask: seq<bool>, f: (T, T) -> T, output: Tensor<T>, outputCoord: Coord, ghost q: nat)
    returns (agree: bool)
    requires input.Sized() && input.device == CPU && |input.dims| == |mask| && input.ptr != output.ptr
    requires output.Sized() && output.device == CPU && output.dims == Drop(input.dims, mask)
    requires q < Size(output.dims) && outputCoord == Unflatten(q, output.dims)
    requires ReducedUpTo(f, input.ptr[..], input.dims, mask, output.ptr[..], q)
    modifies output.ptr
    ensures agree <==> FoldsAgreeAt(f, input.ptr[..], input.dims, mask, q)
    ensures agree ==> ReducedUpTo(f, input.ptr[..], input.dims, mask, output.ptr[..], q + 1)
  {
    var result;
    result, agree := ReduceGroup(input, mask, f, outputCoord, q);
    UnflattenInBounds(q, output.dims);
    OffsetOfUnflatten(q, output.dims);
    SetAt(output, outputCoord, result);
  }

  /** The result is missing exactly when the kernel's check fails for some group. */
  method ReduceInDims<T(0,==,!new)>(input: Tensor<T>, mask: seq<bool>, f: (T, T) -> T) returns (r: Option<Tensor<T>>)
    requires input.Sized() && |input.dims| == |mask|
    ensures r.Some? <==> AllAgree(f, input.ptr[..], input.dims, mask)
    ensures r.Some? <==> forall q: nat :: q < Size(Drop(input.dims, mask)) ==>
      Foldl1(f, Values(input.ptr[..], input.dims, mask, q)) == Foldr1(f, Values(input.ptr[..], input.dims, mask, q))
    ensures r.Some? ==>
      && r.value.Sized() && r.value.dims == Drop(input.dims, mask) && r.value.device == CPU && fresh(r.value.ptr)
      && IsReduction(f, input.ptr[..], input.dims, mask, r.value.ptr[..])
  {
    var inputCpu := CopyToCpuIfNecessary(input);
    var output := AllocateTensor<T>(Drop(input.dims, mask), CPU);
    ghost var s := input.ptr[..];
    var coords := CoordSeq(output.dims);
    for q := 0 to |coords|
      invariant inputCpu.ptr[..] == s && input.ptr[..] == s
      invariant ReducedUpTo(f, s, input.dims, mask, output.ptr[..], q)
    {
      var agree := ReduceCell(inputCpu, mask, f, output, coords[q], q);
      if !agree {
        CheckFails(f, s, input.dims, mask, q);
        return None;
      }
    }
    CheckHolds(f, s, input.dims, mask);
    r := Some(output);
  }

  lemma CheckFails<T(!new)>(f: (T, T) -> T, s: seq<T>, dims: Dims, mask: seq<bool>, q: nat)
    requires |dims| == |mask| && |s| == Size(dims) && q < Size(Drop(dims, mask)) && !FoldsAgreeAt(f, s, dims, mask, q)
    ensures !AllAgree(f, s, dims, mask)
    ensures exists k: nat ::
      k < Size(Drop(dims, mask)) && Foldl1(f, Values(s, dims, mask, k)) != Foldr1(f, Values(s, dims, mask, k))
  {
    assert Foldl1(f, Values(s, dims, mask, q)) != Foldr1(f, Values(s, dims, mask, q));
  }

  lemma CheckHolds<T(!new)>(f: (T, T) -> T, s: seq<T>, dims: Dims, mask: seq<bool>)
    requires |dims| == |mask| && |s| == Size(dims) && AllAgree(f, s, dims, mask)
    ensures forall k: nat :: k < Size(Drop(dims, mask)) ==>
      Foldl1(f, Values(s, dims, mask, k)) == Foldr1(f, Values(s, dims, mask, k))
  {
    forall k: nat | k < Size(Drop(dims, mask))
      ensures Foldl1(f, Values(s, dims, mask, k)) == Foldr1(f, Values(s, dims, mask, k))
    {
      assert FoldsAgreeAt(f, s, dims, mask, k);
    }
  }

  /** For an associative operation, the kernel's check never fails. */
  lemma AssociativeReducesAlways<T(!new)>(f: (T, T) -> T, s: seq<T>, dims: Dims, mask: seq<bool>)
    requires Associative(f) && |dims| == |mask| && |s| == Size(dims)
    ensures AllAgree(f, s, dims, mask)
  {
    forall q: nat | q < Size(Drop(dims, mask)) ensures FoldsAgreeAt(f, s, dims, mask, q) {
      FoldsAgree(f, Values(s, dims, mask, q));
    }
  }

  // ----------------------------------------------------------- reducing in two steps

  /** The mask that drops what m drops, and of the dimensions m keeps those that m2 drops. */
  function Compose(m: seq<bool>, m2: seq<bool>): (r: seq<bool>)
    requires |m2| == Kept(m)
    ensures |r| == |m|
  {
    if m == [] then []
    else if m[0] then [true] + Compose(m[1..], m2)
    else [m2[0]] + Compose(m[1..], m2[1..])
  }

  lemma {:induction false} DropTwice<T>(s: seq<T>, m: seq<bool>, m2: seq<bool>)
    requires |s| == |m| && |m2| == Kept(m)
    ensures Drop(Drop(s, m), m2) == Drop(s, Compose(m, m2))
  {
    if s != [] {
      var c := Compose(m, m2);
      if m[0] {
        assert Drop(s, m) == Drop(s[1..], m[1..]);
        assert c[1..] == Compose(m[1..], m2);
        DropTwice(s[1..], m[1..], m2);
      } else {
        assert Drop(s, m)[1..] == Drop(s[1..], m[1..]) && Drop(s, m)[0] == s[0];
        assert c[1..] == Compose(m[1..], m2[1..]);
        DropTwice(s[1..], m[1..], m2[1..]);
      }
    }
  }

  /** Dropping A, and then what B drops of the rest, is dropping the union. */
  lemma {:induction false} ComposeIsUnion(a: seq<bool>, b: seq<bool>)
    requires |a| == |b|
    ensures forall k :: 0 <= k < |a| ==> Compose(a, Drop(b, a))[k] == (a[k] || b[k])
  {
    if a != [] {
      ComposeIsUnion(a[1..], b[1..]);
      var r, rest := Compose(a, Drop(b, a)), Compose(a[1..], Drop(b[1..], a[1..]));
      assert r[1..] == rest by {
        assert !a[0] ==> Drop(b, a)[1..] == Drop(b[1..], a[1..]);
        assert a[0] ==> Drop(b, a) == Drop(b[1..], a[1..]);
      }
      forall k | 0 <= k < |a| ensures r[k] == (a[k] || b[k]) {
        if k > 0 {
          assert r[k] == rest[k - 1] && rest[k - 1] == (a[1..][k - 1] || b[1..][k - 1]);
        }
      }
    }
  }

  lemma IndexComposes(dims: Dims, m: seq<bool>, m2: seq<bool>, p: nat)
    requires |dims| == |m| && |m2| == Kept(m) && p < Size(dims)
    ensures DropIndex(Drop(dims, m), m2)(DropIndex(dims, m)(p)) == DropIndex(dims, Compose(m, m2))(p)
  {
    var c := Unflatten(p, dims);
    UnflattenInBounds(p, dims);
    DropInBounds(c, dims, m);
    UnflattenOfOffset(Drop(c, m), Drop(dims, m));
    DropTwice(c, m, m2);
    DropTwice(dims, m, m2);
  }

  lemma {:induction false} SameFibre(n: nat, phi: nat -> nat, psi: nat -> nat, q: nat)
    requires forall p: nat :: p < n ==> phi(p) == psi(p)
    ensures Fibre(n, phi, q) == Fibre(n, psi, q)
  {
    if n > 0 { SameFibre(n - 1, phi, psi, q); }
  }

  /** For an associative and commutative operation, reducing in some dimensions and then in some
      of the remaining ones gives exactly what reducing in all of them at once gives. */
  lemma ReduceInTwoSteps<T(!new)>(
      f: (T, T) -> T, s: seq<T>, dims: Dims, m: seq<bool>, m2: seq<bool>, mid: seq<T>, out: seq<T>)
    requires Associative(f) && Commutative(f) && |m2| == Kept(m)
    requires IsReduction(f, s, dims, m, mid) && IsReduction(f, mid, Drop(dims, m), m2, out)
    ensures IsReduction(f, s, dims, Compose(m, m2), out)
  {
    DropTwice(dims, m, m2);
    forall q: nat | q < |out| ensures out[q] == Foldl1(f, Values(s, dims, Compose(m, m2), q)) {
      CellInTwoSteps(f, s, dims, m, m2, mid, out, q);
    }
  }

  lemma CellInTwoSteps<T(!new)>(
      f: (T, T) -> T, s: seq<T>, dims: Dims, m: seq<bool>, m2: seq<bool>, mid: seq<T>, out: seq<T>, q: nat)
    requires Associative(f) && Commutative(f) && |m2| == Kept(m) && q < |out|
    requires IsReduction(f, s, dims, m, mid) && IsReduction(f, mid, Drop(dims, m), m2, out)
    ensures q < Size(Drop(dims, Compose(m, m2))) && out[q] == Foldl1(f, Values(s, dims, Compose(m, m2), q))
  {
    DropTwice(dims, m, m2);
    FibresCover(Drop(dims, m), m2);
    FibresCover(dims, Compose(m, m2));
    MidCells(f, s, dims, m, mid);
    IndexesCompose(dims, m, m2);
    FibresCover(dims, m);
    FoldBoth(f, Size(dims), |mid|, DropIndex(dims, m), DropIndex(Drop(dims, m), m2), DropIndex(dims, Compose(m, m2)),
      Cells(s), Cells(mid), q);
  }

  lemma MidCells<T(!new)>(f: (T, T) -> T, s: seq<T>, dims: Dims, m: seq<bool>, mid: seq<T>)
    requires IsReduction(f, s, dims, m, mid)
    ensures mid != []
    ensures forall r: nat :: r < |mid| ==>
      Fibre(Size(dims), DropIndex(dims, m), r) != [] &&
        Cells(mid)(r) == Along(f, Size(dims), DropIndex(dims, m), Cells(s), r)
  {
    FibresCover(dims, m);
    forall r: nat | r < |mid| ensures Cells(mid)(r) == Along(f, Size(dims), DropIndex(dims, m), Cells(s), r) {
      assert mid[r] == Foldl1(f, Values(s, dims, m, r));
    }
  }

  lemma IndexesCompose(dims: Dims, m: seq<bool>, m2: seq<bool>)
    requires |dims| == |m| && |m2| == Kept(m)
    ensures forall p: nat :: p < Size(dims) ==>
      Then(DropIndex(dims, m), DropIndex(Drop(dims, m), m2))(p) == DropIndex(dims, Compose(m, m2))(p)
  {
    forall p: nat | p < Size(dims)
      ensures Then(DropIndex(dims, m), DropIndex(Drop(dims, m), m2))(p) == DropIndex(dims, Compose(m, m2))(p)
    {
      IndexComposes(dims, m, m2, p);
    }
  }

  lemma FoldBoth<T(!new)>(
      f: (T, T) -> T, n: nat, k: nat, phi: nat -> nat, psi: nat -> nat, both: nat -> nat, v: nat -> T, w: nat -> T,
      q: nat)
    requires Associative(f) && Commutative(f) && Covers(n, phi, k)
    requires forall p: nat :: p < n ==> Then(phi, psi)(p) == both(p)
    requires forall r: nat :: r < k ==> Fibre(n, phi, r) != [] && w(r) == Along(f, n, phi, v, r)
    requires Fibre(k, psi, q) != []
    ensures Fibre(n, both, q) != [] && Along(f, k, psi, w, q) == Along(f, n, both, v, q)
  {
    SameFibre(n, Then(phi, psi), both, q);
    FoldInTwoSteps(f, n, k, phi, psi, v, w, q);
  }

  // ------------------------------------------------------- reducing in all dimensions

  function AllTrue(n: nat): (m: seq<bool>)
    ensures |m| == n && forall k :: 0 <= k < n ==> m[k]
  {
    seq(n, k => true)
  }

  lemma {:induction false} DropAll<T>(s: seq<T>, mask: seq<bool>)
    requires |s| == |mask| && forall k :: 0 <= k < |mask| ==> mask[k]
    ensures Drop(s, mask) == []
  {
    if s != [] { DropAll(s[1..], mask[1..]); }
  }

  lemma {:induction false} WholeFibre(n: nat, phi: nat -> nat)
    requires forall p: nat :: p < n ==> phi(p) == 0
    ensures |Fibre(n, phi, 0)| == n && forall i :: 0 <= i < n ==> Fibre(n, phi, 0)[i] == i
  {
    if n > 0 { WholeFibre(n - 1, phi); }
  }

  lemma AllInOneGroup<T>(s: seq<T>, dims: Dims, mask: seq<bool>)
    requires |dims| == |mask| && |s| == Size(dims) && forall k :: 0 <= k < |mask| ==> mask[k]
    ensures Drop(dims, mask) == [] && Values(s, dims, mask, 0) == s
  {
    DropAll(dims, mask);
    forall p: nat | p < Size(dims) ensures DropIndex(dims, mask)(p) == 0 {
      DropIndexBound(dims, mask, p);
    }
    WholeFibre(Size(dims), DropIndex(dims, mask));
  }

  lemma AgreeInOneGroup<T(!new)>(f: (T, T) -> T, s: seq<T>, dims: Dims, mask: seq<bool>)
    requires |dims| == |mask| && |s| == Size(dims) && forall k :: 0 <= k < |mask| ==> mask[k]
    ensures s != [] && (AllAgree(f, s, dims, mask) <==> Foldl1(f, s) == Foldr1(f, s))
  {
    AllInOneGroup(s, dims, mask);
    assert FoldsAgreeAt(f, s, dims, mask, 0) <==> Foldl1(f, s) == Foldr1(f, s);
    assert Size([]) == 1;
  }

  method ReduceInAllDims<T(0,==,!new)>(input: Tensor<T>, f: (T, T) -> T) returns (r: Option<T>)
    requires input.Sized()
    ensures input.ptr[..] != []
    ensures r.Some? <==> Foldl1(f, input.ptr[..]) == Foldr1(f, input.ptr[..])
    ensures r.Some? ==> r.value == Foldl1(f, input.ptr[..])
  {
    var mask := AllTrue(|input.dims|);
    AllInOneGroup(input.ptr[..], input.dims, mask);
    AgreeInOneGroup(f, input.ptr[..], input.dims, mask);
    var reduced := ReduceInDims(input, mask, f);
    if reduced.None? {
      return None;
    }
    var v := At(reduced.value, []);
    r := Some(v);
  }

  function And(): (bool, bool) -> bool {
    (l: bool, r: bool) => l && r
  }

  function Or(): (bool, bool) -> bool {
    (l: bool, r: bool) => l || r
  }

  lemma {:induction false} FoldOfAnd(s: seq<bool>)
    requires s != []
    ensures Foldl1(And(), s) == Foldr1(And(), s) == (forall k :: 0 <= k < |s| ==> s[k])
  {
    forall x, y, z ensures AssociatesAt(And(), x, y, z) {}
    FoldsAgree(And(), s);
    if |s| > 1 { FoldOfAnd(s[..|s| - 1]); }
  }

  lemma {:induction false} FoldOfOr(s: seq<bool>)
    requires s != []
    ensures Foldl1(Or(), s) == Foldr1(Or(), s) == (exists k :: 0 <= k < |s| && s[k])
  {
    forall x, y, z ensures AssociatesAt(Or(), x, y, z) {}
    FoldsAgree(Or(), s);
    if |s| > 1 { FoldOfOr(s[..|s| - 1]); }
  }

  method TensorAccessorAll(t: Tensor<bool>) returns (r: bool)
    requires t.Sized()
    ensures r <==> forall k :: 0 <= k < t.ptr.Length ==> t.ptr[k]
  {
    var folded := ReduceInAllDims(t, And());
    FoldOfAnd(t.ptr[..]);
    r := folded.value;
  }

  method TensorAccessorAny(t: Tensor<bool>) returns (r: bool)
    requires t.Sized()
    ensures r <==> exists k :: 0 <= k < t.ptr.Length && t.ptr[k]
  {
    var folded := ReduceInAllDims(t, Or());
    FoldOfOr(t.ptr[..]);
    r := folded.value;
  }
}
