/** Finite sums of reals, with the exchange and regrouping laws that the adjointness proofs
    rest on. */
module Sums {

  function Sum(n: nat, f: nat -> real): real {
    if n == 0 then 0.0 else Sum(n - 1, f) + f(n - 1)
  }

  /** Element k of s, and zero outside s. */
  function Elem(s: seq<real>, k: int): real {
    if 0 <= k < |s| then s[k] else 0.0
  }

  lemma {:induction false} SumExt(n: nat, f: nat -> real, g: nat -> real)
    requires forall k :: 0 <= k < n ==> f(k) == g(k)
    ensures Sum(n, f) == Sum(n, g)
  {
    if n > 0 { SumExt(n - 1, f, g); }
  }

  lemma {:induction false} SumZero(n: nat, f: nat -> real)
    requires forall k :: 0 <= k < n ==> f(k) == 0.0
    ensures Sum(n, f) == 0.0
  {
    if n > 0 { SumZero(n - 1, f); }
  }

  lemma {:induction false} SumAdd(n: nat, f: nat -> real, g: nat -> real, h: nat -> real)
    requires forall k :: 0 <= k < n ==> h(k) == f(k) + g(k)
    ensures Sum(n, h) == Sum(n, f) + Sum(n, g)
  {
    if n > 0 { SumAdd(n - 1, f, g, h); }
  }

  lemma {:induction false} SumScale(n: nat, c: real, f: nat -> real, h: nat -> real)
    requires forall k :: 0 <= k < n ==> h(k) == c * f(k)
    ensures Sum(n, h) == c * Sum(n, f)
  {
    if n > 0 {
      SumScale(n - 1, c, f, h);
      assert c * (Sum(n - 1, f) + f(n - 1)) == c * Sum(n - 1, f) + c * f(n - 1);
    }
  }

  /** Only one summand differs. */
  lemma {:induction false} SumChange(n: nat, f: nat -> real, g: nat -> real, k: nat)
    requires k < n && forall j :: 0 <= j < n && j != k ==> f(j) == g(j)
    ensures Sum(n, g) == Sum(n, f) + g(k) - f(k)
  {
    if k == n - 1 { SumExt(n - 1, f, g); } else { SumChange(n - 1, f, g, k); }
  }

  lemma SumNext(n: nat, f: nat -> real, x: real)
    requires f(n) == x
    ensures Sum(n + 1, f) == Sum(n, f) + x
  {
  }

  function ScaledBy(c: real, f: nat -> real): nat -> real {
    (t: nat) => c * f(t)
  }

  function Power(x: real, n: nat): real {
    if n == 0 then 1.0 else x * Power(x, n - 1)
  }

  lemma SumSingle(n: nat, f: nat -> real, k: nat)
    requires k < n && forall j :: 0 <= j < n && j != k ==> f(j) == 0.0
    ensures Sum(n, f) == f(k)
  {
    SumZero(n, (j: nat) => 0.0);
    SumChange(n, (j: nat) => 0.0, f, k);
  }

  function Row(F: (nat, nat) -> real, i: nat): nat -> real {
    (j: nat) => F(i, j)
  }

  function Col(F: (nat, nat) -> real, j: nat): nat -> real {
    (i: nat) => F(i, j)
  }

  function RowSum(n: nat, F: (nat, nat) -> real): nat -> real {
    (i: nat) => Sum(n, Row(F, i))
  }

  function ColSum(m: nat, F: (nat, nat) -> real): nat -> real {
    (j: nat) => Sum(m, Col(F, j))
  }

  /** The order of a double sum does not matter. */
  lemma {:induction false} SumSwap(m: nat, n: nat, F: (nat, nat) -> real)
    ensures Sum(m, RowSum(n, F)) == Sum(n, ColSum(m, F))
  {
    if m == 0 {
      SumZero(n, ColSum(0, F));
    } else {
      SumSwap(m - 1, n, F);
      SumAdd(n, ColSum(m - 1, F), Row(F, m - 1), ColSum(m, F));
    }
  }

  function Shift(f: nat -> real, a: nat): nat -> real {
    (k: nat) => f(a + k)
  }

  lemma {:induction false} SumAppend(a: nat, b: nat, f: nat -> real)
    ensures Sum(a + b, f) == Sum(a, f) + Sum(b, Shift(f, a))
  {
    if b > 0 { SumAppend(a, b - 1, f); }
  }

  function Cell(n: nat, f: nat -> real): (nat, nat) -> real {
    (i: nat, j: nat) => f(i * n + j)
  }

  lemma LastRow(i: nat, n: nat, f: nat -> real, a: nat)
    requires a == i * n
    ensures Sum(a + n, f) == Sum(a, f) + RowSum(n, Cell(n, f))(i)
  {
    SumAppend(a, n, f);
    forall k: nat | k < n ensures Shift(f, a)(k) == Row(Cell(n, f), i)(k) {
      assert Cell(n, f)(i, k) == f(i * n + k);
    }
    SumExt(n, Shift(f, a), Row(Cell(n, f), i));
  }

  /** A sum over m * n cells, row by row. */
  lemma {:induction false} SumFlatten(m: nat, n: nat, f: nat -> real)
    ensures m * n >= 0 && Sum(m * n, f) == Sum(m, RowSum(n, Cell(n, f)))
  {
    if m > 0 {
      var a := (m - 1) * n;
      assert a >= 0 && m * n == a + n;
      SumFlatten(m - 1, n, f);
      LastRow(m - 1, n, f, a);
    }
  }

  // -------------------------------------------------------- scatter and gather

  function Hit(phi: nat -> nat, x: nat -> real, q: nat): nat -> real {
    (p: nat) => if phi(p) == q then x(p) else 0.0
  }

  /** What cell q receives when every p below n is added into cell phi(p). */
  function Scatter(n: nat, phi: nat -> nat, x: nat -> real, q: nat): real {
    Sum(n, Hit(phi, x, q))
  }

  function PairTerm(phi: nat -> nat, x: nat -> real, y: nat -> real): (nat, nat) -> real {
    (q: nat, p: nat) => if phi(p) == q then x(p) * y(q) else 0.0
  }

  function ScatterTerm(n: nat, phi: nat -> nat, x: nat -> real, y: nat -> real): nat -> real {
    (q: nat) => Scatter(n, phi, x, q) * y(q)
  }

  function GatherTerm(phi: nat -> nat, x: nat -> real, y: nat -> real): nat -> real {
    (p: nat) => x(p) * y(phi(p))
  }

  lemma ScatterTermIsRow(n: nat, phi: nat -> nat, x: nat -> real, y: nat -> real, q: nat)
    ensures ScatterTerm(n, phi, x, y)(q) == RowSum(n, PairTerm(phi, x, y))(q)
  {
    var F := PairTerm(phi, x, y);
    forall p: nat | p < n ensures Row(F, q)(p) == y(q) * Hit(phi, x, q)(p) {
      assert F(q, p) == if phi(p) == q then x(p) * y(q) else 0.0;
      if phi(p) != q { assert Hit(phi, x, q)(p) == 0.0 && y(q) * 0.0 == 0.0; }
    }
    SumScale(n, y(q), Hit(phi, x, q), Row(F, q));
  }

  lemma GatherTermIsColumn(m: nat, phi: nat -> nat, x: nat -> real, y: nat -> real, p: nat)
    requires phi(p) < m
    ensures GatherTerm(phi, x, y)(p) == ColSum(m, PairTerm(phi, x, y))(p)
  {
    var F := PairTerm(phi, x, y);
    forall q: nat | q < m && q != phi(p) ensures Col(F, p)(q) == 0.0 {
      assert F(q, p) == 0.0;
    }
    SumSingle(m, Col(F, p), phi(p));
    assert F(phi(p), p) == x(p) * y(phi(p));
  }

  /** Adding along phi is the adjoint of reading along phi, whether or not phi repeats cells:
      the two pair equally against every x and y. */
  lemma ScatterGatherAdjoint(n: nat, m: nat, phi: nat -> nat, x: nat -> real, y: nat -> real)
    requires forall p :: 0 <= p < n ==> phi(p) < m
    ensures Sum(m, ScatterTerm(n, phi, x, y)) == Sum(n, GatherTerm(phi, x, y))
  {
    var F := PairTerm(phi, x, y);
    forall q | 0 <= q < m ensures ScatterTerm(n, phi, x, y)(q) == RowSum(n, F)(q) {
      ScatterTermIsRow(n, phi, x, y, q);
    }
    SumExt(m, ScatterTerm(n, phi, x, y), RowSum(n, F));
    SumSwap(m, n, F);
    forall p | 0 <= p < n ensures GatherTerm(phi, x, y)(p) == ColSum(m, F)(p) {
      GatherTermIsColumn(m, phi, x, y, p);
    }
    SumExt(n, ColSum(m, F), GatherTerm(phi, x, y));
  }

  // ------------------------------------------- gathers that run cell by cell

  function Composed(y: nat -> real, phi: nat -> nat): nat -> real {
    (p: nat) => y(phi(p))
  }

  function ReadAlong(y: nat -> real, target: (nat, nat) -> nat, i: nat): nat -> real {
    (j: nat) => y(target(i, j))
  }

  /** Cell i contributes its share times the sum of what it reads. */
  function CellShare(d: nat, share: nat -> real, y: nat -> real, target: (nat, nat) -> nat): nat -> real {
    (i: nat) => share(i) * Sum(d, ReadAlong(y, target, i))
  }

  lemma CellOfGather(d: nat, phi: nat -> nat, x: nat -> real, y: nat -> real, i: nat, j: nat)
    ensures Cell(d, GatherTerm(phi, x, y))(i, j) == Cell(d, x)(i, j) * Cell(d, Composed(y, phi))(i, j)
  {
  }

  lemma ScaledRow(d: nat, F: (nat, nat) -> real, i: nat, share: real, z: nat -> real)
    requires forall j: nat :: j < d ==> F(i, j) == share * z(j)
    ensures RowSum(d, F)(i) == share * Sum(d, z)
  {
    SumScale(d, share, z, Row(F, i));
  }

  lemma EntryOfGather(
      d: nat, phi: nat -> nat, x: nat -> real, y: nat -> real, share: real, target: (nat, nat) -> nat, i: nat, j: nat)
    requires Cell(d, x)(i, j) == share && Cell(d, Composed(y, phi))(i, j) == y(target(i, j))
    ensures Cell(d, GatherTerm(phi, x, y))(i, j) == share * ReadAlong(y, target, i)(j)
  {
    CellOfGather(d, phi, x, y, i, j);
  }

  lemma EntriesOfGather(
      d: nat, phi: nat -> nat, x: nat -> real, y: nat -> real, share: real, target: (nat, nat) -> nat, i: nat)
    requires forall j: nat :: j < d ==> Cell(d, x)(i, j) == share && Cell(d, Composed(y, phi))(i, j) == y(target(i, j))
    ensures forall j: nat :: j < d ==> Cell(d, GatherTerm(phi, x, y))(i, j) == share * ReadAlong(y, target, i)(j)
  {
    forall j: nat | j < d ensures Cell(d, GatherTerm(phi, x, y))(i, j) == share * ReadAlong(y, target, i)(j) {
      EntryOfGather(d, phi, x, y, share, target, i, j);
    }
  }

  lemma RowIsShare(
      d: nat, F: (nat, nat) -> real, y: nat -> real, share: nat -> real, target: (nat, nat) -> nat, i: nat)
    requires forall j: nat :: j < d ==> F(i, j) == share(i) * ReadAlong(y, target, i)(j)
    ensures RowSum(d, F)(i) == CellShare(d, share, y, target)(i)
  {
    ScaledRow(d, F, i, share(i), ReadAlong(y, target, i));
  }

  lemma RowOfGather(
      d: nat, phi: nat -> nat, x: nat -> real, y: nat -> real, share: nat -> real, target: (nat, nat) -> nat, i: nat)
    requires forall j: nat :: j < d ==>
      Cell(d, x)(i, j) == share(i) && Cell(d, Composed(y, phi))(i, j) == y(target(i, j))
    ensures RowSum(d, Cell(d, GatherTerm(phi, x, y)))(i) == CellShare(d, share, y, target)(i)
  {
    EntriesOfGather(d, phi, x, y, share(i), target, i);
    RowIsShare(d, Cell(d, GatherTerm(phi, x, y)), y, share, target, i);
  }

  lemma RowsOfGather(
      n: nat, d: nat, phi: nat -> nat, x: nat -> real, y: nat -> real, share: nat -> real, target: (nat, nat) -> nat)
    requires forall i: nat, j: nat :: i < n && j < d ==>
      Cell(d, x)(i, j) == share(i) && Cell(d, Composed(y, phi))(i, j) == y(target(i, j))
    ensures forall i: nat :: i < n ==>
      RowSum(d, Cell(d, GatherTerm(phi, x, y)))(i) == CellShare(d, share, y, target)(i)
  {
    forall i: nat | i < n
      ensures RowSum(d, Cell(d, GatherTerm(phi, x, y)))(i) == CellShare(d, share, y, target)(i)
    {
      RowOfGather(d, phi, x, y, share, target, i);
    }
  }

  /** When d consecutive positions make up a cell, all with the same share, the pairing of a
      gather is a sum over cells. */
  lemma GatherByCells(
      n: nat, d: nat, phi: nat -> nat, x: nat -> real, y: nat -> real, share: nat -> real, target: (nat, nat) -> nat)
    requires forall i: nat, j: nat :: i < n && j < d ==>
      Cell(d, x)(i, j) == share(i) && Cell(d, Composed(y, phi))(i, j) == y(target(i, j))
    ensures n * d >= 0 && Sum(n * d, GatherTerm(phi, x, y)) == Sum(n, CellShare(d, share, y, target))
  {
    RowsOfGather(n, d, phi, x, y, share, target);
    SumFlatten(n, d, GatherTerm(phi, x, y));
    SumExt(n, RowSum(d, Cell(d, GatherTerm(phi, x, y))), CellShare(d, share, y, target));
  }
}
