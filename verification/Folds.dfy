/** Folds from the left and from the right, and folds along a map: cell q folds, in order,
    the cells that the map sends to q. */
module Folds {
  import opened Sequences

  function Foldl1<T>(f: (T, T) -> T, s: seq<T>): T
    requires s != []
  {
    if |s| == 1 then s[0] else f(Foldl1(f, s[..|s| - 1]), s[|s| - 1])
  }

  function Foldr1<T>(f: (T, T) -> T, s: seq<T>): T
    requires s != []
  {
    if |s| == 1 then s[0] else f(s[0], Foldr1(f, s[1..]))
  }

  ghost predicate Associative<T(!new)>(f: (T, T) -> T) {
    forall x, y, z :: AssociatesAt(f, x, y, z)
  }

  predicate AssociatesAt<T(==)>(f: (T, T) -> T, x: T, y: T, z: T) {
    f(f(x, y), z) == f(x, f(y, z))
  }

  ghost predicate Commutative<T(!new)>(f: (T, T) -> T) {
    forall x, y :: f(x, y) == f(y, x)
  }

  method FoldLeft<T>(f: (T, T) -> T, s: seq<T>) returns (r: T)
    requires s != []
    ensures r == Foldl1(f, s)
  {
    r := s[0];
    for k := 1 to |s|
      invariant r == Foldl1(f, s[..k])
    {
      r := f(r, s[k]);
      assert s[..k + 1][..k] == s[..k];
    }
    assert s[..|s|] == s;
  }

  method FoldRight<T>(f: (T, T) -> T, s: seq<T>) returns (r: T)
    requires s != []
    ensures r == Foldr1(f, s)
  {
    r := s[|s| - 1];
    for k := |s| - 1 downto 0
      invariant r == Foldr1(f, s[k..])
    {
      r := f(s[k], r);
      assert s[k..][1..] == s[k + 1..];
    }
    assert s[0..] == s;
  }

  lemma {:induction false} FoldlAppend<T(!new)>(f: (T, T) -> T, s: seq<T>, t: seq<T>)
    requires Associative(f) && s != [] && t != []
    ensures Foldl1(f, s + t) == f(Foldl1(f, s), Foldl1(f, t))
  {
    var n := |t| - 1;
    if n == 0 {
      assert (s + t)[..|s|] == s;
    } else {
      FoldlAppend(f, s, t[..n]);
      assert (s + t)[..|s| + n] == s + t[..n];
      assert AssociatesAt(f, Foldl1(f, s), Foldl1(f, t[..n]), t[n]);
    }
  }

  /** For an associative operation the two folds agree on every non-empty sequence. */
  lemma {:induction false} FoldsAgree<T(!new)>(f: (T, T) -> T, s: seq<T>)
    requires Associative(f) && s != []
    ensures Foldl1(f, s) == Foldr1(f, s)
  {
    if |s| > 1 {
      FoldsAgree(f, s[1..]);
      FoldlAppend(f, s[..1], s[1..]);
      assert s[..1] + s[1..] == s;
    }
  }

  /** They agree on every non-empty sequence only for an associative operation. */
  lemma FoldsAgreeExactly<T(!new)>(f: (T, T) -> T)
    ensures Associative(f) <==> forall s: seq<T> :: s != [] ==> Foldl1(f, s) == Foldr1(f, s)
  {
    if Associative(f) {
      forall s: seq<T> | s != [] ensures Foldl1(f, s) == Foldr1(f, s) {
        FoldsAgree(f, s);
      }
    } else {
      var x, y, z :| !AssociatesAt(f, x, y, z);
      var s := [x, y, z];
      FoldOfThree(f, s);
      assert s != [] && Foldl1(f, s) != Foldr1(f, s);
    }
  }

  lemma FoldOfThree<T(!new)>(f: (T, T) -> T, s: seq<T>)
    requires |s| == 3
    ensures Foldl1(f, s) == f(f(s[0], s[1]), s[2]) && Foldr1(f, s) == f(s[0], f(s[1], s[2]))
  {
    var first, last := s[..2], s[1..];
    assert Foldl1(f, first) == f(Foldl1(f, first[..1]), s[1]);
    assert Foldr1(f, last) == f(s[1], Foldr1(f, last[1..]));
  }

  // ---------------------------------------------------------------- reordering

  lemma Exchange<T(!new)>(f: (T, T) -> T, a: T, x: T, y: T)
    requires Associative(f) && Commutative(f)
    ensures f(f(a, x), y) == f(f(a, y), x)
  {
    assert AssociatesAt(f, a, x, y) && AssociatesAt(f, a, y, x);
  }

  /** Any element may be folded last. */
  lemma {:induction false} FoldLast<T(!new)>(f: (T, T) -> T, s: seq<T>, k: nat)
    requires Associative(f) && Commutative(f) && |s| >= 2 && k < |s|
    ensures Foldl1(f, s) == f(Foldl1(f, Without(s, k)), s[k])
    decreases |s|
  {
    var n := |s| - 1;
    var init := s[..n];
    if k == n {
      assert Without(s, k) == init;
    } else if n == 1 {
      assert init == [s[0]] && Without(s, k) == [s[1]];
    } else {
      FoldLast(f, init, k);
      var r := Without(s, k);
      assert r[..|r| - 1] == Without(init, k) && r[|r| - 1] == s[n];
      Exchange(f, Foldl1(f, Without(init, k)), s[k], s[n]);
    }
  }

  ghost predicate SameElements(s: seq<nat>, t: seq<nat>) {
    forall x: nat :: x in s <==> x in t
  }

  lemma DropSame(s: seq<nat>, t: seq<nat>, k: nat)
    requires NoDuplicates(s) && NoDuplicates(t) && SameElements(s, t) && s != [] && k < |t| && t[k] == s[|s| - 1]
    ensures NoDuplicates(s[..|s| - 1]) && NoDuplicates(Without(t, k)) && SameElements(s[..|s| - 1], Without(t, k))
  {
    var x, init, rest := t[k], s[..|s| - 1], Without(t, k);
    assert s == init + [x];
    forall y: nat ensures y in init <==> y in s && y != x {
    }
    forall y: nat ensures y in rest <==> y in t && y != x {
      if y in t && y != x {
        var j :| 0 <= j < |t| && t[j] == y;
        assert j < k ==> rest[j] == y;
        assert j > k ==> rest[j - 1] == y;
      }
    }
  }

  /** The order in which distinct cells are listed does not affect their fold. */
  lemma {:induction false} FoldAnyOrder<T(!new)>(f: (T, T) -> T, v: nat -> T, s: seq<nat>, t: seq<nat>)
    requires Associative(f) && Commutative(f) && s != [] && t != []
    requires NoDuplicates(s) && NoDuplicates(t) && SameElements(s, t)
    ensures Foldl1(f, Map(v, s)) == Foldl1(f, Map(v, t))
    decreases |s|
  {
    var n := |s| - 1;
    assert s[n] in t;
    var k :| 0 <= k < |t| && t[k] == s[n];
    DropSame(s, t, k);
    var rest := Without(t, k);
    if n == 0 {
      EmptyOrNot(rest);
      assert |t| == 1 && t[0] == s[0];
    } else {
      assert s[0] in s[..n];
      assert rest != [];
      FoldAnyOrder(f, v, s[..n], rest);
      FoldWithLast(f, v, s);
      FoldMappedLast(f, v, t, k);
    }
  }

  lemma FoldMappedLast<T(!new)>(f: (T, T) -> T, v: nat -> T, t: seq<nat>, k: nat)
    requires Associative(f) && Commutative(f) && |t| >= 2 && k < |t|
    ensures Foldl1(f, Map(v, t)) == f(Foldl1(f, Map(v, Without(t, k))), v(t[k]))
  {
    FoldLast(f, Map(v, t), k);
    assert Without(Map(v, t), k) == Map(v, Without(t, k));
  }

  // ---------------------------------------------------------------- along a map

  /** The positions below n that phi sends to q, in increasing order. */
  function Fibre(n: nat, phi: nat -> nat, q: nat): (s: seq<nat>)
    ensures forall p: nat :: p in s <==> p < n && phi(p) == q
    ensures forall i, j :: 0 <= i < j < |s| ==> s[i] < s[j]
  {
    if n == 0 then [] else
      var below := Fibre(n - 1, phi, q);
      assert forall i :: 0 <= i < |below| ==> below[i] in below;
      below + if phi(n - 1) == q then [n - 1] else []
  }

  /** Every fibre below m is inhabited. */
  ghost predicate Covers(n: nat, phi: nat -> nat, m: nat) {
    && (forall p: nat :: p < n ==> phi(p) < m)
    && (forall q: nat :: q < m ==> Fibre(n, phi, q) != [])
  }

  function Along<T>(f: (T, T) -> T, n: nat, phi: nat -> nat, v: nat -> T, q: nat): T
    requires Fibre(n, phi, q) != []
  {
    Foldl1(f, Map(v, Fibre(n, phi, q)))
  }

  function Then(phi: nat -> nat, psi: nat -> nat): nat -> nat {
    (p: nat) => psi(phi(p))
  }

  /** The fibres of phi over the listed cells, one after the other. */
  function Flattened(n: nat, phi: nat -> nat, s: seq<nat>): seq<nat> {
    if s == [] then [] else Flattened(n, phi, s[..|s| - 1]) + Fibre(n, phi, s[|s| - 1])
  }

  lemma {:induction false} FlattenedIs(n: nat, phi: nat -> nat, s: seq<nat>)
    requires NoDuplicates(s)
    ensures NoDuplicates(Flattened(n, phi, s))
    ensures forall p: nat :: p in Flattened(n, phi, s) <==> p < n && phi(p) in s
  {
    if s != [] {
      var init, x := s[..|s| - 1], s[|s| - 1];
      FlattenedIs(n, phi, init);
      assert s == init + [x];
      assert x !in init;
      DistinctAppend(Flattened(n, phi, init), Fibre(n, phi, x));
    }
  }

  lemma DistinctAppend(s: seq<nat>, t: seq<nat>)
    requires NoDuplicates(s) && NoDuplicates(t) && forall p: nat :: p in s ==> p !in t
    ensures NoDuplicates(s + t)
  {
    forall i, j | 0 <= i < j < |s + t| ensures (s + t)[i] != (s + t)[j] {
      if i < |s| <= j { assert s[i] in s && t[j - |s|] in t; }
    }
  }

  /** Folding fibre by fibre is folding the fibres laid end to end. */
  lemma {:induction false} FoldOfFolds<T(!new)>(
      f: (T, T) -> T, n: nat, phi: nat -> nat, v: nat -> T, w: nat -> T, s: seq<nat>)
    requires Associative(f) && s != []
    requires forall q: nat :: q in s ==> Fibre(n, phi, q) != [] && w(q) == Along(f, n, phi, v, q)
    ensures Flattened(n, phi, s) != [] && Foldl1(f, Map(w, s)) == Foldl1(f, Map(v, Flattened(n, phi, s)))
  {
    var init, x := s[..|s| - 1], s[|s| - 1];
    assert s == init + [x];
    assert x in s;
    if init == [] {
      assert Flattened(n, phi, s) == Fibre(n, phi, x) by { assert Flattened(n, phi, init) == []; }
    } else {
      assert forall q: nat :: q in init ==> q in s;
      FoldOfFolds(f, n, phi, v, w, init);
      FoldWithLast(f, w, s);
      FoldOfBoth(f, v, Flattened(n, phi, init), Fibre(n, phi, x));
      assert Flattened(n, phi, s) == Flattened(n, phi, init) + Fibre(n, phi, x);
    }
  }

  lemma FoldWithLast<T>(f: (T, T) -> T, w: nat -> T, s: seq<nat>)
    requires |s| >= 2
    ensures Foldl1(f, Map(w, s)) == f(Foldl1(f, Map(w, s[..|s| - 1])), w(s[|s| - 1]))
  {
    assert Map(w, s)[..|s| - 1] == Map(w, s[..|s| - 1]);
  }

  lemma FoldOfBoth<T(!new)>(f: (T, T) -> T, v: nat -> T, s: seq<nat>, t: seq<nat>)
    requires Associative(f) && s != [] && t != []
    ensures Foldl1(f, Map(v, s + t)) == f(Foldl1(f, Map(v, s)), Foldl1(f, Map(v, t)))
  {
    FoldlAppend(f, Map(v, s), Map(v, t));
    assert Map(v, s + t) == Map(v, s) + Map(v, t);
  }

  /** Folding along one map, and the result along another, is folding along both at once. */
  lemma FoldInTwoSteps<T(!new)>(
      f: (T, T) -> T, n: nat, m: nat, phi: nat -> nat, psi: nat -> nat, v: nat -> T, w: nat -> T, q: nat)
    requires Associative(f) && Commutative(f) && Covers(n, phi, m)
    requires forall r: nat :: r < m ==> w(r) == Along(f, n, phi, v, r)
    requires Fibre(m, psi, q) != []
    ensures Fibre(n, Then(phi, psi), q) != []
    ensures Along(f, m, psi, w, q) == Along(f, n, Then(phi, psi), v, q)
  {
    var s := Fibre(m, psi, q);
    FlattenedIs(n, phi, s);
    FoldOfFolds(f, n, phi, v, w, s);
    FlatIsFibre(n, m, phi, psi, q);
    FoldAnyOrder(f, v, Flattened(n, phi, s), Fibre(n, Then(phi, psi), q));
  }

  lemma FlatIsFibre(n: nat, m: nat, phi: nat -> nat, psi: nat -> nat, q: nat)
    requires forall p: nat :: p < n ==> phi(p) < m
    requires Flattened(n, phi, Fibre(m, psi, q)) != []
    ensures SameElements(Flattened(n, phi, Fibre(m, psi, q)), Fibre(n, Then(phi, psi), q))
    ensures Fibre(n, Then(phi, psi), q) != []
  {
    var s, whole := Fibre(m, psi, q), Fibre(n, Then(phi, psi), q);
    FlattenedIs(n, phi, s);
    var flat := Flattened(n, phi, s);
    forall p: nat ensures p in flat <==> p in whole {
    }
    assert flat[0] in whole;
  }
}
