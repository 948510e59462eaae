/** Runs of a task graph over a store of tensor buffers, and what a choice of topological
    ordering can and cannot change about them. A task may read only the buffers of its
    footprint and may change only the buffers it is allowed to write; what it computes is
    otherwise arbitrary. */
module Scheduling {
  import opened Sequences
  import opened Digraphs

  type Ptr = nat
  type Data = seq<real>
  type Store = map<Ptr, Data>

  /** What tasks of type I do, given attributes of type A (the optimizer's, say). */
  datatype Tasks<!I, !A> = Tasks(
    mayRead: I -> set<Ptr>,
    mayWrite: I -> set<Ptr>,
    body: (I, A, Store) -> Store)

  function Restrict(st: Store, ps: set<Ptr>): Store {
    map p | p in st && p in ps :: st[p]
  }

  function RunTask<I, A>(t: Tasks<I, A>, attrs: A, i: I, st: Store): Store {
    st + Restrict(t.body(i, attrs, Restrict(st, t.mayRead(i))), t.mayWrite(i))
  }

  function RunAll<I, A>(t: Tasks<I, A>, attrs: A, order: seq<I>, st: Store): Store {
    if order == [] then st else RunAll(t, attrs, order[1..], RunTask(t, attrs, order[0], st))
  }

  /** A task sees the buffers that it may read and nothing else. Of what it returns, the buffers that it
      may write replace the old ones, and all others stay. */
  lemma RunTaskEffect<I, A>(t: Tasks<I, A>, attrs: A, i: I, st: Store, p: Ptr)
    ensures var result := t.body(i, attrs, map q | q in st && q in t.mayRead(i) :: st[q]);
      var after := RunTask(t, attrs, i, st);
      if p in t.mayWrite(i) && p in result then p in after && after[p] == result[p]
      else (p in after <==> p in st) && (p in st ==> after[p] == st[p])
  {
  }

  /** Tasks run in the order in which they are listed. */
  lemma RunAllSteps<I, A>(t: Tasks<I, A>, attrs: A, order: seq<I>, i: I, st: Store)
    ensures RunAll(t, attrs, [], st) == st
    ensures RunAll(t, attrs, order + [i], st) == RunTask(t, attrs, i, RunAll(t, attrs, order, st))
  {
    RunAllAppend(t, attrs, order, [i], st);
    assert [i][1..] == [];
  }

  /** Two tasks interfere when both write some buffer, or when one that writes at all reads
      a buffer the other writes. */
  ghost predicate Interferes<I, A>(t: Tasks<I, A>, a: I, b: I) {
    || t.mayWrite(a) * t.mayWrite(b) != {}
    || (t.mayWrite(a) * t.mayRead(b) != {} && t.mayWrite(b) != {})
    || (t.mayWrite(b) * t.mayRead(a) != {} && t.mayWrite(a) != {})
  }

  lemma IndependentTasksCommute<I, A>(t: Tasks<I, A>, attrs: A, a: I, b: I, st: Store)
    requires !Interferes(t, a, b)
    ensures RunTask(t, attrs, b, RunTask(t, attrs, a, st)) == RunTask(t, attrs, a, RunTask(t, attrs, b, st))
  {
    BlindToWrites(t, attrs, a, b, st);
    BlindToWrites(t, attrs, b, a, st);
    forall p | p in t.mayWrite(a) ensures p !in t.mayWrite(b) {
      assert p !in t.mayWrite(a) * t.mayWrite(b);
    }
    DisjointUpdatesCommute(st,
      Restrict(t.body(a, attrs, Restrict(st, t.mayRead(a))), t.mayWrite(a)),
      Restrict(t.body(b, attrs, Restrict(st, t.mayRead(b))), t.mayWrite(b)));
  }

  lemma DisjointUpdatesCommute(st: Store, x: Store, y: Store)
    requires x.Keys !! y.Keys
    ensures st + x + y == st + y + x
  {
  }

  /** What b writes is the same whether or not a ran just before it. */
  lemma BlindToWrites<I, A>(t: Tasks<I, A>, attrs: A, a: I, b: I, st: Store)
    requires !Interferes(t, a, b)
    ensures RunTask(t, attrs, b, RunTask(t, attrs, a, st))
         == RunTask(t, attrs, a, st) + Restrict(t.body(b, attrs, Restrict(st, t.mayRead(b))), t.mayWrite(b))
  {
    if t.mayWrite(b) != {} {
      var after := RunTask(t, attrs, a, st);
      forall p | p in t.mayRead(b) ensures p !in t.mayWrite(a) {
        assert p !in t.mayWrite(a) * t.mayRead(b);
      }
      assert Restrict(after, t.mayRead(b)) == Restrict(st, t.mayRead(b));
    }
  }

  lemma {:induction false} RunAllAppend<I, A>(t: Tasks<I, A>, attrs: A, x: seq<I>, y: seq<I>, st: Store)
    ensures RunAll(t, attrs, x + y, st) == RunAll(t, attrs, y, RunAll(t, attrs, x, st))
  {
    if x == [] {
      assert x + y == y;
    } else {
      assert (x + y)[1..] == x[1..] + y;
      RunAllAppend(t, attrs, x[1..], y, RunTask(t, attrs, x[0], st));
    }
  }

  lemma {:induction false} MoveToFront<I, A>(t: Tasks<I, A>, attrs: A, xs: seq<I>, a: I, st: Store)
    requires forall x :: x in xs ==> !Interferes(t, a, x)
    ensures RunAll(t, attrs, xs + [a], st) == RunAll(t, attrs, [a] + xs, st)
  {
    if xs == [] {
      assert xs + [a] == [a] + xs;
    } else {
      assert (xs + [a])[1..] == xs[1..] + [a];
      MoveToFront(t, attrs, xs[1..], a, RunTask(t, attrs, xs[0], st));
      assert ([a] + xs[1..])[1..] == xs[1..];
      assert ([a] + xs)[1..] == xs;
      IndependentTasksCommute(t, attrs, a, xs[0], st);
    }
  }

  /** Two runs of the same tasks agree when they agree on the order of every interfering pair. */
  lemma {:induction false} SameRuns<I(!new), A>(t: Tasks<I, A>, attrs: A, o1: seq<I>, o2: seq<I>, st: Store)
    requires NoDuplicates(o1) && NoDuplicates(o2)
    requires forall x :: x in o1 <==> x in o2
    requires KeepsConflicts(t, o1, o2)
    ensures RunAll(t, attrs, o1, st) == RunAll(t, attrs, o2, st)
    decreases |o1|
  {
    if o1 == [] {
      EmptyOrNot(o2);
    } else {
      var a := o1[0];
      assert a in o2;
      var k :| 0 <= k < |o2| && o2[k] == a;
      FirstComesFirst(t, o1, o2, k);
      RunFirst(t, attrs, o2, k, st);
      RemoveOne(o2, k);
      RestKeepsConflicts(t, o1, o2, k);
      SameRuns(t, attrs, o1[1..], Without(o2, k), RunTask(t, attrs, a, st));
    }
  }

  /** The second order has every interfering pair the way the first has it. */
  ghost predicate KeepsConflicts<I(!new), A>(t: Tasks<I, A>, o1: seq<I>, o2: seq<I>) {
    forall a, b :: Before(o1, a, b) && Interferes(t, a, b) ==> Before(o2, a, b)
  }

  /** What runs before it in the second order does not interfere with the first of the first. */
  lemma FirstComesFirst<I(!new), A>(t: Tasks<I, A>, o1: seq<I>, o2: seq<I>, k: nat)
    requires NoDuplicates(o2) && KeepsConflicts(t, o1, o2) && forall x :: x in o1 <==> x in o2
    requires o1 != [] && k < |o2| && o2[k] == o1[0]
    ensures forall x :: x in o2[..k] ==> !Interferes(t, o1[0], x)
  {
    forall x | x in o2[..k] ensures !Interferes(t, o1[0], x) {
      var i :| 0 <= i < k && o2[i] == x;
      assert x in o1 && x != o1[0];
      var j :| 0 <= j < |o1| && o1[j] == x;
      assert Before(o1, o1[0], x);
      assert Before(o2, x, o1[0]);
      BeforeAsymmetric(o2, x, o1[0]);
    }
  }

  lemma RunFirst<I(!new), A>(t: Tasks<I, A>, attrs: A, o: seq<I>, k: nat, st: Store)
    requires k < |o| && forall x :: x in o[..k] ==> !Interferes(t, o[k], x)
    ensures RunAll(t, attrs, o, st) == RunAll(t, attrs, Without(o, k), RunTask(t, attrs, o[k], st))
  {
    var a, xs, ys := o[k], o[..k], o[k + 1..];
    assert o == xs + [a] + ys;
    MoveToFront(t, attrs, xs, a, st);
    RunAllAppend(t, attrs, xs + [a], ys, st);
    RunAllAppend(t, attrs, [a] + xs, ys, st);
    assert ([a] + xs + ys)[1..] == Without(o, k);
  }

  lemma RestKeepsConflicts<I(!new), A>(t: Tasks<I, A>, o1: seq<I>, o2: seq<I>, k: nat)
    requires NoDuplicates(o1) && NoDuplicates(o2) && KeepsConflicts(t, o1, o2)
    requires o1 != [] && k < |o2| && o2[k] == o1[0]
    ensures NoDuplicates(o1[1..]) && (forall x :: x in o1[1..] <==> x in o1 && x != o1[0])
    ensures KeepsConflicts(t, o1[1..], Without(o2, k))
  {
    assert o1 == [o1[0]] + o1[1..];
    forall u, v | Before(o1[1..], u, v) && Interferes(t, u, v) ensures Before(Without(o2, k), u, v) {
      var i, j :| 0 <= i < j < |o1[1..]| && o1[1..][i] == u && o1[1..][j] == v;
      assert o1[i + 1] == u && o1[j + 1] == v;
      assert Before(o1, u, v);
      BeforeAfterRemoval(o2, k, u, v);
    }
  }

  lemma RemoveOne<I(!new)>(s: seq<I>, k: nat)
    requires k < |s| && NoDuplicates(s)
    ensures NoDuplicates(Without(s, k)) && forall x :: x in Without(s, k) <==> x in s && x != s[k]
  {
    var r := Without(s, k);
    assert forall i :: 0 <= i < |r| ==> r[i] == if i < k then s[i] else s[i + 1];
    forall x | x in s && x != s[k] ensures x in r {
      var i :| 0 <= i < |s| && s[i] == x;
      assert r[if i < k then i else i - 1] == x;
    }
  }

  lemma BeforeAfterRemoval<I(!new)>(s: seq<I>, k: nat, u: I, v: I)
    requires k < |s| && NoDuplicates(s) && Before(s, u, v) && u != s[k] && v != s[k]
    ensures Before(Without(s, k), u, v)
  {
    var r := Without(s, k);
    var i, j :| 0 <= i < j < |s| && s[i] == u && s[j] == v;
    var i', j' := if i < k then i else i - 1, if j < k then j else j - 1;
    assert r[i'] == u && r[j'] == v;
  }

  // ------------------------------------------------ order independence, exactly

  /** Every interfering pair of tasks is ordered by the graph. */
  ghost predicate ConflictsOrdered<I(!new), A>(g: Digraph<I>, t: Tasks<I, A>) {
    forall a, b :: a in g.nodes && b in g.nodes && a != b && Interferes(t, a, b)
      ==> Reaches(g, a, b) || Reaches(g, b, a)
  }

  lemma OrderedConflictsAgree<I(!new), A>(g: Digraph<I>, t: Tasks<I, A>, attrs: A, o1: seq<I>, o2: seq<I>, st: Store)
    requires ConflictsOrdered(g, t)
    requires IsTopologicalOrdering(g, o1) && IsTopologicalOrdering(g, o2)
    ensures RunAll(t, attrs, o1, st) == RunAll(t, attrs, o2, st)
  {
    forall a, b | Before(o1, a, b) && Interferes(t, a, b) ensures Before(o2, a, b) {
      assert a in o1 && b in o1;
      if Reaches(g, b, a) {
        ReachesFollowsOrder(g, o1, b, a);
        BeforeAsymmetric(o1, a, b);
      } else {
        ReachesFollowsOrder(g, o2, a, b);
      }
    }
    SameRuns(t, attrs, o1, o2, st);
  }

  function Filter<I(!new)>(s: seq<I>, keep: I -> bool): (r: seq<I>)
    ensures forall x :: x in r <==> x in s && keep(x)
  {
    if s == [] then []
    else
      assert s == [s[0]] + s[1..];
      (if keep(s[0]) then [s[0]] else []) + Filter(s[1..], keep)
  }

  lemma {:induction false} FilterAppend<I(!new)>(x: seq<I>, y: seq<I>, keep: I -> bool)
    ensures Filter(x + y, keep) == Filter(x, keep) + Filter(y, keep)
  {
    if x == [] {
      assert x + y == y;
    } else {
      assert (x + y)[1..] == x[1..] + y;
      FilterAppend(x[1..], y, keep);
    }
  }

  lemma FilterKeepsOrder<I(!new)>(s: seq<I>, keep: I -> bool, a: I, b: I)
    requires Before(s, a, b) && keep(a) && keep(b)
    ensures Before(Filter(s, keep), a, b)
  {
    var i, j :| 0 <= i < j < |s| && s[i] == a && s[j] == b;
    assert s == s[..j] + s[j..];
    FilterAppend(s[..j], s[j..], keep);
    assert a in s[..j] && b in s[j..];
    BeforeAcross(Filter(s[..j], keep), Filter(s[j..], keep), a, b);
  }

  lemma BeforeAcross<I(!new)>(x: seq<I>, y: seq<I>, a: I, b: I)
    requires a in x && b in y
    ensures Before(x + y, a, b)
  {
    var i :| 0 <= i < |x| && x[i] == a;
    var j :| 0 <= j < |y| && y[j] == b;
    assert (x + y)[i] == a && (x + y)[|x| + j] == b;
  }

  lemma BeforeWithin<I(!new)>(x: seq<I>, y: seq<I>, z: seq<I>, a: I, b: I)
    requires Before(y, a, b)
    ensures Before(x + y + z, a, b)
  {
    var i, j :| 0 <= i < j < |y| && y[i] == a && y[j] == b;
    assert (x + y + z)[|x| + i] == a && (x + y + z)[|x| + j] == b;
  }

  lemma {:induction false} FilterNoDuplicates<I(!new)>(s: seq<I>, keep: I -> bool)
    requires NoDuplicates(s)
    ensures NoDuplicates(Filter(s, keep))
  {
    if s != [] {
      assert NoDuplicates(s[1..]) && s[0] !in s[1..];
      FilterNoDuplicates(s[1..], keep);
    }
  }

  lemma AppendNoDuplicates<I(!new)>(x: seq<I>, y: seq<I>)
    requires NoDuplicates(x) && NoDuplicates(y)
    requires forall u :: u in x ==> u !in y
    ensures NoDuplicates(x + y)
  {
    var s := x + y;
    forall i, j | 0 <= i < j < |s| ensures s[i] != s[j] {
      if i < |x| <= j { assert s[i] in x && s[j] in y; }
    }
  }

  /** Two unordered tasks can be run one straight after the other, in either order: first
      everything neither of them reaches, then the two, then everything else. */
  lemma AdjacentOrdering<I(!new)>(g: Digraph<I>, a: I, b: I) returns (before: seq<I>, after: seq<I>)
    requires WellFormed(g) && Acyclic(g) && a in g.nodes && b in g.nodes && a != b
    requires !Reaches(g, a, b) && !Reaches(g, b, a)
    ensures IsTopologicalOrdering(g, before + [a, b] + after)
    ensures IsTopologicalOrdering(g, before + [b, a] + after)
    ensures a !in before && b !in before && a !in after && b !in after
  {
    var order := OrderingExists(g);
    ghost var later := set x | x in g.nodes && (Reaches(g, a, x) || Reaches(g, b, x));
    var early, late := x => x !in later && x != a && x != b, x => x in later;
    before, after := Filter(order, early), Filter(order, late);
    FilterNoDuplicates(order, early);
    FilterNoDuplicates(order, late);
    forall x, y | x in later && y in later && Before(order, x, y) ensures Before(after, x, y) {
      FilterKeepsOrder(order, late, x, y);
    }
    forall x, y | x in before && y in before && Before(order, x, y) ensures Before(before, x, y) {
      FilterKeepsOrder(order, early, x, y);
    }
    AdjacentIsTopological(g, order, later, a, b, before, after);
    AdjacentIsTopological(g, order, later, b, a, before, after);
  }

  lemma AdjacentIsTopological<I(!new)>(
      g: Digraph<I>, order: seq<I>, later: set<I>, a: I, b: I, before: seq<I>, after: seq<I>)
    requires WellFormed(g) && Acyclic(g) && a in g.nodes && b in g.nodes && a != b
    requires !Reaches(g, a, b) && !Reaches(g, b, a) && IsTopologicalOrdering(g, order)
    requires later == set x | x in g.nodes && (Reaches(g, a, x) || Reaches(g, b, x))
    requires NoDuplicates(before) && NoDuplicates(after)
    requires forall x :: x in before <==> x in g.nodes && x !in later && x != a && x != b
    requires forall x :: x in after <==> x in later
    requires forall x, y :: x in later && y in later && Before(order, x, y) ==> Before(after, x, y)
    requires forall x, y :: x in before && y in before && Before(order, x, y) ==> Before(before, x, y)
    ensures IsTopologicalOrdering(g, before + [a, b] + after)
  {
    var o := before + [a, b] + after;
    assert NoDuplicates([a, b]);
    AppendNoDuplicates(before, [a, b]);
    AppendNoDuplicates(before + [a, b], after);
    forall x, y | (x, y) in g.edges ensures Before(o, x, y) {
      assert Before(order, x, y);
      EdgeReaches(g, x, y);
      if y in later {
        if x in later {
          BeforeWithin(before + [a, b], after, [], x, y);
          assert before + [a, b] + after + [] == o;
        } else {
          assert x in before + [a, b];
          BeforeAcross(before + [a, b], after, x, y);
        }
      } else {
        assert x != a && x != b;
        if x in later {
          if Reaches(g, a, x) { ReachesTrans(g, a, x, y); } else { ReachesTrans(g, b, x, y); }
          assert false;
        }
        assert x in before;
        if y == a || y == b {
          BeforeAcross(before, [a, b] + after, x, y);
          assert before + ([a, b] + after) == o;
        } else {
          BeforeWithin([], before, [a, b] + after, x, y);
          assert [] + before + ([a, b] + after) == o;
        }
      }
    }
  }

  /** Running first everything in `early` and then the rest keeps an ordering topological when no
      edge leads from the rest into `early`. */
  lemma EarlyFirst<I(!new)>(g: Digraph<I>, order: seq<I>, early: I -> bool)
    requires IsTopologicalOrdering(g, order)
    requires forall x, y :: (x, y) in g.edges && early(y) ==> early(x)
    ensures IsTopologicalOrdering(g, Filter(order, early) + Filter(order, Other(early)))
  {
    var before, after := Filter(order, early), Filter(order, Other(early));
    FilterNoDuplicates(order, early);
    FilterNoDuplicates(order, Other(early));
    AppendNoDuplicates(before, after);
    forall x | x in g.nodes ensures x in before + after {
      assert x in order && (early(x) || Other(early)(x));
    }
    forall x, y | (x, y) in g.edges ensures Before(before + after, x, y) {
      assert Before(order, x, y);
      EarlyFirstKeeps(order, early, x, y);
    }
  }

  function Other<I(!new)>(early: I -> bool): I -> bool {
    (x: I) => !early(x)
  }

  lemma EarlyFirstKeeps<I(!new)>(order: seq<I>, early: I -> bool, x: I, y: I)
    requires Before(order, x, y) && (early(y) ==> early(x))
    ensures Before(Filter(order, early) + Filter(order, Other(early)), x, y)
  {
    var before, after := Filter(order, early), Filter(order, Other(early));
    assert x in order && y in order;
    if early(y) {
      FilterKeepsOrder(order, early, x, y);
      BeforeWithin([], before, after, x, y);
      assert [] + before + after == before + after;
    } else if early(x) {
      BeforeAcross(before, after, x, y);
    } else {
      FilterKeepsOrder(order, Other(early), x, y);
      BeforeWithin(before, after, [], x, y);
      assert before + after + [] == before + after;
    }
  }

  /** Some ordering runs b before everything that does not reach it. */
  lemma AsEarlyAsPossible<I(!new)>(g: Digraph<I>, b: I) returns (order: seq<I>)
    requires WellFormed(g) && Acyclic(g) && b in g.nodes
    ensures IsTopologicalOrdering(g, order)
    ensures forall x :: x in g.nodes && x != b && !Reaches(g, x, b) ==> Before(order, b, x)
  {
    var any := OrderingExists(g);
    ghost var ancestors := set x | x in g.nodes && (x == b || Reaches(g, x, b));
    var early := x => x in ancestors;
    forall x, y | (x, y) in g.edges && early(y) ensures early(x) {
      EdgeReaches(g, x, y);
      if y != b { ReachesTrans(g, x, y, b); }
    }
    EarlyFirst(g, any, early);
    order := Filter(any, early) + Filter(any, Other(early));
    forall x | x in g.nodes && x != b && !Reaches(g, x, b) ensures Before(order, b, x) {
      assert x in any && b in any;
      BeforeAcross(Filter(any, early), Filter(any, Other(early)), b, x);
    }
  }

  /** And some ordering runs it after everything that it does not reach. */
  lemma AsLateAsPossible<I(!new)>(g: Digraph<I>, b: I) returns (order: seq<I>)
    requires WellFormed(g) && Acyclic(g) && b in g.nodes
    ensures IsTopologicalOrdering(g, order)
    ensures forall x :: x in g.nodes && x != b && !Reaches(g, b, x) ==> Before(order, x, b)
  {
    var any := OrderingExists(g);
    ghost var descendants := set x | x in g.nodes && (x == b || Reaches(g, b, x));
    var early := x => x !in descendants;
    forall x, y | (x, y) in g.edges && early(y) ensures early(x) {
      EdgeReaches(g, x, y);
      if x in descendants && x != b { ReachesTrans(g, b, x, y); }
    }
    EarlyFirst(g, any, early);
    order := Filter(any, early) + Filter(any, Other(early));
    forall x | x in g.nodes && x != b && !Reaches(g, b, x) ensures Before(order, x, b) {
      assert x in any && b in any;
      BeforeAcross(Filter(any, early), Filter(any, Other(early)), x, b);
    }
  }

  lemma {:induction false} IdleRun<I, A>(t: Tasks<I, A>, attrs: A, order: seq<I>, st: Store)
    requires forall x, s :: x in order ==> t.body(x, attrs, s) == map[]
    ensures RunAll(t, attrs, order, st) == st
  {
    if order != [] {
      assert t.body(order[0], attrs, Restrict(st, t.mayRead(order[0]))) == map[];
      assert RunTask(t, attrs, order[0], st) == st;
      IdleRun(t, attrs, order[1..], st);
    }
  }

  /** Everything but one task idles: the run is what that task does. */
  lemma RunOfOne<I(!new), A>(t: Tasks<I, A>, attrs: A, before: seq<I>, a: I, after: seq<I>, st: Store)
    requires forall x, s :: x in before || x in after ==> t.body(x, attrs, s) == map[]
    ensures RunAll(t, attrs, before + [a] + after, st) == RunTask(t, attrs, a, st)
  {
    RunAllAppend(t, attrs, before + [a], after, st);
    RunAllAppend(t, attrs, before, [a], st);
    IdleRun(t, attrs, before, st);
    assert [a][1..] == [];
    assert RunAll(t, attrs, [a], st) == RunTask(t, attrs, a, st);
    IdleRun(t, attrs, after, RunTask(t, attrs, a, st));
  }

  /** Everything but two adjacent tasks idle: the run is what those two do. */
  lemma RunOfTwo<I(!new), A>(t: Tasks<I, A>, attrs: A, before: seq<I>, a: I, b: I, after: seq<I>, st: Store)
    requires forall x, s :: x in before || x in after ==> t.body(x, attrs, s) == map[]
    ensures RunAll(t, attrs, before + [a, b] + after, st) == RunTask(t, attrs, b, RunTask(t, attrs, a, st))
  {
    RunAllAppend(t, attrs, before + [a, b], after, st);
    RunAllAppend(t, attrs, before, [a, b], st);
    IdleRun(t, attrs, before, st);
    var two := RunAll(t, attrs, [a, b], st);
    assert [a, b][1..] == [b] && [b][1..] == [];
    assert two == RunAll(t, attrs, [b], RunTask(t, attrs, a, st));
    assert RunAll(t, attrs, [b], RunTask(t, attrs, a, st)) ==
      RunAll(t, attrs, [], RunTask(t, attrs, b, RunTask(t, attrs, a, st)));
    IdleRun(t, attrs, after, two);
  }

  /** Some buffer shows the order of two interfering tasks, for suitable task bodies. */
  lemma InterferenceIsVisible<I(!new), A(!new)>(
      mayRead: I -> set<Ptr>, mayWrite: I -> set<Ptr>, attrs: A, a: I, b: I, before: seq<I>, after: seq<I>)
    returns (t: Tasks<I, A>, st: Store)
    requires a != b && Interferes(Tasks(mayRead, mayWrite, (i: I, at: A, s: Store) => s), a, b)
    requires a !in before && b !in before && a !in after && b !in after
    ensures t.mayRead == mayRead && t.mayWrite == mayWrite
    ensures RunAll(t, attrs, before + [a, b] + after, st) != RunAll(t, attrs, before + [b, a] + after, st)
  {
    st := map[];
    if mayWrite(a) * mayWrite(b) != {} {
      var p :| p in mayWrite(a) * mayWrite(b);
      t := Tasks(mayRead, mayWrite, (i: I, at: A, s: Store) =>
        if i == a then map[p := [1.0]] else if i == b then map[p := [2.0]] else map[]);
      RunOfTwo(t, attrs, before, a, b, after, st);
      RunOfTwo(t, attrs, before, b, a, after, st);
      assert RunTask(t, attrs, b, RunTask(t, attrs, a, st))[p] == [2.0];
      assert RunTask(t, attrs, a, RunTask(t, attrs, b, st))[p] == [1.0];
    } else if mayWrite(a) * mayRead(b) != {} && mayWrite(b) != {} {
      var p :| p in mayWrite(a) * mayRead(b);
      t, st := ReaderSees(mayRead, mayWrite, attrs, a, b, p, before, after);
    } else {
      var p :| p in mayWrite(b) * mayRead(a);
      t, st := ReaderSees(mayRead, mayWrite, attrs, b, a, p, before, after);
    }
  }

  lemma ReaderSees<I(!new), A(!new)>(
      mayRead: I -> set<Ptr>, mayWrite: I -> set<Ptr>, attrs: A, a: I, b: I, p: Ptr, before: seq<I>, after: seq<I>)
    returns (t: Tasks<I, A>, st: Store)
    requires a != b && p in mayWrite(a) && p in mayRead(b) && mayWrite(b) != {} && mayWrite(a) * mayWrite(b) == {}
    requires a !in before && b !in before && a !in after && b !in after
    ensures t.mayRead == mayRead && t.mayWrite == mayWrite
    ensures RunAll(t, attrs, before + [a, b] + after, st) != RunAll(t, attrs, before + [b, a] + after, st)
  {
    st := map[];
    var q :| q in mayWrite(b);
    assert q !in mayWrite(a) * mayWrite(b);
    t := Tasks(mayRead, mayWrite, (i: I, at: A, s: Store) =>
      if i == a then map[p := [1.0]]
      else if i == b then map[q := if p in s then [1.0] else [0.0]]
      else map[]);
    RunOfTwo(t, attrs, before, a, b, after, st);
    RunOfTwo(t, attrs, before, b, a, after, st);
    assert p in RunTask(t, attrs, a, st);
    assert RunTask(t, attrs, b, RunTask(t, attrs, a, st))[q] == [1.0];
    assert RunTask(t, attrs, a, RunTask(t, attrs, b, st))[q] == [0.0];
  }

  /** The choice of topological ordering is invisible, whatever the tasks compute and whatever
      store they start from, exactly when the graph orders every interfering pair of tasks. */
  lemma OrderIndependenceExactly<I(!new), A(!new)>(
      g: Digraph<I>, mayRead: I -> set<Ptr>, mayWrite: I -> set<Ptr>, attrs: A)
    requires WellFormed(g) && Acyclic(g)
    ensures ConflictsOrdered(g, Tasks(mayRead, mayWrite, (i: I, at: A, s: Store) => s))
      <==> forall body: (I, A, Store) -> Store, st, o1, o2 ::
        IsTopologicalOrdering(g, o1) && IsTopologicalOrdering(g, o2) ==>
        (RunAll(Tasks(mayRead, mayWrite, body), attrs, o1, st)
        == RunAll(Tasks(mayRead, mayWrite, body), attrs, o2, st))
  {
    var any: Tasks<I, A> := Tasks(mayRead, mayWrite, (i: I, at: A, s: Store) => s);
    if ConflictsOrdered(g, any) {
      forall body: (I, A, Store) -> Store, st, o1, o2 | IsTopologicalOrdering(g, o1) && IsTopologicalOrdering(g, o2)
        ensures RunAll(Tasks(mayRead, mayWrite, body), attrs, o1, st) ==
          RunAll(Tasks(mayRead, mayWrite, body), attrs, o2, st)
      {
        var t := Tasks(mayRead, mayWrite, body);
        assert forall a, b :: Interferes(t, a, b) <==> Interferes(any, a, b);
        OrderedConflictsAgree(g, t, attrs, o1, o2, st);
      }
    } else {
      var a, b :| a in g.nodes && b in g.nodes && a != b && Interferes(any, a, b)
        && !Reaches(g, a, b) && !Reaches(g, b, a);
      var before, after := AdjacentOrdering(g, a, b);
      var t, st := InterferenceIsVisible(mayRead, mayWrite, attrs, a, b, before, after);
      assert t == Tasks(mayRead, mayWrite, t.body);
      assert IsTopologicalOrdering(g, before + [a, b] + after);
      assert IsTopologicalOrdering(g, before + [b, a] + after);
      assert RunAll(Tasks(mayRead, mayWrite, t.body), attrs, before + [a, b] + after, st)
          != RunAll(Tasks(mayRead, mayWrite, t.body), attrs, before + [b, a] + after, st);
    }
  }

  /** What buffer p holds once k tasks have run is what it holds at the end. */
  ghost predicate FinalAt<I(!new), A>(t: Tasks<I, A>, attrs: A, order: seq<I>, k: nat, p: Ptr, st: Store)
    requires k <= |order|
  {
    && (p in RunAll(t, attrs, order[..k], st) <==> p in RunAll(t, attrs, order, st))
    && (p in RunAll(t, attrs, order, st) ==> RunAll(t, attrs, order[..k], st)[p] == RunAll(t, attrs, order, st)[p])
  }

  /** A buffer is final after k tasks, whatever the tasks compute and whatever store they start
      from, exactly when no later task may write it. */
  lemma FinalExactly<I(!new), A(!new)>(
      mayRead: I -> set<Ptr>, mayWrite: I -> set<Ptr>, attrs: A, order: seq<I>, k: nat, p: Ptr)
    requires NoDuplicates(order) && k <= |order|
    ensures (forall j :: k <= j < |order| ==> p !in mayWrite(order[j]))
      <==> forall body: (I, A, Store) -> Store, st :: FinalAt(Tasks(mayRead, mayWrite, body), attrs, order, k, p, st)
  {
    if forall j :: k <= j < |order| ==> p !in mayWrite(order[j]) {
      forall body: (I, A, Store) -> Store, st ensures FinalAt(Tasks(mayRead, mayWrite, body), attrs, order, k, p, st) {
        UnwrittenIsFinal(Tasks(mayRead, mayWrite, body), attrs, order, k, p, st);
      }
    } else {
      var j :| k <= j < |order| && p in mayWrite(order[j]);
      var t, st := WrittenLater(mayRead, mayWrite, attrs, order, k, j, p);
      assert t == Tasks(mayRead, mayWrite, t.body);
    }
  }

  lemma UnwrittenIsFinal<I(!new), A>(t: Tasks<I, A>, attrs: A, order: seq<I>, k: nat, p: Ptr, st: Store)
    requires k <= |order| && forall j :: k <= j < |order| ==> p !in t.mayWrite(order[j])
    ensures FinalAt(t, attrs, order, k, p, st)
  {
    assert order == order[..k] + order[k..];
    RunAllAppend(t, attrs, order[..k], order[k..], st);
    UntouchedBuffer(t, attrs, order[k..], p, RunAll(t, attrs, order[..k], st));
  }

  lemma WrittenLater<I(!new), A(!new)>(
      mayRead: I -> set<Ptr>, mayWrite: I -> set<Ptr>, attrs: A, order: seq<I>, k: nat, j: nat, p: Ptr)
    returns (t: Tasks<I, A>, st: Store)
    requires NoDuplicates(order) && k <= j < |order| && p in mayWrite(order[j])
    ensures t.mayRead == mayRead && t.mayWrite == mayWrite && !FinalAt(t, attrs, order, k, p, st)
  {
    st := map[];
    var writer := order[j];
    t := Tasks(mayRead, mayWrite, (i: I, a: A, s: Store) => if i == writer then map[p := [1.0]] else map[]);
    IdleRun(t, attrs, order[..k], st);
    assert order == order[..j] + [writer] + order[j + 1..];
    RunOfOne(t, attrs, order[..j], writer, order[j + 1..], st);
    assert p in RunTask(t, attrs, writer, st);
  }

  lemma {:induction false} UntouchedBuffer<I(!new), A>(t: Tasks<I, A>, attrs: A, order: seq<I>, p: Ptr, st: Store)
    requires forall x :: x in order ==> p !in t.mayWrite(x)
    ensures p in RunAll(t, attrs, order, st) <==> p in st
    ensures p in st ==> RunAll(t, attrs, order, st)[p] == st[p]
  {
    if order != [] {
      assert order[0] in order;
      UntouchedBuffer(t, attrs, order[1..], p, RunTask(t, attrs, order[0], st));
    }
  }
}
