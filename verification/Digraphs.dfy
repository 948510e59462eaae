/** Finite directed graphs, and the graph algorithms that execution and the benchmark
    generators rely on: the three-colour cycle test, the stack-driven topological
    ordering, and the two-terminal test. */
module Digraphs {
  import opened Sequences

  datatype Digraph<N> = Digraph(nodes: set<N>, edges: set<(N, N)>)

  ghost predicate WellFormed<N(!new)>(g: Digraph<N>) {
    forall a, b :: (a, b) in g.edges ==> a in g.nodes && b in g.nodes
  }

  // ---------------------------------------------------------------- walks

  ghost predicate IsWalk<N(!new)>(g: Digraph<N>, w: seq<N>) {
    forall i :: 0 <= i < |w| - 1 ==> (w[i], w[i + 1]) in g.edges
  }

  ghost predicate WalkBetween<N(!new)>(g: Digraph<N>, w: seq<N>, a: N, b: N) {
    |w| >= 2 && w[0] == a && w[|w| - 1] == b && IsWalk(g, w)
  }

  /** b can be reached from a along at least one edge. */
  ghost predicate Reaches<N(!new)>(g: Digraph<N>, a: N, b: N) {
    exists w: seq<N> :: WalkBetween(g, w, a, b)
  }

  /** No node can be reached from itself. */
  ghost predicate Acyclic<N(!new)>(g: Digraph<N>) {
    forall n :: !Reaches(g, n, n)
  }

  lemma EdgeReaches<N(!new)>(g: Digraph<N>, a: N, b: N)
    requires (a, b) in g.edges
    ensures Reaches(g, a, b)
  {
    assert WalkBetween(g, [a, b], a, b);
  }

  lemma ReachesTrans<N(!new)>(g: Digraph<N>, a: N, b: N, c: N)
    requires Reaches(g, a, b) && Reaches(g, b, c)
    ensures Reaches(g, a, c)
  {
    var u :| WalkBetween(g, u, a, b);
    var v :| WalkBetween(g, v, b, c);
    var w := u + v[1..];
    forall i | 0 <= i < |w| - 1 ensures (w[i], w[i + 1]) in g.edges {
      if i < |u| - 1 {
        assert w[i] == u[i] && w[i + 1] == u[i + 1];
      } else {
        assert w[i] == v[i - |u| + 1] && w[i + 1] == v[i - |u| + 2];
      }
    }
    assert WalkBetween(g, w, a, c);
  }

  /** A walk visits its positions in increasing order of any edge-increasing ranking. */
  lemma {:induction false} WalkRises<N(!new)>(g: Digraph<N>, rank: map<N, int>, w: seq<N>)
    requires Ranks(g, rank)
    requires |w| >= 2 && IsWalk(g, w)
    ensures w[0] in rank && w[|w| - 1] in rank && rank[w[0]] < rank[w[|w| - 1]]
  {
    assert (w[0], w[1]) in g.edges;
    if |w| > 2 {
      assert IsWalk(g, w[1..]);
      WalkRises(g, rank, w[1..]);
    }
  }

  ghost predicate Ranks<N(!new)>(g: Digraph<N>, rank: map<N, int>) {
    forall a, b :: (a, b) in g.edges ==> a in rank && b in rank && rank[a] < rank[b]
  }

  lemma RankedIsAcyclic<N(!new)>(g: Digraph<N>, rank: map<N, int>)
    requires Ranks(g, rank)
    ensures Acyclic(g)
  {
    forall n ensures !Reaches(g, n, n) {
      if Reaches(g, n, n) {
        var w :| WalkBetween(g, w, n, n);
        WalkRises(g, rank, w);
      }
    }
  }

  // ------------------------------------------------- minimal elements of acyclic graphs

  ghost predicate HasPredIn<N(!new)>(g: Digraph<N>, S: set<N>, x: N) {
    exists y :: y in S && (y, x) in g.edges
  }

  lemma {:induction false} Pigeonhole<N(!new)>(s: seq<N>, S: set<N>)
    requires forall i :: 0 <= i < |s| ==> s[i] in S
    requires |s| > |S|
    ensures exists i, j :: 0 <= i < j < |s| && s[i] == s[j]
    decreases |s|
  {
    var n := |s| - 1;
    if i :| 0 <= i < n && s[i] == s[n] {
    } else {
      var T := S - {s[n]};
      assert |T| == |S| - 1;
      Pigeonhole(s[..n], T);
      var i, j :| 0 <= i < j < |s[..n]| && s[..n][i] == s[..n][j];
      assert s[i] == s[j];
    }
  }

  lemma {:induction false} BackwardWalk<N(!new)>(g: Digraph<N>, S: set<N>, k: nat) returns (w: seq<N>)
    requires S != {} && forall x :: x in S ==> HasPredIn(g, S, x)
    ensures |w| == k + 1 && IsWalk(g, w)
    ensures forall i :: 0 <= i < |w| ==> w[i] in S
  {
    if k == 0 {
      var x :| x in S;
      w := [x];
    } else {
      var v := BackwardWalk(g, S, k - 1);
      assert HasPredIn(g, S, v[0]);
      var y :| y in S && (y, v[0]) in g.edges;
      w := [y] + v;
      forall i | 0 <= i < |w| - 1 ensures (w[i], w[i + 1]) in g.edges {
        if i > 0 { assert w[i] == v[i - 1] && w[i + 1] == v[i]; }
      }
    }
  }

  /** Every non-empty set of nodes of an acyclic graph has a node with no predecessor in it. */
  lemma MinimalElement<N(!new)>(g: Digraph<N>, S: set<N>) returns (x: N)
    requires Acyclic(g) && S != {}
    ensures x in S && !HasPredIn(g, S, x)
  {
    if forall x :: x in S ==> HasPredIn(g, S, x) {
      var w := BackwardWalk(g, S, |S|);
      Pigeonhole(w, S);
      var i, j :| 0 <= i < j < |w| && w[i] == w[j];
      var c := w[i..j + 1];
      forall k | 0 <= k < |c| - 1 ensures (c[k], c[k + 1]) in g.edges {
        assert c[k] == w[i + k] && c[k + 1] == w[i + k + 1];
      }
      assert WalkBetween(g, c, w[i], w[i]);
      assert Reaches(g, w[i], w[i]);
      assert false;
    }
    x :| x in S && !HasPredIn(g, S, x);
  }

  // -------------------------------------------------------------- orderings

  lemma {:induction false} LengthIsCardinality<N(!new)>(s: seq<N>)
    requires NoDuplicates(s)
    ensures |s| == |set x | x in s|
  {
    if s != [] {
      var rest := s[1..];
      LengthIsCardinality(rest);
      assert s[0] !in rest;
      assert (set x | x in s) == (set x | x in rest) + {s[0]} by {
        assert s == [s[0]] + rest;
      }
    }
  }

  ghost predicate Before<N(!new)>(s: seq<N>, a: N, b: N) {
    exists i, j :: 0 <= i < j < |s| && s[i] == a && s[j] == b
  }

  ghost predicate IsTopologicalOrdering<N(!new)>(g: Digraph<N>, order: seq<N>) {
    && NoDuplicates(order)
    && (forall x :: x in order <==> x in g.nodes)
    && (forall a, b :: (a, b) in g.edges ==> Before(order, a, b))
  }

  lemma {:induction false} WalkFollowsOrder<N(!new)>(g: Digraph<N>, order: seq<N>, w: seq<N>)
    requires IsTopologicalOrdering(g, order)
    requires |w| >= 2 && IsWalk(g, w)
    ensures Before(order, w[0], w[|w| - 1])
  {
    assert (w[0], w[1]) in g.edges;
    if |w| > 2 {
      assert IsWalk(g, w[1..]);
      WalkFollowsOrder(g, order, w[1..]);
      BeforeTrans(order, w[0], w[1], w[|w| - 1]);
    }
  }

  lemma BeforeTrans<N(!new)>(order: seq<N>, a: N, b: N, c: N)
    requires NoDuplicates(order) && Before(order, a, b) && Before(order, b, c)
    ensures Before(order, a, c)
  {
    var i, j :| 0 <= i < j < |order| && order[i] == a && order[j] == b;
    var k, l :| 0 <= k < l < |order| && order[k] == b && order[l] == c;
    assert j == k;
  }

  lemma BeforeAsymmetric<N(!new)>(order: seq<N>, a: N, b: N)
    requires NoDuplicates(order) && Before(order, a, b)
    ensures !Before(order, b, a)
  {
  }

  /** In a topological ordering, everything a node reaches comes after it. */
  lemma ReachesFollowsOrder<N(!new)>(g: Digraph<N>, order: seq<N>, a: N, b: N)
    requires IsTopologicalOrdering(g, order) && Reaches(g, a, b)
    ensures Before(order, a, b)
  {
    var w :| WalkBetween(g, w, a, b);
    WalkFollowsOrder(g, order, w);
  }

  /** Having a topological ordering is the same as being acyclic: this direction, with
      OrderingExists for the other. */
  lemma OrderedIsAcyclic<N(!new)>(g: Digraph<N>, order: seq<N>)
    requires IsTopologicalOrdering(g, order)
    ensures Acyclic(g)
  {
    forall n ensures !Reaches(g, n, n) {
      if Reaches(g, n, n) {
        ReachesFollowsOrder(g, order, n, n);
        BeforeAsymmetric(order, n, n);
      }
    }
  }

  ghost predicate PredecessorsEarlier<N(!new)>(g: Digraph<N>, order: seq<N>) {
    forall i, y :: 0 <= i < |order| && (y, order[i]) in g.edges ==> y in order[..i]
  }

  lemma {:induction false} ExtendOrdering<N(!new)>(g: Digraph<N>, prefix: seq<N>) returns (order: seq<N>)
    requires WellFormed(g) && Acyclic(g)
    requires NoDuplicates(prefix) && PredecessorsEarlier(g, prefix)
    requires forall x :: x in prefix ==> x in g.nodes
    ensures IsTopologicalOrdering(g, order)
    decreases g.nodes - (set x | x in prefix)
  {
    var rest := g.nodes - (set x | x in prefix);
    if rest == {} {
      order := prefix;
      forall x | x in g.nodes ensures x in order {
        assert x !in rest;
      }
      CompleteOrdering(g, order);
    } else {
      var x := MinimalElement(g, rest);
      forall y | (y, x) in g.edges ensures y in prefix {
        assert y !in rest;
      }
      KeepNode(g, prefix, x);
      assert x in prefix + [x];
      order := ExtendOrdering(g, prefix + [x]);
    }
  }

  lemma CompleteOrdering<N(!new)>(g: Digraph<N>, order: seq<N>)
    requires WellFormed(g) && NoDuplicates(order) && PredecessorsEarlier(g, order)
    requires forall x :: x in order <==> x in g.nodes
    ensures IsTopologicalOrdering(g, order)
  {
    forall a, b | (a, b) in g.edges ensures Before(order, a, b) {
      assert b in order;
      var j :| 0 <= j < |order| && order[j] == b;
      assert a in order[..j];
      var i :| 0 <= i < j && order[i] == a;
    }
  }

  lemma OrderingExists<N(!new)>(g: Digraph<N>) returns (order: seq<N>)
    requires WellFormed(g) && Acyclic(g)
    ensures IsTopologicalOrdering(g, order)
  {
    order := ExtendOrdering(g, []);
  }

  // ------------------------------------------------------------ the cycle test

  datatype ExplorationStatus = NotExplored | BeingExplored | FullyExplored

  /** The state of one cycle search: the colour of every node. `finished` lists the fully
      explored nodes in the order in which they were finished. */
  class CycleSearch<N(==,!new)> {
    const g: Digraph<N>
    var status: map<N, ExplorationStatus>
    ghost var finished: seq<N>

    constructor (g: Digraph<N>)
      ensures this.g == g && finished == []
      ensures status == map n | n in g.nodes :: NotExplored
    {
      this.g := g;
      status := map n | n in g.nodes :: NotExplored;
      finished := [];
    }

    /** `path` is the chain of nodes being explored, outermost first. */
    ghost predicate Valid(path: seq<N>)
      reads this
    {
      ValidColours(g, status, path, finished)
    }

    ghost function Unexplored(): set<N>
      reads this
    {
      UnexploredIn(status)
    }

    /** Colours n as being explored; the chain of nodes being explored grows by n. */
    method Enter(n: N, ghost path: seq<N>)
      requires Valid(path) && n in g.nodes && status[n] == NotExplored
      requires path == [] || (path[|path| - 1], n) in g.edges
      modifies this
      ensures Valid(path + [n]) && finished == old(finished) && Unexplored() < old(Unexplored())
    {
      EnterNode(g, status, path, finished, n);
      status := status[n := BeingExplored];
    }

    /** Colours n as fully explored, once all of its successors are. */
    method Leave(n: N, ghost path: seq<N>)
      requires Valid(path + [n]) && forall y :: (n, y) in g.edges ==> y in finished
      modifies this
      ensures Valid(path) && n in status && status[n] == FullyExplored
      ensures finished == old(finished) + [n] && Unexplored() == old(Unexplored())
    {
      LeaveNode(g, status, path, finished, n);
      status := status[n := FullyExplored];
      finished := finished + [n];
    }

    /** One turn of the loop over the successors of the node being explored last. */
    method ExploreSuccessor(successor: N, ghost path: seq<N>) returns (found: bool)
      requires Valid(path) && path != [] && (path[|path| - 1], successor) in g.edges
      modifies this
      ensures found ==> !Acyclic(g)
      ensures !found ==> Valid(path) && successor in finished
      ensures !found ==> old(finished) <= finished && Unexplored() <= old(Unexplored())
      decreases Unexplored(), 1
    {
      found := false;
      if status[successor] == NotExplored {
        found := CycleDownstreamFromNode(successor, path);
      } else if status[successor] == BeingExplored {
        ClosedBy(g, path, successor);
        found := true;
      }
    }

    method CycleDownstreamFromNode(n: N, ghost path: seq<N>) returns (found: bool)
      requires Valid(path) && n in g.nodes && status[n] == NotExplored
      requires path == [] || (path[|path| - 1], n) in g.edges
      modifies this
      ensures found ==> !Acyclic(g)
      ensures !found ==> Valid(path) && n in finished
      ensures !found ==> old(finished) <= finished && Unexplored() < old(Unexplored())
      decreases Unexplored(), 0
    {
      ghost var unexplored := Unexplored();
      Enter(n, path);
      ghost var here := path + [n];
      var successors := set e | e in g.edges && e.0 == n :: e.1;
      while successors != {}
        invariant Valid(here)
        invariant old(finished) <= finished && Unexplored() < unexplored
        invariant SuccessorsLeft(g, n, successors, finished)
        decreases successors
      {
        var successor :| successor in successors;
        ghost var before := finished;
        found := ExploreSuccessor(successor, here);
        if found {
          return true;
        }
        OneLess(g, n, successors, before, finished, successor);
        successors := successors - {successor};
      }
      Leave(n, path);
      found := false;
    }
  }

  /** The successors of n that are not in `left` are fully explored. */
  ghost predicate SuccessorsLeft<N(!new)>(g: Digraph<N>, n: N, left: set<N>, finished: seq<N>) {
    && (forall y :: (n, y) in g.edges ==> y in left || y in finished)
    && (forall y :: y in left ==> (n, y) in g.edges)
  }

  lemma OneLess<N(!new)>(g: Digraph<N>, n: N, left: set<N>, before: seq<N>, finished: seq<N>, y: N)
    requires SuccessorsLeft(g, n, left, before) && before <= finished && y in finished
    ensures SuccessorsLeft(g, n, left - {y}, finished)
  {
    assert forall x :: x in before ==> x in finished[..|before|];
  }

  ghost predicate SuccessorsEarlier<N(!new)>(g: Digraph<N>, finished: seq<N>) {
    forall i, y :: 0 <= i < |finished| && (finished[i], y) in g.edges ==> y in finished[..i]
  }

  ghost predicate ValidColours<N(!new)>(
      g: Digraph<N>, status: map<N, ExplorationStatus>, path: seq<N>, finished: seq<N>) {
    && WellFormed(g) && status.Keys == g.nodes
    && IsWalk(g, path)
    && (forall x :: x in path <==> x in status && status[x] == BeingExplored)
    && (forall x :: x in finished <==> x in status && status[x] == FullyExplored)
    && NoDuplicates(path) && NoDuplicates(finished)
    && SuccessorsEarlier(g, finished)
  }

  ghost function UnexploredIn<N>(status: map<N, ExplorationStatus>): set<N> {
    set x | x in status && status[x] == NotExplored
  }

  lemma EnterNode<N(!new)>(g: Digraph<N>, status: map<N, ExplorationStatus>, path: seq<N>, finished: seq<N>, n: N)
    requires ValidColours(g, status, path, finished)
    requires n in g.nodes && status[n] == NotExplored
    requires path == [] || (path[|path| - 1], n) in g.edges
    ensures ValidColours(g, status[n := BeingExplored], path + [n], finished)
    ensures UnexploredIn(status[n := BeingExplored]) < UnexploredIn(status)
  {
    var here := path + [n];
    forall i | 0 <= i < |here| - 1 ensures (here[i], here[i + 1]) in g.edges {
      if i < |path| - 1 { assert here[i] == path[i] && here[i + 1] == path[i + 1]; }
    }
    assert n in UnexploredIn(status) && n !in UnexploredIn(status[n := BeingExplored]);
  }

  lemma LeaveNode<N(!new)>(g: Digraph<N>, status: map<N, ExplorationStatus>, path: seq<N>, finished: seq<N>, n: N)
    requires ValidColours(g, status, path + [n], finished)
    requires forall y :: (n, y) in g.edges ==> y in finished
    ensures ValidColours(g, status[n := FullyExplored], path, finished + [n])
    ensures UnexploredIn(status[n := FullyExplored]) == UnexploredIn(status)
  {
    var here, done := path + [n], finished + [n];
    assert here[|path|] == n;
    assert n in here;
    forall i | 0 <= i < |path| - 1 ensures (path[i], path[i + 1]) in g.edges {
      assert here[i] == path[i] && here[i + 1] == path[i + 1];
    }
    assert NoDuplicates(path) && n !in path by {
      forall i | 0 <= i < |path| ensures path[i] == here[i] && path[i] != n {}
    }
    assert forall x :: x in here <==> x in path || x == n;
    forall i, y | 0 <= i < |done| && (done[i], y) in g.edges ensures y in done[..i] {
      if i < |finished| {
        assert done[i] == finished[i] && done[..i] == finished[..i];
      } else {
        assert done[..i] == finished;
      }
    }
  }

  lemma ClosedBy<N(!new)>(g: Digraph<N>, here: seq<N>, successor: N)
    requires IsWalk(g, here) && here != [] && successor in here
    requires (here[|here| - 1], successor) in g.edges
    ensures !Acyclic(g)
  {
    var k :| 0 <= k < |here| && here[k] == successor;
    var w := here[k..] + [successor];
    forall i | 0 <= i < |w| - 1 ensures (w[i], w[i + 1]) in g.edges {
      if i < |w| - 2 { assert w[i] == here[k + i] && w[i + 1] == here[k + i + 1]; }
    }
    assert WalkBetween(g, w, successor, successor);
    assert Reaches(g, successor, successor);
  }

  /** The cycle test answers exactly the question it is asked. */
  method IsAcyclic<N(==,!new)>(g: Digraph<N>) returns (acyclic: bool)
    requires WellFormed(g)
    ensures acyclic <==> Acyclic(g)
  {
    var search := new CycleSearch(g);
    var nodes := g.nodes;
    while nodes != {}
      invariant search.g == g && search.Valid([])
      invariant nodes <= g.nodes
      invariant forall x :: x in g.nodes ==> x in nodes || x in search.finished
      decreases nodes
    {
      var node :| node in nodes;
      if search.status[node] == NotExplored {
        var found := search.CycleDownstreamFromNode(node, []);
        if found {
          return false;
        }
      }
      nodes := nodes - {node};
    }
    FinishedIsAcyclic(g, search.finished);
    acyclic := true;
  }

  lemma FinishedIsAcyclic<N(!new)>(g: Digraph<N>, finished: seq<N>)
    requires WellFormed(g) && NoDuplicates(finished)
    requires forall x :: x in g.nodes ==> x in finished
    requires SuccessorsEarlier(g, finished)
    ensures Acyclic(g)
  {
    var rank: map<N, int> := map x | x in finished :: 0 - (PositionOf(finished, x) as int);
    forall a, b | (a, b) in g.edges ensures a in rank && b in rank && rank[a] < rank[b] {
      assert a in finished && b in finished;
      var i := PositionOf(finished, a);
      assert (finished[i], b) in g.edges;
      assert b in finished[..i];
      var j :| 0 <= j < i && finished[j] == b;
      assert PositionOf(finished, b) == j;
    }
    RankedIsAcyclic(g, rank);
  }

  ghost function PositionOf<N(!new)>(s: seq<N>, x: N): (i: nat)
    requires x in s
    ensures i < |s| && s[i] == x
  {
    if s[0] == x then 0 else 1 + PositionOf(s[1..], x)
  }

  // ------------------------------------------------- initial and terminal nodes

  function InitialNodes<N(==)>(g: Digraph<N>): set<N> {
    g.nodes - (set e | e in g.edges :: e.1)
  }

  function TerminalNodes<N(==)>(g: Digraph<N>): set<N> {
    g.nodes - (set e | e in g.edges :: e.0)
  }

  ghost predicate IsTwoTerminal<N(!new)>(g: Digraph<N>, source: N, sink: N) {
    Acyclic(g) && InitialNodes(g) == {source} && TerminalNodes(g) == {sink}
  }

  method IsTwoTerminalDag<N(==,!new)>(g: Digraph<N>) returns (yes: bool)
    requires WellFormed(g)
    ensures yes <==> exists s, t :: IsTwoTerminal(g, s, t)
  {
    var acyclic := IsAcyclic(g);
    yes := acyclic && |InitialNodes(g)| == 1 && |TerminalNodes(g)| == 1;
    if yes {
      var s :| s in InitialNodes(g);
      var t :| t in TerminalNodes(g);
      SingletonSet(InitialNodes(g), s);
      SingletonSet(TerminalNodes(g), t);
      assert IsTwoTerminal(g, s, t);
    } else if s, t :| IsTwoTerminal(g, s, t) {
      assert false;
    }
  }

  lemma SingletonSet<T>(s: set<T>, x: T)
    requires |s| == 1 && x in s
    ensures s == {x}
  {
    assert |s - {x}| == 0;
  }

  function Flipped<N(==)>(g: Digraph<N>): Digraph<N> {
    Digraph(g.nodes, set e | e in g.edges :: (e.1, e.0))
  }

  lemma FlippedReaches<N(!new)>(g: Digraph<N>, a: N, b: N)
    requires Reaches(Flipped(g), a, b)
    ensures Reaches(g, b, a)
  {
    var w :| WalkBetween(Flipped(g), w, a, b);
    var v := seq(|w|, i requires 0 <= i < |w| => w[|w| - 1 - i]);
    forall i | 0 <= i < |v| - 1 ensures (v[i], v[i + 1]) in g.edges {
      assert (w[|w| - 2 - i], w[|w| - 2 - i + 1]) in Flipped(g).edges;
    }
    assert WalkBetween(g, v, b, a);
  }

  /** In an acyclic graph with a single initial node, that node reaches every other one. */
  lemma InitialReachesAll<N(!new)>(g: Digraph<N>, source: N, n: N)
    requires WellFormed(g) && Acyclic(g) && InitialNodes(g) == {source} && n in g.nodes
    ensures n == source || Reaches(g, source, n)
  {
    var S := set x | x in g.nodes && x != source && !Reaches(g, source, x);
    if n in S {
      var x := MinimalElement(g, S);
      assert x !in InitialNodes(g);
      var e :| e in g.edges && e.1 == x;
      var y := e.0;
      assert (y, x) in g.edges && y !in S;
      EdgeReaches(g, y, x);
      if y != source {
        ReachesTrans(g, source, y, x);
      }
      assert false;
    }
  }

  lemma FlippedAcyclic<N(!new)>(g: Digraph<N>)
    requires Acyclic(g)
    ensures Acyclic(Flipped(g))
  {
    forall n ensures !Reaches(Flipped(g), n, n) {
      if Reaches(Flipped(g), n, n) { FlippedReaches(g, n, n); }
    }
  }

  /** Every node of a two-terminal graph lies on some path from its source to its sink. */
  lemma EveryNodeOnAPath<N(!new)>(g: Digraph<N>, source: N, sink: N, n: N)
    requires WellFormed(g) && IsTwoTerminal(g, source, sink) && n in g.nodes
    ensures n == source || Reaches(g, source, n)
    ensures n == sink || Reaches(g, n, sink)
  {
    InitialReachesAll(g, source, n);
    var f := Flipped(g);
    FlippedAcyclic(g);
    forall a, b | (a, b) in f.edges ensures a in f.nodes && b in f.nodes {
      assert (b, a) in g.edges;
    }
    assert (set e | e in f.edges :: e.1) == (set e | e in g.edges :: e.0) by {
      forall e | e in g.edges ensures e.0 in (set d | d in f.edges :: d.1) {
        assert (e.1, e.0) in f.edges;
      }
    }
    InitialReachesAll(f, sink, n);
    if n != sink { FlippedReaches(g, sink, n); }
  }

  // ------------------------------------------------ the topological ordering

  method SequenceOfSet<T(==,!new)>(s: set<T>) returns (r: seq<T>)
    ensures NoDuplicates(r) && forall x :: x in r <==> x in s
  {
    var todo := s;
    r := [];
    while todo != {}
      invariant NoDuplicates(r) && todo <= s
      invariant forall x :: x in r <==> x in s && x !in todo
      decreases todo
    {
      var x :| x in todo;
      r := r + [x];
      todo := todo - {x};
    }
  }

  /** Moves every destination to the top of the stack, as advancing the iterator does. */
  method PushOnTop<N(==,!new)>(stack: seq<N>, destinations: seq<N>) returns (r: seq<N>)
    requires NoDuplicates(stack)
    ensures NoDuplicates(r)
    ensures forall x :: x in r <==> x in stack || x in destinations
  {
    r := stack;
    for k := 0 to |destinations|
      invariant NoDuplicates(r)
      invariant forall x :: x in r <==> x in stack || x in destinations[..k]
    {
      var dst := destinations[k];
      if dst in r {
        r := Erase(r, dst) + [dst];
      } else {
        r := r + [dst];
      }
      assert destinations[..k + 1] == destinations[..k] + [dst];
    }
    assert destinations[..|destinations|] == destinations;
  }

  function Erase<N(==,!new)>(s: seq<N>, x: N): (r: seq<N>)
    requires x in s && NoDuplicates(s)
    ensures NoDuplicates(r)
    ensures forall y :: y in r <==> y in s && y != x
  {
    if s[0] == x then
      s[1..]
    else
      assert NoDuplicates(s[1..]);
      assert s[0] !in s[1..];
      assert s == [s[0]] + s[1..];
      [s[0]] + Erase(s[1..], x)
  }

  lemma KeepNode<N(!new)>(g: Digraph<N>, order: seq<N>, top: N)
    requires NoDuplicates(order) && PredecessorsEarlier(g, order) && top !in order
    requires forall y :: (y, top) in g.edges ==> y in order
    ensures NoDuplicates(order + [top]) && PredecessorsEarlier(g, order + [top])
  {
    var next := order + [top];
    forall i, y | 0 <= i < |next| && (y, next[i]) in g.edges ensures y in next[..i] {
      if i < |order| { assert next[..i] == order[..i]; } else { assert next[..i] == order; }
    }
  }

  ghost predicate AllPredecessorsIn<N(!new)>(g: Digraph<N>, order: seq<N>, x: N) {
    forall y :: (y, x) in g.edges ==> y in order
  }

  /** What the traversal keeps: the stack holds only nodes not yet kept, and every node that
      is ready to be kept is on it. */
  ghost predicate TraversalInvariant<N(!new)>(g: Digraph<N>, order: seq<N>, stack: seq<N>) {
    && NoDuplicates(order) && PredecessorsEarlier(g, order) && NoDuplicates(stack)
    && (forall x :: x in order ==> x in g.nodes)
    && (forall x :: x in stack ==> x in g.nodes && x !in order)
    && (forall x :: x in g.nodes && x !in order && AllPredecessorsIn(g, order, x) ==> x in stack)
  }

  lemma TraversalStarts<N(!new)>(g: Digraph<N>, stack: seq<N>)
    requires WellFormed(g)
    requires NoDuplicates(stack) && forall x :: x in stack <==> x in InitialNodes(g)
    ensures TraversalInvariant(g, [], stack)
  {
    forall x | x in g.nodes && AllPredecessorsIn(g, [], x) ensures x in stack {
      forall e | e in g.edges ensures e.1 != x {
        assert (e.0, e.1) in g.edges;
      }
    }
  }

  lemma TraversalSkips<N(!new)>(g: Digraph<N>, order: seq<N>, rest: seq<N>, top: N)
    requires TraversalInvariant(g, order, rest + [top])
    requires !AllPredecessorsIn(g, order, top)
    ensures TraversalInvariant(g, order, rest)
  {
    var stack := rest + [top];
    assert forall i :: 0 <= i < |rest| ==> rest[i] == stack[i];
    assert forall x :: x in stack <==> x in rest || x == top;
  }

  lemma TraversalKeeps<N(!new)>(g: Digraph<N>, order: seq<N>, rest: seq<N>, top: N, stack: seq<N>)
    requires WellFormed(g) && Acyclic(g)
    requires TraversalInvariant(g, order, rest + [top]) && AllPredecessorsIn(g, order, top)
    requires NoDuplicates(stack) && forall x :: x in stack <==> x in rest || (top, x) in g.edges
    ensures TraversalInvariant(g, order + [top], stack)
  {
    var before := rest + [top];
    assert top in before;
    assert forall x :: x in before <==> x in rest || x == top;
    assert top !in rest by {
      forall i | 0 <= i < |rest| ensures rest[i] != top { assert rest[i] == before[i] && before[|rest|] == top; }
    }
    KeepNode(g, order, top);
    forall x | x in stack ensures x in g.nodes && x !in order + [top] {
      if (top, x) in g.edges {
        if x == top { EdgeReaches(g, top, top); }
      }
    }
    forall x | x in g.nodes && x !in order + [top] && AllPredecessorsIn(g, order + [top], x) ensures x in stack {
      if (top, x) !in g.edges {
        assert AllPredecessorsIn(g, order, x);
      }
    }
  }

  /** The ordering walks a stack of candidates depth first, keeping a node only once all of
      its predecessors have been kept and dropping it otherwise. Every node of an acyclic
      graph is nevertheless kept exactly once, after all of its predecessors. */
  method GetTopologicalOrdering<N(==,!new)>(g: Digraph<N>) returns (order: seq<N>)
    requires WellFormed(g) && Acyclic(g)
    ensures IsTopologicalOrdering(g, order)
  {
    order := [];
    var seen: set<N> := {};
    var stack := SequenceOfSet(InitialNodes(g));
    TraversalStarts(g, stack);
    while stack != []
      invariant TraversalInvariant(g, order, stack)
      invariant forall x :: x in order <==> x in seen
      decreases g.nodes - seen, |stack|
    {
      var top := stack[|stack| - 1];
      var rest := stack[..|stack| - 1];
      assert stack == rest + [top] && top in stack;
      var predecessors := set e | e in g.edges && e.1 == top :: e.0;
      assert AllPredecessorsIn(g, order, top) <==> predecessors <= seen by {
        assert forall y :: y in predecessors <==> (y, top) in g.edges;
      }
      if predecessors <= seen {
        var destinations := SequenceOfSet(set e | e in g.edges && e.0 == top :: e.1);
        assert forall x :: x in destinations <==> (top, x) in g.edges;
        stack := PushOnTop(rest, destinations);
        TraversalKeeps(g, order, rest, top, stack);
        order := order + [top];
        seen := seen + {top};
      } else {
        TraversalSkips(g, order, rest, top);
        stack := rest;
      }
    }
    TraversalEnds(g, order);
  }

  lemma TraversalEnds<N(!new)>(g: Digraph<N>, order: seq<N>)
    requires WellFormed(g) && Acyclic(g) && TraversalInvariant(g, order, [])
    ensures IsTopologicalOrdering(g, order)
  {
    var left := set x | x in g.nodes && x !in order;
    if left != {} {
      var x := MinimalElement(g, left);
      forall y | (y, x) in g.edges ensures y in order {
        assert y !in left;
      }
      assert AllPredecessorsIn(g, order, x);
      assert false;
    }
    forall x | x in g.nodes ensures x in order {
      assert x !in left;
    }
    CompleteOrdering(g, order);
  }
}
