/** The random two-terminal benchmark graph, for every outcome of its sampler. */
module RandomDags {
  import opened Sequences
  import opened Digraphs
  import opened AdjacencyGraphs

  /** The value of an unsigned 64-bit number that is stored in a signed 32-bit one. */
  function ToInt32(x: nat): int {
    var low := x % 0x1_0000_0000;
    if low < 0x8000_0000 then low else low - 0x1_0000_0000
  }

  /** The first column that row i looks at. */
  function FirstColumn(i: nat, step: nat): int {
    ToInt32((i + step + 1) % 0x1_0000_0000_0000_0000)
  }

  /** Row i looks at column j of count columns. A negative first column is, compared with the unsigned
      count, larger than all columns. */
  predicate LooksAt(i: nat, j: int, step: nat, count: nat) {
    0 <= FirstColumn(i, step) <= j < count
  }

  /** The loop of row i starts from the signed 32-bit number that is congruent to i + step + 1. */
  lemma ColumnsOfRow(i: nat, j: int, step: nat, count: nat, first: int)
    requires -0x8000_0000 <= first < 0x8000_0000 && (i + step + 1 - first) % 0x1_0000_0000 == 0
    ensures LooksAt(i, j, step, count) <==> 0 <= first <= j < count
  {
    var wide := (i + step + 1) % 0x1_0000_0000_0000_0000;
    assert (wide - first) % 0x1_0000_0000 == 0;
  }

  /** While that number fits, row i looks at exactly the columns more than step to its right. */
  lemma ColumnsWithoutWrap(i: nat, j: int, step: nat, count: nat)
    requires i + step + 1 < 0x8000_0000
    ensures LooksAt(i, j, step, count) <==> i + step < j < count
  {
    ColumnsOfRow(i, j, step, count, i + step + 1);
  }

  /** One row of the double loop: the edges sampled out of node i. */
  method SampleRow(g: AdjacencyDiGraph, n: seq<Node>, i: nat, step: nat, sampler: (nat, nat) -> bool)
    requires g.Valid() && i < |n| && forall j :: 0 <= j < |n| ==> n[j] in g.Graph().nodes
    modifies g
    ensures g.Valid() && g.Graph().nodes == old(g.Graph().nodes)
    ensures forall a, b :: (a, b) in g.Graph().edges <==>
      (a, b) in old(g.Graph().edges) || (a == n[i] && exists j ::
        LooksAt(i, j, step, |n|) && n[j] == b && sampler(i, j))
  {
    var j := FirstColumn(i, step);
    while 0 <= j < |n|
      invariant FirstColumn(i, step) <= j && (0 <= FirstColumn(i, step) || j == FirstColumn(i, step))
      invariant g.Valid() && g.Graph().nodes == old(g.Graph().nodes)
      invariant forall a, b :: (a, b) in g.Graph().edges <==>
        || (a, b) in old(g.Graph().edges)
        || (a == n[i] && exists k :: LooksAt(i, k, step, |n|) && k < j && n[k] == b && sampler(i, k))
      decreases |n| - j
    {
      if sampler(i, j) {
        g.AddEdge(n[i], n[j]);
      }
      assert LooksAt(i, j, step, |n|);
      j := j + 1;
    }
  }

  /** The inner graph: node i feeds node j exactly when row i looks at column j and the sampler says
      so. */
  ghost predicate IsSampled(g: Digraph<Node>, n: seq<Node>, step: nat, sampler: (nat, nat) -> bool, rows: nat) {
    forall a, b :: (a, b) in g.edges <==>
      exists i, j :: 0 <= i < rows && LooksAt(i, j, step, |n|) && i < |n| && n[i] == a && n[j] == b && sampler(i, j)
  }

  method SampleInner(g: AdjacencyDiGraph, count: nat, step: nat, sampler: (nat, nat) -> bool) returns (n: seq<Node>)
    requires g.Valid() && g.Graph() == Digraph({}, {})
    modifies g, g.source
    ensures g.Valid() && |n| == count && NoDuplicates(n) && g.Graph().nodes == ElementsOf(n)
    ensures IsSampled(g.Graph(), n, step, sampler, count)
  {
    n := g.AddNodes(count);
    for i := 0 to |n|
      invariant g.Valid() && g.Graph().nodes == ElementsOf(n)
      invariant IsSampled(g.Graph(), n, step, sampler, i)
    {
      assert forall j :: 0 <= j < |n| ==> n[j] in ElementsOf(n);
      ghost var before := g.Graph();
      SampleRow(g, n, i, step, sampler);
      SampledNext(before, g.Graph(), n, step, sampler, i);
    }
  }

  lemma SampledNext(
      g: Digraph<Node>, grown: Digraph<Node>, n: seq<Node>, step: nat, sampler: (nat, nat) -> bool, i: nat)
    requires i < |n| && IsSampled(g, n, step, sampler, i)
    requires forall a, b :: (a, b) in grown.edges <==>
      (a, b) in g.edges || (a == n[i] && exists j :: LooksAt(i, j, step, |n|) && n[j] == b && sampler(i, j))
    ensures IsSampled(grown, n, step, sampler, i + 1)
  {
  }

  // ------------------------------------------------------------------- which steps fit

  /** No row's first column wraps around to a node that the row has passed. */
  predicate StepFits(count: nat, step: nat) {
    count + step % 0x1_0000_0000 < 0x1_0000_0000
  }

  lemma LowPart(i: nat, step: nat)
    ensures (i + step + 1) % 0x1_0000_0000_0000_0000 % 0x1_0000_0000
         == (i + 1 + step % 0x1_0000_0000) % 0x1_0000_0000
  {
  }

  /** Then rows look only at later nodes. */
  lemma FittingStepLooksAhead(i: nat, j: int, step: nat, count: nat)
    requires StepFits(count, step) && i < count && LooksAt(i, j, step, count)
    ensures i < j
  {
    LowPart(i, step);
  }

  /** Otherwise the last row looks at its own node. */
  lemma UnfittingStepLooksBack(step: nat, count: nat)
    requires !StepFits(count, step) && 0 < count < 0x8000_0000
    ensures LooksAt(count - 1, count - 1, step, count)
  {
    LowPart(count - 1, step);
  }

  lemma SampledIsAcyclic(g: Digraph<Node>, n: seq<Node>, step: nat, sampler: (nat, nat) -> bool)
    requires NoDuplicates(n) && IsSampled(g, n, step, sampler, |n|) && StepFits(|n|, step)
    ensures Acyclic(g)
  {
    var rank: map<Node, int> := map k | k in n :: IndexIn(n, k);
    forall a, b | (a, b) in g.edges ensures a in rank && b in rank && rank[a] < rank[b] {
      var i, j :| 0 <= i < |n| && LooksAt(i, j, step, |n|) && n[i] == a && n[j] == b && sampler(i, j);
      FittingStepLooksAhead(i, j, step, |n|);
    }
    RankedIsAcyclic(g, rank);
  }

  ghost function IndexIn(n: seq<Node>, x: Node): (k: nat)
    requires NoDuplicates(n) && x in n
    ensures k < |n| && n[k] == x
  {
    var k: nat :| k < |n| && n[k] == x;
    k
  }

  /** The inner graph has no cycle, whatever the sampler says, exactly when the step fits. */
  lemma AcyclicForEverySampler(n: seq<Node>, step: nat)
    requires NoDuplicates(n) && 0 < |n| < 0x8000_0000
    ensures StepFits(|n|, step) <==> forall g, sampler :: IsSampled(g, n, step, sampler, |n|) ==> Acyclic(g)
  {
    if StepFits(|n|, step) {
      forall g, sampler | IsSampled(g, n, step, sampler, |n|) ensures Acyclic(g) {
        SampledIsAcyclic(g, n, step, sampler);
      }
    } else {
      var sampler := (i: nat, j: nat) => true;
      var g := EverythingSampled(n, step);
      UnfittingStepLooksBack(step, |n|);
      var last := n[|n| - 1];
      assert (last, last) in g.edges;
      EdgeReaches(g, last, last);
      assert IsSampled(g, n, step, sampler, |n|);
    }
  }

  lemma EverythingSampled(n: seq<Node>, step: nat) returns (g: Digraph<Node>)
    ensures IsSampled(g, n, step, (i: nat, j: nat) => true, |n|)
    ensures |n| > 0 && LooksAt(|n| - 1, |n| - 1, step, |n|) ==> (n[|n| - 1], n[|n| - 1]) in g.edges
  {
    var pairs := set i: nat, j: nat | i < |n| && j < |n| && LooksAt(i, j, step, |n|) :: (n[i], n[j]);
    g := Digraph(ElementsOf(n), pairs);
  }

  // ---------------------------------------------------------------------- the generator

  /** Whatever the sampler says, the closing assertion (its value is `ok`) holds exactly when there
      are at least three nodes and the inner graph has no cycle, which is certain when the step
      fits. */
  method MakeTwoTerminalRandomDag(nodes: NodeSource, numNodes: nat, step: nat, sampler: (nat, nat) -> bool)
    returns (g: AdjacencyDiGraph, source: Node, sink: Node, ok: bool, ghost inner: Digraph<Node>, ghost n: seq<Node>)
    requires 2 <= numNodes < 0x8000_0002
    modifies nodes
    ensures fresh(g) && g.Valid() && |n| == numNodes - 2 && NoDuplicates(n) && inner.nodes == ElementsOf(n)
    ensures IsSampled(inner, n, step, sampler, |n|) && g.Graph() == Crowned(inner, source, sink)
    ensures ok <==> numNodes >= 3 && Acyclic(inner)
    ensures StepFits(numNodes - 2, step) ==> Acyclic(inner)
    ensures ok ==> IsTwoTerminal(g.Graph(), source, sink)
  {
    g := new AdjacencyDiGraph(nodes);
    var all := SampleInner(g, numNodes - 2, step, sampler);
    n, inner := all, g.Graph();
    g.IsWellFormed();
    if StepFits(numNodes - 2, step) { SampledIsAcyclic(inner, n, step, sampler); }
    var sinks, sources := TerminalNodes(g.Graph()), InitialNodes(g.Graph());
    sink := g.AddNode();
    source := g.AddNode();
    ConnectSource(g, source, sources);
    ConnectSink(g, sinks, sink);
    assert g.Graph() == Crowned(inner, source, sink);
    CrownedExactly(inner, source, sink);
    NotEmptyFrom(n);
    g.IsWellFormed();
    ok := IsTwoTerminalDag(g.Graph());
  }

  /** The source and sink make a graph two-terminal exactly when it has nodes and no cycle. */
  lemma CrownedExactly(g: Digraph<Node>, source: Node, sink: Node)
    requires WellFormed(g) && source !in g.nodes && sink !in g.nodes && source != sink
    ensures g.nodes != {} && Acyclic(g) <==> IsTwoTerminal(Crowned(g, source, sink), source, sink)
    ensures (exists s, t :: IsTwoTerminal(Crowned(g, source, sink), s, t)) <==> g.nodes != {} && Acyclic(g)
  {
    if Acyclic(g) {
      CrownedIsTwoTerminal(g, source, sink);
    } else {
      CycleStays(g, Crowned(g, source, sink));
    }
  }

  lemma CycleStays(g: Digraph<Node>, c: Digraph<Node>)
    requires g.edges <= c.edges && !Acyclic(g)
    ensures !Acyclic(c)
  {
    var x :| Reaches(g, x, x);
    var w :| WalkBetween(g, w, x, x);
    assert WalkBetween(c, w, x, x);
    assert Reaches(c, x, x);
  }

  lemma NotEmptyFrom(n: seq<Node>)
    ensures ElementsOf(n) == {} <==> |n| == 0
  {
    if |n| > 0 { assert n[0] in ElementsOf(n); }
  }
}
