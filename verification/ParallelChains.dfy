/** The benchmark graph of parallel chains between a source and a sink. */
module ParallelChains {
  import opened Options
  import opened Sequences
  import opened Digraphs
  import opened AdjacencyGraphs

  /** All nodes of all chains differ. */
  ghost predicate Distinct(chains: seq<seq<Node>>) {
    forall i, j, k, l ::
      (0 <= i < |chains| && 0 <= j < |chains[i]| && 0 <= k < |chains| && 0 <= l < |chains[k]| &&
        chains[i][j] == chains[k][l])
      ==> i == k && j == l
  }

  /** The chains, and nothing but the chains. */
  ghost predicate AreChains(g: Digraph<Node>, chains: seq<seq<Node>>, length: nat) {
    && Distinct(chains) && WellFormed(g)
    && (forall i :: 0 <= i < |chains| ==> |chains[i]| == length)
    && (forall x :: x in g.nodes <==> exists i, j :: 0 <= i < |chains| && 0 <= j < length && chains[i][j] == x)
    && (forall a, b :: (a, b) in g.edges <==> exists i, j ::
      0 <= i < |chains| && 0 <= j < length - 1 && chains[i][j] == a && chains[i][j + 1] == b)
  }

  /** A depth that every edge increases by exactly one. */
  ghost predicate UnitDepth(g: Digraph<Node>, depth: map<Node, int>) {
    forall a, b :: (a, b) in g.edges ==> a in depth && b in depth && depth[b] == depth[a] + 1
  }

  /** Then all walks between the same two nodes are equally long. */
  lemma {:induction false} WalkHasDepth(g: Digraph<Node>, depth: map<Node, int>, w: seq<Node>)
    requires UnitDepth(g, depth) && |w| >= 2 && IsWalk(g, w)
    ensures w[0] in depth && w[|w| - 1] in depth && depth[w[|w| - 1]] == depth[w[0]] + |w| - 1
  {
    assert (w[0], w[1]) in g.edges;
    if |w| > 2 {
      assert IsWalk(g, w[1..]);
      WalkHasDepth(g, depth, w[1..]);
    }
  }

  /** The edges of g, and those between neighbours in the first k + 1 nodes of the chain. */
  ghost predicate HasPath(g: Digraph<Node>, before: Digraph<Node>, chain: seq<Node>, k: int) {
    forall a, b :: (a, b) in g.edges <==>
      (a, b) in before.edges || exists j :: 0 <= j < k && j + 1 < |chain| && chain[j] == a && chain[j + 1] == b
  }

  method ConnectPath(g: AdjacencyDiGraph, chain: seq<Node>)
    requires g.Valid() && |chain| >= 1 && forall x :: x in chain ==> x in g.Graph().nodes
    modifies g
    ensures g.Valid() && g.Graph().nodes == old(g.Graph().nodes)
    ensures HasPath(g.Graph(), old(g.Graph()), chain, |chain| - 1)
  {
    for j := 0 to |chain| - 1
      invariant g.Valid() && g.Graph().nodes == old(g.Graph().nodes) && HasPath(g.Graph(), old(g.Graph()), chain, j)
    {
      assert chain[j] in chain && chain[j + 1] in chain;
      g.AddEdge(chain[j], chain[j + 1]);
    }
  }

  /** Adds one chain. */
  method AddChain(g: AdjacencyDiGraph, length: nat, ghost depth: map<Node, int>)
    returns (chain: seq<Node>, ghost depth': map<Node, int>)
    requires g.Valid() && length >= 1 && UnitDepth(g.Graph(), depth) && depth.Keys == g.Graph().nodes
    modifies g, g.source
    ensures g.Valid() && |chain| == length && NoDuplicates(chain) && UnitDepth(g.Graph(), depth')
    ensures depth'.Keys == g.Graph().nodes
    ensures ElementsOf(chain) !! old(g.Graph().nodes) && g.Graph().nodes == old(g.Graph().nodes) + ElementsOf(chain)
    ensures HasPath(g.Graph(), old(g.Graph()), chain, length - 1)
    ensures (forall x :: x in depth ==> depth'[x] == depth[x])
    ensures forall j :: 0 <= j < length ==> chain[j] in depth' && depth'[chain[j]] == j
  {
    g.IsWellFormed();
    ghost var before, first := g.Graph(), g.source.next;
    chain := g.AddNodes(length);
    ConnectPath(g, chain);
    depth' := ChainDepths(before, g.Graph(), chain, depth, first);
  }

  lemma ChainDepths(g: Digraph<Node>, grown: Digraph<Node>, chain: seq<Node>, depth: map<Node, int>, first: nat)
    returns (depth': map<Node, int>)
    requires UnitDepth(g, depth) && depth.Keys == g.nodes && forall x :: x in g.nodes ==> x < first
    requires (forall j :: 0 <= j < |chain| ==> chain[j] == first + j) && grown.nodes == g.nodes + ElementsOf(chain)
    requires HasPath(grown, g, chain, |chain| - 1)
    ensures UnitDepth(grown, depth') && depth'.Keys == grown.nodes
    ensures (forall x :: x in depth ==> depth'[x] == depth[x])
    ensures forall j :: 0 <= j < |chain| ==> chain[j] in depth' && depth'[chain[j]] == j
  {
    depth' := map x | x in grown.nodes :: if x < first && x in depth then depth[x] else x - first;
    assert forall j :: 0 <= j < |chain| ==> chain[j] in ElementsOf(chain);
  }

  lemma ChainAppended(g: Digraph<Node>, grown: Digraph<Node>, chains: seq<seq<Node>>, chain: seq<Node>, length: nat)
    requires AreChains(g, chains, length) && |chain| == length && NoDuplicates(chain) && WellFormed(grown)
    requires ElementsOf(chain) !! g.nodes && grown.nodes == g.nodes + ElementsOf(chain)
    requires HasPath(grown, g, chain, length - 1)
    ensures AreChains(grown, chains + [chain], length)
  {
    var all := chains + [chain];
    assert forall i :: 0 <= i < |chains| ==> all[i] == chains[i];
    assert all[|chains|] == chain;
    forall i, j, k, l | 0 <= i < |all| && 0 <= j < |all[i]| && 0 <= k < |all| && 0 <= l < |all[k]| &&
      all[i][j] == all[k][l]
      ensures i == k && j == l
    {
      if i < |chains| { assert chains[i][j] in g.nodes; } else { assert chain[j] in ElementsOf(chain); }
      if k < |chains| { assert chains[k][l] in g.nodes; } else { assert chain[l] in ElementsOf(chain); }
    }
    forall x ensures x in grown.nodes <==> exists i, j :: 0 <= i < |all| && 0 <= j < length && all[i][j] == x {
      ChainNodes(g, chains, chain, length, x);
    }
    forall a: Node, b: Node
      ensures (a, b) in grown.edges <==> exists i, j ::
        0 <= i < |all| && 0 <= j < length - 1 && all[i][j] == a && all[i][j + 1] == b
    {
      ChainEdges(g, chains, chain, length, a, b);
    }
  }

  lemma ChainNodes(g: Digraph<Node>, chains: seq<seq<Node>>, chain: seq<Node>, length: nat, x: Node)
    requires AreChains(g, chains, length) && |chain| == length
    ensures var all := chains + [chain];
      (x in g.nodes || x in chain) <==> exists i, j :: 0 <= i < |all| && 0 <= j < length && all[i][j] == x
  {
    var all := chains + [chain];
    if x in g.nodes {
      var i, j :| 0 <= i < |chains| && 0 <= j < length && chains[i][j] == x;
      assert all[i][j] == x;
    } else if x in chain {
      var j :| 0 <= j < length && chain[j] == x;
      assert all[|chains|][j] == x;
    }
  }

  lemma ChainEdges(g: Digraph<Node>, chains: seq<seq<Node>>, chain: seq<Node>, length: nat, a: Node, b: Node)
    requires AreChains(g, chains, length) && |chain| == length
    ensures var all := chains + [chain];
      ((a, b) in g.edges || exists j :: 0 <= j < length - 1 && chain[j] == a && chain[j + 1] == b)
      <==> exists i, j :: 0 <= i < |all| && 0 <= j < length - 1 && all[i][j] == a && all[i][j + 1] == b
  {
    var all := chains + [chain];
    if (a, b) in g.edges {
      var i, j :| 0 <= i < |chains| && 0 <= j < length - 1 && chains[i][j] == a && chains[i][j + 1] == b;
      assert all[i][j] == a && all[i][j + 1] == b;
    } else if j :| 0 <= j < length - 1 && chain[j] == a && chain[j + 1] == b {
      assert all[|chains|][j] == a && all[|chains|][j + 1] == b;
    }
  }

  function Fronts(chains: seq<seq<Node>>): set<Node> {
    set c | c in chains && |c| > 0 :: c[0]
  }

  function Backs(chains: seq<seq<Node>>): set<Node> {
    set c | c in chains && |c| > 0 :: c[|c| - 1]
  }

  /** The chains begin and end where the source and the sink are attached. */
  lemma ChainEnds(g: Digraph<Node>, chains: seq<seq<Node>>, length: nat)
    requires AreChains(g, chains, length) && length >= 1
    ensures forall c :: c in chains ==> |c| == length
    ensures InitialNodes(g) == Fronts(chains) && TerminalNodes(g) == Backs(chains)
  {
    forall x | x in g.nodes
      ensures x in InitialNodes(g) <==> x in Fronts(chains)
      ensures x in TerminalNodes(g) <==> x in Backs(chains)
    {
      var i, j :| 0 <= i < |chains| && 0 <= j < length && chains[i][j] == x;
      assert chains[i] in chains;
      InitialInChain(g, chains, length, i, j);
      TerminalInChain(g, chains, length, i, j);
    }
    forall x | x in Fronts(chains) || x in Backs(chains) ensures x in g.nodes {
      var c :| c in chains && (c[0] == x || c[|c| - 1] == x);
      var i :| 0 <= i < |chains| && chains[i] == c;
      assert chains[i][0] in g.nodes && chains[i][length - 1] in g.nodes;
    }
  }

  lemma InitialInChain(g: Digraph<Node>, chains: seq<seq<Node>>, length: nat, i: nat, j: nat)
    requires AreChains(g, chains, length) && i < |chains| && j < length && forall c :: c in chains ==> |c| == length
    ensures chains[i][j] in InitialNodes(g) <==> j == 0
    ensures chains[i][j] in Fronts(chains) <==> j == 0
  {
    var x := chains[i][j];
    assert chains[i] in chains && x in g.nodes;
    if j > 0 {
      assert chains[i][j - 1] == chains[i][j - 1] && chains[i][j - 1 + 1] == x;
      assert (chains[i][j - 1], x) in g.edges && (chains[i][j - 1], x).1 == x;
    } else {
      forall e | e in g.edges ensures e.1 != x {
        assert (e.0, e.1) in g.edges;
        var k, l :| 0 <= k < |chains| && 0 <= l < length - 1 && chains[k][l] == e.0 && chains[k][l + 1] == e.1;
      }
    }
    if x in Fronts(chains) {
      var c :| c in chains && c[0] == x;
      var k :| 0 <= k < |chains| && chains[k] == c;
      assert chains[k][0] == chains[i][j];
    }
  }

  lemma TerminalInChain(g: Digraph<Node>, chains: seq<seq<Node>>, length: nat, i: nat, j: nat)
    requires AreChains(g, chains, length) && i < |chains| && j < length && forall c :: c in chains ==> |c| == length
    ensures chains[i][j] in TerminalNodes(g) <==> j == length - 1
    ensures chains[i][j] in Backs(chains) <==> j == length - 1
  {
    var x := chains[i][j];
    assert chains[i] in chains && x in g.nodes;
    if j < length - 1 {
      assert (x, chains[i][j + 1]) in g.edges && (x, chains[i][j + 1]).0 == x;
    } else {
      forall e | e in g.edges ensures e.0 != x {
        assert (e.0, e.1) in g.edges;
        var k, l :| 0 <= k < |chains| && 0 <= l < length - 1 && chains[k][l] == e.0 && chains[k][l + 1] == e.1;
      }
    }
    if x in Backs(chains) {
      var c :| c in chains && c[|c| - 1] == x;
      var k :| 0 <= k < |chains| && chains[k] == c;
      assert chains[k][length - 1] == chains[i][j];
    }
  }

  /** Attaches the source to every front and every back to the sink. */
  method AttachChains(g: AdjacencyDiGraph, chains: seq<seq<Node>>, source: Node, sink: Node)
    requires g.Valid() && source in g.Graph().nodes && sink in g.Graph().nodes
    requires forall c :: c in chains ==> c != [] && c[0] in g.Graph().nodes && c[|c| - 1] in g.Graph().nodes
    modifies g
    ensures g.Valid() && g.Graph() == Attached(old(g.Graph()), chains, source, sink)
  {
    for k := 0 to |chains|
      invariant g.Valid() && g.Graph() == Attached(old(g.Graph()), chains[..k], source, sink)
    {
      assert chains[k] in chains;
      AttachChain(g, chains[k], source, sink);
      AttachNext(old(g.Graph()), chains, k, source, sink);
    }
    assert chains[..|chains|] == chains;
  }

  function Attached(g: Digraph<Node>, chains: seq<seq<Node>>, source: Node, sink: Node): Digraph<Node> {
    Digraph(g.nodes, g.edges + EdgesFrom(source, Fronts(chains)) + EdgesInto(Backs(chains), sink))
  }

  method AttachChain(g: AdjacencyDiGraph, chain: seq<Node>, source: Node, sink: Node)
    requires g.Valid() && source in g.Graph().nodes && sink in g.Graph().nodes
    requires chain != [] && chain[0] in g.Graph().nodes && chain[|chain| - 1] in g.Graph().nodes
    modifies g
    ensures g.Valid() && g.Graph() == Digraph(old(g.Graph().nodes),
      old(g.Graph().edges) + {(source, chain[0])} + {(chain[|chain| - 1], sink)})
  {
    g.AddEdge(source, chain[0]);
    g.AddEdge(chain[|chain| - 1], sink);
  }

  lemma AttachNext(g: Digraph<Node>, chains: seq<seq<Node>>, k: nat, source: Node, sink: Node)
    requires k < |chains| && |chains[k]| > 0
    ensures Attached(g, chains[..k + 1], source, sink)
         == Digraph(g.nodes, Attached(g, chains[..k], source, sink).edges + {(source, chains[k][0])} +
           {(chains[k][|chains[k]| - 1], sink)})
  {
    EndsNext(chains, k);
    var c := chains[k];
    assert EdgesFrom(source, Fronts(chains[..k + 1])) == EdgesFrom(source, Fronts(chains[..k])) + {(source, c[0])};
    assert EdgesInto(Backs(chains[..k + 1]), sink) == EdgesInto(Backs(chains[..k]), sink) + {(c[|c| - 1], sink)};
  }

  lemma EndsNext(chains: seq<seq<Node>>, k: nat)
    requires k < |chains| && |chains[k]| > 0
    ensures Fronts(chains[..k + 1]) == Fronts(chains[..k]) + {chains[k][0]}
    ensures Backs(chains[..k + 1]) == Backs(chains[..k]) + {chains[k][|chains[k]| - 1]}
  {
    assert chains[..k + 1] == chains[..k] + [chains[k]];
  }

  method AddChains(
      g: AdjacencyDiGraph, length: nat, count: nat)
    returns (chains: seq<seq<Node>>, ghost depth: map<Node, int>)
    requires g.Valid() && g.Graph() == Digraph({}, {}) && length >= 1
    modifies g, g.source
    ensures g.Valid() && |chains| == count && AreChains(g.Graph(), chains, length)
    ensures ChainDepth(g.Graph(), chains, length, depth)
  {
    chains, depth := [], map[];
    for i := 0 to count
      invariant g.Valid() && |chains| == i
      invariant AreChains(g.Graph(), chains, length) && ChainDepth(g.Graph(), chains, length, depth)
    {
      ghost var before, d := g.Graph(), depth;
      var chain;
      chain, depth := AddChain(g, length, depth);
      g.IsWellFormed();
      ChainAppended(before, g.Graph(), chains, chain, length);
      DepthAppended(before, g.Graph(), chains, chain, length, d, depth);
      chains := chains + [chain];
    }
  }

  ghost predicate ChainDepth(g: Digraph<Node>, chains: seq<seq<Node>>, length: nat, depth: map<Node, int>) {
    && UnitDepth(g, depth) && depth.Keys == g.nodes
    && forall i, j :: 0 <= i < |chains| && 0 <= j < |chains[i]| ==> chains[i][j] in depth && depth[chains[i][j]] == j
  }

  lemma DepthAppended(
      g: Digraph<Node>, grown: Digraph<Node>, chains: seq<seq<Node>>, chain: seq<Node>, length: nat,
      depth: map<Node, int>, depth': map<Node, int>)
    requires ChainDepth(g, chains, length, depth) && UnitDepth(grown, depth') && depth'.Keys == grown.nodes
    requires |chain| == length
    requires forall x :: x in depth ==> x in depth' && depth'[x] == depth[x]
    requires forall j :: 0 <= j < length ==> chain[j] in depth' && depth'[chain[j]] == j
    ensures ChainDepth(grown, chains + [chain], length, depth')
  {
  }

  lemma FrontDepth(g: Digraph<Node>, chains: seq<seq<Node>>, length: nat, depth: map<Node, int>, x: Node)
    requires AreChains(g, chains, length) && ChainDepth(g, chains, length, depth) && length >= 1
    ensures x in Fronts(chains) ==> x in depth && depth[x] == 0
    ensures x in Backs(chains) ==> x in depth && depth[x] == length - 1
  {
    if x in Fronts(chains) {
      var f :| f in chains && |f| > 0 && f[0] == x;
      var i :| 0 <= i < |chains| && chains[i] == f;
      assert depth[chains[i][0]] == 0;
    }
    if x in Backs(chains) {
      var f :| f in chains && |f| > 0 && f[|f| - 1] == x;
      var i :| 0 <= i < |chains| && chains[i] == f;
      assert depth[chains[i][length - 1]] == length - 1;
    }
  }

  function DepthWithEnds(depth: map<Node, int>, length: nat, source: Node, sink: Node): map<Node, int> {
    depth[source := -1][sink := length]
  }

  lemma CrownedDepth(g: Digraph<Node>, depth: map<Node, int>, length: nat, source: Node, sink: Node)
    requires UnitDepth(g, depth) && depth.Keys == g.nodes && WellFormed(g) && length >= 1
    requires forall x :: x in InitialNodes(g) ==> x in depth && depth[x] == 0
    requires forall x :: x in TerminalNodes(g) ==> x in depth && depth[x] == length - 1
    requires source !in g.nodes && sink !in g.nodes && source != sink
    ensures UnitDepth(Crowned(g, source, sink), DepthWithEnds(depth, length, source, sink))
  {
  }

  lemma ChainDepthCrowned(
      g: Digraph<Node>, chains: seq<seq<Node>>, length: nat, depth: map<Node, int>, source: Node, sink: Node)
    requires AreChains(g, chains, length) && ChainDepth(g, chains, length, depth) && length >= 1
    requires source !in g.nodes && sink !in g.nodes && source != sink
    ensures UnitDepth(Crowned(g, source, sink), DepthWithEnds(depth, length, source, sink))
  {
    ChainEnds(g, chains, length);
    forall x ensures x in InitialNodes(g) ==> x in depth && depth[x] == 0
      ensures x in TerminalNodes(g) ==> x in depth && depth[x] == length - 1
    {
      if x in g.nodes { FrontDepth(g, chains, length, depth, x); }
    }
    CrownedDepth(g, depth, length, source, sink);
  }

  lemma WalksAsDeep(g: Digraph<Node>, depth: map<Node, int>, source: Node, sink: Node)
    requires UnitDepth(g, depth) && source in depth && sink in depth
    ensures AllWalksHave(g, source, sink, depth[sink] - depth[source] + 1)
  {
    forall w | WalkBetween(g, w, source, sink) ensures |w| == depth[sink] - depth[source] + 1 {
      WalkHasDepth(g, depth, w);
    }
  }

  /** chains separate chains of equal length between a source and a sink. */
  ghost predicate AreParallelChains(
      g: Digraph<Node>, inner: Digraph<Node>, chains: seq<seq<Node>>, length: nat, source: Node, sink: Node) {
    AreChains(inner, chains, length) && g == Crowned(inner, source, sink)
  }

  ghost predicate AllWalksHave(g: Digraph<Node>, source: Node, sink: Node, length: int) {
    forall w :: WalkBetween(g, w, source, sink) ==> |w| == length
  }

  /** The two assertions on the arguments decide whether there is a result. It consists of
      chainNum separate chains of chainLength - 2 nodes between a source and a sink, is
      two-terminal, and every path from source to sink has exactly chainLength nodes. */
  method MakeParallelChains(nodes: NodeSource, chainLength: nat, chainNum: nat)
    returns (result: Option<AdjacencyDiGraph>, source: Node, sink: Node, ghost inner: Digraph<Node>,
      ghost chains: seq<seq<Node>>)
    modifies nodes
    ensures result.Some? <==> chainLength >= 3 && chainNum >= 1
    ensures result.Some? ==>
      && fresh(result.value) && result.value.Valid() && |chains| == chainNum
      && AreChains(inner, chains, chainLength - 2) && result.value.Graph() == Crowned(inner, source, sink)
      && IsTwoTerminal(result.value.Graph(), source, sink)
      && AllWalksHave(result.value.Graph(), source, sink, chainLength)
  {
    source, sink := 0, 0;
    if chainLength < 3 || chainNum < 1 {
      return None, source, sink, Digraph({}, {}), [];
    }
    var g := new AdjacencyDiGraph(nodes);
    source, sink, inner, chains := BuildChains(g, chainLength - 2, chainNum);
    result := Some(g);
  }

  method BuildChains(g: AdjacencyDiGraph, length: nat, count: nat)
    returns (source: Node, sink: Node, ghost inner: Digraph<Node>, ghost chains: seq<seq<Node>>)
    requires g.Valid() && g.Graph() == Digraph({}, {}) && length >= 1 && count >= 1
    modifies g, g.source
    ensures g.Valid() && |chains| == count && AreParallelChains(g.Graph(), inner, chains, length, source, sink)
    ensures IsTwoTerminal(g.Graph(), source, sink) && AllWalksHave(g.Graph(), source, sink, length + 2)
  {
    ghost var depth;
    var all;
    all, depth := AddChains(g, length, count);
    chains, inner := all, g.Graph();
    EndsInGraph(inner, all, length);
    source := g.AddNode();
    sink := g.AddNode();
    AttachChains(g, all, source, sink);
    BuiltChains(g.Graph(), inner, chains, length, depth, source, sink);
  }

  lemma BuiltChains(
      g: Digraph<Node>, inner: Digraph<Node>, chains: seq<seq<Node>>, length: nat, depth: map<Node, int>, source: Node,
      sink: Node)
    requires AreChains(inner, chains, length) && ChainDepth(inner, chains, length, depth) && length >= 1
    requires |chains| >= 1
    requires source !in inner.nodes && sink !in inner.nodes && source != sink
    requires g == Attached(Digraph(inner.nodes + {source} + {sink}, inner.edges), chains, source, sink)
    ensures AreParallelChains(g, inner, chains, length, source, sink)
    ensures IsTwoTerminal(g, source, sink) && AllWalksHave(g, source, sink, length + 2)
  {
    AttachedIsCrowned(g, inner, chains, length, source, sink);
    ChainsAreTwoTerminal(inner, chains, length, depth, source, sink);
    ChainDepthCrowned(inner, chains, length, depth, source, sink);
    WalksAsDeep(g, DepthWithEnds(depth, length, source, sink), source, sink);
  }

  lemma AttachedIsCrowned(
      g: Digraph<Node>, inner: Digraph<Node>, chains: seq<seq<Node>>, length: nat, source: Node, sink: Node)
    requires AreChains(inner, chains, length) && length >= 1
    requires g == Attached(Digraph(inner.nodes + {source} + {sink}, inner.edges), chains, source, sink)
    ensures g == Crowned(inner, source, sink)
  {
    ChainEnds(inner, chains, length);
  }

  lemma EndsInGraph(g: Digraph<Node>, chains: seq<seq<Node>>, length: nat)
    requires AreChains(g, chains, length) && length >= 1
    ensures forall c :: c in chains ==> c != [] && c[0] in g.nodes && c[|c| - 1] in g.nodes
  {
    forall c | c in chains ensures c != [] && c[0] in g.nodes && c[|c| - 1] in g.nodes {
      var i :| 0 <= i < |chains| && chains[i] == c;
      assert chains[i][0] in g.nodes && chains[i][length - 1] in g.nodes;
    }
  }

  lemma ChainsAreTwoTerminal(
      g: Digraph<Node>, chains: seq<seq<Node>>, length: nat, depth: map<Node, int>, source: Node, sink: Node)
    requires AreChains(g, chains, length) && ChainDepth(g, chains, length, depth) && length >= 1 && |chains| >= 1
    requires source !in g.nodes && sink !in g.nodes && source != sink
    ensures IsTwoTerminal(Crowned(g, source, sink), source, sink)
  {
    assert Ranks(g, depth);
    RankedIsAcyclic(g, depth);
    assert chains[0][0] in g.nodes;
    CrownedIsTwoTerminal(g, source, sink);
  }
}
