/** Graphs that are built step by step, and how a graph is extended by a copy of another. */
module AdjacencyGraphs {
  import opened Digraphs

  type Node = nat

  /** Node identifiers are drawn from one counter that all graphs share. */
  class NodeSource {
    var next: nat

    constructor ()
      ensures next == 0
    {
      next := 0;
    }

    method NewNode() returns (n: Node)
      modifies this
      ensures n == old(next) && next == old(next) + 1
    {
      n := next;
      next := next + 1;
    }
  }

  class AdjacencyDiGraph {
    const source: NodeSource
    var adjacency: map<Node, set<Node>>

    constructor (source: NodeSource)
      ensures this.source == source && Graph() == Digraph({}, {}) && Valid()
    {
      this.source := source;
      adjacency := map[];
    }

    function Graph(): Digraph<Node>
      reads this
    {
      Digraph(adjacency.Keys, set a, b | a in adjacency && b in adjacency[a] :: (a, b))
    }

    ghost predicate Valid()
      reads this, source
    {
      && (forall n :: n in adjacency ==> n < source.next)
      && (forall a, b :: a in adjacency && b in adjacency[a] ==> b in adjacency)
    }

    lemma IsWellFormed()
      requires Valid()
      ensures WellFormed(Graph()) && forall n :: n in Graph().nodes ==> n < source.next
    {
    }

    method AddNode() returns (n: Node)
      requires Valid()
      modifies this, source
      ensures Valid() && n == old(source.next) && source.next == n + 1 && n !in old(Graph().nodes)
      ensures Graph() == Digraph(old(Graph().nodes) + {n}, old(Graph().edges))
    {
      n := source.NewNode();
      adjacency := adjacency[n := {}];
    }

    method AddEdge(src: Node, dst: Node)
      requires Valid() && src in Graph().nodes && dst in Graph().nodes
      modifies this
      ensures Valid()
      ensures Graph() == Digraph(old(Graph().nodes), old(Graph().edges) + {(src, dst)})
    {
      ghost var before := Graph();
      adjacency := adjacency[src := adjacency[src] + {dst}];
      forall a, b ensures (a, b) in Graph().edges <==> (a, b) in before.edges || (a, b) == (src, dst) {
      }
      assert Graph().edges == before.edges + {(src, dst)};
    }

    method AddNodes(count: nat) returns (nodes: seq<Node>)
      requires Valid()
      modifies this, source
      ensures Valid() && source.next == old(source.next) + count
      ensures |nodes| == count && forall k :: 0 <= k < count ==> nodes[k] == old(source.next) + k
      ensures Graph() == Digraph(old(Graph().nodes) + ElementsOf(nodes), old(Graph().edges))
    {
      nodes := [];
      for k := 0 to count
        invariant Valid() && source.next == old(source.next) + k
        invariant |nodes| == k && forall j :: 0 <= j < k ==> nodes[j] == old(source.next) + j
        invariant Graph() == Digraph(old(Graph().nodes) + ElementsOf(nodes), old(Graph().edges))
      {
        var n := AddNode();
        assert ElementsOf(nodes + [n]) == ElementsOf(nodes) + {n};
        nodes := nodes + [n];
      }
    }

    method AddEdges(edges: seq<(Node, Node)>)
      requires Valid() && forall e :: e in edges ==> e.0 in Graph().nodes && e.1 in Graph().nodes
      modifies this
      ensures Valid()
      ensures Graph() == Digraph(old(Graph().nodes), old(Graph().edges) + ElementsOf(edges))
    {
      for k := 0 to |edges|
        invariant Valid()
        invariant Graph() == Digraph(old(Graph().nodes), old(Graph().edges) + ElementsOf(edges[..k]))
      {
        assert edges[k] in edges;
        AddEdge(edges[k].0, edges[k].1);
        assert edges[..k + 1] == edges[..k] + [edges[k]];
        assert ElementsOf(edges[..k + 1]) == ElementsOf(edges[..k]) + {edges[k]};
      }
      assert edges[..|edges|] == edges;
    }
  }

  function ElementsOf<T>(s: seq<T>): set<T> {
    set x | x in s
  }

  // ------------------------------------------------------------------ extension

  predicate IsRenaming(m: map<Node, Node>, nodes: set<Node>, taken: set<Node>) {
    && m.Keys == nodes
    && (forall x, y :: x in m && y in m && m[x] == m[y] ==> x == y)
    && m.Values !! taken
  }

  function Renamed(s: Digraph<Node>, m: map<Node, Node>): Digraph<Node>
    requires m.Keys == s.nodes && WellFormedEdges(s)
  {
    Digraph(m.Values, set e | e in s.edges :: (m[e.0], m[e.1]))
  }

  predicate WellFormedEdges(s: Digraph<Node>) {
    forall e :: e in s.edges ==> e.0 in s.nodes && e.1 in s.nodes
  }

  lemma EdgesWellFormed(s: Digraph<Node>)
    requires WellFormed(s)
    ensures WellFormedEdges(s)
  {
    forall e | e in s.edges ensures e.0 in s.nodes && e.1 in s.nodes {
      assert (e.0, e.1) in s.edges;
    }
  }

  function Union(g: Digraph<Node>, h: Digraph<Node>): Digraph<Node> {
    Digraph(g.nodes + h.nodes, g.edges + h.edges)
  }

  /** Adds a renamed copy of ext to g, on fresh nodes, with no edge between the two. */
  method ParallelExtend(g: AdjacencyDiGraph, ext: Digraph<Node>) returns (nodeMap: map<Node, Node>)
    requires g.Valid() && WellFormedEdges(ext)
    modifies g, g.source
    ensures g.Valid() && IsRenaming(nodeMap, ext.nodes, old(g.Graph().nodes))
    ensures g.Graph() == Union(old(g.Graph()), Renamed(ext, nodeMap))
    ensures g.source.next == old(g.source.next) + |ext.nodes| && |nodeMap.Values| == |ext.nodes|
  {
    nodeMap := CopyNodes(g, ext.nodes);
    InjectiveSize(nodeMap);
    CopyEdges(g, ext, nodeMap);
  }

  method CopyNodes(g: AdjacencyDiGraph, all: set<Node>) returns (nodeMap: map<Node, Node>)
    requires g.Valid()
    modifies g, g.source
    ensures g.Valid() && IsRenaming(nodeMap, all, old(g.Graph().nodes))
    ensures g.Graph() == Digraph(old(g.Graph().nodes) + nodeMap.Values, old(g.Graph().edges))
    ensures g.source.next == old(g.source.next) + |all|
  {
    nodeMap := map[];
    var nodes := all;
    while nodes != {}
      invariant g.Valid() && nodes <= all
      invariant IsRenaming(nodeMap, all - nodes, old(g.Graph().nodes))
      invariant g.Graph() == Digraph(old(g.Graph().nodes) + nodeMap.Values, old(g.Graph().edges))
      invariant g.source.next == old(g.source.next) + |all| - |nodes|
      decreases nodes
    {
      var node :| node in nodes;
      var n := g.AddNode();
      RenameOneMore(nodeMap, all - nodes, old(g.Graph().nodes), node, n);
      nodeMap := nodeMap[node := n];
      assert all - (nodes - {node}) == (all - nodes) + {node};
      nodes := nodes - {node};
    }
    assert all - {} == all;
  }

  lemma RenameOneMore(m: map<Node, Node>, nodes: set<Node>, taken: set<Node>, node: Node, n: Node)
    requires IsRenaming(m, nodes, taken) && node !in nodes && n !in taken + m.Values
    ensures IsRenaming(m[node := n], nodes + {node}, taken) && m[node := n].Values == m.Values + {n}
  {
    var r := m[node := n];
    assert r[node] == n;
    forall x | x in m ensures r[x] == m[x] && m[x] in m.Values {
    }
  }

  lemma {:induction false} InjectiveSize(m: map<Node, Node>)
    requires forall x, y :: x in m && y in m && m[x] == m[y] ==> x == y
    ensures |m.Values| == |m.Keys|
    decreases |m.Keys|
  {
    if m.Keys != {} {
      var k :| k in m.Keys;
      var rest := map x | x in m && x != k :: m[x];
      assert rest.Keys == m.Keys - {k};
      InjectiveSize(rest);
      assert m.Values == rest.Values + {m[k]} by {
        forall v | v in m.Values ensures v in rest.Values + {m[k]} {
          var x :| x in m && m[x] == v;
          if x != k { assert rest[x] == v; }
        }
      }
      assert m[k] !in rest.Values;
    } else {
      assert m.Values == {};
    }
  }

  method CopyEdges(g: AdjacencyDiGraph, ext: Digraph<Node>, nodeMap: map<Node, Node>)
    requires g.Valid() && WellFormedEdges(ext) && nodeMap.Keys == ext.nodes && nodeMap.Values <= g.Graph().nodes
    modifies g
    ensures g.Valid()
    ensures g.Graph() == Digraph(old(g.Graph().nodes), old(g.Graph().edges) + Renamed(ext, nodeMap).edges)
  {
    ghost var before := g.Graph();
    var edges := ext.edges;
    while edges != {}
      invariant g.Valid() && edges <= ext.edges
      invariant g.Graph() == Digraph(before.nodes, before.edges + set e | e in ext.edges - edges ::
        (nodeMap[e.0], nodeMap[e.1]))
      decreases edges
    {
      var edge :| edge in edges;
      assert nodeMap[edge.0] in nodeMap.Values && nodeMap[edge.1] in nodeMap.Values;
      g.AddEdge(nodeMap[edge.0], nodeMap[edge.1]);
      ghost var copied := ext.edges - edges;
      edges := edges - {edge};
      assert ext.edges - edges == copied + {edge};
    }
    assert ext.edges - {} == ext.edges;
  }

  // --------------------------------------------- joining one graph below another

  function RenamedSeq(order: seq<Node>, m: map<Node, Node>): (r: seq<Node>)
    requires forall x :: x in order ==> x in m
    ensures |r| == |order| && forall i :: 0 <= i < |r| ==> r[i] == m[order[i]]
  {
    seq(|order|, i requires 0 <= i < |order| => m[order[i]])
  }

  /** A renamed graph is ordered by the renamed ordering. */
  lemma RenamedOrdering(s: Digraph<Node>, m: map<Node, Node>, order: seq<Node>)
    requires WellFormedEdges(s) && IsRenaming(m, s.nodes, {}) && IsTopologicalOrdering(s, order)
    ensures IsTopologicalOrdering(Renamed(s, m), RenamedSeq(order, m))
  {
    var r, h := RenamedSeq(order, m), Renamed(s, m);
    forall x ensures x in r <==> x in h.nodes {
      if x in h.nodes {
        var y :| y in m && m[y] == x;
        assert y in order;
        var i :| 0 <= i < |order| && order[i] == y;
        assert r[i] == x;
      }
    }
    forall a, b | (a, b) in h.edges ensures Before(r, a, b) {
      var e :| e in s.edges && (m[e.0], m[e.1]) == (a, b);
      assert (e.0, e.1) in s.edges;
      var i, j :| 0 <= i < j < |order| && order[i] == e.0 && order[j] == e.1;
      assert r[i] == a && r[j] == b;
    }
  }

  /** Two graphs on different nodes, with further edges leading from the first into the
      second. */
  function Joined(g: Digraph<Node>, h: Digraph<Node>, bridges: set<(Node, Node)>): Digraph<Node> {
    Digraph(g.nodes + h.nodes, g.edges + h.edges + bridges)
  }

  ghost predicate Bridges(g: Digraph<Node>, h: Digraph<Node>, bridges: set<(Node, Node)>) {
    && g.nodes !! h.nodes && WellFormed(g) && WellFormed(h)
    && forall a, b :: (a, b) in bridges ==> a in g.nodes && b in h.nodes
  }

  lemma JoinedOrdering(g: Digraph<Node>, h: Digraph<Node>, bridges: set<(Node, Node)>, p: seq<Node>, q: seq<Node>)
    requires Bridges(g, h, bridges) && IsTopologicalOrdering(g, p) && IsTopologicalOrdering(h, q)
    ensures IsTopologicalOrdering(Joined(g, h, bridges), p + q)
  {
    var order := p + q;
    forall i, j | 0 <= i < j < |order| ensures order[i] != order[j] {
      if i < |p| <= j {
        assert p[i] in p && q[j - |p|] in q;
      }
    }
    forall a, b | (a, b) in Joined(g, h, bridges).edges ensures Before(order, a, b) {
      BeforeInJoin(g, h, bridges, p, q, a, b);
    }
  }

  lemma BeforeInJoin(
      g: Digraph<Node>, h: Digraph<Node>, bridges: set<(Node, Node)>, p: seq<Node>, q: seq<Node>, a: Node, b: Node)
    requires Bridges(g, h, bridges) && IsTopologicalOrdering(g, p) && IsTopologicalOrdering(h, q)
    requires (a, b) in Joined(g, h, bridges).edges
    ensures Before(p + q, a, b)
  {
    var order := p + q;
    if (a, b) in g.edges {
      var i, j :| 0 <= i < j < |p| && p[i] == a && p[j] == b;
      assert order[i] == a && order[j] == b;
    } else if (a, b) in h.edges {
      var i, j :| 0 <= i < j < |q| && q[i] == a && q[j] == b;
      assert order[|p| + i] == a && order[|p| + j] == b;
    } else {
      assert a in p && b in q;
      var i :| 0 <= i < |p| && p[i] == a;
      var j :| 0 <= j < |q| && q[j] == b;
      assert order[i] == a && order[|p| + j] == b;
    }
  }

  /** Such a join of acyclic graphs is acyclic. */
  lemma JoinedIsAcyclic(g: Digraph<Node>, h: Digraph<Node>, bridges: set<(Node, Node)>)
    requires Bridges(g, h, bridges) && Acyclic(g) && Acyclic(h)
    ensures Acyclic(Joined(g, h, bridges))
  {
    var p := OrderingExists(g);
    var q := OrderingExists(h);
    JoinedOrdering(g, h, bridges, p, q);
    OrderedIsAcyclic(Joined(g, h, bridges), p + q);
  }

  lemma RenamedIsAcyclic(s: Digraph<Node>, m: map<Node, Node>)
    requires WellFormed(s) && WellFormedEdges(s) && IsRenaming(m, s.nodes, {}) && Acyclic(s)
    ensures Acyclic(Renamed(s, m))
  {
    var order := OrderingExists(s);
    RenamedOrdering(s, m, order);
    OrderedIsAcyclic(Renamed(s, m), RenamedSeq(order, m));
  }

  function Image(m: map<Node, Node>, S: set<Node>): set<Node>
    requires S <= m.Keys
  {
    set x | x in S :: m[x]
  }

  lemma RenamedEnds(s: Digraph<Node>, m: map<Node, Node>)
    requires WellFormedEdges(s) && IsRenaming(m, s.nodes, {})
    ensures InitialNodes(Renamed(s, m)) == Image(m, InitialNodes(s))
    ensures TerminalNodes(Renamed(s, m)) == Image(m, TerminalNodes(s))
  {
    var h := Renamed(s, m);
    forall x | x in s.nodes
      ensures x in InitialNodes(s) <==> m[x] in InitialNodes(h)
      ensures x in TerminalNodes(s) <==> m[x] in TerminalNodes(h)
    {
      if e :| e in s.edges && e.1 == x { assert (m[e.0], m[e.1]) in h.edges; }
      if e :| e in s.edges && e.0 == x { assert (m[e.0], m[e.1]) in h.edges; }
      assert m[x] in h.nodes;
    }
  }

  /** Joining below the only terminal node, so that every initial node of the lower graph is
      fed, keeps a graph two-terminal. */
  lemma JoinedIsTwoTerminal(
      g: Digraph<Node>, h: Digraph<Node>, bridges: set<(Node, Node)>, source: Node, last: Node, output: Node)
    requires Bridges(g, h, bridges) && IsTwoTerminal(g, source, last) && Acyclic(h) && TerminalNodes(h) == {output}
    requires exists b :: (last, b) in bridges
    requires forall b :: b in InitialNodes(h) ==> exists a :: (a, b) in bridges
    ensures IsTwoTerminal(Joined(g, h, bridges), source, output)
  {
    var j := Joined(g, h, bridges);
    JoinedIsAcyclic(g, h, bridges);
    forall x | x in j.nodes ensures x in InitialNodes(j) <==> x == source {
      JoinedInitial(g, h, bridges, source, x);
    }
    forall x | x in j.nodes ensures x in TerminalNodes(j) <==> x == output {
      JoinedTerminal(g, h, bridges, last, output, x);
    }
    assert source in InitialNodes(g) && output in TerminalNodes(h);
  }

  lemma JoinedInitial(g: Digraph<Node>, h: Digraph<Node>, bridges: set<(Node, Node)>, source: Node, x: Node)
    requires Bridges(g, h, bridges) && InitialNodes(g) == {source} && x in g.nodes + h.nodes
    requires forall b :: b in InitialNodes(h) ==> exists a :: (a, b) in bridges
    ensures x in InitialNodes(Joined(g, h, bridges)) <==> x == source
  {
    var j := Joined(g, h, bridges);
    assert source in InitialNodes(g);
    if x == source {
      forall e | e in j.edges ensures e.1 != x {
        assert (e.0, e.1) in j.edges;
      }
    } else if x in g.nodes {
      assert x !in InitialNodes(g);
      var e :| e in g.edges && e.1 == x;
      assert e in j.edges;
    } else if x in InitialNodes(h) {
      var a :| (a, x) in bridges;
      assert (a, x) in j.edges;
    } else {
      var e :| e in h.edges && e.1 == x;
      assert e in j.edges;
    }
  }

  lemma JoinedTerminal(
      g: Digraph<Node>, h: Digraph<Node>, bridges: set<(Node, Node)>, last: Node, output: Node, x: Node)
    requires Bridges(g, h, bridges) && TerminalNodes(g) == {last} && TerminalNodes(h) == {output}
    requires x in g.nodes + h.nodes
    requires exists b :: (last, b) in bridges
    ensures x in TerminalNodes(Joined(g, h, bridges)) <==> x == output
  {
    var j := Joined(g, h, bridges);
    assert output in TerminalNodes(h);
    if x == output {
      forall e | e in j.edges ensures e.0 != x {
        assert (e.0, e.1) in j.edges;
      }
    } else if x in h.nodes {
      assert x !in TerminalNodes(h);
      var e :| e in h.edges && e.0 == x;
      assert e in j.edges;
    } else if x == last {
      var b :| (last, b) in bridges;
      assert (last, b) in j.edges;
    } else {
      assert x !in TerminalNodes(g);
      var e :| e in g.edges && e.0 == x;
      assert e in j.edges;
    }
  }

  lemma LoneNode(n: Node, g: Digraph<Node>)
    requires g == Digraph({n}, {})
    ensures IsTwoTerminal(g, n, n)
  {
    RankedIsAcyclic(g, map[n := 0]);
  }

  // ------------------------------------------------------- adding a source and a sink

  function EdgesFrom(a: Node, S: set<Node>): set<(Node, Node)> {
    set b | b in S :: (a, b)
  }

  function EdgesInto(S: set<Node>, b: Node): set<(Node, Node)> {
    set a | a in S :: (a, b)
  }

  /** The graph with one more node above its initial nodes and one below its terminal nodes. */
  function Crowned(g: Digraph<Node>, source: Node, sink: Node): Digraph<Node> {
    Digraph(
      g.nodes + {sink} + {source},
      g.edges + EdgesFrom(source, InitialNodes(g)) + EdgesInto(TerminalNodes(g), sink))
  }

  /** The source feeds the nodes that nothing fed, the sink is fed by those that fed nothing, and there is
      no other new edge. */
  lemma CrownedEdges(g: Digraph<Node>, source: Node, sink: Node, a: Node, b: Node)
    ensures Crowned(g, source, sink).nodes == g.nodes + {source, sink}
    ensures (a, b) in Crowned(g, source, sink).edges <==>
      || (a, b) in g.edges
      || (a == source && b in g.nodes && forall x :: (x, b) !in g.edges)
      || (b == sink && a in g.nodes && forall x :: (a, x) !in g.edges)
  {
    if b in g.nodes && forall x :: (x, b) !in g.edges {
      forall e | e in g.edges ensures e.1 != b { assert (e.0, e.1) in g.edges; }
    }
    if a in g.nodes && forall x :: (a, x) !in g.edges {
      forall e | e in g.edges ensures e.0 != a { assert (e.0, e.1) in g.edges; }
    }
  }

  lemma CrownedIsAcyclic(g: Digraph<Node>, source: Node, sink: Node)
    requires WellFormed(g) && Acyclic(g) && source !in g.nodes && sink !in g.nodes && source != sink
    ensures Acyclic(Crowned(g, source, sink))
  {
    var top, bottom := Digraph({source}, {}), Digraph({sink}, {});
    LoneNode(source, top);
    LoneNode(sink, bottom);
    var upper := EdgesFrom(source, InitialNodes(g));
    JoinedIsAcyclic(top, g, upper);
    var middle := Joined(top, g, upper);
    var lower := EdgesInto(TerminalNodes(g), sink);
    JoinedIsAcyclic(middle, bottom, lower);
    assert Joined(middle, bottom, lower) == Crowned(g, source, sink);
  }

  lemma CrownedInitial(g: Digraph<Node>, source: Node, sink: Node, x: Node)
    requires WellFormed(g) && source !in g.nodes && sink !in g.nodes && source != sink
    requires x in g.nodes + {source}
    ensures x in InitialNodes(Crowned(g, source, sink)) <==> x == source
  {
    var c := Crowned(g, source, sink);
    if x == source {
      forall e | e in c.edges ensures e.1 != x {
        assert (e.0, e.1) in c.edges;
      }
    } else if x in InitialNodes(g) {
      assert (source, x) in c.edges && (source, x).1 == x;
    } else {
      var e :| e in g.edges && e.1 == x;
      assert e in c.edges;
    }
  }

  lemma CrownedTerminal(g: Digraph<Node>, source: Node, sink: Node, x: Node)
    requires WellFormed(g) && source !in g.nodes && sink !in g.nodes && source != sink
    requires x in g.nodes + {sink}
    ensures x in TerminalNodes(Crowned(g, source, sink)) <==> x == sink
  {
    var c := Crowned(g, source, sink);
    if x == sink {
      forall e | e in c.edges ensures e.0 != x {
        assert (e.0, e.1) in c.edges;
      }
    } else if x in TerminalNodes(g) {
      assert (x, sink) in c.edges && (x, sink).0 == x;
    } else {
      var e :| e in g.edges && e.0 == x;
      assert e in c.edges;
    }
  }

  /** An acyclic graph that is not empty has an initial and a terminal node. */
  lemma HasEnds(g: Digraph<Node>) returns (first: Node, last: Node)
    requires WellFormed(g) && Acyclic(g) && g.nodes != {}
    ensures first in InitialNodes(g) && last in TerminalNodes(g)
  {
    first := MinimalElement(g, g.nodes);
    forall e | e in g.edges ensures e.1 != first {
      assert (e.0, e.1) in g.edges;
    }
    var f := Flipped(g);
    FlippedAcyclic(g);
    last := MinimalElement(f, g.nodes);
    forall e | e in g.edges ensures e.0 != last {
      assert (e.1, e.0) in f.edges && (e.0, e.1) in g.edges;
    }
  }

  /** The source and sink make any acyclic graph two-terminal, unless it is empty: then both
      stay isolated, and the graph has two initial nodes. */
  lemma CrownedIsTwoTerminal(g: Digraph<Node>, source: Node, sink: Node)
    requires WellFormed(g) && Acyclic(g) && source !in g.nodes && sink !in g.nodes && source != sink
    ensures g.nodes != {} <==> IsTwoTerminal(Crowned(g, source, sink), source, sink)
    ensures (exists s, t :: IsTwoTerminal(Crowned(g, source, sink), s, t)) <==> g.nodes != {}
  {
    var c := Crowned(g, source, sink);
    CrownedIsAcyclic(g, source, sink);
    if g.nodes != {} {
      var first, last := HasEnds(g);
      assert (source, first) in c.edges && (source, first).0 == source;
      assert (last, sink) in c.edges && (last, sink).1 == sink;
      forall x | x in c.nodes
        ensures x in InitialNodes(c) <==> x == source
        ensures x in TerminalNodes(c) <==> x == sink
      {
        if x != sink { CrownedInitial(g, source, sink, x); }
        if x != source { CrownedTerminal(g, source, sink, x); }
      }
      assert IsTwoTerminal(c, source, sink);
    } else {
      IsolatedEnds(g, source, sink);
    }
  }

  lemma IsolatedEnds(g: Digraph<Node>, source: Node, sink: Node)
    requires WellFormed(g) && g.nodes == {} && source != sink
    ensures forall s, t :: !IsTwoTerminal(Crowned(g, source, sink), s, t)
  {
    var c := Crowned(g, source, sink);
    EdgesWellFormed(g);
    assert g.edges == {} && c.edges == {};
    assert source in InitialNodes(c) && sink in InitialNodes(c);
  }

  method ConnectSource(g: AdjacencyDiGraph, source: Node, sources: set<Node>)
    requires g.Valid() && source in g.Graph().nodes && sources <= g.Graph().nodes
    modifies g
    ensures g.Valid() && g.Graph() == Digraph(old(g.Graph().nodes), old(g.Graph().edges) + EdgesFrom(source, sources))
  {
    var left := sources;
    while left != {}
      invariant g.Valid() && left <= sources
      invariant g.Graph() == Digraph(old(g.Graph().nodes), old(g.Graph().edges) + EdgesFrom(source, sources - left))
      decreases left
    {
      var s :| s in left;
      g.AddEdge(source, s);
      assert EdgesFrom(source, sources - (left - {s})) == EdgesFrom(source, sources - left) + {(source, s)};
      left := left - {s};
    }
    assert sources - {} == sources;
  }

  method ConnectSink(g: AdjacencyDiGraph, sinks: set<Node>, sink: Node)
    requires g.Valid() && sink in g.Graph().nodes && sinks <= g.Graph().nodes
    modifies g
    ensures g.Valid() && g.Graph() == Digraph(old(g.Graph().nodes), old(g.Graph().edges) + EdgesInto(sinks, sink))
  {
    var left := sinks;
    while left != {}
      invariant g.Valid() && left <= sinks
      invariant g.Graph() == Digraph(old(g.Graph().nodes), old(g.Graph().edges) + EdgesInto(sinks - left, sink))
      decreases left
    {
      var s :| s in left;
      g.AddEdge(s, sink);
      assert EdgesInto(sinks - (left - {s}), sink) == EdgesInto(sinks - left, sink) + {(s, sink)};
      left := left - {s};
    }
    assert sinks - {} == sinks;
  }
}
