/** The full NASNet benchmark graph, grown cell by cell. */
module Nasnet {
  import opened Sequences
  import opened Digraphs
  import opened AdjacencyGraphs
  import opened NasnetCells
  import opened TensorIndex

  /** What one iteration of the loop adds: a copy of a cell, with its two inputs and its output. */
  datatype Block = Block(kind: CellKind, cell: Digraph<Node>, earlier: Node, later: Node, output: Node)

  function KindAt(i: nat, n: nat): CellKind {
    if i % (n + 1) == n then Reduction else Normal
  }

  /** The block is the cell of its kind, under a one-to-one renaming. */
  ghost predicate IsBlock(b: Block) {
    exists base, m :: PlacedAs(b, base, m)
  }

  ghost predicate PlacedAs(b: Block, base: nat, m: map<Node, Node>) {
    var s := PlacedCell(b.kind, base);
    && WellFormedEdges(s) && IsRenaming(m, s.nodes, {}) && base in m && base + 1 in m && base + 17 in m
    && b.cell == Renamed(s, m) && b.earlier == m[base] && b.later == m[base + 1] && b.output == m[base + 17]
  }

  /** The output that is current after k blocks; before the first, it is the input node. */
  function OutputAfter(input: Node, blocks: seq<Block>, k: int): Node
    requires k <= |blocks|
  {
    if k <= 0 then input else blocks[k - 1].output
  }

  /** The whole graph: the input node and the blocks, each fed by the outputs two and one
      before it. */
  function NasnetGraph(input: Node, blocks: seq<Block>): Digraph<Node>
    decreases |blocks|
  {
    if blocks == [] then Digraph({input}, {}) else
      var k := |blocks| - 1;
      WithBlock(NasnetGraph(input, blocks[..k]), blocks[k], OutputAfter(input, blocks, k - 1),
        OutputAfter(input, blocks, k))
  }

  function WithBlock(g: Digraph<Node>, b: Block, previous: Node, last: Node): Digraph<Node> {
    Digraph(g.nodes + b.cell.nodes, g.edges + b.cell.edges + {(previous, b.earlier)} + {(last, b.later)})
  }

  ghost predicate BlocksProper(blocks: seq<Block>, n: nat) {
    forall i :: 0 <= i < |blocks| ==> blocks[i].kind == KindAt(i, n) && IsBlock(blocks[i])
  }

  /** A copy of a cell, on nodes that the graph does not have. */
  ghost predicate IsCellCopy(h: Digraph<Node>, taken: set<Node>, earlier: Node, later: Node, output: Node) {
    && h.nodes !! taken && |h.nodes| == CELL_SIZE && WellFormed(h) && Acyclic(h)
    && InitialNodes(h) == {earlier, later} && TerminalNodes(h) == {output}
  }

  lemma RenamedIsCopy(kind: CellKind, base: nat, m: map<Node, Node>, taken: set<Node>)
    requires WellFormedEdges(PlacedCell(kind, base)) && IsRenaming(m, PlacedCell(kind, base).nodes, taken)
    requires |m.Values| == CELL_SIZE && base in m && base + 1 in m && base + 17 in m
    ensures IsCellCopy(Renamed(PlacedCell(kind, base), m), taken, m[base], m[base + 1], m[base + 17])
  {
    var s := PlacedCell(kind, base);
    PlacedCellIsProper(kind, base);
    assert IsRenaming(m, s.nodes, {});
    RenamedIsAcyclic(s, m);
    RenamedEnds(s, m);
    RenamedIsWellFormed(s, m);
    assert Image(m, {base, base + 1}) == {m[base], m[base + 1]};
    assert Image(m, {base + 17}) == {m[base + 17]};
  }

  /** A copied cell hung below the graph, by the two edges of an iteration. */
  lemma HangCell(
      g: Digraph<Node>, h: Digraph<Node>, earlier: Node, later: Node, output: Node,
      source: Node, previous: Node, last: Node, grown: Digraph<Node>)
    requires WellFormed(g) && IsTwoTerminal(g, source, last) && previous in g.nodes
    requires IsCellCopy(h, g.nodes, earlier, later, output)
    requires grown == Digraph(g.nodes + h.nodes, g.edges + h.edges + {(previous, earlier)} + {(last, later)})
    ensures IsTwoTerminal(grown, source, output)
  {
    assert last in TerminalNodes(g);
    assert earlier in InitialNodes(h) && later in InitialNodes(h);
    var bridges := {(previous, earlier), (last, later)};
    JoinedIsTwoTerminal(g, h, bridges, source, last, output);
    assert grown == Joined(g, h, bridges);
  }

  lemma RenamedIsWellFormed(s: Digraph<Node>, m: map<Node, Node>)
    requires WellFormedEdges(s) && m.Keys == s.nodes
    ensures WellFormed(Renamed(s, m))
  {
    forall a, b | (a, b) in Renamed(s, m).edges ensures a in m.Values && b in m.Values {
      var e :| e in s.edges && (m[e.0], m[e.1]) == (a, b);
    }
  }

  method MakeCell(source: NodeSource, i: nat, n: nat) returns (s: AdjacencyDiGraph, earlier: Node, later: Node)
    modifies source
    ensures fresh(s) && s.Valid() && s.source == source && source.next == old(source.next) + CELL_SIZE
    ensures s.Graph() == PlacedCell(KindAt(i, n), earlier) && later == earlier + 1
  {
    if i % (n + 1) == n {
      s, earlier, later := MakeReductionTasoNasnetCell(source);
    } else {
      s, earlier, later := MakeNormalTasoNasnetCell(source);
    }
  }

  lemma EndsOfCell(kind: CellKind, base: nat)
    ensures var s := PlacedCell(kind, base);
      WellFormedEdges(s) && TerminalNodes(s) == {base + 17} && base in s.nodes && base + 1 in s.nodes &&
        base + 17 in s.nodes
  {
    PlacedCellIsProper(kind, base);
    EdgesWellFormed(PlacedCell(kind, base));
    assert base in {base, base + 1} && base + 1 in {base, base + 1} && base + 17 in {base + 17};
  }

  /** Copies the cell of iteration i into the graph. */
  method CopyCell(
      g: AdjacencyDiGraph, i: nat, n: nat)
    returns (earlier: Node, later: Node, output: Node, ghost b: Block)
    requires g.Valid()
    modifies g, g.source
    ensures g.Valid() && IsCellCopy(b.cell, old(g.Graph().nodes), earlier, later, output)
    ensures b == Block(KindAt(i, n), b.cell, earlier, later, output) && IsBlock(b)
    ensures g.Graph() == Union(old(g.Graph()), b.cell)
  {
    ghost var before := g.Graph();
    var s, e, l := MakeCell(g.source, i, n);
    var cellOutput := OnlyTerminal(s.Graph(), KindAt(i, n), e);
    var nodeMap := ParallelExtend(g, s.Graph());
    earlier, later, output := nodeMap[e], nodeMap[l], nodeMap[cellOutput];
    b := CopiedBlock(KindAt(i, n), e, nodeMap, before.nodes);
  }

  /** The one terminal node of a cell. */
  method OnlyTerminal(s: Digraph<Node>, ghost kind: CellKind, ghost base: nat) returns (output: Node)
    requires s == PlacedCell(kind, base)
    ensures output == base + 17 && WellFormedEdges(s) && |s.nodes| == CELL_SIZE
    ensures base in s.nodes && base + 1 in s.nodes && base + 17 in s.nodes
  {
    EndsOfCell(kind, base);
    PlacedCellIsProper(kind, base);
    output :| output in TerminalNodes(s);
  }

  lemma CopiedBlock(kind: CellKind, base: nat, m: map<Node, Node>, taken: set<Node>) returns (b: Block)
    requires WellFormedEdges(PlacedCell(kind, base)) && IsRenaming(m, PlacedCell(kind, base).nodes, taken)
    requires |m.Values| == CELL_SIZE && base in m && base + 1 in m && base + 17 in m
    ensures b == Block(kind, Renamed(PlacedCell(kind, base), m), m[base], m[base + 1], m[base + 17])
    ensures IsCellCopy(b.cell, taken, b.earlier, b.later, b.output) && IsBlock(b)
  {
    RenamedIsCopy(kind, base, m, taken);
    b := Block(kind, Renamed(PlacedCell(kind, base), m), m[base], m[base + 1], m[base + 17]);
    assert PlacedAs(b, base, m);
  }

  /** Takes the front of both queues, and joins the two by an edge. */
  method ConnectFronts(g: AdjacencyDiGraph, outputting: seq<Node>, inputting: seq<Node>)
    returns (outputting': seq<Node>, inputting': seq<Node>)
    requires g.Valid() && outputting != [] && inputting != []
    requires outputting[0] in g.Graph().nodes && inputting[0] in g.Graph().nodes
    modifies g
    ensures g.Valid() && outputting' == outputting[1..] && inputting' == inputting[1..]
    ensures g.Graph() == Digraph(old(g.Graph().nodes), old(g.Graph().edges) + {(outputting[0], inputting[0])})
  {
    var a, b := outputting[0], inputting[0];
    inputting', outputting' := inputting[1..], outputting[1..];
    g.AddEdge(a, b);
  }

  /** Queues a cell's output twice and its two inputs, and joins the fronts of the queues twice. */
  method ConnectCell(
      g: AdjacencyDiGraph, outputting: seq<Node>, inputting: seq<Node>, earlier: Node, later: Node, output: Node)
    returns (outputting': seq<Node>, inputting': seq<Node>)
    requires g.Valid() && |outputting| == 3 && inputting == []
    requires outputting[0] in g.Graph().nodes && outputting[1] in g.Graph().nodes
    requires earlier in g.Graph().nodes && later in g.Graph().nodes
    modifies g
    ensures g.Valid() && outputting' == [outputting[2], output, output] && inputting' == []
    ensures g.Graph() == Digraph(old(g.Graph().nodes),
      old(g.Graph().edges) + {(outputting[0], earlier)} + {(outputting[1], later)})
  {
    outputting', inputting' := ConnectFronts(g, outputting + [output] + [output], inputting + [earlier] + [later]);
    outputting', inputting' := ConnectFronts(g, outputting', inputting');
  }

  /** One iteration, with the outputs `previous` and `last` of the blocks so far: a cell is copied
      below the graph and fed by the two outputs at the front of the queue. None of the three
      assertions at its end fails. */
  method AddCell(
      g: AdjacencyDiGraph, outputting: seq<Node>, inputting: seq<Node>, i: nat, n: nat, ghost input: Node,
      ghost previous: Node, ghost last: Node)
    returns (outputting': seq<Node>, inputting': seq<Node>, ghost block: Block)
    requires g.Valid() && IsTwoTerminal(g.Graph(), input, last) && previous in g.Graph().nodes
    requires outputting == [previous, last, last] && inputting == []
    modifies g, g.source
    ensures g.Valid() && g.Graph() == WithBlock(old(g.Graph()), block, previous, last)
    ensures block.kind == KindAt(i, n) && IsBlock(block) && IsTwoTerminal(g.Graph(), input, block.output)
    ensures outputting' == [last, block.output, block.output] && inputting' == []
    ensures last in g.Graph().nodes && |g.Graph().nodes| == |old(g.Graph().nodes)| + CELL_SIZE
  {
    ghost var before := g.Graph();
    g.IsWellFormed();
    assert last in TerminalNodes(before);
    var earlier, later, output;
    earlier, later, output, block := CopyCell(g, i, n);
    assert earlier in InitialNodes(block.cell) && later in InitialNodes(block.cell);
    outputting', inputting' := ConnectCell(g, outputting, inputting, earlier, later, output);
    HangCell(before, block.cell, earlier, later, output, input, previous, last, g.Graph());
    CheckIteration(g, outputting', inputting', input, output);
  }

  /** The assertions at the end of an iteration. */
  method CheckIteration(
      g: AdjacencyDiGraph, outputting: seq<Node>, inputting: seq<Node>, ghost input: Node, ghost output: Node)
    requires g.Valid() && IsTwoTerminal(g.Graph(), input, output) && |inputting| == 0 && |outputting| == 3
  {
    g.IsWellFormed();
    var twoTerminal := IsTwoTerminalDag(g.Graph());
    assert twoTerminal;
    assert |inputting| == 0;
    assert |outputting| == 3;
  }

  function CellCount(reductions: nat, n: nat): nat {
    assert n * (reductions + 1) >= 0;
    reductions + n * (reductions + 1)
  }

  /** What every iteration keeps. */
  ghost predicate NasnetInvariant(
      g: Digraph<Node>, input: Node, blocks: seq<Block>, outputting: seq<Node>, inputting: seq<Node>, n: nat)
  {
    var i := |blocks|;
    var previous, last := OutputAfter(input, blocks, i - 1), OutputAfter(input, blocks, i);
    && g == NasnetGraph(input, blocks) && BlocksProper(blocks, n) && |g.nodes| == 1 + CELL_SIZE * i
    && IsTwoTerminal(g, input, last) && previous in g.nodes
    && outputting == [previous, last, last] && inputting == []
  }

  lemma InvariantKept(
      g: Digraph<Node>, grown: Digraph<Node>, input: Node, blocks: seq<Block>, block: Block,
      outputting: seq<Node>, outputting': seq<Node>, n: nat)
    requires NasnetInvariant(g, input, blocks, outputting, [], n)
    requires var previous, last := outputting[0], outputting[1];
      && grown == WithBlock(g, block, previous, last) && last in grown.nodes && |grown.nodes| == |g.nodes| + CELL_SIZE
      && IsTwoTerminal(grown, input, block.output) && block.kind == KindAt(|blocks|, n) && IsBlock(block)
      && outputting' == [last, block.output, block.output]
    ensures NasnetInvariant(grown, input, blocks + [block], outputting', [], n)
  {
    GraphAppended(input, blocks, block);
    ProperAppended(blocks, block, n);
    OutputsAppended(input, blocks, block);
  }

  lemma GraphAppended(input: Node, blocks: seq<Block>, block: Block)
    ensures NasnetGraph(input, blocks + [block])
         == WithBlock(NasnetGraph(input, blocks), block, OutputAfter(input, blocks, |blocks| - 1),
           OutputAfter(input, blocks, |blocks|))
  {
    var all, k := blocks + [block], |blocks|;
    assert all[..k] == blocks && all[k] == block;
    assert OutputAfter(input, all, k) == OutputAfter(input, blocks, k);
    assert OutputAfter(input, all, k - 1) == OutputAfter(input, blocks, k - 1);
  }

  lemma ProperAppended(blocks: seq<Block>, block: Block, n: nat)
    requires BlocksProper(blocks, n) && block.kind == KindAt(|blocks|, n) && IsBlock(block)
    ensures BlocksProper(blocks + [block], n)
  {
    var all := blocks + [block];
    forall i | 0 <= i < |all| ensures all[i].kind == KindAt(i, n) && IsBlock(all[i]) {
      assert i < |blocks| ==> all[i] == blocks[i];
      assert i == |blocks| ==> all[i] == block;
    }
  }

  lemma OutputsAppended(input: Node, blocks: seq<Block>, block: Block)
    ensures OutputAfter(input, blocks + [block], |blocks| + 1) == block.output
    ensures OutputAfter(input, blocks + [block], |blocks|) == OutputAfter(input, blocks, |blocks|)
  {
  }

  method Iterate(
      g: AdjacencyDiGraph, outputting: seq<Node>, inputting: seq<Node>, i: nat, n: nat, ghost input: Node,
      ghost blocks: seq<Block>)
    returns (outputting': seq<Node>, inputting': seq<Node>, ghost block: Block)
    requires g.Valid() && i == |blocks| && NasnetInvariant(g.Graph(), input, blocks, outputting, inputting, n)
    modifies g, g.source
    ensures g.Valid() && NasnetInvariant(g.Graph(), input, blocks + [block], outputting', inputting', n)
  {
    ghost var before := g.Graph();
    outputting', inputting', block := AddCell(g, outputting, inputting, i, n, input, outputting[0], outputting[1]);
    InvariantKept(before, g.Graph(), input, blocks, block, outputting, outputting', n);
  }

  /** For every number of reduction cells and every n, the result is two-terminal and consists
      of exactly the input node and the requested cells, chained in order. */
  method MakeFullTasoNasnet(source: NodeSource, reductions: nat, n: nat)
    returns (g: AdjacencyDiGraph, ghost input: Node, ghost blocks: seq<Block>)
    modifies source
    ensures fresh(g) && g.Valid() && |blocks| == CellCount(reductions, n)
    ensures IsTwoTerminal(g.Graph(), input, OutputAfter(input, blocks, |blocks|))
    ensures g.Graph() == NasnetGraph(input, blocks) && BlocksProper(blocks, n)
    ensures |g.Graph().nodes| == 1 + CELL_SIZE * |blocks|
  {
    g := new AdjacencyDiGraph(source);
    var first := g.AddNode();
    input := first;
    LoneNode(first, g.Graph());
    var outputting, inputting := [first, first, first], [];
    blocks := [];
    var numCells := CellCount(reductions, n);
    for i := 0 to numCells
      invariant g.Valid() && g.source == source && fresh(g) && |blocks| == i
      invariant NasnetInvariant(g.Graph(), input, blocks, outputting, inputting, n)
    {
      ghost var block;
      outputting, inputting, block := Iterate(g, outputting, inputting, i, n, input, blocks);
      blocks := blocks + [block];
    }
  }

  /** A block has 18 nodes, wired like those of the cell of its kind: the inputs first and the output
      last. */
  lemma BlockWiring(b: Block) returns (at: seq<Node>)
    requires IsBlock(b)
    ensures |at| == 18 && NoDuplicates(at) && b.cell.nodes == set x | x in at
    ensures at[0] == b.earlier && at[1] == b.later && at[17] == b.output
    ensures forall e :: e in b.cell.edges ==> e.0 in at && e.1 in at
    ensures forall x: nat, y: nat :: x < 18 && y < 18 ==>
      ((at[x], at[y]) in b.cell.edges <==> (x, y) in Cell(b.kind).edges)
  {
    var base, m :| PlacedAs(b, base, m);
    at := PlacesOf(b.kind, base, m);
    PlacesWired(b, base, m, at);
    assert IsPosition(0) && IsPosition(1) && IsPosition(17);
    RenamedIsWellFormed(PlacedCell(b.kind, base), m);
    forall e | e in b.cell.edges ensures e.0 in at && e.1 in at { assert (e.0, e.1) in b.cell.edges; }
  }

  lemma PlacesWired(b: Block, base: nat, m: map<Node, Node>, at: seq<Node>)
    requires PlacedAs(b, base, m) && |at| == 18
    requires forall k: nat :: IsPosition(k) ==> base + k in m && at[k] == m[base + k]
    ensures NoDuplicates(at)
    ensures forall x: nat, y: nat :: x < 18 && y < 18 ==>
      ((at[x], at[y]) in b.cell.edges <==> (x, y) in Cell(b.kind).edges)
  {
    forall x: nat, y: nat | x < 18 && y < 18
      ensures (at[x], at[y]) in b.cell.edges <==> (x, y) in Cell(b.kind).edges
      ensures at[x] == at[y] ==> x == y
    {
      PlacesMeet(b, base, m, at, x, y);
    }
  }

  lemma PlacesMeet(b: Block, base: nat, m: map<Node, Node>, at: seq<Node>, x: nat, y: nat)
    requires PlacedAs(b, base, m) && |at| == 18 && x < 18 && y < 18
    requires forall k: nat :: IsPosition(k) ==> base + k in m && at[k] == m[base + k]
    ensures (at[x], at[y]) in b.cell.edges <==> (x, y) in Cell(b.kind).edges
    ensures at[x] == at[y] ==> x == y
  {
    assert IsPosition(x) && IsPosition(y);
    PlacedEdge(b.kind, base, x, y);
    RenamedEdge(PlacedCell(b.kind, base), m, base + x, base + y);
  }

  lemma PlacesOf(kind: CellKind, base: nat, m: map<Node, Node>) returns (at: seq<Node>)
    requires m.Keys == PlacedCell(kind, base).nodes
    ensures |at| == 18 && m.Values == set x | x in at
    ensures forall k: nat :: IsPosition(k) ==> base + k in m && at[k] == m[base + k]
  {
    forall k: nat | IsPosition(k) ensures base + k in m { PositionIsPlaced(kind, base, k); }
    at := seq(18, k requires 0 <= k < 18 => assert IsPosition(k); var n: Node := base + k; m[n]);
    forall k: nat | IsPosition(k) ensures at[k] == m[base + k] {}
    forall x ensures x in m.Values <==> x in at {
      if x in m.Values {
        var n: Node :| n in m && m[n] == x;
        PlacedIsPosition(kind, base, n);
        assert IsPosition(n - base) && at[n - base] == x;
      }
      if x in at {
        var k: nat :| k < 18 && at[k] == x;
        assert IsPosition(k);
      }
    }
  }

  lemma PositionIsPlaced(kind: CellKind, base: nat, k: nat)
    requires k < 18
    ensures base + k in PlacedCell(kind, base).nodes
  {
    assert IsPosition(k);
    assert Placement(base)[k] == base + k;
  }

  lemma PlacedIsPosition(kind: CellKind, base: nat, n: Node)
    requires n in PlacedCell(kind, base).nodes
    ensures base <= n < base + 18
  {
  }

  lemma PlacedEdge(kind: CellKind, base: nat, x: nat, y: nat)
    requires x < 18 && y < 18
    ensures (base + x, base + y) in PlacedCell(kind, base).edges <==> (x, y) in Cell(kind).edges
  {
    var m := Placement(base);
    assert IsPosition(x) && IsPosition(y);
    RenamedEdge(Cell(kind), m, x, y);
  }

  /** A one-to-one renaming keeps edges and makes none. */
  lemma RenamedEdge(s: Digraph<Node>, m: map<Node, Node>, x: Node, y: Node)
    requires m.Keys == s.nodes && WellFormedEdges(s) && x in m && y in m
    requires forall u, v :: u in m && v in m && m[u] == m[v] ==> u == v
    ensures (m[x], m[y]) in Renamed(s, m).edges <==> (x, y) in s.edges
  {
    if (m[x], m[y]) in Renamed(s, m).edges {
      var e :| e in s.edges && (m[e.0], m[e.1]) == (m[x], m[y]);
      assert e == (x, y);
    }
  }

  /** A block's earlier input is fed by the output two blocks before it, and its later input by the
      output of the block before it. The input node stands for the outputs before the first block. */
  lemma {:induction false} NasnetHasEdges(input: Node, blocks: seq<Block>, k: nat)
    requires k < |blocks|
    ensures blocks[k].cell.edges <= NasnetGraph(input, blocks).edges
    ensures (if k < 2 then input else blocks[k - 2].output, blocks[k].earlier) in NasnetGraph(input, blocks).edges
    ensures (if k < 1 then input else blocks[k - 1].output, blocks[k].later) in NasnetGraph(input, blocks).edges
  {
    if k < |blocks| - 1 {
      NasnetHasEdges(input, blocks[..|blocks| - 1], k);
    }
  }

  /** There is no other edge but those two and those within the blocks. */
  lemma {:induction false} NasnetEdgeComesFrom(input: Node, blocks: seq<Block>, e: (Node, Node)) returns (k: nat)
    requires e in NasnetGraph(input, blocks).edges
    ensures k < |blocks|
    ensures || e in blocks[k].cell.edges
            || e == (if k < 2 then input else blocks[k - 2].output, blocks[k].earlier)
            || e == (if k < 1 then input else blocks[k - 1].output, blocks[k].later)
  {
    k := |blocks| - 1;
    if e in NasnetGraph(input, blocks[..k]).edges {
      k := NasnetEdgeComesFrom(input, blocks[..k], e);
    }
  }

  // ------------------------------------------------------------- how many of each

  function Reductions(count: nat, n: nat): nat {
    if count == 0 then 0 else Reductions(count - 1, n) + if KindAt(count - 1, n) == Reduction then 1 else 0
  }

  lemma {:induction false} ReductionsAre(count: nat, n: nat)
    ensures Reductions(count, n) == count / (n + 1)
  {
    if count > 0 {
      ReductionsAre(count - 1, n);
      NextQuotient(count - 1, n + 1);
    }
  }

  lemma NextQuotient(x: nat, d: nat)
    requires d > 0
    ensures (x + 1) / d == x / d + if x % d == d - 1 then 1 else 0
  {
    var q, r := x / d, x % d;
    assert x == q * d + r;
    if r == d - 1 {
      assert x + 1 == (q + 1) * d + 0;
      DivModOf(q + 1, 0, d);
    } else {
      DivModOf(q, r + 1, d);
    }
  }

  /** Exactly the requested number of the cells are reduction cells; the others, n before each
      and n at the end, are normal ones. */
  lemma NasnetCellCounts(reductions: nat, n: nat)
    ensures Reductions(CellCount(reductions, n), n) == reductions
    ensures CellCount(reductions, n) - reductions == n * (reductions + 1)
  {
    ReductionsAre(CellCount(reductions, n), n);
    CountAsQuotient(reductions, n);
  }

  lemma CountAsQuotient(reductions: nat, n: nat)
    ensures CellCount(reductions, n) / (n + 1) == reductions
  {
    assert CellCount(reductions, n) == reductions * (n + 1) + n;
    DivModOf(reductions, n, n + 1);
  }
}
