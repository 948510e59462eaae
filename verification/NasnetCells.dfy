/** The two cells of the NASNet benchmark graphs, each built as a graph of its own. */
module NasnetCells {
  import opened Digraphs
  import opened AdjacencyGraphs

  datatype CellKind = Normal | Reduction

  const CELL_SIZE := 18

  /** A cell's wiring, by position: 0 and 1 are its earlier and later input, 17 its output. */
  predicate Wired(kind: CellKind, a: nat, b: nat) {
    if kind == Normal then NormalWired(a, b) || ConcatWired(a, b) else ReductionWired(a, b)
  }

  predicate ConcatWired(a: nat, b: nat) {
    12 <= a < 17 && b == 17
  }

  predicate NormalWired(a: nat, b: nat) {
    if a == 0 then b == 3 || b == 5 || b == 6 || b == 8 || b == 10 || b == 11
    else if a == 1 then b == 2 || b == 4 || b == 7 || b == 9
    else if a == 2 || a == 7 then b == 12
    else if a == 3 || a == 4 then b == 13
    else if a == 8 || a == 9 then b == 14
    else if a == 10 || a == 11 then b == 15
    else (a == 5 || a == 6) && b == 16
  }

  predicate ReductionWired(a: nat, b: nat) {
    if a == 0 then b == 2 || b == 4 || b == 5
    else if a == 1 then b == 3 || b == 8 || b == 10 || b == 11
    else if a == 2 || a == 3 then b == 12
    else if a == 4 || a == 10 then b == 13
    else if a == 5 || a == 8 then b == 14
    else if a == 6 || a == 11 then b == 15
    else if a == 7 || a == 9 then b == 16
    else if a == 12 then b == 6 || b == 9
    else if a == 13 then b == 7
    else 14 <= a < 17 && b == 17
  }

  /** How far below the inputs each position lies. */
  function Depth(kind: CellKind, x: nat): nat {
    if x < 2 then 0
    else if kind == Normal then if x < 12 then 1 else if x < 17 then 2 else 3
    else if x == 6 || x == 7 || x == 9 then 3
    else if x < 12 then 1
    else if x < 15 then 2
    else if x < 17 then 4
    else 5
  }

  lemma WiringDescends(kind: CellKind, a: nat, b: nat)
    requires Wired(kind, a, b)
    ensures a < 17 && 2 <= b < CELL_SIZE && Depth(kind, a) < Depth(kind, b)
  {
  }

  /** Everything but the inputs is fed, by this position among others. */
  function Feeder(kind: CellKind, x: nat): nat {
    if kind == Normal then
      if x == 2 || x == 4 || x == 7 || x == 9 then 1
      else if x < 12 then 0
      else if x == 12 then 2 else if x == 13 then 3 else if x == 14 then 8 else if x == 15 then 10
      else if x == 16 then 5 else 12
    else
      if x == 2 || x == 4 || x == 5 then 0
      else if x == 6 || x == 9 then 12
      else if x == 7 then 13
      else if x < 12 then 1
      else if x == 12 then 2 else if x == 13 then 4 else if x == 14 then 5 else if x == 15 then 6
      else if x == 16 then 7 else 14
  }

  /** Everything but the output feeds something, at this position among others. */
  function Drain(kind: CellKind, x: nat): nat {
    if kind == Normal then
      if x == 0 then 3 else if x == 1 then 2 else if x == 2 || x == 7 then 12 else if x == 3 || x == 4 then 13
      else if x == 8 || x == 9 then 14 else if x == 10 || x == 11 then 15 else if x < 12 then 16 else 17
    else
      if x == 0 then 2 else if x == 1 then 3 else if x == 2 || x == 3 then 12 else if x == 4 || x == 10 then 13
      else if x == 5 || x == 8 then 14 else if x == 6 || x == 11 then 15 else if x == 7 || x == 9 then 16
      else if x == 12 then 6 else if x == 13 then 7 else 17
  }

  lemma FeederFeeds(kind: CellKind, x: nat)
    requires 2 <= x < CELL_SIZE
    ensures Feeder(kind, x) < CELL_SIZE && Wired(kind, Feeder(kind, x), x)
  {
  }

  lemma DrainDrains(kind: CellKind, x: nat)
    requires x < 17
    ensures Drain(kind, x) < CELL_SIZE && Wired(kind, x, Drain(kind, x))
  {
  }

  predicate IsPosition(k: nat) {
    k < CELL_SIZE
  }

  function WiredBy(kind: CellKind): (nat, nat) -> bool {
    (a: nat, b: nat) => Wired(kind, a, b)
  }

  function Pairs(wired: (nat, nat) -> bool): set<(nat, nat)> {
    set a: nat, b: nat | a < CELL_SIZE && b < CELL_SIZE && wired(a, b) :: (a, b)
  }

  /** The cell on nodes 0 to 17. */
  function Cell(kind: CellKind): (g: Digraph<Node>)
    ensures WellFormedEdges(g)
  {
    Digraph((set k: nat | k < CELL_SIZE && IsPosition(k)), Pairs(WiredBy(kind)))
  }

  /** What every position is fed by. In a normal cell the later input (1) feeds two separable
      convolutions, an identity and an average pool, and the earlier input (0) all the others; in a
      reduction cell some operators are fed by earlier additions. Every addition joins two
      operators, and the output joins the additions that feed nothing else. */
  lemma CellEdges(kind: CellKind, a: nat, b: nat)
    ensures (a, b) in Cell(kind).edges <==> match kind
      case Normal =>
        || (b in {2, 4, 7, 9} && a == 1) || (b in {3, 5, 6, 8, 10, 11} && a == 0)
        || (b == 12 && a in {2, 7}) || (b == 13 && a in {3, 4}) || (b == 14 && a in {8, 9})
        || (b == 15 && a in {10, 11}) || (b == 16 && a in {5, 6}) || (b == 17 && a in {12, 13, 14, 15, 16})
      case Reduction =>
        || (b in {2, 4, 5} && a == 0) || (b in {3, 8, 10, 11} && a == 1)
        || (b == 12 && a in {2, 3}) || (b == 13 && a in {4, 10}) || (b == 14 && a in {5, 8})
        || (b == 15 && a in {6, 11}) || (b == 16 && a in {7, 9})
        || (b in {6, 9} && a == 12) || (b == 7 && a == 13) || (b == 17 && a in {14, 15, 16})
  {
  }

  ghost predicate Descends(g: Digraph<Node>, kind: CellKind) {
    && g.nodes == (set k: nat | k < CELL_SIZE && IsPosition(k))
    && forall a, b :: (a, b) in g.edges ==> a < 17 && 2 <= b < CELL_SIZE && Depth(kind, a) < Depth(kind, b)
  }

  lemma CellDescends(kind: CellKind)
    ensures Descends(Cell(kind), kind)
  {
    forall a, b | (a, b) in Cell(kind).edges ensures a < 17 && 2 <= b < CELL_SIZE && Depth(kind, a) < Depth(kind, b) {
      WiringDescends(kind, a, b);
    }
  }

  lemma DescendingIsAcyclic(g: Digraph<Node>, kind: CellKind)
    requires Descends(g, kind)
    ensures Acyclic(g) && WellFormed(g)
  {
    var rank: map<Node, int> := map k: nat | k < CELL_SIZE && IsPosition(k) :: Depth(kind, k);
    assert Ranks(g, rank);
    RankedIsAcyclic(g, rank);
  }

  ghost predicate Fed(g: Digraph<Node>, x: nat) {
    exists a :: (a, x) in g.edges
  }

  ghost predicate Drained(g: Digraph<Node>, x: nat) {
    exists b :: (x, b) in g.edges
  }

  lemma PositionIsFed(kind: CellKind, x: nat)
    requires 2 <= x < CELL_SIZE
    ensures Fed(Cell(kind), x)
  {
    FeederFeeds(kind, x);
    assert (Feeder(kind, x), x) in Cell(kind).edges;
  }

  lemma PositionIsDrained(kind: CellKind, x: nat)
    requires x < 17
    ensures Drained(Cell(kind), x)
  {
    DrainDrains(kind, x);
    assert (x, Drain(kind, x)) in Cell(kind).edges;
  }

  lemma AllFed(kind: CellKind)
    ensures forall x: nat :: 2 <= x < CELL_SIZE ==> Fed(Cell(kind), x)
  {
    forall x: nat | 2 <= x < CELL_SIZE ensures Fed(Cell(kind), x) {
      PositionIsFed(kind, x);
    }
  }

  lemma AllDrained(kind: CellKind)
    ensures forall x: nat :: x < 17 ==> Drained(Cell(kind), x)
  {
    forall x: nat | x < 17 ensures Drained(Cell(kind), x) {
      PositionIsDrained(kind, x);
    }
  }

  lemma EndsOf(g: Digraph<Node>, kind: CellKind)
    requires Descends(g, kind)
    requires forall x: nat :: 2 <= x < CELL_SIZE ==> Fed(g, x)
    requires forall x: nat :: x < 17 ==> Drained(g, x)
    ensures InitialNodes(g) == {0, 1} && TerminalNodes(g) == {17}
  {
    assert IsPosition(0) && IsPosition(1) && IsPosition(17);
    forall x | x in g.nodes
      ensures x in InitialNodes(g) <==> x < 2
      ensures x in TerminalNodes(g) <==> x == 17
    {
      forall e | e in g.edges ensures 2 <= e.1 && e.0 < 17 { assert (e.0, e.1) in g.edges; }
      if 2 <= x {
        assert Fed(g, x);
        var a :| (a, x) in g.edges;
        assert (a, x).1 == x;
      }
      if x < 17 {
        assert Drained(g, x);
        var b :| (x, b) in g.edges;
        assert (x, b).0 == x;
      }
    }
  }

  /** A cell is acyclic, its inputs are its initial nodes and its output is its terminal node. */
  lemma CellIsProper(kind: CellKind)
    ensures WellFormed(Cell(kind)) && Acyclic(Cell(kind))
    ensures InitialNodes(Cell(kind)) == {0, 1} && TerminalNodes(Cell(kind)) == {17}
  {
    ProperFrom(Cell(kind), kind) by {
      CellDescends(kind);
      AllFed(kind);
      AllDrained(kind);
    }
  }

  lemma ProperFrom(g: Digraph<Node>, kind: CellKind)
    requires Descends(g, kind)
    requires forall x: nat :: 2 <= x < CELL_SIZE ==> Fed(g, x)
    requires forall x: nat :: x < 17 ==> Drained(g, x)
    ensures WellFormed(g) && Acyclic(g)
    ensures InitialNodes(g) == {0, 1} && TerminalNodes(g) == {17}
  {
    DescendingIsAcyclic(g, kind);
    EndsOf(g, kind);
  }

  /** Positions as consecutive nodes. */
  function Placement(base: nat): map<Node, Node> {
    map k: nat | k < CELL_SIZE && IsPosition(k) :: base + k
  }

  // ------------------------------------------------------------- cells in place

  /** The cell on consecutive nodes, starting from base. */
  function PlacedCell(kind: CellKind, base: nat): Digraph<Node> {
    Renamed(Cell(kind), Placement(base))
  }

  lemma RenamedIsProper(s: Digraph<Node>, base: nat)
    requires WellFormed(s) && WellFormedEdges(s) && Acyclic(s) && s.nodes == Placement(base).Keys
    requires InitialNodes(s) == {0, 1} && TerminalNodes(s) == {17}
    ensures var g := Renamed(s, Placement(base));
      WellFormed(g) && Acyclic(g) && InitialNodes(g) == {base, base + 1} && TerminalNodes(g) == {base + 17}
  {
    var m := Placement(base);
    RenamedIsAcyclic(s, m);
    RenamedEnds(s, m);
    assert IsPosition(0) && IsPosition(1) && IsPosition(17);
    assert Image(m, {0, 1}) == {m[0], m[1]};
    assert Image(m, {17}) == {m[17]};
  }

  /** A placed cell has two initial nodes and one terminal node, and no cycle: none of the
      generators' own assertions about it fails. */
  lemma PlacedCellIsProper(kind: CellKind, base: nat)
    ensures var g := PlacedCell(kind, base);
      && WellFormed(g) && Acyclic(g) && |g.nodes| == CELL_SIZE
      && InitialNodes(g) == {base, base + 1} && TerminalNodes(g) == {base + 17}
  {
    CellIsProper(kind);
    RenamedIsProper(Cell(kind), base);
    PlacementSize(base);
  }

  lemma PlacementSize(base: nat)
    ensures |Placement(base).Values| == CELL_SIZE
  {
    var s := seq(CELL_SIZE, k requires 0 <= k < CELL_SIZE => base + k);
    LengthIsCardinality(s);
    PlacementIs(s, base);
    assert ElementsOf(s) == set x | x in s;
    assert |s| == CELL_SIZE;
    assert |ElementsOf(s)| == CELL_SIZE;
    assert Placement(base).Values == ElementsOf(s);
  }

  lemma PlacementIs(s: seq<Node>, base: nat)
    requires |s| == CELL_SIZE && forall k :: 0 <= k < CELL_SIZE ==> s[k] == base + k
    ensures Placement(base).Values == ElementsOf(s)
  {
    var m := Placement(base);
    forall x ensures x in m.Values <==> x in s {
      if x in m.Values {
        var k :| k in m && m[k] == x;
        assert s[k] == x;
      }
      if x in s {
        var k: nat :| k < CELL_SIZE && s[k] == x;
        assert IsPosition(k) && m[k] == x;
      }
    }
  }

  // -------------------------------------------------------------- the two builders

  /** The nodes of a cell under construction, by their role: the groups are consecutive. */
  datatype Roles = Roles(inputs: seq<Node>, sep: seq<Node>, id: seq<Node>, avg: seq<Node>, max: seq<Node>,
    add: seq<Node>, concat: seq<Node>)
  {
    function All(): seq<Node> {
      inputs + sep + id + avg + max + add + concat
    }

    predicate Sizes(kind: CellKind) {
      && |inputs| == 2 && |sep| == 5 && |add| == 5 && |concat| == 1
      && (if kind == Normal then |id| == 2 && |avg| == 3 && |max| == 0 else |id| == 1 && |avg| == 2 && |max| == 2)
    }
  }

  function NormalEdges(r: Roles): seq<(Node, Node)>
    requires r.Sizes(Normal)
  {
    [(r.inputs[0], r.sep[1]), (r.inputs[0], r.id[1]), (r.inputs[0], r.avg[1]), (r.inputs[0], r.avg[2]),
     (r.inputs[0], r.sep[3]), (r.inputs[0], r.sep[4]), (r.inputs[1], r.sep[0]), (r.inputs[1], r.id[0]),
     (r.inputs[1], r.avg[0]), (r.inputs[1], r.sep[2]), (r.sep[0], r.add[0]), (r.id[0], r.add[0]),
     (r.sep[1], r.add[1]), (r.sep[2], r.add[1]), (r.avg[0], r.add[2]), (r.id[1], r.add[2]),
     (r.avg[1], r.add[3]), (r.avg[2], r.add[3]), (r.sep[3], r.add[4]), (r.sep[4], r.add[4])]
  }

  function ReductionEdges(r: Roles): seq<(Node, Node)>
    requires r.Sizes(Reduction)
  {
    [(r.inputs[0], r.sep[0]), (r.inputs[0], r.sep[2]), (r.inputs[0], r.sep[3]), (r.inputs[1], r.max[1]),
     (r.inputs[1], r.sep[1]), (r.inputs[1], r.max[0]), (r.inputs[1], r.avg[0]), (r.sep[0], r.add[0]),
     (r.sep[1], r.add[0]), (r.max[0], r.add[1]), (r.sep[2], r.add[1]), (r.avg[0], r.add[2]),
     (r.sep[3], r.add[2]), (r.max[1], r.add[3]), (r.sep[4], r.add[3]), (r.avg[1], r.add[4]),
     (r.id[0], r.add[4]), (r.add[0], r.sep[4]), (r.add[0], r.avg[1]), (r.add[1], r.id[0]),
     (r.add[2], r.concat[0]), (r.add[3], r.concat[0]), (r.add[4], r.concat[0])]
  }

  ghost predicate Consecutive(s: seq<Node>, base: nat) {
    forall k :: 0 <= k < |s| ==> s[k] == base + k
  }

  ghost predicate RolesFrom(r: Roles, kind: CellKind, base: nat) {
    && r.Sizes(kind) && Consecutive(r.inputs, base) && Consecutive(r.sep, base + 2) && Consecutive(r.id, base + 7)
    && Consecutive(r.avg, base + 7 + |r.id|) && Consecutive(r.max, base + 10)
    && Consecutive(r.add, base + 12) && Consecutive(r.concat, base + 17)
  }

  lemma NormalEdgeIsWired(r: Roles, base: nat, e: (Node, Node))
    requires RolesFrom(r, Normal, base) && e in NormalEdges(r)
    ensures e.0 >= base && e.1 >= base && NormalWired(e.0 - base, e.1 - base)
  {
  }

  lemma WiredIsNormalEdge(r: Roles, base: nat, a: nat, b: nat, e: (Node, Node))
    requires RolesFrom(r, Normal, base) && NormalWired(a, b) && e == (base + a, base + b)
    ensures e in NormalEdges(r)
  {
  }

  lemma ReductionEdgeIsWired(r: Roles, base: nat, e: (Node, Node))
    requires RolesFrom(r, Reduction, base) && e in ReductionEdges(r)
    ensures e.0 >= base && e.1 >= base && ReductionWired(e.0 - base, e.1 - base)
  {
  }

  lemma WiredIsReductionEdge(r: Roles, base: nat, a: nat, b: nat, e: (Node, Node))
    requires RolesFrom(r, Reduction, base) && ReductionWired(a, b) && e == (base + a, base + b)
    ensures e in ReductionEdges(r)
  {
  }

  function Shifted(base: nat, d: (nat, nat)): (Node, Node) {
    (base + d.0, base + d.1)
  }

  /** The list holds exactly the wired pairs, as nodes. */
  ghost predicate Lists(list: seq<(Node, Node)>, wired: (nat, nat) -> bool, base: nat) {
    ElementsOf(list) == set d | d in Pairs(wired) :: Shifted(base, d)
  }

  function NodesOf(r: Roles): set<Node> {
    ElementsOf(r.inputs) + ElementsOf(r.sep) + ElementsOf(r.id) + ElementsOf(r.avg)
    + ElementsOf(r.max) + ElementsOf(r.add) + ElementsOf(r.concat)
  }

  lemma RolesCover(r: Roles, kind: CellKind, base: nat)
    requires RolesFrom(r, kind, base)
    ensures NodesOf(r) == Placement(base).Values
  {
    var all := r.All();
    PlacementIs(all, base);
    forall x ensures x in NodesOf(r) <==> x in ElementsOf(all) {
      assert x in all <==>
        x in r.inputs || x in r.sep || x in r.id || x in r.avg || x in r.max || x in r.add || x in r.concat;
    }
  }

  function ConcatEdges(add: seq<Node>, concat: Node): (r: seq<(Node, Node)>)
    ensures |r| == |add| && forall k :: 0 <= k < |r| ==> r[k] == (add[k], concat)
  {
    seq(|add|, k requires 0 <= k < |add| => (add[k], concat))
  }

  lemma ConcatEdgesListed(add: seq<Node>, concat: Node, base: nat)
    requires |add| == 5 && Consecutive(add, base + 12) && concat == base + 17
    ensures Lists(ConcatEdges(add, concat), ConcatWired, base)
  {
    var s := ConcatEdges(add, concat);
    forall e | e in s ensures exists d :: d in Pairs(ConcatWired) && Shifted(base, d) == e {
      var k :| 0 <= k < 5 && s[k] == e;
      assert (12 + k, 17) in Pairs(ConcatWired) && Shifted(base, (12 + k, 17)) == e;
    }
    forall d | d in Pairs(ConcatWired) ensures Shifted(base, d) in s {
      assert s[d.0 - 12] == Shifted(base, d);
    }
  }

  lemma BothListed(
      x: seq<(Node, Node)>, y: seq<(Node, Node)>, f: (nat, nat) -> bool, g: (nat, nat) -> bool, h: (nat, nat) -> bool,
      base: nat)
    requires Lists(x, f, base) && Lists(y, g, base) && Pairs(h) == Pairs(f) + Pairs(g)
    ensures ElementsOf(x) + ElementsOf(y) == set d | d in Pairs(h) :: Shifted(base, d)
  {
  }

  lemma ShiftedIsPlaced(kind: CellKind, base: nat)
    ensures PlacedCell(kind, base).edges == set d | d in Pairs(WiredBy(kind)) :: Shifted(base, d)
  {
    var m, g := Placement(base), Cell(kind);
    forall d | d in g.edges ensures (m[d.0], m[d.1]) == Shifted(base, d) {
    }
  }

  lemma SameEdges(edges: seq<(Node, Node)>, pairs: set<(nat, nat)>, base: nat)
    requires forall e :: e in edges ==> e.0 >= base && e.1 >= base && (e.0 - base, e.1 - base) in pairs
    requires forall d :: d in pairs ==> Shifted(base, d) in edges
    ensures ElementsOf(edges) == set d | d in pairs :: Shifted(base, d)
  {
    forall e | e in edges ensures exists d :: d in pairs && Shifted(base, d) == e {
      ShiftedBack(base, e);
    }
  }

  lemma ShiftedBack(base: nat, e: (Node, Node))
    requires e.0 >= base && e.1 >= base
    ensures Shifted(base, (e.0 - base, e.1 - base)) == e
  {
  }

  lemma NormalEdgeInPairs(r: Roles, base: nat, e: (Node, Node))
    requires RolesFrom(r, Normal, base) && e in NormalEdges(r)
    ensures e.0 >= base && e.1 >= base && (e.0 - base, e.1 - base) in Pairs(NormalWired)
  {
    NormalEdgeIsWired(r, base, e);
  }

  lemma NormalPairIsEdge(r: Roles, base: nat, d: (nat, nat))
    requires RolesFrom(r, Normal, base) && d in Pairs(NormalWired)
    ensures Shifted(base, d) in NormalEdges(r)
  {
    WiredIsNormalEdge(r, base, d.0, d.1, Shifted(base, d));
  }

  method ListNormalEdges(r: Roles, ghost base: nat) returns (edges: seq<(Node, Node)>)
    requires RolesFrom(r, Normal, base)
    ensures Lists(edges, NormalWired, base)
  {
    edges := NormalEdges(r);
    forall e | e in edges ensures e.0 >= base && e.1 >= base && (e.0 - base, e.1 - base) in Pairs(NormalWired) {
      NormalEdgeInPairs(r, base, e);
    }
    forall d | d in Pairs(NormalWired) ensures Shifted(base, d) in edges {
      NormalPairIsEdge(r, base, d);
    }
    SameEdges(edges, Pairs(NormalWired), base);
  }

  lemma ReductionEdgeInPairs(r: Roles, base: nat, e: (Node, Node))
    requires RolesFrom(r, Reduction, base) && e in ReductionEdges(r)
    ensures e.0 >= base && e.1 >= base && (e.0 - base, e.1 - base) in Pairs(ReductionWired)
  {
    ReductionEdgeIsWired(r, base, e);
  }

  lemma ReductionPairIsEdge(r: Roles, base: nat, d: (nat, nat))
    requires RolesFrom(r, Reduction, base) && d in Pairs(ReductionWired)
    ensures Shifted(base, d) in ReductionEdges(r)
  {
    WiredIsReductionEdge(r, base, d.0, d.1, Shifted(base, d));
  }

  method ListReductionEdges(r: Roles, ghost base: nat) returns (edges: seq<(Node, Node)>)
    requires RolesFrom(r, Reduction, base)
    ensures Lists(edges, ReductionWired, base)
  {
    edges := ReductionEdges(r);
    forall e | e in edges ensures e.0 >= base && e.1 >= base && (e.0 - base, e.1 - base) in Pairs(ReductionWired) {
      ReductionEdgeInPairs(r, base, e);
    }
    forall d | d in Pairs(ReductionWired) ensures Shifted(base, d) in edges {
      ReductionPairIsEdge(r, base, d);
    }
    SameEdges(edges, Pairs(ReductionWired), base);
  }

  lemma NormalIsComplete(edges: seq<(Node, Node)>, r: Roles, base: nat)
    requires RolesFrom(r, Normal, base) && Lists(edges, NormalWired, base)
    ensures ElementsOf(edges) + ElementsOf(ConcatEdges(r.add, r.concat[0])) == PlacedCell(Normal, base).edges
  {
    ConcatEdgesListed(r.add, r.concat[0], base);
    NormalPairs();
    BothListed(edges, ConcatEdges(r.add, r.concat[0]), NormalWired, ConcatWired, WiredBy(Normal), base);
    ShiftedIsPlaced(Normal, base);
  }

  lemma NormalPairs()
    ensures Pairs(WiredBy(Normal)) == Pairs(NormalWired) + Pairs(ConcatWired)
  {
  }

  lemma ReductionIsComplete(edges: seq<(Node, Node)>, base: nat)
    requires Lists(edges, ReductionWired, base)
    ensures ElementsOf(edges) == PlacedCell(Reduction, base).edges
  {
    assert Pairs(WiredBy(Reduction)) == Pairs(ReductionWired);
    ShiftedIsPlaced(Reduction, base);
  }

  method AddGroups3(g: AdjacencyDiGraph, m: nat, n: nat, k: nat) returns (a: seq<Node>, b: seq<Node>, c: seq<Node>)
    requires g.Valid()
    modifies g, g.source
    ensures g.Valid() && g.source.next == old(g.source.next) + m + n + k && |a| == m && |b| == n && |c| == k
    ensures Consecutive(a, old(g.source.next)) && Consecutive(b, old(g.source.next) + m)
    ensures Consecutive(c, old(g.source.next) + m + n)
    ensures g.Graph() == Digraph(old(g.Graph().nodes) + ElementsOf(a) + ElementsOf(b) + ElementsOf(c),
      old(g.Graph().edges))
  {
    a := g.AddNodes(m);
    b := g.AddNodes(n);
    c := g.AddNodes(k);
  }

  method AddRoles(g: AdjacencyDiGraph, kind: CellKind) returns (r: Roles)
    requires g.Valid() && g.Graph() == Digraph({}, {})
    modifies g, g.source
    ensures g.Valid() && g.source.next == old(g.source.next) + CELL_SIZE
    ensures RolesFrom(r, kind, old(g.source.next))
    ensures g.Graph() == Digraph(Placement(old(g.source.next)).Values, {})
  {
    ghost var base := g.source.next;
    var inputs, sep, id := AddGroups3(g, 2, 5, if kind == Normal then 2 else 1);
    ghost var first := g.Graph();
    assert first == Digraph(ElementsOf(inputs) + ElementsOf(sep) + ElementsOf(id), {});
    var avg := g.AddNodes(if kind == Normal then 3 else 2);
    var max, add, concat := AddGroups3(g, if kind == Normal then 0 else 2, 5, 1);
    r := Roles(inputs, sep, id, avg, max, add, concat);
    RolesCover(r, kind, base);
    SameNodes(g.Graph(), first, r);
  }

  lemma SameNodes(g: Digraph<Node>, first: Digraph<Node>, r: Roles)
    requires first == Digraph(ElementsOf(r.inputs) + ElementsOf(r.sep) + ElementsOf(r.id), {})
    requires g == Digraph(first.nodes + ElementsOf(r.avg) + ElementsOf(r.max) + ElementsOf(r.add) +
      ElementsOf(r.concat), {})
    ensures g == Digraph(NodesOf(r), {})
  {
  }

  ghost predicate ProperCell(g: Digraph<Node>, a: Node, b: Node, output: Node) {
    WellFormed(g) && Acyclic(g) && a != b && InitialNodes(g) == {a, b} && TerminalNodes(g) == {output}
  }

  /** The builders' assertions, which hold of every proper cell. */
  method CheckCell(g: Digraph<Node>, ghost a: Node, ghost b: Node, ghost output: Node)
    requires ProperCell(g, a, b, output)
  {
    assert |{output}| == 1 && |{a, b}| == 2;
    assert |TerminalNodes(g)| == 1;
    assert |InitialNodes(g)| == 2;
    var acyclic := IsAcyclic(g);
    assert acyclic;
  }

  method AddNormalEdges(
      g: AdjacencyDiGraph, edges: seq<(Node, Node)>, add: seq<Node>, concat: Node, ghost goal: Digraph<Node>)
    requires g.Valid() && g.Graph() == Digraph(goal.nodes, {}) && WellFormed(goal)
    requires goal.edges == ElementsOf(edges) + ElementsOf(ConcatEdges(add, concat))
    modifies g
    ensures g.Valid() && g.Graph() == goal
  {
    ghost var last := ConcatEdges(add, concat);
    InGraph(edges, last, goal);
    g.AddEdges(edges);
    assert forall k :: 0 <= k < |add| ==> last[k] in last && last[k] == (add[k], concat);
    AddConcatEdges(g, add, concat);
  }

  method AddConcatEdges(g: AdjacencyDiGraph, add: seq<Node>, concat: Node)
    requires g.Valid() && forall k :: 0 <= k < |add| ==> add[k] in g.Graph().nodes && concat in g.Graph().nodes
    modifies g
    ensures g.Valid()
    ensures g.Graph() == Digraph(old(g.Graph().nodes), old(g.Graph().edges) + ElementsOf(ConcatEdges(add, concat)))
  {
    ghost var last := ConcatEdges(add, concat);
    for k := 0 to |add|
      invariant g.Valid()
      invariant g.Graph() == Digraph(old(g.Graph().nodes), old(g.Graph().edges) + ElementsOf(last[..k]))
    {
      g.AddEdge(add[k], concat);
      OneMore(last, k);
    }
    assert last[..|add|] == last;
  }

  lemma OneMore(s: seq<(Node, Node)>, k: nat)
    requires k < |s|
    ensures ElementsOf(s[..k + 1]) == ElementsOf(s[..k]) + {s[k]}
  {
    assert s[..k + 1] == s[..k] + [s[k]];
  }

  lemma InGraph(a: seq<(Node, Node)>, b: seq<(Node, Node)>, g: Digraph<Node>)
    requires WellFormed(g) && ElementsOf(a) + ElementsOf(b) == g.edges
    ensures forall e :: e in a || e in b ==> e.0 in g.nodes && e.1 in g.nodes
  {
    forall e | e in a || e in b ensures e.0 in g.nodes && e.1 in g.nodes {
      assert e in ElementsOf(a) + ElementsOf(b);
      assert (e.0, e.1) in g.edges;
    }
  }

  lemma PlacedIsProper(kind: CellKind, base: nat)
    ensures ProperCell(PlacedCell(kind, base), base, base + 1, base + 17)
    ensures PlacedCell(kind, base).nodes == Placement(base).Values
  {
    PlacedCellIsProper(kind, base);
  }

  method FinishNormal(
      g: AdjacencyDiGraph, edges: seq<(Node, Node)>, add: seq<Node>, concat: Node,
      ghost goal: Digraph<Node>, ghost a: Node, ghost b: Node, ghost output: Node)
    requires g.Valid() && g.Graph() == Digraph(goal.nodes, {}) && ProperCell(goal, a, b, output)
    requires goal.edges == ElementsOf(edges) + ElementsOf(ConcatEdges(add, concat))
    modifies g
    ensures g.Valid() && g.Graph() == goal
  {
    AddNormalEdges(g, edges, add, concat, goal);
    CheckCell(g.Graph(), a, b, output);
  }

  method FinishReduction(
      g: AdjacencyDiGraph, edges: seq<(Node, Node)>, ghost goal: Digraph<Node>, ghost a: Node, ghost b: Node,
      ghost output: Node)
    requires g.Valid() && g.Graph() == Digraph(goal.nodes, {}) && ProperCell(goal, a, b, output)
    requires goal.edges == ElementsOf(edges)
    modifies g
    ensures g.Valid() && g.Graph() == goal
  {
    InGraph(edges, [], goal);
    g.AddEdges(edges);
    assert g.Graph() == goal;
    CheckCell(g.Graph(), a, b, output);
  }

  method StartCell(source: NodeSource, kind: CellKind) returns (g: AdjacencyDiGraph, r: Roles)
    modifies source
    ensures fresh(g) && g.Valid() && g.source == source && source.next == old(source.next) + CELL_SIZE
    ensures RolesFrom(r, kind, old(source.next))
    ensures g.Graph() == Digraph(Placement(old(source.next)).Values, {})
  {
    g := new AdjacencyDiGraph(source);
    r := AddRoles(g, kind);
  }

  method MakeNormalTasoNasnetCell(source: NodeSource) returns (g: AdjacencyDiGraph, earlier: Node, later: Node)
    modifies source
    ensures fresh(g) && g.Valid() && g.source == source && source.next == old(source.next) + CELL_SIZE
    ensures g.Graph() == PlacedCell(Normal, earlier) && earlier == old(source.next) && later == earlier + 1
  {
    var r;
    g, r := StartCell(source, Normal);
    earlier, later := r.inputs[0], r.inputs[1];
    var edges := ListNormalEdges(r, earlier);
    NormalIsComplete(edges, r, earlier);
    PlacedIsProper(Normal, earlier);
    FinishNormal(g, edges, r.add, r.concat[0], PlacedCell(Normal, earlier), earlier, later, earlier + 17);
  }

  method MakeReductionTasoNasnetCell(source: NodeSource) returns (g: AdjacencyDiGraph, earlier: Node, later: Node)
    modifies source
    ensures fresh(g) && g.Valid() && g.source == source && source.next == old(source.next) + CELL_SIZE
    ensures g.Graph() == PlacedCell(Reduction, earlier) && earlier == old(source.next) && later == earlier + 1
  {
    var r;
    g, r := StartCell(source, Reduction);
    earlier, later := r.inputs[0], r.inputs[1];
    var edges := ListReductionEdges(r, earlier);
    ReductionIsComplete(edges, earlier);
    PlacedIsProper(Reduction, earlier);
    FinishReduction(g, edges, PlacedCell(Reduction, earlier), earlier, later, earlier + 17);
  }
}
