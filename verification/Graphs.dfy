/** The graph that the engine hands to a vertex program: edge cells and, for every
    vertex, the lists of its incoming and outgoing edges. */
module Graphs {
  import opened Reachability

  datatype Edge = Edge(src: nat, dst: nat)

  /** cells[e] gives the two ends of edge e; ins[v] and outs[v] list, in any order,
      the edges that end and that start in v. */
  datatype EdgeLists = EdgeLists(cells: seq<Edge>, ins: seq<seq<nat>>, outs: seq<seq<nat>>) {
    ghost predicate Valid()
    {
      && |ins| == |outs|
      && (forall e :: 0 <= e < |cells| ==> cells[e].src < |outs| && cells[e].dst < |ins|)
      && (forall v, j :: 0 <= v < |ins| && 0 <= j < |ins[v]| ==> ins[v][j] < |cells| && cells[ins[v][j]].dst == v)
      && (forall v, j :: 0 <= v < |outs| && 0 <= j < |outs[v]| ==> outs[v][j] < |cells| && cells[outs[v][j]].src == v)
      && (forall e :: 0 <= e < |cells| ==> e in ins[cells[e].dst] && e in outs[cells[e].src])
    }

    function N(): nat { |ins| }
  }

  type Graph = g: EdgeLists | g.Valid() witness EdgeLists([], [], [])

  function NumEdges(g: Graph, v: nat): nat
    requires v < g.N()
  {
    |g.ins[v]| + |g.outs[v]|
  }

  function InCell(g: Graph, v: nat, j: nat): (e: nat)
    requires v < g.N() && j < |g.ins[v]|
    ensures e < |g.cells| && g.cells[e].dst == v
  {
    g.ins[v][j]
  }

  function OutCell(g: Graph, v: nat, j: nat): (e: nat)
    requires v < g.N() && j < |g.outs[v]|
    ensures e < |g.cells| && g.cells[e].src == v
  {
    g.outs[v][j]
  }

  /** The cell behind vertex.edge(i): incoming edges come first. */
  function CellAt(g: Graph, v: nat, i: nat): (e: nat)
    requires v < g.N() && i < NumEdges(g, v)
    ensures e < |g.cells|
    ensures g.cells[e].src == v || g.cells[e].dst == v
  {
    if i < |g.ins[v]| then InCell(g, v, i) else OutCell(g, v, i - |g.ins[v]|)
  }

  /** vertex.edge(i)->vertex_id(): the end of the edge that is not v. */
  function NbrAt(g: Graph, v: nat, i: nat): (u: nat)
    requires v < g.N() && i < NumEdges(g, v)
    ensures u < g.N()
  {
    var edge := g.cells[CellAt(g, v, i)];
    if i < |g.ins[v]| then edge.src else edge.dst
  }

  lemma NbrLinked(g: Graph, v: nat, i: nat)
    requires v < g.N() && i < NumEdges(g, v)
    ensures (NbrAt(g, v, i), v) in Undirected(g) && (v, NbrAt(g, v, i)) in Undirected(g)
  {
    var e := CellAt(g, v, i);
    EndsAt(g, v, i);
    assert (g.cells[e].src, g.cells[e].dst) in Directed(g);
  }

  lemma EndsAt(g: Graph, v: nat, i: nat)
    requires v < g.N() && i < NumEdges(g, v)
    ensures g.cells[CellAt(g, v, i)] in {Edge(NbrAt(g, v, i), v), Edge(v, NbrAt(g, v, i))}
  {
  }

  ghost function Directed(g: Graph): Links
  {
    set e | 0 <= e < |g.cells| :: (g.cells[e].src, g.cells[e].dst)
  }

  ghost function Undirected(g: Graph): Links
  {
    Directed(g) + set e | 0 <= e < |g.cells| :: (g.cells[e].dst, g.cells[e].src)
  }

  lemma LinksOnVertices(g: Graph)
    ensures OnVertices(Directed(g), g.N()) && OnVertices(Undirected(g), g.N())
  {
  }

  /** Both ends of a cell see it, each with the other end as neighbour. */
  lemma CellSeenByEnds(g: Graph, e: nat) returns (atDst: nat, atSrc: nat)
    requires e < |g.cells|
    ensures var d := g.cells[e].dst;
            atDst < NumEdges(g, d) && CellAt(g, d, atDst) == e && NbrAt(g, d, atDst) == g.cells[e].src
    ensures var s := g.cells[e].src;
            atSrc < NumEdges(g, s) && CellAt(g, s, atSrc) == e && NbrAt(g, s, atSrc) == g.cells[e].dst
  {
    var d, s := g.cells[e].dst, g.cells[e].src;
    assert e in g.ins[d] && e in g.outs[s];
    atDst :| 0 <= atDst < |g.ins[d]| && g.ins[d][atDst] == e;
    var j :| 0 <= j < |g.outs[s]| && g.outs[s][j] == e;
    atSrc := |g.ins[s]| + j;
  }

  /** Every link between two vertices shows up in both edge lists. */
  lemma LinkSeen(g: Graph, u: nat, v: nat) returns (i: nat)
    requires (u, v) in Undirected(g)
    ensures v < g.N() && i < NumEdges(g, v) && NbrAt(g, v, i) == u
  {
    if (u, v) in Directed(g) {
      var e :| 0 <= e < |g.cells| && (g.cells[e].src, g.cells[e].dst) == (u, v);
      var atDst, atSrc := CellSeenByEnds(g, e);
      i := atDst;
    } else {
      var e :| 0 <= e < |g.cells| && (g.cells[e].dst, g.cells[e].src) == (u, v);
      var atDst, atSrc := CellSeenByEnds(g, e);
      i := atSrc;
    }
  }

  ghost predicate Incident(g: Graph, v: nat, e: int)
  {
    0 <= e < |g.cells| && (g.cells[e].src == v || g.cells[e].dst == v)
  }

  // ---------- writing one value to all out-edges of a vertex ----------

  function WriteOuts<T>(g: Graph, cells: seq<T>, v: nat, k: nat, value: T): (r: seq<T>)
    requires v < g.N() && k <= |g.outs[v]| && |cells| == |g.cells|
    ensures |r| == |cells|
  {
    if k == 0 then cells else WriteOuts(g, cells, v, k - 1, value)[OutCell(g, v, k - 1) := value]
  }

  lemma {:induction false} WrittenOuts<T>(g: Graph, cells: seq<T>, v: nat, k: nat, value: T, e: nat)
    requires v < g.N() && k <= |g.outs[v]| && |cells| == |g.cells| && e < |g.cells|
    ensures WriteOuts(g, cells, v, k, value)[e] == if e in g.outs[v][..k] then value else cells[e]
  {
    if k > 0 {
      WrittenOuts(g, cells, v, k - 1, value, e);
      assert g.outs[v][..k] == g.outs[v][..k - 1] + [OutCell(g, v, k - 1)];
    }
  }

  /** Writing to all out-edges of v writes to exactly the cells that v is the source of. */
  lemma AllOutsWritten<T>(g: Graph, cells: seq<T>, v: nat, value: T, e: nat)
    requires v < g.N() && |cells| == |g.cells| && e < |g.cells|
    ensures WriteOuts(g, cells, v, |g.outs[v]|, value)[e] == if g.cells[e].src == v then value else cells[e]
  {
    WrittenOuts(g, cells, v, |g.outs[v]|, value, e);
    assert g.outs[v][..|g.outs[v]|] == g.outs[v];
    if e in g.outs[v] {
      var j :| 0 <= j < |g.outs[v]| && g.outs[v][j] == e;
    }
  }
}
