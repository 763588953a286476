/** Single-source shortest paths with unit weights and -1 for "not reached" (sssp). */
module Sssp {
  import opened Reachability
  import opened Graphs
  import opened Engine

  datatype Distances = Distances(data: seq<int>, cells: seq<int>) {
    predicate Fits(g: Graph) { |data| == g.N() && |cells| == |g.cells| }
  }

  /** The running minimum over the first k incoming cells that are not -1. */
  function MinIn(g: Graph, cells: seq<int>, v: nat, k: nat): int
    requires v < g.N() && k <= |g.ins[v]| && |cells| == |g.cells|
  {
    if k == 0 then -1 else
    var before := MinIn(g, cells, v, k - 1);
    var seen := cells[InCell(g, v, k - 1)];
    if seen <= -1 then before
    else if before == -1 then seen
    else if before > seen then seen
    else before
  }

  /** Set a vertex and broadcast its value on all its outgoing edges. */
  function Assign(g: Graph, p: Distances, v: nat, value: int): (q: Distances)
    requires v < g.N() && p.Fits(g)
    ensures q.Fits(g)
  {
    Distances(p.data[v := value], WriteOuts(g, p.cells, v, |g.outs[v]|, value))
  }

  /** update() for the selected source; 0 stands for "no source selected". */
  function UpdateVertex(g: Graph, source: nat, iter: nat, p: Distances, v: nat): Distances
  {
    if v >= g.N() || !p.Fits(g) then p
    else if iter == 0 then Assign(g, p, v, -1)
    else if iter == 1 then
      if source == v && source != 0 then Assign(g, p, v, 0) else p
    else if source == v && source != 0 then p
    else
      var min := MinIn(g, p.cells, v, |g.ins[v]|);
      if min > -1 && (p.data[v] == -1 || min + 1 < p.data[v]) then Assign(g, p, v, min + 1) else p
  }

  function Program(g: Graph, source: nat): Update<Distances>
  {
    (iter: nat, p: Distances, v: nat) => Effect(UpdateVertex(g, source, iter, p, v), {})
  }

  // ---------- helpers over cells ----------

  lemma AssignSets(g: Graph, p: Distances, v: nat, value: int)
    requires v < g.N() && p.Fits(g)
    ensures forall e :: 0 <= e < |g.cells| ==>
              Assign(g, p, v, value).cells[e] == if g.cells[e].src == v then value else p.cells[e]
  {
    forall e: nat | e < |g.cells|
      ensures Assign(g, p, v, value).cells[e] == if g.cells[e].src == v then value else p.cells[e]
    {
      AllOutsWritten(g, p.cells, v, value, e);
    }
  }

  lemma {:induction false} MinInIsMinimum(g: Graph, cells: seq<int>, v: nat, k: nat)
    requires v < g.N() && k <= |g.ins[v]| && |cells| == |g.cells|
    ensures var m := MinIn(g, cells, v, k);
            && m >= -1
            && (forall j :: 0 <= j < k && cells[InCell(g, v, j)] > -1 ==> -1 < m <= cells[InCell(g, v, j)])
            && (m > -1 ==> exists j :: 0 <= j < k && m == cells[InCell(g, v, j)])
  {
    if k > 0 {
      MinInIsMinimum(g, cells, v, k - 1);
    }
  }

  // ---------- the invariant: values are lengths of real walks ----------

  ghost predicate Inv(g: Graph, source: nat, p: Distances)
  {
    && p.Fits(g)
    && (forall e :: 0 <= e < |g.cells| ==> p.cells[e] == p.data[g.cells[e].src])
    && (forall v: nat :: v < g.N() ==> p.data[v] >= -1)
    && (forall v: nat :: v < g.N() && p.data[v] > -1 ==> Within(Directed(g), source, v, p.data[v]))
  }

  /** x is at least as good an estimate as y. */
  predicate NoWorse(x: int, y: int)
  {
    y == -1 || -1 < x <= y
  }

  ghost predicate Improved(g: Graph, q: Distances, p: Distances)
  {
    q.Fits(g) && p.Fits(g) && forall v :: 0 <= v < g.N() ==> NoWorse(q.data[v], p.data[v])
  }

  /** v is no further than one link beyond the old values of its predecessors. */
  ghost predicate Relaxed(g: Graph, q: Distances, p: Distances, v: nat)
    requires q.Fits(g) && p.Fits(g) && v < g.N()
  {
    forall u: nat :: (u, v) in Directed(g) && u < g.N() && p.data[u] > -1 ==> -1 < q.data[v] <= p.data[u] + 1
  }

  lemma DirectedSeen(g: Graph, u: nat, v: nat) returns (j: nat)
    requires (u, v) in Directed(g)
    ensures u < g.N() && v < g.N() && j < |g.ins[v]| && g.cells[InCell(g, v, j)] == Edge(u, v)
  {
    var e :| 0 <= e < |g.cells| && (g.cells[e].src, g.cells[e].dst) == (u, v);
    assert e in g.ins[v];
    j :| 0 <= j < |g.ins[v]| && g.ins[v][j] == e;
  }

  lemma MinOverPredecessors(g: Graph, source: nat, p: Distances, v: nat)
    requires v < g.N() && Inv(g, source, p)
    ensures var m := MinIn(g, p.cells, v, |g.ins[v]|);
            && m >= -1
            && (forall u: nat :: (u, v) in Directed(g) && u < g.N() && p.data[u] > -1 ==> -1 < m <= p.data[u])
            && (m > -1 ==> Within(Directed(g), source, v, m + 1))
  {
    var m := MinIn(g, p.cells, v, |g.ins[v]|);
    MinInIsMinimum(g, p.cells, v, |g.ins[v]|);
    forall u: nat | (u, v) in Directed(g) && u < g.N() && p.data[u] > -1
      ensures -1 < m <= p.data[u]
    {
      var j := DirectedSeen(g, u, v);
    }
    if m > -1 {
      var j :| 0 <= j < |g.ins[v]| && m == p.cells[InCell(g, v, j)];
      var u := g.cells[InCell(g, v, j)].src;
      assert (u, v) in Directed(g) && Within(Directed(g), source, u, m);
    }
  }

  lemma AssignKeepsInv(g: Graph, source: nat, p: Distances, v: nat, value: nat)
    requires v < g.N() && Inv(g, source, p) && Within(Directed(g), source, v, value)
    ensures Inv(g, source, Assign(g, p, v, value))
  {
    AssignSets(g, p, v, value);
  }

  /** A vertex that is relaxed already may keep its value. */
  lemma KeepsRelaxed(g: Graph, p: Distances, v: nat, m: int)
    requires v < g.N() && p.Fits(g) && m >= -1 && !(m > -1 && (p.data[v] == -1 || m + 1 < p.data[v])) && p.data[v] >= -1
    requires forall u: nat :: (u, v) in Directed(g) && u < g.N() && p.data[u] > -1 ==> -1 < m <= p.data[u]
    ensures Relaxed(g, p, p, v)
  {
  }

  lemma LowersToRelaxed(g: Graph, p: Distances, q: Distances, v: nat, m: int)
    requires v < g.N() && p.Fits(g) && q.Fits(g) && m > -1 && q.data == p.data[v := m + 1]
    requires forall u: nat :: (u, v) in Directed(g) && u < g.N() && p.data[u] > -1 ==> -1 < m <= p.data[u]
    ensures Relaxed(g, q, p, v)
  {
  }

  lemma LoweringImproves(g: Graph, p: Distances, q: Distances, v: nat, value: int)
    requires v < g.N() && p.Fits(g) && q.Fits(g) && q.data == p.data[v := value]
    requires value > -1 && (p.data[v] == -1 || value < p.data[v])
    requires forall w :: 0 <= w < g.N() ==> p.data[w] >= -1
    ensures Improved(g, q, p)
  {
  }

  lemma NoneWorse(g: Graph, p: Distances)
    requires p.Fits(g) && forall w :: 0 <= w < g.N() ==> p.data[w] >= -1
    ensures Improved(g, p, p)
  {
  }

  lemma UpdateKeepsInv(g: Graph, source: nat, iter: nat, p: Distances, v: nat)
    requires v < g.N() && iter > 1 && Inv(g, source, p)
    ensures Inv(g, source, UpdateVertex(g, source, iter, p, v))
  {
    MinOverPredecessors(g, source, p, v);
    var m := MinIn(g, p.cells, v, |g.ins[v]|);
    if m > -1 {
      AssignKeepsInv(g, source, p, v, m + 1);
    }
  }

  lemma UpdateImproves(g: Graph, source: nat, iter: nat, p: Distances, v: nat)
    requires v < g.N() && iter > 1 && Inv(g, source, p) && 0 < source < g.N() && p.data[source] == 0
    ensures var q := UpdateVertex(g, source, iter, p, v);
            Inv(g, source, q) && Improved(g, q, p) && q.data[source] == 0
  {
    UpdateKeepsInv(g, source, iter, p, v);
    NoneWorse(g, p);
    var q := UpdateVertex(g, source, iter, p, v);
    if q != p {
      LoweringImproves(g, p, q, v, q.data[v]);
    }
  }

  lemma UpdateRelaxes(g: Graph, source: nat, iter: nat, p: Distances, v: nat)
    requires v < g.N() && iter > 1 && Inv(g, source, p) && v != source
    ensures UpdateVertex(g, source, iter, p, v).Fits(g) && Relaxed(g, UpdateVertex(g, source, iter, p, v), p, v)
  {
    MinOverPredecessors(g, source, p, v);
    var m := MinIn(g, p.cells, v, |g.ins[v]|);
    if m > -1 && (p.data[v] == -1 || m + 1 < p.data[v]) {
      LowersToRelaxed(g, p, Assign(g, p, v, m + 1), v, m);
    } else {
      KeepsRelaxed(g, p, v, m);
    }
  }

  lemma {:induction false} PassImproves(g: Graph, source: nat, iter: nat, order: seq<nat>, p: Distances)
    requires iter > 1 && Inv(g, source, p) && 0 < source < g.N() && p.data[source] == 0
    requires forall i :: 0 <= i < |order| ==> order[i] < g.N()
    ensures var q := Pass(Program(g, source), iter, Vertices(g.N()), order, p).prog;
            Inv(g, source, q) && Improved(g, q, p) && q.data[source] == 0
  {
    if order != [] {
      var init, v := order[..|order| - 1], order[|order| - 1];
      PassImproves(g, source, iter, init, p);
      UpdateImproves(g, source, iter, Pass(Program(g, source), iter, Vertices(g.N()), init, p).prog, v);
    }
  }

  /** Once visited, a vertex stays within one link of its predecessors' values before the pass. */
  lemma {:induction false} VisitRelaxes(g: Graph, source: nat, iter: nat, order: seq<nat>, p: Distances, v: nat)
    requires iter > 1 && Inv(g, source, p) && 0 < source < g.N() && p.data[source] == 0
    requires (forall i :: 0 <= i < |order| ==> order[i] < g.N()) && v in order && v != source
    ensures var q := Pass(Program(g, source), iter, Vertices(g.N()), order, p).prog;
            q.Fits(g) && Relaxed(g, q, p, v)
  {
    var init, last := order[..|order| - 1], order[|order| - 1];
    PassImproves(g, source, iter, init, p);
    var before := Pass(Program(g, source), iter, Vertices(g.N()), init, p).prog;
    UpdateImproves(g, source, iter, before, last);
    if last == v {
      UpdateRelaxes(g, source, iter, before, v);
      assert Relaxed(g, UpdateVertex(g, source, iter, before, v), before, v);
    } else {
      VisitRelaxes(g, source, iter, init, p, v);
    }
  }

  lemma PassRelaxes(g: Graph, source: nat, iter: nat, order: seq<nat>, p: Distances)
    requires iter > 1 && Inv(g, source, p) && 0 < source < g.N() && p.data[source] == 0
    requires forall i :: 0 <= i < |order| ==> order[i] < g.N()
    ensures var q := Pass(Program(g, source), iter, Vertices(g.N()), order, p).prog;
            && Inv(g, source, q) && Improved(g, q, p) && q.data[source] == 0
            && forall v :: v in order && v != source ==> Relaxed(g, q, p, v)
  {
    PassImproves(g, source, iter, order, p);
    forall v | v in order && v != source
      ensures Relaxed(g, Pass(Program(g, source), iter, Vertices(g.N()), order, p).prog, p, v)
    {
      VisitRelaxes(g, source, iter, order, p, v);
    }
  }

  // ---------- the two setup passes ----------

  function Unreached(g: Graph): Distances
  {
    Distances(seq(g.N(), v => -1), seq(|g.cells|, e => -1))
  }

  lemma {:induction false} ResetPass(g: Graph, source: nat, order: seq<nat>, p: Distances)
    requires p.Fits(g) && forall i :: 0 <= i < |order| ==> order[i] < g.N()
    ensures var q := Pass(Program(g, source), 0, Vertices(g.N()), order, p).prog;
            && q.Fits(g) && (forall v :: v in order ==> q.data[v] == -1)
            && (forall e :: 0 <= e < |g.cells| && g.cells[e].src in order ==> q.cells[e] == -1)
  {
    if order != [] {
      var init, v := order[..|order| - 1], order[|order| - 1];
      ResetPass(g, source, init, p);
      AssignSets(g, Pass(Program(g, source), 0, Vertices(g.N()), init, p).prog, v, -1);
      assert order == init + [v];
    }
  }

  lemma {:induction false} SourcePass(g: Graph, source: nat, order: seq<nat>)
    requires forall i :: 0 <= i < |order| ==> order[i] < g.N()
    ensures var q := Pass(Program(g, source), 1, Vertices(g.N()), order, Unreached(g)).prog;
            q == if source in order && source != 0 then Assign(g, Unreached(g), source, 0) else Unreached(g)
  {
    if order != [] {
      var init, v := order[..|order| - 1], order[|order| - 1];
      SourcePass(g, source, init);
      assert order == init + [v];
      if v == source && source != 0 && source in init {
        var once := Assign(g, Unreached(g), source, 0);
        AssignSets(g, Unreached(g), source, 0);
        AssignSets(g, once, source, 0);
        assert Assign(g, once, source, 0) == once;
      }
    }
  }

  lemma ResetAll(g: Graph, source: nat, order: seq<nat>, p: Distances)
    requires p.Fits(g) && IsOrder(g.N(), order)
    ensures Pass(Program(g, source), 0, Vertices(g.N()), order, p).prog == Unreached(g)
  {
    ResetPass(g, source, order, p);
    forall v: nat | v < g.N()
      ensures v in order
    {
    }
  }

  lemma AfterSetup(g: Graph, source: nat, orders: seq<seq<nat>>, start: Distances)
    requires AreOrders(g.N(), orders) && |orders| == 2 && start.Fits(g)
    ensures var r := RunPasses(Program(g, source), false, g.N(), orders, start);
            !r.dry && r.prog == if 0 < source < g.N() then Assign(g, Unreached(g), source, 0) else Unreached(g)
  {
    FirstPass(Program(g, source), false, g.N(), orders[0], start);
    assert orders[..1] == [orders[0]];
    ResetAll(g, source, orders[0], start);
    SourcePass(g, source, orders[1]);
  }

  // ---------- exactness ----------

  ghost predicate ExactWithin(g: Graph, source: nat, data: seq<int>, k: nat)
  {
    |data| == g.N() && forall v: nat, j: nat :: v < g.N() && j <= k && Within(Directed(g), source, v, j) ==> -1 < data[v] <= j
  }

  /** data holds the unit-weight distances from source, and -1 where there is no walk at all. */
  ghost predicate AreDistances(g: Graph, source: nat, data: seq<int>)
  {
    && |data| == g.N()
    && forall v: nat :: v < g.N() ==>
         if data[v] > -1
         then Within(Directed(g), source, v, data[v]) && forall j: nat :: Within(Directed(g), source, v, j) ==> data[v] <= j
         else data[v] == -1 && !Connected(Directed(g), source, v)
  }

  /** After pass k (k >= 1): the invariant, and every vertex within k - 1 links is exact. */
  lemma {:induction false} ExactAfterPasses(g: Graph, source: nat, orders: seq<seq<nat>>, start: Distances)
    requires AreOrders(g.N(), orders) && |orders| >= 2 && start.Fits(g) && 0 < source < g.N()
    ensures var r := RunPasses(Program(g, source), false, g.N(), orders, start);
            && !r.dry && Inv(g, source, r.prog) && r.prog.data[source] == 0
            && ExactWithin(g, source, r.prog.data, |orders| - 2)
  {
    var iter := |orders| - 1;
    if iter == 1 {
      AfterSetup(g, source, orders, start);
      AssignSets(g, Unreached(g), source, 0);
    } else {
      ExactAfterPasses(g, source, orders[..iter], start);
      var p := RunPasses(Program(g, source), false, g.N(), orders[..iter], start).prog;
      PassRelaxes(g, source, iter, orders[iter], p);
      var q := Pass(Program(g, source), iter, Vertices(g.N()), orders[iter], p).prog;
      OneLinkFurther(g, source, p, q, orders[iter], iter - 2);
    }
  }

  lemma OneLinkFurther(g: Graph, source: nat, p: Distances, q: Distances, order: seq<nat>, k: nat)
    requires p.Fits(g) && q.Fits(g) && source < g.N() && q.data[source] == 0 && IsOrder(g.N(), order)
    requires forall v :: v in order && v != source ==> Relaxed(g, q, p, v)
    requires ExactWithin(g, source, p.data, k)
    ensures ExactWithin(g, source, q.data, k + 1)
  {
    forall v: nat, j: nat | v < g.N() && j <= k + 1 && Within(Directed(g), source, v, j)
      ensures -1 < q.data[v] <= j
    {
      if v != source {
        LinksOnVertices(g);
        var u: nat :| (u, v) in Directed(g) && Within(Directed(g), source, u, j - 1);
        assert v in order && Relaxed(g, q, p, v);
      }
    }
  }

  lemma ExactEverywhere(g: Graph, source: nat, p: Distances)
    requires Inv(g, source, p) && source < g.N() && ExactWithin(g, source, p.data, g.N() - 1)
    ensures AreDistances(g, source, p.data)
  {
    LinksOnVertices(g);
    forall v: nat, j: nat | v < g.N() && Within(Directed(g), source, v, j)
      ensures -1 < p.data[v] <= j
    {
      ShortWalk(Directed(g), g.N(), source, v);
      if j >= g.N() {
        assert p.data[v] <= g.N() - 1;
      }
    }
  }

  /** With as many passes as vertices (and the reset pass) the values are the distances:
      exactly when a source other than vertex 0 was selected. */
  lemma FinalDistances(g: Graph, source: nat, orders: seq<seq<nat>>, start: Distances)
    requires AreOrders(g.N(), orders) && |orders| >= 2 && |orders| > g.N() && start.Fits(g) && source < g.N()
    ensures var r := RunPasses(Program(g, source), false, g.N(), orders, start);
            AreDistances(g, source, r.prog.data) <==> source != 0
  {
    if source != 0 {
      ExactAfterPasses(g, source, orders, start);
      ExactEverywhere(g, source, RunPasses(Program(g, source), false, g.N(), orders, start).prog);
    } else {
      NoSource(g, orders, start);
      ConnectedSelf(Directed(g), 0);
    }
  }

  lemma {:induction false} NoSource(g: Graph, orders: seq<seq<nat>>, start: Distances)
    requires AreOrders(g.N(), orders) && |orders| >= 2 && start.Fits(g)
    ensures RunPasses(Program(g, 0), false, g.N(), orders, start) == Run(Unreached(g), {}, false)
  {
    var iter := |orders| - 1;
    if iter == 1 {
      AfterSetup(g, 0, orders, start);
      NoTasks(g, 0, 1, Vertices(g.N()), orders[1], RunPasses(Program(g, 0), false, g.N(), orders[..1], start).prog);
    } else {
      NoSource(g, orders[..iter], start);
      UnreachedStays(g, iter, orders[iter]);
    }
  }

  lemma {:induction false} NoTasks(g: Graph, source: nat, iter: nat, scheduled: set<nat>, order: seq<nat>, p: Distances)
    ensures Pass(Program(g, source), iter, scheduled, order, p).tasks == {}
  {
    if order != [] {
      NoTasks(g, source, iter, scheduled, order[..|order| - 1], p);
    }
  }

  lemma {:induction false} UnreachedStays(g: Graph, iter: nat, order: seq<nat>)
    requires iter > 1
    ensures Pass(Program(g, 0), iter, Vertices(g.N()), order, Unreached(g)) == Effect(Unreached(g), {})
  {
    if order != [] {
      UnreachedStays(g, iter, order[..|order| - 1]);
      var v := order[|order| - 1];
      if v < g.N() {
        MinInIsMinimum(g, Unreached(g).cells, v, |g.ins[v]|);
      }
    }
  }

  /** A pass that changes no value proves all of them final. */
  lemma QuietPassIsFinal(g: Graph, source: nat, orders: seq<seq<nat>>, start: Distances)
    requires AreOrders(g.N(), orders) && |orders| >= 3 && start.Fits(g) && 0 < source < g.N()
    requires RunPasses(Program(g, source), false, g.N(), orders, start).prog.data
          == RunPasses(Program(g, source), false, g.N(), orders[..|orders| - 1], start).prog.data
    ensures AreDistances(g, source, RunPasses(Program(g, source), false, g.N(), orders, start).prog.data)
  {
    var iter := |orders| - 1;
    ExactAfterPasses(g, source, orders[..iter], start);
    var p := RunPasses(Program(g, source), false, g.N(), orders[..iter], start).prog;
    PassRelaxes(g, source, iter, orders[iter], p);
    var q := Pass(Program(g, source), iter, Vertices(g.N()), orders[iter], p).prog;
    QuietAtEveryDistance(g, source, p, q, orders[iter], g.N() - 1);
    ExactEverywhere(g, source, q);
  }

  lemma {:induction false} QuietAtEveryDistance(g: Graph, source: nat, p: Distances, q: Distances, order: seq<nat>, k: nat)
    requires p.Fits(g) && q.Fits(g) && source < g.N() && q.data[source] == 0 && IsOrder(g.N(), order)
    requires forall v :: v in order && v != source ==> Relaxed(g, q, p, v)
    requires q.data == p.data
    ensures ExactWithin(g, source, q.data, k)
  {
    if k > 0 {
      QuietAtEveryDistance(g, source, p, q, order, k - 1);
      OneLinkFurther(g, source, p, q, order, k - 1);
    }
  }

  // ---------- the program as it updates vertex data and edge cells ----------

  class SsspProgram {
    const graph: Graph
    const source: nat
    const data: array<int>
    const cells: array<int>

    constructor (g: Graph, selected: nat, vertexData: array<int>, edgeData: array<int>)
      requires vertexData != edgeData && vertexData.Length == g.N() && edgeData.Length == |g.cells|
      ensures Valid() && graph == g && source == selected && data == vertexData && cells == edgeData
    {
      graph, source, data, cells := g, selected, vertexData, edgeData;
    }

    ghost predicate Valid()
    {
      data != cells && data.Length == graph.N() && cells.Length == |graph.cells|
    }

    ghost function State(): Distances
      reads data, cells
    {
      Distances(data[..], cells[..])
    }

    method AssignAt(v: nat, value: int)
      requires Valid() && v < graph.N()
      modifies data, cells
      ensures State() == Assign(graph, old(State()), v, value)
    {
      data[v] := value;
      for i := 0 to |graph.outs[v]|
        invariant data[..] == old(data[..])[v := value]
        invariant cells[..] == WriteOuts(graph, old(cells[..]), v, i, value)
      {
        cells[OutCell(graph, v, i)] := value;
      }
    }

    method MinimumIn(v: nat) returns (min: int)
      requires Valid() && v < graph.N()
      ensures min == MinIn(graph, cells[..], v, |graph.ins[v]|)
    {
      ghost var values := cells[..];
      min := -1;
      for i := 0 to |graph.ins[v]|
        invariant min == MinIn(graph, values, v, i)
      {
        var seen := cells[InCell(graph, v, i)];
        if seen > -1 {
          if min == -1 {
            min := seen;
          } else if min > seen {
            min := seen;
          }
        }
      }
    }

    method UpdateAt(v: nat, iteration: nat)
      requires Valid() && v < graph.N()
      modifies data, cells
      ensures State() == UpdateVertex(graph, source, iteration, old(State()), v)
    {
      if iteration == 0 {
        AssignAt(v, -1);
      } else if iteration == 1 {
        if source == v && source != 0 {
          AssignAt(v, 0);
        }
      } else if !(source == v && source != 0) {
        var min := MinimumIn(v);
        if min > -1 && (data[v] == -1 || min + 1 < data[v]) {
          AssignAt(v, min + 1);
        }
      }
    }
  }
}
