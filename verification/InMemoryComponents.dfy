/** Connected components by minimum labels kept in one shared array (inmemconncomps). */
module InMemoryComponents {
  import opened Reachability
  import opened Graphs
  import opened Engine
  import opened ComponentLabels

  /** vertex_values, and the value that the engine stores for each vertex. */
  datatype Labels = Labels(values: seq<nat>, stored: seq<nat>)

  /** The smallest of start and the labels seen over the first k edges of v. */
  function MinLabel(g: Graph, values: seq<nat>, v: nat, k: nat, start: nat): nat
    requires v < g.N() && k <= NumEdges(g, v) && |values| == g.N()
  {
    if k == 0 then start else
    var before := MinLabel(g, values, v, k - 1, start);
    var seen := values[NbrAt(g, v, k - 1)];
    if seen < before then seen else before
  }

  lemma {:induction false} MinLabelIsMinimum(g: Graph, values: seq<nat>, v: nat, k: nat, start: nat)
    requires v < g.N() && k <= NumEdges(g, v) && |values| == g.N()
    ensures var m := MinLabel(g, values, v, k, start);
            && m <= start && (forall i :: 0 <= i < k ==> m <= values[NbrAt(g, v, i)])
            && (m == start || exists i :: 0 <= i < k && m == values[NbrAt(g, v, i)])
  {
    if k > 0 {
      MinLabelIsMinimum(g, values, v, k - 1, start);
    }
  }

  /** The neighbours over the first k edges of v whose label is above the new one. */
  function Above(g: Graph, values: seq<nat>, v: nat, k: nat, newLabel: nat): set<nat>
    requires v < g.N() && k <= NumEdges(g, v) && |values| == g.N()
  {
    if k == 0 then {} else
    var u := NbrAt(g, v, k - 1);
    Above(g, values, v, k - 1, newLabel) + if newLabel < values[u] then {u} else {}
  }

  lemma {:induction false} AboveIs(g: Graph, values: seq<nat>, v: nat, k: nat, newLabel: nat)
    requires v < g.N() && k <= NumEdges(g, v) && |values| == g.N()
    ensures var tasks := Above(g, values, v, k, newLabel);
            && (forall i :: 0 <= i < k && newLabel < values[NbrAt(g, v, i)] ==> NbrAt(g, v, i) in tasks)
            && (forall w :: w in tasks ==> w < g.N() && newLabel < values[w])
  {
    if k > 0 {
      AboveIs(g, values, v, k - 1, newLabel);
    }
  }

  function UpdateVertex(g: Graph, p: Labels, v: nat): Effect<Labels>
  {
    if v >= g.N() || |p.values| != g.N() || |p.stored| != g.N() then Effect(p, {}) else
    var degree := NumEdges(g, v);
    var newLabel := MinLabel(g, p.values, v, degree, p.stored[v]);
    var tasks := if p.stored[v] != newLabel then Above(g, p.values, v, degree, newLabel) else {};
    Effect(Labels(p.values[v := newLabel], p.stored[v := newLabel]), tasks)
  }

  function Program(g: Graph): Update<Labels>
  {
    (iter: nat, p: Labels, v: nat) => UpdateVertex(g, p, v)
  }

  /** before_iteration(0), on a graph whose stored vertex data are already there. */
  function Start(g: Graph, stored: seq<nat>): Labels
  {
    Labels(Ids(g.N()), stored)
  }

  // ---------- safety: a vertex above a neighbour is always still to be updated ----------

  ghost predicate Sound(g: Graph, p: Labels)
  {
    p.stored == p.values && FromComponent(g, p.values)
  }

  ghost predicate Inv(g: Graph, p: Labels, todo: set<nat>)
  {
    && Sound(g, p) && todo <= Vertices(g.N())
    && forall u, v :: (u, v) in Undirected(g) && p.values[u] < p.values[v] ==> v in todo
  }

  lemma UpdateSound(g: Graph, p: Labels, v: nat)
    requires Sound(g, p) && v < g.N()
    ensures Sound(g, UpdateVertex(g, p, v).prog)
  {
    var newLabel := MinLabel(g, p.values, v, NumEdges(g, v), p.stored[v]);
    MinLabelIsMinimum(g, p.values, v, NumEdges(g, v), p.stored[v]);
    if newLabel != p.stored[v] {
      var i :| 0 <= i < NumEdges(g, v) && newLabel == p.values[NbrAt(g, v, i)];
      NbrLinked(g, v, i);
      ConnectedStep(Undirected(g), newLabel, NbrAt(g, v, i), v);
    }
  }

  /** The ends that an update of v leaves too high are tasks. */
  lemma NeighboursAboveAreTasks(g: Graph, p: Labels, v: nat, w: nat)
    requires Sound(g, p) && v < g.N() && (w, v) in Undirected(g) && w < g.N() && w != v
    requires var q := UpdateVertex(g, p, v).prog; q.values[v] != p.values[v] && q.values[v] < p.values[w]
    ensures w in UpdateVertex(g, p, v).tasks
  {
    var i := LinkSeen(g, w, v);
    AboveIs(g, p.values, v, NumEdges(g, v), UpdateVertex(g, p, v).prog.values[v]);
  }

  lemma TasksAreVertices(g: Graph, p: Labels, v: nat)
    ensures UpdateVertex(g, p, v).tasks <= Vertices(g.N())
  {
    if v < g.N() && |p.values| == |p.stored| == g.N() {
      AboveIs(g, p.values, v, NumEdges(g, v), MinLabel(g, p.values, v, NumEdges(g, v), p.stored[v]));
    }
  }

  lemma UpdateKeeps(g: Graph, p: Labels, rest: set<nat>, v: nat)
    requires v < g.N() && Inv(g, p, rest + {v})
    ensures var e := UpdateVertex(g, p, v); Inv(g, e.prog, rest + e.tasks)
  {
    UpdateSound(g, p, v);
    TasksAreVertices(g, p, v);
    UpdateLowers(g, p, v);
    LinksOnVertices(g);
    var e := UpdateVertex(g, p, v);
    forall u, w | (u, w) in Undirected(g) && e.prog.values[u] < e.prog.values[w]
      ensures w in rest + e.tasks
    {
      if w == v {
        assert false;
      } else if u == v && e.prog.values[v] != p.values[v] {
        assert (w, v) in Undirected(g);
        NeighboursAboveAreTasks(g, p, v, w);
      } else {
        assert p.values[u] < p.values[w];
      }
    }
  }

  lemma StartInv(g: Graph)
    ensures Inv(g, Start(g, Ids(g.N())), Vertices(g.N()))
  {
    LinksOnVertices(g);
    IdsFromComponent(g);
  }

  lemma RunInvariant(g: Graph, orders: seq<seq<nat>>)
    requires AreOrders(g.N(), orders) && |orders| > 0
    ensures var r := RunPasses(Program(g), true, g.N(), orders, Start(g, Ids(g.N())));
            Inv(g, r.prog, r.next) && (r.dry ==> r.next == {})
  {
    var n, start := g.N(), Start(g, Ids(g.N()));
    var inv := (p: Labels, todo: set<nat>) => Inv(g, p, todo);
    forall iter: nat
      ensures Keeps(Program(g), n, iter, inv)
    {
      forall p: Labels, rest: set<nat>, v: nat | v < n && inv(p, rest + {v})
        ensures inv(Program(g)(iter, p, v).prog, rest + Program(g)(iter, p, v).tasks)
      {
        UpdateKeeps(g, p, rest, v);
      }
    }
    StartInv(g);
    PassKeeps(Program(g), n, 0, Vertices(n), orders[0], start, inv);
    FirstPass(Program(g), true, n, orders[0], start);
    assert orders[..1] == [orders[0]];
    var pass := Pass(Program(g), 0, Vertices(n), orders[0], start);
    assert (Vertices(n) - set v | v in orders[0]) + pass.tasks == pass.tasks;
    RunKeeps(Program(g), n, orders, start, inv);
  }

  /** When the scheduler runs dry, every vertex carries the smallest id of its component. */
  lemma DryRunIsCorrect(g: Graph, orders: seq<seq<nat>>)
    requires AreOrders(g.N(), orders)
    requires RunPasses(Program(g), true, g.N(), orders, Start(g, Ids(g.N()))).dry
    ensures var r := RunPasses(Program(g), true, g.N(), orders, Start(g, Ids(g.N())));
            LabelsAreComponentMinima(g, r.prog.values) && r.prog.stored == r.prog.values
  {
    RunInvariant(g, orders);
    DryStateIsCorrect(g, RunPasses(Program(g), true, g.N(), orders, Start(g, Ids(g.N()))).prog);
  }

  lemma DryStateIsCorrect(g: Graph, p: Labels)
    requires Inv(g, p, {})
    ensures LabelsAreComponentMinima(g, p.values)
  {
    forall u, v | (u, v) in Undirected(g)
      ensures u < g.N() && v < g.N() && p.values[u] == p.values[v]
    {
      LinksOnVertices(g);
      assert (v, u) in Undirected(g);
    }
    AgreementIsMinimum(g, p.values);
  }

  // ---------- progress: one more hop is settled by every pass ----------

  lemma UpdateLowers(g: Graph, p: Labels, v: nat)
    requires Sound(g, p) && v < g.N()
    ensures var q := UpdateVertex(g, p, v).prog;
            && q.values[v] <= p.values[v] && q.values == p.values[v := q.values[v]]
            && forall u: nat :: (u, v) in Undirected(g) ==> u < g.N() && q.values[v] <= p.values[u]
  {
    LinksOnVertices(g);
    MinLabelIsMinimum(g, p.values, v, NumEdges(g, v), p.stored[v]);
    forall u: nat | (u, v) in Undirected(g)
      ensures UpdateVertex(g, p, v).prog.values[v] <= p.values[u]
    {
      var i := LinkSeen(g, u, v);
    }
  }

  ghost predicate Lower(g: Graph, q: Labels, p: Labels)
  {
    |q.values| == |p.values| == g.N() && forall v :: 0 <= v < g.N() ==> q.values[v] <= p.values[v]
  }

  /** v has come down to the old labels of its neighbours. */
  ghost predicate BelowNeighbours(g: Graph, q: Labels, p: Labels, v: nat)
  {
    forall u: nat :: (u, v) in Undirected(g) ==>
      u < |p.values| && v < |q.values| && q.values[v] <= p.values[u]
  }

  /** A pass never raises a label, and brings each scheduled vertex down to its neighbours' old labels. */
  lemma {:induction false} PassLowers(g: Graph, iter: nat, scheduled: set<nat>, order: seq<nat>, p: Labels)
    requires Sound(g, p) && forall i :: 0 <= i < |order| ==> order[i] < g.N()
    ensures var q := Pass(Program(g), iter, scheduled, order, p).prog;
            Sound(g, q) && Lower(g, q, p) && forall v :: v in order && v in scheduled ==> BelowNeighbours(g, q, p, v)
  {
    if order != [] {
      var init, v := order[..|order| - 1], order[|order| - 1];
      PassLowers(g, iter, scheduled, init, p);
      var before := Pass(Program(g), iter, scheduled, init, p).prog;
      assert order == init + [v];
      if v in scheduled {
        UpdateSound(g, before, v);
        UpdateLowers(g, before, v);
      }
    }
  }

  lemma PassSettles(g: Graph, iter: nat, scheduled: set<nat>, order: seq<nat>, p: Labels, k: nat)
    requires Inv(g, p, scheduled) && Settled(g, p.values, k) && IsOrder(g.N(), order)
    ensures Settled(g, Pass(Program(g), iter, scheduled, order, p).prog.values, k + 1)
  {
    var links, q := Undirected(g), Pass(Program(g), iter, scheduled, order, p).prog;
    PassLowers(g, iter, scheduled, order, p);
    LinksOnVertices(g);
    forall m: nat, v: nat | v < g.N() && IsLeast(links, m, v) && Within(links, m, v, k + 1)
      ensures q.values[v] == m
    {
      if m == v {
        assert Within(links, m, v, k);
      } else {
        var x: nat :| (x, v) in links && Within(links, m, x, k);
        LeastOfPredecessor(links, m, x, v);
        assert p.values[x] == m;
        assert v in scheduled ==> BelowNeighbours(g, q, p, v);
      }
    }
  }

  /** Once every vertex has its component's minimum, a pass changes nothing and adds no task. */
  lemma {:induction false} PassIdle(g: Graph, iter: nat, scheduled: set<nat>, order: seq<nat>, p: Labels)
    requires Sound(g, p) && LabelsAreComponentMinima(g, p.values)
    ensures Pass(Program(g), iter, scheduled, order, p) == Effect(p, {})
  {
    if order != [] {
      var init, v := order[..|order| - 1], order[|order| - 1];
      PassIdle(g, iter, scheduled, init, p);
      if v < g.N() {
        var newLabel := MinLabel(g, p.values, v, NumEdges(g, v), p.stored[v]);
        MinLabelIsMinimum(g, p.values, v, NumEdges(g, v), p.stored[v]);
        if newLabel != p.stored[v] {
          var i :| 0 <= i < NumEdges(g, v) && newLabel == p.values[NbrAt(g, v, i)];
          NbrLinked(g, v, i);
          MinimaAgree(g, p.values);
        }
        assert p.values[v := newLabel] == p.values;
      }
    }
  }

  /** After |orders| passes, everything within |orders| hops of a minimum is final. */
  lemma {:induction false} SettledAfterPasses(g: Graph, orders: seq<seq<nat>>)
    requires AreOrders(g.N(), orders)
    ensures Settled(g, RunPasses(Program(g), true, g.N(), orders, Start(g, Ids(g.N()))).prog.values, |orders|)
  {
    if orders != [] {
      var n, start, iter := g.N(), Start(g, Ids(g.N())), |orders| - 1;
      var init := orders[..iter];
      var before := RunPasses(Program(g), true, n, init, start);
      SettledAfterPasses(g, init);
      if iter == 0 {
        StartInv(g);
        PassSettles(g, 0, Vertices(n), orders[0], start, 0);
      } else {
        RunInvariant(g, init);
        if before.dry || before.next == {} {
          DryStateIsCorrect(g, before.prog);
          LeastUnique(g, before.prog.values);
        } else {
          PassSettles(g, iter, before.next, orders[iter], before.prog, iter);
        }
      }
    }
  }

  /** Whatever the orders, the loop stops with an empty schedule after at most radius + 1 passes. */
  lemma RunsDry(g: Graph, orders: seq<seq<nat>>, radius: nat)
    requires AreOrders(g.N(), orders) && RadiusAtMost(g, radius) && |orders| >= radius + 2
    ensures RunPasses(Program(g), true, g.N(), orders, Start(g, Ids(g.N()))).dry
  {
    var n, start := g.N(), Start(g, Ids(g.N()));
    var settled := orders[..radius];
    SettledAfterPasses(g, settled);
    var s := RunPasses(Program(g), true, n, settled, start);
    SettledEverywhere(g, s.prog.values, radius);
    SoundRun(g, settled);
    PassIdle(g, radius, Scheduled(true, n, radius, s.next), orders[radius], s.prog);
    NoTaskEndsRun(Program(g), n, orders, radius, start);
  }

  lemma SoundRun(g: Graph, orders: seq<seq<nat>>)
    requires AreOrders(g.N(), orders)
    ensures Sound(g, RunPasses(Program(g), true, g.N(), orders, Start(g, Ids(g.N()))).prog)
  {
    if orders == [] {
      StartInv(g);
    } else {
      RunInvariant(g, orders);
    }
  }

  /** The in-memory program as a whole: any graph, any orders, and more passes than vertices. */
  lemma FinalLabels(g: Graph, orders: seq<seq<nat>>)
    requires AreOrders(g.N(), orders) && |orders| > g.N() && |orders| > 1
    ensures var r := RunPasses(Program(g), true, g.N(), orders, Start(g, Ids(g.N())));
            r.dry && LabelsAreComponentMinima(g, r.prog.values)
  {
    var radius := if g.N() == 0 then 0 else g.N() - 1;
    if g.N() > 0 {
      RadiusBelowN(g);
    }
    RunsDry(g, orders, radius);
    DryRunIsCorrect(g, orders);
  }

  // ---------- the stored vertex data must start as the vertex ids ----------

  /** A run that starts from these stored vertex data never stops with wrong labels. */
  ghost predicate RightOnEveryGraph(stored: seq<nat>)
  {
    forall g: Graph, orders | g.N() == |stored| && AreOrders(g.N(), orders) &&
      RunPasses(Program(g), true, g.N(), orders, Start(g, stored)).dry ::
        LabelsAreComponentMinima(g, RunPasses(Program(g), true, g.N(), orders, Start(g, stored)).prog.values)
  }

  function NoEdges(n: nat): (g: Graph)
    ensures g.N() == n && g.cells == []
  {
    EdgeLists([], seq(n, i => []), seq(n, i => []))
  }

  lemma {:induction false} PassWithoutEdges(n: nat, iter: nat, scheduled: set<nat>, order: seq<nat>, p: Labels)
    requires |p.values| == |p.stored| == n
    ensures var e := Pass(Program(NoEdges(n)), iter, scheduled, order, p);
            && e.tasks == {} && |e.prog.values| == n && e.prog.stored == p.stored
            && forall v :: 0 <= v < n && v in order && v in scheduled ==> e.prog.values[v] == p.stored[v]
  {
    if order != [] {
      var init, v := order[..|order| - 1], order[|order| - 1];
      PassWithoutEdges(n, iter, scheduled, init, p);
      assert order == init + [v];
      var before := Pass(Program(NoEdges(n)), iter, scheduled, init, p).prog;
      if v < n {
        assert before.stored[v := before.stored[v]] == before.stored;
      }
    }
  }

  /** before_iteration() sets only vertex_values; the labels come out right on every
      graph exactly when the stored data were the ids already. */
  lemma StoredIdsAreNeeded(stored: seq<nat>)
    ensures RightOnEveryGraph(stored) <==> stored == Ids(|stored|)
  {
    var n := |stored|;
    if stored == Ids(n) {
      forall g: Graph, orders | g.N() == n && AreOrders(g.N(), orders) &&
        RunPasses(Program(g), true, g.N(), orders, Start(g, stored)).dry
        ensures LabelsAreComponentMinima(g, RunPasses(Program(g), true, g.N(), orders, Start(g, stored)).prog.values)
      {
        DryRunIsCorrect(g, orders);
      }
    }
    if RightOnEveryGraph(stored) {
      RightWithoutEdges(stored);
    }
  }

  /** On the graph without edges every vertex ends with its stored number, and its minimum is itself. */
  lemma RightWithoutEdges(stored: seq<nat>)
    requires RightOnEveryGraph(stored)
    ensures stored == Ids(|stored|)
  {
    var n := |stored|;
    var g, orders := NoEdges(n), [Ids(n), Ids(n)];
    forall v: nat | v < n
      ensures v in Ids(n)
    {
      assert Ids(n)[v] == v;
    }
    var r := RunPasses(Program(g), true, n, orders, Start(g, stored));
    RunWithoutEdges(stored);
    forall v: nat | v < n
      ensures stored[v] == v
    {
      assert IsLeast(Undirected(g), r.prog.values[v], v);
      var k: nat :| Within(Undirected(g), r.prog.values[v], v, k);
    }
  }

  lemma RunWithoutEdges(stored: seq<nat>)
    ensures var n := |stored|;
            var r := RunPasses(Program(NoEdges(n)), true, n, [Ids(n), Ids(n)], Start(NoEdges(n), stored));
            r.dry && r.prog.values == stored
  {
    var n, order := |stored|, Ids(|stored|);
    var start := Start(NoEdges(n), stored);
    PassWithoutEdges(n, 0, Vertices(n), order, start);
    FirstPass(Program(NoEdges(n)), true, n, order, start);
    assert [order, order][..1] == [order];
    var first := Pass(Program(NoEdges(n)), 0, Vertices(n), order, start);
    forall v: nat | v < n
      ensures first.prog.values[v] == stored[v]
    {
      assert order[v] == v && v in Vertices(n);
    }
    assert first.prog.values == stored;
  }

  // ---------- the program as it updates its arrays ----------

  class ConnectedComponentsProgram {
    const graph: Graph
    const vertexValues: array<nat>
    const dataptr: array<nat>

    ghost predicate Valid()
      reads this, vertexValues, dataptr
    {
      vertexValues != dataptr && vertexValues.Length == dataptr.Length == graph.N()
    }

    ghost function State(): Labels
      reads this, vertexValues, dataptr
    {
      Labels(vertexValues[..], dataptr[..])
    }

    /** before_iteration(0), with the vertex data file already mapped. */
    constructor (g: Graph, stored: array<nat>)
      requires stored.Length == g.N()
      ensures Valid() && graph == g && dataptr == stored && fresh(vertexValues)
      ensures State() == Start(g, old(stored[..]))
    {
      graph := g;
      dataptr := stored;
      vertexValues := new nat[g.N()];
      new;
      for i := 0 to g.N()
        invariant dataptr == stored && stored[..] == old(stored[..])
        invariant forall j :: 0 <= j < i ==> vertexValues[j] == j
      {
        vertexValues[i] := i;
      }
      assert vertexValues[..] == Ids(g.N());
    }

    function NeighborValue(v: nat, i: nat): nat
      requires Valid() && v < graph.N() && i < NumEdges(graph, v)
      reads this, vertexValues, dataptr
    {
      vertexValues[NbrAt(graph, v, i)]
    }

    method SetData(v: nat, value: nat)
      requires Valid() && v < graph.N()
      modifies vertexValues, dataptr
      ensures vertexValues[..] == old(vertexValues[..])[v := value]
      ensures dataptr[..] == old(dataptr[..])[v := value]
    {
      vertexValues[v] := value;
      dataptr[v] := value;
    }

    method MinimumAround(v: nat) returns (curmin: nat)
      requires Valid() && v < graph.N()
      ensures curmin == MinLabel(graph, vertexValues[..], v, NumEdges(graph, v), dataptr[v])
    {
      ghost var values := vertexValues[..];
      curmin := dataptr[v];
      for i := 0 to NumEdges(graph, v)
        invariant curmin == MinLabel(graph, values, v, i, dataptr[v])
      {
        var nblabel := NeighborValue(v, i);
        curmin := if nblabel < curmin then nblabel else curmin;
      }
    }

    method ScheduleAbove(v: nat, newlabel: nat, scheduler: BitsetScheduler)
      requires Valid() && v < graph.N()
      modifies scheduler
      ensures var tasks := Above(graph, vertexValues[..], v, NumEdges(graph, v), newlabel);
              && scheduler.cur == old(scheduler.cur) && scheduler.next == old(scheduler.next) + tasks
              && scheduler.hasNewTasks == (old(scheduler.hasNewTasks) || tasks != {})
    {
      for i := 0 to NumEdges(graph, v)
        invariant scheduler.cur == old(scheduler.cur)
        invariant scheduler.next == old(scheduler.next) + Above(graph, vertexValues[..], v, i, newlabel)
        invariant scheduler.hasNewTasks ==
          (old(scheduler.hasNewTasks) || Above(graph, vertexValues[..], v, i, newlabel) != {})
      {
        if newlabel < NeighborValue(v, i) {
          scheduler.AddTask(NbrAt(graph, v, i));
        }
      }
    }

    method UpdateAt(v: nat, scheduler: BitsetScheduler)
      requires Valid() && v < graph.N()
      modifies vertexValues, dataptr, scheduler
      ensures var e := UpdateVertex(graph, old(State()), v);
              && State() == e.prog
              && scheduler.cur == old(scheduler.cur) && scheduler.next == old(scheduler.next) + e.tasks
              && scheduler.hasNewTasks == (old(scheduler.hasNewTasks) || e.tasks != {})
    {
      var curmin := MinimumAround(v);
      if dataptr[v] != curmin {
        ScheduleAbove(v, curmin, scheduler);
      }
      SetData(v, curmin);
    }
  }
}
