/** The engine's loop with each of the four programs, on the arrays that the programs update
    in place, from start to result. */
module EngineRuns {
  import opened Reachability
  import opened Graphs
  import opened Engine
  import opened ComponentLabels
  import InMemoryComponents
  import EdgeComponents
  import Sssp
  import CommunityDetection

  // ---------- every program adds only vertices as tasks ----------

  lemma {:induction false} BroadcastTasks(g: Graph, cells: seq<nat>, v: nat, k: nat, newLabel: nat)
    requires v < g.N() && k <= NumEdges(g, v) && |cells| == |g.cells|
    ensures EdgeComponents.Broadcast(g, cells, v, k, newLabel).tasks <= Vertices(g.N())
  {
    if k > 0 {
      BroadcastTasks(g, cells, v, k - 1, newLabel);
      NbrLinked(g, v, k - 1);
      LinksOnVertices(g);
    }
  }

  lemma EdgeTasks(g: Graph, iter: nat, p: EdgeComponents.Labels, v: nat)
    ensures EdgeComponents.Program(g)(iter, p, v).tasks <= Vertices(g.N())
  {
    if v < g.N() && p.Fits(g) && iter > 0 {
      var newLabel := EdgeComponents.MinShown(g, iter, p.cells, v, NumEdges(g, v), p.data[v]);
      BroadcastTasks(g, p.cells, v, NumEdges(g, v), newLabel);
    }
  }

  lemma CommunityTasks(g: Graph, iter: nat, p: CommunityDetection.Labels, v: nat)
    ensures CommunityDetection.Program(g)(iter, p, v).tasks <= Vertices(g.N())
  {
    if v < g.N() {
      CommunityDetection.NeighboursAre(g, v, NumEdges(g, v));
    }
  }

  lemma InMemoryBounded(g: Graph)
    ensures Bounded(InMemoryComponents.Program(g), g.N())
  {
    forall iter: nat, p: InMemoryComponents.Labels, v: nat
      ensures InMemoryComponents.Program(g)(iter, p, v).tasks <= Vertices(g.N())
    {
      InMemoryComponents.TasksAreVertices(g, p, v);
    }
  }

  lemma EdgeBounded(g: Graph)
    ensures Bounded(EdgeComponents.Program(g), g.N())
  {
    forall iter: nat, p: EdgeComponents.Labels, v: nat
      ensures EdgeComponents.Program(g)(iter, p, v).tasks <= Vertices(g.N())
    {
      EdgeTasks(g, iter, p, v);
    }
  }

  lemma SsspBounded(g: Graph, source: nat)
    ensures Bounded(Sssp.Program(g, source), g.N())
  {
  }

  lemma CommunityBounded(g: Graph)
    ensures Bounded(CommunityDetection.Program(g), g.N())
  {
    forall iter: nat, p: CommunityDetection.Labels, v: nat
      ensures CommunityDetection.Program(g)(iter, p, v).tasks <= Vertices(g.N())
    {
      CommunityTasks(g, iter, p, v);
    }
  }

  // ---------- one pass of each program over its arrays ----------

  method InMemoryPass(engine: InMemoryEngine, program: InMemoryComponents.ConnectedComponentsProgram, iter: nat, order: seq<nat>)
    requires program.Valid() && engine.scheduled.Length == program.graph.N() && IsOrder(program.graph.N(), order)
    modifies program.vertexValues, program.dataptr, engine.scheduler
    ensures var pass := Pass(InMemoryComponents.Program(program.graph), iter, engine.Flagged(), order, old(program.State()));
            program.State() == pass.prog
            && engine.scheduler.next == old(engine.scheduler.next) + pass.tasks
            && engine.scheduler.hasNewTasks == (old(engine.scheduler.hasNewTasks) || pass.tasks != {})
  {
    for idx := 0 to |order|
      invariant program.State() == Pass(InMemoryComponents.Program(program.graph), iter, engine.Flagged(), order[..idx], old(program.State())).prog
      invariant engine.scheduler.next == old(engine.scheduler.next) + Pass(InMemoryComponents.Program(program.graph), iter, engine.Flagged(), order[..idx], old(program.State())).tasks
      invariant engine.scheduler.hasNewTasks == (old(engine.scheduler.hasNewTasks) || Pass(InMemoryComponents.Program(program.graph), iter, engine.Flagged(), order[..idx], old(program.State())).tasks != {})
    {
      assert order[..idx + 1][..idx] == order[..idx];
      if engine.scheduled[order[idx]] {
        program.UpdateAt(order[idx], engine.scheduler);
      }
    }
    assert order[..|order|] == order;
  }

  method EdgePass(engine: InMemoryEngine, program: EdgeComponents.ConnectedComponentsProgram, iter: nat, order: seq<nat>)
    requires program.Valid() && engine.scheduled.Length == program.graph.N() && IsOrder(program.graph.N(), order)
    modifies program.dataptr, program.edgeData, engine.scheduler
    ensures var pass := Pass(EdgeComponents.Program(program.graph), iter, engine.Flagged(), order, old(program.State()));
            program.State() == pass.prog
            && engine.scheduler.next == old(engine.scheduler.next) + pass.tasks
            && engine.scheduler.hasNewTasks == (old(engine.scheduler.hasNewTasks) || pass.tasks != {})
  {
    for idx := 0 to |order|
      invariant program.State() == Pass(EdgeComponents.Program(program.graph), iter, engine.Flagged(), order[..idx], old(program.State())).prog
      invariant engine.scheduler.next == old(engine.scheduler.next) + Pass(EdgeComponents.Program(program.graph), iter, engine.Flagged(), order[..idx], old(program.State())).tasks
      invariant engine.scheduler.hasNewTasks == (old(engine.scheduler.hasNewTasks) || Pass(EdgeComponents.Program(program.graph), iter, engine.Flagged(), order[..idx], old(program.State())).tasks != {})
    {
      assert order[..idx + 1][..idx] == order[..idx];
      if engine.scheduled[order[idx]] {
        program.UpdateAt(order[idx], iter, engine.scheduler);
      }
    }
    assert order[..|order|] == order;
  }

  method SsspPass(engine: InMemoryEngine, program: Sssp.SsspProgram, iter: nat, order: seq<nat>)
    requires program.Valid() && engine.scheduled.Length == program.graph.N() && IsOrder(program.graph.N(), order)
    modifies program.data, program.cells
    ensures var pass := Pass(Sssp.Program(program.graph, program.source), iter, engine.Flagged(), order, old(program.State()));
            program.State() == pass.prog && pass.tasks == {}
  {
    for idx := 0 to |order|
      invariant program.State() == Pass(Sssp.Program(program.graph, program.source), iter, engine.Flagged(), order[..idx], old(program.State())).prog
    {
      assert order[..idx + 1][..idx] == order[..idx];
      if engine.scheduled[order[idx]] {
        program.UpdateAt(order[idx], iter);
      }
    }
    assert order[..|order|] == order;
    Sssp.NoTasks(program.graph, program.source, iter, engine.Flagged(), order, old(program.State()));
  }

  method CommunityPass(engine: InMemoryEngine, program: CommunityDetection.CommunityDetectionProgram, iter: nat, order: seq<nat>)
    requires program.Valid() && engine.scheduled.Length == program.graph.N() && IsOrder(program.graph.N(), order)
    modifies program.data, program.cells, engine.scheduler
    ensures var pass := Pass(CommunityDetection.Program(program.graph), iter, engine.Flagged(), order, old(program.State()));
            program.State() == pass.prog
            && engine.scheduler.next == old(engine.scheduler.next) + pass.tasks
            && engine.scheduler.hasNewTasks == (old(engine.scheduler.hasNewTasks) || pass.tasks != {})
  {
    for idx := 0 to |order|
      invariant program.State() == Pass(CommunityDetection.Program(program.graph), iter, engine.Flagged(), order[..idx], old(program.State())).prog
      invariant engine.scheduler.next == old(engine.scheduler.next) + Pass(CommunityDetection.Program(program.graph), iter, engine.Flagged(), order[..idx], old(program.State())).tasks
      invariant engine.scheduler.hasNewTasks == (old(engine.scheduler.hasNewTasks) || Pass(CommunityDetection.Program(program.graph), iter, engine.Flagged(), order[..idx], old(program.State())).tasks != {})
    {
      assert order[..idx + 1][..idx] == order[..idx];
      if engine.scheduled[order[idx]] {
        program.UpdateAt(order[idx], iter, engine.scheduler);
      }
    }
    assert order[..|order|] == order;
  }

  // ---------- the runs ----------

  /** More passes than vertices: the labels are the component minima, and the loop has
      stopped by itself. */
  method InMemoryComponentsRun(program: InMemoryComponents.ConnectedComponentsProgram, orders: seq<seq<nat>>) returns (dry: bool)
    requires program.Valid() && AreOrders(program.graph.N(), orders) && |orders| > program.graph.N() && |orders| > 1
    requires program.State() == InMemoryComponents.Start(program.graph, Ids(program.graph.N()))
    modifies program.vertexValues, program.dataptr
    ensures dry && LabelsAreComponentMinima(program.graph, program.vertexValues[..])
  {
    var engine := new InMemoryEngine(program.graph.N(), true);
    ghost var update, start := InMemoryComponents.Program(program.graph), program.State();
    InMemoryBounded(program.graph);
    dry := false;
    for iter := 0 to |orders|
      invariant !dry && engine.Between(update, orders, iter, start, program.State())
    {
      var stop := engine.BeginIteration(iter, update, orders, start, program.State());
      if stop {
        dry := true;
        break;
      }
      ghost var earlier := engine.scheduler.next;
      InMemoryPass(engine, program, iter, orders[iter]);
      engine.PassDone(update, orders, iter, start, earlier, program.State());
    }
    assert orders[..|orders|] == orders;
    InMemoryComponents.FinalLabels(program.graph, orders);
  }

  /** From any vertex data and edge cells. */
  method EdgeComponentsRun(program: EdgeComponents.ConnectedComponentsProgram, orders: seq<seq<nat>>) returns (dry: bool)
    requires program.Valid() && AreOrders(program.graph.N(), orders) && |orders| >= 2 * program.graph.N() && |orders| >= 4
    modifies program.dataptr, program.edgeData
    ensures dry && LabelsAreComponentMinima(program.graph, program.dataptr[..])
  {
    var engine := new InMemoryEngine(program.graph.N(), true);
    ghost var update, start := EdgeComponents.Program(program.graph), program.State();
    EdgeBounded(program.graph);
    dry := false;
    for iter := 0 to |orders|
      invariant !dry && engine.Between(update, orders, iter, start, program.State())
    {
      var stop := engine.BeginIteration(iter, update, orders, start, program.State());
      if stop {
        dry := true;
        break;
      }
      ghost var earlier := engine.scheduler.next;
      EdgePass(engine, program, iter, orders[iter]);
      engine.PassDone(update, orders, iter, start, earlier, program.State());
    }
    assert orders[..|orders|] == orders;
    EdgeComponents.FinalLabels(program.graph, orders, start);
  }

  /** Without the scheduler, from any data: distances exactly when the source is not vertex 0. */
  method SsspRun(program: Sssp.SsspProgram, orders: seq<seq<nat>>) returns (dry: bool)
    requires program.Valid() && AreOrders(program.graph.N(), orders) && |orders| >= 2 && |orders| > program.graph.N()
    requires program.source < program.graph.N()
    modifies program.data, program.cells
    ensures Sssp.AreDistances(program.graph, program.source, program.data[..]) <==> program.source != 0
  {
    var engine := new InMemoryEngine(program.graph.N(), false);
    ghost var update, start := Sssp.Program(program.graph, program.source), program.State();
    SsspBounded(program.graph, program.source);
    dry := false;
    for iter := 0 to |orders|
      invariant !dry && engine.Between(update, orders, iter, start, program.State())
    {
      var stop := engine.BeginIteration(iter, update, orders, start, program.State());
      if stop {
        dry := true;
        break;
      }
      ghost var earlier := engine.scheduler.next;
      SsspPass(engine, program, iter, orders[iter]);
      engine.PassDone(update, orders, iter, start, earlier, program.State());
    }
    assert orders[..|orders|] == orders;
    Sssp.FinalDistances(program.graph, program.source, orders, start);
  }

  /** If the loop stops by itself, every vertex holds its neighbours' plurality label. */
  method CommunityDetectionRun(program: CommunityDetection.CommunityDetectionProgram, orders: seq<seq<nat>>) returns (dry: bool)
    requires program.Valid() && AreOrders(program.graph.N(), orders) && CommunityDetection.NoSelfLoops(program.graph) && |orders| > 0
    modifies program.data, program.cells
    ensures CommunityDetection.Synced(program.graph, program.State())
    ensures dry ==> forall v: nat :: v < program.graph.N() ==> CommunityDetection.Stable(program.graph, program.data[..], v)
  {
    var engine := new InMemoryEngine(program.graph.N(), true);
    ghost var update, start := CommunityDetection.Program(program.graph), program.State();
    CommunityBounded(program.graph);
    dry := false;
    for iter := 0 to |orders|
      invariant !dry && engine.Between(update, orders, iter, start, program.State())
    {
      var stop := engine.BeginIteration(iter, update, orders, start, program.State());
      if stop {
        dry := true;
        break;
      }
      ghost var earlier := engine.scheduler.next;
      CommunityPass(engine, program, iter, orders[iter]);
      engine.PassDone(update, orders, iter, start, earlier, program.State());
    }
    assert orders[..|orders|] == orders;
    CommunityDetection.RunInvariant(program.graph, orders, start);
  }
}
