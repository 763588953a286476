/** Connected components with the labels carried on shared edge cells (connectedcomponents). */
module EdgeComponents {
  import opened Reachability
  import opened Graphs
  import opened Engine
  import opened ComponentLabels
  import InMemoryComponents

  datatype Labels = Labels(data: seq<nat>, cells: seq<nat>) {
    predicate Fits(g: Graph) { |data| == g.N() && |cells| == |g.cells| }
  }

  /** The label that edge i of v shows in the first iteration (the other end's id) and later (its cell). */
  function Shown(g: Graph, iter: nat, cells: seq<nat>, v: nat, i: nat): nat
    requires v < g.N() && i < NumEdges(g, v) && |cells| == |g.cells|
  {
    if iter == 0 then NbrAt(g, v, i) else cells[CellAt(g, v, i)]
  }

  function MinShown(g: Graph, iter: nat, cells: seq<nat>, v: nat, k: nat, start: nat): nat
    requires v < g.N() && k <= NumEdges(g, v) && |cells| == |g.cells|
  {
    if k == 0 then start else
    var before := MinShown(g, iter, cells, v, k - 1, start);
    var seen := Shown(g, iter, cells, v, k - 1);
    if seen < before then seen else before
  }

  /** Lower the first k incident cells to the new label; whoever shares a lowered cell becomes a task. */
  function Broadcast(g: Graph, cells: seq<nat>, v: nat, k: nat, newLabel: nat): (r: Effect<seq<nat>>)
    requires v < g.N() && k <= NumEdges(g, v) && |cells| == |g.cells|
    ensures |r.prog| == |cells|
  {
    if k == 0 then Effect(cells, {}) else
    var before := Broadcast(g, cells, v, k - 1, newLabel);
    var e := CellAt(g, v, k - 1);
    if newLabel < before.prog[e] then Effect(before.prog[e := newLabel], before.tasks + {NbrAt(g, v, k - 1)})
    else before
  }

  function UpdateVertex(g: Graph, iter: nat, p: Labels, v: nat): Effect<Labels>
  {
    if v >= g.N() || !p.Fits(g) then Effect(p, {}) else
    var start := if iter == 0 then v else p.data[v];
    var newLabel := MinShown(g, iter, p.cells, v, NumEdges(g, v), start);
    var data := p.data[v := newLabel];
    if iter == 0 then
      Effect(Labels(data, WriteOuts(g, p.cells, v, |g.outs[v]|, newLabel)), {v})
    else
      var b := Broadcast(g, p.cells, v, NumEdges(g, v), newLabel);
      Effect(Labels(data, b.prog), b.tasks)
  }

  function Program(g: Graph): Update<Labels>
  {
    (iter: nat, p: Labels, v: nat) => UpdateVertex(g, iter, p, v)
  }

  // ---------- what one update does ----------

  lemma {:induction false} MinShownIsMinimum(g: Graph, iter: nat, cells: seq<nat>, v: nat, k: nat, start: nat)
    requires v < g.N() && k <= NumEdges(g, v) && |cells| == |g.cells|
    ensures var m := MinShown(g, iter, cells, v, k, start);
            && m <= start && (forall i :: 0 <= i < k ==> m <= Shown(g, iter, cells, v, i))
            && (m == start || exists i :: 0 <= i < k && m == Shown(g, iter, cells, v, i))
  {
    if k > 0 {
      MinShownIsMinimum(g, iter, cells, v, k - 1, start);
    }
  }

  lemma {:induction false} BroadcastLowers(g: Graph, cells: seq<nat>, v: nat, k: nat, newLabel: nat)
    requires v < g.N() && k <= NumEdges(g, v) && |cells| == |g.cells|
    ensures var b := Broadcast(g, cells, v, k, newLabel);
            && b.tasks <= Vertices(g.N())
            && (forall e :: 0 <= e < |cells| ==> b.prog[e] == cells[e] || b.prog[e] == newLabel < cells[e])
            && (forall e :: 0 <= e < |cells| && b.prog[e] != cells[e] ==> OthersIn(g, v, e, b.tasks))
  {
    if k > 0 {
      BroadcastLowers(g, cells, v, k - 1, newLabel);
      EndsAt(g, v, k - 1);
    }
  }

  lemma {:induction false} BroadcastReaches(g: Graph, cells: seq<nat>, v: nat, k: nat, newLabel: nat)
    requires v < g.N() && k <= NumEdges(g, v) && |cells| == |g.cells|
    ensures forall i :: 0 <= i < k ==> Broadcast(g, cells, v, k, newLabel).prog[CellAt(g, v, i)] <= newLabel
  {
    if k > 0 {
      BroadcastReaches(g, cells, v, k - 1, newLabel);
    }
  }

  /** The end of e other than v is a task. */
  ghost predicate OthersIn(g: Graph, v: nat, e: int, tasks: set<nat>)
    requires 0 <= e < |g.cells|
  {
    && (g.cells[e].src != v ==> g.cells[e].src in tasks)
    && (g.cells[e].dst != v ==> g.cells[e].dst in tasks)
  }

  /** Broadcasting a label no larger than any incident cell makes them all equal to it. */
  lemma BroadcastLevels(g: Graph, cells: seq<nat>, v: nat, newLabel: nat)
    requires v < g.N() && |cells| == |g.cells|
    requires forall e :: Incident(g, v, e) ==> newLabel <= cells[e]
    ensures var b := Broadcast(g, cells, v, NumEdges(g, v), newLabel);
            && b.tasks <= Vertices(g.N())
            && (forall e :: 0 <= e < |cells| ==> b.prog[e] == if Incident(g, v, e) then newLabel else cells[e])
            && (forall e :: 0 <= e < |cells| && b.prog[e] != cells[e] ==> OthersIn(g, v, e, b.tasks))
  {
    BroadcastLowers(g, cells, v, NumEdges(g, v), newLabel);
    BroadcastReaches(g, cells, v, NumEdges(g, v), newLabel);
    var b := Broadcast(g, cells, v, NumEdges(g, v), newLabel);
    forall e: nat | e < |cells|
      ensures b.prog[e] == if Incident(g, v, e) then newLabel else cells[e]
    {
      var atDst, atSrc := CellSeenByEnds(g, e);
      if !Incident(g, v, e) {
        OnlyIncident(g, cells, v, NumEdges(g, v), newLabel, e);
      }
    }
  }

  lemma {:induction false} OnlyIncident(g: Graph, cells: seq<nat>, v: nat, k: nat, newLabel: nat, e: nat)
    requires v < g.N() && k <= NumEdges(g, v) && |cells| == |g.cells| && e < |cells|
    requires !Incident(g, v, e)
    ensures Broadcast(g, cells, v, k, newLabel).prog[e] == cells[e]
  {
    if k > 0 {
      OnlyIncident(g, cells, v, k - 1, newLabel, e);
    }
  }

  // ---------- safety ----------

  ghost predicate Sound(g: Graph, p: Labels)
  {
    && p.Fits(g) && FromComponent(g, p.data)
    && forall e :: 0 <= e < |p.cells| ==> Connected(Undirected(g), p.cells[e], g.cells[e].src)
  }

  /** A vertex whose label differs from one of its cells is still to be updated. */
  ghost predicate Inv(g: Graph, p: Labels, todo: set<nat>)
  {
    && Sound(g, p) && todo <= Vertices(g.N())
    && forall v: nat, e :: v < g.N() && Incident(g, v, e) && p.cells[e] != p.data[v] ==> v in todo
  }

  /** What update() leaves at v after the first iteration: one label on the vertex and all its cells. */
  lemma UpdateLevels(g: Graph, iter: nat, p: Labels, v: nat)
    requires v < g.N() && p.Fits(g) && iter > 0
    ensures var e, newLabel := UpdateVertex(g, iter, p, v), UpdateVertex(g, iter, p, v).prog.data[v];
            && e.prog.Fits(g) && e.tasks <= Vertices(g.N())
            && e.prog.data == p.data[v := newLabel] && newLabel <= p.data[v]
            && (forall c :: 0 <= c < |p.cells| ==>
                  e.prog.cells[c] == (if Incident(g, v, c) then newLabel else p.cells[c]) <= p.cells[c])
            && (forall c :: 0 <= c < |p.cells| && e.prog.cells[c] != p.cells[c] ==> OthersIn(g, v, c, e.tasks))
            && (newLabel == p.data[v] || exists c :: Incident(g, v, c) && newLabel == p.cells[c])
  {
    var newLabel := MinShown(g, iter, p.cells, v, NumEdges(g, v), p.data[v]);
    MinShownIsMinimum(g, iter, p.cells, v, NumEdges(g, v), p.data[v]);
    forall c: nat | Incident(g, v, c)
      ensures newLabel <= p.cells[c]
    {
      var atDst, atSrc := CellSeenByEnds(g, c);
      assert g.cells[c].dst == v ==> newLabel <= Shown(g, iter, p.cells, v, atDst);
      assert g.cells[c].src == v ==> newLabel <= Shown(g, iter, p.cells, v, atSrc);
    }
    if newLabel != p.data[v] {
      var i :| 0 <= i < NumEdges(g, v) && newLabel == Shown(g, iter, p.cells, v, i);
      assert Incident(g, v, CellAt(g, v, i));
    }
    BroadcastLevels(g, p.cells, v, newLabel);
  }

  lemma CellConnected(g: Graph, p: Labels, e: int, v: nat)
    requires Sound(g, p) && Incident(g, v, e)
    ensures Connected(Undirected(g), p.cells[e], v)
  {
    assert (g.cells[e].src, g.cells[e].dst) in Undirected(g);
    if v != g.cells[e].src {
      ConnectedStep(Undirected(g), p.cells[e], g.cells[e].src, v);
    }
  }

  lemma UpdateSound(g: Graph, iter: nat, p: Labels, v: nat)
    requires v < g.N() && iter > 0 && Sound(g, p)
    ensures Sound(g, UpdateVertex(g, iter, p, v).prog)
  {
    UpdateLevels(g, iter, p, v);
    var q := UpdateVertex(g, iter, p, v).prog;
    if q.data[v] != p.data[v] {
      var c :| Incident(g, v, c) && q.data[v] == p.cells[c];
      CellConnected(g, p, c, v);
    }
    forall e | 0 <= e < |p.cells|
      ensures Connected(Undirected(g), q.cells[e], g.cells[e].src)
    {
      assert (g.cells[e].dst, g.cells[e].src) in Undirected(g);
      if Incident(g, v, e) && v != g.cells[e].src {
        ConnectedStep(Undirected(g), q.data[v], v, g.cells[e].src);
      }
    }
  }

  lemma UpdateKeeps(g: Graph, iter: nat, p: Labels, rest: set<nat>, v: nat)
    requires v < g.N() && iter > 0 && Inv(g, p, rest + {v})
    ensures var e := UpdateVertex(g, iter, p, v); Inv(g, e.prog, rest + e.tasks)
  {
    UpdateLevels(g, iter, p, v);
    UpdateSound(g, iter, p, v);
  }

  // ---------- the first iteration ----------

  /** The smallest id among v and its neighbours: what iteration 0 gives v, whatever the order. */
  function FirstLabel(g: Graph, v: nat): nat
    requires v < g.N()
  {
    MinShown(g, 0, seq(|g.cells|, e => 0), v, NumEdges(g, v), v)
  }

  lemma {:induction false} FirstIgnoresCells(g: Graph, cells: seq<nat>, v: nat, k: nat, start: nat)
    requires v < g.N() && k <= NumEdges(g, v) && |cells| == |g.cells|
    ensures MinShown(g, 0, cells, v, k, start) == MinShown(g, 0, seq(|g.cells|, e => 0), v, k, start)
  {
    if k > 0 {
      FirstIgnoresCells(g, cells, v, k - 1, start);
    }
  }

  lemma FirstLabelIsMinimum(g: Graph, v: nat)
    requires v < g.N()
    ensures FirstLabel(g, v) <= v && Connected(Undirected(g), FirstLabel(g, v), v)
    ensures forall u: nat :: (u, v) in Undirected(g) ==> FirstLabel(g, v) <= u
  {
    var zeros := seq(|g.cells|, e => 0);
    MinShownIsMinimum(g, 0, zeros, v, NumEdges(g, v), v);
    ConnectedSelf(Undirected(g), v);
    if FirstLabel(g, v) != v {
      var i :| 0 <= i < NumEdges(g, v) && FirstLabel(g, v) == Shown(g, 0, zeros, v, i);
      NbrLinked(g, v, i);
      ConnectedSelf(Undirected(g), NbrAt(g, v, i));
      ConnectedStep(Undirected(g), NbrAt(g, v, i), NbrAt(g, v, i), v);
    }
    forall u: nat | (u, v) in Undirected(g)
      ensures FirstLabel(g, v) <= u
    {
      var i := LinkSeen(g, u, v);
      assert FirstLabel(g, v) <= Shown(g, 0, zeros, v, i);
    }
  }

  /** The first update of v leaves its first label on it and on its out-edges. */
  lemma FirstUpdate(g: Graph, p: Labels, v: nat)
    requires v < g.N() && p.Fits(g)
    ensures var e := UpdateVertex(g, 0, p, v);
            && e.prog.Fits(g) && e.tasks == {v} && e.prog.data == p.data[v := FirstLabel(g, v)]
            && forall c :: 0 <= c < |g.cells| ==>
                 e.prog.cells[c] == if g.cells[c].src == v then FirstLabel(g, v) else p.cells[c]
  {
    FirstIgnoresCells(g, p.cells, v, NumEdges(g, v), v);
    forall c: nat | c < |g.cells|
      ensures UpdateVertex(g, 0, p, v).prog.cells[c] == if g.cells[c].src == v then FirstLabel(g, v) else p.cells[c]
    {
      AllOutsWritten(g, p.cells, v, FirstLabel(g, v), c);
    }
  }

  lemma {:induction false} FirstPassTasks(g: Graph, order: seq<nat>, p: Labels)
    requires p.Fits(g) && forall i :: 0 <= i < |order| ==> order[i] < g.N()
    ensures var e := Pass(Program(g), 0, Vertices(g.N()), order, p);
            e.prog.Fits(g) && forall v: nat :: v in e.tasks <==> v in order
  {
    if order != [] {
      FirstPassTasks(g, order[..|order| - 1], p);
    }
  }

  /** Once visited, a vertex and its out-edges hold its first label to the end of the pass. */
  lemma {:induction false} FirstPassLabels(g: Graph, order: seq<nat>, p: Labels, v: nat)
    requires p.Fits(g) && (forall i :: 0 <= i < |order| ==> order[i] < g.N()) && v in order
    ensures var q := Pass(Program(g), 0, Vertices(g.N()), order, p).prog;
            && q.Fits(g) && q.data[v] == FirstLabel(g, v)
            && forall c :: 0 <= c < |g.cells| && g.cells[c].src == v ==> q.cells[c] == FirstLabel(g, v)
  {
    var init, last := order[..|order| - 1], order[|order| - 1];
    FirstPassTasks(g, init, p);
    FirstUpdate(g, Pass(Program(g), 0, Vertices(g.N()), init, p).prog, last);
    if last != v {
      FirstPassLabels(g, init, p, v);
    }
  }

  ghost predicate AllFirst(g: Graph, q: Labels)
  {
    && q.Fits(g) && (forall v :: 0 <= v < g.N() ==> q.data[v] == FirstLabel(g, v))
    && forall c :: 0 <= c < |g.cells| ==> q.cells[c] == FirstLabel(g, g.cells[c].src)
  }

  lemma FirstStateSound(g: Graph, q: Labels)
    requires AllFirst(g, q)
    ensures Sound(g, q)
  {
    forall v: nat | v < g.N()
      ensures q.data[v] <= v && Connected(Undirected(g), q.data[v], v)
    {
      FirstLabelIsMinimum(g, v);
    }
    forall c | 0 <= c < |g.cells|
      ensures Connected(Undirected(g), q.cells[c], g.cells[c].src)
    {
      FirstLabelIsMinimum(g, g.cells[c].src);
    }
  }

  lemma FirstStateSettled(g: Graph, q: Labels)
    requires AllFirst(g, q)
    ensures Settled(g, q.data, 1)
  {
    forall m: nat, v: nat | v < g.N() && IsLeast(Undirected(g), m, v) && Within(Undirected(g), m, v, 1)
      ensures q.data[v] == m
    {
      FirstLabelIsMinimum(g, v);
      if m != v {
        assert exists u: nat :: (u, v) in Undirected(g) && Within(Undirected(g), m, u, 0);
      }
    }
  }

  /** After the first iteration every label and cell is settled one hop out, and all vertices are tasks. */
  lemma FirstPassInv(g: Graph, order: seq<nat>, p: Labels)
    requires p.Fits(g) && IsOrder(g.N(), order)
    ensures var e := Pass(Program(g), 0, Vertices(g.N()), order, p);
            Inv(g, e.prog, e.tasks) && Settled(g, e.prog.data, 1) && e.tasks == Vertices(g.N())
  {
    FirstPassTasks(g, order, p);
    var e := Pass(Program(g), 0, Vertices(g.N()), order, p);
    forall v: nat | v < g.N()
      ensures v in e.tasks && e.prog.data[v] == FirstLabel(g, v)
      ensures forall c :: 0 <= c < |g.cells| && g.cells[c].src == v ==> e.prog.cells[c] == FirstLabel(g, v)
    {
      FirstPassLabels(g, order, p, v);
    }
    FirstStateSound(g, e.prog);
    FirstStateSettled(g, e.prog);
  }

  lemma RunInvariant(g: Graph, orders: seq<seq<nat>>, start: Labels)
    requires AreOrders(g.N(), orders) && |orders| > 0 && start.Fits(g)
    ensures var r := RunPasses(Program(g), true, g.N(), orders, start);
            Inv(g, r.prog, r.next) && (r.dry ==> r.next == {})
  {
    var n := g.N();
    var inv := (p: Labels, todo: set<nat>) => Inv(g, p, todo);
    forall iter: nat | iter > 0
      ensures Keeps(Program(g), n, iter, inv)
    {
      forall p: Labels, rest: set<nat>, v: nat | v < n && inv(p, rest + {v})
        ensures inv(Program(g)(iter, p, v).prog, rest + Program(g)(iter, p, v).tasks)
      {
        UpdateKeeps(g, iter, p, rest, v);
      }
    }
    FirstPassInv(g, orders[0], start);
    FirstPass(Program(g), true, n, orders[0], start);
    assert orders[..1] == [orders[0]];
    RunKeeps(Program(g), n, orders, start, inv);
  }

  lemma DryStateIsCorrect(g: Graph, p: Labels)
    requires Inv(g, p, {})
    ensures LabelsAreComponentMinima(g, p.data)
  {
    forall u, v | (u, v) in Undirected(g)
      ensures u < g.N() && v < g.N() && p.data[u] == p.data[v]
    {
      LinksOnVertices(g);
      var i := LinkSeen(g, u, v);
      EndsAt(g, v, i);
      var e := CellAt(g, v, i);
      assert Incident(g, v, e) && Incident(g, u, e);
    }
    AgreementIsMinimum(g, p.data);
  }

  /** When the scheduler runs dry the labels are the component minima, from any initial
      vertex data and edge cells: the same labels as the in-memory variant's. */
  lemma DryRunIsCorrect(g: Graph, orders: seq<seq<nat>>, start: Labels, inMemoryOrders: seq<seq<nat>>)
    requires AreOrders(g.N(), orders) && start.Fits(g) && RunPasses(Program(g), true, g.N(), orders, start).dry
    requires AreOrders(g.N(), inMemoryOrders)
    ensures var r := RunPasses(Program(g), true, g.N(), orders, start);
            && LabelsAreComponentMinima(g, r.prog.data)
            && var other := RunPasses(InMemoryComponents.Program(g), true, g.N(), inMemoryOrders,
                                      InMemoryComponents.Start(g, Ids(g.N())));
               (other.dry ==> r.prog.data == other.prog.values)
  {
    RunInvariant(g, orders, start);
    var r := RunPasses(Program(g), true, g.N(), orders, start);
    DryStateIsCorrect(g, r.prog);
    var other := RunPasses(InMemoryComponents.Program(g), true, g.N(), inMemoryOrders,
                           InMemoryComponents.Start(g, Ids(g.N())));
    if other.dry {
      InMemoryComponents.DryRunIsCorrect(g, inMemoryOrders);
      forall v: nat | v < g.N()
        ensures r.prog.data[v] == other.prog.values[v]
      {
        assert IsLeast(Undirected(g), r.prog.data[v], v) && IsLeast(Undirected(g), other.prog.values[v], v);
      }
    }
  }

  // ---------- progress: two passes settle one more hop ----------

  ghost predicate Lower(g: Graph, q: Labels, p: Labels)
  {
    && q.Fits(g) && p.Fits(g)
    && (forall v :: 0 <= v < g.N() ==> q.data[v] <= p.data[v])
    && (forall e :: 0 <= e < |g.cells| ==> q.cells[e] <= p.cells[e])
  }

  /** v took up what its cells held, and left its own label on them. */
  ghost predicate Exchanged(g: Graph, q: Labels, p: Labels, v: nat)
    requires q.Fits(g) && p.Fits(g) && v < g.N()
  {
    forall e :: Incident(g, v, e) ==> q.data[v] <= p.cells[e] && q.cells[e] <= p.data[v]
  }

  lemma {:induction false} PassExchanges(g: Graph, iter: nat, scheduled: set<nat>, order: seq<nat>, p: Labels)
    requires iter > 0 && Sound(g, p) && forall i :: 0 <= i < |order| ==> order[i] < g.N()
    ensures var q := Pass(Program(g), iter, scheduled, order, p).prog;
            && Sound(g, q) && Lower(g, q, p)
            && forall v :: v in order && v in scheduled ==> Exchanged(g, q, p, v)
  {
    if order != [] {
      var init, v := order[..|order| - 1], order[|order| - 1];
      PassExchanges(g, iter, scheduled, init, p);
      var before := Pass(Program(g), iter, scheduled, init, p).prog;
      assert order == init + [v];
      if v in scheduled {
        UpdateSound(g, iter, before, v);
        UpdateLevels(g, iter, before, v);
        var q := UpdateVertex(g, iter, before, v).prog;
        assert Exchanged(g, q, p, v);
        forall u | u in init && u in scheduled
          ensures Exchanged(g, q, p, u)
        {
          assert Exchanged(g, before, p, u);
        }
      }
    }
  }

  lemma EveryoneExchanged(g: Graph, iter: nat, scheduled: set<nat>, order: seq<nat>, p: Labels)
    requires iter > 0 && Inv(g, p, scheduled) && IsOrder(g.N(), order)
    ensures var q := Pass(Program(g), iter, scheduled, order, p).prog;
            Sound(g, q) && Lower(g, q, p) && forall v: nat :: v < g.N() ==> Exchanged(g, q, p, v)
  {
    PassExchanges(g, iter, scheduled, order, p);
    var q := Pass(Program(g), iter, scheduled, order, p).prog;
    forall v: nat | v < g.N()
      ensures Exchanged(g, q, p, v)
    {
      assert v in order;
    }
  }

  /** Labels travel from a vertex to the shared cell in one pass and to the neighbour in the next. */
  lemma TwoPassesSettle(g: Graph, p: Labels, mid: Labels, q: Labels, k: nat)
    requires Sound(g, p) && Sound(g, mid) && Sound(g, q) && Lower(g, mid, p) && Lower(g, q, mid)
    requires forall v: nat :: v < g.N() ==> Exchanged(g, mid, p, v) && Exchanged(g, q, mid, v)
    requires Settled(g, p.data, k)
    ensures Settled(g, q.data, k + 1)
  {
    var links := Undirected(g);
    LinksOnVertices(g);
    forall m: nat, v: nat | v < g.N() && IsLeast(links, m, v) && Within(links, m, v, k + 1)
      ensures q.data[v] == m
    {
      if m == v {
        assert Within(links, m, v, k);
      } else {
        var x: nat :| (x, v) in links && Within(links, m, x, k);
        LeastOfPredecessor(links, m, x, v);
        assert p.data[x] == m;
        var i := LinkSeen(g, x, v);
        EndsAt(g, v, i);
        assert Exchanged(g, mid, p, x) && Exchanged(g, q, mid, v);
        assert Incident(g, x, CellAt(g, v, i)) && Incident(g, v, CellAt(g, v, i));
      }
    }
  }

  /** One more pass of the loop, dry or not: cells and labels are exchanged at every vertex. */
  lemma NextPass(g: Graph, orders: seq<seq<nat>>, start: Labels, k: nat)
    requires AreOrders(g.N(), orders) && start.Fits(g) && 0 < k < |orders|
    ensures var p := RunPasses(Program(g), true, g.N(), orders[..k], start).prog;
            var q := RunPasses(Program(g), true, g.N(), orders[..k + 1], start).prog;
            && Sound(g, p) && Sound(g, q) && Lower(g, q, p)
            && forall v: nat :: v < g.N() ==> Exchanged(g, q, p, v)
  {
    var r := RunPasses(Program(g), true, g.N(), orders[..k], start);
    RunInvariant(g, orders[..k], start);
    assert orders[..k + 1][..k] == orders[..k];
    if !r.dry && r.next != {} {
      EveryoneExchanged(g, k, r.next, orders[k], r.prog);
    }
  }

  lemma OneMoreHop(g: Graph, orders: seq<seq<nat>>, start: Labels, j: nat, k: nat)
    requires AreOrders(g.N(), orders) && start.Fits(g) && 0 < j < |orders| - 1
    requires Settled(g, RunPasses(Program(g), true, g.N(), orders[..j], start).prog.data, k)
    ensures Settled(g, RunPasses(Program(g), true, g.N(), orders[..j + 2], start).prog.data, k + 1)
  {
    var p := RunPasses(Program(g), true, g.N(), orders[..j], start).prog;
    var mid := RunPasses(Program(g), true, g.N(), orders[..j + 1], start).prog;
    var q := RunPasses(Program(g), true, g.N(), orders[..j + 2], start).prog;
    NextPass(g, orders, start, j);
    NextPass(g, orders, start, j + 1);
    TwoPassesSettle(g, p, mid, q, k);
  }

  lemma {:induction false} SettledAfterPasses(g: Graph, orders: seq<seq<nat>>, start: Labels, k: nat)
    requires AreOrders(g.N(), orders) && start.Fits(g) && |orders| > 2 * k
    ensures Settled(g, RunPasses(Program(g), true, g.N(), orders[..2 * k + 1], start).prog.data, k + 1)
  {
    if k == 0 {
      FirstPassInv(g, orders[0], start);
      FirstPass(Program(g), true, g.N(), orders[0], start);
      assert orders[..1] == [orders[0]];
    } else {
      SettledAfterPasses(g, orders, start, k - 1);
      OneMoreHop(g, orders, start, 2 * k - 1, k);
    }
  }

  /** Labels and cells all at the component minimum. */
  ghost predicate Level(g: Graph, p: Labels)
  {
    p.Fits(g) && forall v: nat, e :: v < g.N() && Incident(g, v, e) ==> p.cells[e] == p.data[v]
  }

  lemma {:induction false} PassIdle(g: Graph, iter: nat, scheduled: set<nat>, order: seq<nat>, p: Labels)
    requires iter > 0 && Level(g, p)
    ensures Pass(Program(g), iter, scheduled, order, p) == Effect(p, {})
  {
    if order != [] {
      var init, v := order[..|order| - 1], order[|order| - 1];
      PassIdle(g, iter, scheduled, init, p);
      if v < g.N() {
        MinShownIsMinimum(g, iter, p.cells, v, NumEdges(g, v), p.data[v]);
        assert MinShown(g, iter, p.cells, v, NumEdges(g, v), p.data[v]) == p.data[v] by {
          assert forall i :: 0 <= i < NumEdges(g, v) ==> Incident(g, v, CellAt(g, v, i));
        }
        BroadcastIdle(g, p.cells, v, NumEdges(g, v), p.data[v]);
        assert p.data[v := p.data[v]] == p.data;
      }
    }
  }

  lemma {:induction false} BroadcastIdle(g: Graph, cells: seq<nat>, v: nat, k: nat, newLabel: nat)
    requires v < g.N() && k <= NumEdges(g, v) && |cells| == |g.cells|
    requires forall e :: Incident(g, v, e) ==> cells[e] == newLabel
    ensures Broadcast(g, cells, v, k, newLabel) == Effect(cells, {})
  {
    if k > 0 {
      BroadcastIdle(g, cells, v, k - 1, newLabel);
      assert Incident(g, v, CellAt(g, v, k - 1));
    }
  }

  lemma CellsFollowLabels(g: Graph, p: Labels, q: Labels)
    requires LabelsAreComponentMinima(g, p.data) && Sound(g, q) && Lower(g, q, p)
    requires forall v: nat :: v < g.N() ==> Exchanged(g, q, p, v)
    ensures Level(g, q)
  {
    forall v: nat, e | v < g.N() && Incident(g, v, e)
      ensures q.cells[e] == q.data[v]
    {
      CellConnected(g, q, e, v);
      assert IsLeast(Undirected(g), p.data[v], v) && Exchanged(g, q, p, v);
      assert q.data[v] >= p.data[v];
    }
  }

  /** With radius at most r > 0 the scheduler is dry after 2 r + 1 passes, from any initial data. */
  lemma RunsDry(g: Graph, orders: seq<seq<nat>>, start: Labels, radius: nat)
    requires AreOrders(g.N(), orders) && start.Fits(g) && RadiusAtMost(g, radius)
    requires radius > 0 && |orders| >= 2 * radius + 2
    ensures RunPasses(Program(g), true, g.N(), orders, start).dry
  {
    var n, k := g.N(), 2 * radius;
    SettledAfterPasses(g, orders, start, radius - 1);
    var p := RunPasses(Program(g), true, n, orders[..k - 1], start).prog;
    SettledEverywhere(g, p.data, radius);
    NextPass(g, orders, start, k - 1);
    var r := RunPasses(Program(g), true, n, orders[..k], start);
    CellsFollowLabels(g, p, r.prog);
    PassIdle(g, k, r.next, orders[k], r.prog);
    NoTaskEndsRun(Program(g), n, orders, k, start);
  }

  /** Any graph, any orders, any initial data: twice as many passes as vertices are enough. */
  lemma FinalLabels(g: Graph, orders: seq<seq<nat>>, start: Labels)
    requires AreOrders(g.N(), orders) && start.Fits(g) && |orders| >= 2 * g.N() && |orders| >= 4
    ensures var r := RunPasses(Program(g), true, g.N(), orders, start);
            r.dry && LabelsAreComponentMinima(g, r.prog.data)
  {
    if g.N() > 1 {
      RadiusBelowN(g);
      RunsDry(g, orders, start, g.N() - 1);
    } else {
      if g.N() > 0 {
        RadiusBelowN(g);
      }
      assert RadiusAtMost(g, 1) by {
        forall m: nat, v: nat | v < g.N() && IsLeast(Undirected(g), m, v)
          ensures Within(Undirected(g), m, v, 1)
        {
          WithinMonotone(Undirected(g), m, v, 0, 1);
        }
      }
      RunsDry(g, orders, start, 1);
    }
    RunInvariant(g, orders, start);
    DryStateIsCorrect(g, RunPasses(Program(g), true, g.N(), orders, start).prog);
  }

  // ---------- the program as it updates vertex data and shared cells ----------

  class ConnectedComponentsProgram {
    const graph: Graph
    const dataptr: array<nat>
    const edgeData: array<nat>

    constructor (g: Graph, data: array<nat>, cells: array<nat>)
      requires data != cells && data.Length == g.N() && cells.Length == |g.cells|
      ensures Valid() && graph == g && dataptr == data && edgeData == cells
    {
      graph, dataptr, edgeData := g, data, cells;
    }

    ghost predicate Valid()
    {
      dataptr != edgeData && dataptr.Length == graph.N() && edgeData.Length == |graph.cells|
    }

    ghost function State(): Labels
      reads dataptr, edgeData
    {
      Labels(dataptr[..], edgeData[..])
    }

    method MinimumAround(v: nat, iteration: nat) returns (curmin: nat)
      requires Valid() && v < graph.N()
      ensures curmin == MinShown(graph, iteration, edgeData[..], v, NumEdges(graph, v), dataptr[v])
    {
      ghost var cells := edgeData[..];
      curmin := dataptr[v];
      for i := 0 to NumEdges(graph, v)
        invariant curmin == MinShown(graph, iteration, cells, v, i, dataptr[v])
      {
        var nblabel := edgeData[CellAt(graph, v, i)];
        if iteration == 0 {
          nblabel := NbrAt(graph, v, i);
        }
        curmin := if nblabel < curmin then nblabel else curmin;
      }
    }

    method BroadcastLabel(v: nat, newLabel: nat, scheduler: BitsetScheduler)
      requires Valid() && v < graph.N()
      modifies edgeData, scheduler
      ensures var b := Broadcast(graph, old(edgeData[..]), v, NumEdges(graph, v), newLabel);
              && edgeData[..] == b.prog && scheduler.cur == old(scheduler.cur)
              && scheduler.next == old(scheduler.next) + b.tasks
              && scheduler.hasNewTasks == (old(scheduler.hasNewTasks) || b.tasks != {})
    {
      ghost var cells := edgeData[..];
      for i := 0 to NumEdges(graph, v)
        invariant edgeData[..] == Broadcast(graph, cells, v, i, newLabel).prog
        invariant scheduler.cur == old(scheduler.cur)
        invariant scheduler.next == old(scheduler.next) + Broadcast(graph, cells, v, i, newLabel).tasks
        invariant scheduler.hasNewTasks ==
          (old(scheduler.hasNewTasks) || Broadcast(graph, cells, v, i, newLabel).tasks != {})
      {
        var e := CellAt(graph, v, i);
        if newLabel < edgeData[e] {
          edgeData[e] := newLabel;
          scheduler.AddTask(NbrAt(graph, v, i));
        }
      }
    }

    method WriteOutEdges(v: nat, newLabel: nat)
      requires Valid() && v < graph.N()
      modifies edgeData
      ensures edgeData[..] == WriteOuts(graph, old(edgeData[..]), v, |graph.outs[v]|, newLabel)
    {
      for i := 0 to |graph.outs[v]|
        invariant edgeData[..] == WriteOuts(graph, old(edgeData[..]), v, i, newLabel)
      {
        edgeData[OutCell(graph, v, i)] := newLabel;
      }
    }

    method UpdateAt(v: nat, iteration: nat, scheduler: BitsetScheduler)
      requires Valid() && v < graph.N()
      modifies dataptr, edgeData, scheduler
      ensures var e := UpdateVertex(graph, iteration, old(State()), v);
              && State() == e.prog && scheduler.cur == old(scheduler.cur)
              && scheduler.next == old(scheduler.next) + e.tasks
              && scheduler.hasNewTasks == (old(scheduler.hasNewTasks) || e.tasks != {})
    {
      ghost var before := dataptr[..];
      if iteration == 0 {
        dataptr[v] := v;
        scheduler.AddTask(v);
      }
      var curmin := MinimumAround(v, iteration);
      dataptr[v] := curmin;
      assert dataptr[..] == before[v := curmin];
      if iteration > 0 {
        BroadcastLabel(v, curmin, scheduler);
      } else {
        WriteOutEdges(v, curmin);
      }
    }
  }
}
