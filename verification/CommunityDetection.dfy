/** Community detection by plurality labels, with two label slots per edge (communitydetection). */
module CommunityDetection {
  import opened Reachability
  import opened Graphs
  import opened Engine

  /** An edge carries the labels of its smaller and of its larger end. */
  datatype Slots = Slots(smaller: nat, larger: nat)

  function NeighborLabel(c: Slots, me: nat, nb: nat): nat
  {
    if me < nb then c.larger else c.smaller
  }

  function WithMyLabel(c: Slots, me: nat, nb: nat, mine: nat): Slots
  {
    if me < nb then c.(smaller := mine) else c.(larger := mine)
  }

  /** What I write is what the other end reads, whatever the slots held: exactly off the diagonal. */
  lemma SlotRoundTrip(me: nat, nb: nat)
    ensures (forall c, mine :: NeighborLabel(WithMyLabel(c, me, nb, mine), nb, me) == mine) <==> me != nb
  {
    if me == nb {
      assert NeighborLabel(WithMyLabel(Slots(0, 0), me, nb, 1), nb, me) == 0;
    }
  }

  // ---------- the running maximum is the plurality ----------

  datatype Tally = Tally(counts: map<nat, nat>, maxcount: nat, maxlabel: nat)

  function Count(t: Tally, seen: nat): Tally
  {
    var newcount := if seen in t.counts then t.counts[seen] + 1 else 1;
    var counts := t.counts[seen := newcount];
    if newcount > t.maxcount || (t.maxcount == newcount && seen > t.maxlabel) then Tally(counts, newcount, seen)
    else Tally(counts, t.maxcount, t.maxlabel)
  }

  function TallyOf(labels: seq<nat>): Tally
  {
    if labels == [] then Tally(map[], 0, 0) else Count(TallyOf(labels[..|labels| - 1]), labels[|labels| - 1])
  }

  /** x is the largest among the most frequent labels. */
  ghost predicate IsPlurality(labels: seq<nat>, x: nat)
  {
    && x in labels
    && forall y :: y in labels ==>
         multiset(labels)[y] < multiset(labels)[x] || (multiset(labels)[y] == multiset(labels)[x] && y <= x)
  }

  lemma {:induction false} TallyCounts(labels: seq<nat>)
    ensures var t := TallyOf(labels);
            && (forall y :: y in t.counts <==> y in labels)
            && (forall y :: y in labels ==> t.counts[y] == multiset(labels)[y])
  {
    if labels != [] {
      var init, x := labels[..|labels| - 1], labels[|labels| - 1];
      TallyCounts(init);
      assert labels == init + [x];
      assert multiset(labels) == multiset(init)[x := multiset(init)[x] + 1];
    }
  }

  /** The running maximum is ahead of every other count so far. */
  ghost predicate Leads(t: Tally)
  {
    && t.maxlabel in t.counts && t.counts[t.maxlabel] == t.maxcount
    && forall y :: y in t.counts ==> t.counts[y] < t.maxcount || (t.counts[y] == t.maxcount && y <= t.maxlabel)
  }

  lemma {:induction false} TallyLeads(labels: seq<nat>)
    requires labels != []
    ensures Leads(TallyOf(labels))
  {
    var init, x := labels[..|labels| - 1], labels[|labels| - 1];
    if init != [] {
      TallyLeads(init);
      assert Leads(Count(TallyOf(init), x));
    } else {
      assert TallyOf(init) == Tally(map[], 0, 0);
    }
  }

  lemma PluralityIsUnique(labels: seq<nat>, x: nat, y: nat)
    requires IsPlurality(labels, x) && IsPlurality(labels, y)
    ensures x == y
  {
  }

  /** For every list of labels the running maximum ends on the one label that is the largest
      of the most frequent ones. */
  lemma TallyIsPlurality(labels: seq<nat>)
    requires labels != []
    ensures forall x :: IsPlurality(labels, x) <==> x == TallyOf(labels).maxlabel
    ensures TallyOf(labels).maxcount == multiset(labels)[TallyOf(labels).maxlabel]
  {
    TallyCounts(labels);
    TallyLeads(labels);
    forall x | IsPlurality(labels, x)
      ensures x == TallyOf(labels).maxlabel
    {
      PluralityIsUnique(labels, x, TallyOf(labels).maxlabel);
    }
  }

  // ---------- update() ----------

  datatype Labels = Labels(data: seq<nat>, cells: seq<Slots>) {
    predicate Fits(g: Graph) { |data| == g.N() && |cells| == |g.cells| }
  }

  /** The neighbour labels that v reads from its first k edges. */
  function ReadLabels(g: Graph, cells: seq<Slots>, v: nat, k: nat): (r: seq<nat>)
    requires v < g.N() && k <= NumEdges(g, v) && |cells| == |g.cells|
    ensures |r| == k
  {
    if k == 0 then [] else
    ReadLabels(g, cells, v, k - 1) + [NeighborLabel(cells[CellAt(g, v, k - 1)], v, NbrAt(g, v, k - 1))]
  }

  function WriteLabel(g: Graph, cells: seq<Slots>, v: nat, k: nat, mine: nat): (r: seq<Slots>)
    requires v < g.N() && k <= NumEdges(g, v) && |cells| == |g.cells|
    ensures |r| == |cells|
  {
    if k == 0 then cells else
    var before := WriteLabel(g, cells, v, k - 1, mine);
    var e := CellAt(g, v, k - 1);
    before[e := WithMyLabel(before[e], v, NbrAt(g, v, k - 1), mine)]
  }

  function Neighbours(g: Graph, v: nat, k: nat): set<nat>
    requires v < g.N() && k <= NumEdges(g, v)
  {
    if k == 0 then {} else Neighbours(g, v, k - 1) + {NbrAt(g, v, k - 1)}
  }

  function UpdateVertex(g: Graph, iter: nat, p: Labels, v: nat): Effect<Labels>
  {
    if v >= g.N() || !p.Fits(g) then Effect(p, {}) else
    var degree := NumEdges(g, v);
    if iter == 0 then Effect(Labels(p.data[v := v], WriteLabel(g, p.cells, v, degree, v)), {v})
    else if degree == 0 then Effect(p, {})
    else
      var newLabel := TallyOf(ReadLabels(g, p.cells, v, degree)).maxlabel;
      if newLabel == p.data[v] then Effect(p, {})
      else Effect(Labels(p.data[v := newLabel], WriteLabel(g, p.cells, v, degree, newLabel)), Neighbours(g, v, degree))
  }

  function Program(g: Graph): Update<Labels>
  {
    (iter: nat, p: Labels, v: nat) => UpdateVertex(g, iter, p, v)
  }

  // ---------- the slots hold the labels of the two ends ----------

  ghost predicate NoSelfLoops(g: Graph)
  {
    forall e :: 0 <= e < |g.cells| ==> g.cells[e].src != g.cells[e].dst
  }

  /** The labels of v's neighbours as the vertices themselves hold them. */
  function NbrData(g: Graph, data: seq<nat>, v: nat): seq<nat>
    requires v < g.N() && |data| == g.N()
  {
    seq(NumEdges(g, v), i requires 0 <= i < NumEdges(g, v) => data[NbrAt(g, v, i)])
  }

  /** Each end of e reads the other end's label. */
  ghost predicate CellSynced(g: Graph, p: Labels, e: int)
    requires p.Fits(g) && 0 <= e < |g.cells|
  {
    var a, b := g.cells[e].src, g.cells[e].dst;
    NeighborLabel(p.cells[e], a, b) == p.data[b] && NeighborLabel(p.cells[e], b, a) == p.data[a]
  }

  ghost predicate Synced(g: Graph, p: Labels)
  {
    p.Fits(g) && forall e :: 0 <= e < |g.cells| ==> CellSynced(g, p, e)
  }

  function Other(edge: Edge, v: nat): nat
  {
    if edge.src == v then edge.dst else edge.src
  }

  lemma NbrIsOther(g: Graph, v: nat, i: nat)
    requires v < g.N() && i < NumEdges(g, v)
    ensures NbrAt(g, v, i) == Other(g.cells[CellAt(g, v, i)], v) && Incident(g, v, CellAt(g, v, i))
  {
    EndsAt(g, v, i);
  }

  ghost function Written(g: Graph, cells: seq<Slots>, v: nat, e: int, mine: nat): Slots
    requires |cells| == |g.cells| && 0 <= e < |cells|
  {
    WithMyLabel(cells[e], v, Other(g.cells[e], v), mine)
  }

  lemma {:induction false} WriteLabelAt(g: Graph, cells: seq<Slots>, v: nat, k: nat, mine: nat, e: nat)
    requires v < g.N() && k <= NumEdges(g, v) && |cells| == |g.cells| && e < |cells|
    ensures var r := WriteLabel(g, cells, v, k, mine);
            r[e] == cells[e] || (Incident(g, v, e) && r[e] == Written(g, cells, v, e, mine))
  {
    if k > 0 {
      WriteLabelAt(g, cells, v, k - 1, mine, e);
      NbrIsOther(g, v, k - 1);
    }
  }

  lemma WrittenTwice(c: Slots, me: nat, nb: nat, mine: nat)
    ensures WithMyLabel(WithMyLabel(c, me, nb, mine), me, nb, mine) == WithMyLabel(c, me, nb, mine)
  {
  }

  /** One more write leaves a cell that was written as it was, and writes its own. */
  lemma OneMoreWritten(g: Graph, cells: seq<Slots>, v: nat, k: nat, mine: nat, e: nat)
    requires v < g.N() && k < NumEdges(g, v) && |cells| == |g.cells| && e < |cells|
    requires e == CellAt(g, v, k) || WriteLabel(g, cells, v, k, mine)[e] == Written(g, cells, v, e, mine)
    ensures WriteLabel(g, cells, v, k + 1, mine)[e] == Written(g, cells, v, e, mine)
  {
    var before := WriteLabel(g, cells, v, k, mine);
    WriteLabelAt(g, cells, v, k, mine, e);
    NbrIsOther(g, v, k);
    WrittenTwice(cells[e], v, Other(g.cells[e], v), mine);
    if e == CellAt(g, v, k) {
      assert WriteLabel(g, cells, v, k + 1, mine)[e] == WithMyLabel(before[e], v, Other(g.cells[e], v), mine);
    }
  }

  lemma {:induction false} WriteLabelReaches(g: Graph, cells: seq<Slots>, v: nat, k: nat, mine: nat, i: nat)
    requires v < g.N() && i < k <= NumEdges(g, v) && |cells| == |g.cells|
    ensures var e := CellAt(g, v, i); WriteLabel(g, cells, v, k, mine)[e] == Written(g, cells, v, e, mine)
  {
    if i < k - 1 {
      WriteLabelReaches(g, cells, v, k - 1, mine, i);
    }
    OneMoreWritten(g, cells, v, k - 1, mine, CellAt(g, v, i));
  }

  lemma WriteLabelSets(g: Graph, cells: seq<Slots>, v: nat, mine: nat)
    requires v < g.N() && |cells| == |g.cells|
    ensures forall e :: 0 <= e < |cells| ==>
              WriteLabel(g, cells, v, NumEdges(g, v), mine)[e]
              == if Incident(g, v, e) then WithMyLabel(cells[e], v, Other(g.cells[e], v), mine) else cells[e]
  {
    forall e: nat | e < |cells|
      ensures WriteLabel(g, cells, v, NumEdges(g, v), mine)[e]
              == if Incident(g, v, e) then WithMyLabel(cells[e], v, Other(g.cells[e], v), mine) else cells[e]
    {
      WriteLabelAt(g, cells, v, NumEdges(g, v), mine, e);
      var atDst, atSrc := CellSeenByEnds(g, e);
      if g.cells[e].dst == v {
        WriteLabelReaches(g, cells, v, NumEdges(g, v), mine, atDst);
      } else if g.cells[e].src == v {
        WriteLabelReaches(g, cells, v, NumEdges(g, v), mine, atSrc);
      }
    }
  }

  /** Through a slot in step with its ends a vertex reads its neighbour's label. */
  lemma ReadsOtherEnd(g: Graph, p: Labels, v: nat, i: nat)
    requires Synced(g, p) && v < g.N() && i < NumEdges(g, v)
    ensures NeighborLabel(p.cells[CellAt(g, v, i)], v, NbrAt(g, v, i)) == p.data[NbrAt(g, v, i)]
  {
    NbrIsOther(g, v, i);
    assert CellSynced(g, p, CellAt(g, v, i));
  }

  lemma {:induction false} ReadsNeighbours(g: Graph, p: Labels, v: nat, k: nat)
    requires Synced(g, p) && v < g.N() && k <= NumEdges(g, v)
    ensures ReadLabels(g, p.cells, v, k) == NbrData(g, p.data, v)[..k]
  {
    if k > 0 {
      ReadsNeighbours(g, p, v, k - 1);
      ReadsOtherEnd(g, p, v, k - 1);
      assert NbrData(g, p.data, v)[..k] == NbrData(g, p.data, v)[..k - 1] + [p.data[NbrAt(g, v, k - 1)]];
    }
  }

  /** After pass 0 the slots of every edge hold its ends' labels, for any initial cells:
      exactly when the graph has no self-loop. */
  lemma SyncedIffNoSelfLoops(g: Graph, order: seq<nat>)
    requires IsOrder(g.N(), order)
    ensures (forall start: Labels :: start.Fits(g) ==> Synced(g, Pass(Program(g), 0, Vertices(g.N()), order, start).prog))
            <==> NoSelfLoops(g)
  {
    if NoSelfLoops(g) {
      forall start: Labels | start.Fits(g)
        ensures Synced(g, Pass(Program(g), 0, Vertices(g.N()), order, start).prog)
      {
        FirstPassSyncs(g, order, start);
      }
    } else {
      var e: nat :| e < |g.cells| && g.cells[e].src == g.cells[e].dst;
      var start := SelfLoopNotSynced(g, order, e);
    }
  }

  lemma FirstPassSyncs(g: Graph, order: seq<nat>, start: Labels)
    requires IsOrder(g.N(), order) && start.Fits(g) && NoSelfLoops(g)
    ensures Synced(g, Pass(Program(g), 0, Vertices(g.N()), order, start).prog)
  {
    FirstPassData(g, order, start);
    var p := Pass(Program(g), 0, Vertices(g.N()), order, start).prog;
    forall e | 0 <= e < |g.cells|
      ensures CellSynced(g, p, e)
    {
      FirstPassSlot(g, order, start, e, g.cells[e].src);
      FirstPassSlot(g, order, start, e, g.cells[e].dst);
    }
  }

  lemma SelfLoopNotSynced(g: Graph, order: seq<nat>, e: nat) returns (start: Labels)
    requires IsOrder(g.N(), order) && e < |g.cells| && g.cells[e].src == g.cells[e].dst
    ensures start.Fits(g) && !Synced(g, Pass(Program(g), 0, Vertices(g.N()), order, start).prog)
  {
    start := Labels(seq(g.N(), v => 0), seq(|g.cells|, c => Slots(g.cells[e].src + 1, 0)));
    SelfLoopSlotFrozen(g, order, start, e);
    FirstPassData(g, order, start);
    assert g.cells[e].src in order;
    assert !CellSynced(g, Pass(Program(g), 0, Vertices(g.N()), order, start).prog, e);
  }

  lemma {:induction false} FirstPassData(g: Graph, order: seq<nat>, p: Labels)
    requires p.Fits(g) && forall i :: 0 <= i < |order| ==> order[i] < g.N()
    ensures var r := Pass(Program(g), 0, Vertices(g.N()), order, p);
            && r.prog.Fits(g) && (forall v :: v in order ==> r.prog.data[v] == v)
            && (forall v: nat :: v in r.tasks <==> v in order)
  {
    if order != [] {
      FirstPassData(g, order[..|order| - 1], p);
      assert order == order[..|order| - 1] + [order[|order| - 1]];
    }
  }

  /** Once visited, an end of an edge has its own id in its slot to the end of the pass. */
  lemma {:induction false} FirstPassSlot(g: Graph, order: seq<nat>, p: Labels, e: nat, me: nat)
    requires p.Fits(g) && e < |g.cells| && g.cells[e].src != g.cells[e].dst && Incident(g, me, e)
    requires (forall i :: 0 <= i < |order| ==> order[i] < g.N()) && me in order
    ensures var r := Pass(Program(g), 0, Vertices(g.N()), order, p).prog;
            r.Fits(g) && NeighborLabel(r.cells[e], Other(g.cells[e], me), me) == me
  {
    var init, v := order[..|order| - 1], order[|order| - 1];
    FirstPassData(g, init, p);
    WriteLabelSets(g, Pass(Program(g), 0, Vertices(g.N()), init, p).prog.cells, v, v);
    if v != me {
      FirstPassSlot(g, init, p, e, me);
    }
  }

  lemma {:induction false} SelfLoopSlotFrozen(g: Graph, order: seq<nat>, p: Labels, e: nat)
    requires p.Fits(g) && e < |g.cells| && g.cells[e].src == g.cells[e].dst
    requires forall i :: 0 <= i < |order| ==> order[i] < g.N()
    ensures var r := Pass(Program(g), 0, Vertices(g.N()), order, p).prog;
            r.Fits(g) && r.cells[e].smaller == p.cells[e].smaller
  {
    if order != [] {
      var init, v := order[..|order| - 1], order[|order| - 1];
      SelfLoopSlotFrozen(g, init, p, e);
      WriteLabelSets(g, Pass(Program(g), 0, Vertices(g.N()), init, p).prog.cells, v, v);
    }
  }

  // ---------- an unstable vertex is always still to be updated ----------

  ghost predicate Stable(g: Graph, data: seq<nat>, v: nat)
    requires v < g.N() && |data| == g.N()
  {
    if NumEdges(g, v) == 0 then data[v] == v else IsPlurality(NbrData(g, data, v), data[v])
  }

  ghost predicate Inv(g: Graph, p: Labels, todo: set<nat>)
  {
    && Synced(g, p) && todo <= Vertices(g.N())
    && (forall v: nat :: v < g.N() && NumEdges(g, v) == 0 ==> p.data[v] == v)
    && (forall v: nat :: v < g.N() && !Stable(g, p.data, v) ==> v in todo)
  }

  lemma WriteKeepsSynced(g: Graph, p: Labels, v: nat, mine: nat)
    requires Synced(g, p) && NoSelfLoops(g) && v < g.N()
    ensures Synced(g, Labels(p.data[v := mine], WriteLabel(g, p.cells, v, NumEdges(g, v), mine)))
  {
    WriteLabelSets(g, p.cells, v, mine);
    var q := Labels(p.data[v := mine], WriteLabel(g, p.cells, v, NumEdges(g, v), mine));
    forall e | 0 <= e < |g.cells|
      ensures CellSynced(g, q, e)
    {
      assert CellSynced(g, p, e);
    }
  }

  lemma {:induction false} NeighboursAre(g: Graph, v: nat, k: nat)
    requires v < g.N() && k <= NumEdges(g, v)
    ensures Neighbours(g, v, k) <= Vertices(g.N()) && forall i :: 0 <= i < k ==> NbrAt(g, v, i) in Neighbours(g, v, k)
  {
    if k > 0 {
      NeighboursAre(g, v, k - 1);
    }
  }

  lemma {:induction false} NeighboursListed(g: Graph, v: nat, k: nat, w: nat)
    requires v < g.N() && k <= NumEdges(g, v)
    ensures w in Neighbours(g, v, k) <==> exists i :: 0 <= i < k && NbrAt(g, v, i) == w
  {
    if k > 0 {
      NeighboursListed(g, v, k - 1, w);
    }
  }

  lemma NeighboursAreLinked(g: Graph, v: nat, w: nat)
    requires v < g.N()
    ensures w in Neighbours(g, v, NumEdges(g, v)) <==> (w, v) in Undirected(g)
  {
    NeighboursListed(g, v, NumEdges(g, v), w);
    if w in Neighbours(g, v, NumEdges(g, v)) {
      var i :| 0 <= i < NumEdges(g, v) && NbrAt(g, v, i) == w;
      NbrLinked(g, v, i);
    }
    if (w, v) in Undirected(g) {
      var i := LinkSeen(g, w, v);
    }
  }

  lemma ReadsAllNeighbours(g: Graph, p: Labels, v: nat)
    requires Synced(g, p) && v < g.N()
    ensures ReadLabels(g, p.cells, v, NumEdges(g, v)) == NbrData(g, p.data, v)
  {
    ReadsNeighbours(g, p, v, NumEdges(g, v));
    assert NbrData(g, p.data, v)[..NumEdges(g, v)] == NbrData(g, p.data, v);
  }

  lemma TakesTheTally(g: Graph, iter: nat, p: Labels, v: nat)
    requires iter > 0 && v < g.N() && p.Fits(g) && NumEdges(g, v) > 0
    ensures var q := UpdateVertex(g, iter, p, v).prog;
            q.Fits(g) && q.data == p.data[v := TallyOf(ReadLabels(g, p.cells, v, NumEdges(g, v))).maxlabel]
  {
  }

  lemma SchedulesTheLinked(g: Graph, iter: nat, p: Labels, v: nat)
    requires iter > 0 && v < g.N() && p.Fits(g) && NumEdges(g, v) > 0
    ensures var e := UpdateVertex(g, iter, p, v);
            && e.prog.Fits(g)
            && forall w: nat :: w in e.tasks <==> e.prog.data[v] != p.data[v] && (w, v) in Undirected(g)
  {
    forall w: nat
      ensures w in Neighbours(g, v, NumEdges(g, v)) <==> (w, v) in Undirected(g)
    {
      NeighboursAreLinked(g, v, w);
    }
  }

  /** What an update after the first iteration does: it gives the vertex the label that most of
      its neighbours hold, the largest of several, and no other vertex another one; and if that
      is a new label, exactly the vertices linked to it become tasks. */
  lemma UpdateChooses(g: Graph, iter: nat, p: Labels, v: nat)
    requires iter > 0 && v < g.N() && Synced(g, p) && NumEdges(g, v) > 0
    ensures var e := UpdateVertex(g, iter, p, v);
            && e.prog.Fits(g) && IsPlurality(NbrData(g, p.data, v), e.prog.data[v])
            && (forall w :: 0 <= w < g.N() && w != v ==> e.prog.data[w] == p.data[w])
            && forall w: nat :: w in e.tasks <==> e.prog.data[v] != p.data[v] && (w, v) in Undirected(g)
  {
    ReadsAllNeighbours(g, p, v);
    TakesTheTally(g, iter, p, v);
    TallyIsPlurality(NbrData(g, p.data, v));
    SchedulesTheLinked(g, iter, p, v);
  }

  /** Changing v's label can disturb only v's neighbours. */
  lemma ChangeIsLocal(g: Graph, data: seq<nat>, v: nat, mine: nat, w: nat)
    requires |data| == g.N() && v < g.N() && w < g.N() && NoSelfLoops(g)
    requires w !in Neighbours(g, v, NumEdges(g, v))
    ensures NbrData(g, data[v := mine], w) == NbrData(g, data, w)
  {
    forall i | 0 <= i < NumEdges(g, w)
      ensures NbrAt(g, w, i) != v
    {
      if NbrAt(g, w, i) == v {
        NbrLinked(g, w, i);
        var j := LinkSeen(g, w, v);
        NeighboursAre(g, v, NumEdges(g, v));
      }
    }
  }

  lemma ChangeKeeps(g: Graph, p: Labels, rest: set<nat>, v: nat, newLabel: nat)
    requires v < g.N() && NumEdges(g, v) > 0 && NoSelfLoops(g) && Inv(g, p, rest + {v})
    requires IsPlurality(NbrData(g, p.data, v), newLabel)
    ensures Inv(g, Labels(p.data[v := newLabel], WriteLabel(g, p.cells, v, NumEdges(g, v), newLabel)),
                rest + Neighbours(g, v, NumEdges(g, v)))
  {
    var data, tasks := p.data[v := newLabel], Neighbours(g, v, NumEdges(g, v));
    WriteKeepsSynced(g, p, v, newLabel);
    NeighboursAre(g, v, NumEdges(g, v));
    forall w: nat | w < g.N() && !Stable(g, data, w)
      ensures w in rest + tasks
    {
      if w !in tasks {
        ChangeIsLocal(g, p.data, v, newLabel, w);
        assert w != v ==> !Stable(g, p.data, w);
      }
    }
  }

  lemma UpdateKeeps(g: Graph, iter: nat, p: Labels, rest: set<nat>, v: nat)
    requires v < g.N() && iter > 0 && NoSelfLoops(g) && Inv(g, p, rest + {v})
    ensures var e := UpdateVertex(g, iter, p, v); Inv(g, e.prog, rest + e.tasks)
  {
    var degree := NumEdges(g, v);
    if degree > 0 {
      var labels := NbrData(g, p.data, v);
      ReadsAllNeighbours(g, p, v);
      TallyIsPlurality(labels);
      var newLabel := TallyOf(labels).maxlabel;
      if newLabel == p.data[v] {
        assert Stable(g, p.data, v);
        assert UpdateVertex(g, iter, p, v) == Effect(p, {});
      } else {
        ChangeKeeps(g, p, rest, v, newLabel);
      }
    } else {
      assert Stable(g, p.data, v);
    }
  }

  lemma FirstPassInv(g: Graph, order: seq<nat>, start: Labels)
    requires IsOrder(g.N(), order) && start.Fits(g) && NoSelfLoops(g)
    ensures var e := Pass(Program(g), 0, Vertices(g.N()), order, start); Inv(g, e.prog, e.tasks)
  {
    FirstPassData(g, order, start);
    FirstPassSyncs(g, order, start);
    forall v: nat | v < g.N()
      ensures v in order
    {
    }
  }

  lemma RunInvariant(g: Graph, orders: seq<seq<nat>>, start: Labels)
    requires AreOrders(g.N(), orders) && |orders| > 0 && start.Fits(g) && NoSelfLoops(g)
    ensures var r := RunPasses(Program(g), true, g.N(), orders, start);
            Inv(g, r.prog, r.next) && (r.dry ==> r.next == {})
  {
    var n := g.N();
    var inv := (p: Labels, todo: set<nat>) => Inv(g, p, todo);
    forall iter: nat | iter > 0
      ensures Keeps(Program(g), n, iter, inv)
    {
      forall p: Labels, rest: set<nat>, v: nat | v < n && inv(p, rest + {v})
        ensures inv(Program(g)(iter, p, v).prog, rest + Program(g)(iter, p, v).tasks)
      {
        UpdateKeeps(g, iter, p, rest, v);
      }
    }
    FirstPassInv(g, orders[0], start);
    FirstPass(Program(g), true, n, orders[0], start);
    assert orders[..1] == [orders[0]];
    RunKeeps(Program(g), n, orders, start, inv);
  }

  /** The state in the middle of pass k, behind its first i visits. */
  ghost function Visiting(g: Graph, orders: seq<seq<nat>>, start: Labels, k: nat, i: nat): Labels
    requires k < |orders| && i <= |orders[k]|
  {
    var before := RunPasses(Program(g), true, g.N(), orders[..k], start);
    Pass(Program(g), k, before.next, orders[k][..i], before.prog).prog
  }

  lemma VisitingSynced(g: Graph, orders: seq<seq<nat>>, start: Labels, k: nat, i: nat)
    requires AreOrders(g.N(), orders) && start.Fits(g) && NoSelfLoops(g) && 0 < k < |orders| && i <= |orders[k]|
    ensures Synced(g, Visiting(g, orders, start, k, i))
  {
    var inv := (p: Labels, todo: set<nat>) => Inv(g, p, todo);
    forall p: Labels, rest: set<nat>, v: nat | v < g.N() && inv(p, rest + {v})
      ensures inv(Program(g)(k, p, v).prog, rest + Program(g)(k, p, v).tasks)
    {
      UpdateKeeps(g, k, p, rest, v);
    }
    RunInvariant(g, orders[..k], start);
    var before := RunPasses(Program(g), true, g.N(), orders[..k], start);
    PassKeeps(Program(g), g.N(), k, before.next, orders[k][..i], before.prog, inv);
  }

  /** In every run and every pass after the first: each scheduled vertex is given, when it is
      visited, the plurality label of its neighbours at that moment. */
  lemma VisitChooses(g: Graph, orders: seq<seq<nat>>, start: Labels, k: nat, i: nat)
    requires AreOrders(g.N(), orders) && start.Fits(g) && NoSelfLoops(g) && 0 < k < |orders| && i < |orders[k]|
    requires NumEdges(g, orders[k][i]) > 0
    requires orders[k][i] in RunPasses(Program(g), true, g.N(), orders[..k], start).next
    ensures var p, q, v := Visiting(g, orders, start, k, i), Visiting(g, orders, start, k, i + 1), orders[k][i];
            && p.Fits(g) && q.Fits(g) && IsPlurality(NbrData(g, p.data, v), q.data[v])
            && forall w :: 0 <= w < g.N() && w != v ==> q.data[w] == p.data[w]
  {
    VisitingSynced(g, orders, start, k, i);
    UpdateChooses(g, k, Visiting(g, orders, start, k, i), orders[k][i]);
    assert orders[k][..i + 1][..i] == orders[k][..i];
  }

  /** When no tasks remain, every vertex holds the largest of its neighbours' most frequent labels. */
  lemma DryRunIsStable(g: Graph, orders: seq<seq<nat>>, start: Labels)
    requires AreOrders(g.N(), orders) && start.Fits(g) && NoSelfLoops(g)
    requires RunPasses(Program(g), true, g.N(), orders, start).dry
    ensures var p := RunPasses(Program(g), true, g.N(), orders, start).prog;
            Synced(g, p) && forall v: nat :: v < g.N() ==> Stable(g, p.data, v)
  {
    RunInvariant(g, orders, start);
  }

  lemma OneMoreRead(g: Graph, cells: seq<Slots>, v: nat, i: nat)
    requires v < g.N() && i < NumEdges(g, v) && |cells| == |g.cells|
    ensures TallyOf(ReadLabels(g, cells, v, i + 1))
         == Count(TallyOf(ReadLabels(g, cells, v, i)), NeighborLabel(cells[CellAt(g, v, i)], v, NbrAt(g, v, i)))
  {
    assert ReadLabels(g, cells, v, i + 1)[..i] == ReadLabels(g, cells, v, i);
  }

  // ---------- the program as it updates vertex data and edge slots ----------

  class CommunityDetectionProgram {
    const graph: Graph
    const data: array<nat>
    const cells: array<Slots>

    constructor (g: Graph, vertexData: array<nat>, edgeData: array<Slots>)
      requires vertexData.Length == g.N() && edgeData.Length == |g.cells|
      ensures Valid() && graph == g && data == vertexData && cells == edgeData
    {
      graph, data, cells := g, vertexData, edgeData;
    }

    ghost predicate Valid()
    {
      data.Length == graph.N() && cells.Length == |graph.cells|
    }

    ghost function State(): Labels
      reads data, cells
    {
      Labels(data[..], cells[..])
    }

    method CountLabel(counts: map<nat, nat>, maxcount: nat, maxlabel: nat, nblabel: nat)
      returns (counts': map<nat, nat>, maxcount': nat, maxlabel': nat)
      ensures Tally(counts', maxcount', maxlabel') == Count(Tally(counts, maxcount, maxlabel), nblabel)
    {
      maxcount', maxlabel' := maxcount, maxlabel;
      var newcount := 1;
      if nblabel in counts {
        newcount := counts[nblabel] + 1;
      }
      counts' := counts[nblabel := newcount];
      if newcount > maxcount || (maxcount == newcount && nblabel > maxlabel) {
        maxlabel', maxcount' := nblabel, newcount;
      }
    }

    method MostPopular(v: nat) returns (maxlabel: nat)
      requires Valid() && v < graph.N()
      ensures maxlabel == TallyOf(ReadLabels(graph, cells[..], v, NumEdges(graph, v))).maxlabel
    {
      ghost var slots := cells[..];
      var counts: map<nat, nat> := map[];
      var maxcount := 0;
      maxlabel := 0;
      for i := 0 to NumEdges(graph, v)
        invariant Tally(counts, maxcount, maxlabel) == TallyOf(ReadLabels(graph, slots, v, i))
      {
        var nblabel := NeighborLabel(cells[CellAt(graph, v, i)], v, NbrAt(graph, v, i));
        counts, maxcount, maxlabel := CountLabel(counts, maxcount, maxlabel, nblabel);
        OneMoreRead(graph, slots, v, i);
      }
    }

    method WriteToEdges(v: nat, mine: nat, schedule: bool, scheduler: BitsetScheduler)
      requires Valid() && v < graph.N()
      modifies cells, scheduler
      ensures cells[..] == WriteLabel(graph, old(cells[..]), v, NumEdges(graph, v), mine)
      ensures var tasks := if schedule then Neighbours(graph, v, NumEdges(graph, v)) else {};
              && scheduler.cur == old(scheduler.cur) && scheduler.next == old(scheduler.next) + tasks
              && scheduler.hasNewTasks == (old(scheduler.hasNewTasks) || tasks != {})
    {
      ghost var slots := cells[..];
      for i := 0 to NumEdges(graph, v)
        invariant cells[..] == WriteLabel(graph, slots, v, i, mine) && scheduler.cur == old(scheduler.cur)
        invariant var tasks := if schedule then Neighbours(graph, v, i) else {};
          && scheduler.next == old(scheduler.next) + tasks
          && scheduler.hasNewTasks == (old(scheduler.hasNewTasks) || tasks != {})
      {
        var e := CellAt(graph, v, i);
        cells[e] := WithMyLabel(cells[e], v, NbrAt(graph, v, i), mine);
        if schedule {
          scheduler.AddTask(NbrAt(graph, v, i));
        }
      }
    }

    method UpdateAt(v: nat, iteration: nat, scheduler: BitsetScheduler)
      requires Valid() && v < graph.N()
      modifies data, cells, scheduler
      ensures var e := UpdateVertex(graph, iteration, old(State()), v);
              && State() == e.prog && scheduler.cur == old(scheduler.cur)
              && scheduler.next == old(scheduler.next) + e.tasks
              && scheduler.hasNewTasks == (old(scheduler.hasNewTasks) || e.tasks != {})
    {
      var newLabel := v;
      if iteration == 0 {
        data[v] := v;
        scheduler.AddTask(v);
      } else {
        if NumEdges(graph, v) == 0 {
          return;
        }
        newLabel := MostPopular(v);
      }
      if newLabel != data[v] || iteration == 0 {
        data[v] := newLabel;
        WriteToEdges(v, newLabel, iteration > 0, scheduler);
      }
    }
  }
}
