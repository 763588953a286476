/** How the engine carves one edge buffer into the edge lists of the scheduled vertices. */
module EdgeSlices {

  datatype Degree = Degree(indegree: nat, outdegree: nat)

  datatype Config = Config(hasScheduler: bool, storeInedges: bool, disableOutedges: bool)

  /** A vertex object: where its edge lists start, how long they are, and its scheduled flag. */
  datatype Vertex = Vertex(inPtr: nat, outPtr: nat, inc: nat, outc: nat, scheduled: bool)

  function InRoom(c: Config, d: Degree): nat
  {
    if c.storeInedges then d.indegree else 0
  }

  function OutRoom(c: Config, d: Degree): nat
  {
    if c.disableOutedges then 0 else d.outdegree
  }

  predicate Runs(c: Config, scheduled: seq<bool>, i: nat)
    requires i < |scheduled|
  {
    !c.hasScheduler || scheduled[i]
  }

  /** Buffer room taken by the scheduled vertices among the first k. */
  function Used(c: Config, degrees: seq<Degree>, scheduled: seq<bool>, k: nat): nat
    requires k <= |degrees| == |scheduled|
  {
    if k == 0 then 0 else
    Used(c, degrees, scheduled, k - 1) +
    if Runs(c, scheduled, k - 1) then InRoom(c, degrees[k - 1]) + OutRoom(c, degrees[k - 1]) else 0
  }

  /** The half-open slice of the buffer that holds the vertex's stored edges. */
  function SliceEnd(v: Vertex): nat
  {
    v.outPtr + v.outc
  }

  /** Slices of vertices that will be updated never share a cell and end inside the buffer. */
  ghost predicate Separate(vertices: seq<Vertex>, size: nat)
  {
    && (forall i :: 0 <= i < |vertices| && vertices[i].scheduled ==>
          vertices[i].inPtr <= vertices[i].outPtr && SliceEnd(vertices[i]) <= size)
    && (forall i, j :: 0 <= i < j < |vertices| && vertices[i].scheduled && vertices[j].scheduled ==>
          SliceEnd(vertices[i]) <= vertices[j].inPtr)
  }

  function SumOf(cells: seq<nat>): nat
  {
    if cells == [] then 0 else SumOf(cells[..|cells| - 1]) + cells[|cells| - 1]
  }

  /** The edges that each vertex may have to load: none unless it is scheduled, then its
      out-edges and, if they are stored, its in-edges. */
  function Cells(c: Config, degrees: seq<Degree>, scheduled: seq<bool>): seq<nat>
    requires |degrees| == |scheduled|
  {
    seq(|degrees|, i requires 0 <= i < |degrees| =>
      if c.hasScheduler && !scheduled[i] then 0
      else if c.storeInedges then degrees[i].indegree + degrees[i].outdegree
      else degrees[i].outdegree)
  }

  lemma {:induction false} UsedIsSum(c: Config, degrees: seq<Degree>, scheduled: seq<bool>, k: nat)
    requires k <= |degrees| == |scheduled|
    ensures Used(c.(disableOutedges := false), degrees, scheduled, k) == SumOf(Cells(c, degrees, scheduled)[..k])
  {
    if k > 0 {
      UsedIsSum(c, degrees, scheduled, k - 1);
      assert Cells(c, degrees, scheduled)[..k][..k - 1] == Cells(c, degrees, scheduled)[..k - 1];
    }
  }

  method NumEdgesSubinterval(c: Config, degrees: seq<Degree>, scheduled: seq<bool>) returns (numEdges: nat)
    requires |degrees| == |scheduled|
    ensures numEdges == SumOf(Cells(c, degrees, scheduled))
    ensures numEdges == Used(c.(disableOutedges := false), degrees, scheduled, |degrees|)
    ensures Used(c, degrees, scheduled, |degrees|) <= numEdges
    ensures !c.disableOutedges ==> Used(c, degrees, scheduled, |degrees|) == numEdges
  {
    numEdges := 0;
    for i := 0 to |degrees|
      invariant numEdges == Used(c.(disableOutedges := false), degrees, scheduled, i)
      invariant Used(c, degrees, scheduled, i) <= numEdges
      invariant !c.disableOutedges ==> Used(c, degrees, scheduled, i) == numEdges
    {
      if !c.hasScheduler || scheduled[i] {
        var d := degrees[i];
        numEdges := numEdges + (if c.storeInedges then d.indegree else 0) + d.outdegree;
      }
    }
    UsedIsSum(c, degrees, scheduled, |degrees|);
    assert Cells(c, degrees, scheduled)[..|degrees|] == Cells(c, degrees, scheduled);
  }

  /** What init_vertices makes of vertex i: its lists start where the earlier scheduled ones end. */
  function VertexAt(c: Config, degrees: seq<Degree>, scheduled: seq<bool>, i: nat): Vertex
    requires i < |degrees| == |scheduled|
  {
    var inPtr := Used(c, degrees, scheduled, i);
    Vertex(inPtr, inPtr + InRoom(c, degrees[i]), degrees[i].indegree, OutRoom(c, degrees[i]), Runs(c, scheduled, i))
  }

  function Updates(c: Config, scheduled: seq<bool>, k: nat): nat
    requires k <= |scheduled|
  {
    if k == 0 then 0 else Updates(c, scheduled, k - 1) + if Runs(c, scheduled, k - 1) then 1 else 0
  }

  lemma {:induction false} UsedMonotone(c: Config, degrees: seq<Degree>, scheduled: seq<bool>, i: nat, k: nat)
    requires i <= k <= |degrees| == |scheduled|
    ensures Used(c, degrees, scheduled, i) <= Used(c, degrees, scheduled, k)
  {
    if i < k {
      UsedMonotone(c, degrees, scheduled, i, k - 1);
    }
  }

  lemma SlicesSeparate(c: Config, degrees: seq<Degree>, scheduled: seq<bool>, vertices: seq<Vertex>)
    requires |vertices| == |degrees| == |scheduled|
    requires forall i :: 0 <= i < |vertices| ==> vertices[i] == VertexAt(c, degrees, scheduled, i)
    ensures Separate(vertices, Used(c, degrees, scheduled, |degrees|))
  {
    forall i, k | 0 <= i < k <= |vertices| && vertices[i].scheduled
      ensures SliceEnd(vertices[i]) <= Used(c, degrees, scheduled, k)
    {
      UsedMonotone(c, degrees, scheduled, i + 1, k);
    }
  }

  /** The in-edges of a vertex end where its out-edges begin, or take no room if they are not
      stored; the counts are the degrees, without out-edges if those are disabled. */
  predicate HoldsEdges(c: Config, d: Degree, scheduled: bool, v: Vertex)
  {
    && v.outPtr == (if c.storeInedges then v.inPtr + d.indegree else v.inPtr)
    && v.inc == d.indegree
    && v.outc == (if c.disableOutedges then 0 else d.outdegree)
    && (v.scheduled <==> c.hasScheduler ==> scheduled)
  }

  /** The slices follow one another without a gap, from the front of the buffer to cell end. */
  ghost predicate Packed(vertices: seq<Vertex>, end: nat)
  {
    forall i :: 0 <= i <= |vertices| ==> Behind(vertices, i) == if i < |vertices| then vertices[i].inPtr else end
  }

  /** The first cell behind the last scheduled vertex among the first i. */
  function Behind(vertices: seq<Vertex>, i: nat): nat
    requires i <= |vertices|
  {
    if i == 0 then 0 else if vertices[i - 1].scheduled then SliceEnd(vertices[i - 1]) else Behind(vertices, i - 1)
  }

  lemma {:induction false} BehindIsUsed(c: Config, degrees: seq<Degree>, scheduled: seq<bool>, vertices: seq<Vertex>, i: nat)
    requires i <= |vertices| == |degrees| == |scheduled|
    requires forall j :: 0 <= j < |vertices| ==> vertices[j] == VertexAt(c, degrees, scheduled, j)
    ensures Behind(vertices, i) == Used(c, degrees, scheduled, i)
  {
    if i > 0 {
      BehindIsUsed(c, degrees, scheduled, vertices, i - 1);
    }
  }

  lemma SlicesPacked(c: Config, degrees: seq<Degree>, scheduled: seq<bool>, vertices: seq<Vertex>)
    requires |vertices| == |degrees| == |scheduled|
    requires forall j :: 0 <= j < |vertices| ==> vertices[j] == VertexAt(c, degrees, scheduled, j)
    ensures Packed(vertices, Used(c, degrees, scheduled, |degrees|))
    ensures forall i :: 0 <= i < |vertices| ==> HoldsEdges(c, degrees[i], scheduled[i], vertices[i])
  {
    forall i | 0 <= i <= |vertices|
      ensures Behind(vertices, i) == if i < |vertices| then vertices[i].inPtr else Used(c, degrees, scheduled, |degrees|)
    {
      BehindIsUsed(c, degrees, scheduled, vertices, i);
    }
  }

  /** Cell x holds an edge of vertex v. */
  predicate InSlice(v: Vertex, x: nat)
  {
    v.scheduled && v.inPtr <= x < SliceEnd(v)
  }

  lemma {:induction false} FindCell(vertices: seq<Vertex>, k: nat, x: nat) returns (i: nat)
    requires k <= |vertices| && x < Behind(vertices, k)
    ensures i < k && vertices[i].scheduled && Behind(vertices, i) <= x < SliceEnd(vertices[i])
  {
    if Behind(vertices, k - 1) <= x {
      i := k - 1;
    } else {
      i := FindCell(vertices, k - 1, x);
    }
  }

  lemma NoOtherSlice(vertices: seq<Vertex>, end: nat, x: nat, i: nat, j: nat)
    requires Separate(vertices, end) && i < |vertices| && j < |vertices|
    requires InSlice(vertices[i], x) && InSlice(vertices[j], x)
    ensures i == j
  {
  }

  /** Every cell in use belongs to exactly one scheduled vertex. */
  lemma EveryCellOnce(vertices: seq<Vertex>, end: nat, x: nat) returns (i: nat)
    requires Packed(vertices, end) && Separate(vertices, end) && x < end
    ensures i < |vertices| && InSlice(vertices[i], x)
    ensures forall j :: 0 <= j < |vertices| && InSlice(vertices[j], x) ==> j == i
  {
    assert Behind(vertices, |vertices|) == end;
    i := FindCell(vertices, |vertices|, x);
    assert Behind(vertices, i) == vertices[i].inPtr;
    forall j | 0 <= j < |vertices| && InSlice(vertices[j], x)
      ensures j == i
    {
      NoOtherSlice(vertices, end, x, i, j);
    }
  }

  ghost function Running(c: Config, scheduled: seq<bool>, k: nat): set<nat>
    requires k <= |scheduled|
  {
    set i: nat | i < k && (c.hasScheduler ==> scheduled[i])
  }

  lemma RunningGrows(c: Config, scheduled: seq<bool>, k: nat)
    requires k < |scheduled|
    ensures Running(c, scheduled, k + 1)
         == Running(c, scheduled, k) + if c.hasScheduler && !scheduled[k] then {} else {k}
  {
  }

  lemma {:induction false} UpdatesCount(c: Config, scheduled: seq<bool>, k: nat)
    requires k <= |scheduled|
    ensures Updates(c, scheduled, k) == |Running(c, scheduled, k)|
  {
    if k > 0 {
      UpdatesCount(c, scheduled, k - 1);
      RunningGrows(c, scheduled, k - 1);
    }
  }

  /** Fills the vertex objects; the buffer of numEdges cells is large enough for every
      degree sequence, schedule and setting of the flags. */
  method InitVertices(c: Config, degrees: seq<Degree>, scheduled: seq<bool>, vertices: array<Vertex>)
    returns (numEdges: nat, ecounter: nat, nupdates: nat)
    requires |degrees| == |scheduled| == vertices.Length
    modifies vertices
    ensures forall i :: 0 <= i < vertices.Length ==> vertices[i] == VertexAt(c, degrees, scheduled, i)
    ensures forall i :: 0 <= i < vertices.Length ==> HoldsEdges(c, degrees[i], scheduled[i], vertices[i])
    ensures Separate(vertices[..], ecounter) && Packed(vertices[..], ecounter)
    ensures numEdges == SumOf(Cells(c, degrees, scheduled))
    ensures ecounter == Used(c, degrees, scheduled, |degrees|) <= numEdges
    ensures !c.disableOutedges ==> ecounter == numEdges
    ensures nupdates == |Running(c, scheduled, |scheduled|)|
  {
    numEdges := NumEdgesSubinterval(c, degrees, scheduled);
    ecounter, nupdates := 0, 0;
    for i := 0 to vertices.Length
      invariant ecounter == Used(c, degrees, scheduled, i) && nupdates == Updates(c, scheduled, i)
      invariant forall j :: 0 <= j < i ==> vertices[j] == VertexAt(c, degrees, scheduled, j)
    {
      var d := degrees[i];
      var inc := d.indegree;
      var outc := if c.disableOutedges then 0 else d.outdegree;
      var stored := if c.storeInedges then inc else 0;
      var flag := !c.hasScheduler || scheduled[i];
      vertices[i] := Vertex(ecounter, ecounter + stored, inc, outc, flag);
      if flag {
        nupdates := nupdates + 1;
        ecounter := ecounter + stored + outc;
      }
    }
    SlicesSeparate(c, degrees, scheduled, vertices[..]);
    SlicesPacked(c, degrees, scheduled, vertices[..]);
    UpdatesCount(c, scheduled, |scheduled|);
    assert forall i :: 0 <= i < vertices.Length ==> vertices[..][i] == vertices[i];
  }
}
