/** What it means for vertex labels to name connected components. */
module ComponentLabels {
  import opened Reachability
  import opened Graphs

  function Ids(n: nat): (s: seq<nat>)
    ensures |s| == n && forall v :: 0 <= v < n ==> s[v] == v
  {
    seq(n, i => i)
  }

  ghost predicate LabelsAreComponentMinima(g: Graph, labels: seq<nat>)
  {
    |labels| == g.N() && forall v: nat :: v < g.N() ==> IsLeast(Undirected(g), labels[v], v)
  }

  /** Each label is the id of some vertex of the component, and no larger than the vertex's own. */
  ghost predicate FromComponent(g: Graph, labels: seq<nat>)
  {
    && |labels| == g.N()
    && forall v: nat :: v < g.N() ==> labels[v] <= v && Connected(Undirected(g), labels[v], v)
  }

  lemma IdsFromComponent(g: Graph)
    ensures FromComponent(g, Ids(g.N()))
  {
    forall v: nat { ConnectedSelf(Undirected(g), v); }
  }

  ghost predicate AgreeOnLinks(g: Graph, labels: seq<nat>)
  {
    forall u, v :: (u, v) in Undirected(g) ==> u < |labels| && v < |labels| && labels[u] == labels[v]
  }

  lemma {:induction false} AgreeAlongWalk(g: Graph, labels: seq<nat>, u: nat, v: nat, k: nat)
    requires AgreeOnLinks(g, labels) && |labels| == g.N() && v < g.N() && Within(Undirected(g), u, v, k)
    ensures u < g.N() && labels[u] == labels[v]
    decreases k
  {
    if u != v {
      var x: nat :| (x, v) in Undirected(g) && Within(Undirected(g), u, x, k - 1);
      AgreeAlongWalk(g, labels, u, x, k - 1);
    }
  }

  /** Labels taken from the component that agree over every edge are the minima. */
  lemma AgreementIsMinimum(g: Graph, labels: seq<nat>)
    requires FromComponent(g, labels) && AgreeOnLinks(g, labels)
    ensures LabelsAreComponentMinima(g, labels)
  {
    forall v: nat, u: nat | v < g.N() && Connected(Undirected(g), u, v)
      ensures labels[v] <= u
    {
      var k: nat :| Within(Undirected(g), u, v, k);
      AgreeAlongWalk(g, labels, u, v, k);
    }
  }

  lemma MinimaAgree(g: Graph, labels: seq<nat>)
    requires LabelsAreComponentMinima(g, labels)
    ensures AgreeOnLinks(g, labels)
  {
    forall u, v | (u, v) in Undirected(g)
      ensures u < |labels| && v < |labels| && labels[u] == labels[v]
    {
      LinksOnVertices(g);
      assert (v, u) in Undirected(g);
      ConnectedStep(Undirected(g), labels[u], u, v);
      ConnectedStep(Undirected(g), labels[v], v, u);
    }
  }

  /** Every vertex within k hops of its component's minimum already carries it. */
  ghost predicate Settled(g: Graph, values: seq<nat>, k: nat)
  {
    && |values| == g.N()
    && forall m: nat, v: nat :: v < g.N() && IsLeast(Undirected(g), m, v) && Within(Undirected(g), m, v, k) ==> values[v] == m
  }

  lemma LeastUnique(g: Graph, values: seq<nat>)
    requires LabelsAreComponentMinima(g, values)
    ensures forall k: nat :: Settled(g, values, k)
  {
    forall m: nat, v: nat | v < g.N() && IsLeast(Undirected(g), m, v)
      ensures m == values[v]
    {
      assert IsLeast(Undirected(g), values[v], v);
    }
  }

  lemma SettledEverywhere(g: Graph, values: seq<nat>, radius: nat)
    requires Settled(g, values, radius) && RadiusAtMost(g, radius)
    ensures LabelsAreComponentMinima(g, values)
  {
    forall v: nat | v < g.N()
      ensures IsLeast(Undirected(g), values[v], v)
    {
      ConnectedSelf(Undirected(g), v);
      var m := LeastExists(Undirected(g), v, v);
    }
  }

  /** No vertex is more than radius hops away from its component's minimum. */
  ghost predicate RadiusAtMost(g: Graph, radius: nat)
  {
    forall m: nat, v: nat :: v < g.N() && IsLeast(Undirected(g), m, v) ==> Within(Undirected(g), m, v, radius)
  }

  lemma RadiusBelowN(g: Graph)
    requires g.N() > 0
    ensures RadiusAtMost(g, g.N() - 1)
  {
    LinksOnVertices(g);
    forall m: nat, v: nat | v < g.N() && IsLeast(Undirected(g), m, v)
      ensures Within(Undirected(g), m, v, g.N() - 1)
    {
      var k: nat :| Within(Undirected(g), m, v, k);
      WalkStart(Undirected(g), g.N(), m, v, k);
      ShortWalk(Undirected(g), g.N(), m, v);
    }
  }

}
