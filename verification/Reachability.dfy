/** Walks in a finite relation over the vertices 0..n, and how long they need to be. */
module Reachability {
  type Links = set<(nat, nat)>

  /** b can be reached from a along at most k links. */
  ghost predicate Within(links: Links, a: nat, b: nat, k: nat)
    decreases k
  {
    a == b || (k > 0 && exists u: nat :: (u, b) in links && Within(links, a, u, k - 1))
  }

  ghost predicate Connected(links: Links, a: nat, b: nat)
  {
    exists k: nat :: Within(links, a, b, k)
  }

  /** m is the smallest vertex that reaches v: over symmetric links, the minimum of v's component. */
  ghost predicate IsLeast(links: Links, m: nat, v: nat)
  {
    Connected(links, m, v) && forall u: nat :: Connected(links, u, v) ==> m <= u
  }

  ghost predicate OnVertices(links: Links, n: nat)
  {
    forall u, v :: (u, v) in links ==> u < n && v < n
  }

  lemma {:induction false} WithinMonotone(links: Links, a: nat, b: nat, j: nat, k: nat)
    requires Within(links, a, b, j) && j <= k
    ensures Within(links, a, b, k)
    decreases k
  {
    if a != b {
      var u: nat :| (u, b) in links && Within(links, a, u, j - 1);
      WithinMonotone(links, a, u, j - 1, k - 1);
    }
  }

  lemma ConnectedStep(links: Links, a: nat, u: nat, v: nat)
    requires Connected(links, a, u) && (u, v) in links
    ensures Connected(links, a, v)
  {
    var k: nat :| Within(links, a, u, k);
    assert Within(links, a, v, k + 1);
  }

  lemma ConnectedSelf(links: Links, a: nat)
    ensures Connected(links, a, a)
  {
    assert Within(links, a, a, 0);
  }

  /** Going one link back from v keeps the minimum, provided that the minimum reaches that far. */
  lemma LeastOfPredecessor(links: Links, m: nat, u: nat, v: nat)
    requires IsLeast(links, m, v) && (u, v) in links && Connected(links, m, u)
    ensures IsLeast(links, m, u)
  {
    forall x: nat | Connected(links, x, u)
      ensures m <= x
    {
      ConnectedStep(links, x, u, v);
    }
  }

  /** Every vertex has a least vertex that reaches it. */
  lemma {:induction false} LeastExists(links: Links, v: nat, u: nat) returns (m: nat)
    requires Connected(links, u, v)
    ensures IsLeast(links, m, v)
    decreases u
  {
    if w: nat :| w < u && Connected(links, w, v) {
      m := LeastExists(links, v, w);
    } else {
      m := u;
    }
  }

  lemma {:induction false} WalkStart(links: Links, n: nat, u: nat, v: nat, k: nat)
    requires OnVertices(links, n) && v < n && Within(links, u, v, k)
    ensures u < n
    decreases k
  {
    if u != v {
      var x: nat :| (x, v) in links && Within(links, u, x, k - 1);
      WalkStart(links, n, u, x, k - 1);
    }
  }

  // ---------- no shortest walk is longer than n - 1 ----------

  ghost function Ball(links: Links, n: nat, a: nat, k: nat): set<nat>
  {
    set v | v in Vertices(n) && Within(links, a, v, k)
  }

  function Vertices(n: nat): (s: set<nat>)
    ensures forall v: nat :: v in s <==> v < n
  {
    if n == 0 then {} else Vertices(n - 1) + {n - 1}
  }

  lemma {:induction false} VerticesSize(n: nat)
    ensures |Vertices(n)| == n
  {
    if n > 0 {
      VerticesSize(n - 1);
    }
  }

  ghost predicate Closed(links: Links, s: set<nat>)
  {
    forall u, v :: (u, v) in links && u in s ==> v in s
  }

  lemma {:induction false} ClosedHoldsAll(links: Links, s: set<nat>, a: nat, b: nat, k: nat)
    requires Closed(links, s) && a in s && Within(links, a, b, k)
    ensures b in s
    decreases k
  {
    if a != b {
      var u: nat :| (u, b) in links && Within(links, a, u, k - 1);
      ClosedHoldsAll(links, s, a, u, k - 1);
    }
  }

  /** A ball that is not yet closed gains a vertex with every extra link. */
  lemma {:induction false} BallGrows(links: Links, n: nat, a: nat, k: nat)
    requires OnVertices(links, n) && a < n
    ensures |Ball(links, n, a, k)| > k || Closed(links, Ball(links, n, a, k))
  {
    var here := Ball(links, n, a, k);
    assert a in here;
    if k == 0 {
    } else {
      var before := Ball(links, n, a, k - 1);
      BallGrows(links, n, a, k - 1);
      assert before <= here by {
        forall v | v in before ensures v in here { WithinMonotone(links, a, v, k - 1, k); }
      }
      if Closed(links, before) {
        forall v | v in here ensures v in before { ClosedHoldsAll(links, before, a, v, k); }
        assert here == before;
      } else {
        var u, v :| (u, v) in links && u in before && v !in before;
        assert Within(links, a, v, k);
        assert before + {v} <= here;
        SubsetSize(before + {v}, here);
      }
    }
  }

  lemma SubsetSize(s: set<nat>, t: set<nat>)
    requires s <= t
    ensures |s| <= |t|
  {
    assert t == s + (t - s);
  }

  lemma ShortWalk(links: Links, n: nat, a: nat, b: nat)
    requires OnVertices(links, n) && a < n && b < n && Connected(links, a, b)
    ensures Within(links, a, b, n - 1)
  {
    var k: nat :| Within(links, a, b, k);
    var ball := Ball(links, n, a, n - 1);
    BallGrows(links, n, a, n - 1);
    assert a in ball;
    if Closed(links, ball) {
      ClosedHoldsAll(links, ball, a, b, k);
    } else {
      if b !in ball {
        VerticesSize(n);
        SubsetSize(ball + {b}, Vertices(n));
      }
    }
  }
}
