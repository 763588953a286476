/** The flow counter of the traffic generator: advanced per packet built, rolled back for
    packets that could not be sent (flowgen). */
module FlowCounter {
  import opened Products

  // ---------- remainders by a fixed but unknown n ----------

  lemma RemainderUnique(x: int, q: int, r: int, n: int)
    requires n > 0 && 0 <= r < n && x == q * n + r
    ensures x % n == r
  {
    var p, t := x / n, x % n;
    assert x == p * n + t;
    assert (q - p) * n == t - r && (p - q) * n == r - t;
    if q > p {
      Product(q - p, n);
    } else if p > q {
      Product(p - q, n);
    }
  }

  /** Counting on from a remainder is counting on from the number itself. */
  lemma CountOn(x: int, i: int, n: int)
    requires n > 0
    ensures (x % n + i) % n == (x + i) % n
  {
    var p, t := x / n, (x % n + i) % n;
    var u := (x % n + i) / n;
    assert x + i == p * n + u * n + t;
    assert p * n + u * n == (p + u) * n;
    RemainderUnique(x + i, p + u, t, n);
  }

  // ---------- one call, as a value ----------

  /** The static counter, and the flow of every packet that went out so far. */
  datatype State = State(next: int, sent: seq<int>)

  /** One call: the burst size, the buffers the pool can still give, the packets the NIC takes. */
  datatype Call = Call(burst: nat, available: nat, accepted: nat) {
    function Built(): nat { if available < burst then available else burst }
    function Sent(): nat { if accepted < Built() then accepted else Built() }
  }

  /** Flows of the first k packets of a burst that starts at flow start. */
  function Flows(n: nat, start: int, k: nat): seq<int>
    requires n > 0
  {
    if k == 0 then [] else Flows(n, start, k - 1) + [(start + k - 1) % n]
  }

  lemma {:induction false} FlowsAt(n: nat, start: int, k: nat)
    requires n > 0
    ensures |Flows(n, start, k)| == k
    ensures forall j :: 0 <= j < k ==> Flows(n, start, k)[j] == (start + j) % n
  {
    if k > 0 {
      FlowsAt(n, start, k - 1);
    }
  }

  lemma {:induction false} FlowsTake(n: nat, start: int, j: nat, k: nat)
    requires n > 0 && j <= k
    ensures |Flows(n, start, k)| == k && Flows(n, start, k)[..j] == Flows(n, start, j)
  {
    if j < k {
      FlowsTake(n, start, j, k - 1);
    } else {
      FlowsAt(n, start, k);
    }
  }

  function AfterCall(n: nat, s: State, c: Call): State
    requires n > 0
  {
    State((s.next + c.Sent()) % n, s.sent + Flows(n, s.next, c.Sent()))
  }

  /** A call sends as many packets as it can: no more than were asked for, than there are
      buffers for, or than the NIC takes, and as many as one of the three. */
  lemma SendsAllItCan(n: nat, s: State, c: Call)
    requires n > 0
    ensures s.sent <= AfterCall(n, s, c).sent
    ensures var k := |AfterCall(n, s, c).sent| - |s.sent|;
            && k <= c.burst && k <= c.available && k <= c.accepted
            && (k == c.burst || k == c.available || k == c.accepted)
  {
    FlowsAt(n, s.next, c.Sent());
  }

  function AfterCalls(n: nat, calls: seq<Call>): State
    requires n > 0
  {
    if calls == [] then State(0, []) else AfterCall(n, AfterCalls(n, calls[..|calls| - 1]), calls[|calls| - 1])
  }

  /** A burst that starts where the count stands carries the next flows in turn. */
  lemma {:induction false} FlowsCountOn(n: nat, count: nat, k: nat)
    requires n > 0
    ensures Flows(n, 0, count) + Flows(n, count % n, k) == Flows(n, 0, count + k)
    ensures (count % n + k) % n == (count + k) % n
  {
    CountOn(count, k, n);
    if k > 0 {
      FlowsCountOn(n, count, k - 1);
      CountOn(count, k - 1, n);
    }
  }

  lemma {:induction false} SentInTurn(n: nat, calls: seq<Call>)
    requires n > 0
    ensures var s := AfterCalls(n, calls);
            s.next == |s.sent| % n && s.sent == Flows(n, 0, |s.sent|)
  {
    if calls != [] {
      SentInTurn(n, calls[..|calls| - 1]);
      var before, k := AfterCalls(n, calls[..|calls| - 1]), calls[|calls| - 1].Sent();
      FlowsCountOn(n, |before.sent|, k);
      FlowsAt(n, before.next, k);
    }
  }

  /** Over any run of calls, whatever fails, the j-th packet sent carries flow j modulo n. */
  lemma {:induction false} NothingSkippedOrRepeated(n: nat, calls: seq<Call>)
    requires n > 0
    ensures var s := AfterCalls(n, calls);
            && s.next == |s.sent| % n
            && forall j :: 0 <= j < |s.sent| ==> s.sent[j] == j % n
  {
    SentInTurn(n, calls);
    FlowsAt(n, 0, |AfterCalls(n, calls).sent|);
  }

  /** k packets built from flow start on, and the counter after them. */
  ghost predicate Reached(n: nat, start: int, k: nat, next: int, flows: seq<int>)
    requires n > 0
  {
    next == (start + k) % n && flows == Flows(n, start, k)
  }

  lemma NothingBuilt(n: nat, start: int)
    requires 0 <= start < n
    ensures Reached(n, start, 0, start, [])
  {
  }

  lemma OneMoreBuilt(n: nat, start: int, k: nat, next: int, flows: seq<int>)
    requires n > 0 && Reached(n, start, k, next, flows)
    ensures Reached(n, start, k + 1, (next + 1) % n, flows + [next])
    ensures 0 <= (next + 1) % n < n
  {
    CountOn(start + k, 1, n);
  }

  /** Taking the packets that were not sent off the counter leaves it after those that were. */
  lemma UnsentBackedOut(n: nat, start: int, j: nat, k: nat, next: int, flows: seq<int>)
    requires n > 0 && j <= k && Reached(n, start, k, next, flows)
    ensures |flows| == k && Reached(n, start, j, (next - (k - j)) % n, flows[..j])
  {
    FlowsTake(n, start, j, k);
    var built, rest := start + k, j - k;
    CountOn(built, rest, n);
    assert built + rest == start + j;
    assert next - (k - j) == built % n + rest;
  }

  // ---------- the generator itself ----------

  class FlowGenerator {
    const nFlows: nat
    var nextFlow: int
    ghost var sent: seq<int>

    ghost predicate Valid()
      reads this
    {
      nFlows > 0 && 0 <= nextFlow < nFlows
    }

    ghost function View(): State
      reads this
    {
      State(nextFlow, sent)
    }

    constructor (n: nat)
      requires n > 0
      ensures Valid() && nFlows == n && View() == AfterCalls(n, [])
    {
      nFlows, nextFlow, sent := n, 0, [];
    }

    /** Builds packets until a buffer is missing; every one built takes the next flow. */
    method Build(c: Call) returns (flows: seq<int>)
      requires Valid()
      modifies `nextFlow
      ensures Valid() && Reached(nFlows, old(nextFlow), c.Built(), nextFlow, flows)
    {
      flows := [];
      var nbPkt: nat := 0;
      NothingBuilt(nFlows, nextFlow);
      while nbPkt < c.burst && nbPkt < c.available
        invariant nbPkt <= c.Built() && Valid()
        invariant Reached(nFlows, old(nextFlow), nbPkt, nextFlow, flows)
        decreases c.burst - nbPkt
      {
        OneMoreBuilt(nFlows, old(nextFlow), nbPkt, nextFlow, flows);
        flows := flows + [nextFlow];
        nextFlow := (nextFlow + 1) % nFlows;
        nbPkt := nbPkt + 1;
      }
    }

    /** Backs the counter out by the packets that were built but not sent. */
    method BackOut(unsent: nat)
      requires Valid()
      modifies `nextFlow
      ensures Valid() && nextFlow == (old(nextFlow) - unsent) % nFlows
    {
      ghost var rounds := 0;
      nextFlow := nextFlow - unsent;
      while nextFlow < 0
        invariant nextFlow < nFlows && old(nextFlow) - unsent == rounds * nFlows + nextFlow
        decreases -nextFlow
      {
        nextFlow := nextFlow + nFlows;
        rounds := rounds - 1;
      }
      RemainderUnique(old(nextFlow) - unsent, rounds, nextFlow, nFlows);
    }

    /** Builds a burst, sends what the NIC takes, and backs the counter out by the rest. */
    method GenerateBurst(c: Call)
      requires Valid()
      modifies this
      ensures Valid() && View() == AfterCall(nFlows, old(View()), c)
    {
      var flows := Build(c);
      UnsentBackedOut(nFlows, old(nextFlow), c.Sent(), c.Built(), nextFlow, flows);
      var nbPkt: nat, nbTx: nat := |flows|, c.Sent();
      sent := sent + flows[..nbTx];
      if nbTx < nbPkt {
        BackOut(nbPkt - nbTx);
      }
    }
  }
}
