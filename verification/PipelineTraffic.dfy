/** What the pipeline takes from the wire and puts on it: fixed by what the NIC offers and accepts. */
module PipelineTraffic {
  import opened Fairness
  import opened Pipeline

  function First(s: seq<nat>, k: nat): seq<nat>
  {
    if k <= |s| then s[..k] else s
  }

  // ---------- one turn of RX and of TX ----------

  /** A poll takes the first packets offered, as many as a burst may hold, and on the polled port alone. */
  lemma PollTakes(c: Config, s: State, offered: seq<nat>, j: nat)
    requires Inv(c, s) && j < c.nPorts
    ensures var t := RxTurn(c, s, offered);
            && (s.rx.RxPoll? && j == s.rx.port ==>
                  && t.received[j] == s.received[j] + First(offered, c.rxRead)
                  && (if offered == [] then t.rx == RxPoll(NextPort(c.nPorts, j)) else t.rx == RxSpin(j, First(offered, c.rxRead))))
            && (s.rx.RxSpin? || j != s.rx.port ==> t.received[j] == s.received[j])
  {
    assert c.rxRead > 0;
    assert s.received[j] + [] == s.received[j];
  }

  /** The packets that TX holds for its port once it has taken a burst. */
  function Held(c: Config, s: State): seq<nat>
    requires Shaped(c, s) && c.txRead <= |s.ringsTx[s.txPort]|
  {
    s.buffers[s.txPort] + s.ringsTx[s.txPort][..c.txRead]
  }

  /** With a full burst in the ring: a buffer that is still short is kept, and any other one
      leaves whole, its first packets on the wire, as many as the NIC accepts, the others freed. */
  lemma BurstLeaves(c: Config, s: State, accepted: nat)
    requires Inv(c, s) && c.txRead <= |s.ringsTx[s.txPort]|
    ensures var t, i, held := TxTurn(c, s, accepted), s.txPort, Held(c, s);
            && t.ringsTx[i] == s.ringsTx[i][c.txRead..]
            && (|held| < c.txWrite ==> t.buffers[i] == held && t.out[i] == s.out[i])
            && (|held| >= c.txWrite ==>
                  && t.buffers[i] == [] && |t.out[i]| == |s.out[i]| + |held| && t.out[i][..|s.out[i]|] == s.out[i]
                  && forall k :: 0 <= k < |held| ==>
                       && t.out[i][|s.out[i]| + k].packet == held[k]
                       && (t.out[i][|s.out[i]| + k].sent <==> k < accepted))
  {
  }

  /** Nothing happens to the packets of the other ports, or without a full burst. */
  lemma OthersStay(c: Config, s: State, accepted: nat, j: nat)
    requires Inv(c, s) && j < c.nPorts && (j != s.txPort || c.txRead > |s.ringsTx[j]|)
    ensures var t := TxTurn(c, s, accepted);
            t.out[j] == s.out[j] && t.buffers[j] == s.buffers[j] && t.ringsTx[j] == s.ringsTx[j]
  {
  }

  // ---------- the histories of a run ----------

  /** What a step takes in on port j. */
  function TakenIn(c: Config, s: State, a: Action, j: nat): seq<nat>
  {
    if a.Receive? && s.rx.RxPoll? && s.rx.port == j then First(a.offered, c.rxRead) else []
  }

  /** What the NIC accepts from port j in a step. */
  function PutOut(c: Config, s: State, a: Action, j: nat): seq<nat>
  {
    if a.Transmit? && Shaped(c, s) && s.txPort == j && c.txRead <= |s.ringsTx[j]| && |Held(c, s)| >= c.txWrite
    then First(Held(c, s), a.accepted) else []
  }

  /** The packets of a history that went out on the wire. */
  function Sent(fates: seq<Fate>): seq<nat>
  {
    if fates == [] then [] else
    var last := fates[|fates| - 1];
    Sent(fates[..|fates| - 1]) + (if last.sent then [last.packet] else [])
  }

  lemma {:induction false} SentConcat(a: seq<Fate>, b: seq<Fate>)
    ensures Sent(a + b) == Sent(a) + Sent(b)
  {
    if b == [] {
      assert a + b == a;
    } else {
      SentConcat(a, b[..|b| - 1]);
      assert (a + b)[..|a + b| - 1] == a + b[..|b| - 1];
    }
  }

  /** A burst whose first k packets are sent. */
  lemma {:induction false} SentOfBurst(fates: seq<Fate>, held: seq<nat>, k: nat)
    requires |fates| == |held|
    requires forall i :: 0 <= i < |held| ==> fates[i].packet == held[i] && (fates[i].sent <==> i < k)
    ensures Sent(fates) == First(held, k)
  {
    if held != [] {
      SentOfBurst(fates[..|held| - 1], held[..|held| - 1], k);
    }
  }

  lemma StepDelivers(c: Config, s: State, a: Action, j: nat)
    requires Inv(c, s) && j < c.nPorts
    ensures Shaped(c, Next(c, s, a))
    ensures Next(c, s, a).received[j] == s.received[j] + TakenIn(c, s, a, j)
  {
    if a.Receive? {
      PollTakes(c, s, a.offered, j);
    }
  }

  lemma TxDelivers(c: Config, s: State, accepted: nat, j: nat)
    requires Inv(c, s) && j < c.nPorts
    ensures Sent(TxTurn(c, s, accepted).out[j]) == Sent(s.out[j]) + PutOut(c, s, Transmit(accepted), j)
  {
    if j == s.txPort && c.txRead <= |s.ringsTx[j]| {
      BurstLeaves(c, s, accepted);
      var t, n := TxTurn(c, s, accepted), |s.out[j]|;
      if |Held(c, s)| >= c.txWrite {
        assert t.out[j] == s.out[j] + t.out[j][n..];
        SentConcat(s.out[j], t.out[j][n..]);
        SentOfBurst(t.out[j][n..], Held(c, s), accepted);
      }
    } else {
      OthersStay(c, s, accepted, j);
    }
  }

  lemma StepPutsOut(c: Config, s: State, a: Action, j: nat)
    requires Inv(c, s) && j < c.nPorts
    ensures Shaped(c, Next(c, s, a))
    ensures Sent(Next(c, s, a).out[j]) == Sent(s.out[j]) + PutOut(c, s, a, j)
  {
    StepKeeps(c, s, a);
    if a.Transmit? {
      TxDelivers(c, s, a.accepted, j);
    } else {
      assert Next(c, s, a).out == s.out;
    }
  }

  // ---------- runs, with what crossed the wires written down beside them ----------

  /** A state, what the polls of one port took from its wire, and what the NIC took from its peer. */
  datatype Traced = Traced(s: State, delivered: seq<nat>, wired: seq<nat>)

  function TracedInit(c: Config): Traced
  {
    Traced(Init(c), [], [])
  }

  function TracedNext(c: Config, i: nat, r: Traced, a: Action): Traced
  {
    Traced(Next(c, r.s, a), r.delivered + TakenIn(c, r.s, a, i), r.wired + PutOut(c, r.s, a, Peer(i)))
  }

  function TracedNextOf(c: Config, i: nat): (Traced, Action) -> Traced
  {
    (r: Traced, a: Action) => TracedNext(c, i, r, a)
  }

  ghost function TracedAt(c: Config, i: nat, act: Schedule, t: nat): Traced
  {
    Steps(TracedNextOf(c, i), TracedInit(c), act, t)
  }

  ghost predicate TrueTrace(c: Config, i: nat, r: Traced)
  {
    i < c.nPorts && Inv(c, r.s) && r.s.received[i] == r.delivered && Sent(r.s.out[Peer(i)]) == r.wired
  }

  lemma TracedStep(c: Config, i: nat, r: Traced, a: Action)
    requires TrueTrace(c, i, r)
    ensures TrueTrace(c, i, TracedNext(c, i, r, a))
  {
    StepKeeps(c, r.s, a);
    StepDelivers(c, r.s, a, i);
    StepPutsOut(c, r.s, a, Peer(i));
  }

  lemma {:induction false} TraceOfRun(c: Config, i: nat, act: Schedule, t: nat)
    ensures TracedAt(c, i, act, t).s == StateAt(c, act, t)
  {
    if t > 0 {
      TraceOfRun(c, i, act, t - 1);
    }
  }

  lemma {:induction false} TraceIsTrue(c: Config, i: nat, act: Schedule, t: nat)
    requires c.Basic() && i < c.nPorts
    ensures TrueTrace(c, i, TracedAt(c, i, act, t))
  {
    if t == 0 {
      InitInv(c);
    } else {
      TraceIsTrue(c, i, act, t - 1);
      TracedStep(c, i, TracedAt(c, i, act, t - 1), act(t - 1));
    }
  }

  // ---------- from wire to wire ----------

  /** The NIC takes every burst whole. */
  ghost predicate AcceptsAll(c: Config, act: Schedule)
  {
    forall t: nat :: act(t).Transmit? ==> act(t).accepted >= c.txWrite + c.txRead
  }

  predicate AllSent(fates: seq<Fate>)
  {
    forall k :: 0 <= k < |fates| ==> fates[k].sent
  }

  lemma {:induction false} SentIsAll(fates: seq<Fate>)
    requires AllSent(fates)
    ensures Sent(fates) == Packets(fates)
  {
    if fates != [] {
      SentIsAll(fates[..|fates| - 1]);
      assert Packets(fates) == Packets(fates[..|fates| - 1]) + [fates[|fates| - 1].packet];
    }
  }

  lemma StepSendsAll(c: Config, s: State, a: Action, j: nat)
    requires Inv(c, s) && j < c.nPorts && AllSent(s.out[j]) && (a.Transmit? ==> a.accepted >= c.txWrite + c.txRead)
    ensures Shaped(c, Next(c, s, a)) && AllSent(Next(c, s, a).out[j])
  {
    StepKeeps(c, s, a);
    if a.Transmit? {
      if j == s.txPort && c.txRead <= |s.ringsTx[j]| {
        BurstLeaves(c, s, a.accepted);
        forall k | 0 <= k < |Next(c, s, a).out[j]|
          ensures Next(c, s, a).out[j][k].sent
        {
          assert k < |s.out[j]| ==> Next(c, s, a).out[j][..|s.out[j]|][k] == s.out[j][k];
          assert k >= |s.out[j]| ==> Next(c, s, a).out[j][|s.out[j]| + (k - |s.out[j]|)].sent;
        }
      } else {
        OthersStay(c, s, a.accepted, j);
      }
    }
  }

  ghost predicate SentTrace(c: Config, i: nat, r: Traced)
  {
    TrueTrace(c, i, r) && AllSent(r.s.out[Peer(i)])
  }

  lemma SentTraceStep(c: Config, i: nat, r: Traced, a: Action)
    requires SentTrace(c, i, r) && (a.Transmit? ==> a.accepted >= c.txWrite + c.txRead)
    ensures SentTrace(c, i, TracedNext(c, i, r, a))
  {
    TracedStep(c, i, r, a);
    StepSendsAll(c, r.s, a, Peer(i));
  }

  lemma {:induction false} RunSendsAll(c: Config, i: nat, act: Schedule, t: nat)
    requires c.Basic() && i < c.nPorts && AcceptsAll(c, act)
    ensures SentTrace(c, i, TracedAt(c, i, act, t))
  {
    if t == 0 {
      InitInv(c);
    } else {
      RunSendsAll(c, i, act, t - 1);
      SentTraceStep(c, i, TracedAt(c, i, act, t - 1), act(t - 1));
    }
  }

  /** Packets that the line of a port can hold behind the wire. */
  function InFlight(c: Config): int
  {
    c.txWrite - 1 + (c.txRingSize - 1) + c.worker + (c.rxRingSize - 1) + c.rxRead
  }

  lemma LineIsShort(c: Config, i: nat, r: Traced)
    requires SentTrace(c, i, r)
    ensures r.wired <= r.delivered && |r.delivered| - |r.wired| <= InFlight(c)
  {
    SentIsAll(r.s.out[Peer(i)]);
    assert r.s.received[i] == Line(r.s, i);
  }

  /** If the NIC takes every burst whole, the wire of port i ^ 1 carries the packets that came
      in on port i, in order and without a gap, and only so many are missing at the end as the
      rings, the buffer and the hands of the cores can hold. */
  lemma WireToWire(c: Config, i: nat, act: Schedule, t: nat)
    requires c.Basic() && i < c.nPorts && AcceptsAll(c, act)
    ensures TracedAt(c, i, act, t).wired <= TracedAt(c, i, act, t).delivered
    ensures |TracedAt(c, i, act, t).delivered| - |TracedAt(c, i, act, t).wired| <= InFlight(c)
  {
    RunSendsAll(c, i, act, t);
    LineIsShort(c, i, TracedAt(c, i, act, t));
  }
}
