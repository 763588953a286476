/** The three cores of the packet pipeline (RX, worker, TX) over bounded rings, one step per
    ring or NIC operation, in any interleaving. */
module Pipeline {
  import opened BitMasks
  import opened Divisors
  import opened Fairness

  /** Port count, ring sizes (a ring of size s holds s - 1 entries) and burst sizes. */
  datatype Config = Config(nPorts: nat, rxRingSize: nat, txRingSize: nat,
                           rxRead: nat, worker: nat, txRead: nat, txWrite: nat) {
    /** What the loops rely on for safety. */
    predicate Basic()
    {
      && nPorts >= 2 && nPorts % 2 == 0
      && 0 < rxRead <= MBUF_ARRAY_SIZE && 0 < worker <= MBUF_ARRAY_SIZE && 0 < txRead && 0 < txWrite
      && txWrite + txRead - 1 <= MBUF_ARRAY_SIZE
      && rxRingSize > 0 && txRingSize > 0
    }

    /** RX rings hold at least a producer burst and a consumer burst less one. */
    predicate RxRoom()
    {
      rxRingSize - 1 >= rxRead + worker - 1
    }

    /** What TX rings hold is always a multiple of this. */
    function Grain(): (d: nat)
      requires Basic()
      ensures d > 0
    {
      Gcd(worker, txRead)
    }

    /** TX rings hold at least a producer burst and a consumer burst less one grain. */
    predicate TxRoom()
      requires Basic()
    {
      txRingSize - 1 >= worker + txRead - Grain()
    }
  }

  const MBUF_ARRAY_SIZE: nat := 256

  /** The values the application is built with: rings of 128, bursts of 64. */
  const DEFAULTS := Config(4, 128, 128, 64, 64, 64, 64)

  /** The RX rings have nothing to spare; TX rings of 65 would do. */
  lemma DefaultsFit()
    ensures DEFAULTS.Basic() && DEFAULTS.RxRoom() && DEFAULTS.TxRoom()
    ensures !DEFAULTS.(rxRingSize := 127).RxRoom()
    ensures DEFAULTS.(txRingSize := 65).TxRoom() && !DEFAULTS.(txRingSize := 64).TxRoom()
  {
  }

  function NextPort(n: nat, i: nat): nat
  {
    if i + 1 == n then 0 else i + 1
  }

  function Peer(i: nat): nat
  {
    if i % 2 == 0 then i + 1 else i - 1
  }

  /** The mask and the exclusive-or in the code are these functions for every power of two,
      and the peer of every port exists exactly when there is more than one. */
  lemma PortMasks(k: nat, i: nat)
    requires i < Pow2(k)
    ensures And(i + 1, Pow2(k) - 1) == NextPort(Pow2(k), i) && Xor(i, 1) == Peer(i)
    ensures Peer(i) < Pow2(k) <==> Pow2(k) != 1
  {
    AndMask(i + 1, k);
    XorOne(i);
    assert k > 0 ==> Pow2(k) == 2 * Pow2(k - 1);
  }

  datatype Rx = RxPoll(port: nat) | RxSpin(port: nat, batch: seq<nat>)
  datatype Worker = WorkerPoll(port: nat) | WorkerSpin(port: nat, batch: seq<nat>)

  /** What became of a packet that reached the TX core. */
  datatype Fate = Fate(packet: nat, sent: bool)

  /** Packets are named by numbers; received and out record the history of each port. */
  datatype State = State(rx: Rx, worker: Worker, txPort: nat,
                         ringsRx: seq<seq<nat>>, ringsTx: seq<seq<nat>>, buffers: seq<seq<nat>>,
                         received: seq<seq<nat>>, out: seq<seq<Fate>>)

  /** A step of one core: what the NIC offers to receive, or how many packets it accepts. */
  datatype Action = Receive(offered: seq<nat>) | Work | Transmit(accepted: nat) {
    function Core(): Core {
      match this
      case Receive(_) => RX
      case Work => WORKER
      case Transmit(_) => TX
    }
  }

  function Init(c: Config): State
  {
    var none := seq(c.nPorts, i => []);
    State(RxPoll(0), WorkerPoll(0), 0, none, none, none, none, seq(c.nPorts, i => []))
  }

  predicate Shaped(c: Config, s: State)
  {
    && |s.ringsRx| == |s.ringsTx| == |s.buffers| == |s.received| == |s.out| == c.nPorts
    && s.rx.port < c.nPorts && s.worker.port < c.nPorts && s.txPort < c.nPorts
  }

  function RxTurn(c: Config, s: State, offered: seq<nat>): State
    requires Shaped(c, s)
  {
    var i := s.rx.port;
    match s.rx
    case RxPoll(_) =>
      var burst := if |offered| <= c.rxRead then offered else offered[..c.rxRead];
      if burst == [] then s.(rx := RxPoll(NextPort(c.nPorts, i)))
      else s.(rx := RxSpin(i, burst), received := s.received[i := s.received[i] + burst])
    case RxSpin(_, batch) =>
      if |batch| > c.rxRingSize - 1 - |s.ringsRx[i]| then s
      else s.(rx := RxPoll(NextPort(c.nPorts, i)), ringsRx := s.ringsRx[i := s.ringsRx[i] + batch])
  }

  function WorkerTurn(c: Config, s: State): State
    requires Shaped(c, s) && c.nPorts % 2 == 0
  {
    var i := s.worker.port;
    match s.worker
    case WorkerPoll(_) =>
      if c.worker > |s.ringsRx[i]| then s.(worker := WorkerPoll(NextPort(c.nPorts, i)))
      else s.(worker := WorkerSpin(i, s.ringsRx[i][..c.worker]), ringsRx := s.ringsRx[i := s.ringsRx[i][c.worker..]])
    case WorkerSpin(_, batch) =>
      var o := Peer(i);
      if |batch| > c.txRingSize - 1 - |s.ringsTx[o]| then s
      else s.(worker := WorkerPoll(NextPort(c.nPorts, i)), ringsTx := s.ringsTx[o := s.ringsTx[o] + batch])
  }

  /** The first k packets went out on the wire, the rest were freed. */
  function Fates(packets: seq<nat>, k: nat): (r: seq<Fate>)
    ensures |r| == |packets|
  {
    seq(|packets|, i requires 0 <= i < |packets| => Fate(packets[i], i < k))
  }

  function Packets(fates: seq<Fate>): (r: seq<nat>)
    ensures |r| == |fates|
  {
    seq(|fates|, i requires 0 <= i < |fates| => fates[i].packet)
  }

  function TxTurn(c: Config, s: State, accepted: nat): State
    requires Shaped(c, s)
  {
    var i := s.txPort;
    var next := NextPort(c.nPorts, i);
    if c.txRead > |s.ringsTx[i]| then s.(txPort := next) else
    var held := s.buffers[i] + s.ringsTx[i][..c.txRead];
    var rings := s.ringsTx[i := s.ringsTx[i][c.txRead..]];
    if |held| < c.txWrite then s.(txPort := next, ringsTx := rings, buffers := s.buffers[i := held])
    else s.(txPort := next, ringsTx := rings, buffers := s.buffers[i := []],
            out := s.out[i := s.out[i] + Fates(held, accepted)])
  }

  function Next(c: Config, s: State, a: Action): State
  {
    if !Shaped(c, s) || c.nPorts % 2 != 0 then s else
    match a
    case Receive(offered) => RxTurn(c, s, offered)
    case Work => WorkerTurn(c, s)
    case Transmit(accepted) => TxTurn(c, s, accepted)
  }

  // ---------- every interleaving keeps one FIFO per port ----------

  function RxHand(s: State, i: nat): seq<nat>
  {
    if s.rx.RxSpin? && s.rx.port == i then s.rx.batch else []
  }

  function WorkerHand(s: State, i: nat): seq<nat>
  {
    if s.worker.WorkerSpin? && s.worker.port == i then s.worker.batch else []
  }

  /** Everything ever received on port i, oldest first, by where it is now. */
  function Line(s: State, i: nat): seq<nat>
    requires i < |s.ringsRx| && Peer(i) < |s.out| && |s.out| == |s.buffers| == |s.ringsTx|
  {
    Packets(s.out[Peer(i)]) + s.buffers[Peer(i)] + s.ringsTx[Peer(i)] + WorkerHand(s, i) + s.ringsRx[i] + RxHand(s, i)
  }

  ghost predicate Sizes(c: Config, s: State)
  {
    && Shaped(c, s)
    && (forall i :: 0 <= i < c.nPorts ==> |s.ringsRx[i]| <= c.rxRingSize - 1)
    && (forall i :: 0 <= i < c.nPorts ==> |s.ringsTx[i]| <= c.txRingSize - 1)
    && (forall i :: 0 <= i < c.nPorts ==> |s.buffers[i]| < c.txWrite)
    && (s.rx.RxSpin? ==> 0 < |s.rx.batch| <= c.rxRead)
    && (s.worker.WorkerSpin? ==> |s.worker.batch| == c.worker)
  }

  ghost predicate InLine(c: Config, s: State)
    requires Shaped(c, s) && c.nPorts % 2 == 0
  {
    forall i: nat :: i < c.nPorts ==> s.received[i] == Line(s, i)
  }

  ghost predicate Inv(c: Config, s: State)
  {
    c.Basic() && Sizes(c, s) && InLine(c, s)
  }

  lemma InitInv(c: Config)
    requires c.Basic()
    ensures Inv(c, Init(c))
  {
  }

  lemma RxKeepsSizes(c: Config, s: State, offered: seq<nat>)
    requires c.Basic() && Sizes(c, s)
    ensures Sizes(c, RxTurn(c, s, offered))
  {
  }

  lemma WorkerKeepsSizes(c: Config, s: State)
    requires c.Basic() && Sizes(c, s)
    ensures Sizes(c, WorkerTurn(c, s))
  {
  }

  lemma TxKeepsSizes(c: Config, s: State, accepted: nat)
    requires c.Basic() && Sizes(c, s)
    ensures Sizes(c, TxTurn(c, s, accepted))
  {
  }

  lemma RxKeepsLineAt(c: Config, s: State, offered: seq<nat>, j: nat)
    requires Inv(c, s) && j < c.nPorts
    ensures RxTurn(c, s, offered).received[j] == Line(RxTurn(c, s, offered), j)
  {
    var t := RxTurn(c, s, offered);
    assert s.received[j] == Line(s, j);
    var front := Packets(s.out[Peer(j)]) + s.buffers[Peer(j)] + s.ringsTx[Peer(j)] + WorkerHand(s, j);
    if j != s.rx.port {
      assert Line(t, j) == Line(s, j);
    } else if s.rx.RxPoll? {
      assert Line(t, j) == front + s.ringsRx[j] + [] + RxHand(t, j);
    } else {
      assert front + (s.ringsRx[j] + s.rx.batch) + [] == front + s.ringsRx[j] + s.rx.batch;
    }
  }

  lemma RxKeepsLine(c: Config, s: State, offered: seq<nat>)
    requires Inv(c, s)
    ensures InLine(c, RxTurn(c, s, offered))
  {
    forall j: nat | j < c.nPorts
      ensures RxTurn(c, s, offered).received[j] == Line(RxTurn(c, s, offered), j)
    {
      RxKeepsLineAt(c, s, offered, j);
    }
  }

  lemma PeerIsInvolution(i: nat)
    ensures Peer(Peer(i)) == i
  {
  }

  lemma SplitBurst(front: seq<nat>, ring: seq<nat>, back: seq<nat>, k: nat)
    requires k <= |ring|
    ensures front + [] + ring + back == front + ring[..k] + ring[k..] + back
  {
    assert ring == ring[..k] + ring[k..];
  }

  lemma WorkerKeepsLineAt(c: Config, s: State, j: nat)
    requires Inv(c, s) && j < c.nPorts
    ensures WorkerTurn(c, s).received[j] == Line(WorkerTurn(c, s), j)
  {
    var t, i := WorkerTurn(c, s), s.worker.port;
    var front := Packets(s.out[Peer(i)]) + s.buffers[Peer(i)] + s.ringsTx[Peer(i)];
    assert s.received[j] == Line(s, j);
    if j != i {
      PeerIsInvolution(i);
      PeerIsInvolution(j);
      assert Line(t, j) == Line(s, j);
    } else if s.worker.WorkerPoll? {
      if c.worker <= |s.ringsRx[i]| {
        SplitBurst(front, s.ringsRx[i], RxHand(s, i), c.worker);
      }
    } else {
      var base := Packets(s.out[Peer(i)]) + s.buffers[Peer(i)];
      assert base + (s.ringsTx[Peer(i)] + s.worker.batch) == front + s.worker.batch + [];
    }
  }

  lemma WorkerKeepsLine(c: Config, s: State)
    requires Inv(c, s)
    ensures InLine(c, WorkerTurn(c, s))
  {
    forall j: nat | j < c.nPorts
      ensures WorkerTurn(c, s).received[j] == Line(WorkerTurn(c, s), j)
    {
      WorkerKeepsLineAt(c, s, j);
    }
  }

  lemma FatesPackets(before: seq<Fate>, held: seq<nat>, accepted: nat)
    ensures Packets(before + Fates(held, accepted)) == Packets(before) + held
  {
  }

  lemma TxKeepsLine(c: Config, s: State, accepted: nat)
    requires Inv(c, s)
    ensures InLine(c, TxTurn(c, s, accepted))
  {
    var t, o := TxTurn(c, s, accepted), s.txPort;
    var r := s.ringsTx[o];
    forall j: nat | j < c.nPorts
      ensures t.received[j] == Line(t, j)
    {
      assert s.received[j] == Line(s, j);
      if Peer(j) == o && c.txRead <= |r| {
        var held := s.buffers[o] + r[..c.txRead];
        FatesPackets(s.out[o], held, accepted);
        assert r == r[..c.txRead] + r[c.txRead..];
        var before := Packets(s.out[o]) + s.buffers[o] + r;
        assert before == Packets(s.out[o]) + held + r[c.txRead..];
        assert before == Packets(t.out[o]) + t.buffers[o] + t.ringsTx[o];
      } else {
        assert Line(t, j) == Line(s, j);
      }
    }
  }

  /** The invariant of every step: ring and buffer bounds, and no packet lost, duplicated or reordered. */
  lemma StepKeeps(c: Config, s: State, a: Action)
    requires Inv(c, s)
    ensures Inv(c, Next(c, s, a))
  {
    match a
    case Receive(offered) =>
      RxKeepsSizes(c, s, offered);
      RxKeepsLine(c, s, offered);
    case Work =>
      WorkerKeepsSizes(c, s);
      WorkerKeepsLine(c, s);
    case Transmit(accepted) =>
      TxKeepsSizes(c, s, accepted);
      TxKeepsLine(c, s, accepted);
  }

  // ---------- TX rings fill and drain in whole grains ----------

  ghost predicate Steady(c: Config, s: State)
    requires c.Basic()
  {
    && Inv(c, s)
    && forall i :: 0 <= i < c.nPorts ==> Multiple(|s.ringsTx[i]|, c.Grain())
  }

  lemma InitSteady(c: Config)
    requires c.Basic()
    ensures Steady(c, Init(c))
  {
    InitInv(c);
    assert 0 == 0 * c.Grain();
  }

  /** The TX ring of a port after a step: as it was, a worker burst longer, or a TX burst shorter. */
  lemma TxRingMoves(c: Config, s: State, a: Action, i: nat)
    requires Inv(c, s) && i < c.nPorts
    ensures var was, now := |s.ringsTx[i]|, |Next(c, s, a).ringsTx[i]|;
            now == was || now == was + c.worker || now + c.txRead == was
  {
  }

  lemma StepKeepsSteady(c: Config, s: State, a: Action)
    requires c.Basic() && Steady(c, s)
    ensures Steady(c, Next(c, s, a))
  {
    StepKeeps(c, s, a);
    GcdDivides(c.worker, c.txRead);
    var t, d := Next(c, s, a), c.Grain();
    forall i: nat | i < c.nPorts
      ensures Multiple(|t.ringsTx[i]|, d)
    {
      TxRingMoves(c, s, a, i);
      var was := |s.ringsTx[i]|;
      MultipleSum(was, c.worker, d);
      if was >= c.txRead {
        MultipleDifference(was, c.txRead, d);
      }
    }
  }

  /** With room, a TX ring that is too full for a worker burst holds a full TX burst. */
  lemma FullEnough(c: Config, s: State, i: nat)
    requires c.Basic() && c.TxRoom() && Steady(c, s) && i < c.nPorts
    requires c.worker > c.txRingSize - 1 - |s.ringsTx[i]|
    ensures |s.ringsTx[i]| >= c.txRead
  {
    GcdDivides(c.worker, c.txRead);
    NextMultiple(|s.ringsTx[i]|, c.txRead, c.Grain());
  }

  // ---------- runs ----------

  type Schedule = nat -> Action

  /** The state after t steps of a schedule. */
  ghost function StateAt(c: Config, act: Schedule, t: nat): State
  {
    Steps(NextOf(c), Init(c), act, t)
  }

  function NextOf(c: Config): (State, Action) -> State
  {
    (s: State, a: Action) => Next(c, s, a)
  }

  lemma {:induction false} Reachable(c: Config, act: Schedule, t: nat)
    requires c.Basic()
    ensures Steady(c, StateAt(c, act, t))
  {
    if t == 0 {
      InitSteady(c);
    } else {
      Reachable(c, act, t - 1);
      StepKeepsSteady(c, StateAt(c, act, t - 1), act(t - 1));
    }
  }

  /** Every packet received on port i is, in order, either out on port i ^ 1 or still in line. */
  lemma FifoAlways(c: Config, act: Schedule, t: nat, i: nat)
    requires c.Basic() && i < c.nPorts
    ensures var s := StateAt(c, act, t);
            && Inv(c, s) && s.received[i] == Line(s, i)
            && Packets(s.out[Peer(i)]) <= s.received[i]
            && |s.buffers[i]| + c.txRead <= MBUF_ARRAY_SIZE
  {
    Reachable(c, act, t);
  }

  ghost function Cores(act: Schedule): nat -> Core
  {
    (t: nat) => act(t).Core()
  }

  // ---------- the worker's spin ends ----------

  function Distance(n: nat, a: nat, b: nat): nat
    requires a < n && b < n
  {
    if a <= b then b - a else n - a + b
  }

  predicate WorkerFits(c: Config, s: State)
    requires Shaped(c, s) && c.nPorts % 2 == 0 && s.worker.WorkerSpin?
  {
    |s.worker.batch| <= c.txRingSize - 1 - |s.ringsTx[Peer(s.worker.port)]|
  }

  /** Entries that TX has yet to take from the ring the worker waits for, and TX's way to it. */
  function Backlog(c: Config, s: State): nat
    requires Shaped(c, s) && c.nPorts % 2 == 0
  {
    if s.worker.WorkerSpin? && !WorkerFits(c, s) then |s.ringsTx[Peer(s.worker.port)]| else 0
  }

  function TxWay(c: Config, s: State): nat
    requires Shaped(c, s) && c.nPorts % 2 == 0
  {
    if s.worker.WorkerSpin? && !WorkerFits(c, s) then Distance(c.nPorts, s.txPort, Peer(s.worker.port)) else 0
  }

  /** While the worker is blocked the ring holds a full TX burst, so each TX turn gets
      closer to that ring or takes a burst out of it; nobody else changes anything that matters. */
  lemma WorkerStep(c: Config, s: State, a: Action)
    requires c.Basic() && c.TxRoom() && Steady(c, s) && s.worker.WorkerSpin?
    ensures var t := Next(c, s, a);
            if WorkerFits(c, s) then
              if a.Work? then t.worker.WorkerPoll? else t.worker == s.worker && WorkerFits(c, t)
            else
              && |s.ringsTx[Peer(s.worker.port)]| >= c.txRead && t.worker == s.worker
              && (a.Transmit? ==> (WorkerFits(c, t) || Backlog(c, t) < Backlog(c, s) ||
                    (Backlog(c, t) == Backlog(c, s) && TxWay(c, t) < TxWay(c, s))))
              && (!a.Transmit? ==> !WorkerFits(c, t) && Backlog(c, t) == Backlog(c, s) && TxWay(c, t) == TxWay(c, s))
  {
    if !WorkerFits(c, s) {
      FullEnough(c, s, Peer(s.worker.port));
    }
  }

  /** The worker's spin measure; states in which it is not spinning are the goal. */
  function WorkerRank(c: Config, s: State): Rank
  {
    if !Shaped(c, s) || c.nPorts % 2 != 0 || !s.worker.WorkerSpin? then Rank(0, 0, 0, 0, 0)
    else Rank(0, 0, if WorkerFits(c, s) then 0 else 1, Backlog(c, s), TxWay(c, s))
  }

  function WorkerHelper(c: Config, s: State): Core
  {
    if Shaped(c, s) && c.nPorts % 2 == 0 && s.worker.WorkerSpin? && !WorkerFits(c, s) then TX else WORKER
  }

  /** With that room the worker never spins for ever. */
  lemma WorkerSpinEnds(c: Config, act: Schedule, t: nat) returns (u: nat)
    requires c.Basic() && c.TxRoom() && Fair(Cores(act))
    ensures u >= t && StateAt(c, act, u).worker.WorkerPoll?
  {
    var states := (i: nat) => StateAt(c, act, i);
    var goal := (s: State) => s.worker.WorkerPoll?;
    var helper := (s: State) => WorkerHelper(c, s);
    var rank := (s: State) => WorkerRank(c, s);
    forall i: nat
      ensures Progress(states, Cores(act), goal, helper, rank, i)
    {
      var s := StateAt(c, act, i);
      Reachable(c, act, i);
      if s.worker.WorkerSpin? {
        WorkerStep(c, s, act(i));
      }
    }
    u := GoalReached(states, Cores(act), goal, helper, rank, t, rank(states(t)), NextTurn(Cores(act), helper(states(t)), t));
  }

  // ---------- the RX core's spin ends, given room in the RX rings ----------

  predicate RxFits(c: Config, s: State)
    requires Shaped(c, s) && s.rx.RxSpin?
  {
    |s.rx.batch| <= c.rxRingSize - 1 - |s.ringsRx[s.rx.port]|
  }

  /** Worker turns left before it dequeues from the ring that RX waits for. */
  function WorkerWay(c: Config, s: State): nat
    requires Shaped(c, s)
  {
    match s.worker
    case WorkerPoll(j) => 2 * Distance(c.nPorts, j, s.rx.port)
    case WorkerSpin(j, _) => 2 * Distance(c.nPorts, NextPort(c.nPorts, j), s.rx.port) + 1
  }

  function RxRank(c: Config, s: State): Rank
  {
    if !Shaped(c, s) || c.nPorts % 2 != 0 || !s.rx.RxSpin? || RxFits(c, s) then Rank(0, 0, 0, 0, 0)
    else Rank(1, |s.ringsRx[s.rx.port]|, WorkerWay(c, s), Backlog(c, s), TxWay(c, s))
  }

  function RxHelper(c: Config, s: State): Core
  {
    if Shaped(c, s) && c.nPorts % 2 == 0 && s.rx.RxSpin? && !RxFits(c, s) then WorkerHelper(c, s) else RX
  }

  /** The batch fits: nobody but RX touches it, and it goes on fitting. */
  lemma RxFittingStep(c: Config, s: State, a: Action)
    requires Inv(c, s) && s.rx.RxSpin? && RxFits(c, s)
    ensures var t := Next(c, s, a);
            if a.Receive? then t.rx.RxPoll? else t.rx == s.rx && RxFits(c, t)
  {
  }

  /** The batch does not fit, so the ring holds a full worker burst: the worker's next useful
      turn brings it closer to that ring or takes a burst out of it. */
  lemma RxBlockedWorkerStep(c: Config, s: State)
    requires Inv(c, s) && c.RxRoom() && s.rx.RxSpin? && !RxFits(c, s)
    requires s.worker.WorkerSpin? ==> WorkerFits(c, s)
    ensures var t := WorkerTurn(c, s); t.rx == s.rx && RxRank(c, t).Below(RxRank(c, s))
  {
    var t, i := WorkerTurn(c, s), s.rx.port;
    assert |s.ringsRx[i]| >= c.worker;
    if s.worker.port == i && s.worker.WorkerPoll? {
      assert |t.ringsRx[i]| < |s.ringsRx[i]|;
    } else {
      assert t.ringsRx[i] == s.ringsRx[i];
      assert WorkerWay(c, t) < WorkerWay(c, s);
    }
  }

  /** A step while RX waits: it is done, or nearer, or nothing that matters has changed. */
  ghost predicate RxNearer(c: Config, s: State, a: Action)
  {
    var t := Next(c, s, a);
    || t.rx.RxPoll? || RxRank(c, t).Below(RxRank(c, s))
    || (a.Core() != RxHelper(c, s) && RxRank(c, t) == RxRank(c, s) && RxHelper(c, t) == RxHelper(c, s))
  }

  lemma RxWaitsForTx(c: Config, s: State, a: Action)
    requires c.Basic() && c.TxRoom() && Steady(c, s) && s.rx.RxSpin? && !RxFits(c, s)
    requires s.worker.WorkerSpin? && !WorkerFits(c, s)
    ensures RxNearer(c, s, a)
  {
    WorkerStep(c, s, a);
    var t := Next(c, s, a);
    assert t.rx == s.rx && t.ringsRx == s.ringsRx;
  }

  lemma RxWaitsForWorker(c: Config, s: State, a: Action)
    requires Inv(c, s) && c.RxRoom() && s.rx.RxSpin? && !RxFits(c, s)
    requires s.worker.WorkerSpin? ==> WorkerFits(c, s)
    ensures RxNearer(c, s, a)
  {
    if a.Work? {
      RxBlockedWorkerStep(c, s);
    } else {
      var t := Next(c, s, a);
      assert t.rx == s.rx && t.ringsRx == s.ringsRx && t.worker == s.worker;
    }
  }

  lemma RxStep(c: Config, s: State, a: Action)
    requires c.Basic() && c.TxRoom() && Steady(c, s) && c.RxRoom() && s.rx.RxSpin?
    ensures RxNearer(c, s, a)
  {
    if RxFits(c, s) {
      RxFittingStep(c, s, a);
    } else if s.worker.WorkerSpin? && !WorkerFits(c, s) {
      RxWaitsForTx(c, s, a);
    } else {
      RxWaitsForWorker(c, s, a);
    }
  }

  /** With room for a producer and a consumer burst, the RX core never spins for ever. */
  lemma RxSpinEnds(c: Config, act: Schedule, t: nat) returns (u: nat)
    requires c.Basic() && c.RxRoom() && c.TxRoom() && Fair(Cores(act))
    ensures u >= t && StateAt(c, act, u).rx.RxPoll?
  {
    var states := (i: nat) => StateAt(c, act, i);
    var goal := (s: State) => s.rx.RxPoll?;
    var helper := (s: State) => RxHelper(c, s);
    var rank := (s: State) => RxRank(c, s);
    forall i: nat
      ensures Progress(states, Cores(act), goal, helper, rank, i)
    {
      var s := StateAt(c, act, i);
      Reachable(c, act, i);
      if s.rx.RxSpin? {
        RxStep(c, s, act(i));
      }
    }
    u := GoalReached(states, Cores(act), goal, helper, rank, t, rank(states(t)), NextTurn(Cores(act), helper(states(t)), t));
  }

  // ---------- ... and without that room some fair schedule blocks RX for good ----------

  /** The most packets the first RX ring can hold without the worker ever taking a burst. */
  function Idle(c: Config): nat
    requires c.Basic()
  {
    if c.rxRingSize < c.worker then c.rxRingSize - 1 else c.worker - 1
  }

  /** Round robin over the cores; port 0 receives single packets until its ring holds
      Idle(c) of them, and then a full burst. */
  function Starving(c: Config, s: State, t: nat): Action
  {
    if t % 3 == 1 then Work
    else if t % 3 == 2 then Transmit(0)
    else if !c.Basic() || !Shaped(c, s) || s.rx.port != 0 then Receive([])
    else if |s.ringsRx[0]| < Idle(c) then Receive([0])
    else Receive(seq(c.rxRead, i => 0))
  }

  function StarvingChoice(c: Config): (State, nat) -> Action
  {
    (s: State, t: nat) => Starving(c, s, t)
  }

  ghost function StarvingRun(c: Config, t: nat): State
  {
    Guided(NextOf(c), Init(c), StarvingChoice(c), t)
  }

  ghost function StarvingSchedule(c: Config): Schedule
  {
    Chosen(NextOf(c), Init(c), StarvingChoice(c))
  }

  lemma StarvingCore(c: Config, s: State, t: nat)
    ensures Starving(c, s, t).Core() == if t % 3 == 1 then WORKER else if t % 3 == 2 then TX else RX
  {
  }

  lemma StarvingIsFair(c: Config)
    ensures Fair(Cores(StarvingSchedule(c)))
  {
    var acts := Cores(StarvingSchedule(c));
    forall core: Core, t: nat
      ensures ActsAgain(acts, core, t)
    {
      var u := 3 * t + if core == RX then 0 else if core == WORKER then 1 else 2;
      StarvingCore(c, StarvingRun(c, u), u);
      assert acts(u) == core;
    }
  }

  /** Only port 0 has packets, never enough for the worker. */
  ghost predicate Starved(c: Config, s: State)
  {
    && Inv(c, s) && s.worker.WorkerPoll?
    && (forall j :: 0 <= j < c.nPorts ==> s.ringsTx[j] == [])
    && (forall j :: 0 < j < c.nPorts ==> s.ringsRx[j] == [])
    && |s.ringsRx[0]| <= Idle(c)
    && (s.rx.RxSpin? ==> s.rx.port == 0 && ((|s.ringsRx[0]| < Idle(c) && |s.rx.batch| == 1) || Blocked(c, s)))
  }

  /** RX waits with a full burst at a ring that holds all it can without feeding the worker. */
  predicate Blocked(c: Config, s: State)
  {
    c.Basic() && Shaped(c, s) && s.rx.RxSpin? && s.rx.port == 0 && |s.rx.batch| == c.rxRead && |s.ringsRx[0]| == Idle(c)
  }

  lemma StarvedStep(c: Config, s: State, t: nat)
    requires c.Basic() && !c.RxRoom() && Starved(c, s)
    ensures var s' := Next(c, s, Starving(c, s, t));
            && Starved(c, s') && (Blocked(c, s) ==> Blocked(c, s'))
            && (Blocked(c, s) || Blocked(c, s') || (t % 3 == 0 && StarvingRank(c, s').Below(StarvingRank(c, s))) ||
                (t % 3 != 0 && StarvingRank(c, s') == StarvingRank(c, s)))
  {
    StepKeeps(c, s, Starving(c, s, t));
  }

  function StarvingRank(c: Config, s: State): Rank
  {
    if !c.Basic() || !Shaped(c, s) || |s.ringsRx[0]| > Idle(c) then Rank(0, 0, 0, 0, 0)
    else Rank(Idle(c) - |s.ringsRx[0]|, if s.rx.RxSpin? then 0 else 1 + Distance(c.nPorts, s.rx.port, 0), 0, 0, 0)
  }

  lemma {:induction false} StarvingStaysStarved(c: Config, t: nat)
    requires c.Basic() && !c.RxRoom()
    ensures Starved(c, StarvingRun(c, t))
  {
    if t == 0 {
      InitInv(c);
    } else {
      StarvingStaysStarved(c, t - 1);
      StarvedStep(c, StarvingRun(c, t - 1), t - 1);
    }
  }

  /** One step of the starving run, as far as progress towards the blockade goes. */
  lemma StarvingStep(c: Config, t: nat)
    requires c.Basic() && !c.RxRoom()
    ensures var s, s' := StarvingRun(c, t), StarvingRun(c, t + 1);
            && (Blocked(c, s) ==> Blocked(c, s'))
            && (Blocked(c, s) || Blocked(c, s') || (t % 3 == 0 && StarvingRank(c, s').Below(StarvingRank(c, s))) ||
                (t % 3 != 0 && StarvingRank(c, s') == StarvingRank(c, s)))
  {
    StarvingStaysStarved(c, t);
    StarvedStep(c, StarvingRun(c, t), t);
  }

  ghost function StarvingStates(c: Config): nat -> State
  {
    (t: nat) => StarvingRun(c, t)
  }

  function IsBlocked(c: Config): State -> bool
  {
    (s: State) => Blocked(c, s)
  }

  function StarvingMeasure(c: Config): State -> Rank
  {
    (s: State) => StarvingRank(c, s)
  }

  function RxAlone(): State -> Core
  {
    (s: State) => RX
  }

  lemma StarvingProgress(c: Config, t: nat)
    requires c.Basic() && !c.RxRoom()
    ensures Progress(StarvingStates(c), Cores(StarvingSchedule(c)), IsBlocked(c), RxAlone(), StarvingMeasure(c), t)
  {
    StarvingStep(c, t);
    StarvingCore(c, StarvingRun(c, t), t);
  }

  lemma EventuallyBlocked(c: Config) returns (u: nat)
    requires c.Basic() && !c.RxRoom()
    ensures Blocked(c, StarvingRun(c, u))
  {
    var acts := Cores(StarvingSchedule(c));
    forall t: nat { StarvingProgress(c, t); }
    StarvingIsFair(c);
    u := GoalReached(StarvingStates(c), acts, IsBlocked(c), RxAlone(), StarvingMeasure(c), 0,
                     StarvingRank(c, StarvingRun(c, 0)), NextTurn(acts, RX, 0));
  }

  lemma BlockedForGood(c: Config, t: nat, u: nat)
    requires c.Basic() && !c.RxRoom() && t <= u && Blocked(c, StarvingRun(c, t))
    ensures Blocked(c, StarvingRun(c, u))
  {
    var states := (i: nat) => StarvingRun(c, i);
    var blocked := (s: State) => Blocked(c, s);
    forall i: nat | blocked(states(i))
      ensures blocked(states(i + 1))
    {
      StarvingStep(c, i);
    }
    StaysTrue(states, blocked, t, u);
  }

  ghost predicate RxReturns(c: Config, act: Schedule, t: nat)
    requires c.Basic()
  {
    exists u: nat :: u >= t && StateAt(c, act, u).rx.RxPoll?
  }

  /** No fair schedule blocks RX: exactly when the RX rings have room for a producer burst
      and a consumer burst less one (127 for bursts of 64, a ring of 128). */
  lemma RxNeverStuckIffRoom(c: Config)
    requires c.Basic() && c.TxRoom()
    ensures (forall act: Schedule, t: nat :: Fair(Cores(act)) ==> RxReturns(c, act, t)) <==> c.RxRoom()
  {
    if c.RxRoom() {
      forall act: Schedule, t: nat | Fair(Cores(act))
        ensures RxReturns(c, act, t)
      {
        var u := RxSpinEnds(c, act, t);
      }
    } else {
      var act, t := RxBlockade(c);
    }
  }

  /** The starving schedule is fair, and from some point on RX does not return. */
  lemma RxBlockade(c: Config) returns (act: Schedule, t: nat)
    requires c.Basic() && !c.RxRoom()
    ensures Fair(Cores(act)) && !RxReturns(c, act, t)
  {
    t := EventuallyBlocked(c);
    act := StarvingSchedule(c);
    StarvingIsFair(c);
    if RxReturns(c, act, t) {
      var u: nat :| u >= t && StateAt(c, act, u).rx.RxPoll?;
      GuidedIsSteps(NextOf(c), Init(c), StarvingChoice(c), u);
      BlockedForGood(c, t, u);
      assert false;
    }
  }
}
