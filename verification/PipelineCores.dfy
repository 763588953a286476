/** The bodies of the three core loops on the application's own buffers: each turn is the
    step of the state machine. */
module PipelineCores {
  import opened Pipeline

  class App {
    const config: Config
    var ringsRx: seq<seq<nat>>
    var ringsTx: seq<seq<nat>>
    // RX core: its port, and how many packets of mbufRx wait to be enqueued
    var rxPort: nat
    var rxPending: nat
    const mbufRx: array<nat>
    // worker core: its port, and whether its array holds a dequeued burst
    var workerPort: nat
    var workerHolds: bool
    const workerMbuf: array<nat>
    // TX core: its port, one accumulation array per port and their fill counts
    var txPort: nat
    const mbufTx: array2<nat>
    const nMbufs: array<nat>
    // what the NIC took and what went back to the pool, per port
    var handled: seq<seq<Fate>>
    // the state of the three cores as a value, kept in step with the buffers
    ghost var view: State

    ghost predicate Valid()
      reads this, mbufRx, workerMbuf, mbufTx, nMbufs
    {
      && Inv(config, view) && Separate()
      && view.ringsRx == ringsRx && view.ringsTx == ringsTx && view.txPort == txPort
      && view.out == handled
      && rxPending <= config.rxRead
      && view.rx == (if rxPending == 0 then RxPoll(rxPort) else RxSpin(rxPort, mbufRx[..rxPending]))
      && view.worker == (if workerHolds then WorkerSpin(workerPort, workerMbuf[..config.worker])
                         else WorkerPoll(workerPort))
      && forall i :: 0 <= i < config.nPorts ==> Holds(i, view.buffers[i])
    }

    ghost predicate Separate()
    {
      && config.Basic()
      && mbufRx.Length == workerMbuf.Length == mbufTx.Length1 == MBUF_ARRAY_SIZE
      && mbufTx.Length0 == nMbufs.Length == config.nPorts
      && mbufRx != workerMbuf && mbufRx != nMbufs && workerMbuf != nMbufs
    }

    /** The packets that TX has accumulated for port i. */
    ghost predicate Holds(i: int, packets: seq<nat>)
      requires Separate() && 0 <= i < config.nPorts
      reads mbufTx, nMbufs
    {
      nMbufs[i] == |packets| <= MBUF_ARRAY_SIZE && forall k :: 0 <= k < |packets| ==> mbufTx[i, k] == packets[k]
    }

    constructor (c: Config)
      requires c.Basic()
      ensures Valid() && view == Init(c) && config == c
    {
      config := c;
      ringsRx, ringsTx, handled := Init(c).ringsRx, Init(c).ringsTx, Init(c).out;
      rxPort, rxPending, workerPort, workerHolds, txPort := 0, 0, 0, false, 0;
      view := Init(c);
      mbufRx := new nat[MBUF_ARRAY_SIZE];
      workerMbuf := new nat[MBUF_ARRAY_SIZE];
      mbufTx := new nat[c.nPorts, MBUF_ARRAY_SIZE];
      nMbufs := new nat[c.nPorts](_ => 0);
      new;
      assert Inv(config, view) by {
        InitInv(c);
      }
      NothingHeld();
    }

    lemma NothingHeld()
      requires Separate() && view == Init(config) && forall i :: 0 <= i < config.nPorts ==> nMbufs[i] == 0
      ensures forall i :: 0 <= i < config.nPorts ==> Holds(i, view.buffers[i])
    {
    }

    method RxStep(offered: seq<nat>)
      requires Valid()
      modifies this, mbufRx
      ensures Valid() && view == RxTurn(config, old(view), offered)
    {
      StepKeeps(config, view, Receive(offered));
      view := RxTurn(config, view, offered);
      if rxPending == 0 {
        var n := if |offered| <= config.rxRead then |offered| else config.rxRead;
        for k := 0 to n
          modifies mbufRx
          invariant mbufRx[..k] == offered[..k]
        {
          mbufRx[k] := offered[k];
        }
        if n == 0 {
          rxPort := NextPort(config.nPorts, rxPort);
        } else {
          rxPending := n;
        }
      } else if rxPending <= config.rxRingSize - 1 - |ringsRx[rxPort]| {
        ringsRx := ringsRx[rxPort := ringsRx[rxPort] + mbufRx[..rxPending]];
        rxPending := 0;
        rxPort := NextPort(config.nPorts, rxPort);
      }
    }

    method WorkerStep()
      requires Valid()
      modifies this, workerMbuf
      ensures Valid() && view == WorkerTurn(config, old(view))
    {
      StepKeeps(config, view, Work);
      view := WorkerTurn(config, view);
      if !workerHolds {
        if config.worker > |ringsRx[workerPort]| {
          workerPort := NextPort(config.nPorts, workerPort);
        } else {
          var ring := ringsRx[workerPort];
          for k := 0 to config.worker
            modifies workerMbuf
            invariant workerMbuf[..k] == ring[..k]
          {
            workerMbuf[k] := ring[k];
          }
          ringsRx := ringsRx[workerPort := ring[config.worker..]];
          workerHolds := true;
        }
      } else {
        var o := Peer(workerPort);
        if config.worker <= config.txRingSize - 1 - |ringsTx[o]| {
          ringsTx := ringsTx[o := ringsTx[o] + workerMbuf[..config.worker]];
          workerHolds := false;
          workerPort := NextPort(config.nPorts, workerPort);
        }
      }
    }

    /** The bulk dequeue into the accumulation array of port i, behind its n packets. */
    method TakeBurst(i: nat, n: nat, ring: seq<nat>)
      requires Separate() && i < config.nPorts && config.txRead <= |ring| && n + config.txRead <= MBUF_ARRAY_SIZE
      modifies mbufTx
      ensures forall j :: 0 <= j < config.txRead ==> mbufTx[i, n + j] == ring[j]
      ensures forall p, j :: 0 <= p < config.nPorts && 0 <= j < MBUF_ARRAY_SIZE && (p != i || j < n) ==>
                mbufTx[p, j] == old(mbufTx[p, j])
    {
      for k := 0 to config.txRead
        invariant forall j :: 0 <= j < k ==> mbufTx[i, n + j] == ring[j]
        invariant forall p, j :: 0 <= p < config.nPorts && 0 <= j < MBUF_ARRAY_SIZE && (p != i || j < n) ==>
                    mbufTx[p, j] == old(mbufTx[p, j])
      {
        mbufTx[i, n + k] := ring[k];
      }
    }

    /** The transmit burst takes the first packets of the array, as many as accepted; the loop
        behind it frees the others. */
    method SendOrFree(i: nat, n: nat, accepted: nat) returns (fates: seq<Fate>)
      requires Separate() && i < config.nPorts && n <= MBUF_ARRAY_SIZE
      ensures |fates| == n && forall k :: 0 <= k < n ==> fates[k] == Fate(mbufTx[i, k], k < accepted)
    {
      var nPkts := if accepted < n then accepted else n;
      fates := [];
      for k := 0 to nPkts
        invariant |fates| == k && forall j :: 0 <= j < k ==> fates[j] == Fate(mbufTx[i, j], true)
      {
        fates := fates + [Fate(mbufTx[i, k], true)];
      }
      for k := nPkts to n
        invariant |fates| == k && forall j :: 0 <= j < k ==> fates[j] == Fate(mbufTx[i, j], j < nPkts)
      {
        fates := fates + [Fate(mbufTx[i, k], false)];
      }
    }

    /** Behind the dequeue: the array of port i is kept while it is short, and else emptied. */
    method FlushFull(i: nat, n: nat, accepted: nat, ghost held: seq<nat>)
      requires Separate() && i < config.nPorts && i < |handled|
      requires n == |held| <= MBUF_ARRAY_SIZE && forall k :: 0 <= k < n ==> mbufTx[i, k] == held[k]
      modifies `handled, nMbufs
      ensures forall p :: 0 <= p < config.nPorts && p != i ==> nMbufs[p] == old(nMbufs[p])
      ensures nMbufs[i] == if n < config.txWrite then n else 0
      ensures handled == if n < config.txWrite then old(handled)
                         else old(handled)[i := old(handled)[i] + Fates(held, accepted)]
    {
      if n < config.txWrite {
        nMbufs[i] := n;
        return;
      }
      var fates := SendOrFree(i, n, accepted);
      assert fates == Fates(held, accepted);
      handled := handled[i := handled[i] + fates];
      nMbufs[i] := 0;
    }

    /** The accumulation index stays inside the 256 slots; a full buffer is sent or freed whole. */
    method TxStep(accepted: nat)
      requires Valid()
      modifies this, mbufTx, nMbufs
      ensures Valid() && view == TxTurn(config, old(view), accepted)
    {
      StepKeeps(config, view, Transmit(accepted));
      var i := txPort;
      var n := nMbufs[i];
      assert Holds(i, view.buffers[i]);
      if config.txRead <= |ringsTx[i]| {
        var ring := ringsTx[i];
        TakeBurst(i, n, ring);
        ringsTx := ringsTx[i := ring[config.txRead..]];
        FlushFull(i, n + config.txRead, accepted, view.buffers[i] + ring[..config.txRead]);
      }
      txPort := NextPort(config.nPorts, i);
      view := TxTurn(config, view, accepted);
      forall p | 0 <= p < config.nPorts
        ensures Holds(p, view.buffers[p])
      {
        assert old(Holds(p, view.buffers[p]));
      }
    }
  }
}
