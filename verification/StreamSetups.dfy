/** The streams of the ICMP echo and of the RSS forwarding configuration. */
module StreamSetups {
  import opened Products
  import opened StreamShares

  datatype Stream = Stream(rxPort: nat, rxQueue: nat, txPort: nat, txQueue: nat)

  function Min(x: nat, y: nat): nat { if x < y then x else y }

  // ---------- walking the queues of one port after the other ----------

  /** The k-th place: the index of a port in the list of forwarding ports, and a queue. */
  function Place(k: nat, queues: nat): (nat, nat)
  {
    if k == 0 then (0, 0)
    else
      var (port, queue) := Place(k - 1, queues);
      if queue + 1 == queues then (port + 1, 0) else (port, queue + 1)
  }

  lemma {:induction false} PlaceFlat(k: nat, queues: nat)
    requires queues > 0
    ensures var (port, queue) := Place(k, queues); queue < queues && port * queues + queue == k
  {
    if k > 0 {
      PlaceFlat(k - 1, queues);
      var port := Place(k - 1, queues).0;
      assert (port + 1) * queues == port * queues + queues;
    }
  }

  lemma FlatUnique(p: nat, q: nat, p': nat, q': nat, queues: nat)
    requires q < queues && q' < queues && p * queues + q == p' * queues + q'
    ensures p == p' && q == q'
  {
    var d := p - p';
    assert d * queues == q' - q;
    Product(d, queues);
    Product(-d, queues);
  }

  lemma PlaceOf(p: nat, q: nat, queues: nat)
    requires q < queues
    ensures p * queues + q >= 0 && Place(p * queues + q, queues) == (p, q)
  {
    var k := p * queues + q;
    PlaceFlat(k, queues);
    FlatUnique(p, q, Place(k, queues).0, Place(k, queues).1, queues);
  }

  lemma PlaceInjective(i: nat, j: nat, queues: nat)
    requires queues > 0 && Place(i, queues) == Place(j, queues)
    ensures i == j
  {
    PlaceFlat(i, queues);
    PlaceFlat(j, queues);
  }

  lemma RowBefore(p: nat, q: nat, queues: nat, ports: nat)
    requires q < queues
    ensures p < ports <==> p * queues + q < queues * ports
  {
    var d := ports - p;
    assert queues * ports == p * queues + queues * d;
    if d >= 1 {
      assert queues * d == queues + queues * (d - 1);
      Product(d - 1, queues);
    } else {
      Product(d, queues);
    }
  }

  /** The first places, as many as there are queues in all, are on the listed ports, and only they. */
  lemma PlaceOnPort(k: nat, queues: nat, ports: nat)
    requires queues > 0
    ensures Place(k, queues).0 < ports <==> k < queues * ports
  {
    PlaceFlat(k, queues);
    RowBefore(Place(k, queues).0, Place(k, queues).1, queues, ports);
  }

  ghost predicate Distinct(ports: seq<nat>)
  {
    forall i, j :: 0 <= i < j < |ports| ==> ports[i] != ports[j]
  }

  // ---------- the ICMP echo configuration ----------

  /** Stream k of the ICMP echo configuration, run by the given core: it polls the k-th
      place and answers on the same port, on the transmit queue of the core's number. */
  ghost predicate IsIcmpStream(s: Stream, ports: seq<nat>, queues: nat, k: nat, core: nat)
  {
    var (port, queue) := Place(k, queues);
    port < |ports| && s == Stream(ports[port], queue, ports[port], core)
  }

  ghost predicate IcmpSetUp(streams: seq<Stream>, plan: Plan, ports: seq<nat>, queues: nat)
  {
    forall core: nat, k: nat :: plan.Runs(core, k) ==> k < |streams| && IsIcmpStream(streams[k], ports, queues, k, core)
  }

  function IcmpCores(ports: nat, nbRxq: nat, nbTxq: nat, lcores: nat): nat
  {
    Min(nbRxq * ports, Min(nbTxq * ports, lcores))
  }

  /** Every receive queue of every forwarding port is polled by exactly one stream of exactly
      one core, which answers on the same port, on the transmit queue of its own number. */
  lemma IcmpPollsOnce(streams: seq<Stream>, plan: Plan, ports: seq<nat>, queues: nat, p: nat, q: nat)
    returns (core: nat, k: nat)
    requires Distinct(ports) && p < |ports| && q < queues
    requires plan.Tiles(queues * |ports|) && IcmpSetUp(streams, plan, ports, queues)
    ensures plan.Runs(core, k) && k < |streams| && streams[k] == Stream(ports[p], q, ports[p], core)
    ensures forall core': nat, k': nat ::
              plan.Runs(core', k') && k' < |streams| && streams[k'].rxPort == ports[p] && streams[k'].rxQueue == q
              ==> core' == core && k' == k
  {
    PlaceOf(p, q, queues);
    k := p * queues + q;
    PlaceOnPort(k, queues, |ports|);
    assert plan.IsRun(k);
    core :| plan.Runs(core, k);
    assert IsIcmpStream(streams[k], ports, queues, k, core);
    forall core': nat, k': nat |
      plan.Runs(core', k') && k' < |streams| && streams[k'].rxPort == ports[p] && streams[k'].rxQueue == q
      ensures core' == core && k' == k
    {
      assert IsIcmpStream(streams[k'], ports, queues, k', core');
      assert ports[Place(k', queues).0] == ports[p];
      PlaceInjective(k', k, queues);
    }
  }

  /** Cores never share a transmit queue; but every queue they use exists exactly when one
      of three counts is small enough, since the number of cores is capped by the transmit
      queues of all the ports together. */
  lemma IcmpTxQueuesExistIff(streams: seq<Stream>, ports: seq<nat>, nbRxq: nat, nbTxq: nat, lcores: nat)
    requires |ports| > 0 && nbRxq > 0 && nbTxq > 0 && lcores > 0
    requires IcmpCores(|ports|, nbRxq, nbTxq, lcores) > 0
    requires IcmpSetUp(streams, Share(nbRxq * |ports|, IcmpCores(|ports|, nbRxq, nbTxq, lcores)), ports, nbRxq)
    ensures var plan := Share(nbRxq * |ports|, IcmpCores(|ports|, nbRxq, nbTxq, lcores));
            && (forall i: nat, j: nat, k: nat, l: nat :: plan.Runs(i, k) && plan.Runs(j, l) && i != j
                  ==> streams[k].txQueue != streams[l].txQueue)
            && ((forall core: nat, k: nat :: plan.Runs(core, k) ==> streams[k].txQueue < nbTxq)
                <==> lcores <= nbTxq || nbRxq * |ports| <= nbTxq || |ports| == 1)
  {
    var total, cores := nbRxq * |ports|, IcmpCores(|ports|, nbRxq, nbTxq, lcores);
    var plan := Share(total, cores);
    TxQueueIsCore(streams, plan, ports, nbRxq);
    CapsCompared(|ports|, nbRxq, nbTxq, lcores);
    if cores > nbTxq {
      SharesAreEven(total, cores, nbTxq, nbTxq);
      assert plan.Runs(nbTxq, plan.First(nbTxq));
    }
  }

  /** Two ports with one receive and one transmit queue each, and two cores: the second core
      answers on transmit queue 1, which no port has. */
  lemma IcmpQueueMissing(streams: seq<Stream>, ports: seq<nat>)
    requires |ports| == 2 && IcmpSetUp(streams, Share(2, IcmpCores(2, 1, 1, 2)), ports, 1)
    ensures |streams| >= 2 && streams[1] == Stream(ports[1], 0, ports[1], 1)
  {
    var plan := Share(2, 2);
    assert IcmpCores(2, 1, 1, 2) == 2;
    OwnStream(2, 1, 1);
    assert plan.Runs(1, 1) && IsIcmpStream(streams[1], ports, 1, 1, 1);
    PlaceOf(1, 0, 1);
  }

  lemma TxQueueIsCore(streams: seq<Stream>, plan: Plan, ports: seq<nat>, queues: nat)
    requires IcmpSetUp(streams, plan, ports, queues)
    ensures forall core: nat, k: nat :: plan.Runs(core, k) ==> k < |streams| && streams[k].txQueue == core
  {
    forall core: nat, k: nat | plan.Runs(core, k)
      ensures k < |streams| && streams[k].txQueue == core
    {
      assert IsIcmpStream(streams[k], ports, queues, k, core);
    }
  }

  lemma CapsCompared(ports: nat, nbRxq: nat, nbTxq: nat, lcores: nat)
    requires ports > 0 && nbTxq > 0
    ensures IcmpCores(ports, nbRxq, nbTxq, lcores) <= nbTxq <==> lcores <= nbTxq || nbRxq * ports <= nbTxq || ports == 1
  {
    if ports > 1 {
      Product(ports - 1, nbTxq);
      assert nbTxq * ports == nbTxq + nbTxq * (ports - 1);
    }
  }

  /** As many cores as asked for, unless there are fewer receive queues or, on all ports
      together, fewer transmit queues. */
  lemma IcmpCoresIsLeast(ports: nat, nbRxq: nat, nbTxq: nat, lcores: nat)
    ensures var cores, rx, tx := IcmpCores(ports, nbRxq, nbTxq, lcores), nbRxq * ports, nbTxq * ports;
            && cores <= lcores && cores <= rx && cores <= tx
            && (cores == lcores || cores == rx || cores == tx)
  {
  }

  lemma CoresPositive(ports: nat, nbRxq: nat, nbTxq: nat, lcores: nat)
    requires ports > 0 && nbRxq > 0 && nbTxq > 0 && lcores > 0
    ensures IcmpCores(ports, nbRxq, nbTxq, lcores) > 0
  {
    Product(ports, nbRxq);
    Product(ports, nbTxq);
  }

  /** The setup itself: the number of cores, their shares, and every stream of every share. */
  method SetupIcmpEcho(ports: seq<nat>, nbRxq: nat, nbTxq: nat, lcores: nat, table: CoreTable, streams: array<Stream>)
    returns (cores: nat)
    requires |ports| > 0 && nbRxq > 0 && nbTxq > 0 && 0 < lcores < MAX_CORES
    requires nbRxq * |ports| < MAX_STREAMS && nbRxq * |ports| <= streams.Length
    requires table.Valid() && lcores <= table.streamIdx.Length
    modifies table.streamIdx, table.streamNb, streams
    ensures 0 < cores == IcmpCores(|ports|, nbRxq, nbTxq, lcores)
    ensures Share(nbRxq * |ports|, cores).Tiles(nbRxq * |ports|)
    ensures table.Holds(Share(nbRxq * |ports|, cores), cores)
    ensures IcmpSetUp(streams[..], Share(nbRxq * |ports|, cores), ports, nbRxq)
  {
    cores := if nbTxq * |ports| < lcores then nbTxq * |ports| else lcores;
    var total := nbRxq * |ports|;
    if total < cores {
      cores := total;
    }
    CoresPositive(|ports|, nbRxq, nbTxq, lcores);
    TilesIff(total, cores);
    TotalTaken(total, cores);
    table.SetupEach(total, cores);
    FillIcmp(ports, nbRxq, Share(total, cores), cores, table, streams);
  }

  ghost predicate IcmpFilled(streams: seq<Stream>, plan: Plan, ports: seq<nat>, queues: nat, upTo: nat)
  {
    forall core: nat, k: nat ::
      plan.Runs(core, k) && k < upTo ==> k < |streams| && IsIcmpStream(streams[k], ports, queues, k, core)
  }

  /** Both loops: over the cores, and over the streams of each. */
  method FillIcmp(ports: seq<nat>, nbRxq: nat, ghost plan: Plan, cores: nat, table: CoreTable, streams: array<Stream>)
    requires nbRxq > 0 && plan.First(cores) == nbRxq * |ports| <= streams.Length
    requires cores == plan.Cores()
    requires table.Valid() && cores <= table.streamIdx.Length && table.Holds(plan, cores)
    modifies streams
    ensures IcmpSetUp(streams[..], plan, ports, nbRxq)
  {
    var rxp: nat, rxq: nat := 0, 0;
    for core := 0 to cores
      invariant (rxp, rxq) == Place(plan.First(core), nbRxq)
      invariant IcmpFilled(streams[..], plan, ports, nbRxq, plan.First(core))
    {
      FirstInOrder(plan, core + 1, cores);
      rxp, rxq := FillCore(ports, nbRxq, plan, core, table.streamIdx[core], table.streamNb[core], rxp, rxq, streams);
    }
    forall core: nat, k: nat | plan.Runs(core, k)
      ensures k < plan.First(cores)
    {
      FirstInOrder(plan, core + 1, cores);
    }
  }

  /** The inner loop: the nb streams of one core, from stream idx and the current place on. */
  method FillCore(ports: seq<nat>, nbRxq: nat, ghost plan: Plan, core: nat, idx: nat, nb: nat,
                  port: nat, queue: nat, streams: array<Stream>) returns (rxp: nat, rxq: nat)
    requires nbRxq > 0 && core < plan.Cores() && idx == plan.First(core) && nb == plan.Size(core)
    requires idx + nb <= nbRxq * |ports| <= streams.Length
    requires (port, queue) == Place(idx, nbRxq) && IcmpFilled(streams[..], plan, ports, nbRxq, idx)
    modifies streams
    ensures (rxp, rxq) == Place(idx + nb, nbRxq) && IcmpFilled(streams[..], plan, ports, nbRxq, idx + nb)
  {
    rxp, rxq := port, queue;
    for sm := 0 to nb
      invariant (rxp, rxq) == Place(idx + sm, nbRxq)
      invariant IcmpFilled(streams[..], plan, ports, nbRxq, idx + sm)
    {
      PlaceOnPort(idx + sm, nbRxq, |ports|);
      ghost var was := streams[..];
      streams[idx + sm] := Stream(ports[rxp], rxq, ports[rxp], core);
      OneMoreIcmp(was, streams[..], plan, ports, nbRxq, core, idx + sm);
      rxq := rxq + 1;
      if rxq == nbRxq {
        rxq, rxp := 0, rxp + 1;
      }
    }
  }

  lemma OneMoreIcmp(was: seq<Stream>, now: seq<Stream>, plan: Plan, ports: seq<nat>, queues: nat, core: nat, k: nat)
    requires IcmpFilled(was, plan, ports, queues, k)
    requires plan.Runs(core, k) && k < |was| && Place(k, queues).0 < |ports|
    requires now == was[k := Stream(ports[Place(k, queues).0], Place(k, queues).1, ports[Place(k, queues).0], core)]
    ensures IcmpFilled(now, plan, ports, queues, k + 1)
  {
    forall core': nat, k': nat | plan.Runs(core', k') && k' < k + 1
      ensures k' < |now| && IsIcmpStream(now[k'], ports, queues, k', core')
    {
      if k' == k {
        OneCoreRuns(plan, core', core, k);
      }
    }
  }

  // ---------- the RSS configuration ----------

  /** The index of the port that a stream sends on: its partner, or itself in the loop topology. */
  function Partner(port: nat, loop: bool): nat
  {
    if loop then port else if port % 2 == 0 then port + 1 else port - 1
  }

  function RssCores(ports: nat, queues: nat, lcores: nat): nat { Min(queues * ports, lcores) }

  /** ids is the whole table of forwarding port ids, of which the first ports entries are in use. */
  ghost predicate IsRssStream(s: Stream, ids: seq<nat>, ports: nat, queues: nat, loop: bool, k: nat)
  {
    var (port, queue) := Place(k, queues);
    && port < ports <= |ids| && Partner(port, loop) < |ids|
    && s == Stream(ids[port], queue, ids[Partner(port, loop)], queue)
  }

  /** What a caller can check: no core's port is the last one of an odd number of ports. */
  predicate PartnersListed(ports: nat, queues: nat, lcores: nat, loop: bool)
  {
    loop || ports % 2 == 0 || RssCores(ports, queues, lcores) <= queues * (ports - 1)
  }

  /** The setup stays within the entries in use exactly when that holds. */
  lemma PartnersListedIff(ports: nat, queues: nat, lcores: nat, loop: bool)
    requires queues > 0
    ensures (forall k: nat :: k < RssCores(ports, queues, lcores) ==> Partner(Place(k, queues).0, loop) < ports)
            <==> PartnersListed(ports, queues, lcores, loop)
  {
    var cores := RssCores(ports, queues, lcores);
    forall k: nat
      ensures Place(k, queues).0 < ports <==> k < queues * ports
      ensures ports > 0 ==> (Place(k, queues).0 < ports - 1 <==> k < queues * (ports - 1))
    {
      PlaceOnPort(k, queues, ports);
      if ports > 0 { PlaceOnPort(k, queues, ports - 1); }
    }
    if !PartnersListed(ports, queues, lcores, loop) {
      var k: nat := queues * (ports - 1);
      assert k < cores && Place(k, queues).0 == ports - 1;
      assert Partner(Place(k, queues).0, loop) == ports;
    }
  }

  /** No two cores poll the same receive queue, and no two send on the same transmit queue. */
  lemma RssDisjoint(s: Stream, t: Stream, ids: seq<nat>, ports: nat, queues: nat, lcores: nat, loop: bool, i: nat, j: nat)
    requires ports <= |ids| && Distinct(ids[..ports]) && queues > 0 && i != j
    requires IsRssStream(s, ids, ports, queues, loop, i) && IsRssStream(t, ids, ports, queues, loop, j)
    ensures (s.rxPort, s.rxQueue) != (t.rxPort, t.rxQueue)
    ensures i < RssCores(ports, queues, lcores) && j < RssCores(ports, queues, lcores)
            && PartnersListed(ports, queues, lcores, loop)
            ==> (s.txPort, s.txQueue) != (t.txPort, t.txQueue)
  {
    PartnersListedIff(ports, queues, lcores, loop);
    var (p, q) := Place(i, queues);
    var (p', q') := Place(j, queues);
    if p == p' && q == q' {
      PlaceInjective(i, j, queues);
    }
    DistinctIds(ids, ports, p, p');
    if i < RssCores(ports, queues, lcores) && j < RssCores(ports, queues, lcores) && PartnersListed(ports, queues, lcores, loop) {
      assert Partner(Place(i, queues).0, loop) < ports && Partner(Place(j, queues).0, loop) < ports;
      DistinctIds(ids, ports, Partner(p, loop), Partner(p', loop));
      PartnerInjective(p, p', loop);
    }
  }

  predicate Polls(s: Stream, port: nat, queue: nat)
  {
    s.rxPort == port && s.rxQueue == queue
  }

  /** Receive queue q of port p has number k, counting the queues of one port after the other.
      It is polled exactly when there are more than k cores, and then by core k alone. What it
      receives is sent on the same queue, on the port paired with its own or, in the loop
      topology, on its own. */
  lemma RssPollsIff(streams: seq<Stream>, ids: seq<nat>, ports: nat, queues: nat, lcores: nat, loop: bool, p: nat, q: nat)
    returns (k: nat)
    requires ports <= |ids| && Distinct(ids[..ports]) && p < ports && q < queues
    requires RssSetUp(streams, ids, ports, queues, loop, RssCores(ports, queues, lcores))
    ensures k == p * queues + q
    ensures k < lcores <==> exists core :: 0 <= core < RssCores(ports, queues, lcores) && Polls(streams[core], ids[p], q)
    ensures forall core :: 0 <= core < RssCores(ports, queues, lcores) && Polls(streams[core], ids[p], q) ==>
              && core == k && streams[k].txQueue == q
              && (if loop then streams[k].txPort == ids[p]
                  else if p % 2 == 0 then p + 1 < |ids| && streams[k].txPort == ids[p + 1]
                  else streams[k].txPort == ids[p - 1])
  {
    var cores := RssCores(ports, queues, lcores);
    PlaceOf(p, q, queues);
    k := p * queues + q;
    PlaceOnPort(k, queues, ports);
    forall core: nat | core < cores && Polls(streams[core], ids[p], q)
      ensures core == k
    {
      PollsIsPlace(streams[core], ids, ports, queues, loop, core, p, q);
    }
    if k < lcores {
      assert IsRssStream(streams[k], ids, ports, queues, loop, k);
      assert Polls(streams[k], ids[p], q);
    }
  }

  lemma PollsIsPlace(s: Stream, ids: seq<nat>, ports: nat, queues: nat, loop: bool, core: nat, p: nat, q: nat)
    requires ports <= |ids| && Distinct(ids[..ports]) && p < ports && q < queues
    requires IsRssStream(s, ids, ports, queues, loop, core) && Polls(s, ids[p], q)
    ensures core == p * queues + q
  {
    PlaceOf(p, q, queues);
    DistinctIds(ids, ports, Place(core, queues).0, p);
    PlaceInjective(core, p * queues + q, queues);
  }

  lemma PartnerInjective(p: nat, p': nat, loop: bool)
    ensures Partner(p, loop) == Partner(p', loop) ==> p == p'
  {
  }

  lemma DistinctIds(ids: seq<nat>, ports: nat, p: nat, p': nat)
    requires ports <= |ids| && Distinct(ids[..ports]) && p < ports && p' < ports
    ensures ids[p] == ids[p'] <==> p == p'
  {
    assert ids[..ports][p] == ids[p] && ids[..ports][p'] == ids[p'];
  }

  /** The streams of the first cores cores, each run by the core of its own number. */
  ghost predicate RssSetUp(streams: seq<Stream>, ids: seq<nat>, ports: nat, queues: nat, loop: bool, cores: nat)
  {
    cores <= |streams| && forall k: nat :: k < cores ==> IsRssStream(streams[k], ids, ports, queues, loop, k)
  }

  predicate SameTx(s: Stream, t: Stream)
  {
    s.txPort == t.txPort && s.txQueue == t.txQueue
  }

  ghost predicate NoTxShared(streams: seq<Stream>, cores: nat)
    requires cores <= |streams|
  {
    forall i, j :: 0 <= i < j < cores ==> !SameTx(streams[i], streams[j])
  }

  /** The first table entry that is not in use, to which the last of an odd number of ports sends. */
  function Beyond(ids: seq<nat>, ports: nat): nat
    requires ports < |ids|
  {
    ids[ports]
  }

  /** What a caller can check before an odd number of ports is set up: the entry behind the
      list is none of the ports that the others send on. */
  predicate BeyondIsOther(ids: seq<nat>, ports: nat)
    requires 0 < ports < |ids|
  {
    Beyond(ids, ports) !in ids[..ports - 1]
  }

  /** Streams on the last of an odd number of ports send to the entry behind the list, all
      others to ports in front of the last one. */
  lemma OddPartners(port: nat, ports: nat)
    requires port < ports && ports % 2 == 1
    ensures if port == ports - 1 then Partner(port, false) == ports else Partner(port, false) < ports - 1
  {
  }

  lemma NoneSharedOdd(s: Stream, t: Stream, ids: seq<nat>, ports: nat, queues: nat, i: nat, j: nat)
    requires ports % 2 == 1 && ports < |ids| && Distinct(ids[..ports]) && queues > 0 && i != j
    requires BeyondIsOther(ids, ports)
    requires IsRssStream(s, ids, ports, queues, false, i) && IsRssStream(t, ids, ports, queues, false, j)
    ensures !SameTx(s, t)
  {
    var (p, q) := Place(i, queues);
    var (p', q') := Place(j, queues);
    OddPartners(p, ports);
    OddPartners(p', ports);
    if p == p' {
      if q == q' {
        PlaceInjective(i, j, queues);
      }
    } else if p == ports - 1 {
      assert ids[..ports - 1][Partner(p', false)] == t.txPort;
    } else if p' == ports - 1 {
      assert ids[..ports - 1][Partner(p, false)] == s.txPort;
    } else {
      DistinctIds(ids, ports, Partner(p, false), Partner(p', false));
      PartnerInjective(p, p', false);
    }
  }

  /** If that entry is port m of the list, the last port's first stream and the first one of
      m's partner send on the same queue. */
  lemma SharedOdd(streams: seq<Stream>, ids: seq<nat>, ports: nat, queues: nat, cores: nat, m: nat)
    requires ports % 2 == 1 && ports < |ids| && queues > 0 && queues * (ports - 1) < cores
    requires RssSetUp(streams, ids, ports, queues, false, cores)
    requires m < ports - 1 && ids[m] == Beyond(ids, ports)
    ensures !NoTxShared(streams, cores)
  {
    var other := Partner(m, false);
    OddPartners(m, ports);
    var i := RowStart(other, queues);
    var j := RowStart(ports - 1, queues);
    PlaceOnPort(i, queues, ports - 1);
    SameTxAt(streams, ids, ports, queues, cores, m, i, j);
  }

  /** The first place on a port. */
  lemma RowStart(port: nat, queues: nat) returns (k: nat)
    requires queues > 0
    ensures k == queues * port && Place(k, queues) == (port, 0)
  {
    PlaceOf(port, 0, queues);
    k := port * queues;
  }

  lemma SameTxAt(streams: seq<Stream>, ids: seq<nat>, ports: nat, queues: nat, cores: nat, m: nat, i: nat, j: nat)
    requires ports % 2 == 1 && ports < |ids| && i < j < cores
    requires RssSetUp(streams, ids, ports, queues, false, cores)
    requires m < ports - 1 && ids[m] == Beyond(ids, ports)
    requires Place(i, queues) == (Partner(m, false), 0) && Place(j, queues) == (ports - 1, 0)
    ensures !NoTxShared(streams, cores)
  {
    assert IsRssStream(streams[i], ids, ports, queues, false, i) && IsRssStream(streams[j], ids, ports, queues, false, j);
    assert Partner(Partner(m, false), false) == m && Partner(ports - 1, false) == ports;
    assert SameTx(streams[i], streams[j]);
  }

  /** For every table with distinct listed ports: no two cores send on the same transmit queue
      exactly when partners are listed, or the entry behind the list is none of the others. */
  lemma RssTxSharedIff(streams: seq<Stream>, ids: seq<nat>, ports: nat, queues: nat, lcores: nat, loop: bool)
    requires 0 < ports <= |ids| && |ids| % 2 == 0 && Distinct(ids[..ports]) && queues > 0
    requires RssSetUp(streams, ids, ports, queues, loop, RssCores(ports, queues, lcores))
    ensures NoTxShared(streams, RssCores(ports, queues, lcores))
            <==> PartnersListed(ports, queues, lcores, loop) || BeyondIsOther(ids, ports)
  {
    var cores := RssCores(ports, queues, lcores);
    if PartnersListed(ports, queues, lcores, loop) {
      forall i, j | 0 <= i < j < cores
        ensures !SameTx(streams[i], streams[j])
      {
        RssDisjoint(streams[i], streams[j], ids, ports, queues, lcores, loop, i, j);
      }
    } else if BeyondIsOther(ids, ports) {
      forall i, j | 0 <= i < j < cores
        ensures !SameTx(streams[i], streams[j])
      {
        NoneSharedOdd(streams[i], streams[j], ids, ports, queues, i, j);
      }
    } else {
      var m :| 0 <= m < ports - 1 && ids[..ports - 1][m] == Beyond(ids, ports);
      SharedOdd(streams, ids, ports, queues, cores, m);
    }
  }

  /** With a cleared table behind the list, and port 0 at its head: exactly when partners are
      listed or there is a single port. */
  lemma RssClearedTableIff(streams: seq<Stream>, ids: seq<nat>, ports: nat, queues: nat, lcores: nat, loop: bool)
    requires 0 < ports < |ids| && |ids| % 2 == 0 && Distinct(ids[..ports]) && queues > 0
    requires ids[0] == 0 && ids[ports] == 0
    requires RssSetUp(streams, ids, ports, queues, loop, RssCores(ports, queues, lcores))
    ensures NoTxShared(streams, RssCores(ports, queues, lcores))
            <==> PartnersListed(ports, queues, lcores, loop) || ports == 1
  {
    RssTxSharedIff(streams, ids, ports, queues, lcores, loop);
    if ports > 1 {
      assert ids[..ports - 1][0] == Beyond(ids, ports);
    }
  }

  /** Three ports of two queues each and five cores, as the default list leaves the table:
      streams 2 and 4 send on queue 0 of port 0. */
  lemma OddPortsCollide(streams: seq<Stream>)
    requires RssSetUp(streams, [0, 1, 2, 0], 3, 2, false, RssCores(3, 2, 5))
    ensures |streams| >= 5 && streams[2] == Stream(1, 0, 0, 0) && streams[4] == Stream(2, 0, 0, 0)
    ensures !NoTxShared(streams, 5)
  {
    PlaceOf(1, 0, 2);
    PlaceOf(2, 0, 2);
    assert IsRssStream(streams[2], [0, 1, 2, 0], 3, 2, false, 2) && IsRssStream(streams[4], [0, 1, 2, 0], 3, 2, false, 4);
    assert SameTx(streams[2], streams[4]);
  }

  method SetupRss(ids: seq<nat>, ports: nat, nbRxq: nat, nbTxq: nat, lcores: nat, loop: bool, table: CoreTable,
                  streams: array<Stream>) returns (cores: nat)
    requires 0 < ports <= |ids| && |ids| % 2 == 0 && nbRxq > 0 && nbTxq > 0 && 0 < lcores < MAX_CORES
    requires Min(nbRxq, nbTxq) * ports < MAX_STREAMS && Min(nbRxq, nbTxq) * ports <= streams.Length
    requires table.Valid() && lcores <= table.streamIdx.Length
    modifies table.streamIdx, table.streamNb, streams
    ensures 0 < cores == RssCores(ports, Min(nbRxq, nbTxq), lcores)
    ensures table.Holds(Share(cores, cores), cores)
    ensures forall core: nat, k: nat :: Share(cores, cores).Runs(core, k) ==> core == k
    ensures RssSetUp(streams[..], ids, ports, Min(nbRxq, nbTxq), loop, cores)
  {
    var nbQ := nbRxq;
    if nbQ > nbTxq {
      nbQ := nbTxq;
    }
    cores := lcores;
    var nbStreams := nbQ * ports;
    if nbStreams > cores {
      nbStreams := cores;
    } else {
      cores := nbStreams;
    }
    Product(ports, nbQ);
    table.SetupEach(nbStreams, cores);
    FillRss(ids, ports, nbQ, cores, loop, streams);
    forall core: nat, k: nat | Share(cores, cores).Runs(core, k)
      ensures core == k
    {
      OwnStream(cores, core, k);
    }
  }

  method FillRss(ids: seq<nat>, ports: nat, nbQ: nat, cores: nat, loop: bool, streams: array<Stream>)
    requires nbQ > 0 && ports <= |ids| && |ids| % 2 == 0 && cores <= nbQ * ports && cores <= streams.Length
    modifies streams
    ensures forall k: nat :: k < cores ==> IsRssStream(streams[k], ids, ports, nbQ, loop, k)
  {
    var rxp: nat, rxq: nat := 0, 0;
    for core := 0 to cores
      invariant (rxp, rxq) == Place(core, nbQ)
      invariant forall k: nat :: k < core ==> IsRssStream(streams[k], ids, ports, nbQ, loop, k)
    {
      PlaceOnPort(core, nbQ, ports);
      var txp: nat := if rxp % 2 == 0 then rxp + 1 else rxp - 1;
      if loop {
        txp := rxp;
      }
      streams[core] := Stream(ids[rxp], rxq, ids[txp], rxq);
      rxq := rxq + 1;
      if rxq == nbQ {
        rxq, rxp := 0, rxp + 1;
      }
    }
  }
}
