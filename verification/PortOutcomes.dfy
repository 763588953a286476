/** What each port command leaves behind, field by field and for every port. */
module PortOutcomes {
  import opened PortCommands

  /** The command names port i, or all ports, and port i is enabled. */
  predicate Named(s: State, pid: nat, i: nat)
    requires i < |s.ports|
  {
    s.ports[i].enabled && (pid == i || pid == PORT_ALL)
  }

  // ---------- stop and close ----------

  /** A close closes the stopped ports it names, unless forwarding is on, and nothing else. */
  lemma ClosesIff(s: State, pid: nat, i: nat)
    requires i < |s.ports|
    ensures var t := Next(s, ClosePort(pid));
            && (t.ports[i].status == Closed <==>
                  s.ports[i].status == Closed || (s.testDone && Named(s, pid, i) && s.ports[i].status == Stopped))
            && (t.ports[i].status != Closed ==> t.ports[i] == s.ports[i])
            && t.ports[i].(status := s.ports[i].status) == s.ports[i]
            && t == s.(ports := t.ports)
  {
  }

  /** A stop stops the started ports it names, unless forwarding is on, and nothing else. */
  lemma StopsIff(s: State, pid: nat, i: nat)
    requires i < |s.ports|
    ensures var t := Next(s, StopPort(pid));
            && (t.ports[i].status == Stopped <==>
                  s.ports[i].status == Stopped || (s.testDone && Named(s, pid, i) && s.ports[i].status == Started))
            && (t.ports[i].status != Stopped ==> t.ports[i] == s.ports[i])
            && t.ports[i].(status := s.ports[i].status) == s.ports[i]
            && |t.ports| == |s.ports| && t.fwdIds == s.fwdIds && t.nbFwd == s.nbFwd && t.testDone == s.testDone
  {
  }

  /** A stop ends a DCB test, its configuration with it, even when the port id is invalid. */
  lemma StopEndsDcb(s: State, pid: nat)
    ensures var t := Next(s, StopPort(pid));
            && (t.dcbTest <==> s.dcbTest && !s.testDone)
            && (t.dcbConfig <==> s.dcbConfig && !(s.testDone && s.dcbTest))
  {
  }

  // ---------- start ----------

  predicate QueuesReady(a: Answers)
  {
    (forall q :: 0 <= q < |a.tx| ==> a.tx[q]) && (forall q :: 0 <= q < |a.rx| ==> a.rx[q] == RxReady)
  }

  /** Something that the port still has to configure fails. */
  predicate Breaks(p: Port, a: Answers)
  {
    p.status == Stopped && ((p.needReconfig && !a.configures) || (p.needReconfigQueues && !QueuesReady(a)))
  }

  /** The start command gets past its own refusals. */
  predicate Begins(s: State, pid: nat, fit: bool)
  {
    s.testDone && fit && (pid == PORT_ALL || (pid < |s.ports| && s.ports[pid].enabled))
  }

  /** ... and comes to port i, for no earlier port it names breaks. */
  predicate ComesTo(s: State, pid: nat, fit: bool, answers: seq<Answers>, i: nat)
    requires i < |s.ports| == |answers|
  {
    Begins(s, pid, fit) && Named(s, pid, i) && forall q :: 0 <= q < i && Named(s, pid, q) ==> !Breaks(s.ports[q], answers[q])
  }

  lemma {:induction false} FirstFailureIs(rx: seq<RxAnswer>)
    ensures FirstFailure(rx) == RxReady <==> forall q :: 0 <= q < |rx| ==> rx[q] == RxReady
    ensures FirstFailure(rx) != RxReady ==>
              exists q :: 0 <= q < |rx| && rx[q] == FirstFailure(rx) && forall j :: 0 <= j < q ==> rx[j] == RxReady
  {
    if rx != [] && rx[0] == RxReady {
      FirstFailureIs(rx[1..]);
      assert forall q :: 1 <= q < |rx| ==> rx[q] == rx[1..][q - 1];
      if FirstFailure(rx) != RxReady {
        var q :| 0 <= q < |rx| - 1 && rx[1..][q] == FirstFailure(rx) && forall j :: 0 <= j < q ==> rx[1..][j] == RxReady;
        assert rx[q + 1] == FirstFailure(rx);
      }
    }
  }

  lemma BreaksIsAbort(p: Port, a: Answers)
    ensures Aborts(ExitOf(p, a)) <==> Breaks(p, a)
  {
    FirstFailureIs(a.rx);
  }

  lemma ComesToIsReached(s: State, pid: nat, fit: bool, answers: seq<Answers>, i: nat)
    requires i < |s.ports| == |answers|
    ensures ComesTo(s, pid, fit, answers, i)
            <==> s.testDone && !InvalidId(s.ports, pid) && fit && Selected(s.ports, pid, i) && Reaches(s.ports, pid, answers, i)
  {
    forall q | 0 <= q < |s.ports|
      ensures Aborts(ExitOf(s.ports[q], answers[q])) <==> Breaks(s.ports[q], answers[q])
    {
      BreaksIsAbort(s.ports[q], answers[q]);
    }
  }

  lemma StartedPort(s: State, pid: nat, fit: bool, answers: seq<Answers>, i: nat)
    requires i < |s.ports| == |answers|
    ensures Next(s, StartPort(pid, fit, answers)).ports[i] ==
              if ComesTo(s, pid, fit, answers, i) then AfterExit(s.ports[i], ExitOf(s.ports[i], answers[i])) else s.ports[i]
  {
    ComesToIsReached(s, pid, fit, answers, i);
  }

  /** A port is started afterwards exactly when it was, or the command comes to it while it is
      stopped and neither its configuration nor its start fails. */
  lemma StartsIff(s: State, pid: nat, fit: bool, answers: seq<Answers>, i: nat)
    requires i < |s.ports| == |answers|
    ensures Next(s, StartPort(pid, fit, answers)).ports[i].status == Started <==>
              s.ports[i].status == Started
              || (ComesTo(s, pid, fit, answers, i) && s.ports[i].status == Stopped
                  && !Breaks(s.ports[i], answers[i]) && answers[i].starts)
  {
    StartedPort(s, pid, fit, answers, i);
    FirstFailureIs(answers[i].rx);
  }

  /** The device is configured and so are the transmit queues, if there was need to. */
  predicate GetsToRx(p: Port, a: Answers)
  {
    (p.needReconfig ==> a.configures) && (p.needReconfigQueues ==> forall q :: 0 <= q < |a.tx| ==> a.tx[q])
  }

  /** What is left to configure: the device if configuring it failed, the queues if that, a
      transmit queue, or a receive queue that the driver refused before any missing pool failed. */
  lemma LeftToConfigure(s: State, pid: nat, fit: bool, answers: seq<Answers>, i: nat)
    requires i < |s.ports| == |answers|
    ensures var p, a, t := s.ports[i], answers[i], Next(s, StartPort(pid, fit, answers)).ports[i];
            if ComesTo(s, pid, fit, answers, i) && p.status == Stopped then
              && (t.needReconfig <==> p.needReconfig && !a.configures)
              && (t.needReconfigQueues <==> (p.needReconfigQueues && (!GetsToRx(p, a) || RefusedFirst(a.rx))))
            else t == p
  {
    StartedPort(s, pid, fit, answers, i);
    RefusedFirstIs(answers[i].rx);
  }

  /** Some receive queue is refused by the driver and all queues before it are set up. */
  predicate RefusedFirst(rx: seq<RxAnswer>)
  {
    exists q :: 0 <= q < |rx| && rx[q] == RxFailed && forall j :: 0 <= j < q ==> rx[j] == RxReady
  }

  lemma RefusedFirstIs(rx: seq<RxAnswer>)
    ensures FirstFailure(rx) == RxFailed <==> RefusedFirst(rx)
  {
    FirstFailureIs(rx);
  }

  /** Apart from the statuses and the two reconfigure flags, a start only turns the DCB test on. */
  lemma StartKeepsRest(s: State, pid: nat, fit: bool, answers: seq<Answers>, i: nat)
    requires i < |s.ports| == |answers|
    ensures var t := Next(s, StartPort(pid, fit, answers));
            && t.ports[i].enabled == s.ports[i].enabled && t.ports[i].slave == s.ports[i].slave && t.ports[i].dcb == s.ports[i].dcb
            && |t.ports| == |s.ports| && t.fwdIds == s.fwdIds && t.nbFwd == s.nbFwd && t.testDone == s.testDone
            && t.dcbConfig == s.dcbConfig && (t.dcbTest <==> s.dcbTest || (s.dcbConfig && Begins(s, pid, fit)))
  {
    StartedPort(s, pid, fit, answers, i);
  }

  lemma {:induction false} FirstBreak(s: State, pid: nat, answers: seq<Answers>, n: nat) returns (i: nat)
    requires n <= |s.ports| == |answers|
    requires exists q :: 0 <= q < n && Named(s, pid, q) && Breaks(s.ports[q], answers[q])
    ensures i < n && Named(s, pid, i) && Breaks(s.ports[i], answers[i])
    ensures forall q :: 0 <= q < i && Named(s, pid, q) ==> !Breaks(s.ports[q], answers[q])
  {
    if q :| 0 <= q < n - 1 && Named(s, pid, q) && Breaks(s.ports[q], answers[q]) {
      i := FirstBreak(s, pid, answers, n - 1);
    } else {
      i := n - 1;
    }
  }

  /** The command fails exactly while forwarding is on or, for a valid id, when there is no room
      for the streams or some port it names breaks. An invalid id counts as success. */
  lemma StartCodeIs(s: State, pid: nat, fit: bool, answers: seq<Answers>)
    requires |s.ports| == |answers|
    ensures StartCode(s, pid, fit, answers) ==
              if !s.testDone || (!InvalidId(s.ports, pid) &&
                   (!fit || exists i :: 0 <= i < |s.ports| && Named(s, pid, i) && Breaks(s.ports[i], answers[i])))
              then -1 else 0
  {
    forall q | 0 <= q < |s.ports|
      ensures Aborts(ExitOf(s.ports[q], answers[q])) <==> Breaks(s.ports[q], answers[q])
    {
      BreaksIsAbort(s.ports[q], answers[q]);
    }
    assert Reaches(s.ports, pid, answers, |s.ports|)
      <==> forall q :: 0 <= q < |s.ports| && Named(s, pid, q) ==> !Breaks(s.ports[q], answers[q]);
  }

  // ---------- attach and detach ----------

  /** The enabled ports in increasing order, and zeros after them. */
  ghost predicate ListsPorts(ids: seq<nat>, ports: seq<Port>, n: nat)
  {
    && |ids| == |ports| && n <= |ids|
    && Increasing(ids[..n])
    && (forall p: nat :: p in ids[..n] <==> p < |ports| && ports[p].enabled)
    && (forall a :: n <= a < |ids| ==> ids[a] == 0)
  }

  predicate Increasing(ids: seq<nat>)
  {
    forall a, b :: 0 <= a < b < |ids| ==> ids[a] < ids[b]
  }

  lemma IncreasingOneMore(init: seq<nat>, last: nat)
    requires Increasing(init) && forall a :: 0 <= a < |init| ==> init[a] < last
    ensures Increasing(init + [last])
  {
  }

  lemma EnabledIdsBelow(ports: seq<Port>, k: nat, a: nat)
    requires k <= |ports| && a < |EnabledIds(ports, k)|
    ensures EnabledIds(ports, k)[a] < k
  {
    EnabledIdsAre(ports, k);
    assert EnabledIds(ports, k)[a] in EnabledIds(ports, k);
  }

  lemma {:induction false} EnabledIdsSorted(ports: seq<Port>, k: nat)
    requires k <= |ports|
    ensures Increasing(EnabledIds(ports, k))
  {
    if k > 0 {
      EnabledIdsSorted(ports, k - 1);
      var init := EnabledIds(ports, k - 1);
      forall a | 0 <= a < |init|
        ensures init[a] < k - 1
      {
        EnabledIdsBelow(ports, k - 1, a);
      }
      IncreasingOneMore(init, k - 1);
      assert init + [] == init;
    }
  }

  lemma RelistedLists(s: State, ports: seq<Port>, nbFwd: int)
    ensures ListsPorts(Relisted(s, ports, nbFwd).fwdIds, ports, |EnabledIds(ports, |ports|)|)
  {
    EnabledIdsAre(ports, |ports|);
    EnabledIdsSorted(ports, |ports|);
    assert Relisted(s, ports, nbFwd).fwdIds[..|EnabledIds(ports, |ports|)|] == EnabledIds(ports, |ports|);
  }

  /** An attached port is enabled and stopped, with everything left to configure; the list is
      made anew, and the count goes up by one. A refused attach changes nothing. */
  lemma AttachLeaves(s: State, found: bool, id: nat) returns (n: nat)
    requires id < |s.ports|
    ensures var t := Next(s, AttachPort(found, id));
            if s.testDone && found then
              && t.ports[id] == Port(true, Stopped, true, true, s.ports[id].slave, s.ports[id].dcb)
              && t.ports == s.ports[id := t.ports[id]]
              && ListsPorts(t.fwdIds, t.ports, n) && t.nbFwd == (s.nbFwd + 1) % 256
              && t.testDone && t.dcbTest == s.dcbTest && t.dcbConfig == s.dcbConfig
            else t == s
  {
    var t := Next(s, AttachPort(found, id));
    n := |EnabledIds(t.ports, |t.ports|)|;
    RelistedLists(s, t.ports, s.nbFwd + 1);
  }

  /** A detach disables the port it names exactly when that is enabled, closed and released,
      forwarding or not; the list is made anew, and the count goes down by one. */
  lemma DetachLeaves(s: State, pid: nat, released: bool) returns (n: nat)
    requires pid != PORT_ALL
    ensures var t := Next(s, DetachPort(pid, released));
            if pid < |s.ports| && s.ports[pid].enabled && s.ports[pid].status == Closed && released then
              && t.ports == s.ports[pid := s.ports[pid].(enabled := false)]
              && ListsPorts(t.fwdIds, t.ports, n) && t.nbFwd == (s.nbFwd + 255) % 256
              && t.testDone == s.testDone && t.dcbTest == s.dcbTest && t.dcbConfig == s.dcbConfig
            else t == s
  {
    var t := Next(s, DetachPort(pid, released));
    n := |EnabledIds(t.ports, |t.ports|)|;
    RelistedLists(s, t.ports, s.nbFwd - 1);
  }

  // ---------- forwarding ----------

  /** Some listed port is out of DCB mode. */
  predicate DcbMissing(s: State)
  {
    exists k :: 0 <= k < s.nbFwd && k < |s.fwdIds| && s.fwdIds[k] < |s.ports| && !s.ports[s.fwdIds[k]].dcb
  }

  predicate ReadyPorts(s: State)
  {
    forall i :: 0 <= i < |s.ports| ==> !s.ports[i].enabled || s.ports[i].slave || s.ports[i].status == Started
  }

  /** Forwarding is on afterwards exactly when it was, or every enabled port that is no slave
      is started and a DCB test, if any, has two cores and finds all its ports in DCB mode. */
  lemma ForwardingStartsIff(s: State, fwdLcores: nat)
    ensures var t := Next(s, StartForwarding(fwdLcores));
            && (!t.testDone <==> !s.testDone || (ReadyPorts(s) && (s.dcbTest ==> fwdLcores != 1 && !DcbMissing(s))))
            && t == s.(testDone := t.testDone)
    ensures var reply := ForwardingReply(s, fwdLcores);
            && (reply == NotAllStarted <==> !ReadyPorts(s))
            && (reply == AlreadyForwarding <==> ReadyPorts(s) && !s.testDone)
            && (reply == NotAllDcb <==> ReadyPorts(s) && s.testDone && s.dcbTest && (fwdLcores == 1 || DcbMissing(s)))
            && reply != NotForwarding
  {
  }

  /** It is off afterwards exactly when it was, or no port stands in the way. */
  lemma ForwardingStopsIff(s: State)
    ensures var t := Next(s, StopForwarding);
            (t.testDone <==> s.testDone || ReadyPorts(s)) && t == s.(testDone := t.testDone)
    ensures var reply := StopReply(s);
            && (reply == NotAllStarted <==> !ReadyPorts(s)) && (reply == NotForwarding <==> ReadyPorts(s) && s.testDone)
            && reply != AlreadyForwarding && reply != NotAllDcb
  {
  }
}
