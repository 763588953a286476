/** The port commands as they run: loops over the port table that change it in place. */
module PortConsole {
  import opened PortCommands

  class Console {
    const ports: array<Port>
    const fwdIds: array<nat>
    var nbFwd: nat
    var testDone: bool
    var dcbTest: bool
    var dcbConfig: bool

    ghost predicate Valid()
    {
      fwdIds.Length == ports.Length
    }

    ghost function View(): State
      reads this, ports, fwdIds
    {
      State(ports[..], fwdIds[..], nbFwd, testDone, dcbTest, dcbConfig)
    }

    /** The start of the program: the first n ports are enabled and listed, the others free. */
    constructor (table: array<Port>, n: nat)
      requires n <= table.Length <= 255
      requires forall i :: 0 <= i < table.Length ==> table[i].status == Stopped && table[i].enabled == (i < n)
      ensures Valid() && ports == table && Initial(View()) && InSync(View()) && ports[..] == old(table[..])
      ensures nbFwd == n && fwdIds[..] == Padded(EnabledIds(ports[..], ports.Length), ports.Length)
    {
      ports, nbFwd, testDone, dcbTest, dcbConfig := table, n, true, false, false;
      fwdIds := new nat[table.Length](i => if i < n then i else 0);
      new;
      FirstListed(ports[..], n, ports.Length);
      assert fwdIds[..] == Padded(EnabledIds(ports[..], ports.Length), ports.Length);
      assert fwdIds[..n] == EnabledIds(ports[..], ports.Length);
    }

    /** Compare and set, on the status of port i. */
    method CompareAndSet(i: nat, from: Status, to: Status) returns (ok: bool)
      requires i < ports.Length
      modifies ports
      ensures ok == (old(ports[i].status) == from)
      ensures ports[..] == old(ports[..])[i := Moved(old(ports[i]), from, to)]
    {
      ok := ports[i].status == from;
      if ok {
        ports[i] := ports[i].(status := to);
      }
    }

    /** Both loops over the queues; the first failure ends them. */
    method SetUpEach(a: Answers) returns (tx: bool, rx: RxAnswer)
      ensures tx == a.TxReady() && (tx ==> rx == a.RxOutcome())
    {
      tx, rx := true, RxReady;
      for qi := 0 to |a.tx|
        invariant tx && forall q :: 0 <= q < qi ==> a.tx[q]
      {
        if !a.tx[qi] {
          tx := false;
          return;
        }
      }
      for qi := 0 to |a.rx|
        invariant rx == RxReady && a.RxOutcome() == FirstFailure(a.rx[qi..])
      {
        if a.rx[qi] != RxReady {
          rx := a.rx[qi];
          return;
        }
      }
    }

    /** The queues of a port in handling; only a missing memory pool leaves it there. */
    method SetUpQueues(i: nat, a: Answers) returns (failed: bool)
      requires i < ports.Length && ports[i].status == Handling
      modifies ports
      ensures var p := old(ports[i]);
              && failed == (p.needReconfigQueues && !(a.TxReady() && a.RxOutcome() == RxReady))
              && ports[..] == old(ports[..])[i :=
                   if !failed then p.(needReconfigQueues := false)
                   else if a.TxReady() && a.RxOutcome() == PoolMissing then p.(needReconfigQueues := false)
                   else p.(status := Stopped)]
    {
      if ports[i].needReconfigQueues {
        ports[i] := ports[i].(needReconfigQueues := false);
        var tx, rx := SetUpEach(a);
        if tx && rx == PoolMissing {
          return true;
        }
        if !tx || rx == RxFailed {
          var _ := CompareAndSet(i, Handling, Stopped);
          ports[i] := ports[i].(needReconfigQueues := true);
          return true;
        }
      }
      return false;
    }

    /** The body of the start loop for a port that is selected. */
    method StartOne(i: nat, a: Answers) returns (abort: bool)
      requires i < ports.Length
      modifies ports
      ensures ports[..] == old(ports[..])[i := AfterExit(old(ports[i]), ExitOf(old(ports[i]), a))]
      ensures abort == Aborts(ExitOf(old(ports[i]), a))
    {
      var taken := CompareAndSet(i, Stopped, Handling);
      if !taken {
        return false;
      }
      if ports[i].needReconfig {
        ports[i] := ports[i].(needReconfig := false);
        if !a.configures {
          var _ := CompareAndSet(i, Handling, Stopped);
          ports[i] := ports[i].(needReconfig := true);
          return true;
        }
      }
      var failed := SetUpQueues(i, a);
      if failed {
        return true;
      }
      if !a.starts {
        var _ := CompareAndSet(i, Handling, Stopped);
        return false;
      }
      var _ := CompareAndSet(i, Handling, Started);
      return false;
    }

    method IdIsInvalid(pid: nat) returns (invalid: bool)
      ensures invalid == InvalidId(ports[..], pid)
    {
      if pid == PORT_ALL {
        return false;
      }
      if pid < ports.Length && ports[pid].enabled {
        return false;
      }
      return true;
    }

    /** Returns the code that start_port returns. */
    method Start(pid: nat, streamsFit: bool, answers: seq<Answers>) returns (code: int)
      requires Valid() && |answers| == ports.Length
      modifies this, ports
      ensures View() == Next(old(View()), StartPort(pid, streamsFit, answers))
      ensures code == StartCode(old(View()), pid, streamsFit, answers)
    {
      if !testDone {
        return -1;
      }
      var invalid := IdIsInvalid(pid);
      if invalid {
        return 0;
      }
      if !streamsFit {
        return -1;
      }
      if dcbConfig {
        dcbTest := true;
      }
      var aborted := StartLoop(pid, answers);
      return if aborted then -1 else 0;
    }

    method StartLoop(pid: nat, answers: seq<Answers>) returns (aborted: bool)
      requires |answers| == ports.Length
      modifies ports
      ensures ports[..] == StartPorts(old(ports[..]), pid, answers)
      ensures aborted == !Reaches(old(ports[..]), pid, answers, ports.Length)
    {
      ghost var before := ports[..];
      for i := 0 to ports.Length
        invariant Reaches(before, pid, answers, i)
        invariant forall k :: 0 <= k < ports.Length ==>
                    ports[k] == if k < i then AfterStart(before, pid, answers, k) else before[k]
      {
        if ports[i].enabled && (pid == i || pid == PORT_ALL) {
          var abort := StartOne(i, answers[i]);
          if abort {
            return true;
          }
        }
      }
      return false;
    }

    /** The loop that stop and close share: every selected port in one status moves to another. */
    method MoveLoop(pid: nat, from: Status, to: Status)
      requires from != Handling
      modifies ports
      ensures ports[..] == MoveSelected(old(ports[..]), pid, from, to)
    {
      ghost var before := ports[..];
      for i := 0 to ports.Length
        invariant forall k :: 0 <= k < ports.Length ==>
                    ports[k] == if k < i && Selected(before, pid, k) then Moved(before[k], from, to) else before[k]
      {
        if ports[i].enabled && (pid == i || pid == PORT_ALL) {
          var taken := CompareAndSet(i, from, Handling);
          if taken {
            var _ := CompareAndSet(i, Handling, to);
          }
        }
      }
    }

    method Stop(pid: nat)
      modifies this, ports
      ensures View() == Next(old(View()), StopPort(pid))
    {
      if !testDone {
        return;
      }
      if dcbTest {
        dcbTest := false;
        dcbConfig := false;
      }
      var invalid := IdIsInvalid(pid);
      if invalid {
        return;
      }
      MoveLoop(pid, Started, Stopped);
    }

    method Close(pid: nat)
      modifies this, ports
      ensures View() == Next(old(View()), ClosePort(pid))
    {
      if !testDone {
        return;
      }
      var invalid := IdIsInvalid(pid);
      if invalid {
        return;
      }
      MoveLoop(pid, Stopped, Closed);
    }

    /** Clears the list of forwarding ports and fills it with the enabled ones. */
    method RefreshList()
      requires Valid()
      modifies fwdIds
      ensures fwdIds[..] == Padded(EnabledIds(ports[..], ports.Length), ports.Length)
    {
      forall k | 0 <= k < fwdIds.Length {
        fwdIds[k] := 0;
      }
      var i: nat := 0;
      for pi := 0 to ports.Length
        invariant i == |EnabledIds(ports[..], pi)| <= pi
        invariant fwdIds[..] == Padded(EnabledIds(ports[..], pi), ports.Length)
      {
        if ports[pi].enabled {
          fwdIds[i] := pi;
          i := i + 1;
        }
      }
    }

    /** The new device takes the place the driver gives it. */
    method Attach(found: bool, id: nat)
      requires Valid() && id < ports.Length
      modifies this, ports, fwdIds
      ensures View() == Next(old(View()), AttachPort(found, id))
    {
      if !testDone || !found {
        return;
      }
      ports[id] := ports[id].(enabled := true);
      ports[id] := ports[id].(needReconfig := true, needReconfigQueues := true);
      RefreshList();
      nbFwd := (nbFwd + 1) % 256;
      ghost var listed := ports[..];
      ports[id] := ports[id].(status := Stopped);
      SameEnabled(listed, ports[..], ports.Length);
      assert ports[..] == old(ports[..])[id := ports[id]];
    }

    method Detach(pid: nat, released: bool)
      requires Valid() && pid != PORT_ALL
      modifies this, ports, fwdIds
      ensures View() == Next(old(View()), DetachPort(pid, released))
    {
      var invalid := IdIsInvalid(pid);
      if invalid || ports[pid].status != Closed || !released {
        return;
      }
      ports[pid] := ports[pid].(enabled := false);
      RefreshList();
      nbFwd := (nbFwd - 1) % 256;
    }

    method AllPortsStarted() returns (yes: bool)
      ensures yes == AllStarted(ports[..])
    {
      for i := 0 to ports.Length
        invariant AllStarted(ports[..i])
      {
        if ports[i].enabled && ports[i].status != Started && !ports[i].slave {
          assert ports[..][i] == ports[i];
          return false;
        }
      }
      assert ports[..ports.Length] == ports[..];
      return true;
    }

    /** The forwarding ports are ports of the table, as they are while the list is in sync. */
    method BeginForwarding(fwdLcores: nat) returns (reply: Reply)
      requires Valid() && nbFwd <= fwdIds.Length && forall i :: 0 <= i < nbFwd ==> fwdIds[i] < ports.Length
      modifies this
      ensures reply == ForwardingReply(old(View()), fwdLcores)
      ensures View() == Next(old(View()), StartForwarding(fwdLcores))
    {
      var ready := AllPortsStarted();
      if !ready {
        return NotAllStarted;
      }
      if !testDone {
        return AlreadyForwarding;
      }
      if dcbTest {
        for i := 0 to nbFwd
          invariant forall k :: 0 <= k < i ==> ports[fwdIds[k]].dcb
        {
          if !ports[fwdIds[i]].dcb {
            return NotAllDcb;
          }
        }
        if fwdLcores == 1 {
          return NotAllDcb;
        }
      }
      testDone := false;
      return Done;
    }

    method EndForwarding() returns (reply: Reply)
      modifies this
      ensures reply == StopReply(old(View()))
      ensures View() == Next(old(View()), StopForwarding)
    {
      var ready := AllPortsStarted();
      if !ready {
        return NotAllStarted;
      }
      if testDone {
        return NotForwarding;
      }
      testDone := true;
      return Done;
    }
  }

  lemma {:induction false} FirstListed(ports: seq<Port>, n: nat, k: nat)
    requires k <= |ports| && forall i :: 0 <= i < k ==> ports[i].enabled == (i < n)
    ensures EnabledIds(ports, k) == seq(if k < n then k else n, i => i)
  {
    if k > 0 {
      FirstListed(ports, n, k - 1);
    }
  }
}
