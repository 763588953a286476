/** The port commands of the packet forwarder and its forwarding flag. */
module PortCommands {

  const PORT_ALL: nat := 255

  datatype Status = Stopped | Started | Closed | Handling

  datatype Port = Port(enabled: bool, status: Status, needReconfig: bool, needReconfigQueues: bool,
                       slave: bool, dcb: bool)

  /** What happens to one receive queue: set up, no memory pool for it, or refused by the driver. */
  datatype RxAnswer = RxReady | PoolMissing | RxFailed

  /** What the driver answers while one port is started, queue by queue. */
  datatype Answers = Answers(configures: bool, tx: seq<bool>, rx: seq<RxAnswer>, starts: bool) {
    predicate TxReady() { forall q :: 0 <= q < |tx| ==> tx[q] }

    /** The first receive queue that is not set up decides. */
    function RxOutcome(): RxAnswer { FirstFailure(rx) }
  }

  function FirstFailure(rx: seq<RxAnswer>): RxAnswer
  {
    if rx == [] then RxReady else if rx[0] != RxReady then rx[0] else FirstFailure(rx[1..])
  }

  /** The port table, the list of forwarding ports with its count, and the flags. */
  datatype State = State(ports: seq<Port>, fwdIds: seq<nat>, nbFwd: nat, testDone: bool, dcbTest: bool, dcbConfig: bool)

  datatype Command =
    | StartPort(pid: nat, streamsFit: bool, answers: seq<Answers>)
    | StopPort(pid: nat)
    | ClosePort(pid: nat)
    | AttachPort(found: bool, id: nat)
    | DetachPort(pid: nat, released: bool)
    | StartForwarding(fwdLcores: nat)
    | StopForwarding

  datatype Reply = NotAllStarted | AlreadyForwarding | NotForwarding | NotAllDcb | Done

  /** What the tables and the driver guarantee about a command. */
  predicate Fits(c: Command, nPorts: nat)
  {
    match c
    case StartPort(_, _, answers) => |answers| == nPorts
    case AttachPort(_, id) => id < nPorts
    case DetachPort(pid, _) => pid != PORT_ALL
    case _ => true
  }

  // ---------- the commands as functions ----------

  predicate InvalidId(ports: seq<Port>, pid: nat)
  {
    pid != PORT_ALL && !(pid < |ports| && ports[pid].enabled)
  }

  predicate Selected(ports: seq<Port>, pid: nat, i: nat)
    requires i < |ports|
  {
    ports[i].enabled && (pid == i || pid == PORT_ALL)
  }

  predicate AllStarted(ports: seq<Port>)
  {
    forall i :: 0 <= i < |ports| && ports[i].enabled && !ports[i].slave ==> ports[i].status == Started
  }

  /** Where the start of a stopped port ends. */
  datatype StartExit = NotStopped | ConfigureFailed | TxFailed | NoPool | RxQueueFailed | DeviceFailed | Running

  function ExitOf(p: Port, a: Answers): StartExit
  {
    if p.status != Stopped then NotStopped
    else if p.needReconfig && !a.configures then ConfigureFailed
    else if p.needReconfigQueues && !a.TxReady() then TxFailed
    else if p.needReconfigQueues && a.RxOutcome() == PoolMissing then NoPool
    else if p.needReconfigQueues && a.RxOutcome() == RxFailed then RxQueueFailed
    else if !a.starts then DeviceFailed
    else Running
  }

  /** The exits that end the whole command, leaving the later ports alone. */
  predicate Aborts(e: StartExit)
  {
    e == ConfigureFailed || e == TxFailed || e == NoPool || e == RxQueueFailed
  }

  function AfterExit(p: Port, e: StartExit): Port
  {
    match e
    case NotStopped => p
    case ConfigureFailed => p
    case TxFailed => p.(needReconfig := false)
    case NoPool => p.(status := Handling, needReconfig := false, needReconfigQueues := false)
    case RxQueueFailed => p.(needReconfig := false)
    case DeviceFailed => p.(needReconfig := false, needReconfigQueues := false)
    case Running => p.(status := Started, needReconfig := false, needReconfigQueues := false)
  }

  /** The loop gets to port i unless an earlier port ends the command. */
  predicate Reaches(ports: seq<Port>, pid: nat, answers: seq<Answers>, i: nat)
    requires |answers| == |ports| && i <= |ports|
  {
    forall q :: 0 <= q < i && Selected(ports, pid, q) ==> !Aborts(ExitOf(ports[q], answers[q]))
  }

  function AfterStart(ports: seq<Port>, pid: nat, answers: seq<Answers>, i: nat): Port
    requires |answers| == |ports| && i < |ports|
  {
    if Selected(ports, pid, i) && Reaches(ports, pid, answers, i) then AfterExit(ports[i], ExitOf(ports[i], answers[i]))
    else ports[i]
  }

  function Moved(p: Port, from: Status, to: Status): Port
  {
    if p.status == from then p.(status := to) else p
  }

  function MoveSelected(ports: seq<Port>, pid: nat, from: Status, to: Status): seq<Port>
  {
    seq(|ports|, i requires 0 <= i < |ports| => if Selected(ports, pid, i) then Moved(ports[i], from, to) else ports[i])
  }

  function StartPorts(ports: seq<Port>, pid: nat, answers: seq<Answers>): seq<Port>
    requires |answers| == |ports|
  {
    seq(|ports|, i requires 0 <= i < |ports| => AfterStart(ports, pid, answers, i))
  }

  /** Some forwarding port is not in DCB mode. */
  predicate SomeNotDcb(s: State)
  {
    exists i :: 0 <= i < s.nbFwd && i < |s.fwdIds| && s.fwdIds[i] < |s.ports| && !s.ports[s.fwdIds[i]].dcb
  }

  function ForwardingReply(s: State, fwdLcores: nat): Reply
  {
    if !AllStarted(s.ports) then NotAllStarted
    else if !s.testDone then AlreadyForwarding
    else if s.dcbTest && (fwdLcores == 1 || SomeNotDcb(s)) then NotAllDcb
    else Done
  }

  /** The value start_port returns. */
  function StartCode(s: State, pid: nat, streamsFit: bool, answers: seq<Answers>): int
    requires |answers| == |s.ports|
  {
    if !s.testDone then -1
    else if InvalidId(s.ports, pid) then 0
    else if !streamsFit || !Reaches(s.ports, pid, answers, |s.ports|) then -1
    else 0
  }

  // ---------- the list of forwarding ports ----------

  /** The enabled ports among the first k, in order. */
  function EnabledIds(ports: seq<Port>, k: nat): (ids: seq<nat>)
    requires k <= |ports|
    ensures |ids| <= k
  {
    if k == 0 then [] else EnabledIds(ports, k - 1) + if ports[k - 1].enabled then [k - 1] else []
  }

  /** The table after it was cleared and filled from its front. */
  function Padded(ids: seq<nat>, n: nat): seq<nat>
    requires |ids| <= n
  {
    ids + seq(n - |ids|, _ => 0)
  }

  /** The state with the list made anew and its 8-bit count changed by one. */
  function Relisted(s: State, ports: seq<Port>, nbFwd: int): State
  {
    s.(ports := ports, fwdIds := Padded(EnabledIds(ports, |ports|), |ports|), nbFwd := nbFwd % 256)
  }

  function StopReply(s: State): Reply
  {
    if !AllStarted(s.ports) then NotAllStarted else if s.testDone then NotForwarding else Done
  }

  function Next(s: State, c: Command): State
    requires Fits(c, |s.ports|)
  {
    match c
    case StartPort(pid, fit, answers) =>
      if !s.testDone || InvalidId(s.ports, pid) || !fit then s
      else s.(dcbTest := s.dcbTest || s.dcbConfig, ports := StartPorts(s.ports, pid, answers))
    case StopPort(pid) =>
      if !s.testDone then s
      else
        var t := s.(dcbTest := false, dcbConfig := s.dcbConfig && !s.dcbTest);
        if InvalidId(s.ports, pid) then t else t.(ports := MoveSelected(s.ports, pid, Started, Stopped))
    case ClosePort(pid) =>
      if !s.testDone || InvalidId(s.ports, pid) then s
      else s.(ports := MoveSelected(s.ports, pid, Stopped, Closed))
    case AttachPort(found, id) =>
      if !s.testDone || !found then s
      else Relisted(s, s.ports[id := s.ports[id].(enabled := true, status := Stopped,
                                                  needReconfig := true, needReconfigQueues := true)], s.nbFwd + 1)
    case DetachPort(pid, released) =>
      if InvalidId(s.ports, pid) || s.ports[pid].status != Closed || !released then s
      else Relisted(s, s.ports[pid := s.ports[pid].(enabled := false)], s.nbFwd - 1)
    case StartForwarding(fwdLcores) =>
      if ForwardingReply(s, fwdLcores) == Done then s.(testDone := false) else s
    case StopForwarding =>
      if StopReply(s) == Done then s.(testDone := true) else s
  }

  predicate AllFit(cs: seq<Command>, nPorts: nat)
  {
    forall i :: 0 <= i < |cs| ==> Fits(cs[i], nPorts)
  }

  function Run(s: State, cs: seq<Command>): (r: State)
    requires AllFit(cs, |s.ports|)
    ensures |r.ports| == |s.ports|
  {
    if cs == [] then s else Next(Run(s, cs[..|cs| - 1]), cs[|cs| - 1])
  }

  /** Before the first command: the table is zeroed, and enabled ports wait to be configured. */
  predicate Initial(s: State)
  {
    s.testDone && forall i :: 0 <= i < |s.ports| ==> s.ports[i].status == Stopped
  }

  // ---------- what every command keeps ----------

  predicate Inv(s: State)
  {
    && (!s.testDone ==> AllStarted(s.ports))
    && (forall i :: 0 <= i < |s.ports| && s.ports[i].status == Started
          ==> !s.ports[i].needReconfig && !s.ports[i].needReconfigQueues)
  }

  lemma StartKeeps(s: State, c: Command)
    requires Fits(c, |s.ports|) && c.StartPort? && Inv(s)
    ensures Inv(Next(s, c))
  {
  }

  lemma NextKeeps(s: State, c: Command)
    requires Fits(c, |s.ports|) && Inv(s)
    ensures Inv(Next(s, c))
  {
    if c.StartPort? {
      StartKeeps(s, c);
    }
  }

  /** In every run: while forwarding is on, every enabled port that is no slave is started,
      and a started port has nothing left to configure. */
  lemma {:induction false} RunInvariant(s: State, cs: seq<Command>)
    requires AllFit(cs, |s.ports|) && Initial(s)
    ensures Inv(Run(s, cs))
  {
    if cs != [] {
      RunInvariant(s, cs[..|cs| - 1]);
      NextKeeps(Run(s, cs[..|cs| - 1]), cs[|cs| - 1]);
    }
  }

  /** So forwarding, once started, can always be stopped. */
  lemma StopAlwaysWorks(s: State, cs: seq<Command>)
    requires AllFit(cs, |s.ports|) && Initial(s)
    ensures !Run(s, cs).testDone ==> StopReply(Run(s, cs)) == Done && Run(s, cs + [StopForwarding]).testDone
  {
    RunInvariant(s, cs);
    assert (cs + [StopForwarding])[..|cs|] == cs;
  }

  /** While forwarding is on, every command but the one that stops it leaves the ports as they
      are, except that a closed slave port may be detached. */
  lemma FrozenWhileForwarding(s: State, c: Command, i: nat)
    requires Fits(c, |s.ports|) && Inv(s) && !s.testDone && i < |s.ports|
    ensures Next(s, c).testDone <==> c.StopForwarding?
    ensures Next(s, c).ports[i] != s.ports[i] ==> c.DetachPort? && c.pid == i && s.ports[i].slave && s.ports[i].status == Closed
  {
  }

  // ---------- ports left in handling ----------

  /** The start that finds no memory pool for a port: what a caller could see beforehand. */
  predicate LosesPool(s: State, c: Command, i: nat)
    requires Fits(c, |s.ports|) && i < |s.ports|
  {
    && c.StartPort? && s.testDone && !InvalidId(s.ports, c.pid) && c.streamsFit
    && Selected(s.ports, c.pid, i) && Reaches(s.ports, c.pid, c.answers, i)
    && s.ports[i].status == Stopped && s.ports[i].needReconfigQueues
    && (s.ports[i].needReconfig ==> c.answers[i].configures)
    && c.answers[i].TxReady() && c.answers[i].RxOutcome() == PoolMissing
  }

  /** A device takes the place of port i. */
  predicate Replaces(s: State, c: Command, i: nat)
  {
    c.AttachPort? && c.found && s.testDone && c.id == i
  }

  /** One command: a port is in handling afterwards exactly when its pool is missing, or when
      it was in handling before and no device takes its place. */
  lemma HandlingIff(s: State, c: Command, i: nat)
    requires Fits(c, |s.ports|) && i < |s.ports|
    ensures Next(s, c).ports[i].status == Handling
            <==> LosesPool(s, c, i) || (s.ports[i].status == Handling && !Replaces(s, c, i))
  {
    match c
    case StartPort(pid, fit, answers) =>
      if s.testDone && !InvalidId(s.ports, pid) && fit {
        assert Next(s, c).ports[i] == AfterStart(s.ports, pid, answers, i);
      }
    case _ =>
  }

  /** The state before command k. */
  function Before(s: State, cs: seq<Command>, k: nat): (r: State)
    requires AllFit(cs, |s.ports|) && k <= |cs|
    ensures |r.ports| == |s.ports|
  {
    Run(s, cs[..k])
  }

  lemma BeforeInPrefix(s: State, cs: seq<Command>, k: nat)
    requires AllFit(cs, |s.ports|) && k < |cs|
    ensures Before(s, cs[..|cs| - 1], k) == Before(s, cs, k)
  {
    assert cs[..|cs| - 1][..k] == cs[..k];
  }

  /** Command k left port i in handling. */
  predicate LostBy(s: State, cs: seq<Command>, k: nat, i: nat)
    requires AllFit(cs, |s.ports|) && i < |s.ports| && k < |cs|
  {
    LosesPool(Before(s, cs, k), cs[k], i)
  }

  /** Command k replaced port i. */
  predicate ReplacedBy(s: State, cs: seq<Command>, k: nat, i: nat)
    requires AllFit(cs, |s.ports|) && k < |cs|
  {
    Replaces(Before(s, cs, k), cs[k], i)
  }

  /** Command k left port i in handling, and nothing has replaced it since. */
  predicate LostAt(s: State, cs: seq<Command>, k: nat, i: nat)
    requires AllFit(cs, |s.ports|) && i < |s.ports| && k < |cs|
  {
    LostBy(s, cs, k, i) && forall j :: k < j < |cs| ==> !ReplacedBy(s, cs, j, i)
  }

  ghost predicate WasLost(s: State, cs: seq<Command>, i: nat)
    requires AllFit(cs, |s.ports|) && i < |s.ports|
  {
    exists k: nat :: k < |cs| && LostAt(s, cs, k, i)
  }

  lemma WasLostStep(s: State, cs: seq<Command>, i: nat)
    requires AllFit(cs, |s.ports|) && i < |s.ports| && cs != []
    ensures WasLost(s, cs, i)
            <==> LostBy(s, cs, |cs| - 1, i) || (WasLost(s, cs[..|cs| - 1], i) && !ReplacedBy(s, cs, |cs| - 1, i))
  {
    var last := |cs| - 1;
    if WasLost(s, cs, i) {
      var k: nat :| k < |cs| && LostAt(s, cs, k, i);
      if k < last { LostEarlier(s, cs, k, i); }
    }
    if LostBy(s, cs, last, i) {
      assert LostAt(s, cs, last, i);
    } else if WasLost(s, cs[..last], i) && !ReplacedBy(s, cs, last, i) {
      var k: nat :| k < last && LostAt(s, cs[..last], k, i);
      LostEarlier(s, cs, k, i);
    }
  }

  /** In every run, whatever it did in between: a port is in handling exactly when some
      command lost its pool and no device was attached in its place since. */
  lemma {:induction false} HandlingInRunIff(s: State, cs: seq<Command>, i: nat)
    requires AllFit(cs, |s.ports|) && Initial(s) && i < |s.ports|
    ensures Run(s, cs).ports[i].status == Handling <==> WasLost(s, cs, i)
  {
    if cs != [] {
      HandlingInRunIff(s, cs[..|cs| - 1], i);
      HandlingIff(Run(s, cs[..|cs| - 1]), cs[|cs| - 1], i);
      WasLostStep(s, cs, i);
    }
  }

  /** A run in which no pool is ever missing leaves no port in handling. */
  lemma NoneInHandling(s: State, cs: seq<Command>, i: nat)
    requires AllFit(cs, |s.ports|) && Initial(s) && i < |s.ports|
    requires forall k :: 0 <= k < |cs| ==> !LostBy(s, cs, k, i)
    ensures Run(s, cs).ports[i].status != Handling
  {
    HandlingInRunIff(s, cs, i);
  }

  lemma LostEarlier(s: State, cs: seq<Command>, k: nat, i: nat)
    requires AllFit(cs, |s.ports|) && i < |s.ports| && k < |cs| - 1
    ensures LostAt(s, cs, k, i) <==> LostAt(s, cs[..|cs| - 1], k, i) && !ReplacedBy(s, cs, |cs| - 1, i)
  {
    var last := |cs| - 1;
    BeforeInPrefix(s, cs, k);
    forall j: nat | j < last
      ensures ReplacedBy(s, cs[..last], j, i) == ReplacedBy(s, cs, j, i)
    {
      BeforeInPrefix(s, cs, j);
    }
  }

  /** A port in handling stays so, through every command, until a device is attached in its
      place; and while it is enabled and no slave, forwarding cannot be started. */
  lemma {:induction false} HandlingIsForGood(s: State, cs: seq<Command>, i: nat)
    requires AllFit(cs, |s.ports|) && i < |s.ports| && s.ports[i].status == Handling
    requires s.testDone && s.ports[i].enabled && !s.ports[i].slave
    requires forall k :: 0 <= k < |cs| ==> !(cs[k].AttachPort? && cs[k].id == i)
    ensures Run(s, cs).ports[i] == s.ports[i] && Run(s, cs).testDone
  {
    if cs != [] {
      var init := cs[..|cs| - 1];
      HandlingIsForGood(s, init, i);
      HandlingStays(Run(s, init), cs[|cs| - 1], i);
    }
  }

  lemma HandlingStays(s: State, c: Command, i: nat)
    requires Fits(c, |s.ports|) && i < |s.ports| && s.ports[i].status == Handling
    requires s.testDone && s.ports[i].enabled && !s.ports[i].slave && !(c.AttachPort? && c.id == i)
    ensures Next(s, c).ports[i] == s.ports[i] && Next(s, c).testDone
  {
  }

  // ---------- getting to forward ----------

  predicate Working(a: Answers)
  {
    a.configures && a.TxReady() && a.RxOutcome() == RxReady && a.starts
  }

  /** With devices that work, starting all ports makes forwarding possible exactly when no
      port that matters is closed or in handling. */
  lemma StartAllIff(s: State, answers: seq<Answers>)
    requires |answers| == |s.ports| && s.testDone && forall i :: 0 <= i < |answers| ==> Working(answers[i])
    ensures AllStarted(Next(s, StartPort(PORT_ALL, true, answers)).ports)
            <==> forall i :: 0 <= i < |s.ports| && s.ports[i].enabled && !s.ports[i].slave
                   ==> s.ports[i].status == Stopped || s.ports[i].status == Started
  {
    var t := Next(s, StartPort(PORT_ALL, true, answers));
    forall i | 0 <= i < |s.ports| && s.ports[i].enabled
      ensures t.ports[i].status == if s.ports[i].status == Stopped then Started else s.ports[i].status
    {
      assert Reaches(s.ports, PORT_ALL, answers, i);
    }
    if exists i :: 0 <= i < |s.ports| && s.ports[i].enabled && !s.ports[i].slave
                   && s.ports[i].status != Stopped && s.ports[i].status != Started {
      var i :| 0 <= i < |s.ports| && s.ports[i].enabled && !s.ports[i].slave
               && s.ports[i].status != Stopped && s.ports[i].status != Started;
      assert t.ports[i].enabled && !t.ports[i].slave && t.ports[i].status != Started;
    }
  }

  /** Stopping and restarting all ports returns to the same ports. */
  lemma StopThenStart(s: State, answers: seq<Answers>)
    requires Inv(s) && s.testDone && |answers| == |s.ports| && forall i :: 0 <= i < |answers| ==> Working(answers[i])
    requires forall i :: 0 <= i < |s.ports| && s.ports[i].enabled ==> s.ports[i].status != Stopped
    ensures Next(Next(s, StopPort(PORT_ALL)), StartPort(PORT_ALL, true, answers)).ports == s.ports
  {
    var t := Next(s, StopPort(PORT_ALL));
    var u := Next(t, StartPort(PORT_ALL, true, answers));
    forall i | 0 <= i < |s.ports|
      ensures u.ports[i] == s.ports[i]
    {
      assert Reaches(t.ports, PORT_ALL, answers, i);
    }
  }

  // ---------- the forwarding ports are the enabled ones ----------

  ghost predicate InSync(s: State)
  {
    && |s.ports| <= 255 && |s.fwdIds| == |s.ports|
    && s.nbFwd == |EnabledIds(s.ports, |s.ports|)|
    && s.fwdIds[..s.nbFwd] == EnabledIds(s.ports, |s.ports|)
  }

  lemma {:induction false} EnabledIdsAre(ports: seq<Port>, k: nat)
    requires k <= |ports|
    ensures forall i: nat :: i in EnabledIds(ports, k) <==> i < k && ports[i].enabled
  {
    if k > 0 {
      EnabledIdsAre(ports, k - 1);
    }
  }

  lemma {:induction false} SameEnabled(ports: seq<Port>, now: seq<Port>, k: nat)
    requires k <= |ports| == |now| && forall i :: 0 <= i < k ==> ports[i].enabled == now[i].enabled
    ensures EnabledIds(ports, k) == EnabledIds(now, k)
  {
    if k > 0 {
      SameEnabled(ports, now, k - 1);
    }
  }

  /** One port more or less, one id more or less. */
  lemma {:induction false} OneEnabledChanges(ports: seq<Port>, id: nat, p: Port, k: nat)
    requires id < k <= |ports|
    ensures |EnabledIds(ports[id := p], k)| + (if ports[id].enabled then 1 else 0)
         == |EnabledIds(ports, k)| + (if p.enabled then 1 else 0)
  {
    if id == k - 1 {
      SameEnabled(ports, ports[id := p], k - 1);
    } else {
      OneEnabledChanges(ports, id, p, k - 1);
    }
  }

  lemma RelistedInSync(s: State, ports: seq<Port>, nbFwd: int)
    requires |ports| <= 255 && nbFwd == |EnabledIds(ports, |ports|)|
    ensures InSync(Relisted(s, ports, nbFwd))
  {
    var ids := EnabledIds(ports, |ports|);
    assert nbFwd % 256 == nbFwd;
    assert Padded(ids, |ports|)[..|ids|] == ids;
  }

  lemma AttachSync(s: State, id: nat, p: Port)
    requires InSync(s) && id < |s.ports| && p.enabled
    ensures InSync(Relisted(s, s.ports[id := p], s.nbFwd + 1)) <==> !s.ports[id].enabled
  {
    OneEnabledChanges(s.ports, id, p, |s.ports|);
    if !s.ports[id].enabled {
      RelistedInSync(s, s.ports[id := p], s.nbFwd + 1);
    }
  }

  lemma DetachSync(s: State, id: nat, p: Port)
    requires InSync(s) && id < |s.ports| && !p.enabled && s.ports[id].enabled
    ensures InSync(Relisted(s, s.ports[id := p], s.nbFwd - 1))
  {
    OneEnabledChanges(s.ports, id, p, |s.ports|);
    RelistedInSync(s, s.ports[id := p], s.nbFwd - 1);
  }

  lemma OthersKeepSync(s: State, ports: seq<Port>, t: State)
    requires InSync(s) && |ports| == |s.ports| && t.ports == ports && t.fwdIds == s.fwdIds && t.nbFwd == s.nbFwd
    requires forall i :: 0 <= i < |ports| ==> ports[i].enabled == s.ports[i].enabled
    ensures InSync(t)
  {
    SameEnabled(s.ports, ports, |ports|);
  }

  /** A command keeps the list the list of the enabled ports exactly when it does not attach
      a device under the id of a port that is enabled already. */
  lemma SyncKeptIff(s: State, c: Command)
    requires Fits(c, |s.ports|) && InSync(s)
    ensures InSync(Next(s, c)) <==> !(c.AttachPort? && c.found && s.testDone && s.ports[c.id].enabled)
  {
    match c
    case AttachPort(found, id) =>
      AttachSync(s, id, s.ports[id].(enabled := true, status := Stopped, needReconfig := true, needReconfigQueues := true));
    case DetachPort(pid, released) =>
      if !InvalidId(s.ports, pid) {
        DetachSync(s, pid, s.ports[pid].(enabled := false));
      }
    case _ =>
      OthersKeepSync(s, Next(s, c).ports, Next(s, c));
  }

  /** The driver gives new devices ids that are free. */
  predicate FreshIds(s: State, cs: seq<Command>)
    requires AllFit(cs, |s.ports|)
  {
    forall k :: 0 <= k < |cs| ==> Fresh(Before(s, cs, k), cs[k])
  }

  predicate Fresh(s: State, c: Command)
    requires Fits(c, |s.ports|)
  {
    c.AttachPort? && c.found && s.testDone ==> !s.ports[c.id].enabled
  }

  lemma {:induction false} RunInSync(s: State, cs: seq<Command>)
    requires AllFit(cs, |s.ports|) && InSync(s) && FreshIds(s, cs)
    ensures InSync(Run(s, cs))
  {
    if cs != [] {
      var last := |cs| - 1;
      forall k | 0 <= k < last
        ensures Fresh(Before(s, cs[..last], k), cs[..last][k])
      {
        BeforeInPrefix(s, cs, k);
      }
      RunInSync(s, cs[..last]);
      assert Fresh(Before(s, cs, last), cs[last]);
      SyncKeptIff(Run(s, cs[..last]), cs[last]);
    }
  }

  /** In every run with fresh ids: while forwarding is on, exactly the enabled ports are listed
      for forwarding, and each of them is started or a slave. */
  lemma ForwardedPortsRun(s: State, cs: seq<Command>)
    requires AllFit(cs, |s.ports|) && Initial(s) && InSync(s) && FreshIds(s, cs)
    ensures var t := Run(s, cs);
            && t.nbFwd <= |t.fwdIds|
            && (forall p: nat :: p in t.fwdIds[..t.nbFwd] <==> p < |t.ports| && t.ports[p].enabled)
            && (!t.testDone ==> forall p: nat :: p in t.fwdIds[..t.nbFwd] ==>
                  p < |t.ports| && (t.ports[p].slave || t.ports[p].status == Started))
  {
    RunInSync(s, cs);
    RunInvariant(s, cs);
    EnabledIdsAre(Run(s, cs).ports, |Run(s, cs).ports|);
  }
}
