/** Without room for a worker burst and a TX burst less one grain in the TX rings, some fair
    schedule blocks the worker for good: so that bound on the rings is exact. */
module WorkerBlockade {
  import opened Divisors
  import opened Fairness
  import opened Pipeline
  import opened Products

  // ---------- round robin, with single packets on port 0 ----------

  function Feeding(s: State, t: nat): Action
  {
    if t % 3 == 1 then Work
    else if t % 3 == 2 then Transmit(0)
    else if s.rx.port == 0 then Receive([0])
    else Receive([])
  }

  function FeedingChoice(): (State, nat) -> Action
  {
    (s: State, t: nat) => Feeding(s, t)
  }

  ghost function FeedingRun(c: Config, t: nat): State
  {
    Guided(NextOf(c), Init(c), FeedingChoice(), t)
  }

  ghost function FeedingSchedule(c: Config): Schedule
  {
    Chosen(NextOf(c), Init(c), FeedingChoice())
  }

  lemma FeedingIsFair(c: Config)
    ensures Fair(Cores(FeedingSchedule(c)))
  {
    var acts := Cores(FeedingSchedule(c));
    forall core: Core, t: nat
      ensures ActsAgain(acts, core, t)
    {
      var u := 3 * t + if core == RX then 0 else if core == WORKER then 1 else 2;
      assert Feeding(FeedingRun(c, u), u).Core() == core;
      assert acts(u) == core;
    }
  }

  /** Packets come in one by one on port 0 and go out on port 1. */
  ghost predicate OnPortZero(c: Config, s: State)
  {
    && Inv(c, s)
    && (forall j :: 0 < j < c.nPorts ==> s.ringsRx[j] == [])
    && (forall j :: 0 <= j < c.nPorts && j != 1 ==> s.ringsTx[j] == [])
    && (s.rx.RxSpin? ==> s.rx.port == 0 && |s.rx.batch| == 1)
    && (s.worker.WorkerSpin? ==> s.worker.port == 0)
  }

  lemma OnPortZeroStep(c: Config, s: State, t: nat)
    requires OnPortZero(c, s)
    ensures OnPortZero(c, Next(c, s, Feeding(s, t)))
  {
    StepKeeps(c, s, Feeding(s, t));
  }

  // ---------- the bursts that went into and out of the TX ring of port 1 ----------

  /** Packets that TX has taken out of the ring. */
  function Drained(s: State): nat
    requires |s.out| > 1 && |s.buffers| > 1
  {
    |s.out[1]| + |s.buffers[1]|
  }

  /** Packets that the worker has put into the ring. */
  function Filled(s: State): nat
    requires |s.out| > 1 && |s.buffers| > 1 && |s.ringsTx| > 1
  {
    |s.ringsTx[1]| + Drained(s)
  }

  datatype Move = Same | Fill | Drain

  /** What a step does to that ring. */
  function MoveOf(c: Config, s: State, a: Action): Move
    requires c.Basic() && Shaped(c, s)
  {
    if a.Work? && s.worker.WorkerSpin? && s.worker.port == 0 && WorkerFits(c, s) then Fill
    else if a.Transmit? && s.txPort == 1 && c.txRead <= |s.ringsTx[1]| then Drain
    else Same
  }

  lemma MovesCounted(c: Config, s: State, a: Action)
    requires OnPortZero(c, s)
    ensures var t := Next(c, s, a);
            && Filled(t) == Filled(s) + (if MoveOf(c, s, a) == Fill then c.worker else 0)
            && Drained(t) == Drained(s) + (if MoveOf(c, s, a) == Drain then c.txRead else 0)
  {
  }

  /** x worker bursts and one grain are y TX bursts. */
  ghost predicate Meets(c: Config, x: nat, y: nat)
    requires c.Basic()
  {
    !c.TxRoom() && y > 0 && x * c.worker + c.Grain() == y * c.txRead
  }

  /** No more than x bursts in, and fewer than y out. */
  ghost predicate InBox(c: Config, s: State, x: nat, y: nat, a: nat, b: nat)
    requires Shaped(c, s) && c.nPorts >= 2
  {
    a <= x && b < y && Filled(s) == a * c.worker && Drained(s) == b * c.txRead
  }

  /** The ring never takes burst x + 1 in or gives burst y out. */
  lemma BoxNotLeft(c: Config, ring: nat, x: nat, y: nat, a: nat, b: nat)
    requires c.Basic() && Meets(c, x, y) && a <= x && b < y && ring + b * c.txRead == a * c.worker
    ensures ring + c.worker <= c.txRingSize - 1 ==> a < x
    ensures ring >= c.txRead ==> b + 1 < y
  {
    var w, t, d := c.worker, c.txRead, c.Grain();
    if a == x {
      assert ring + d == y * t - b * t == (y - b) * t;
      Product(y - b, t);
    }
    if b + 1 == y {
      assert y * t == b * t + t;
      assert ring + d + (x - a) * w == t by {
        assert (x - a) * w == x * w - a * w;
      }
      Product(x - a, w);
    }
  }

  /** The bursts counted after a step. */
  function CountIn(c: Config, s: State, a: Action, n: nat): nat
    requires c.Basic() && Shaped(c, s)
  {
    if MoveOf(c, s, a) == Fill then n + 1 else n
  }

  function CountOut(c: Config, s: State, a: Action, n: nat): nat
    requires c.Basic() && Shaped(c, s)
  {
    if MoveOf(c, s, a) == Drain then n + 1 else n
  }

  lemma StaysInBox(c: Config, s: State, act: Action, x: nat, y: nat, a: nat, b: nat)
    requires OnPortZero(c, s) && Meets(c, x, y) && InBox(c, s, x, y, a, b)
    ensures Shaped(c, Next(c, s, act))
    ensures InBox(c, Next(c, s, act), x, y, CountIn(c, s, act, a), CountOut(c, s, act, b))
  {
    StepKeeps(c, s, act);
    MovesCounted(c, s, act);
    BoxNotLeft(c, |s.ringsTx[1]|, x, y, a, b);
    assert (a + 1) * c.worker == a * c.worker + c.worker && (b + 1) * c.txRead == b * c.txRead + c.txRead;
  }

  // ---------- the worker jams ----------

  /** The worker's burst does not fit and TX cannot take one. */
  predicate Jammed(c: Config, s: State)
  {
    && c.Basic() && Shaped(c, s) && s.worker.WorkerSpin? && s.worker.port == 0
    && !WorkerFits(c, s) && |s.ringsTx[1]| < c.txRead
  }

  lemma JammedStep(c: Config, s: State, a: Action)
    requires Inv(c, s) && Jammed(c, s)
    ensures Jammed(c, Next(c, s, a))
  {
    StepKeeps(c, s, a);
  }

  /** Packets that the worker still waits for on port 0. */
  function Missing(c: Config, s: State): nat
    requires Shaped(c, s) && c.nPorts >= 2
  {
    if |s.ringsRx[0]| < c.worker then c.worker - |s.ringsRx[0]| else 0
  }

  /** Turns of the helper until it does something useful. */
  function Way(c: Config, s: State): nat
    requires c.Basic() && Shaped(c, s)
  {
    if s.worker.WorkerSpin? then
      if s.worker.port == 0 && WorkerFits(c, s) then 0 else Distance(c.nPorts, s.txPort, 1)
    else if Missing(c, s) == 0 then Distance(c.nPorts, s.worker.port, 0)
    else if s.rx.RxSpin? then 0
    else 1 + Distance(c.nPorts, s.rx.port, 0)
  }

  function Left(c: Config, s: State, x: nat, y: nat): nat
    requires Shaped(c, s) && c.nPorts >= 2
  {
    var all, done := x * c.worker + y * c.txRead, Filled(s) + Drained(s);
    if done <= all then all - done else 0
  }

  function JamRank(c: Config, s: State, x: nat, y: nat): Rank
  {
    if !c.Basic() || !Shaped(c, s) then Rank(0, 0, 0, 0, 0)
    else Rank(Left(c, s, x, y), if s.worker.WorkerSpin? then 0 else 1,
              if s.worker.WorkerSpin? then 0 else Missing(c, s), Way(c, s), 0)
  }

  function JamHelper(c: Config, s: State): Core
  {
    if !c.Basic() || !Shaped(c, s) then RX
    else if s.worker.WorkerSpin? then
      if s.worker.port == 0 && WorkerFits(c, s) then WORKER else TX
    else if Missing(c, s) == 0 then WORKER
    else RX
  }

  ghost predicate Nearer(c: Config, s: State, t: State, core: Core, x: nat, y: nat)
  {
    || JamRank(c, t, x, y).Below(JamRank(c, s, x, y))
    || (core != JamHelper(c, s) && JamRank(c, t, x, y) == JamRank(c, s, x, y) && JamHelper(c, t) == JamHelper(c, s))
  }

  lemma BoxBounds(c: Config, s: State, x: nat, y: nat, a: nat, b: nat)
    requires c.Basic() && Shaped(c, s) && InBox(c, s, x, y, a, b)
    ensures Filled(s) <= x * c.worker && Drained(s) <= y * c.txRead
  {
    assert x * c.worker - a * c.worker == (x - a) * c.worker && y * c.txRead - b * c.txRead == (y - b) * c.txRead;
    Product(x - a, c.worker);
    Product(y - b, c.txRead);
  }

  /** A burst that moves brings the counts nearer to their bounds. */
  lemma LeftFalls(c: Config, s: State, act: Action, x: nat, y: nat, a: nat, b: nat)
    requires OnPortZero(c, s) && Meets(c, x, y) && InBox(c, s, x, y, a, b)
    ensures Shaped(c, Next(c, s, act))
    ensures if MoveOf(c, s, act) == Same then Left(c, Next(c, s, act), x, y) == Left(c, s, x, y)
            else Left(c, Next(c, s, act), x, y) < Left(c, s, x, y)
  {
    StaysInBox(c, s, act, x, y, a, b);
    MovesCounted(c, s, act);
    BoxBounds(c, s, x, y, a, b);
    BoxBounds(c, Next(c, s, act), x, y, CountIn(c, s, act, a), CountOut(c, s, act, b));
    LeftFollows(c, s, Next(c, s, act), x, y);
  }

  lemma LeftFollows(c: Config, s: State, t: State, x: nat, y: nat)
    requires c.Basic() && Shaped(c, s) && Shaped(c, t)
    requires Filled(s) <= x * c.worker && Drained(s) <= y * c.txRead
    requires Filled(t) <= x * c.worker && Drained(t) <= y * c.txRead
    ensures Left(c, s, x, y) - Left(c, t, x, y) == Filled(t) + Drained(t) - (Filled(s) + Drained(s))
  {
  }

  lemma RxBringsNearer(c: Config, s: State, t: nat, x: nat, y: nat)
    requires OnPortZero(c, s) && c.rxRingSize - 1 >= c.worker && t % 3 != 1 && t % 3 != 2
    requires Shaped(c, Next(c, s, Feeding(s, t))) && Left(c, Next(c, s, Feeding(s, t)), x, y) == Left(c, s, x, y)
    ensures Nearer(c, s, Next(c, s, Feeding(s, t)), RX, x, y)
  {
  }

  lemma WorkerBringsNearer(c: Config, s: State, x: nat, y: nat)
    requires OnPortZero(c, s) && Shaped(c, WorkerTurn(c, s)) && MoveOf(c, s, Work) == Same
    requires Left(c, WorkerTurn(c, s), x, y) == Left(c, s, x, y)
    ensures Nearer(c, s, WorkerTurn(c, s), WORKER, x, y)
  {
  }

  lemma TxBringsNearer(c: Config, s: State, x: nat, y: nat)
    requires OnPortZero(c, s) && Shaped(c, TxTurn(c, s, 0)) && MoveOf(c, s, Transmit(0)) == Same && !Jammed(c, s)
    requires Left(c, TxTurn(c, s, 0), x, y) == Left(c, s, x, y)
    ensures Nearer(c, s, TxTurn(c, s, 0), TX, x, y)
  {
  }

  lemma FeedingStep(c: Config, s: State, t: nat, x: nat, y: nat, a: nat, b: nat)
    requires OnPortZero(c, s) && Meets(c, x, y) && InBox(c, s, x, y, a, b)
    requires c.rxRingSize - 1 >= c.worker && !Jammed(c, s)
    ensures Nearer(c, s, Next(c, s, Feeding(s, t)), Feeding(s, t).Core(), x, y)
  {
    var act := Feeding(s, t);
    LeftFalls(c, s, act, x, y, a, b);
    if MoveOf(c, s, act) == Same {
      if t % 3 == 1 {
        WorkerBringsNearer(c, s, x, y);
      } else if t % 3 == 2 {
        TxBringsNearer(c, s, x, y);
      } else {
        RxBringsNearer(c, s, t, x, y);
      }
    }
  }

  ghost predicate Fed(c: Config, s: State, x: nat, y: nat, a: nat, b: nat)
  {
    OnPortZero(c, s) && InBox(c, s, x, y, a, b)
  }

  lemma FeedingStarts(c: Config, x: nat, y: nat)
    requires c.Basic() && y > 0
    ensures Fed(c, Init(c), x, y, 0, 0)
  {
    InitInv(c);
  }

  lemma StaysFed(c: Config, s: State, t: nat, x: nat, y: nat, a: nat, b: nat) returns (a': nat, b': nat)
    requires c.Basic() && Meets(c, x, y) && Fed(c, s, x, y, a, b)
    ensures Fed(c, NextOf(c)(s, FeedingChoice()(s, t)), x, y, a', b')
  {
    OnPortZeroStep(c, s, t);
    StaysInBox(c, s, Feeding(s, t), x, y, a, b);
    a', b' := CountIn(c, s, Feeding(s, t), a), CountOut(c, s, Feeding(s, t), b);
  }

  lemma {:induction false} FeedingReaches(c: Config, t: nat, x: nat, y: nat) returns (a: nat, b: nat)
    requires c.Basic() && Meets(c, x, y)
    ensures Fed(c, FeedingRun(c, t), x, y, a, b)
  {
    if t == 0 {
      FeedingStarts(c, x, y);
      a, b := 0, 0;
    } else {
      var a', b' := FeedingReaches(c, t - 1, x, y);
      a, b := StaysFed(c, FeedingRun(c, t - 1), t - 1, x, y, a', b');
    }
  }

  lemma FedNearer(c: Config, s: State, t: nat, x: nat, y: nat, a: nat, b: nat)
    requires c.Basic() && Meets(c, x, y) && Fed(c, s, x, y, a, b) && c.rxRingSize - 1 >= c.worker && !Jammed(c, s)
    ensures Nearer(c, s, NextOf(c)(s, FeedingChoice()(s, t)), FeedingChoice()(s, t).Core(), x, y)
  {
    FeedingStep(c, s, t, x, y, a, b);
  }

  ghost function FeedingStates(c: Config): nat -> State
  {
    (t: nat) => FeedingRun(c, t)
  }

  function IsJammed(c: Config): State -> bool
  {
    (s: State) => Jammed(c, s)
  }

  function HelperOf(c: Config): State -> Core
  {
    (s: State) => JamHelper(c, s)
  }

  function RankOf(c: Config, x: nat, y: nat): State -> Rank
  {
    (s: State) => JamRank(c, s, x, y)
  }

  lemma FeedingProgress(c: Config, t: nat, x: nat, y: nat)
    requires c.Basic() && Meets(c, x, y) && c.rxRingSize - 1 >= c.worker
    ensures Progress(FeedingStates(c), Cores(FeedingSchedule(c)), IsJammed(c), HelperOf(c), RankOf(c, x, y), t)
  {
    var a, b := FeedingReaches(c, t, x, y);
    var s := FeedingRun(c, t);
    if !Jammed(c, s) {
      FedNearer(c, s, t, x, y, a, b);
    }
  }

  lemma EventuallyJammed(c: Config) returns (u: nat)
    requires c.Basic() && !c.TxRoom() && c.rxRingSize - 1 >= c.worker
    ensures Jammed(c, FeedingRun(c, u))
  {
    var x, y := GcdReached(c.worker, c.txRead);
    forall t: nat { FeedingProgress(c, t, x, y); }
    FeedingIsFair(c);
    var acts, s := Cores(FeedingSchedule(c)), FeedingRun(c, 0);
    u := GoalReached(FeedingStates(c), acts, IsJammed(c), HelperOf(c), RankOf(c, x, y), 0,
                     JamRank(c, s, x, y), NextTurn(acts, JamHelper(c, s), 0));
  }

  lemma JammedForGood(c: Config, t: nat, u: nat)
    requires c.Basic() && !c.TxRoom() && t <= u && Jammed(c, FeedingRun(c, t))
    ensures Jammed(c, FeedingRun(c, u))
  {
    var x, y := GcdReached(c.worker, c.txRead);
    forall i: nat | IsJammed(c)(FeedingStates(c)(i))
      ensures IsJammed(c)(FeedingStates(c)(i + 1))
    {
      var a, b := FeedingReaches(c, i, x, y);
      JammedStep(c, FeedingRun(c, i), Feeding(FeedingRun(c, i), i));
    }
    StaysTrue(FeedingStates(c), IsJammed(c), t, u);
  }

  // ---------- exactly when nobody is blocked for good ----------

  ghost predicate WorkerReturns(c: Config, act: Schedule, t: nat)
    requires c.Basic()
  {
    exists u: nat :: u >= t && StateAt(c, act, u).worker.WorkerPoll?
  }

  lemma WorkerJam(c: Config) returns (act: Schedule, t: nat)
    requires c.Basic() && !c.TxRoom() && c.rxRingSize - 1 >= c.worker
    ensures Fair(Cores(act)) && !WorkerReturns(c, act, t)
  {
    t := EventuallyJammed(c);
    act := FeedingSchedule(c);
    FeedingIsFair(c);
    if WorkerReturns(c, act, t) {
      var u: nat :| u >= t && StateAt(c, act, u).worker.WorkerPoll?;
      GuidedIsSteps(NextOf(c), Init(c), FeedingChoice(), u);
      JammedForGood(c, t, u);
      assert false;
    }
  }

  /** RX rings too small for a worker burst leave the worker polling. */
  lemma KeepsPolling(c: Config, s: State, a: Action)
    requires Inv(c, s) && c.rxRingSize - 1 < c.worker && s.worker.WorkerPoll?
    ensures Next(c, s, a).worker.WorkerPoll?
  {
    assert |s.ringsRx[s.worker.port]| <= c.rxRingSize - 1;
  }

  lemma {:induction false} NeverFed(c: Config, act: Schedule, t: nat)
    requires c.Basic() && c.rxRingSize - 1 < c.worker
    ensures StateAt(c, act, t).worker.WorkerPoll?
  {
    if t > 0 {
      NeverFed(c, act, t - 1);
      Reachable(c, act, t - 1);
      KeepsPolling(c, StateAt(c, act, t - 1), act(t - 1));
    }
  }

  /** No fair schedule blocks the worker: exactly when the TX rings have room for a worker
      burst and a TX burst less one grain, or the worker is never fed at all. */
  lemma WorkerNeverStuckIff(c: Config)
    requires c.Basic()
    ensures (forall act: Schedule, t: nat :: Fair(Cores(act)) ==> WorkerReturns(c, act, t))
            <==> c.TxRoom() || c.rxRingSize - 1 < c.worker
  {
    if c.TxRoom() || c.rxRingSize - 1 < c.worker {
      forall act: Schedule, t: nat | Fair(Cores(act))
        ensures WorkerReturns(c, act, t)
      {
        if c.TxRoom() {
          var u := WorkerSpinEnds(c, act, t);
        } else {
          NeverFed(c, act, t);
        }
      }
    } else {
      var act, t := WorkerJam(c);
    }
  }

  /** No fair schedule blocks any core for good: exactly when both kinds of rings have room. */
  lemma NoCoreStuckIff(c: Config)
    requires c.Basic()
    ensures (forall act: Schedule, t: nat :: Fair(Cores(act)) ==> RxReturns(c, act, t) && WorkerReturns(c, act, t))
            <==> c.RxRoom() && c.TxRoom()
  {
    if !c.RxRoom() {
      var act, t := RxBlockade(c);
    } else {
      WorkerNeverStuckIff(c);
      if c.TxRoom() {
        RxNeverStuckIffRoom(c);
      }
    }
  }
}
