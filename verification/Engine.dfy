/** The in-memory iteration loop of the engine with its selective scheduler. A user
    program is a function on its own state: virtual update() calls become its values. */
module Engine {
  import opened Reachability

  /** What one call of update() leaves behind: the program state and the tasks it added. */
  datatype Effect<P> = Effect(prog: P, tasks: set<nat>)

  /** update() in a given iteration, on a given program state, at a given vertex. */
  type Update<!P> = (nat, P, nat) -> Effect<P>

  /** One sweep over the vertices in the given order, skipping those not scheduled. */
  function Pass<P>(update: Update<P>, iter: nat, scheduled: set<nat>, order: seq<nat>, prog: P): Effect<P>
  {
    if order == [] then Effect(prog, {}) else
    var before := Pass(update, iter, scheduled, order[..|order| - 1], prog);
    var v := order[|order| - 1];
    if v !in scheduled then before else
    var effect := update(iter, before.prog, v);
    Effect(effect.prog, before.tasks + effect.tasks)
  }

  /** Each pass visits every vertex exactly once. */
  ghost predicate IsOrder(n: nat, order: seq<nat>)
  {
    && |order| == n
    && (forall v: nat :: v < n ==> v in order)
    && (forall i, j :: 0 <= i < j < |order| ==> order[i] != order[j])
    && (forall i :: 0 <= i < |order| ==> order[i] < n)
  }

  ghost predicate AreOrders(n: nat, orders: seq<seq<nat>>)
  {
    forall k :: 0 <= k < |orders| ==> IsOrder(n, orders[k])
  }

  /** The state between two iterations: the program, the tasks for the next iteration,
      and whether the loop has already left with "no new tasks". */
  datatype Run<P> = Run(prog: P, next: set<nat>, dry: bool)

  function Scheduled(selective: bool, n: nat, iter: nat, next: set<nat>): set<nat>
  {
    if !selective || iter == 0 then Vertices(n) else next
  }

  /** The whole loop; orders[k] is the order in which pass k happens to visit the vertices. */
  function RunPasses<P>(update: Update<P>, selective: bool, n: nat, orders: seq<seq<nat>>, prog: P): Run<P>
  {
    if orders == [] then Run(prog, {}, false) else
    var iter := |orders| - 1;
    var before := RunPasses(update, selective, n, orders[..iter], prog);
    if before.dry then before
    else if selective && iter > 0 && before.next == {} then before.(dry := true)
    else
      var pass := Pass(update, iter, Scheduled(selective, n, iter, before.next), orders[iter], before.prog);
      Run(pass.prog, pass.tasks, false)
  }

  lemma FirstPass<P>(update: Update<P>, selective: bool, n: nat, order: seq<nat>, prog: P)
    ensures var pass := Pass(update, 0, Vertices(n), order, prog);
            RunPasses(update, selective, n, [order], prog) == Run(pass.prog, pass.tasks, false)
  {
    assert [order][..0] == [];
    assert RunPasses(update, selective, n, [order][..0], prog) == Run(prog, {}, false);
  }

  // ---------- what a pass and a run keep ----------

  /** inv survives an update of any vertex that is still to do: the vertex itself may
      then be dropped from the to-do set, as long as the new tasks are added. */
  ghost predicate Keeps<P(!new)>(update: Update<P>, n: nat, iter: nat, inv: (P, set<nat>) -> bool)
  {
    forall prog: P, rest: set<nat>, v: nat :: v < n && inv(prog, rest + {v}) ==>
      inv(update(iter, prog, v).prog, rest + update(iter, prog, v).tasks)
  }

  lemma {:induction false} PassKeeps<P(!new)>(update: Update<P>, n: nat, iter: nat, scheduled: set<nat>,
      order: seq<nat>, prog: P, inv: (P, set<nat>) -> bool)
    requires Keeps(update, n, iter, inv) && (forall i :: 0 <= i < |order| ==> order[i] < n)
    requires forall i, j :: 0 <= i < j < |order| ==> order[i] != order[j]
    requires inv(prog, scheduled)
    ensures var pass := Pass(update, iter, scheduled, order, prog);
            inv(pass.prog, (scheduled - set v | v in order) + pass.tasks)
  {
    var pass := Pass(update, iter, scheduled, order, prog);
    var todo := scheduled - set v | v in order;
    if order == [] {
      assert todo + pass.tasks == scheduled;
    } else {
      var init, v := order[..|order| - 1], order[|order| - 1];
      var before := Pass(update, iter, scheduled, init, prog);
      var todoBefore := scheduled - set u | u in init;
      PassKeeps(update, n, iter, scheduled, init, prog, inv);
      assert order == init + [v];
      if v in scheduled {
        assert v in todoBefore;
        var rest := todo + before.tasks;
        assert todoBefore + before.tasks == rest + {v};
        assert todo + pass.tasks == rest + update(iter, before.prog, v).tasks;
      } else {
        assert todo + pass.tasks == todoBefore + before.tasks;
      }
    }
  }

  /** An invariant that holds after the first pass and that every later update keeps
      holds, with the next tasks as to-do set, whenever the loop is between passes. */
  lemma {:induction false} RunKeeps<P(!new)>(update: Update<P>, n: nat, orders: seq<seq<nat>>, prog: P,
      inv: (P, set<nat>) -> bool)
    requires AreOrders(n, orders) && |orders| > 0
    requires var first := RunPasses(update, true, n, orders[..1], prog); inv(first.prog, first.next)
    requires forall iter: nat :: iter > 0 ==> Keeps(update, n, iter, inv)
    requires forall p: P, todo: set<nat> :: inv(p, todo) ==> todo <= Vertices(n)
    ensures var r := RunPasses(update, true, n, orders, prog);
            inv(r.prog, r.next) && (r.dry ==> r.next == {})
  {
    var iter := |orders| - 1;
    if iter == 0 {
      assert orders[..1] == orders;
      assert orders[..0] == [];
    } else {
      var init := orders[..iter];
      assert init[..1] == orders[..1];
      RunKeeps(update, n, init, prog, inv);
      var before := RunPasses(update, true, n, init, prog);
      if !before.dry && before.next != {} {
        PassKeeps(update, n, iter, before.next, orders[iter], before.prog, inv);
        var pass := Pass(update, iter, before.next, orders[iter], before.prog);
        assert (before.next - set v | v in orders[iter]) + pass.tasks == pass.tasks;
      }
    }
  }

  // ---------- the scheduler and the loop as the engine runs them ----------

  /** The scheduler's two bit sets: swapped, and the new one cleared, between iterations. */
  class BitsetScheduler {
    var cur: set<nat>
    var next: set<nat>
    var hasNewTasks: bool

    constructor ()
      ensures cur == next == {}
    {
      cur, next := {}, {};
    }

    method NewIteration(iteration: nat)
      modifies this
      ensures iteration > 0 ==> cur == old(next) && next == {}
      ensures iteration == 0 ==> cur == old(cur) && next == old(next)
      ensures hasNewTasks == old(hasNewTasks)
    {
      if iteration > 0 {
        cur, next := next, cur;
        next := {};
      }
    }

    method AddTask(v: nat)
      modifies this
      ensures cur == old(cur) && next == old(next) + {v} && hasNewTasks
    {
      next := next + {v};
      hasNewTasks := true;
    }

    predicate IsScheduled(v: nat)
      reads this
    {
      v in cur
    }
  }

  /** Tasks are vertices. */
  ghost predicate Bounded<P(!new)>(update: Update<P>, n: nat)
  {
    forall iter: nat, p: P, v: nat :: update(iter, p, v).tasks <= Vertices(n)
  }

  class InMemoryEngine {
    const useSelectiveScheduling: bool
    const scheduler: BitsetScheduler
    const scheduled: array<bool>

    constructor (n: nat, selective: bool)
      ensures scheduled.Length == n && useSelectiveScheduling == selective
      ensures fresh(scheduler) && fresh(scheduled) && scheduler.next == {}
      ensures Flagged() == Vertices(n)
    {
      useSelectiveScheduling := selective;
      scheduler := new BitsetScheduler();
      scheduled := new bool[n](_ => true);
    }

    /** Vertices whose frozen flag says that this pass updates them. */
    ghost function Flagged(): set<nat>
      reads scheduled
    {
      set v | v in Vertices(scheduled.Length) && scheduled[v]
    }

    method FreezeFlags(iter: nat)
      requires useSelectiveScheduling
      modifies scheduled
      ensures Flagged() == if iter == 0 then Vertices(scheduled.Length) else scheduler.cur * Vertices(scheduled.Length)
    {
      for i := 0 to scheduled.Length
        invariant forall v :: 0 <= v < i ==> scheduled[v] == (iter == 0 || v in scheduler.cur)
      {
        scheduled[i] := iter == 0 || scheduler.IsScheduled(i);
      }
    }

    /** The first iter passes of the run are done, and have left prog. */
    ghost predicate Between<P(!new)>(update: Update<P>, orders: seq<seq<nat>>, iter: nat, start: P, prog: P)
      requires iter <= |orders|
      reads scheduler, scheduled
    {
      var n := scheduled.Length;
      var r := RunPasses(update, useSelectiveScheduling, n, orders[..iter], start);
      && prog == r.prog && !r.dry && scheduler.next <= Vertices(n)
      && (useSelectiveScheduling ==> scheduler.next == r.next && (iter > 0 ==> scheduler.hasNewTasks == (r.next != {})))
      && (!useSelectiveScheduling ==> Flagged() == Vertices(n))
    }

    /** The head of an iteration: swaps the task sets, stops if there are no new tasks, and
        freezes the flags. */
    method BeginIteration<P(!new)>(iter: nat, ghost update: Update<P>, ghost orders: seq<seq<nat>>, ghost start: P, ghost prog: P)
      returns (stop: bool)
      requires iter < |orders| && Between(update, orders, iter, start, prog)
      modifies scheduler, scheduled
      ensures var r := RunPasses(update, useSelectiveScheduling, scheduled.Length, orders, start);
              stop ==> r.dry && r.prog == prog
      ensures var before := RunPasses(update, useSelectiveScheduling, scheduled.Length, orders[..iter], start);
              && scheduler.next <= Vertices(scheduled.Length)
              && (!stop ==>
                    && Flagged() == Scheduled(useSelectiveScheduling, scheduled.Length, iter, before.next)
                    && !(useSelectiveScheduling && iter > 0 && before.next == {})
                    && (useSelectiveScheduling ==> scheduler.next == {} && !scheduler.hasNewTasks))
    {
      stop := false;
      if useSelectiveScheduling {
        assert iter == 0 ==> orders[..iter] == [];
        scheduler.NewIteration(iter);
        if iter > 0 && !scheduler.hasNewTasks {
          assert orders[..iter + 1][..iter] == orders[..iter];
          DryForGood(update, useSelectiveScheduling, scheduled.Length, orders, iter + 1, start);
          return true;
        }
        FreezeFlags(iter);
        scheduler.hasNewTasks := false;
      }
    }

    /** After the pass of an iteration the next one can begin. */
    lemma PassDone<P(!new)>(update: Update<P>, orders: seq<seq<nat>>, iter: nat, start: P, earlier: set<nat>, prog: P)
      requires iter < |orders| && Bounded(update, scheduled.Length) && earlier <= Vertices(scheduled.Length)
      requires var before := RunPasses(update, useSelectiveScheduling, scheduled.Length, orders[..iter], start);
               var pass := Pass(update, iter, Flagged(), orders[iter], before.prog);
               && !before.dry && !(useSelectiveScheduling && iter > 0 && before.next == {})
               && Flagged() == Scheduled(useSelectiveScheduling, scheduled.Length, iter, before.next)
               && prog == pass.prog && scheduler.next == earlier + pass.tasks
               && (useSelectiveScheduling ==> earlier == {} && scheduler.hasNewTasks == (pass.tasks != {}))
      ensures Between(update, orders, iter + 1, start, prog)
    {
      assert orders[..iter + 1][..iter] == orders[..iter];
      var before := RunPasses(update, useSelectiveScheduling, scheduled.Length, orders[..iter], start);
      TasksBounded(update, scheduled.Length, iter, Flagged(), orders[iter], before.prog);
    }

    method ExecUpdates<P(!new)>(update: Update<P>, iter: nat, order: seq<nat>, start: P) returns (prog: P)
      requires IsOrder(scheduled.Length, order)
      modifies scheduler
      ensures var pass := Pass(update, iter, Flagged(), order, start);
              && prog == pass.prog && scheduler.next == old(scheduler.next) + pass.tasks
              && scheduler.hasNewTasks == (old(scheduler.hasNewTasks) || pass.tasks != {})
    {
      prog := start;
      for idx := 0 to |order|
        invariant prog == Pass(update, iter, Flagged(), order[..idx], start).prog
        invariant scheduler.next == old(scheduler.next) + Pass(update, iter, Flagged(), order[..idx], start).tasks
        invariant scheduler.hasNewTasks ==
          (old(scheduler.hasNewTasks) || Pass(update, iter, Flagged(), order[..idx], start).tasks != {})
      {
        var v := order[idx];
        assert order[..idx + 1][..idx] == order[..idx];
        if scheduled[v] {
          var effect := update(iter, prog, v);
          prog := effect.prog;
          scheduler.next := scheduler.next + effect.tasks;
          scheduler.hasNewTasks := scheduler.hasNewTasks || effect.tasks != {};
        }
      }
      assert order[..|order|] == order;
    }

    /** The loop computes RunPasses, for tasks that are vertices; dry tells that it left
        because there were no new tasks. */
    method ExecUpdatesInMemoryMode<P(!new)>(update: Update<P>, orders: seq<seq<nat>>, start: P) returns (prog: P, dry: bool)
      requires AreOrders(scheduled.Length, orders) && scheduler.next == {} && Flagged() == Vertices(scheduled.Length)
      requires Bounded(update, scheduled.Length)
      modifies scheduler, scheduled
      ensures var r := RunPasses(update, useSelectiveScheduling, scheduled.Length, orders, start);
              prog == r.prog && dry == r.dry
    {
      prog, dry := start, false;
      for iter := 0 to |orders|
        invariant !dry && Between(update, orders, iter, start, prog)
      {
        var stop := BeginIteration(iter, update, orders, start, prog);
        if stop {
          dry := true;
          return;
        }
        ghost var earlier := scheduler.next;
        prog := ExecUpdates(update, iter, orders[iter], prog);
        PassDone(update, orders, iter, start, earlier, prog);
      }
      assert orders[..|orders|] == orders;
    }
  }

  lemma {:induction false} TasksBounded<P(!new)>(update: Update<P>, n: nat, iter: nat, scheduled: set<nat>, order: seq<nat>, prog: P)
    requires forall i: nat, p: P, v: nat :: update(i, p, v).tasks <= Vertices(n)
    ensures Pass(update, iter, scheduled, order, prog).tasks <= Vertices(n)
  {
    if order != [] {
      TasksBounded(update, n, iter, scheduled, order[..|order| - 1], prog);
    }
  }

  lemma {:induction false} DryForGood<P>(update: Update<P>, selective: bool, n: nat, orders: seq<seq<nat>>, k: nat, prog: P)
    requires k <= |orders| && RunPasses(update, selective, n, orders[..k], prog).dry
    ensures RunPasses(update, selective, n, orders, prog) == RunPasses(update, selective, n, orders[..k], prog)
  {
    if k < |orders| {
      var init := orders[..|orders| - 1];
      assert init[..k] == orders[..k];
      DryForGood(update, selective, n, init, k, prog);
    } else {
      assert orders[..k] == orders;
    }
  }

  /** A pass that adds no task is the last one. */
  lemma NoTaskEndsRun<P>(update: Update<P>, n: nat, orders: seq<seq<nat>>, k: nat, prog: P)
    requires k + 2 <= |orders|
    requires var before := RunPasses(update, true, n, orders[..k], prog);
             Pass(update, k, Scheduled(true, n, k, before.next), orders[k], before.prog).tasks == {}
    ensures RunPasses(update, true, n, orders, prog).dry
  {
    assert orders[..k + 1][..k] == orders[..k];
    assert orders[..k + 2][..k + 1] == orders[..k + 1];
    DryForGood(update, true, n, orders, k + 2, prog);
  }
}
