/** The fair-progress rule: if some core's turn always brings a state closer to the goal and
    no other turn takes it further away, a fair schedule reaches the goal. */
module Fairness {
  datatype Core = RX | WORKER | TX

  /** Lexicographic progress measures. */
  datatype Rank = Rank(a: nat, b: nat, c: nat, d: nat, e: nat) {
    predicate Below(r: Rank)
    {
      || a < r.a
      || (a == r.a && b < r.b)
      || (a == r.a && b == r.b && c < r.c)
      || (a == r.a && b == r.b && c == r.c && d < r.d)
      || (a == r.a && b == r.b && c == r.c && d == r.d && e < r.e)
    }
  }

  ghost predicate ActsAgain(acts: nat -> Core, core: Core, t: nat)
  {
    exists u: nat :: u >= t && acts(u) == core
  }

  /** Every core keeps getting turns. */
  ghost predicate Fair(acts: nat -> Core)
  {
    forall core: Core, t: nat :: ActsAgain(acts, core, t)
  }

  /** The state after t steps, with the actions given in advance ... */
  ghost function Steps<S, A>(next: (S, A) -> S, init: S, act: nat -> A, t: nat): S
  {
    if t == 0 then init else next(Steps(next, init, act, t - 1), act(t - 1))
  }

  /** ... or chosen from the state reached so far. */
  ghost function Guided<S, A>(next: (S, A) -> S, init: S, choose: (S, nat) -> A, t: nat): S
  {
    if t == 0 then init else
    var s := Guided(next, init, choose, t - 1);
    next(s, choose(s, t - 1))
  }

  ghost function Chosen<S, A>(next: (S, A) -> S, init: S, choose: (S, nat) -> A): nat -> A
  {
    (t: nat) => choose(Guided(next, init, choose, t), t)
  }

  lemma {:induction false} GuidedIsSteps<S, A>(next: (S, A) -> S, init: S, choose: (S, nat) -> A, t: nat)
    ensures Steps(next, init, Chosen(next, init, choose), t) == Guided(next, init, choose, t)
  {
    if t > 0 {
      GuidedIsSteps(next, init, choose, t - 1);
    }
  }

  lemma {:induction false} StaysTrue<S(!new)>(states: nat -> S, p: S -> bool, t: nat, u: nat)
    requires t <= u && p(states(t)) && forall i: nat :: p(states(i)) ==> p(states(i + 1))
    ensures p(states(u))
    decreases u - t
  {
    if t < u {
      assert p(states(t + 1));
      StaysTrue(states, p, t + 1, u);
    }
  }

  ghost function NextTurn(acts: nat -> Core, core: Core, t: nat): (u: nat)
    requires Fair(acts)
    ensures u >= t && acts(u) == core
  {
    assert ActsAgain(acts, core, t);
    var u: nat :| u >= t && acts(u) == core; u
  }

  /** One step of the run respects the measure: the helper's turn lowers it; any other turn
      lowers it too, or keeps both the measure and the helper. */
  ghost predicate Progress<S(!new)>(states: nat -> S, acts: nat -> Core, goal: S -> bool, helper: S -> Core,
                                    rank: S -> Rank, t: nat)
  {
    goal(states(t)) || goal(states(t + 1)) || rank(states(t + 1)).Below(rank(states(t))) ||
    (acts(t) != helper(states(t)) && rank(states(t + 1)) == rank(states(t)) && helper(states(t + 1)) == helper(states(t)))
  }

  lemma {:induction false} GoalReached<S(!new)>(states: nat -> S, acts: nat -> Core, goal: S -> bool,
      helper: S -> Core, rank: S -> Rank, t: nat, r: Rank, turn: nat) returns (u: nat)
    requires Fair(acts) && forall i: nat :: i >= t ==> Progress(states, acts, goal, helper, rank, i)
    requires r == rank(states(t)) && turn >= t && acts(turn) == helper(states(t))
    ensures u >= t && goal(states(u))
    decreases r.a, r.b, r.c, r.d, r.e, turn - t
  {
    assert Progress(states, acts, goal, helper, rank, t);
    if goal(states(t)) {
      u := t;
    } else if goal(states(t + 1)) {
      u := t + 1;
    } else {
      var r' := rank(states(t + 1));
      if r'.Below(r) {
        var next := NextTurn(acts, helper(states(t + 1)), t + 1);
        u := GoalReached(states, acts, goal, helper, rank, t + 1, r', next);
      } else {
        u := GoalReached(states, acts, goal, helper, rank, t + 1, r', turn);
      }
    }
  }
}
