/** The master's merge of the workers' top lists into one list of n entries. */
module TopMerge {

  datatype Entry = Entry(vid: nat, value: int)

  ghost predicate Descending(l: seq<Entry>)
  {
    forall j, k :: 0 <= j < k < |l| ==> l[j].value >= l[k].value
  }

  /** One queue per worker, each with n entries. */
  predicate Full(ls: seq<seq<Entry>>, n: nat)
  {
    |ls| > 0 && forall i :: 0 <= i < |ls| ==> |ls[i]| == n
  }

  ghost predicate AllDescending(ls: seq<seq<Entry>>)
  {
    forall i :: 0 <= i < |ls| ==> Descending(ls[i])
  }

  // ---------- the merge as a run over positions in the lists ----------

  /** heads[i] entries of list i have been popped. */
  datatype State = State(heads: seq<nat>, out: seq<Entry>)

  predicate Within(ls: seq<seq<Entry>>, h: seq<nat>, n: nat)
  {
    Full(ls, n) && |h| == |ls| && forall i :: 0 <= i < |h| ==> h[i] < n
  }

  /** The queue and the value the scan of the first p fronts ends with. */
  function Best(ls: seq<seq<Entry>>, h: seq<nat>, n: nat, p: nat): (r: (nat, int))
    requires Within(ls, h, n) && p <= |ls|
    ensures r.0 < |ls|
  {
    if p == 0 then (0, 0)
    else
      var (pos, value) := Best(ls, h, n, p - 1);
      var front := ls[p - 1][h[p - 1]].value;
      if front > value then (p - 1, front) else (pos, value)
  }

  /** One turn: the front the scan ends with is popped and printed. */
  function Turn(ls: seq<seq<Entry>>, n: nat, s: State): State
    requires Within(ls, s.heads, n)
  {
    var pos := Best(ls, s.heads, n, |ls|).0;
    State(s.heads[pos := s.heads[pos] + 1], s.out + [ls[pos][s.heads[pos]]])
  }

  function Run(ls: seq<seq<Entry>>, n: nat, t: nat): (s: State)
    requires Full(ls, n) && t <= n
    ensures |s.heads| == |ls| && |s.out| == t && forall i :: 0 <= i < |ls| ==> s.heads[i] <= t
  {
    if t == 0 then State(seq(|ls|, _ => 0), [])
    else
      Turn(ls, n, Run(ls, n, t - 1))
  }

  /** The printed list is descending, and no entry left in a queue beats its last one. */
  ghost predicate Correct(ls: seq<seq<Entry>>, n: nat, s: State)
    requires Full(ls, n) && |s.heads| == |ls| && |s.out| > 0
  {
    && Descending(s.out)
    && forall i, k :: 0 <= i < |ls| && s.heads[i] <= k < n ==> ls[i][k].value <= s.out[|s.out| - 1].value
  }

  lemma {:induction false} BestIs(ls: seq<seq<Entry>>, h: seq<nat>, n: nat, p: nat)
    requires Within(ls, h, n) && p <= |ls|
    ensures var (pos, value) := Best(ls, h, n, p);
            && (forall i :: 0 <= i < p ==> ls[i][h[i]].value <= value)
            && ((pos == 0 && value == 0) || (value > 0 && pos < p && ls[pos][h[pos]].value == value))
  {
    if p > 0 {
      BestIs(ls, h, n, p - 1);
    }
  }

  // ---------- how many entries are positive ----------

  function Positives(l: seq<Entry>): (r: nat)
    ensures r <= |l|
  {
    if l == [] || l[0].value <= 0 then 0 else 1 + Positives(l[1..])
  }

  lemma {:induction false} PositivesFirst(l: seq<Entry>)
    requires Descending(l)
    ensures forall k :: 0 <= k < |l| ==> (l[k].value > 0 <==> k < Positives(l))
  {
    if l != [] && l[0].value > 0 {
      PositivesFirst(l[1..]);
      forall k | 0 <= k < |l|
        ensures l[k].value > 0 <==> k < Positives(l)
      {
        if k > 0 { assert l[k] == l[1..][k - 1]; }
      }
    }
  }

  function Sum(h: seq<nat>): nat
  {
    if h == [] then 0 else Sum(h[..|h| - 1]) + h[|h| - 1]
  }

  function Counts(ls: seq<seq<Entry>>): seq<nat>
  {
    seq(|ls|, i requires 0 <= i < |ls| => Positives(ls[i]))
  }

  lemma {:induction false} SumBumped(h: seq<nat>, p: nat)
    requires p < |h|
    ensures Sum(h[p := h[p] + 1]) == Sum(h) + 1
  {
    var g := h[p := h[p] + 1];
    if p < |h| - 1 {
      SumBumped(h[..|h| - 1], p);
      assert g[..|h| - 1] == h[..|h| - 1][p := h[p] + 1];
    } else {
      assert g[..|h| - 1] == h[..|h| - 1];
    }
  }

  lemma {:induction false} SumOrdered(g: seq<nat>, h: seq<nat>)
    requires |g| == |h| && forall i :: 0 <= i < |g| ==> g[i] <= h[i]
    ensures Sum(g) <= Sum(h)
    ensures Sum(g) == Sum(h) ==> g == h
  {
    if g != [] {
      SumOrdered(g[..|g| - 1], h[..|h| - 1]);
      assert g == g[..|g| - 1] + [g[|g| - 1]] && h == h[..|h| - 1] + [h[|h| - 1]];
    }
  }

  lemma {:induction false} SomeBelow(g: seq<nat>, h: seq<nat>) returns (i: nat)
    requires |g| == |h| && Sum(g) < Sum(h)
    ensures i < |g| && g[i] < h[i]
  {
    if g[|g| - 1] < h[|h| - 1] {
      i := |g| - 1;
    } else {
      i := SomeBelow(g[..|g| - 1], h[..|h| - 1]);
    }
  }

  lemma {:induction false} SumZero(n: nat)
    ensures Sum(seq(n, _ => 0)) == 0
  {
    if n > 0 {
      SumZero(n - 1);
      assert seq(n, _ => 0)[..n - 1] == seq(n - 1, _ => 0);
    }
  }

  // ---------- the run while positive entries last ----------

  ghost predicate FirstPhase(ls: seq<seq<Entry>>, n: nat, t: nat, s: State)
    requires Full(ls, n) && |s.heads| == |ls| && |s.out| == t
  {
    && Sum(s.heads) == t && Descending(s.out)
    && (forall i :: 0 <= i < |ls| ==> s.heads[i] <= Positives(ls[i]))
    && (forall j :: 0 <= j < t ==> s.out[j].value > 0)
    && (t > 0 ==> Correct(ls, n, s))
  }

  lemma {:induction false} WhilePositive(ls: seq<seq<Entry>>, n: nat, t: nat)
    requires Full(ls, n) && AllDescending(ls) && t <= n && t <= Sum(Counts(ls))
    ensures FirstPhase(ls, n, t, Run(ls, n, t))
  {
    if t == 0 {
      SumZero(|ls|);
    } else {
      WhilePositive(ls, n, t - 1);
      OneMorePositive(ls, n, t - 1, Run(ls, n, t - 1));
    }
  }

  /** Some front is positive, so the scan finds the largest one. */
  lemma LargestFound(ls: seq<seq<Entry>>, n: nat, h: seq<nat>)
    requires Within(ls, h, n) && AllDescending(ls) && Sum(h) < Sum(Counts(ls))
    ensures var pos := Best(ls, h, n, |ls|).0;
            && ls[pos][h[pos]].value > 0 && h[pos] < Positives(ls[pos])
            && forall j, k :: 0 <= j < |ls| && h[j] <= k < n ==> ls[j][k].value <= ls[pos][h[pos]].value
  {
    var (pos, value) := Best(ls, h, n, |ls|);
    var i := SomeBelow(h, Counts(ls));
    PositivesFirst(ls[i]);
    BestIs(ls, h, n, |ls|);
    assert ls[i][h[i]].value > 0;
    PositivesFirst(ls[pos]);
    NothingLargerLeft(ls, n, h, value);
  }

  lemma OneMorePositive(ls: seq<seq<Entry>>, n: nat, t: nat, s: State)
    requires Full(ls, n) && AllDescending(ls) && t < n && t < Sum(Counts(ls))
    requires |s.out| == t && Within(ls, s.heads, n) && FirstPhase(ls, n, t, s)
    ensures FirstPhase(ls, n, t + 1, Turn(ls, n, s))
  {
    OneMoreCounted(ls, n, s);
    OneMoreInOrder(ls, n, s);
  }

  lemma OneMoreCounted(ls: seq<seq<Entry>>, n: nat, s: State)
    requires AllDescending(ls) && Within(ls, s.heads, n) && Sum(s.heads) < Sum(Counts(ls))
    requires forall i :: 0 <= i < |ls| ==> s.heads[i] <= Positives(ls[i])
    ensures Sum(Turn(ls, n, s).heads) == Sum(s.heads) + 1
    ensures forall i :: 0 <= i < |ls| ==> Turn(ls, n, s).heads[i] <= Positives(ls[i])
    ensures Turn(ls, n, s).out[|s.out|].value > 0
  {
    LargestFound(ls, n, s.heads);
    SumBumped(s.heads, Best(ls, s.heads, n, |ls|).0);
  }

  lemma OneMoreInOrder(ls: seq<seq<Entry>>, n: nat, s: State)
    requires AllDescending(ls) && Within(ls, s.heads, n) && Sum(s.heads) < Sum(Counts(ls))
    requires Descending(s.out) && (|s.out| > 0 ==> Correct(ls, n, s))
    ensures Descending(Turn(ls, n, s).out) && Correct(ls, n, Turn(ls, n, s))
  {
    LargestFound(ls, n, s.heads);
    var pos := Best(ls, s.heads, n, |ls|).0;
    AppendSmaller(s.out, ls[pos][s.heads[pos]]);
    LastIsLargest(ls, n, s, pos);
  }

  lemma LastIsLargest(ls: seq<seq<Entry>>, n: nat, s: State, pos: nat)
    requires Within(ls, s.heads, n) && pos < |ls| && Descending(s.out + [ls[pos][s.heads[pos]]])
    requires forall j, k :: 0 <= j < |ls| && s.heads[j] <= k < n ==> ls[j][k].value <= ls[pos][s.heads[pos]].value
    ensures Correct(ls, n, State(s.heads[pos := s.heads[pos] + 1], s.out + [ls[pos][s.heads[pos]]]))
  {
  }

  lemma NothingLargerLeft(ls: seq<seq<Entry>>, n: nat, h: seq<nat>, value: int)
    requires Within(ls, h, n) && AllDescending(ls)
    requires forall j :: 0 <= j < |ls| ==> ls[j][h[j]].value <= value
    ensures forall j, k :: 0 <= j < |ls| && h[j] <= k < n ==> ls[j][k].value <= value
  {
    forall j, k | 0 <= j < |ls| && h[j] <= k < n
      ensures ls[j][k].value <= value
    {
      assert Descending(ls[j]);
      assert ls[j][h[j]].value <= value;
    }
  }

  lemma AppendSmaller(l: seq<Entry>, e: Entry)
    requires Descending(l) && (|l| > 0 ==> e.value <= l[|l| - 1].value)
    ensures Descending(l + [e])
  {
  }

  // ---------- and after them: everything comes from the first queue ----------

  ghost predicate SecondPhase(ls: seq<seq<Entry>>, n: nat, t: nat, s: State)
    requires Full(ls, n) && |s.heads| == |ls| && |s.out| == t
  {
    var c := Counts(ls);
    && c[0] <= Sum(c) <= t <= n
    && s.heads == c[0 := c[0] + (t - Sum(c))]
    && Descending(s.out)
    && (t > Sum(c) ==> s.out[t - 1] == ls[0][c[0] + (t - Sum(c)) - 1])
    && (t == Sum(c) ==> forall j :: 0 <= j < t ==> s.out[j].value > 0)
  }

  lemma {:induction false} AfterPositive(ls: seq<seq<Entry>>, n: nat, t: nat)
    requires Full(ls, n) && AllDescending(ls) && Sum(Counts(ls)) <= t <= n
    ensures SecondPhase(ls, n, t, Run(ls, n, t))
  {
    var c := Counts(ls);
    SumOfFirst(c);
    if t == Sum(c) {
      PhaseEnds(ls, n);
    } else {
      AfterPositive(ls, n, t - 1);
      FirstQueueNext(ls, n, t - 1, Run(ls, n, t - 1));
    }
  }

  /** When the positive entries are all printed, each list has been popped just of those. */
  lemma PhaseEnds(ls: seq<seq<Entry>>, n: nat)
    requires Full(ls, n) && AllDescending(ls) && Sum(Counts(ls)) <= n
    ensures SecondPhase(ls, n, Sum(Counts(ls)), Run(ls, n, Sum(Counts(ls))))
  {
    var c := Counts(ls);
    var s := Run(ls, n, Sum(c));
    SumOfFirst(c);
    WhilePositive(ls, n, Sum(c));
    SumOrdered(s.heads, c);
    assert s.heads == c[0 := c[0]];
  }

  /** No front is positive any more, so the scan ends where it began. */
  lemma FirstQueueNext(ls: seq<seq<Entry>>, n: nat, t: nat, s: State)
    requires Full(ls, n) && AllDescending(ls) && t < n && |s.out| == t
    requires Within(ls, s.heads, n) && SecondPhase(ls, n, t, s)
    ensures SecondPhase(ls, n, t + 1, Turn(ls, n, s))
  {
    var c := Counts(ls);
    var pos := Best(ls, s.heads, n, |ls|).0;
    BestIs(ls, s.heads, n, |ls|);
    PositivesFirst(ls[pos]);
    PositivesFirst(ls[0]);
    assert Descending(ls[0]);
    AppendSmaller(s.out, ls[0][s.heads[0]]);
  }

  /** What can be checked beforehand: there are n positive entries, or what the first list
      adds to them is no smaller than what any other list has left. */
  predicate Suffices(ls: seq<seq<Entry>>, n: nat)
    requires Full(ls, n)
  {
    var c := Counts(ls);
    SumOfFirst(c);
    Sum(c) >= n || forall i :: 1 <= i < |ls| && c[i] < n ==> ls[i][c[i]].value <= ls[0][c[0] + (n - Sum(c)) - 1].value
  }

  lemma {:induction false} SumOfFirst(h: seq<nat>)
    requires |h| > 0
    ensures h[0] <= Sum(h)
  {
    if |h| > 1 {
      SumOfFirst(h[..|h| - 1]);
    }
  }

  lemma SufficesIsEnough(ls: seq<seq<Entry>>, n: nat, s: State)
    requires Full(ls, n) && AllDescending(ls) && n > 0 && |s.heads| == |ls| && |s.out| == n
    requires Sum(Counts(ls)) < n && Suffices(ls, n) && SecondPhase(ls, n, n, s)
    ensures Correct(ls, n, s)
  {
    var c := Counts(ls);
    forall i, k | 0 <= i < |ls| && s.heads[i] <= k < n
      ensures ls[i][k].value <= s.out[n - 1].value
    {
      assert Descending(ls[i]);
      if i > 0 {
        assert ls[i][k].value <= ls[i][c[i]].value;
      }
    }
  }

  /** For all descending lists: the merge prints the n largest entries in order exactly when
      that holds. It always does for values that are not negative. */
  lemma MergeCorrectIff(ls: seq<seq<Entry>>, n: nat)
    requires Full(ls, n) && AllDescending(ls) && n > 0
    ensures Correct(ls, n, Run(ls, n, n)) <==> Suffices(ls, n)
  {
    var c, s := Counts(ls), Run(ls, n, n);
    SumOfFirst(c);
    if Sum(c) >= n {
      WhilePositive(ls, n, n);
    } else {
      AfterPositive(ls, n, n);
      if Suffices(ls, n) {
        SufficesIsEnough(ls, n, s);
      } else {
        var i :| 1 <= i < |ls| && c[i] < n && ls[i][c[i]].value > s.out[n - 1].value;
        assert s.heads[i] == c[i];
      }
    }
  }

  lemma NonNegativeSuffices(ls: seq<seq<Entry>>, n: nat)
    requires Full(ls, n) && AllDescending(ls)
    requires forall i, k :: 0 <= i < |ls| && 0 <= k < n ==> ls[i][k].value >= 0
    ensures Suffices(ls, n)
  {
    var c := Counts(ls);
    SumOfFirst(c);
    if Sum(c) < n {
      forall i | 1 <= i < |ls| && c[i] < n
        ensures ls[i][c[i]].value == 0
      {
        PositivesFirst(ls[i]);
      }
      assert ls[0][c[0] + (n - Sum(c)) - 1].value >= 0;
    }
  }

  /** With negative values the larger of two entries can be lost. */
  lemma NegativeValuesFail()
    ensures var ls := [[Entry(0, -5)], [Entry(1, -1)]];
            Run(ls, 1, 1).out == [Entry(0, -5)] && !Correct(ls, 1, Run(ls, 1, 1))
  {
    var ls := [[Entry(0, -5)], [Entry(1, -1)]];
    var s := Run(ls, 1, 1);
    assert Run(ls, 1, 0).heads == [0, 0];
    assert Best(ls, [0, 0], 1, 0) == (0, 0);
    assert Best(ls, [0, 0], 1, 1) == (0, 0);
    assert Best(ls, [0, 0], 1, 2) == (0, 0);
    assert s.heads == [1, 0];
    assert ls[1][0].value > s.out[0].value;
  }

  // ---------- the vertices behind the lists ----------

  /** Nothing popped is lost: it is in the printed list. */
  lemma {:induction false} PoppedArePrinted(ls: seq<seq<Entry>>, n: nat, t: nat, i: nat, k: nat)
    requires Full(ls, n) && t <= n && i < |ls| && k < Run(ls, n, t).heads[i]
    ensures k < n && ls[i][k] in Run(ls, n, t).out
  {
    var s := Run(ls, n, t - 1);
    if k < s.heads[i] {
      PoppedArePrinted(ls, n, t - 1, i, k);
    } else {
      assert Run(ls, n, t).out[t - 1] == ls[i][k];
    }
  }

  /** A worker's list holds its n largest vertices. */
  ghost predicate TopOf(list: seq<Entry>, all: set<Entry>, n: nat)
    requires |list| == n
  {
    && (forall k :: 0 <= k < n ==> list[k] in all)
    && (forall e :: e in all && e !in list ==> n > 0 && e.value <= list[n - 1].value)
  }

  /** No vertex of any worker that is not printed has a larger value than the last one printed. */
  lemma NothingLargerMissed(ls: seq<seq<Entry>>, all: seq<set<Entry>>, n: nat, i: nat, e: Entry)
    requires Full(ls, n) && AllDescending(ls) && n > 0 && Suffices(ls, n)
    requires |all| == |ls| && forall j :: 0 <= j < |ls| ==> TopOf(ls[j], all[j], n)
    requires i < |ls| && e in all[i] && e !in Run(ls, n, n).out
    ensures e.value <= Run(ls, n, n).out[n - 1].value
  {
    MergeCorrectIff(ls, n);
    var k := if e in ls[i] then Where(ls[i], e) else n - 1;
    assert TopOf(ls[i], all[i], n);
    ListedAtMostLast(ls, n, i, k);
  }

  lemma ListedAtMostLast(ls: seq<seq<Entry>>, n: nat, i: nat, k: nat)
    requires Full(ls, n) && n > 0 && Correct(ls, n, Run(ls, n, n))
    requires i < |ls| && k < n
    ensures ls[i][k] in Run(ls, n, n).out || ls[i][k].value <= Run(ls, n, n).out[n - 1].value
    ensures k == n - 1 ==> ls[i][k].value <= Run(ls, n, n).out[n - 1].value
  {
    if k < Run(ls, n, n).heads[i] {
      PoppedArePrinted(ls, n, n, i, k);
      // a list that is popped to its end was popped in every turn
      assert k == n - 1 ==> Run(ls, n, n - 1).heads[i] == k;
    }
  }

  function Where(l: seq<Entry>, e: Entry): (k: nat)
    requires e in l
    ensures k < |l| && l[k] == e
  {
    if l[0] == e then 0 else 1 + Where(l[1..], e)
  }

  // ---------- the merge as it runs ----------

  ghost predicate Popped(q: seq<seq<Entry>>, ls: seq<seq<Entry>>, h: seq<nat>, n: nat)
    requires Full(ls, n) && |h| == |ls|
  {
    && |q| == |ls|
    && forall i :: 0 <= i < |ls| ==> h[i] <= n && q[i] == ls[i][h[i]..]
  }

  /** The scan of the fronts. */
  method Scan(q: array<seq<Entry>>, ghost ls: seq<seq<Entry>>, ghost h: seq<nat>, ghost n: nat) returns (pos: nat)
    requires Within(ls, h, n) && Popped(q[..], ls, h, n)
    ensures pos == Best(ls, h, n, |ls|).0
  {
    pos := 0;
    var value := 0;
    for p := 0 to q.Length
      invariant (pos, value) == Best(ls, h, n, p)
    {
      assert q[..][p] == ls[p][h[p]..];
      if q[p][0].value > value {
        value := q[p][0].value;
        pos := p;
      }
    }
  }

  /** Prints n entries, each popped from the queue whose front is largest. No queue is ever
      found empty. */
  method Merge(q: array<seq<Entry>>, n: nat) returns (out: seq<Entry>)
    requires Full(q[..], n)
    modifies q
    ensures out == Run(old(q[..]), n, n).out
    ensures Popped(q[..], old(q[..]), Run(old(q[..]), n, n).heads, n)
  {
    ghost var ls := q[..];
    ghost var s := Run(ls, n, 0);
    out := [];
    for t := 0 to n
      invariant s == Run(ls, n, t) && out == s.out
      invariant Popped(q[..], ls, s.heads, n)
    {
      var front := PopLargest(q, ls, s, n);
      out := out + [front];
      s := Turn(ls, n, s);
    }
  }

  /** One turn: the front that the scan picks leaves its queue. */
  method PopLargest(q: array<seq<Entry>>, ghost ls: seq<seq<Entry>>, ghost s: State, ghost n: nat) returns (front: Entry)
    requires Within(ls, s.heads, n) && Popped(q[..], ls, s.heads, n)
    modifies q
    ensures Turn(ls, n, s).out == s.out + [front] && Popped(q[..], ls, Turn(ls, n, s).heads, n)
  {
    var pos := Scan(q, ls, s.heads, n);
    PopOne(q[..], ls, s.heads, n, pos);
    front := q[pos][0];
    q[pos] := q[pos][1..];
  }

  lemma PopOne(q: seq<seq<Entry>>, ls: seq<seq<Entry>>, h: seq<nat>, n: nat, pos: nat)
    requires Within(ls, h, n) && pos < |ls| && Popped(q, ls, h, n)
    ensures q[pos][0] == ls[pos][h[pos]]
    ensures Popped(q[pos := q[pos][1..]], ls, h[pos := h[pos] + 1], n)
  {
  }
}
