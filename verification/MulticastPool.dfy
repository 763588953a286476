/** The per-port pool of multicast MAC addresses: an array grown in chunks of 32 that
    refines a set of addresses. */
module MulticastPool {

  const MCAST_POOL_INC: nat := 32

  // ---------- the pool as a sequence ----------

  datatype Op = Add(addr: int, allocates: bool) | Remove(addr: int)

  function IndexOf(s: seq<int>, x: int): (i: nat)
    ensures i <= |s| && (i < |s| ==> s[i] == x) && forall j :: 0 <= j < i ==> s[j] != x
  {
    if s == [] then 0 else if s[0] == x then 0 else 1 + IndexOf(s[1..], x)
  }

  /** What a command leaves: a failed reallocation can only happen on a chunk boundary. */
  function Apply(s: seq<int>, op: Op): seq<int>
  {
    match op
    case Add(x, allocates) =>
      if x in s || (|s| % MCAST_POOL_INC == 0 && !allocates) then s else s + [x]
    case Remove(x) =>
      if x in s then s[..IndexOf(s, x)] + s[IndexOf(s, x) + 1..] else s
  }

  /** An added address is in the pool afterwards exactly when it was there before, or the
      last chunk had room, or memory could be had; a new one comes last, and all others stay. */
  lemma AddOutcome(s: seq<int>, x: int, allocates: bool)
    ensures var r := Apply(s, Add(x, allocates));
            && (x in r <==> x in s || |s| % 32 != 0 || allocates)
            && r == if x in r && x !in s then s + [x] else s
  {
  }

  /** A removed address is gone, and the others stay where they were or move up by one. */
  lemma RemoveOutcome(s: seq<int>, x: int)
    requires NoDuplicates(s)
    ensures var r := Apply(s, Remove(x));
            && x !in r
            && (x !in s ==> r == s)
            && (x in s ==> |r| == |s| - 1 && forall i, j :: 0 <= i < |s| && s[i] == x && 0 <= j < |r| ==>
                  r[j] == s[if j < i then j else j + 1])
  {
    if x in s {
      RemovedIsGone(s, IndexOf(s, x));
    }
  }

  function ApplyAll(ops: seq<Op>): seq<int>
  {
    if ops == [] then [] else Apply(ApplyAll(ops[..|ops| - 1]), ops[|ops| - 1])
  }

  ghost predicate NoDuplicates(s: seq<int>)
  {
    forall i, j :: 0 <= i < j < |s| ==> s[i] != s[j]
  }

  ghost function Members(s: seq<int>): set<int>
  {
    set x | x in s
  }

  /** The same command on a set of addresses. */
  function ApplyToSet(m: set<int>, op: Op): set<int>
  {
    match op
    case Add(x, allocates) => if x !in m && |m| % MCAST_POOL_INC == 0 && !allocates then m else m + {x}
    case Remove(x) => m - {x}
  }

  function ApplyAllToSet(ops: seq<Op>): set<int>
  {
    if ops == [] then {} else ApplyToSet(ApplyAllToSet(ops[..|ops| - 1]), ops[|ops| - 1])
  }

  lemma AddRefinesSet(s: seq<int>, x: int)
    requires NoDuplicates(s) && x !in s
    ensures NoDuplicates(s + [x]) && Members(s + [x]) == Members(s) + {x}
  {
  }

  lemma RemoveRefinesSet(s: seq<int>, k: nat)
    requires NoDuplicates(s) && k < |s|
    ensures var r := s[..k] + s[k + 1..]; NoDuplicates(r) && Members(r) == Members(s) - {s[k]}
  {
    var r := s[..k] + s[k + 1..];
    assert forall i :: 0 <= i < |r| ==> r[i] == s[if i < k then i else i + 1];
    forall x | x in s && x != s[k]
      ensures x in r
    {
      var i :| 0 <= i < |s| && s[i] == x;
      assert r[if i < k then i else i - 1] == x;
    }
  }

  /** A command does to the pool, seen as a set, what its name says, and no address is held twice. */
  lemma ApplyRefinesSet(s: seq<int>, op: Op)
    requires NoDuplicates(s)
    ensures NoDuplicates(Apply(s, op))
    ensures Members(Apply(s, op)) == ApplyToSet(Members(s), op)
  {
    CountIsLength(s);
    if op.addr in s {
      if op.Remove? {
        RemoveRefinesSet(s, IndexOf(s, op.addr));
      } else {
        assert Members(s) + {op.addr} == Members(s);
      }
    } else if op.Add? {
      AddRefinesSet(s, op.addr);
    }
  }

  lemma {:induction false} CountIsLength(s: seq<int>)
    requires NoDuplicates(s)
    ensures |Members(s)| == |s|
  {
    if s != [] {
      var init, x := s[..|s| - 1], s[|s| - 1];
      CountIsLength(init);
      assert s == init + [x];
      assert Members(s) == Members(init) + {x};
    }
  }

  /** Where an address that stays is found after the k-th one is taken out. */
  lemma FoundAfterRemove(s: seq<int>, k: nat, x: int)
    requires NoDuplicates(s) && k < |s| && x in s && x != s[k]
    ensures var i := IndexOf(s, x); IndexOf(s[..k] + s[k + 1..], x) == if i < k then i else i - 1
  {
    var r, i := s[..k] + s[k + 1..], IndexOf(s, x);
    assert forall j :: 0 <= j < |r| ==> r[j] == s[if j < k then j else j + 1];
    IndexUnique(r, x, if i < k then i else i - 1);
  }

  lemma FoundAfterAdd(s: seq<int>, x: int, y: int)
    requires y in s
    ensures IndexOf(s + [x], y) == IndexOf(s, y)
  {
    IndexUnique(s + [x], y, IndexOf(s, y));
  }

  lemma RemoveKeepsOrder(s: seq<int>, k: nat, x: int, y: int)
    requires NoDuplicates(s) && k < |s| && x in s && y in s
    requires var r := s[..k] + s[k + 1..]; x in r && y in r
    ensures var r := s[..k] + s[k + 1..]; IndexOf(s, x) < IndexOf(s, y) <==> IndexOf(r, x) < IndexOf(r, y)
  {
    RemovedIsGone(s, k);
    FoundAfterRemove(s, k, x);
    FoundAfterRemove(s, k, y);
    assert s[IndexOf(s, x)] != s[k] && s[IndexOf(s, y)] != s[k];
  }

  lemma RemovedIsGone(s: seq<int>, k: nat)
    requires NoDuplicates(s) && k < |s|
    ensures s[k] !in s[..k] + s[k + 1..]
  {
  }

  /** Addresses that survive a command keep their order. */
  lemma ApplyKeepsOrder(s: seq<int>, op: Op, x: int, y: int)
    requires NoDuplicates(s) && x in s && y in s && x in Apply(s, op) && y in Apply(s, op)
    ensures IndexOf(s, x) < IndexOf(s, y) <==> IndexOf(Apply(s, op), x) < IndexOf(Apply(s, op), y)
  {
    if op.Remove? && op.addr in s {
      RemoveKeepsOrder(s, IndexOf(s, op.addr), x, y);
    } else if op.Add? {
      FoundAfterAdd(s, op.addr, x);
      FoundAfterAdd(s, op.addr, y);
    }
  }

  /** Over any sequence of commands, failed reallocations included, the pool is a list
      without duplicates of exactly the addresses that a set would hold. */
  lemma {:induction false} PoolIsSet(ops: seq<Op>)
    ensures var s := ApplyAll(ops);
            NoDuplicates(s) && Members(s) == ApplyAllToSet(ops) && |s| == |ApplyAllToSet(ops)|
  {
    if ops != [] {
      PoolIsSet(ops[..|ops| - 1]);
      ApplyRefinesSet(ApplyAll(ops[..|ops| - 1]), ops[|ops| - 1]);
    } else {
      assert Members([]) == {};
    }
    CountIsLength(ApplyAll(ops));
  }

  // ---------- the pool as an array that is reallocated ----------

  class Port {
    var pool: array?<int>
    var count: nat

    /** The array holds the addresses at its front, covers the count rounded up to a whole
        chunk, and is there exactly when there are addresses. */
    ghost predicate Valid()
      reads this, pool
    {
      && (pool == null <==> count == 0)
      && (pool != null ==> pool.Length >= RoundUp(count) && NoDuplicates(pool[..count]))
    }

    ghost function Contents(): seq<int>
      requires pool != null ==> count <= pool.Length
      reads this, pool
    {
      if pool == null then [] else pool[..count]
    }

    constructor ()
      ensures Valid() && Contents() == []
    {
      pool, count := null, 0;
    }

    /** Room for one more address; the new last entry is whatever the memory holds. */
    method Extend(allocates: bool) returns (ok: bool)
      requires Valid()
      modifies this
      ensures ok == (old(count) % MCAST_POOL_INC != 0 || allocates)
      ensures !ok ==> pool == old(pool) && count == old(count)
      ensures ok ==> pool != null && count == old(count) + 1 && pool.Length >= RoundUp(count)
      ensures ok ==> pool[..old(count)] == old(Contents())
      ensures pool != old(pool) ==> fresh(pool)
    {
      RoundUpNext(count);
      if count % MCAST_POOL_INC != 0 {
        count := count + 1;
        return true;
      }
      if !allocates {
        return false;
      }
      pool := Reallocate(count + MCAST_POOL_INC);
      count := count + 1;
      return true;
    }

    /** realloc: a larger array that begins with the old contents. */
    method Reallocate(size: nat) returns (bigger: array<int>)
      requires Valid() && count <= size
      ensures fresh(bigger) && bigger.Length == size && bigger[..count] == Contents()
    {
      bigger := new int[size];
      if pool != null {
        var p: array<int> := pool;
        RoundUpCovers(count);
        for i := 0 to count
          invariant bigger[..i] == p[..i]
        {
          bigger[i] := p[i];
        }
      }
    }

    method Search(addr: int) returns (i: nat)
      requires Valid()
      ensures i == IndexOf(Contents(), addr)
    {
      i := 0;
      while i < count
        invariant i <= count && forall j :: 0 <= j < i ==> pool[j] != addr
      {
        if pool[i] == addr {
          break;
        }
        i := i + 1;
      }
      IndexUnique(Contents(), addr, i);
    }

    method AddAddress(addr: int, allocates: bool)
      requires Valid()
      modifies this, pool
      ensures Valid() && Contents() == Apply(old(Contents()), Add(addr, allocates))
      ensures pool != old(pool) ==> fresh(pool)
    {
      var i := Search(addr);
      if i < count {
        return;
      }
      var ok := Extend(allocates);
      if !ok {
        return;
      }
      pool[i] := addr;
      ApplyRefinesSet(old(Contents()), Add(addr, allocates));
      assert Contents() == old(Contents()) + [addr];
    }

    method RemoveAddress(addr: int)
      requires Valid()
      modifies this, pool
      ensures Valid() && Contents() == Apply(old(Contents()), Remove(addr))
    {
      var i := Search(addr);
      if i == count {
        return;
      }
      ApplyRefinesSet(Contents(), Remove(addr));
      PoolRemove(i);
    }

    method PoolRemove(i: nat)
      requires pool != null && i < count && pool.Length >= RoundUp(count)
      modifies this, pool
      ensures count == old(count) - 1 && (pool == null <==> count == 0)
      ensures pool != null ==> pool == old(pool)
      ensures Contents() == old(Contents())[..i] + old(Contents())[i + 1..]
    {
      count := count - 1;
      if i == count {
        if count == 0 {
          pool := null;
        }
        return;
      }
      forall k | i <= k < count {
        pool[k] := pool[k + 1];
      }
    }
  }

  /** The count rounded up to whole chunks. */
  function RoundUp(count: nat): nat
  {
    (count + MCAST_POOL_INC - 1) / MCAST_POOL_INC * MCAST_POOL_INC
  }

  lemma RoundUpCovers(count: nat)
    ensures count <= RoundUp(count)
  {
  }

  lemma RoundUpNext(count: nat)
    ensures RoundUp(count + 1) == if count % MCAST_POOL_INC == 0 then count + MCAST_POOL_INC else RoundUp(count)
  {
  }

  lemma IndexUnique(s: seq<int>, x: int, i: nat)
    requires i <= |s| && (i < |s| ==> s[i] == x) && forall j :: 0 <= j < i ==> s[j] != x
    ensures i == IndexOf(s, x)
  {
  }
}
