/** How the forwarding streams are shared out among the forwarding cores. */
module StreamShares {
  import opened Products

  const MAX_CORES: nat := 0x100
  const MAX_STREAMS: nat := 0x1_0000

  /** The first plain cores take per streams each, the remaining extra cores one more. */
  datatype Plan = Plan(per: nat, plain: nat, extra: nat) {
    function Cores(): nat { plain + extra }

    function Size(core: nat): nat { if core < plain then per else per + 1 }

    /** The first stream of a core: what the cores before it have taken. */
    function First(core: nat): nat
    {
      if core == 0 then 0 else First(core - 1) + Size(core - 1)
    }

    predicate Runs(core: nat, stream: nat)
    {
      core < Cores() && First(core) <= stream < First(core) + Size(core)
    }

    ghost predicate IsRun(stream: nat)
    {
      exists core: nat :: Runs(core, stream)
    }

    /** Every stream is run by exactly one core, and no core runs a stream that is not there. */
    ghost predicate Tiles(streams: nat)
    {
      && (forall core: nat, s: nat :: Runs(core, s) ==> s < streams)
      && (forall s: nat :: s < streams ==> IsRun(s))
      && (forall i: nat, j: nat, s: nat :: Runs(i, s) && Runs(j, s) ==> i == j)
    }
  }

  /** The plan for the given numbers of streams and cores. */
  function Share(streams: nat, cores: nat): (p: Plan)
    requires cores > 0
    ensures p.Cores() == cores
  {
    if streams <= cores then Plan(1, cores, 0) else Plan(streams / cores, cores - streams % cores, streams % cores)
  }

  lemma {:induction false} FirstInOrder(p: Plan, i: nat, j: nat)
    requires i <= j
    ensures p.First(i) <= p.First(j)
  {
    if i < j {
      FirstInOrder(p, i, j - 1);
    }
  }

  lemma OneCoreRuns(p: Plan, i: nat, j: nat, stream: nat)
    requires p.Runs(i, stream) && p.Runs(j, stream)
    ensures i == j
  {
    if i < j {
      FirstInOrder(p, i + 1, j);
    } else if j < i {
      FirstInOrder(p, j + 1, i);
    }
  }

  lemma {:induction false} SomeCoreRuns(p: Plan, stream: nat, upTo: nat) returns (core: nat)
    requires upTo <= p.Cores() && stream < p.First(upTo)
    ensures p.Runs(core, stream)
  {
    if p.First(upTo - 1) <= stream {
      core := upTo - 1;
    } else {
      core := SomeCoreRuns(p, stream, upTo - 1);
    }
  }

  lemma {:induction false} FirstIsProduct(p: Plan, core: nat)
    ensures p.First(core) == core * p.per + (if core <= p.plain then 0 else core - p.plain)
  {
    if core > 0 {
      FirstIsProduct(p, core - 1);
      assert core * p.per == (core - 1) * p.per + p.per;
    }
  }

  /** All the cores together take every stream, or one each when there are fewer streams. */
  lemma TotalTaken(streams: nat, cores: nat)
    requires cores > 0
    ensures Share(streams, cores).First(cores) == if streams <= cores then cores else streams
  {
    FirstIsProduct(Share(streams, cores), cores);
    if streams > cores {
      assert streams == cores * (streams / cores) + streams % cores;
    }
  }

  lemma WholeRange(p: Plan, streams: nat)
    requires p.First(p.Cores()) == streams
    ensures p.Tiles(streams)
  {
    forall core: nat, s: nat | p.Runs(core, s)
      ensures s < streams
    {
      FirstInOrder(p, core + 1, p.Cores());
    }
    forall s: nat
      ensures s < streams ==> p.IsRun(s)
    {
      if s < streams {
        var core := SomeCoreRuns(p, s, p.Cores());
      }
    }
    forall i: nat, j: nat, s: nat | p.Runs(i, s) && p.Runs(j, s)
      ensures i == j
    {
      OneCoreRuns(p, i, j, s);
    }
  }

  /** The shares tile the streams exactly when there are no more cores than streams. */
  lemma TilesIff(streams: nat, cores: nat)
    requires cores > 0
    ensures Share(streams, cores).Tiles(streams) <==> cores <= streams
  {
    TotalTaken(streams, cores);
    var p := Share(streams, cores);
    if cores <= streams {
      WholeRange(p, streams);
    } else {
      var core := SomeCoreRuns(p, streams, cores);
    }
  }

  lemma QuotientPositive(streams: nat, cores: nat)
    requires streams > cores > 0
    ensures 1 <= streams / cores <= streams
  {
    var q, r := streams / cores, streams % cores;
    assert streams == cores * q + r;
    Product(q, cores);
  }

  /** No core has more than one stream more than another, none is without, and
      the larger shares go to the later cores. */
  lemma SharesAreEven(streams: nat, cores: nat, i: nat, j: nat)
    requires i < cores && j < cores
    ensures var p := Share(streams, cores); 1 <= p.Size(i) <= p.Size(j) + 1
    ensures i <= j ==> Share(streams, cores).Size(i) <= Share(streams, cores).Size(j)
  {
    if streams > cores {
      QuotientPositive(streams, cores);
    }
  }

  /** With as many streams as cores, each core runs the stream of its own number. */
  lemma OwnStream(cores: nat, core: nat, stream: nat)
    requires core < cores
    ensures Share(cores, cores).Runs(core, stream) <==> stream == core
  {
    FirstIsProduct(Share(cores, cores), core);
  }

  lemma NoWrap(streams: nat, cores: nat, core: nat)
    requires 0 < cores < MAX_CORES && streams < MAX_STREAMS && core <= cores
    ensures Share(streams, cores).First(core) < MAX_STREAMS
  {
    TotalTaken(streams, cores);
    FirstInOrder(Share(streams, cores), core, cores);
  }

  /** One stream more, as a 16-bit number. */
  function MoreThan(perCore: nat): nat
  {
    (perCore + 1) % MAX_STREAMS
  }

  /** Everything stays within 16 bits: the running index, and the larger size if it is used. */
  lemma ShareFits(streams: nat, cores: nat)
    requires 0 < cores < MAX_CORES && streams < MAX_STREAMS
    ensures var p := Share(streams, cores);
            && p.extra < cores && (p.extra > 0 ==> MoreThan(p.per) == p.per + 1)
            && p.First(cores - p.extra) < MAX_STREAMS && p.First(cores) < MAX_STREAMS
  {
    var p := Share(streams, cores);
    NoWrap(streams, cores, cores - p.extra);
    NoWrap(streams, cores, cores);
    if p.extra > 0 {
      FirstInOrder(p, cores - 1, cores);
      assert p.First(cores) == p.First(cores - 1) + (p.per + 1);
    }
  }

  /** The running 16-bit index moves on to the next core. */
  method NextFirst(ghost p: Plan, ghost core: nat, ghost to: nat, sm: nat, size: nat) returns (next: nat)
    requires core < to && p.First(to) < MAX_STREAMS && sm == p.First(core) && size == p.Size(core)
    ensures next == p.First(core + 1)
  {
    FirstInOrder(p, core + 1, to);
    next := (sm + size) % MAX_STREAMS;
  }

  class CoreTable {
    const streamIdx: array<nat>
    const streamNb: array<nat>

    constructor (n: nat)
      ensures fresh(streamIdx) && fresh(streamNb) && Valid() && streamIdx.Length == n
    {
      streamIdx, streamNb := new nat[n], new nat[n];
    }

    ghost predicate Valid()
    {
      streamIdx != streamNb && streamIdx.Length == streamNb.Length
    }

    /** The first n cores hold their shares. */
    ghost predicate Holds(p: Plan, n: nat)
      requires Valid() && n <= streamIdx.Length
      reads streamIdx, streamNb
    {
      && (forall core :: 0 <= core < n ==> streamIdx[core] == p.First(core))
      && (forall core :: 0 <= core < n ==> streamNb[core] == p.Size(core))
    }

    /** Fills the stream range of every core; the 16-bit running index never wraps. */
    method SetupEach(streams: nat, cores: nat)
      requires Valid() && 0 < cores < MAX_CORES && streams < MAX_STREAMS
      requires cores <= streamIdx.Length
      modifies streamIdx, streamNb
      ensures Holds(Share(streams, cores), cores)
    {
      var perCore: nat, extra: nat := 1, 0;
      if streams > cores {
        perCore, extra := streams / cores, streams % cores;
      }
      ghost var p := Share(streams, cores);
      ShareFits(streams, cores);
      var sm := FillRun(0, cores - extra, 0, perCore, p);
      sm := FillRun(cores - extra, cores, sm, MoreThan(perCore), p);
    }

    method SetCore(core: nat, idx: nat, nb: nat, ghost p: Plan)
      requires Valid() && core < streamIdx.Length && Holds(p, core)
      requires idx == p.First(core) && nb == p.Size(core)
      modifies streamIdx, streamNb
      ensures Holds(p, core + 1)
    {
      streamIdx[core], streamNb[core] := idx, nb;
    }

    /** One of the two loops: cores from up to to take size streams each, starting at stream sm. */
    method FillRun(from: nat, to: nat, sm: nat, size: nat, ghost p: Plan) returns (next: nat)
      requires Valid() && from <= to <= streamIdx.Length
      requires Holds(p, from) && sm == p.First(from)
      requires forall core :: from <= core < to ==> p.Size(core) == size
      requires p.First(to) < MAX_STREAMS
      modifies streamIdx, streamNb
      ensures Holds(p, to) && next == p.First(to)
    {
      next := sm;
      for core := from to to
        invariant next == p.First(core) && Holds(p, core)
      {
        SetCore(core, next, size, p);
        next := NextFirst(p, core, to, next, size);
      }
    }
  }
}
