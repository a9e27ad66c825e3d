/**
  LRU inclusion for the whole cache (internal/cache/cache.go, internal/proxy/proxy.go): requests for any keys, each
  a Get and, on a miss, a Set, on all 256 shards at once. Each shard runs its own requests as module Recency
  describes, so its theorems carry over to the whole cache and to its hit counter.
*/
module Inclusion {
  import opened Sums
  import opened Objects
  import opened Recency
  import opened CacheSpec

  /** The sizes charged are the measured ones. */
  ghost predicate Measured(trace: seq<Demand>) {
    forall i :: 0 <= i < |trace| ==> trace[i].size == trace[i].obj.Size()
  }

  /** The calls that the requests make: a Set follows only a Get that missed. */
  ghost function FillOps(budget: int, trace: seq<Demand>): seq<Op> {
    if trace == [] then []
    else
      var n := |trace| - 1;
      var before, r := FillOps(budget, trace[..n]), trace[n];
      var got := before + [DoGet(r.key, r.now)];
      if Get(Run(budget, before), r.key, r.now).1.Some? then got else got + [DoSet(r.key, r.obj)]
  }

  ghost function Filled(budget: int, trace: seq<Demand>): (st: State)
    ensures |st.lists| == SHARDS
  {
    Run(budget, FillOps(budget, trace))
  }

  /** The requests that shard i sees. */
  function OfShard(trace: seq<Demand>, i: nat): seq<Demand> {
    if trace == [] then []
    else
      var n := |trace| - 1;
      OfShard(trace[..n], i) + if ShardOf(trace[n].key) == i then [trace[n]] else []
  }

  lemma RunSnoc(budget: int, ops: seq<Op>, op: Op)
    ensures Run(budget, ops + [op]) == Apply(Run(budget, ops), op)
  {
    assert (ops + [op])[..|ops|] == ops;
  }

  lemma FilledSnoc(budget: int, trace: seq<Demand>, n: nat)
    requires |trace| == n + 1
    ensures var (st, r) := (Filled(budget, trace[..n]), trace[n]);
            var (got, hit, _) := Get(st, r.key, r.now);
            Filled(budget, trace) == if hit.Some? then got else Set(got, r.key, r.obj)
  {
    hide Run, Get, Set;
    var before, r := FillOps(budget, trace[..n]), trace[n];
    RunSnoc(budget, before, DoGet(r.key, r.now));
    RunSnoc(budget, before + [DoGet(r.key, r.now)], DoSet(r.key, r.obj));
  }

  /** What one shard holds depends on its own requests only; later ones do not change the past. */
  lemma {:induction false} DemandRunPrefix(budget: int, trace: seq<Demand>, r: Demand, n: nat)
    requires n <= |trace|
    ensures DemandRun(budget, trace + [r], n) == DemandRun(budget, trace, n)
  {
    hide DemandFill;
    if n > 0 {
      DemandRunPrefix(budget, trace, r, n - 1);
    }
  }

  lemma DemandRunSnoc(budget: int, trace: seq<Demand>, r: Demand)
    ensures DemandRun(budget, trace + [r], |trace| + 1) == DemandFill(DemandRun(budget, trace, |trace|), budget, r)
  {
    hide DemandFill;
    DemandRunPrefix(budget, trace, r, |trace|);
  }

  lemma OfShardSnoc(trace: seq<Demand>, n: nat, i: nat)
    requires |trace| == n + 1
    ensures OfShard(trace, i) ==
            if ShardOf(trace[n].key) == i then OfShard(trace[..n], i) + [trace[n]] else OfShard(trace[..n], i)
  {
    assert OfShard(trace[..n], i) + [] == OfShard(trace[..n], i);
  }

  lemma GetCounts(st: State, k: Key, now: int)
    requires |st.lists| == SHARDS
    ensures var (got, hit, _) := Get(st, k, now);
            && |got.lists| == SHARDS && got.budget == st.budget
            && (hit.Some? <==> GetShard(st.lists[ShardOf(k)], k, now).1.Some?)
            && got.hits == st.hits + if hit.Some? then 1 else 0
  {
  }

  lemma SetCounts(st: State, k: Key, o: Object)
    requires |st.lists| == SHARDS
    ensures Set(st, k, o).budget == st.budget && Set(st, k, o).hits == st.hits
  {
    hide Insert;
  }

  lemma {:induction false} FilledInv(budget: int, trace: seq<Demand>)
    ensures Inv(Filled(budget, trace)) && Filled(budget, trace).budget == budget
  {
    hide Run, Inv, Get, Set;
    RunInv(budget, FillOps(budget, trace));
    if trace == [] {
      EmptyRun(budget);
    } else {
      var n := |trace| - 1;
      var r, st := trace[n], Filled(budget, trace[..n]);
      FilledInv(budget, trace[..n]);
      FilledSnoc(budget, trace, n);
      GetCounts(st, r.key, r.now);
      SetCounts(Get(st, r.key, r.now).0, r.key, r.obj);
    }
  }

  lemma EmptyRun(budget: int)
    ensures Run(budget, []) == Init(budget)
  {
  }

  /** Every shard is what its own requests make of it. */
  lemma {:induction false} ShardRunsItsOwn(budget: int, trace: seq<Demand>, i: nat)
    requires Measured(trace) && i < SHARDS
    ensures Filled(budget, trace).lists[i] == DemandRun(budget, OfShard(trace, i), |OfShard(trace, i)|)
  {
    hide Run, Inv, Get, Set, DemandFill;
    if trace == [] {
      EmptyRun(budget);
    } else {
      hide Filled, OfShard, DemandRun;
      var n := |trace| - 1;
      var r, st, own := trace[n], Filled(budget, trace[..n]), OfShard(trace[..n], i);
      ShardRunsItsOwn(budget, trace[..n], i);
      FilledInv(budget, trace[..n]);
      FilledSnoc(budget, trace, n);
      DemandFillIsGetThenSet(st, r.key, r.obj, r.now);
      OfShardSnoc(trace, n, i);
      DemandRunSnoc(budget, own, r);
    }
  }

  /** A request is a hit of the whole cache exactly when it is one of its shard's own run. */
  lemma FilledHits(budget: int, trace: seq<Demand>, n: nat)
    requires Measured(trace) && |trace| == n + 1
    ensures var own := OfShard(trace[..n], ShardOf(trace[n].key));
            Filled(budget, trace).hits ==
            Filled(budget, trace[..n]).hits + if Hit(DemandRun(budget, own, |own|), trace[n]) then 1 else 0
  {
    hide Run, Get, Set, DemandRun, GetShard;
    var r, st := trace[n], Filled(budget, trace[..n]);
    FilledSnoc(budget, trace, n);
    ShardRunsItsOwn(budget, trace[..n], ShardOf(r.key));
    GetCounts(st, r.key, r.now);
    SetCounts(Get(st, r.key, r.now).0, r.key, r.obj);
  }

  lemma {:induction false} OwnFromTrace(trace: seq<Demand>, i: nat)
    ensures forall r :: r in OfShard(trace, i) ==> r in trace && ShardOf(r.key) == i
  {
    if trace != [] {
      OwnFromTrace(trace[..|trace| - 1], i);
    }
  }

  lemma OwnKeeps(trace: seq<Demand>, sizeOf: Key -> int, b: int, i: nat)
    ensures FixedSizes(trace, sizeOf, b) ==> FixedSizes(OfShard(trace, i), sizeOf, b)
    ensures NeverStale(trace) ==> NeverStale(OfShard(trace, i))
  {
    hide OfShard;
    var own := OfShard(trace, i);
    OwnFromTrace(trace, i);
    forall j | 0 <= j < |own| ensures own[j] in trace {
    }
  }

  /**
    LRU inclusion for the whole cache: after any requests with one size per key, each within the smaller
    budget, every shard under the smaller budget is a prefix of that shard under the larger one.
  */
  lemma CacheInclusion(b: int, B: int, trace: seq<Demand>, sizeOf: Key -> int)
    requires Measured(trace) && b <= B && FixedSizes(trace, sizeOf, b)
    ensures forall i :: 0 <= i < SHARDS ==> PrefixShape(Filled(b, trace).lists[i], Filled(B, trace).lists[i])
  {
    hide FixedSizes, Measured, PrefixShape, Filled, DemandRun, OfShard;
    forall i | 0 <= i < SHARDS ensures PrefixShape(Filled(b, trace).lists[i], Filled(B, trace).lists[i]) {
      var own := OfShard(trace, i);
      ShardRunsItsOwn(b, trace, i);
      ShardRunsItsOwn(B, trace, i);
      OwnKeeps(trace, sizeOf, b, i);
      LruInclusion(b, B, own, |own|, sizeOf);
    }
  }

  /** When nothing goes past its stale window, the hit counter of the whole cache is monotone in the budget. */
  lemma {:induction false} CountedHitsGrow(b: int, B: int, trace: seq<Demand>, sizeOf: Key -> int)
    requires Measured(trace) && b <= B && FixedSizes(trace, sizeOf, b) && NeverStale(trace)
    ensures Filled(b, trace).hits <= Filled(B, trace).hits
  {
    hide Filled, DemandRun, Hit, OfShard;
    if trace == [] {
      NothingFilled(b);
      NothingFilled(B);
    } else {
      var n := |trace| - 1;
      CountedHitsGrow(b, B, trace[..n], sizeOf);
      FilledHits(b, trace, n);
      FilledHits(B, trace, n);
      OwnHitStays(b, B, trace, n, sizeOf);
    }
  }

  lemma NothingFilled(budget: int)
    ensures Filled(budget, []).hits == 0
  {
    EmptyRun(budget);
  }

  lemma OwnHitStays(b: int, B: int, trace: seq<Demand>, n: nat, sizeOf: Key -> int)
    requires b <= B && FixedSizes(trace, sizeOf, b) && NeverStale(trace) && |trace| == n + 1
    ensures var own := OfShard(trace[..n], ShardOf(trace[n].key));
            Hit(DemandRun(b, own, |own|), trace[n]) ==> Hit(DemandRun(B, own, |own|), trace[n])
  {
    hide DemandRun, Hit, FixedSizes, NeverStale;
    var r := trace[n];
    var own := OfShard(trace[..n], ShardOf(r.key));
    OwnKeeps(trace, sizeOf, b, ShardOf(r.key));
    OfShardSnoc(trace, n, ShardOf(r.key));
    DemandRunPrefix(b, own, r, |own|);
    DemandRunPrefix(B, own, r, |own|);
    HitStaysHit(b, B, own + [r], |own|, sizeOf);
  }
}
