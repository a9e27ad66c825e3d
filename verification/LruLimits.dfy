/**
  Why the inclusion theorems of modules Recency and Inclusion ask for what they ask: without one size per key,
  without sizes that fit the smaller total budget, or - for hits - without freshness, a larger budget can lose. One
  trace of the whole cache for each, with objects of the sizes charged.
*/
module LruLimits {
  import opened Sums
  import opened Objects
  import opened Recency
  import opened CacheSpec
  import opened Inclusion

  function Zeros(n: nat): (b: seq<Byte>)
    ensures |b| == n
  {
    seq(n, _ => 0)
  }

  /** An object of that size without headers, stored at 0 and servable until `ttl`. */
  function Sample(ttl: int, size: nat): Object
    requires ENTRY_OVERHEAD <= size
  {
    Object(200, map[], Zeros(size - ENTRY_OVERHEAD), 0, ttl, 0)
  }

  lemma SampleSize(ttl: int, size: nat)
    requires ENTRY_OVERHEAD <= size
    ensures Sample(ttl, size).Size() == size
  {
    assert HeaderCost(map[]) == map[];
    SumMapEmpty(HeaderCost(map[]));
  }

  lemma StillServable(ttl: int, size: nat, now: int)
    requires ENTRY_OVERHEAD <= size
    ensures Sample(ttl, size).Evictable(now) <==> now > ttl
  {
  }

  function Ask(k: Key, ttl: int, size: nat, now: int): (r: Demand)
    requires ENTRY_OVERHEAD <= size
  {
    Demand(k, Sample(ttl, size), size, now)
  }

  lemma AskFacts(k: Key, ttl: int, size: nat, now: int)
    requires ENTRY_OVERHEAD <= size
    ensures var r := Ask(k, ttl, size, now);
            && r.key == k && r.size == size == r.obj.Size() && r.now == now
            && forall later :: r.obj.Evictable(later) <==> later > ttl
  {
    SampleSize(ttl, size);
  }

  /** What a request leaves in a shard when it misses. */
  function Held(k: Key, ttl: int, size: nat): Entry
    requires ENTRY_OVERHEAD <= size
  {
    Entry(k, Sample(ttl, size), size)
  }

  // ----- small shards, computed -----

  lemma OneEntry(a: Entry)
    ensures Bytes([a]) == a.size
  {
    assert [a][..0] == [];
  }

  lemma TwoEntries(a: Entry, b: Entry)
    ensures Bytes([a, b]) == a.size + b.size
  {
    OneEntry(a);
    assert [a, b][..1] == [a];
  }

  lemma ThreeEntries(a: Entry, b: Entry, c: Entry)
    ensures Bytes([a, b, c]) == a.size + b.size + c.size
  {
    TwoEntries(a, b);
    assert [a, b, c][..2] == [a, b];
  }

  /** Inserting into an empty shard. */
  lemma InsertFirst(a: Entry, share: int)
    ensures Insert([], a, share) == [a]
  {
    assert [a] + [] == [a];
  }

  lemma WithoutAbsent(a: Entry, k: Key)
    requires a.key != k
    ensures Without([a], k) == [a]
  {
    assert [a][1..] == [];
  }

  /** Inserting a second key: the first stays iff both fit. */
  lemma InsertSecond(a: Entry, b: Entry, share: int)
    requires a.key != b.key
    ensures Insert([a], b, share) == if a.size + b.size <= share then [b, a] else [b]
  {
    var one, two := [b], [b, a];
    WithoutAbsent(a, b.key);
    TwoEntries(b, a);
    assert [b] + [a] == two && two[..|two| - 1] == one && two[|two| - 1] == a;
    assert Evict(one, share, Some(b)) == one;
  }

  /** Inserting a third key when the first fits beside it. */
  lemma InsertThird(a: Entry, b: Entry, c: Entry, share: int)
    requires a.key != c.key && b.key != c.key && a.size + c.size <= share
    ensures Insert([a, b], c, share) == if a.size + b.size + c.size <= share then [c, a, b] else [c, a]
  {
    var two, three := [c, a], [c, a, b];
    WithoutAbsent(b, c.key);
    assert [a, b][1..] == [b] && [a] + [b] == [a, b];
    assert Without([a, b], c.key) == [a, b];
    ThreeEntries(c, a, b);
    TwoEntries(c, a);
    assert [c] + [a, b] == three && three[..|three| - 1] == two && three[|three| - 1] == b;
    assert Evict(two, share, Some(c)) == two;
  }

  lemma WithoutSecond(x: Entry, y: Entry)
    requires x.key != y.key
    ensures Without([x, y], y.key) == [x] && Find([x, y], y.key) == Some(y)
  {
    assert [x, y][1..] == [y] && [y][1..] == [];
    assert [x] + [] == [x];
  }

  // ----- from one shard to the whole cache -----

  ghost predicate InShard(trace: seq<Demand>, i: nat) {
    forall j :: 0 <= j < |trace| ==> ShardOf(trace[j].key) == i
  }

  lemma {:induction false} WholeTraceInShard(trace: seq<Demand>, i: nat)
    requires InShard(trace, i)
    ensures OfShard(trace, i) == trace
  {
    if trace != [] {
      hide OfShard, ShardOf;
      var n := |trace| - 1;
      WholeTraceInShard(trace[..n], i);
      OfShardSnoc(trace, n, i);
      assert trace[..n] + [trace[n]] == trace;
    }
  }

  /** Whether the cache, after these requests, finds the key at that moment. */
  ghost predicate Finds(budget: int, trace: seq<Demand>, k: Key, now: int) {
    Get(Filled(budget, trace), k, now).1.Some?
  }

  /** When all requests go to one shard, the cache is that shard's run. */
  lemma OneShard(budget: int, trace: seq<Demand>, r: Demand)
    requires Measured(trace) && InShard(trace, ShardOf(r.key))
    ensures Filled(budget, trace).lists[ShardOf(r.key)] == DemandRun(budget, trace, |trace|)
    ensures Finds(budget, trace, r.key, r.now) <==> Hit(DemandRun(budget, trace, |trace|), r)
  {
    hide DemandRun, Filled, GetShard, Get;
    WholeTraceInShard(trace, ShardOf(r.key));
    ShardRunsItsOwn(budget, trace, ShardOf(r.key));
    GetCounts(Filled(budget, trace), r.key, r.now);
  }

  const U := ENTRY_OVERHEAD
  const SMALL := 5 * U * SHARDS   // 1280 bytes a shard
  const LARGE := 11 * U * SHARDS  // 2816 bytes a shard

  /** A key whose size changes between fetches: the small cache refetched A smaller, the large one kept it big. */
  function Resized(a: Key, b: Key, c: Key): seq<Demand> {
    [Ask(a, 100, 10 * U, 0), Ask(b, 100, U, 0), Ask(a, 100, U, 0), Ask(c, 100, U, 0)]
  }

  lemma ResizedSmall(a: Key, b: Key, c: Key)
    requires a != b && a != c && b != c
    ensures DemandRun(SMALL, Resized(a, b, c), 4) == [Held(c, 100, U), Held(a, 100, U), Held(b, 100, U)]
  {
    hide Insert, Without, Evict, Sample;
    var t, share := Resized(a, b, c), SMALL / SHARDS;
    var a10, a1, b1, c1 := Held(a, 100, 10 * U), Held(a, 100, U), Held(b, 100, U), Held(c, 100, U);
    InsertFirst(a10, share);
    assert DemandRun(SMALL, t, 1) == [a10];
    InsertSecond(a10, b1, share);
    assert DemandRun(SMALL, t, 2) == [b1];
    InsertSecond(b1, a1, share);
    assert DemandRun(SMALL, t, 3) == [a1, b1];
    InsertThird(a1, b1, c1, share);
  }

  lemma ResizedLarge(a: Key, b: Key, c: Key)
    requires a != b && a != c && b != c
    ensures DemandRun(LARGE, Resized(a, b, c), 4) == [Held(c, 100, U), Held(a, 100, 10 * U)]
  {
    hide Insert, Evict, Zeros;
    var t, share := Resized(a, b, c), LARGE / SHARDS;
    var a10, b1, c1 := Held(a, 100, 10 * U), Held(b, 100, U), Held(c, 100, U);
    InsertFirst(a10, share);
    assert DemandRun(LARGE, t, 1) == [a10];
    InsertSecond(a10, b1, share);
    assert DemandRun(LARGE, t, 2) == [b1, a10];
    WithoutSecond(b1, a10);
    assert DemandRun(LARGE, t, 3) == [a10, b1];
    InsertThird(a10, b1, c1, share);
  }

  lemma ResizedMeasured(a: Key, b: Key, c: Key)
    ensures Measured(Resized(a, b, c)) && NeverStale(Resized(a, b, c))
  {
    hide Ask, Object.Size, Object.Evictable;
    AskFacts(a, 100, 10 * U, 0);
    AskFacts(b, 100, U, 0);
    AskFacts(a, 100, U, 0);
    AskFacts(c, 100, U, 0);
  }

  /** Without one size per key, inclusion fails, and the larger cache misses what the smaller one finds. */
  lemma NeedsOneSizePerKey(a: Key, b: Key, c: Key)
    requires a != b && a != c && b != c && ShardOf(a) == ShardOf(b) == ShardOf(c)
    ensures var t := Resized(a, b, c);
            && Measured(t) && NeverStale(t) && (forall i :: 0 <= i < |t| ==> t[i].size <= SMALL)
            && !PrefixShape(Filled(SMALL, t).lists[ShardOf(a)], Filled(LARGE, t).lists[ShardOf(a)])
            && Finds(SMALL, t, b, 0) && !Finds(LARGE, t, b, 0)
  {
    hide DemandRun, Filled, Finds, Sample, Measured, NeverStale;
    var t, r := Resized(a, b, c), Ask(b, 100, U, 0);
    ResizedMeasured(a, b, c);
    OneShard(SMALL, t, r);
    OneShard(LARGE, t, r);
    ResizedSmall(a, b, c);
    ResizedLarge(a, b, c);
    StillServable(100, U, 0);
    var s := DemandRun(SMALL, t, 4);
    assert s[2] in s && s[2].key == b;
  }

  /** An object between the two total budgets: refused under the smaller, it displaces everything under the larger. */
  function Oversized(a: Key, b: Key): seq<Demand> {
    [Ask(b, 100, U, 0), Ask(a, 100, 2000 * U, 0)]
  }

  lemma OversizedRuns(a: Key, b: Key)
    requires a != b
    ensures DemandRun(SMALL, Oversized(a, b), 2) == [Held(b, 100, U)]
    ensures DemandRun(LARGE, Oversized(a, b), 2) == [Held(a, 100, 2000 * U)]
  {
    hide Insert, Evict, Without, Sample;
    var t := Oversized(a, b);
    var a2000, b1 := Held(a, 100, 2000 * U), Held(b, 100, U);
    InsertFirst(b1, SMALL / SHARDS);
    assert DemandRun(SMALL, t, 1) == [b1];
    InsertFirst(b1, LARGE / SHARDS);
    InsertSecond(b1, a2000, LARGE / SHARDS);
    assert DemandRun(LARGE, t, 1) == [b1];
  }

  lemma OversizedMeasured(a: Key, b: Key)
    requires a != b
    ensures Measured(Oversized(a, b)) && NeverStale(Oversized(a, b))
    ensures FixedSizes(Oversized(a, b), k => if k == a then 2000 * U else U, LARGE)
  {
    hide Ask, Object.Size, Object.Evictable;
    AskFacts(b, 100, U, 0);
    AskFacts(a, 100, 2000 * U, 0);
  }

  /** Without sizes that fit the smaller total budget, inclusion fails, and so does the hit theorem. */
  lemma NeedsSizesThatFit(a: Key, b: Key)
    requires a != b && ShardOf(a) == ShardOf(b)
    ensures var t := Oversized(a, b);
            && Measured(t) && NeverStale(t) && FixedSizes(t, k => if k == a then 2000 * U else U, LARGE)
            && !PrefixShape(Filled(SMALL, t).lists[ShardOf(a)], Filled(LARGE, t).lists[ShardOf(a)])
            && Finds(SMALL, t, b, 0) && !Finds(LARGE, t, b, 0)
  {
    hide DemandRun, Filled, Finds, Sample, Measured, NeverStale, FixedSizes;
    var t, r := Oversized(a, b), Ask(b, 100, U, 0);
    OversizedMeasured(a, b);
    OneShard(SMALL, t, r);
    OneShard(LARGE, t, r);
    OversizedRuns(a, b);
    StillServable(100, U, 0);
    assert DemandRun(SMALL, t, 2)[0].key != DemandRun(LARGE, t, 2)[0].key;
  }

  /** The small cache lost A and refetched it later; the large one still holds the older, sooner expiring copy. */
  function Expiring(a: Key, b: Key): seq<Demand> {
    [Ask(a, 1, 4 * U, 0), Ask(b, 100, 4 * U, 0), Ask(a, 100, 4 * U, 1)]
  }

  lemma ExpiringSmall(a: Key, b: Key)
    requires a != b
    ensures DemandRun(SMALL, Expiring(a, b), 3) == [Held(a, 100, 4 * U)]
  {
    hide Insert, Evict, Without, Zeros;
    var t, share := Expiring(a, b), SMALL / SHARDS;
    var early, late, b4 := Held(a, 1, 4 * U), Held(a, 100, 4 * U), Held(b, 100, 4 * U);
    InsertFirst(early, share);
    assert DemandRun(SMALL, t, 1) == [early];
    InsertSecond(early, b4, share);
    assert DemandRun(SMALL, t, 2) == [b4];
    InsertSecond(b4, late, share);
  }

  lemma ExpiringLarge(a: Key, b: Key)
    requires a != b
    ensures DemandRun(LARGE, Expiring(a, b), 3) == [Held(a, 1, 4 * U), Held(b, 100, 4 * U)]
  {
    hide Insert, Evict, Zeros;
    var t, share := Expiring(a, b), LARGE / SHARDS;
    var early, b4 := Held(a, 1, 4 * U), Held(b, 100, 4 * U);
    InsertFirst(early, share);
    assert DemandRun(LARGE, t, 1) == [early];
    InsertSecond(early, b4, share);
    assert DemandRun(LARGE, t, 2) == [b4, early];
    WithoutSecond(b4, early);
  }

  lemma ExpiringMeasured(a: Key, b: Key)
    ensures Measured(Expiring(a, b)) && FixedSizes(Expiring(a, b), k => 4 * U, SMALL)
  {
    hide Ask, Object.Size;
    AskFacts(a, 1, 4 * U, 0);
    AskFacts(b, 100, 4 * U, 0);
    AskFacts(a, 100, 4 * U, 1);
  }

  /** When objects expire, inclusion still holds but the larger cache can miss what the smaller one finds. */
  lemma HitsNeedFreshness(a: Key, b: Key)
    requires a != b && ShardOf(a) == ShardOf(b)
    ensures var t := Expiring(a, b);
            && Measured(t) && FixedSizes(t, k => 4 * U, SMALL)
            && PrefixShape(Filled(SMALL, t).lists[ShardOf(a)], Filled(LARGE, t).lists[ShardOf(a)])
            && Finds(SMALL, t, a, 2) && !Finds(LARGE, t, a, 2)
  {
    hide DemandRun, Filled, Finds, Sample, Measured, FixedSizes;
    var t, r := Expiring(a, b), Ask(a, 100, 4 * U, 2);
    ExpiringMeasured(a, b);
    OneShard(SMALL, t, r);
    OneShard(LARGE, t, r);
    ExpiringSmall(a, b);
    ExpiringLarge(a, b);
    StillServable(1, 4 * U, 2);
    StillServable(100, 4 * U, 2);
  }

  /** Keys as these traces need them exist. */
  lemma KeysOfOneShard()
    ensures exists a: Key, b: Key, c: Key :: a != b && a != c && b != c && ShardOf(a) == ShardOf(b) == ShardOf(c)
  {
    var zeros: string := seq(64, _ => '0');
    var a, b, c: Key := zeros, zeros[63 := '1'], zeros[63 := '2'];
    assert a[63] == '0' && b[63] == '1' && c[63] == '2';
    assert ShardOf(a) == ShardOf(b) == ShardOf(c);
  }
}
