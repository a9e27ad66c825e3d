/**
  One shard seen as a list of entries, most recently used first
  (the `lru` list of internal/cache/cache.go), and what the cache operations do to it.
*/
module Recency {
  import opened Sums
  import opened Objects

  const SHARDS := 256

  predicate IsHex(c: char) {
    '0' <= c <= '9' || 'a' <= c <= 'f'
  }

  predicate IsKey(k: string) {
    |k| == 64 && forall i :: 0 <= i < |k| ==> IsHex(k[i])
  }

  /** The hexadecimal SHA-256 digests that Key returns. */
  type Key = k: string | IsKey(k) witness seq(64, _ => '0')

  function HexByte(b: char): (v: int)
    requires IsHex(b)
    ensures 0 <= v < 16
  {
    if b >= 'a' then (b as int - 'a' as int) + 10 else b as int - '0' as int
  }

  function ShardOf(k: Key): (i: nat)
    ensures i < SHARDS
  {
    HexByte(k[0]) * 16 + HexByte(k[1])
  }

  datatype Entry = Entry(key: Key, obj: Object, size: int)

  function Bytes(l: seq<Entry>): int {
    if l == [] then 0 else Bytes(l[..|l| - 1]) + l[|l| - 1].size
  }

  ghost predicate Distinct(l: seq<Entry>) {
    forall i, j :: 0 <= i < j < |l| ==> l[i].key != l[j].key
  }

  ghost predicate Sized(l: seq<Entry>) {
    forall e :: e in l ==> 0 < e.size && e.size == e.obj.Size()
  }

  ghost predicate Positive(l: seq<Entry>) {
    forall e :: e in l ==> 0 < e.size
  }

  predicate Has(l: seq<Entry>, k: Key) {
    exists e :: e in l && e.key == k
  }

  function Find(l: seq<Entry>, k: Key): (r: Option<Entry>)
    ensures r.Some? <==> Has(l, k)
    ensures r.Some? ==> r.value in l && r.value.key == k
  {
    if l == [] then None
    else if l[0].key == k then Some(l[0])
    else
      assert l == [l[0]] + l[1..];
      Find(l[1..], k)
  }

  /** The list without its (first) entry for k. */
  function Without(l: seq<Entry>, k: Key): seq<Entry> {
    if l == [] then []
    else if l[0].key == k then l[1..]
    else [l[0]] + Without(l[1..], k)
  }

  /** Drop entries from the old end until the rest fits, is empty, or ends in the protected entry. */
  function Evict(l: seq<Entry>, share: int, protect: Option<Entry>): seq<Entry> {
    if Bytes(l) <= share || l == [] || protect == Some(l[|l| - 1]) then l
    else Evict(l[..|l| - 1], share, protect)
  }

  // ----- bytes -----

  lemma {:induction false} BytesConcat(a: seq<Entry>, b: seq<Entry>)
    ensures Bytes(a + b) == Bytes(a) + Bytes(b)
  {
    if b == [] {
      assert a + b == a;
    } else {
      BytesConcat(a, b[..|b| - 1]);
      assert (a + b)[..|a + b| - 1] == a + b[..|b| - 1];
    }
  }

  lemma BytesCons(e: Entry, l: seq<Entry>)
    ensures Bytes([e] + l) == e.size + Bytes(l)
  {
    BytesConcat([e], l);
    assert [e][..0] == [];
  }

  lemma {:induction false} BytesPrefix(l: seq<Entry>, m: nat, n: nat)
    requires m <= n <= |l|
    requires Positive(l)
    ensures 0 <= Bytes(l[..m]) <= Bytes(l[..n])
    ensures m < n ==> Bytes(l[..m]) < Bytes(l[..n])
    decreases n
  {
    if n > 0 {
      assert l[..n][..n - 1] == l[..n - 1];
      assert l[n - 1] in l;
      if m < n {
        BytesPrefix(l, m, n - 1);
      } else {
        BytesPrefix(l, n - 1, n - 1);
      }
    }
  }

  // ----- Without -----

  lemma DistinctTail(l: seq<Entry>)
    requires Distinct(l) && l != []
    ensures Distinct(l[1..]) && !Has(l[1..], l[0].key)
  {
    forall e | e in l[1..] ensures e.key != l[0].key {
      var i :| 0 <= i < |l[1..]| && l[1..][i] == e;
      assert l[i + 1] == e;
    }
  }

  lemma DistinctCons(e: Entry, l: seq<Entry>)
    requires Distinct(l) && !Has(l, e.key)
    ensures Distinct([e] + l)
  {
    forall j | 0 <= j < |l| ensures l[j].key != e.key {
      assert l[j] in l;
    }
  }

  /** Without removes exactly the entry for k. */
  lemma {:induction false} WithoutMembers(l: seq<Entry>, k: Key, e: Entry)
    requires Distinct(l)
    ensures e in Without(l, k) <==> e in l && e.key != k
  {
    if l != [] {
      DistinctTail(l);
      assert l == [l[0]] + l[1..];
      if l[0].key != k {
        WithoutMembers(l[1..], k, e);
      }
    }
  }

  lemma {:induction false} WithoutDistinct(l: seq<Entry>, k: Key)
    requires Distinct(l)
    ensures Distinct(Without(l, k)) && !Has(Without(l, k), k)
  {
    forall e | e in Without(l, k) ensures e.key != k {
      WithoutMembers(l, k, e);
    }
    if l != [] {
      DistinctTail(l);
      WithoutDistinct(l[1..], k);
      if l[0].key != k {
        forall e | e in Without(l[1..], k) ensures e.key != l[0].key {
          WithoutMembers(l[1..], k, e);
        }
        DistinctCons(l[0], Without(l[1..], k));
      }
    }
  }

  lemma {:induction false} WithoutBytes(l: seq<Entry>, k: Key)
    ensures match Find(l, k)
            case None => Without(l, k) == l
            case Some(e) => |Without(l, k)| == |l| - 1 && Bytes(Without(l, k)) == Bytes(l) - e.size
  {
    if l != [] {
      assert l == [l[0]] + l[1..];
      BytesCons(l[0], l[1..]);
      if l[0].key != k {
        WithoutBytes(l[1..], k);
        BytesCons(l[0], Without(l[1..], k));
      }
    }
  }

  lemma WithoutFacts(l: seq<Entry>, k: Key)
    requires Distinct(l)
    ensures Distinct(Without(l, k)) && !Has(Without(l, k), k)
    ensures forall e :: e in Without(l, k) <==> e in l && e.key != k
    ensures match Find(l, k)
            case None => Without(l, k) == l
            case Some(e) => |Without(l, k)| == |l| - 1 && Bytes(Without(l, k)) == Bytes(l) - e.size
  {
    forall e ensures e in Without(l, k) <==> e in l && e.key != k {
      WithoutMembers(l, k, e);
    }
    WithoutDistinct(l, k);
    WithoutBytes(l, k);
  }

  // ----- Evict -----

  lemma {:induction false} EvictIsPrefix(l: seq<Entry>, share: int, protect: Option<Entry>)
    ensures |Evict(l, share, protect)| <= |l|
    ensures Evict(l, share, protect) == l[..|Evict(l, share, protect)|]
  {
    if Evict(l, share, protect) != l {
      EvictIsPrefix(l[..|l| - 1], share, protect);
    }
  }

  /** Eviction without protection keeps exactly the longest prefix that fits. */
  lemma {:induction false} EvictLongest(l: seq<Entry>, share: int)
    requires Positive(l) && 0 <= share
    ensures var r := Evict(l, share, None);
            && |r| <= |l| && r == l[..|r|]
            && forall k :: 0 <= k <= |l| ==> (k <= |r| <==> Bytes(l[..k]) <= share)
  {
    assert l[..|l|] == l;
    if Bytes(l) > share {
      var p := l[..|l| - 1];
      assert forall e :: e in p ==> e in l;
      EvictLongest(p, share);
      forall k | 0 <= k <= |l| ensures k <= |Evict(p, share, None)| <==> Bytes(l[..k]) <= share {
        if k < |l| {
          assert l[..k] == p[..k];
        }
      }
    } else {
      forall k | 0 <= k <= |l| ensures Bytes(l[..k]) <= share {
        BytesPrefix(l, k, |l|);
      }
    }
  }

  /** Eviction protecting the newest entry keeps it, and beyond it exactly the longest prefix that fits. */
  lemma {:induction false} EvictLongestProtected(l: seq<Entry>, share: int)
    requires Positive(l) && l != []
    requires forall i :: 1 <= i < |l| ==> l[i] != l[0]
    ensures 1 <= |Evict(l, share, Some(l[0]))|
    ensures forall k :: 1 <= k <= |l| ==>
              (k <= |Evict(l, share, Some(l[0]))| <==> k == 1 || Bytes(l[..k]) <= share)
  {
    assert l[..|l|] == l;
    if Bytes(l) <= share {
      forall k | 1 <= k <= |l| ensures Bytes(l[..k]) <= share {
        BytesPrefix(l, k, |l|);
      }
    } else if |l| > 1 {
      var p := l[..|l| - 1];
      assert Evict(l, share, Some(l[0])) == Evict(p, share, Some(p[0]));
      EvictIsPrefix(p, share, Some(p[0]));
      EvictLongestProtected(p, share);
      forall k | 1 <= k <= |l| ensures k <= |Evict(p, share, Some(p[0]))| <==> k == 1 || Bytes(l[..k]) <= share {
        if k < |l| {
          assert l[..k] == p[..k];
        }
      }
    }
  }

  // ----- one shard under Set, Get -----

  /** What an accepted Set leaves in the shard. */
  function Insert(l: seq<Entry>, e: Entry, share: int): seq<Entry> {
    Evict([e] + Without(l, e.key), share, Some(e))
  }

  function Touch(l: seq<Entry>, e: Entry): seq<Entry> {
    [e] + Without(l, e.key)
  }

  lemma ConsWithoutFacts(l: seq<Entry>, e: Entry)
    requires Distinct(l)
    ensures Distinct([e] + Without(l, e.key))
    ensures Positive(l) && 0 < e.size ==> Positive([e] + Without(l, e.key))
    ensures Bytes([e] + Without(l, e.key)) == e.size + Bytes(Without(l, e.key))
  {
    WithoutFacts(l, e.key);
    BytesCons(e, Without(l, e.key));
    DistinctCons(e, Without(l, e.key));
  }

  /**
    Eviction after Set is exact: the shard holds the new entry in front, followed by exactly the
    older entries that fit the share in recency order - or the new entry alone when it does not fit.
  */
  lemma InsertExact(l: seq<Entry>, e: Entry, share: int)
    requires Distinct(l) && Positive(l) && 0 < e.size
    ensures var r, all := Insert(l, e, share), [e] + Without(l, e.key);
            && 1 <= |r| <= |all| && r == all[..|r|] && r[0] == e
            && (forall k :: 1 <= k <= |all| ==> (k <= |r| <==> k == 1 || Bytes(all[..k]) <= share))
            && (|r| > 1 ==> Bytes(r) <= share)
            && (Bytes(r) <= share <==> e.size <= share)
  {
    var all := [e] + Without(l, e.key);
    ConsWithoutFacts(l, e);
    assert forall i :: 1 <= i < |all| ==> all[0].key != all[i].key;
    EvictLongestProtected(all, share);
    EvictIsPrefix(all, share, Some(e));
    var r := Insert(l, e, share);
    assert all[..1] == [e] && [e][..0] == [];
    BytesPrefix(all, 1, |r|);
    assert r == all[..|r|];
  }

  // ----- a shard's list as every operation keeps it -----

  /** One entry per key, positive sizes, and only keys whose home is shard i. */
  ghost predicate ListOk(i: nat, l: seq<Entry>) {
    && Distinct(l) && Positive(l)
    && forall e :: e in l ==> ShardOf(e.key) == i
  }

  lemma WithoutOk(i: nat, l: seq<Entry>, k: Key)
    requires ListOk(i, l)
    ensures ListOk(i, Without(l, k)) && !Has(Without(l, k), k)
    ensures Find(l, k).Some? ==> 0 < Find(l, k).value.size && |Without(l, k)| == |l| - 1
                                 && Bytes(Without(l, k)) == Bytes(l) - Find(l, k).value.size
  {
    WithoutFacts(l, k);
  }

  lemma ConsOk(i: nat, l: seq<Entry>, e: Entry)
    requires ListOk(i, l) && !Has(l, e.key) && 0 < e.size && ShardOf(e.key) == i
    ensures ListOk(i, [e] + l) && Bytes([e] + l) == Bytes(l) + e.size
  {
    DistinctCons(e, l);
    BytesCons(e, l);
  }

  lemma TouchOk(i: nat, l: seq<Entry>, e: Entry)
    requires ListOk(i, l) && Find(l, e.key) == Some(e)
    ensures ListOk(i, Touch(l, e)) && |Touch(l, e)| == |l| && Bytes(Touch(l, e)) == Bytes(l)
  {
    hide ListOk, Has, Without;
    assert ListOk(i, l) && e in l;
    MemberOk(i, l, e);
    WithoutOk(i, l, e.key);
    ConsOk(i, Without(l, e.key), e);
  }

  lemma MemberOk(i: nat, l: seq<Entry>, e: Entry)
    requires ListOk(i, l) && e in l
    ensures 0 < e.size && ShardOf(e.key) == i
  {
  }

  lemma PrefixOk(i: nat, l: seq<Entry>, n: nat)
    requires ListOk(i, l) && n <= |l|
    ensures ListOk(i, l[..n])
  {
    assert forall e :: e in l[..n] ==> e in l;
  }

  lemma InsertMembers(l: seq<Entry>, e: Entry, share: int, x: Entry)
    requires Distinct(l) && x in Insert(l, e, share)
    ensures x == e || (x in l && x.key != e.key)
  {
    EvictIsPrefix([e] + Without(l, e.key), share, Some(e));
    WithoutFacts(l, e.key);
  }

  lemma TouchMembers(l: seq<Entry>, e: Entry, x: Entry)
    requires Distinct(l) && e in l && x in Touch(l, e)
    ensures x in l
  {
    WithoutMembers(l, e.key, x);
  }

  function Lens(lists: seq<seq<Entry>>): (r: seq<int>)
    ensures |r| == |lists| && forall i :: 0 <= i < |lists| ==> r[i] == |lists[i]|
  {
    seq(|lists|, i requires 0 <= i < |lists| => |lists[i]|)
  }

  function Loads(lists: seq<seq<Entry>>): (r: seq<int>)
    ensures |r| == |lists| && forall i :: 0 <= i < |lists| ==> r[i] == Bytes(lists[i])
  {
    seq(|lists|, i requires 0 <= i < |lists| => Bytes(lists[i]))
  }

  // ----- LRU inclusion -----

  /** One request: a Get, then on a miss a Set of the fetched object (ServeHTTP). */
  datatype Demand = Demand(key: Key, obj: Object, size: int, now: int)

  /** The shard after Get, and the entry it returned if any. */
  function GetShard(l: seq<Entry>, k: Key, now: int): (seq<Entry>, Option<Entry>) {
    match Find(l, k)
    case None => (l, None)
    case Some(e) =>
      if e.obj.Evictable(now) then (Without(l, k), None) else (Touch(l, e), Some(e))
  }

  function SetShard(l: seq<Entry>, e: Entry, budget: int): seq<Entry> {
    if budget <= 0 || e.size > budget then l else Insert(l, e, budget / SHARDS)
  }

  function DemandFill(l: seq<Entry>, budget: int, r: Demand): seq<Entry> {
    var (l', hit) := GetShard(l, r.key, r.now);
    if hit.Some? then l' else SetShard(l', Entry(r.key, r.obj, r.size), budget)
  }

  /** The shard after the first n requests of a trace, starting empty. */
  function DemandRun(budget: int, trace: seq<Demand>, n: nat): seq<Entry>
    requires n <= |trace|
  {
    if n == 0 then [] else DemandFill(DemandRun(budget, trace, n - 1), budget, trace[n - 1])
  }

  predicate Hit(l: seq<Entry>, r: Demand) {
    GetShard(l, r.key, r.now).1.Some?
  }

  /** One size per key, and every size fits the total budget. */
  ghost predicate FixedSizes(trace: seq<Demand>, sizeOf: Key -> int, budget: int) {
    forall i :: 0 <= i < |trace| ==> 0 < trace[i].size <= budget && trace[i].size == sizeOf(trace[i].key)
  }

  /** No object is past its stale window at any time of the trace. */
  ghost predicate NeverStale(trace: seq<Demand>) {
    forall i, j :: 0 <= i < |trace| && 0 <= j < |trace| ==> !trace[i].obj.Evictable(trace[j].now)
  }

  /** Distinct keys with the sizes the trace gives them, within the share or a single entry. */
  ghost predicate Sane(l: seq<Entry>, sizeOf: Key -> int, share: int) {
    && Distinct(l)
    && (forall e :: e in l ==> 0 < e.size == sizeOf(e.key))
    && Snug(l, share)
  }

  predicate Snug(l: seq<Entry>, share: int) {
    |l| <= 1 || Bytes(l) <= share
  }

  /** The keys and sizes of `small` are the most recent ones of `large`, in the same order. */
  ghost predicate PrefixShape(small: seq<Entry>, large: seq<Entry>) {
    && |small| <= |large|
    && forall i :: 0 <= i < |small| ==> small[i].key == large[i].key && small[i].size == large[i].size
  }

  lemma PrefixShapeTake(small: seq<Entry>, large: seq<Entry>, n: nat, N: nat)
    requires PrefixShape(small, large) && n <= |small| <= |large| && n <= N <= |large|
    ensures PrefixShape(small[..n], large[..N]) && PrefixShape(small[..n], large)
  {
  }

  lemma {:induction false} PrefixShapeBytes(small: seq<Entry>, large: seq<Entry>)
    requires PrefixShape(small, large)
    ensures Bytes(small) == Bytes(large[..|small|])
  {
    if small != [] {
      var n := |small| - 1;
      PrefixShapeBytes(small[..n], large);
      assert large[..|small|][..n] == large[..n];
    }
  }

  lemma {:induction false} PrefixShapeWithout(small: seq<Entry>, large: seq<Entry>, k: Key)
    requires PrefixShape(small, large)
    ensures PrefixShape(Without(small, k), Without(large, k))
    ensures Has(small, k) ==> Has(large, k)
  {
    if small != [] {
      assert small == [small[0]] + small[1..] && large == [large[0]] + large[1..];
      assert large[0] in large;
      PrefixShapeWithout(small[1..], large[1..], k);
    }
  }

  lemma PrefixShapeCons(e: Entry, f: Entry, small: seq<Entry>, large: seq<Entry>)
    requires PrefixShape(small, large) && e.key == f.key && e.size == f.size
    ensures PrefixShape([e] + small, [f] + large)
  {
  }

  lemma PrefixShapeSwapHead(small: seq<Entry>, e: Entry, f: Entry, large: seq<Entry>)
    requires PrefixShape(small, [e] + large) && e.key == f.key && e.size == f.size
    ensures PrefixShape(small, [f] + large)
  {
  }

  function Fetched(r: Demand): Entry {
    Entry(r.key, r.obj, r.size)
  }

  /** A request either moves the entry it finds to the front or inserts the fetched object, expired or not. */
  lemma DemandFillForms(l: seq<Entry>, budget: int, r: Demand)
    requires Distinct(l) && 0 < r.size <= budget
    ensures DemandFill(l, budget, r) ==
            if Hit(l, r) then [Find(l, r.key).value] + Without(l, r.key) else Insert(l, Fetched(r), budget / SHARDS)
    ensures Hit(l, r) ==> Find(l, r.key).Some?
  {
    WithoutDistinct(l, r.key);
    WithoutBytes(Without(l, r.key), r.key);
    WithoutBytes(l, r.key);
    hide Without, Evict;
  }

  lemma TouchSane(l: seq<Entry>, e: Entry, sizeOf: Key -> int, share: int)
    requires Sane(l, sizeOf, share) && Find(l, e.key) == Some(e)
    ensures Sane([e] + Without(l, e.key), sizeOf, share)
  {
    hide Without;
    WithoutFacts(l, e.key);
    DistinctCons(e, Without(l, e.key));
    BytesCons(e, Without(l, e.key));
  }

  lemma InsertSane(l: seq<Entry>, e: Entry, sizeOf: Key -> int, share: int)
    requires Sane(l, sizeOf, share) && 0 < e.size == sizeOf(e.key)
    ensures Sane(Insert(l, e, share), sizeOf, share)
  {
    hide Without, Insert, Bytes;
    var r := Insert(l, e, share);
    InsertExact(l, e, share);
    forall x | x in r ensures 0 < x.size == sizeOf(x.key) {
      InsertMembers(l, e, share, x);
    }
    InsertDistinct(l, e, share);
  }

  lemma InsertDistinct(l: seq<Entry>, e: Entry, share: int)
    requires Distinct(l)
    ensures Distinct(Insert(l, e, share))
  {
    hide Without, Evict;
    WithoutDistinct(l, e.key);
    DistinctCons(e, Without(l, e.key));
    EvictIsPrefix([e] + Without(l, e.key), share, Some(e));
  }

  lemma DemandFillSane(l: seq<Entry>, budget: int, r: Demand, sizeOf: Key -> int)
    requires Sane(l, sizeOf, budget / SHARDS) && 0 < r.size <= budget && r.size == sizeOf(r.key)
    ensures Sane(DemandFill(l, budget, r), sizeOf, budget / SHARDS)
  {
    hide Snug, Without, Insert, DemandFill, Hit;
    DemandFillForms(l, budget, r);
    if Hit(l, r) {
      TouchSane(l, Find(l, r.key).value, sizeOf, budget / SHARDS);
    } else {
      InsertSane(l, Fetched(r), sizeOf, budget / SHARDS);
    }
  }

  /** The smaller shard after a request: in its share, and a prefix of "the request in front of the larger shard". */
  lemma SmallAfter(small: seq<Entry>, large: seq<Entry>, b: int, r: Demand, sizeOf: Key -> int)
    requires Sane(small, sizeOf, b / SHARDS) && 0 < r.size <= b && r.size == sizeOf(r.key)
    requires PrefixShape(small, large)
    ensures PrefixShape(DemandFill(small, b, r), [Fetched(r)] + Without(large, r.key))
    ensures DemandFill(small, b, r) != [] && Snug(DemandFill(small, b, r), b / SHARDS)
  {
    DemandFillSane(small, b, r, sizeOf);
    DemandFillForms(small, b, r);
    PrefixShapeWithout(small, large, r.key);
    PrefixShapeCons(Fetched(r), Fetched(r), Without(small, r.key), Without(large, r.key));
    hide Without, Insert, DemandFill, Hit;
    if Hit(small, r) {
      PrefixShapeCons(Find(small, r.key).value, Fetched(r), Without(small, r.key), Without(large, r.key));
    } else {
      InsertExact(small, Fetched(r), b / SHARDS);
      var t := [Fetched(r)] + Without(small, r.key);
      var front := [Fetched(r)] + Without(large, r.key);
      PrefixShapeTake(t, front, |Insert(small, Fetched(r), b / SHARDS)|, |front|);
    }
  }

  /** What a small share can hold of "the request in front of the larger shard", the larger one holds afterwards. */
  lemma LargeAfter(p: seq<Entry>, large: seq<Entry>, B: int, r: Demand, sizeOf: Key -> int)
    requires Sane(large, sizeOf, B / SHARDS) && 0 < r.size <= B && r.size == sizeOf(r.key)
    requires p != [] && Snug(p, B / SHARDS) && PrefixShape(p, [Fetched(r)] + Without(large, r.key))
    ensures PrefixShape(p, DemandFill(large, B, r))
  {
    DemandFillForms(large, B, r);
    hide Without, Insert, DemandFill, Hit;
    if Hit(large, r) {
      PrefixShapeSwapHead(p, Fetched(r), Find(large, r.key).value, Without(large, r.key));
    } else {
      var u := [Fetched(r)] + Without(large, r.key);
      InsertExact(large, Fetched(r), B / SHARDS);
      PrefixShapeBytes(p, u);
      PrefixShapeTake(p, u, |p|, |Insert(large, Fetched(r), B / SHARDS)|);
      assert p[..|p|] == p;
    }
  }

  lemma SnugMonotone(l: seq<Entry>, s: int, S: int)
    requires Snug(l, s) && s <= S
    ensures Snug(l, S)
  {
  }

  /** One request keeps the smaller-budget shard a prefix of the larger-budget one. */
  lemma InclusionStep(small: seq<Entry>, large: seq<Entry>, b: int, B: int, r: Demand, sizeOf: Key -> int)
    requires Sane(small, sizeOf, b / SHARDS) && Sane(large, sizeOf, B / SHARDS)
    requires 0 < r.size <= b <= B && r.size == sizeOf(r.key) && PrefixShape(small, large)
    ensures PrefixShape(DemandFill(small, b, r), DemandFill(large, B, r))
  {
    hide DemandFill, Sane, Snug, Without;
    SmallAfter(small, large, b, r, sizeOf);
    assert b / SHARDS <= B / SHARDS;
    SnugMonotone(DemandFill(small, b, r), b / SHARDS, B / SHARDS);
    LargeAfter(DemandFill(small, b, r), large, B, r, sizeOf);
  }

  lemma {:induction false} DemandRunSane(b: int, trace: seq<Demand>, n: nat, sizeOf: Key -> int)
    requires n <= |trace| && FixedSizes(trace, sizeOf, b)
    ensures Sane(DemandRun(b, trace, n), sizeOf, b / SHARDS)
  {
    hide DemandFill, Snug;
    if n > 0 {
      DemandRunSane(b, trace, n - 1, sizeOf);
      DemandFillSane(DemandRun(b, trace, n - 1), b, trace[n - 1], sizeOf);
    } else {
      EmptySnug(b / SHARDS);
    }
  }

  lemma EmptySnug(share: int)
    ensures Snug([], share)
  {
  }

  lemma FixedUnderLarger(trace: seq<Demand>, sizeOf: Key -> int, b: int, B: int)
    requires b <= B && FixedSizes(trace, sizeOf, b)
    ensures FixedSizes(trace, sizeOf, B)
  {
  }

  /**
    LRU inclusion: along a demand-fill trace with one size per key, each within both total budgets, what a
    shard holds under the smaller budget is always a prefix of what it holds under the larger one - even
    when entries expire.
  */
  lemma {:induction false} LruInclusion(b: int, B: int, trace: seq<Demand>, n: nat, sizeOf: Key -> int)
    requires n <= |trace| && b <= B && FixedSizes(trace, sizeOf, b)
    ensures PrefixShape(DemandRun(b, trace, n), DemandRun(B, trace, n))
  {
    hide DemandFill, Sane;
    if n > 0 {
      LruInclusion(b, B, trace, n - 1, sizeOf);
      FixedUnderLarger(trace, sizeOf, b, B);
      DemandRunSane(b, trace, n - 1, sizeOf);
      DemandRunSane(B, trace, n - 1, sizeOf);
      InclusionStep(DemandRun(b, trace, n - 1), DemandRun(B, trace, n - 1), b, B, trace[n - 1], sizeOf);
    }
  }

  ghost predicate FromTrace(l: seq<Entry>, trace: seq<Demand>) {
    forall e :: e in l ==> exists i :: 0 <= i < |trace| && trace[i].obj == e.obj
  }

  lemma DemandFillFromTrace(l: seq<Entry>, b: int, trace: seq<Demand>, i: nat)
    requires i < |trace| && 0 < trace[i].size <= b && Distinct(l) && FromTrace(l, trace)
    ensures FromTrace(DemandFill(l, b, trace[i]), trace)
  {
    var r := trace[i];
    hide Without, Insert, DemandFill, Hit, Distinct;
    DemandFillForms(l, b, r);
    forall x | x in DemandFill(l, b, r) ensures exists j :: 0 <= j < |trace| && trace[j].obj == x.obj {
      if Hit(l, r) {
        TouchMembers(l, Find(l, r.key).value, x);
      } else {
        InsertMembers(l, Fetched(r), b / SHARDS, x);
      }
    }
  }

  lemma {:induction false} DemandRunFromTrace(b: int, trace: seq<Demand>, n: nat, sizeOf: Key -> int)
    requires n <= |trace| && FixedSizes(trace, sizeOf, b)
    ensures FromTrace(DemandRun(b, trace, n), trace)
  {
    hide DemandFill, Distinct, Snug;
    if n > 0 {
      DemandRunFromTrace(b, trace, n - 1, sizeOf);
      DemandRunSane(b, trace, n - 1, sizeOf);
      DemandFillFromTrace(DemandRun(b, trace, n - 1), b, trace, n - 1);
    }
  }

  /** When nothing goes past its stale window, raising the budget never turns a hit into a miss. */
  lemma HitStaysHit(b: int, B: int, trace: seq<Demand>, n: nat, sizeOf: Key -> int)
    requires n < |trace| && b <= B && FixedSizes(trace, sizeOf, b) && NeverStale(trace)
    ensures Hit(DemandRun(b, trace, n), trace[n]) ==> Hit(DemandRun(B, trace, n), trace[n])
  {
    hide DemandRun, PrefixShape, Has;
    LruInclusion(b, B, trace, n, sizeOf);
    PrefixShapeWithout(DemandRun(b, trace, n), DemandRun(B, trace, n), trace[n].key);
    FixedUnderLarger(trace, sizeOf, b, B);
    DemandRunFromTrace(B, trace, n, sizeOf);
    if Hit(DemandRun(b, trace, n), trace[n]) {
      var e := Find(DemandRun(B, trace, n), trace[n].key).value;
      var i :| 0 <= i < |trace| && trace[i].obj == e.obj;
      assert !trace[i].obj.Evictable(trace[n].now);
    }
  }

  /** The number of hits among the first n requests. */
  function Hits(budget: int, trace: seq<Demand>, n: nat): nat
    requires n <= |trace|
  {
    if n == 0 then 0
    else Hits(budget, trace, n - 1) + if Hit(DemandRun(budget, trace, n - 1), trace[n - 1]) then 1 else 0
  }

  /** A larger budget never lowers the hit count: LRU has no Belady anomaly here. */
  lemma {:induction false} MoreBudgetMoreHits(b: int, B: int, trace: seq<Demand>, n: nat, sizeOf: Key -> int)
    requires n <= |trace| && b <= B && FixedSizes(trace, sizeOf, b) && NeverStale(trace)
    ensures Hits(b, trace, n) <= Hits(B, trace, n)
  {
    hide DemandFill, Hit;
    if n > 0 {
      MoreBudgetMoreHits(b, B, trace, n - 1, sizeOf);
      HitStaysHit(b, B, trace, n - 1, sizeOf);
    }
  }

  // ----- shards -----

  const HEX_DIGITS := "0123456789abcdef"

  /** The shard's number is what the first two hexadecimal digits of the key say. */
  lemma ShardIsFirstByte(k: Key, high: nat, low: nat)
    requires high < 16 && low < 16 && k[0] == HEX_DIGITS[high] && k[1] == HEX_DIGITS[low]
    ensures ShardOf(k) == 16 * high + low
  {
    HexValue(high);
    HexValue(low);
  }

  lemma HexValue(v: nat)
    requires v < 16
    ensures IsHex(HEX_DIGITS[v]) && HexByte(HEX_DIGITS[v]) == v
  {
    assert v in {0, 1, 2, 3, 4, 5, 6, 7, 8, 9, 10, 11, 12, 13, 14, 15};
  }
}
