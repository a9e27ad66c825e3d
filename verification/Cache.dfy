/**
  The sharded LRU cache as it is written (internal/cache/cache.go): shards with a map, a recency list
  and a byte counter, updated in place, and global counters. Every method is proved to do exactly what
  the function of the same name in CacheSpec does to the abstract state.
*/
module Cache {
  import opened Sums
  import opened Objects
  import opened Recency
  import S = CacheSpec

  class Shard {
    var items: map<Key, Entry>
    var lru: seq<Entry>  // front = most recently used
    var bytes: int
    ghost const position: nat  // where the cache keeps this shard: no two shards are the same object

    /** Map and list hold the same entries, each key once, and the counter is their size. */
    ghost predicate Valid()
      reads this
    {
      && Distinct(lru)
      && (forall e :: e in lru ==> e.key in items && items[e.key] == e)
      && (forall k :: k in items ==> items[k] in lru && items[k].key == k)
      && bytes == Bytes(lru)
    }

    constructor (ghost position: nat)
      ensures Valid() && lru == [] && this.position == position
    {
      items, lru, bytes := map[], [], 0;
      this.position := position;
    }

    lemma Lookup(k: Key)
      requires Valid()
      ensures Find(lru, k) == if k in items then Some(items[k]) else None
      ensures k in items ==> items[k] in lru && items[k].key == k
    {
    }

    lemma Absent(k: Key)
      requires Valid()
      ensures Has(lru, k) <==> k in items
    {
    }

    lemma Charged()
      requires Valid()
      ensures bytes == Bytes(lru)
    {
    }

    /** removeLocked: unlink e from map and list and uncharge it. */
    method Remove(e: Entry)
      requires Valid() && e in lru
      modifies this
      ensures Valid() && lru == Without(old(lru), e.key)
      ensures |lru| == |old(lru)| - 1 && bytes == old(bytes) - e.size
    {
      hide Without, Has, Find, Bytes;
      WithoutFacts(lru, e.key);
      Lookup(e.key);
      items := items - {e.key};
      lru := Without(lru, e.key);
      bytes := bytes - e.size;
    }

    /** The list's MoveToFront. */
    method MoveToFront(e: Entry)
      requires Valid() && e in lru
      modifies this`lru
      ensures Valid() && lru == Touch(old(lru), e)
    {
      hide Without, Has, Find, Bytes;
      WithoutFacts(lru, e.key);
      Lookup(e.key);
      ConsWithoutFacts(lru, e);
      lru := [e] + Without(lru, e.key);
    }

    /** PushFront, map insert and charge of a key that is not present. */
    method PushFront(e: Entry)
      requires Valid() && !Has(lru, e.key)
      modifies this
      ensures Valid() && lru == [e] + old(lru) && bytes == old(bytes) + e.size
    {
      hide Has, Bytes;
      DistinctCons(e, lru);
      BytesCons(e, lru);
      Absent(e.key);
      lru := [e] + lru;
      items := items[e.key := e];
      bytes := bytes + e.size;
    }
  }

  class Cache {
    const shards: seq<Shard>
    var budget: int
    var entries: int
    var bytes: int
    var hits: int
    var misses: int
    var evictions: int
    ghost var lists: seq<seq<Entry>>  // the shards' recency lists

    ghost function State(): S.State
      reads this
    {
      S.State(lists, budget, entries, bytes, hits, misses, evictions)
    }

    /** The 256 shards are distinct objects, each in agreement with itself and with `lists`. */
    ghost predicate Linked()
      reads this, shards
    {
      && |shards| == |lists| == SHARDS
      && forall i :: 0 <= i < SHARDS ==>
           shards[i].position == i && shards[i].Valid() && shards[i].lru == lists[i]
    }

    ghost predicate Valid()
      reads this, shards
    {
      Linked() && S.Inv(State())
    }

    constructor (budget: int)
      ensures Valid() && State() == S.Init(budget)
      ensures fresh(shards)
    {
      var all: seq<Shard> := [];
      for i := 0 to SHARDS
        invariant |all| == i
        invariant forall j :: 0 <= j < i ==> fresh(all[j]) && all[j].position == j && all[j].Valid() && all[j].lru == []
      {
        var s := new Shard(i);
        all := all + [s];
      }
      shards := all;
      this.budget := budget;
      entries, bytes, hits, misses, evictions := 0, 0, 0, 0, 0;
      lists := S.Init(budget).lists;
      S.InitInv(budget);
    }

    /** Lock shard i, unlink e, unlock, and take it off the global counters (the same three lines at every call). */
    method Unlink(i: nat, e: Entry)
      requires Linked() && i < SHARDS && e in shards[i].lru
      modifies this`entries, this`bytes, this`lists, shards[i]
      ensures Linked() && lists == old(lists)[i := Without(old(lists[i]), e.key)]
      ensures |lists[i]| == old(|lists[i]|) - 1
      ensures entries == old(entries) - 1 && bytes == old(bytes) - e.size
    {
      hide Without, Shard.Valid;
      shards[i].Remove(e);
      entries := entries - 1;
      bytes := bytes - e.size;
      lists := lists[i := shards[i].lru];
    }

    /** Lock shard i, move e to the front, unlock. */
    method Promote(i: nat, e: Entry)
      requires Linked() && i < SHARDS && e in shards[i].lru
      modifies this`lists, shards[i]
      ensures Linked() && lists == old(lists)[i := Touch(old(lists[i]), e)]
    {
      hide Touch, Shard.Valid;
      shards[i].MoveToFront(e);
      lists := lists[i := shards[i].lru];
    }

    /** Insert a new front entry in shard i and charge it to the global counters. */
    method Push(i: nat, e: Entry)
      requires Linked() && i < SHARDS && !Has(lists[i], e.key)
      modifies this`entries, this`bytes, this`lists, shards[i]
      ensures Linked() && lists == old(lists)[i := [e] + old(lists[i])]
      ensures entries == old(entries) + 1 && bytes == old(bytes) + e.size
    {
      hide Shard.Valid, Has;
      shards[i].PushFront(e);
      lists := lists[i := shards[i].lru];
      entries := entries + 1;
      bytes := bytes + e.size;
    }

    /** One round of the eviction loop: unlink the shard's oldest entry. */
    method UnlinkLast(i: nat)
      requires Linked() && i < SHARDS && lists[i] != []
      modifies this`entries, this`bytes, this`lists, shards[i]
      ensures Linked() && lists == old(lists)[i := old(lists[i][..|lists[i]| - 1])]
      ensures entries == old(entries) - 1
      ensures bytes == old(bytes) + Bytes(lists[i]) - old(Bytes(lists[i]))
    {
      var l := shards[i].lru;
      WithoutLast(l);
      hide Shard.Valid, Without;
      Unlink(i, l[|l| - 1]);
    }

    /** evictOverLocked on shard i. */
    method EvictOver(i: nat, share: int, protect: Option<Entry>)
      requires Linked() && i < SHARDS
      modifies this`entries, this`bytes, this`evictions, this`lists, shards[i]
      ensures Linked() && lists == old(lists)[i := Evict(old(lists[i]), share, protect)]
      ensures entries == old(entries) + |lists[i]| - old(|lists[i]|)
      ensures bytes == old(bytes) + Bytes(lists[i]) - old(Bytes(lists[i]))
      ensures evictions == old(evictions) + old(|lists[i]|) - |lists[i]|
    {
      hide Shard.Valid;
      var s := shards[i];
      s.Charged();
      while s.bytes > share
        invariant Linked() && lists == old(lists)[i := lists[i]] && s.bytes == Bytes(lists[i])
        invariant Evict(lists[i], share, protect) == Evict(old(lists[i]), share, protect)
        invariant entries == old(entries) + |lists[i]| - old(|lists[i]|)
        invariant bytes == old(bytes) + Bytes(lists[i]) - old(Bytes(lists[i]))
        invariant evictions == old(evictions) + old(|lists[i]|) - |lists[i]|
        decreases |lists[i]|
      {
        if s.lru == [] {
          return;
        }
        var e := s.lru[|s.lru| - 1];
        if protect == Some(e) {
          return;
        }
        UnlinkLast(i);
        s.Charged();
        evictions := evictions + 1;
      }
    }

    method Get(key: Key, now: int) returns (obj: Option<Object>, f: S.Freshness)
      requires Valid()
      modifies this, shards
      ensures Valid()
      ensures (State(), obj, f) == S.Get(old(State()), key, now)
    {
      hide S.Inv, Shard.Valid, Find, Without, Touch;
      S.GetKeepsInv(State(), key, now);
      var i := ShardOf(key);
      var s := shards[i];
      s.Lookup(key);
      obj, f := None, S.Miss;
      if key !in s.items {
        misses := misses + 1;
      } else {
        var e := s.items[key];
        if e.obj.Evictable(now) {
          Unlink(i, e);
          misses := misses + 1;
        } else {
          Promote(i, e);
          hits := hits + 1;
          obj, f := Some(e.obj), if e.obj.Expired(now) then S.Stale else S.Fresh;
        }
      }
    }

    /** The first half of Set and all of Delete: drop an existing entry of key from its shard. */
    method Discard(key: Key)
      requires Linked()
      modifies this`entries, this`bytes, this`lists, shards[ShardOf(key)]
      ensures Linked()
      ensures var i := ShardOf(key);
              && lists == old(lists)[i := Without(old(lists[i]), key)]
              && entries == old(entries) + |lists[i]| - old(|lists[i]|)
              && bytes == old(bytes) + Bytes(lists[i]) - old(Bytes(lists[i]))
    {
      hide Shard.Valid, Find, Without;
      var i := ShardOf(key);
      var s := shards[i];
      s.Lookup(key);
      WithoutBytes(s.lru, key);
      if key in s.items {
        Unlink(i, s.items[key]);
      }
      assert lists == old(lists)[i := lists[i]];
    }

    method Set(key: Key, obj: Object)
      requires Valid()
      modifies this, shards
      ensures Valid() && State() == S.Set(old(State()), key, obj)
    {
      hide S.Inv, Shard.Valid, Without, Evict, Has, Bytes;
      ghost var before := State();
      var i := ShardOf(key);
      S.SetKeepsInv(before, key, obj);
      WithoutGone(shards[i], key);
      var size := MeasureSize(obj);
      if budget <= 0 || size > budget {
        return;
      }
      var share := budget / SHARDS;
      Discard(key);
      var e := Entry(key, obj, size);
      BytesCons(e, lists[i]);
      Push(i, e);
      EvictOver(i, share, Some(e));
      assert lists == before.lists[i := Insert(before.lists[i], e, share)];
      assert State() == S.Set(before, key, obj);
    }

    method Delete(key: Key)
      requires Valid()
      modifies this, shards
      ensures Valid() && State() == S.Delete(old(State()), key)
    {
      hide S.Inv, Shard.Valid, Without;
      S.DeleteKeepsInv(State(), key);
      Discard(key);
    }

    method SetBudget(budget: int)
      requires Valid()
      modifies this, shards
      ensures Valid() && State() == S.SetBudget(old(State()), budget)
    {
      hide S.Inv, Shard.Valid, Evict;
      var b := budget;
      if b < 0 {
        b := 0;
      }
      ghost var start := State().(budget := b);
      S.BudgetFieldKeepsInv(State(), b);
      this.budget := b;
      var share := b / SHARDS;
      for i := 0 to SHARDS
        invariant Linked() && State() == S.Sweep(start, share, i)
      {
        EvictOver(i, share, None);
      }
      S.SweepKeepsInv(start, share, SHARDS);
    }
  }

  lemma WithoutGone(s: Shard, k: Key)
    requires s.Valid()
    ensures !Has(Without(s.lru, k), k)
  {
    WithoutDistinct(s.lru, k);
  }

  /** Removing the list's last entry by key removes just its last position. */
  lemma {:induction false} WithoutLast(l: seq<Entry>)
    requires l != [] && forall i :: 0 <= i < |l| - 1 ==> l[i].key != l[|l| - 1].key
    ensures Without(l, l[|l| - 1].key) == l[..|l| - 1]
  {
    if |l| > 1 {
      WithoutLast(l[1..]);
      assert l[..|l| - 1] == [l[0]] + l[1..][..|l| - 2];
    }
  }
}
