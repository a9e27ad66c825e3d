/**
  What concurrent lookups find (internal/cache/cache.go): in every schedule of module Interleave, the object a
  Get finds is the one of the last accepted Set of its key in the order in which the calls took the shard's
  mutex, unless a Delete took it later.
*/
module LockOrder {
  import opened Sums
  import opened Objects
  import opened Recency
  import opened Interleave

  /** Goroutine t takes k's mutex in this step, to store an entry of k. */
  predicate LocksToStore(s: System, t: Tid, a: Action, k: Key)
    requires t < |s.pcs| && |s.shards| == SHARDS
  {
    s.pcs[t].Loaded? && a.Continue? && s.pcs[t].e.key == k && s.shards[ShardOf(k)].owner == None
  }

  predicate LocksToDelete(s: System, t: Tid, a: Action, k: Key)
    requires t < |s.pcs| && |s.shards| == SHARDS
  {
    s.pcs[t] == Idle && a == StartDelete(k) && s.shards[ShardOf(k)].owner == None
  }

  /** The object of the last accepted Set of k that locked its shard, if no Delete of k locked it later. */
  ghost function LatestLocked(budget: int, threads: nat, schedule: seq<(Tid, Action)>, k: Key): Option<Object> {
    if schedule == [] then None
    else
      var n := |schedule| - 1;
      var s := Exec(budget, threads, schedule[..n]);
      var (t, a) := schedule[n];
      if t >= threads then LatestLocked(budget, threads, schedule[..n], k)
      else if LocksToStore(s, t, a, k) then Some(s.pcs[t].e.obj)
      else if LocksToDelete(s, t, a, k) then None
      else LatestLocked(budget, threads, schedule[..n], k)
  }

  lemma GetShardMembers(l: seq<Entry>, k: Key, now: int, x: Entry)
    requires Distinct(l) && x in GetShard(l, k, now).0
    ensures x in l
  {
    hide Without, Touch;
    WithoutMembers(l, k, x);
    if Find(l, k).Some? && x in Touch(l, Find(l, k).value) {
      TouchMembers(l, Find(l, k).value, x);
    }
  }

  /** What a step can leave on a shard: what was there, or the entry whose Set locks it. */
  lemma EffectMembers(s: System, t: Tid, a: Action, x: Entry)
    requires Inv(s) && t < |s.pcs| && |s.shards| == SHARDS
    requires x in Effect(s, t, a, ShardOf(x.key))
    ensures if LocksToStore(s, t, a, x.key) then x.obj == s.pcs[t].e.obj else x in Abs(s, ShardOf(x.key))
    ensures !LocksToDelete(s, t, a, x.key)
  {
    var i := ShardOf(x.key);
    hide Inv, Without, Recency.Insert, Evict, GetShard, Distinct;
    if s.shards[i].owner == None {
      ListOf(s, i);
      ListIsDistinct(i, s.shards[i].list);
      var l := s.shards[i].list;
      if s.pcs[t] == Idle && a.StartGet? && ShardOf(a.key) == i {
        GetShardMembers(l, a.key, a.now, x);
      } else if s.pcs[t] == Idle && a.StartDelete? && ShardOf(a.key) == i {
        WithoutMembers(l, a.key, x);
      } else if s.pcs[t].Loaded? && a.Continue? && ShardOf(s.pcs[t].e.key) == i {
        InsertMembers(l, s.pcs[t].e, s.pcs[t].budget / SHARDS, x);
      } else if s.pcs[t].Sweeping? && a.Continue? && s.pcs[t].i == i {
        EvictIsPrefix(l, s.pcs[t].share, None);
      }
    }
  }

  lemma ListIsDistinct(i: nat, l: seq<Entry>)
    requires ListOk(i, l)
    ensures Distinct(l)
  {
  }

  lemma {:induction false} HeldIsLatestLocked(budget: int, threads: nat, schedule: seq<(Tid, Action)>, x: Entry)
    requires x in Abs(Exec(budget, threads, schedule), ShardOf(x.key))
    ensures LatestLocked(budget, threads, schedule, x.key) == Some(x.obj)
  {
    hide Inv, Step, Abs, Effect, LocksToStore, LocksToDelete;
    if schedule == [] {
      StartsEmpty(budget, threads, ShardOf(x.key));
    } else {
      var n := |schedule| - 1;
      var s := Exec(budget, threads, schedule[..n]);
      var (t, a) := schedule[n];
      ExecInv(budget, threads, schedule[..n]);
      if t >= threads {
        HeldIsLatestLocked(budget, threads, schedule[..n], x);
      } else {
        StepIsAtomic(s, t, a, ShardOf(x.key));
        EffectMembers(s, t, a, x);
        if !LocksToStore(s, t, a, x.key) {
          HeldIsLatestLocked(budget, threads, schedule[..n], x);
        }
      }
    }
  }

  lemma StartsEmpty(budget: int, threads: nat, i: nat)
    requires i < SHARDS
    ensures Abs(Init(budget, threads), i) == []
  {
  }

  /**
    In every schedule, a Get that gets the mutex finds exactly the object of the last accepted Set of its key
    in lock order, or nothing - although Set's counters, evictions and budget are interleaved with other calls.
  */
  lemma GetFindsLatestLocked(budget: int, threads: nat, schedule: seq<(Tid, Action)>, k: Key)
    ensures var sh := Exec(budget, threads, schedule).shards[ShardOf(k)];
            sh.owner == None ==>
              match Find(sh.list, k)
              case None => true
              case Some(e) => LatestLocked(budget, threads, schedule, k) == Some(e.obj)
  {
    hide Exec, LatestLocked;
    var s := Exec(budget, threads, schedule);
    var sh := s.shards[ShardOf(k)];
    if sh.owner == None && Find(sh.list, k).Some? {
      HeldIsLatestLocked(budget, threads, schedule, Find(sh.list, k).value);
    }
  }
}
