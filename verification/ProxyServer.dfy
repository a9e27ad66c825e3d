/**
  The proxy object itself (internal/proxy/proxy.go): a cache, the mutex-protected refreshing set, and the
  parts of ServeHTTP and revalidate around the origin fetch. Every method is one step of the protocol in
  module Proxy, taken on the real cache and the real recorder.
*/
module ProxyServer {
  import opened Sums
  import opened Objects
  import opened Recency
  import opened Policy
  import opened CacheKey
  import R = Recorder
  import P = Proxy
  import opened Sections
  import S = CacheSpec
  import C = Cache

  /** What ServeHTTP does next. */
  datatype Answer =
    | PassThrough                                   // upgrade or bypass: forwarded, the cache is not involved
    | FromCache(obj: Object, freshness: S.Freshness) // Stale also starts a background revalidation
    | FetchAndTee

  /** Job j moved to this phase, and nothing else about the jobs changed. */
  ghost predicate OnlyPhase(before: seq<P.Job>, after: seq<P.Job>, j: nat, phase: P.Phase) {
    j < |before| && after == before[j := before[j].(phase := phase)]
  }

  class Server {
    const digest: Digest
    const cache: C.Cache
    var refreshing: set<Key>
    ghost var world: P.World

    ghost predicate Valid()
      reads this, cache, cache.shards
    {
      && cache.Valid()
      && world.cache == cache.State()
      && world.refreshing == refreshing
    }

    constructor (digest: Digest, cache: C.Cache, budget: int, now: int)
      requires cache.Valid() && cache.State() == S.Init(budget)
      ensures Valid() && this.cache == cache && this.digest == digest && world == P.Init(budget, now)
    {
      this.digest, this.cache := digest, cache;
      refreshing := {};
      world := P.Init(budget, now);
    }

    /** ServeHTTP up to the point where it answers or forwards; time.Now() is the world's clock. */
    method ServeHttp(r: Request, p: Policy, now: int, ghost expires: Option<int>) returns (a: Answer)
      requires Valid() && now == world.now && |world.cache.lists| == SHARDS
      modifies this, cache, cache.shards
      ensures Valid() && world == P.ArriveStep(digest, old(world), r, p, expires)
      ensures a.PassThrough? <==> P.WantsUpgrade(r) || !MayUseCache(p, r)
      ensures a.PassThrough? ==> world == old(world)
      ensures !a.PassThrough? ==> cache.State() == S.Get(old(cache.State()), KeyOf(digest, r), now).0
      ensures match a
              case PassThrough => true
              case FromCache(o, f) =>
                && (Some(o), f) == (S.Get(old(cache.State()), KeyOf(digest, r), now).1,
                                    S.Get(old(cache.State()), KeyOf(digest, r), now).2)
                && world.served == old(world).served + [P.Served(p, r, o, now, f)]
                && (f == S.Fresh ==> world.jobs == old(world).jobs)
                && (f == S.Stale ==>
                      world.jobs == old(world).jobs + [P.Job(P.ForRefresh, r, p, expires, [], P.Claiming)])
                && f != S.Miss
              case FetchAndTee =>
                && S.Get(old(cache.State()), KeyOf(digest, r), now).1 == None
                && world.jobs == old(world).jobs + [P.Job(P.ForClient, r, p, expires, [], P.Fetching)]
                && world.served == old(world).served
      ensures refreshing == old(refreshing) && world.stored == old(world).stored && world.now == old(world).now
    {
      hide C.Cache.Valid, KeyOf, P.IsUpgrade, P.WantsUpgrade, CacheableRequest, MayUseCache, S.Init;
      P.UpgradeMeans(r);
      CacheableMeans(p, r);
      if P.IsUpgrade(r) || !CacheableRequest(p, r) {
        return PassThrough;
      }
      var obj, f := cache.Get(KeyOf(digest, r), now);
      GetLabels(old(world).cache, KeyOf(digest, r), now);
      hide S.Get;
      world := P.ArriveStep(digest, world, r, p, expires);
      if obj.None? {
        return FetchAndTee;
      }
      return FromCache(obj.value, f);
    }

    /** The guarded entry into revalidate; false means another refresh of the key is under way. */
    method TryClaim(ghost j: nat, key: Key) returns (claimed: bool)
      requires Valid() && |world.cache.lists| == SHARDS
      requires j < |world.jobs| && world.jobs[j].phase == P.Claiming && key == KeyOf(digest, world.jobs[j].req)
      modifies this
      ensures Valid() && world == P.Step(digest, old(world), P.Claim(j))
      ensures claimed <==> key !in old(refreshing)
      ensures refreshing == old(refreshing) + (if claimed then {key} else {})
      ensures world.cache == old(world).cache
      ensures OnlyPhase(old(world).jobs, world.jobs, j, if claimed then P.Fetching else P.Ended)
    {
      hide C.Cache.Valid, KeyOf;
      claimed := key !in refreshing;
      if claimed {
        refreshing := refreshing + {key};
      }
      world := P.Step(digest, world, P.Claim(j));
    }

    /** After forward returns, for a miss and for a refresh alike: store what the recorder has, if it has anything. */
    method Complete(ghost j: nat, key: Key, rec: R.Recorder, now: int)
      requires Valid() && now == world.now && |world.cache.lists| == SHARDS && rec.Valid()
      requires j < |world.jobs| && world.jobs[j].phase == P.Fetching && key == KeyOf(digest, world.jobs[j].req)
      requires rec.policy == world.jobs[j].policy && rec.path == world.jobs[j].req.path
      requires rec.expires == world.jobs[j].expires && rec.calls == world.jobs[j].calls
      modifies this`world, cache, cache.shards
      ensures Valid() && world == P.Step(digest, old(world), P.Finish(j, now, old(world).cache.budget))
      ensures match R.Outcome(rec.policy, rec.path, rec.expires, rec.calls, now)
              case None => cache.State() == old(cache.State()) && world.stored == old(world).stored
              case Some(o) =>
                && cache.State() == S.Set(old(cache.State()), key, o)
                && world.stored == old(world).stored + [P.Stored(old(world).jobs[j], now)]
      ensures refreshing == old(refreshing)
      ensures OnlyPhase(old(world).jobs, world.jobs, j,
                        if old(world).jobs[j].kind == P.ForRefresh then P.Releasing else P.Ended)
    {
      hide C.Cache.Valid, KeyOf, R.Outcome, R.Recorder.Valid, S.Set;
      var obj := rec.Finished(now);
      if obj.Some? {
        SetIsSection(world.cache, key, obj.value);
        cache.Set(key, obj.value);
      }
      hide Perform;
      world := P.Step(digest, world, P.Finish(j, now, world.cache.budget));
    }

    /** What happens elsewhere: the origin answers on a job's recorder, a fetch fails, time passes. */
    ghost method Reply(j: nat, call: R.Call)
      requires Valid() && |world.cache.lists| == SHARDS
      modifies this`world
      ensures Valid() && world == P.Step(digest, old(world), P.Reply(j, call))
      ensures j < |old(world).jobs| && old(world).jobs[j].phase == P.Fetching ==>
                world == old(world).(jobs := old(world).jobs[j := old(world).jobs[j].(calls :=
                                       old(world).jobs[j].calls + [call])])
      ensures j >= |old(world).jobs| || old(world).jobs[j].phase != P.Fetching ==> world == old(world)
    {
      hide C.Cache.Valid;
      world := P.Step(digest, world, P.Reply(j, call));
    }

    ghost method Abort(j: nat)
      requires Valid() && |world.cache.lists| == SHARDS
      modifies this`world
      ensures Valid() && world == P.Step(digest, old(world), P.Abort(j))
      ensures world.cache == old(world).cache && world.stored == old(world).stored && refreshing == old(refreshing)
      ensures j < |old(world).jobs| && old(world).jobs[j].phase == P.Fetching ==>
                OnlyPhase(old(world).jobs, world.jobs, j,
                          if old(world).jobs[j].kind == P.ForRefresh then P.Releasing else P.Ended)
      ensures j >= |old(world).jobs| || old(world).jobs[j].phase != P.Fetching ==> world == old(world)
    {
      hide C.Cache.Valid;
      world := P.Step(digest, world, P.Abort(j));
    }

    ghost method Tick(span: nat)
      requires Valid() && |world.cache.lists| == SHARDS
      modifies this`world
      ensures Valid() && world == P.Step(digest, old(world), P.Tick(span))
      ensures world == old(world).(now := old(world).now + span)
    {
      hide C.Cache.Valid;
      world := P.Step(digest, world, P.Tick(span));
    }

    /** The watchdog's SetBudget on the shared cache. */
    method SetBudget(budget: int)
      requires Valid() && |world.cache.lists| == SHARDS
      modifies this`world, cache, cache.shards
      ensures Valid() && world == P.Step(digest, old(world), P.BudgetSet(budget))
      ensures cache.State() == S.SetBudget(old(cache.State()), budget)
    {
      hide C.Cache.Valid, S.SetBudget;
      cache.SetBudget(budget);
      world := P.Step(digest, world, P.BudgetSet(budget));
    }

    /** The image endpoint's use of the shared cache. */
    method ImageGet(what: Token, now: int) returns (obj: Option<Object>, f: S.Freshness)
      requires Valid() && now == world.now && |world.cache.lists| == SHARDS
      modifies this`world, cache, cache.shards
      ensures Valid() && world == P.Step(digest, old(world), P.ImageGet(what))
      ensures (obj, f) == (S.Get(old(world).cache, ImageKey(digest, what), now).1,
                           S.Get(old(world).cache, ImageKey(digest, what), now).2)
    {
      hide C.Cache.Valid, S.Get, ImageKey;
      obj, f := cache.Get(ImageKey(digest, what), now);
      world := P.Step(digest, world, P.ImageGet(what));
    }

    method ImageSet(what: Token, obj: Object)
      requires Valid() && |world.cache.lists| == SHARDS
      modifies this`world, cache, cache.shards
      ensures Valid() && world == P.Step(digest, old(world), P.ImageSet(what, obj, old(world).cache.budget))
      ensures cache.State() == S.Set(old(cache.State()), ImageKey(digest, what), obj)
    {
      hide C.Cache.Valid, S.Set, ImageKey;
      SetIsSection(world.cache, ImageKey(digest, what), obj);
      cache.Set(ImageKey(digest, what), obj);
      hide Perform;
      world := P.Step(digest, world, P.ImageSet(what, obj, world.cache.budget));
    }

    /** The deferred removal from the refreshing set. */
    method Release(ghost j: nat, key: Key)
      requires Valid() && |world.cache.lists| == SHARDS
      requires j < |world.jobs| && world.jobs[j].phase == P.Releasing && key == KeyOf(digest, world.jobs[j].req)
      modifies this
      ensures Valid() && world == P.Step(digest, old(world), P.Release(j))
      ensures refreshing == old(refreshing) - {key} && world.cache == old(world).cache
      ensures OnlyPhase(old(world).jobs, world.jobs, j, P.Ended)
    {
      hide C.Cache.Valid, KeyOf;
      refreshing := refreshing - {key};
      world := P.Step(digest, world, P.Release(j));
    }
  }

  /** Freshness and result of a lookup agree. */
  lemma GetLabels(st: S.State, k: Key, now: int)
    requires |st.lists| == SHARDS
    ensures var (_, o, f) := S.Get(st, k, now); o.None? <==> f == S.Miss
  {
  }
}
