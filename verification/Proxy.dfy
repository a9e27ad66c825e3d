/**
  The caching protocol of the proxy (internal/proxy/proxy.go): lookup, miss with tee and store, and
  stale-while-revalidate (section 3 of RFC 5861) with one background refresh per key. Requests, origin
  replies, refreshes, the image endpoint, the watchdog and the clock interleave freely, down to single critical
  sections of the cache: a Set acts with whatever budget it loaded and on an object stamped earlier, and a budget
  change is a store and separate evictions. The origin and the clock do whatever they like.
*/
module Proxy {
  import opened Sums
  import opened Objects
  import opened Text
  import opened Recency
  import opened Policy
  import opened Recorder
  import opened CacheKey
  import opened Sections
  import S = CacheSpec

  datatype Kind = ForClient | ForRefresh

  /** Claiming: about to enter the refreshing set. Releasing: fetched, about to leave it. */
  datatype Phase = Claiming | Fetching | Releasing | Ended

  datatype Job = Job(kind: Kind, req: Request, policy: Policy, expires: Option<int>, calls: seq<Call>, phase: Phase)

  datatype Served = Served(policy: Policy, req: Request, obj: Object, at: int, freshness: S.Freshness)

  /** A job whose recorder yielded an object, and when. */
  datatype Stored = Stored(job: Job, at: int)

  datatype World = World(
    cache: S.State,
    refreshing: set<Key>,
    jobs: seq<Job>,
    now: int,
    served: seq<Served>,   // every answer given from the cache
    stored: seq<Stored>)   // every object handed to Set

  datatype Event =
    | Arrive(req: Request, policy: Policy, expires: Option<int>)
    | Claim(job: nat)
    | Reply(job: nat, call: Call)
    | Finish(job: nat, at: int, budget: int)  // the object is stamped `at`; Set loaded this budget
    | Abort(job: nat)            // the fetch panics or its request dies: nothing is stored
    | Release(job: nat)
    | BudgetStore(budget: int)                // the watchdog's SetBudget: its store, and its evictions one by one
    | BudgetEvict(shard: nat, share: int)
    | BudgetSet(budget: int)                  // all of it at once
    | Tick(span: nat)
    | ImageGet(what: Token)
    | ImageSet(what: Token, obj: Object, budget: int)

  predicate IsUpgrade(r: Request) {
    ToLower(HeaderGet(r.header, "Upgrade")) == "websocket" ||
    Contains(ToLower(HeaderGet(r.header, "Connection")), "upgrade")
  }

  /** A request for another protocol: Upgrade says websocket in any spelling, or Connection mentions upgrade. */
  ghost predicate WantsUpgrade(r: Request) {
    || ToLower(HeaderGet(r.header, "Upgrade")) == "websocket"
    || Occurs("upgrade", ToLower(HeaderGet(r.header, "Connection")))
  }

  lemma UpgradeMeans(r: Request)
    ensures IsUpgrade(r) <==> WantsUpgrade(r)
  {
    hide Contains, ToLower, Occurs;
    ContainsMeans(ToLower(HeaderGet(r.header, "Connection")), "upgrade");
  }

  function Init(budget: int, now: int): World {
    World(S.Init(budget), {}, [], now, [], [])
  }

  function OutcomeOf(j: Job, now: int): Option<Object> {
    Outcome(j.policy, j.req.path, j.expires, j.calls, now)
  }

  function SetPhase(w: World, j: nat, phase: Phase): World
    requires j < |w.jobs|
  {
    w.(jobs := w.jobs[j := w.jobs[j].(phase := phase)])
  }

  /** Where a job goes when its fetch is over. */
  function AfterFetch(kind: Kind): Phase {
    match kind case ForClient => Ended case ForRefresh => Releasing
  }

  function ArriveStep(digest: Digest, w: World, r: Request, p: Policy, expires: Option<int>): (w': World)
    requires |w.cache.lists| == SHARDS
    ensures |w'.cache.lists| == SHARDS
  {
    if IsUpgrade(r) || !CacheableRequest(p, r) then w
    else
      var (cache, obj, f) := S.Get(w.cache, KeyOf(digest, r), w.now);
      if obj.None? then
        w.(cache := cache, jobs := w.jobs + [Job(ForClient, r, p, expires, [], Fetching)])
      else
        w.(cache := cache, served := w.served + [Served(p, r, obj.value, w.now, f)],
           jobs := if f == S.Stale then w.jobs + [Job(ForRefresh, r, p, expires, [], Claiming)] else w.jobs)
  }

  ghost function FinishStep(digest: Digest, w: World, j: nat, at: int, budget: int): (w': World)
    requires |w.cache.lists| == SHARDS && j < |w.jobs|
    ensures |w'.cache.lists| == SHARDS
  {
    var job := w.jobs[j];
    var over := SetPhase(w, j, AfterFetch(job.kind));
    match OutcomeOf(job, at)
    case None => over
    case Some(o) =>
      over.(cache := Perform(w.cache, SetWith(KeyOf(digest, job.req), o, budget)),
            stored := w.stored + [Stored(job, at)])
  }

  ghost function Step(digest: Digest, w: World, e: Event): (w': World)
    requires |w.cache.lists| == SHARDS
    ensures |w'.cache.lists| == SHARDS
  {
    match e
    case Arrive(r, p, expires) => ArriveStep(digest, w, r, p, expires)
    case Claim(j) =>
      if j >= |w.jobs| || w.jobs[j].phase != Claiming then w
      else if KeyOf(digest, w.jobs[j].req) in w.refreshing then SetPhase(w, j, Ended)
      else SetPhase(w, j, Fetching).(refreshing := w.refreshing + {KeyOf(digest, w.jobs[j].req)})
    case Reply(j, call) =>
      if j >= |w.jobs| || w.jobs[j].phase != Fetching then w
      else w.(jobs := w.jobs[j := w.jobs[j].(calls := w.jobs[j].calls + [call])])
    case Finish(j, at, budget) =>
      if j >= |w.jobs| || w.jobs[j].phase != Fetching || at > w.now then w else FinishStep(digest, w, j, at, budget)
    case Abort(j) =>
      if j >= |w.jobs| || w.jobs[j].phase != Fetching then w else SetPhase(w, j, AfterFetch(w.jobs[j].kind))
    case Release(j) =>
      if j >= |w.jobs| || w.jobs[j].phase != Releasing then w
      else SetPhase(w, j, Ended).(refreshing := w.refreshing - {KeyOf(digest, w.jobs[j].req)})
    case BudgetStore(b) => w.(cache := Perform(w.cache, Publish(b)))
    case BudgetEvict(i, share) => w.(cache := Perform(w.cache, EvictShard(i, share)))
    case BudgetSet(b) => w.(cache := Perform(w.cache, Whole(S.DoBudget(b))))
    case Tick(span) => w.(now := w.now + span)
    case ImageGet(what) => w.(cache := Perform(w.cache, Whole(S.DoGet(ImageKey(digest, what), w.now))))
    case ImageSet(what, o, b) => w.(cache := Perform(w.cache, SetWith(ImageKey(digest, what), o, b)))
  }

  ghost function Run(digest: Digest, budget: int, start: int, events: seq<Event>): (w: World)
    ensures |w.cache.lists| == SHARDS
  {
    if events == [] then Init(budget, start)
    else Step(digest, Run(digest, budget, start, events[..|events| - 1]), events[|events| - 1])
  }

  // ----- every request is answered once, every stale answer refreshed once -----

  /** What was asked for. */
  datatype Ask = Ask(policy: Policy, req: Request)

  /** The jobs of one kind, oldest first. */
  function AskedBy(jobs: seq<Job>, kind: Kind): seq<Ask> {
    if jobs == [] then []
    else
      var n := |jobs| - 1;
      AskedBy(jobs[..n], kind) + if jobs[n].kind == kind then [Ask(jobs[n].policy, jobs[n].req)] else []
  }

  /** The answers given past their TTL, oldest first. */
  function StaleAnswers(served: seq<Served>): seq<Ask> {
    if served == [] then []
    else
      var n := |served| - 1;
      StaleAnswers(served[..n]) + if served[n].freshness == S.Stale then [Ask(served[n].policy, served[n].req)] else []
  }

  /** How many of the requests that arrive may use the cache. */
  ghost function Lookups(events: seq<Event>): nat {
    if events == [] then 0
    else
      var n := |events| - 1;
      Lookups(events[..n]) +
      match events[n]
      case Arrive(r, p, _) => if MayUseCache(p, r) && !WantsUpgrade(r) then 1 else 0
      case _ => 0
  }

  lemma {:induction false} AskedUpdate(jobs: seq<Job>, j: nat, job: Job, kind: Kind)
    requires j < |jobs| && job.kind == jobs[j].kind && job.policy == jobs[j].policy && job.req == jobs[j].req
    ensures AskedBy(jobs[j := job], kind) == AskedBy(jobs, kind)
  {
    var n := |jobs| - 1;
    if j == n {
      assert jobs[j := job][..n] == jobs[..n];
    } else {
      assert jobs[j := job][..n] == jobs[..n][j := job];
      AskedUpdate(jobs[..n], j, job, kind);
    }
  }

  lemma AskedAppend(jobs: seq<Job>, job: Job, kind: Kind)
    ensures AskedBy(jobs + [job], kind) ==
            AskedBy(jobs, kind) + if job.kind == kind then [Ask(job.policy, job.req)] else []
  {
    assert (jobs + [job])[..|jobs|] == jobs;
  }

  lemma StaleAppend(served: seq<Served>, x: Served)
    ensures StaleAnswers(served + [x]) ==
            StaleAnswers(served) + if x.freshness == S.Stale then [Ask(x.policy, x.req)] else []
  {
    assert (served + [x])[..|served|] == served;
  }

  /** Only arrivals start jobs or answer from the cache. */
  lemma StepAsks(digest: Digest, w: World, e: Event, kind: Kind)
    requires |w.cache.lists| == SHARDS && !e.Arrive?
    ensures AskedBy(Step(digest, w, e).jobs, kind) == AskedBy(w.jobs, kind)
    ensures Step(digest, w, e).served == w.served
  {
    hide KeyOf, Outcome, Perform, AskedBy;
    if e.Claim? || e.Reply? || e.Finish? || e.Abort? || e.Release? {
      var j := e.job;
      if j < |w.jobs| && j < |Step(digest, w, e).jobs| {
        AskedUpdate(w.jobs, j, Step(digest, w, e).jobs[j], kind);
      }
    }
  }

  lemma ArriveAsks(digest: Digest, w: World, r: Request, p: Policy, expires: Option<int>)
    requires |w.cache.lists| == SHARDS
    ensures var w' := ArriveStep(digest, w, r, p, expires);
            && AskedBy(w'.jobs, ForRefresh) == AskedBy(w.jobs, ForRefresh) + StaleAnswers(w'.served[|w.served|..])
            && w'.served == w.served + w'.served[|w.served|..]
            && |w'.served| + |AskedBy(w'.jobs, ForClient)| ==
               |w.served| + |AskedBy(w.jobs, ForClient)| + Lookups([Arrive(r, p, expires)])
  {
    hide KeyOf, IsUpgrade, WantsUpgrade, CacheableRequest, MayUseCache, S.Get, AskedBy;
    UpgradeMeans(r);
    CacheableMeans(p, r);
    OneLookup(Arrive(r, p, expires));
    var w' := ArriveStep(digest, w, r, p, expires);
    var fetch, refresh := Job(ForClient, r, p, expires, [], Fetching), Job(ForRefresh, r, p, expires, [], Claiming);
    AskedAppend(w.jobs, fetch, ForClient);
    AskedAppend(w.jobs, fetch, ForRefresh);
    AskedAppend(w.jobs, refresh, ForClient);
    AskedAppend(w.jobs, refresh, ForRefresh);
    assert AskedBy(w.jobs, ForRefresh) + [] == AskedBy(w.jobs, ForRefresh);
    if |w'.served| > |w.served| {
      var x := w'.served[|w.served|];
      assert w'.served[|w.served|..] == [x];
      StaleAppend([], x);
      assert [] + [x] == [x];
    }
  }

  lemma OneLookup(e: Event)
    requires e.Arrive?
    ensures Lookups([e]) == if MayUseCache(e.policy, e.req) && !WantsUpgrade(e.req) then 1 else 0
  {
    assert [e][..0] == [];
  }

  lemma {:induction false} StaleConcat(a: seq<Served>, b: seq<Served>)
    ensures StaleAnswers(a + b) == StaleAnswers(a) + StaleAnswers(b)
  {
    if b == [] {
      assert a + b == a;
    } else {
      var n := |b| - 1;
      StaleConcat(a, b[..n]);
      assert (a + b)[..|a + b| - 1] == a + b[..n];
    }
  }

  /**
    In every interleaving, the background refreshes are exactly the stale answers, in the same order and for the
    same requests; and every request that may use the cache was answered from it or fetched for its client, once.
  */
  lemma {:induction false} StaleIsRefreshed(digest: Digest, budget: int, start: int, events: seq<Event>)
    ensures var w := Run(digest, budget, start, events);
            && AskedBy(w.jobs, ForRefresh) == StaleAnswers(w.served)
            && |w.served| + |AskedBy(w.jobs, ForClient)| == Lookups(events)
  {
    hide Step, AskedBy, StaleAnswers, MayUseCache, WantsUpgrade;
    if events == [] {
      NobodyAsked();
    } else {
      var n := |events| - 1;
      var w := Run(digest, budget, start, events[..n]);
      StaleIsRefreshed(digest, budget, start, events[..n]);
      match events[n]
      case Arrive(r, p, expires) =>
        ArriveAsks(digest, w, r, p, expires);
        OneLookup(events[n]);
        StaleConcat(w.served, ArriveStep(digest, w, r, p, expires).served[|w.served|..]);
        StepArrives(digest, w, r, p, expires);
      case e =>
        StepAsks(digest, w, e, ForRefresh);
        StepAsks(digest, w, e, ForClient);
    }
  }

  lemma StepArrives(digest: Digest, w: World, r: Request, p: Policy, expires: Option<int>)
    requires |w.cache.lists| == SHARDS
    ensures Step(digest, w, Arrive(r, p, expires)) == ArriveStep(digest, w, r, p, expires)
  {
  }

  lemma NobodyAsked()
    ensures AskedBy([], ForRefresh) == AskedBy([], ForClient) == [] && StaleAnswers([]) == []
  {
  }

  /** A refresh that is claimed while its key is free is then in flight; one whose key is taken ends at once. */
  lemma ClaimDecides(digest: Digest, budget: int, start: int, events: seq<Event>, j: nat)
    requires var w := Run(digest, budget, start, events); j < |w.jobs| && w.jobs[j].phase == Claiming
    ensures var w := Run(digest, budget, start, events); var w' := Step(digest, w, Claim(j));
            var k := KeyOf(digest, w.jobs[j].req);
            && j < |w'.jobs|
            && (k !in w.refreshing ==> InFlight(digest, w'.jobs[j], k) && w'.refreshing == w.refreshing + {k})
            && (k in w.refreshing ==> w'.jobs[j].phase == Ended && w'.refreshing == w.refreshing)
            && forall i :: 0 <= i < |w.jobs| && i != j ==> w'.jobs[i] == w.jobs[i]
  {
    hide Run, KeyOf, Flights;
    RunSingleFlight(digest, budget, start, events);
  }

  // ----- single flight -----

  /** A refresh of key k between its claim and its release. */
  predicate InFlight(digest: Digest, j: Job, k: Key) {
    j.kind == ForRefresh && (j.phase == Fetching || j.phase == Releasing) && KeyOf(digest, j.req) == k
  }

  function Flights(digest: Digest, jobs: seq<Job>, k: Key): nat {
    if jobs == [] then 0
    else Flights(digest, jobs[..|jobs| - 1], k) + if InFlight(digest, jobs[|jobs| - 1], k) then 1 else 0
  }

  ghost predicate SingleFlight(digest: Digest, w: World) {
    && (forall k :: Flights(digest, w.jobs, k) == if k in w.refreshing then 1 else 0)
    && (forall j :: 0 <= j < |w.jobs| && w.jobs[j].phase in {Claiming, Releasing} ==> w.jobs[j].kind == ForRefresh)
  }

  lemma {:induction false} FlightsUpdate(digest: Digest, jobs: seq<Job>, j: nat, job: Job, k: Key)
    requires j < |jobs|
    ensures Flights(digest, jobs[j := job], k) ==
            Flights(digest, jobs, k)
            - (if InFlight(digest, jobs[j], k) then 1 else 0) + (if InFlight(digest, job, k) then 1 else 0)
  {
    hide InFlight;
    var n := |jobs| - 1;
    if j == n {
      assert jobs[j := job][..n] == jobs[..n];
    } else {
      assert jobs[j := job][..n] == jobs[..n][j := job];
      FlightsUpdate(digest, jobs[..n], j, job, k);
    }
  }

  lemma FlightsAppend(digest: Digest, jobs: seq<Job>, job: Job, k: Key)
    ensures Flights(digest, jobs + [job], k) == Flights(digest, jobs, k) + if InFlight(digest, job, k) then 1 else 0
  {
    assert (jobs + [job])[..|jobs|] == jobs;
  }

  /** The jobs and the refreshing set after a step: all that single flight depends on. */
  lemma StepSingleFlight(digest: Digest, w: World, e: Event)
    requires |w.cache.lists| == SHARDS && SingleFlight(digest, w)
    ensures SingleFlight(digest, Step(digest, w, e))
  {
    hide Flights, KeyOf, IsUpgrade, CacheableRequest, Outcome, S.Get, Perform;
    var w' := Step(digest, w, e);
    forall k ensures Flights(digest, w'.jobs, k) == if k in w'.refreshing then 1 else 0 {
      StepFlights(digest, w, e, k);
    }
  }

  lemma StepFlights(digest: Digest, w: World, e: Event, k: Key)
    requires |w.cache.lists| == SHARDS && SingleFlight(digest, w)
    ensures var w' := Step(digest, w, e);
            Flights(digest, w'.jobs, k) == if k in w'.refreshing then 1 else 0
  {
    hide Flights, KeyOf, IsUpgrade, CacheableRequest, Outcome, S.Get, Perform;
    match e
    case Arrive(r, p, expires) =>
      FlightsAppend(digest, w.jobs, Job(ForClient, r, p, expires, [], Fetching), k);
      FlightsAppend(digest, w.jobs, Job(ForRefresh, r, p, expires, [], Claiming), k);
    case Claim(j) => if j < |w.jobs| { PhaseFlights(digest, w, j, k); }
    case Reply(j, call) =>
      if j < |w.jobs| {
        FlightsUpdate(digest, w.jobs, j, w.jobs[j].(calls := w.jobs[j].calls + [call]), k);
      }
    case Finish(j, at, budget) => if j < |w.jobs| { PhaseFlights(digest, w, j, k); }
    case Abort(j) => if j < |w.jobs| { PhaseFlights(digest, w, j, k); }
    case Release(j) => if j < |w.jobs| { PhaseFlights(digest, w, j, k); }
    case _ =>
  }

  lemma PhaseFlights(digest: Digest, w: World, j: nat, k: Key)
    requires j < |w.jobs|
    ensures forall phase: Phase ::
              (Flights(digest, SetPhase(w, j, phase).jobs, k) ==
               Flights(digest, w.jobs, k)
               - (if InFlight(digest, w.jobs[j], k) then 1 else 0)
               + (if InFlight(digest, w.jobs[j].(phase := phase), k) then 1 else 0))
  {
    hide Flights, KeyOf, InFlight;
    forall phase: Phase {
      FlightsUpdate(digest, w.jobs, j, w.jobs[j].(phase := phase), k);
    }
  }

  lemma {:induction false} RunSingleFlight(digest: Digest, budget: int, start: int, events: seq<Event>)
    ensures SingleFlight(digest, Run(digest, budget, start, events))
  {
    hide Step;
    if events != [] {
      RunSingleFlight(digest, budget, start, events[..|events| - 1]);
      StepSingleFlight(digest, Run(digest, budget, start, events[..|events| - 1]), events[|events| - 1]);
    }
  }

  lemma {:induction false} TwoFlights(digest: Digest, jobs: seq<Job>, i: nat, j: nat, k: Key)
    requires i < j < |jobs| && InFlight(digest, jobs[i], k) && InFlight(digest, jobs[j], k)
    ensures Flights(digest, jobs, k) >= 2
    decreases |jobs|
  {
    hide InFlight;
    var n := |jobs| - 1;
    if j < n {
      TwoFlights(digest, jobs[..n], i, j, k);
    } else {
      OneFlight(digest, jobs[..n], i, k);
    }
  }

  lemma {:induction false} OneFlight(digest: Digest, jobs: seq<Job>, i: nat, k: Key)
    requires i < |jobs| && InFlight(digest, jobs[i], k)
    ensures Flights(digest, jobs, k) >= 1
  {
    hide InFlight;
    var n := |jobs| - 1;
    if i < n {
      OneFlight(digest, jobs[..n], i, k);
    }
  }

  lemma {:induction false} SomeFlight(digest: Digest, jobs: seq<Job>, k: Key) returns (i: nat)
    requires Flights(digest, jobs, k) >= 1
    ensures i < |jobs| && InFlight(digest, jobs[i], k)
  {
    hide InFlight;
    var n := |jobs| - 1;
    if InFlight(digest, jobs[n], k) {
      i := n;
    } else {
      i := SomeFlight(digest, jobs[..n], k);
    }
  }

  /**
    Single-flight revalidation, in every interleaving: two refreshes of one key are never in flight
    together, and a key is in the refreshing set exactly while a refresh of it is between claim and
    release - so every claimed key is released when its refresh ends.
  */
  lemma AtMostOneRefresh(digest: Digest, budget: int, start: int, events: seq<Event>, k: Key)
    ensures var w := Run(digest, budget, start, events);
            && (forall i, j :: 0 <= i < j < |w.jobs| ==>
                  !(InFlight(digest, w.jobs[i], k) && InFlight(digest, w.jobs[j], k)))
            && (k in w.refreshing <==> exists i :: 0 <= i < |w.jobs| && InFlight(digest, w.jobs[i], k))
  {
    hide Run, InFlight, Flights;
    var w := Run(digest, budget, start, events);
    RunSingleFlight(digest, budget, start, events);
    assert Flights(digest, w.jobs, k) == if k in w.refreshing then 1 else 0;
    forall i, j | 0 <= i < j < |w.jobs| ensures !(InFlight(digest, w.jobs[i], k) && InFlight(digest, w.jobs[j], k)) {
      if InFlight(digest, w.jobs[i], k) && InFlight(digest, w.jobs[j], k) {
        TwoFlights(digest, w.jobs, i, j, k);
      }
    }
    if k in w.refreshing {
      var i := SomeFlight(digest, w.jobs, k);
    }
    forall i | 0 <= i < |w.jobs| && InFlight(digest, w.jobs[i], k) ensures k in w.refreshing {
      OneFlight(digest, w.jobs, i, k);
    }
  }

  // ----- who writes to the cache -----

  /** This event hands object o to Set under key k: a finished fetch that yields it, or the image endpoint. */
  ghost predicate Writes(digest: Digest, w: World, e: Event, k: Key, o: Object) {
    match e
    case Finish(j, at, _) =>
      && j < |w.jobs| && w.jobs[j].phase == Fetching && at <= w.now
      && KeyOf(digest, w.jobs[j].req) == k && OutcomeOf(w.jobs[j], at) == Some(o)
    case ImageSet(what, obj, _) => ImageKey(digest, what) == k && obj == o
    case _ => false
  }

  ghost predicate WrittenAt(digest: Digest, budget: int, start: int, events: seq<Event>, n: nat, k: Key, o: Object)
    requires n < |events|
  {
    Writes(digest, Run(digest, budget, start, events[..n]), events[n], k, o)
  }

  /** What a fetch, for a client or a refresh, does from its claim to its release. */
  predicate IsJobStep(e: Event) {
    e.Claim? || e.Reply? || e.Finish? || e.Abort? || e.Release?
  }

  lemma JobStepWrites(digest: Digest, w: World, e: Event)
    requires |w.cache.lists| == SHARDS && IsJobStep(e)
    ensures Step(digest, w, e).cache == w.cache || exists k, o :: Writes(digest, w, e, k, o)
  {
    hide Outcome, KeyOf, Perform;
    if e.Finish? && e.job < |w.jobs| && w.jobs[e.job].phase == Fetching && e.at <= w.now {
      if OutcomeOf(w.jobs[e.job], e.at).Some? {
        assert Writes(digest, w, e, KeyOf(digest, w.jobs[e.job].req), OutcomeOf(w.jobs[e.job], e.at).value);
      }
    }
  }

  /**
    Fetches that yield no object leave the whole cache as it is, however their steps interleave: after a
    refresh that fails between its claim and its release, the stale entry is still there.
  */
  lemma {:induction false} NoObjectNoWrite(digest: Digest, budget: int, start: int, events: seq<Event>, n: nat)
    requires n <= |events| && forall m :: n <= m < |events| ==> IsJobStep(events[m])
    requires forall m, k, o :: n <= m < |events| ==> !WrittenAt(digest, budget, start, events, m, k, o)
    ensures Run(digest, budget, start, events).cache == Run(digest, budget, start, events[..n]).cache
  {
    hide Step, Writes;
    var last := |events| - 1;
    if n == |events| {
      assert events[..n] == events;
    } else {
      forall m, k, o | n <= m < last ensures !WrittenAt(digest, budget, start, events[..last], m, k, o) {
        assert events[..last][..m] == events[..m] && !WrittenAt(digest, budget, start, events, m, k, o);
      }
      NoObjectNoWrite(digest, budget, start, events[..last], n);
      assert events[..last][..n] == events[..n];
      var w := Run(digest, budget, start, events[..last]);
      JobStepWrites(digest, w, events[last]);
      forall k, o ensures !Writes(digest, w, events[last], k, o) {
        assert !WrittenAt(digest, budget, start, events, last, k, o);
      }
    }
  }

  /** The critical section inside a step, if it has one. */
  ghost function SectionIn(digest: Digest, w: World, e: Event): Option<Section> {
    match e
    case Arrive(r, p, _) =>
      if IsUpgrade(r) || !CacheableRequest(p, r) then None else Some(Whole(S.DoGet(KeyOf(digest, r), w.now)))
    case Finish(j, at, budget) =>
      if j >= |w.jobs| || w.jobs[j].phase != Fetching || at > w.now || OutcomeOf(w.jobs[j], at).None? then None
      else Some(SetWith(KeyOf(digest, w.jobs[j].req), OutcomeOf(w.jobs[j], at).value, budget))
    case BudgetStore(b) => Some(Publish(b))
    case BudgetEvict(i, share) => Some(EvictShard(i, share))
    case BudgetSet(b) => Some(Whole(S.DoBudget(b)))
    case ImageGet(what) => Some(Whole(S.DoGet(ImageKey(digest, what), w.now)))
    case ImageSet(what, o, b) => Some(SetWith(ImageKey(digest, what), o, b))
    case _ => None
  }

  lemma StepSection(digest: Digest, w: World, e: Event)
    requires |w.cache.lists| == SHARDS
    ensures Step(digest, w, e).cache ==
            match SectionIn(digest, w, e) case None => w.cache case Some(sec) => Perform(w.cache, sec)
  {
    hide S.Get, S.Set, S.SetBudget, KeyOf, ImageKey, IsUpgrade, CacheableRequest, Outcome;
  }

  /** Event e writes o under k and the budget its Set loaded accepts it. */
  ghost predicate Accepted(digest: Digest, w: World, e: Event, k: Key, o: Object) {
    Writes(digest, w, e, k, o) && S.Accepts(e.budget, o.Size())
  }

  lemma SectionStores(digest: Digest, w: World, e: Event, k: Key, o: Object)
    ensures Accepted(digest, w, e, k, o) <==>
            SectionIn(digest, w, e).Some? && Stores(w.cache, SectionIn(digest, w, e).value, k, o)
  {
    hide KeyOf, ImageKey, IsUpgrade, CacheableRequest, Outcome, S.Accepts;
  }

  lemma HeldAfterStep(digest: Digest, w: World, e: Event, x: Entry)
    requires |w.cache.lists| == SHARDS && S.Inv(w.cache) && S.Holds(Step(digest, w, e).cache, x)
    ensures S.Holds(w.cache, x) || Accepted(digest, w, e, x.key, x.obj)
    ensures forall o :: Accepted(digest, w, e, x.key, o) ==> o == x.obj
  {
    hide Step, SectionIn, Accepted, Stores, Perform, S.Inv, S.Holds;
    StepSection(digest, w, e);
    forall o ensures Accepted(digest, w, e, x.key, o) <==>
                     SectionIn(digest, w, e).Some? && Stores(w.cache, SectionIn(digest, w, e).value, x.key, o) {
      SectionStores(digest, w, e, x.key, o);
    }
    if SectionIn(digest, w, e).Some? {
      PerformHolds(w.cache, SectionIn(digest, w, e).value, x);
    }
  }

  lemma {:induction false} RunInv(digest: Digest, budget: int, start: int, events: seq<Event>)
    ensures S.Inv(Run(digest, budget, start, events).cache)
  {
    hide Step, S.Inv, SectionIn, Perform;
    if events == [] {
      S.InitInv(budget);
    } else {
      var w := Run(digest, budget, start, events[..|events| - 1]);
      RunInv(digest, budget, start, events[..|events| - 1]);
      StepSection(digest, w, events[|events| - 1]);
      if SectionIn(digest, w, events[|events| - 1]).Some? {
        PerformKeepsInv(w.cache, SectionIn(digest, w, events[|events| - 1]).value);
      }
    }
  }

  /** Event n writes o under k and the budget its Set loaded accepts it. */
  ghost predicate AcceptedAt(digest: Digest, budget: int, start: int, events: seq<Event>, n: nat, k: Key, o: Object)
    requires n < |events|
  {
    Accepted(digest, Run(digest, budget, start, events[..n]), events[n], k, o)
  }

  lemma AcceptedInPrefix(
      digest: Digest, budget: int, start: int, events: seq<Event>, last: nat, n: nat, k: Key, o: Object)
    requires n < last <= |events|
    ensures AcceptedAt(digest, budget, start, events[..last], n, k, o) <==>
            AcceptedAt(digest, budget, start, events, n, k, o)
  {
    hide Run, Accepted;
    assert events[..last][..n] == events[..n];
  }

  lemma HeldAfterLast(digest: Digest, budget: int, start: int, events: seq<Event>, last: nat, x: Entry)
    requires |events| == last + 1 && S.Holds(Run(digest, budget, start, events).cache, x)
    ensures S.Holds(Run(digest, budget, start, events[..last]).cache, x) ||
            AcceptedAt(digest, budget, start, events, last, x.key, x.obj)
    ensures forall o :: AcceptedAt(digest, budget, start, events, last, x.key, o) ==> o == x.obj
  {
    var w := Run(digest, budget, start, events[..last]);
    RunInv(digest, budget, start, events[..last]);
    assert Run(digest, budget, start, events) == Step(digest, w, events[last]);
    hide Run, Step, Accepted, S.Inv, S.Holds;
    HeldAfterStep(digest, w, events[last], x);
  }

  /** Event n stores o under k, and nothing written under k later is accepted. */
  ghost predicate StoredLast(digest: Digest, budget: int, start: int, events: seq<Event>, n: nat, k: Key, o: Object) {
    && n < |events| && AcceptedAt(digest, budget, start, events, n, k, o)
    && forall m, o' :: n < m < |events| ==> !AcceptedAt(digest, budget, start, events, m, k, o')
  }

  lemma StillStoredLast(
      digest: Digest, budget: int, start: int, events: seq<Event>, last: nat, n: nat, k: Key, o: Object)
    requires |events| == last + 1 && StoredLast(digest, budget, start, events[..last], n, k, o)
    requires forall o' :: !AcceptedAt(digest, budget, start, events, last, k, o')
    ensures StoredLast(digest, budget, start, events, n, k, o)
  {
    hide AcceptedAt;
    AcceptedInPrefix(digest, budget, start, events, last, n, k, o);
    forall m, o' | n < m < |events| ensures !AcceptedAt(digest, budget, start, events, m, k, o') {
      if m < last {
        AcceptedInPrefix(digest, budget, start, events, last, m, k, o');
      }
    }
  }

  /**
    Whatever the cache holds after a run was stored by one event of it, a fetch that yielded exactly that object
    or the image endpoint, and nothing written under its key since then was accepted.
  */
  lemma {:induction false} HeldWasWritten(digest: Digest, budget: int, start: int, events: seq<Event>, x: Entry)
      returns (n: nat)
    requires S.Holds(Run(digest, budget, start, events).cache, x)
    ensures StoredLast(digest, budget, start, events, n, x.key, x.obj)
    decreases |events|
  {
    assert events != [] by {
      if events == [] {
        NothingHeld(budget, start, x);
      }
    }
    var last := |events| - 1;
    HeldAfterLast(digest, budget, start, events, last, x);
    if AcceptedAt(digest, budget, start, events, last, x.key, x.obj) {
      hide Run, AcceptedAt, S.Holds;
      n := last;
    } else {
      hide Run, AcceptedAt, S.Holds, StoredLast;
      n := HeldWasWritten(digest, budget, start, events[..last], x);
      StillStoredLast(digest, budget, start, events, last, n, x.key, x.obj);
    }
  }

  lemma NothingHeld(budget: int, start: int, x: Entry)
    ensures !S.Holds(Init(budget, start).cache, x)
  {
  }

  // ----- end to end: where everything the cache holds or serves comes from -----

  ghost predicate Yields(digest: Digest, x: Stored, k: Key, o: Object) {
    && KeyOf(digest, x.job.req) == k
    && OutcomeOf(x.job, x.at) == Some(o)
  }

  /** The texts a step hashes for a request, or to store a rendition. */
  function TextsOfEvent(e: Event): set<string> {
    match e
    case Arrive(r, _, _) => {TextOf(r)}
    case ImageSet(what, _, _) => {ImageText(what)}
    case _ => {}
  }

  function TextsOf(events: seq<Event>): (texts: set<string>)
    ensures |texts| <= |events|
  {
    if events == [] then {}
    else
      var n := |events| - 1;
      UnionSize(TextsOf(events[..n]), TextsOfEvent(events[n]));
      TextsOf(events[..n]) + TextsOfEvent(events[n])
  }

  /** The key of a rendition stored in the run. */
  ghost predicate IsImageKey(digest: Digest, texts: set<string>, k: Key) {
    exists what: Token :: ImageText(what) in texts && k == ImageKey(digest, what)
  }

  /** The object came out of an exchange for this key recorded by then, or the key belongs to the image endpoint. */
  ghost predicate Traced(digest: Digest, texts: set<string>, stored: seq<Stored>, k: Key, o: Object, until: int) {
    || IsImageKey(digest, texts, k)
    || exists i :: 0 <= i < |stored| && Yields(digest, stored[i], k, o) && stored[i].at <= until
  }

  /** A cacheable request of the run. */
  ghost predicate JobOk(texts: set<string>, j: Job) {
    CacheableRequest(j.policy, j.req) && TextOf(j.req) in texts
  }

  ghost predicate JobsOk(texts: set<string>, w: World) {
    && (forall j :: 0 <= j < |w.jobs| ==> JobOk(texts, w.jobs[j]))
    && (forall i :: 0 <= i < |w.stored| ==> JobOk(texts, w.stored[i].job))
  }

  ghost predicate CacheTraced(digest: Digest, texts: set<string>, w: World)
    requires |w.cache.lists| == SHARDS
  {
    forall e :: S.Holds(w.cache, e) ==> Traced(digest, texts, w.stored, e.key, e.obj, w.now)
  }

  /** An answer from the cache: traced, for a cacheable request, inside its stale window, labelled correctly. */
  ghost predicate ServedOk(digest: Digest, texts: set<string>, stored: seq<Stored>, s: Served) {
    && CacheableRequest(s.policy, s.req) && TextOf(s.req) in texts
    && Traced(digest, texts, stored, KeyOf(digest, s.req), s.obj, s.at)
    && s.at <= s.obj.storedAt + s.obj.ttl + s.obj.staleFor
    && (s.freshness == S.Stale <==> s.at > s.obj.storedAt + s.obj.ttl)
  }

  ghost predicate Sound(digest: Digest, texts: set<string>, w: World)
    requires |w.cache.lists| == SHARDS
  {
    && S.Inv(w.cache)
    && JobsOk(texts, w)
    && CacheTraced(digest, texts, w)
    && forall i :: 0 <= i < |w.served| ==> ServedOk(digest, texts, w.stored, w.served[i])
  }

  lemma UnionSize(a: set<string>, b: set<string>)
    ensures |a + b| <= |a| + |b|
  {
    assert a + b == a + (b - a);
  }

  lemma TracedGrows(digest: Digest, texts: set<string>, stored: seq<Stored>, x: Stored, k: Key, o: Object, until: int)
    ensures Traced(digest, texts, stored, k, o, until) ==> Traced(digest, texts, stored + [x], k, o, until)
    ensures Yields(digest, x, k, o) && x.at <= until ==> Traced(digest, texts, stored + [x], k, o, until)
  {
    hide Yields, IsImageKey;
    assert (stored + [x])[|stored|] == x;
    if i :| 0 <= i < |stored| && Yields(digest, stored[i], k, o) && stored[i].at <= until {
      assert (stored + [x])[i] == stored[i];
    }
  }

  /** A section that stores nothing untraced keeps every entry traced. */
  lemma SectionKeepsTraced(digest: Digest, texts: set<string>, w: World, sec: Section)
    requires |w.cache.lists| == SHARDS && Sound(digest, texts, w)
    requires forall k, o :: Stores(w.cache, sec, k, o) ==> Traced(digest, texts, w.stored, k, o, w.now)
    ensures Sound(digest, texts, w.(cache := Perform(w.cache, sec)))
  {
    hide S.Inv, Perform, Stores, S.Holds, CacheableRequest, Traced, ServedOk;
    PerformKeepsInv(w.cache, sec);
    forall e | S.Holds(Perform(w.cache, sec), e) ensures Traced(digest, texts, w.stored, e.key, e.obj, w.now) {
      PerformHolds(w.cache, sec, e);
    }
  }

  lemma ArriveSound(digest: Digest, texts: set<string>, w: World, r: Request, p: Policy, expires: Option<int>)
    requires |w.cache.lists| == SHARDS && Sound(digest, texts, w) && TextOf(r) in texts
    ensures Sound(digest, texts, ArriveStep(digest, w, r, p, expires))
  {
    hide S.Inv, S.Holds, TextOf, IsUpgrade, CacheableRequest, Traced;
    if !IsUpgrade(r) && CacheableRequest(p, r) {
      var k := KeyOf(digest, r);
      SectionKeepsTraced(digest, texts, w, Whole(S.DoGet(k, w.now)));
      LookupTraced(digest, texts, w, k);
    }
  }

  /** What a lookup returns is a held entry of that key, inside its stale window. */
  lemma LookupTraced(digest: Digest, texts: set<string>, w: World, k: Key)
    requires |w.cache.lists| == SHARDS && CacheTraced(digest, texts, w)
    ensures var (c, obj, f) := S.Get(w.cache, k, w.now);
            obj.Some? ==>
              && Traced(digest, texts, w.stored, k, obj.value, w.now)
              && w.now <= obj.value.storedAt + obj.value.ttl + obj.value.staleFor
              && (f == S.Stale <==> w.now > obj.value.storedAt + obj.value.ttl)
  {
    hide Traced;
    var found := Find(w.cache.lists[ShardOf(k)], k);
    if found.Some? {
      assert S.Holds(w.cache, found.value);
    }
  }

  lemma FinishSound(digest: Digest, texts: set<string>, w: World, j: nat, at: int, budget: int)
    requires |w.cache.lists| == SHARDS && Sound(digest, texts, w) && j < |w.jobs| && at <= w.now
    ensures Sound(digest, texts, FinishStep(digest, w, j, at, budget))
  {
    hide S.Inv, S.Holds, Perform, KeyOf, CacheableRequest, Outcome, Traced;
    var job := w.jobs[j];
    match OutcomeOf(job, at)
    case None =>
    case Some(o) =>
      var k := KeyOf(digest, job.req);
      var x := Stored(job, at);
      var w1 := w.(stored := w.stored + [x]);
      forall k', o', until | Traced(digest, texts, w.stored, k', o', until)
        ensures Traced(digest, texts, w1.stored, k', o', until)
      {
        TracedGrows(digest, texts, w.stored, x, k', o', until);
      }
      TracedGrows(digest, texts, w.stored, x, k, o, w.now);
      SectionKeepsTraced(digest, texts, w1, SetWith(k, o, budget));
  }

  lemma TracedLater(
      digest: Digest, texts: set<string>, stored: seq<Stored>, k: Key, o: Object, until: int, later: int)
    requires Traced(digest, texts, stored, k, o, until) && until <= later
    ensures Traced(digest, texts, stored, k, o, later)
  {
    hide Yields, IsImageKey;
  }

  lemma TickSound(digest: Digest, texts: set<string>, w: World, span: nat)
    requires |w.cache.lists| == SHARDS && Sound(digest, texts, w)
    ensures Sound(digest, texts, w.(now := w.now + span))
  {
    hide S.Inv, S.Holds, JobOk, Traced, ServedOk;
    forall e | S.Holds(w.cache, e) ensures Traced(digest, texts, w.stored, e.key, e.obj, w.now + span) {
      TracedLater(digest, texts, w.stored, e.key, e.obj, w.now, w.now + span);
    }
  }

  lemma StepSound(digest: Digest, texts: set<string>, w: World, e: Event)
    requires |w.cache.lists| == SHARDS && Sound(digest, texts, w) && TextsOfEvent(e) <= texts
    ensures Sound(digest, texts, Step(digest, w, e))
  {
    hide Sound, ArriveStep, FinishStep, Perform;
    match e
    case Arrive(r, p, expires) => ArriveSound(digest, texts, w, r, p, expires);
    case Finish(j, at, budget) => if j < |w.jobs| && at <= w.now { FinishSound(digest, texts, w, j, at, budget); }
    case BudgetStore(b) => SectionKeepsTraced(digest, texts, w, Publish(b));
    case BudgetEvict(i, share) => SectionKeepsTraced(digest, texts, w, EvictShard(i, share));
    case BudgetSet(b) => SectionKeepsTraced(digest, texts, w, Whole(S.DoBudget(b)));
    case Tick(span) => TickSound(digest, texts, w, span);
    case ImageGet(what) => SectionKeepsTraced(digest, texts, w, Whole(S.DoGet(ImageKey(digest, what), w.now)));
    case ImageSet(what, o, b) =>
      assert IsImageKey(digest, texts, ImageKey(digest, what));
      SectionKeepsTraced(digest, texts, w, SetWith(ImageKey(digest, what), o, b));
    case _ => QuietSound(digest, texts, w, e);
  }

  /** Steps that touch neither the cache nor what was served or stored. */
  lemma QuietSound(digest: Digest, texts: set<string>, w: World, e: Event)
    requires |w.cache.lists| == SHARDS && Sound(digest, texts, w)
    requires e.Claim? || e.Reply? || e.Abort? || e.Release?
    ensures Sound(digest, texts, Step(digest, w, e))
  {
    hide S.Inv, S.Holds, KeyOf, CacheableRequest, TextOf, Outcome, Traced, ServedOk;
  }

  lemma {:induction false} RunSound(digest: Digest, texts: set<string>, budget: int, start: int, events: seq<Event>)
    requires TextsOf(events) <= texts
    ensures Sound(digest, texts, Run(digest, budget, start, events))
  {
    hide Step, S.Inv, TextsOfEvent;
    if events == [] {
      S.InitInv(budget);
    } else {
      RunSound(digest, texts, budget, start, events[..|events| - 1]);
      StepSound(digest, texts, Run(digest, budget, start, events[..|events| - 1]), events[|events| - 1]);
    }
  }

  /** What it means for an object to have come from an admissible exchange for this request, over by then. */
  ghost predicate FromExchange(r: Request, o: Object, x: Stored, until: int) {
    var p, calls := x.job.policy, x.job.calls;
    && x.job.req.host == r.host && x.job.req.verb == r.verb && x.job.req.uri == r.uri
    && EncodingOf(x.job.req) == EncodingOf(r)
    && MayUseCache(p, x.job.req) && calls != []
    && Admissible(p, First(calls).0, First(calls).1, o.ttl)
    && o.status == First(calls).0 && o.body == Written(calls)
    && |o.body| <= Max(0, p.maxObjectBytes)
    && o.header == First(calls).1 - HOP_HEADERS
    && o.storedAt == x.at <= until && o.staleFor == p.staleFor
  }

  /** As long as the texts of the run do not collide, traced means traced to an exchange for the same request. */
  lemma TracedMeansExchange(digest: Digest, texts: set<string>, w: World, p: Policy, r: Request, o: Object, until: int)
    requires CollisionFree(digest, texts) && TextOf(r) in texts && CacheableRequest(p, r) && JobsOk(texts, w)
    requires Traced(digest, texts, w.stored, KeyOf(digest, r), o, until)
    ensures exists i :: 0 <= i < |w.stored| && FromExchange(r, o, w.stored[i], until)
  {
    hide CacheableRequest, MayUseCache, Admissible, TextOf, ImageText, EncodingOf, Outcome, CollisionFree;
    if IsImageKey(digest, texts, KeyOf(digest, r)) {
      var what: Token :| ImageText(what) in texts && KeyOf(digest, r) == ImageKey(digest, what);
      CollisionFreeWithin(digest, {TextOf(r), ImageText(what)}, texts);
      ImagesApart(digest, p, r, what);
    }
    var i :| 0 <= i < |w.stored| && Yields(digest, w.stored[i], KeyOf(digest, r), o) && w.stored[i].at <= until;
    var x := w.stored[i];
    assert JobOk(texts, x.job);
    CollisionFreeWithin(digest, {TextOf(x.job.req), TextOf(r)}, texts);
    KeysBind(digest, x.job.req, r);
    CacheableMeans(x.job.policy, x.job.req);
    OutcomeIsSound(x.job.policy, x.job.req.path, x.job.expires, x.job.calls, x.at);
    assert FromExchange(r, o, x, until);
  }

  /**
    End-to-end admission, in every interleaving: every object served from the cache came from an exchange
    completed before, for the same host, method, URI and encoding bucket, whose request was cacheable and whose
    first response header was admissible; its TTL is positive and at most max(7 days, default TTL), its body is
    exactly what was written and within the limit, its header is that first header without the hop-by-hop fields
    and Set-Cookie, and it is never served after StoredAt + TTL + StaleFor. All this as long as no two different
    texts hashed in the run collide.
  */
  lemma EverythingServed(digest: Digest, budget: int, start: int, events: seq<Event>)
    requires CollisionFree(digest, TextsOf(events))
    ensures var w := Run(digest, budget, start, events);
            forall n :: 0 <= n < |w.served| ==>
              var s := w.served[n];
              && s.at <= s.obj.storedAt + s.obj.ttl + s.obj.staleFor
              && (s.freshness == S.Stale <==> s.at > s.obj.storedAt + s.obj.ttl)
              && exists i :: 0 <= i < |w.stored| && FromExchange(s.req, s.obj, w.stored[i], s.at)
  {
    hide Run, S.Inv, CollisionFree, FromExchange, Traced, CacheTraced, TextOf;
    var w, texts := Run(digest, budget, start, events), TextsOf(events);
    RunSound(digest, texts, budget, start, events);
    forall n | 0 <= n < |w.served|
      ensures var s := w.served[n];
              && s.at <= s.obj.storedAt + s.obj.ttl + s.obj.staleFor
              && (s.freshness == S.Stale <==> s.at > s.obj.storedAt + s.obj.ttl)
              && exists i :: 0 <= i < |w.stored| && FromExchange(s.req, s.obj, w.stored[i], s.at)
    {
      var s := w.served[n];
      assert ServedOk(digest, texts, w.stored, s);
      TracedMeansExchange(digest, texts, w, s.policy, s.req, s.obj, s.at);
    }
  }

  /** The same for everything the cache holds under the key of a cacheable request, served yet or not. */
  lemma EverythingHeld(digest: Digest, budget: int, start: int, events: seq<Event>, p: Policy, r: Request, e: Entry)
    requires CollisionFree(digest, TextsOf(events) + {TextOf(r)}) && CacheableRequest(p, r)
    requires e.key == KeyOf(digest, r) && S.Holds(Run(digest, budget, start, events).cache, e)
    ensures var w := Run(digest, budget, start, events);
            exists i :: 0 <= i < |w.stored| && FromExchange(r, e.obj, w.stored[i], w.now)
  {
    hide Run, S.Inv, CollisionFree, FromExchange, Traced, CacheableRequest, TextOf;
    var w, texts := Run(digest, budget, start, events), TextsOf(events) + {TextOf(r)};
    RunSound(digest, texts, budget, start, events);
    TracedMeansExchange(digest, texts, w, p, r, e.obj, w.now);
  }

  /** The hypothesis can be met for every run of fewer than 2^256 events and every request besides. */
  lemma DigestForRun(events: seq<Event>, r: Request)
    requires |events| < HexCount(64)
    ensures exists digest: Digest :: CollisionFree(digest, TextsOf(events) + {TextOf(r)})
  {
    hide HexCount, TextOf, CollisionFree;
    UnionSize(TextsOf(events), {TextOf(r)});
    DigestExists(TextsOf(events) + {TextOf(r)});
  }
}
