/**
  The whole cache as a value: one recency list per shard and the global counters. Each operation of
  internal/cache/cache.go is a function on it; module Cache proves that the class does the same.
*/
module CacheSpec {
  import opened Sums
  import opened Objects
  import opened Recency

  datatype Freshness = Miss | Fresh | Stale

  datatype State = State(
    lists: seq<seq<Entry>>,
    budget: int,
    entries: int,
    bytes: int,
    hits: int,
    misses: int,
    evictions: int)

  function Init(budget: int): State {
    State(seq(SHARDS, _ => []), budget, 0, 0, 0, 0, 0)
  }

  predicate Accepts(budget: int, size: int) {
    !(budget <= 0 || size > budget)
  }

  function Get(st: State, key: Key, now: int): (State, Option<Object>, Freshness)
    requires |st.lists| == SHARDS
  {
    var i := ShardOf(key);
    var l := st.lists[i];
    match Find(l, key)
    case None => (st.(misses := st.misses + 1), None, Miss)
    case Some(e) =>
      if e.obj.Evictable(now) then
        (st.(lists := st.lists[i := Without(l, key)], entries := st.entries - 1,
             bytes := st.bytes - e.size, misses := st.misses + 1), None, Miss)
      else
        (st.(lists := st.lists[i := Touch(l, e)], hits := st.hits + 1),
         Some(e.obj), if e.obj.Expired(now) then Stale else Fresh)
  }

  /** Replace shard i's list by l', adjusting the global counters by the difference. */
  function Replace(st: State, i: nat, l': seq<Entry>): State
    requires i < |st.lists|
  {
    st.(lists := st.lists[i := l'],
        entries := st.entries + |l'| - |st.lists[i]|,
        bytes := st.bytes + Bytes(l') - Bytes(st.lists[i]))
  }

  ghost function Set(st: State, key: Key, obj: Object): State
    requires |st.lists| == SHARDS
  {
    if !Accepts(st.budget, obj.Size()) then st
    else
      var i := ShardOf(key);
      var e := Entry(key, obj, obj.Size());
      var l' := Insert(st.lists[i], e, st.budget / SHARDS);
      Replace(st, i, l').(evictions := st.evictions + 1 + |Without(st.lists[i], key)| - |l'|)
  }

  function Delete(st: State, key: Key): State
    requires |st.lists| == SHARDS
  {
    Replace(st, ShardOf(key), Without(st.lists[ShardOf(key)], key))
  }

  /** Evict in shards 0..n only. */
  function Sweep(st: State, share: int, n: nat): State
    requires n <= |st.lists|
    ensures |Sweep(st, share, n).lists| == |st.lists|
  {
    if n == 0 then st
    else
      var prev := Sweep(st, share, n - 1);
      var l := prev.lists[n - 1];
      var l' := Evict(l, share, None);
      Replace(prev, n - 1, l').(evictions := prev.evictions + |l| - |l'|)
  }

  function Clamp(budget: int): int {
    if budget < 0 then 0 else budget
  }

  function SetBudget(st: State, budget: int): State
    requires |st.lists| == SHARDS
  {
    Sweep(st.(budget := Clamp(budget)), Clamp(budget) / SHARDS, SHARDS)
  }

  // ----- runs -----

  datatype Op =
    | DoGet(key: Key, now: int)
    | DoSet(key: Key, obj: Object)
    | DoDelete(key: Key)
    | DoBudget(budget: int)

  ghost function Apply(st: State, op: Op): (r: State)
    requires |st.lists| == SHARDS
    ensures |r.lists| == SHARDS
  {
    match op
    case DoGet(k, now) => Get(st, k, now).0
    case DoSet(k, o) => Set(st, k, o)
    case DoDelete(k) => Delete(st, k)
    case DoBudget(b) => SetBudget(st, b)
  }

  ghost function Run(budget: int, ops: seq<Op>): (r: State)
    ensures |r.lists| == SHARDS
  {
    if ops == [] then Init(budget) else Apply(Run(budget, ops[..|ops| - 1]), ops[|ops| - 1])
  }

  // ----- the invariant -----

  ghost predicate ShardOk(i: nat, l: seq<Entry>) {
    ListOk(i, l) && Sized(l)
  }

  /** No duplicates, sizes as measured, keys only in their own shard, counters equal to the shard sums. */
  ghost predicate Inv(st: State) {
    && |st.lists| == SHARDS
    && (forall i :: 0 <= i < SHARDS ==> ShardOk(i, st.lists[i]))
    && st.entries == Sum(Lens(st.lists))
    && st.bytes == Sum(Loads(st.lists))
  }

  lemma ReplaceKeepsInv(st: State, i: nat, l': seq<Entry>)
    requires Inv(st) && i < SHARDS && ShardOk(i, l')
    ensures Inv(Replace(st, i, l'))
  {
    hide ShardOk;
    var lists' := st.lists[i := l'];
    assert Lens(lists') == Lens(st.lists)[i := |l'|];
    assert Loads(lists') == Loads(st.lists)[i := Bytes(l')];
    SumUpdate(Lens(st.lists), i, |l'|);
    SumUpdate(Loads(st.lists), i, Bytes(l'));
  }

  lemma ShardWithout(i: nat, l: seq<Entry>, k: Key)
    requires ShardOk(i, l)
    ensures ShardOk(i, Without(l, k))
  {
    hide Without, Has;
    WithoutOk(i, l, k);
    WithoutFacts(l, k);
  }

  lemma ShardPrefix(i: nat, l: seq<Entry>, n: nat)
    requires ShardOk(i, l) && n <= |l|
    ensures ShardOk(i, l[..n])
  {
    PrefixOk(i, l, n);
  }

  lemma ShardEvict(i: nat, l: seq<Entry>, share: int, protect: Option<Entry>)
    requires ShardOk(i, l)
    ensures ShardOk(i, Evict(l, share, protect))
  {
    hide ShardOk;
    EvictIsPrefix(l, share, protect);
    ShardPrefix(i, l, |Evict(l, share, protect)|);
  }

  lemma ShardCons(i: nat, e: Entry, l: seq<Entry>)
    requires ShardOk(i, l) && ShardOf(e.key) == i && 0 < e.size == e.obj.Size()
    ensures ShardOk(i, [e] + Without(l, e.key))
  {
    hide ListOk, Without, Has;
    assert ShardOk(i, l);
    ShardWithout(i, l, e.key);
    WithoutOk(i, l, e.key);
    ConsOk(i, Without(l, e.key), e);
  }

  lemma ShardInsert(i: nat, l: seq<Entry>, e: Entry, share: int)
    requires ShardOk(i, l) && ShardOf(e.key) == i && 0 < e.size == e.obj.Size()
    ensures ShardOk(i, Insert(l, e, share))
  {
    hide ShardOk;
    ShardCons(i, e, l);
    ShardEvict(i, [e] + Without(l, e.key), share, Some(e));
  }

  lemma CountersFree(st: State, h: int, m: int)
    requires Inv(st)
    ensures Inv(st.(hits := h, misses := m))
  {
  }

  lemma ListAt(st: State, i: nat)
    requires Inv(st) && i < SHARDS
    ensures |st.lists| == SHARDS && ShardOk(i, st.lists[i])
  {
  }

  lemma RemovalKeepsInv(st: State, i: nat, k: Key, misses: int)
    requires Inv(st) && i < SHARDS && Find(st.lists[i], k).Some?
    ensures Inv(st.(lists := st.lists[i := Without(st.lists[i], k)], entries := st.entries - 1,
                    bytes := st.bytes - Find(st.lists[i], k).value.size, misses := misses))
  {
    hide Inv, ShardOk, Has, Without, Find;
    ListAt(st, i);
    WithoutBytes(st.lists[i], k);
    ShardWithout(i, st.lists[i], k);
    ReplaceKeepsInv(st, i, Without(st.lists[i], k));
    CountersFree(Replace(st, i, Without(st.lists[i], k)), st.hits, misses);
  }

  lemma TouchKeepsInv(st: State, i: nat, e: Entry, hits: int)
    requires Inv(st) && i < SHARDS && Find(st.lists[i], e.key) == Some(e)
    ensures Inv(st.(lists := st.lists[i := Touch(st.lists[i], e)], hits := hits))
  {
    hide Inv, ShardOk, Has, Without, Find;
    ListAt(st, i);
    var l := st.lists[i];
    FoundOk(i, l, e);
    ShardCons(i, e, l);
    WithoutBytes(l, e.key);
    BytesCons(e, Without(l, e.key));
    ReplaceKeepsInv(st, i, Touch(l, e));
    CountersFree(Replace(st, i, Touch(l, e)), hits, st.misses);
  }

  lemma GetKeepsInv(st: State, k: Key, now: int)
    requires Inv(st)
    ensures Inv(Get(st, k, now).0)
  {
    hide Inv, Has, Without, Find, Touch;
    var i := ShardOf(k);
    ListAt(st, i);
    match Find(st.lists[i], k)
    case None => CountersFree(st, st.hits, st.misses + 1);
    case Some(e) =>
      RemovalKeepsInv(st, i, k, st.misses + 1);
      TouchKeepsInv(st, i, e, st.hits + 1);
  }

  lemma FoundOk(i: nat, l: seq<Entry>, e: Entry)
    requires ShardOk(i, l) && e in l
    ensures ShardOf(e.key) == i && 0 < e.size == e.obj.Size()
  {
  }

  lemma SetKeepsInv(st: State, k: Key, o: Object)
    requires Inv(st)
    ensures Inv(Set(st, k, o))
  {
    hide ShardOk;
    SizeAtLeastOverhead(o);
    var i := ShardOf(k);
    var e := Entry(k, o, o.Size());
    ShardInsert(i, st.lists[i], e, st.budget / SHARDS);
    ReplaceKeepsInv(st, i, Insert(st.lists[i], e, st.budget / SHARDS));
  }

  lemma DeleteKeepsInv(st: State, k: Key)
    requires Inv(st)
    ensures Inv(Delete(st, k))
  {
    hide ShardOk;
    ShardWithout(ShardOf(k), st.lists[ShardOf(k)], k);
    ReplaceKeepsInv(st, ShardOf(k), Without(st.lists[ShardOf(k)], k));
  }

  lemma {:induction false} SweepKeepsInv(st: State, share: int, n: nat)
    requires Inv(st) && n <= SHARDS
    ensures Inv(Sweep(st, share, n))
  {
    hide ShardOk;
    if n > 0 {
      SweepKeepsInv(st, share, n - 1);
      var prev := Sweep(st, share, n - 1);
      ShardEvict(n - 1, prev.lists[n - 1], share, None);
      ReplaceKeepsInv(prev, n - 1, Evict(prev.lists[n - 1], share, None));
    }
  }

  lemma {:induction false} SweepLists(st: State, share: int, n: nat, i: nat)
    requires n <= |st.lists| && i < |st.lists|
    ensures Sweep(st, share, n).lists[i] == if i < n then Evict(st.lists[i], share, None) else st.lists[i]
    ensures Sweep(st, share, n).budget == st.budget
  {
    if n > 0 {
      SweepLists(st, share, n - 1, i);
    }
  }

  lemma InitInv(budget: int)
    ensures Inv(Init(budget))
  {
    var st := Init(budget);
    SumZero(Lens(st.lists));
    SumZero(Loads(st.lists));
  }

  lemma ApplyKeepsInv(st: State, op: Op)
    requires Inv(st)
    ensures Inv(Apply(st, op))
  {
    hide Inv, Get, Set, Delete, Sweep;
    match op
    case DoGet(k, now) => GetKeepsInv(st, k, now);
    case DoSet(k, o) => SetKeepsInv(st, k, o);
    case DoDelete(k) => DeleteKeepsInv(st, k);
    case DoBudget(b) =>
      BudgetFieldKeepsInv(st, Clamp(b));
      SweepKeepsInv(st.(budget := Clamp(b)), Clamp(b) / SHARDS, SHARDS);
  }

  lemma BudgetFieldKeepsInv(st: State, b: int)
    requires Inv(st)
    ensures Inv(st.(budget := b))
  {
  }

  /** Every sequential run keeps the lists well formed and the counters equal to what the lists hold. */
  lemma {:induction false} RunInv(budget: int, ops: seq<Op>)
    ensures Inv(Run(budget, ops))
  {
    hide Inv, Apply;
    if ops == [] {
      InitInv(budget);
    } else {
      RunInv(budget, ops[..|ops| - 1]);
      ApplyKeepsInv(Run(budget, ops[..|ops| - 1]), ops[|ops| - 1]);
    }
  }

  // ----- Get returns the most recent accepted Set -----

  /** The object of the last accepted Set of k that no later Delete of k cancels. */
  ghost function Latest(budget: int, ops: seq<Op>, k: Key): Option<Object> {
    if ops == [] then None
    else
      var before, op := ops[..|ops| - 1], ops[|ops| - 1];
      match op
      case DoSet(k', o) =>
        if k' == k && Accepts(Run(budget, before).budget, o.Size()) then Some(o) else Latest(budget, before, k)
      case DoDelete(k') => if k' == k then None else Latest(budget, before, k)
      case _ => Latest(budget, before, k)
  }

  ghost predicate Holds(st: State, e: Entry)
    requires |st.lists| == SHARDS
  {
    e in st.lists[ShardOf(e.key)]
  }

  lemma DistinctAt(st: State, i: nat)
    requires Inv(st) && i < SHARDS
    ensures |st.lists| == SHARDS && Distinct(st.lists[i])
  {
    assert ShardOk(i, st.lists[i]);
  }

  lemma GetHolds(st: State, k: Key, now: int, x: Entry)
    requires Inv(st) && Holds(Get(st, k, now).0, x)
    ensures Holds(st, x)
  {
    hide Inv, Distinct, Without, Find, Has, Touch;
    var i := ShardOf(x.key);
    DistinctAt(st, i);
    if ShardOf(k) == i {
      var l := st.lists[i];
      WithoutMembers(l, k, x);
      match Find(l, k)
      case None =>
      case Some(e) =>
        if x in Touch(l, e) {
          TouchMembers(l, e, x);
        }
    }
  }

  lemma SetHolds(st: State, k: Key, o: Object, x: Entry)
    requires Inv(st) && Holds(Set(st, k, o), x)
    ensures Accepts(st.budget, o.Size()) && k == x.key ==> x.obj == o
    ensures !(Accepts(st.budget, o.Size()) && k == x.key) ==> Holds(st, x)
  {
    hide Inv, Distinct, Insert;
    var i := ShardOf(x.key);
    DistinctAt(st, i);
    if Accepts(st.budget, o.Size()) && ShardOf(k) == i {
      InsertMembers(st.lists[i], Entry(k, o, o.Size()), st.budget / SHARDS, x);
    }
  }

  lemma DeleteHolds(st: State, k: Key, x: Entry)
    requires Inv(st) && Holds(Delete(st, k), x)
    ensures Holds(st, x) && x.key != k
  {
    hide Inv, Distinct, Without;
    var i := ShardOf(x.key);
    DistinctAt(st, i);
    WithoutMembers(st.lists[i], k, x);
  }

  lemma SetBudgetHolds(st: State, b: int, x: Entry)
    requires Inv(st) && Holds(SetBudget(st, b), x)
    ensures Holds(st, x)
  {
    hide Inv, Sweep, Evict;
    var i := ShardOf(x.key);
    DistinctAt(st, i);
    SweepLists(st.(budget := Clamp(b)), Clamp(b) / SHARDS, SHARDS, i);
    EvictIsPrefix(st.lists[i], Clamp(b) / SHARDS, None);
  }

  /** What an operation can leave in the cache: the object just set, or an entry that was there. */
  lemma ApplyHolds(st: State, op: Op, x: Entry)
    requires Inv(st) && Holds(Apply(st, op), x)
    ensures Holds(st, x) || (op.DoSet? && op.key == x.key && op.obj == x.obj && Accepts(st.budget, op.obj.Size()))
    ensures op.DoSet? && op.key == x.key && Accepts(st.budget, op.obj.Size()) ==> x.obj == op.obj
    ensures op.DoDelete? ==> op.key != x.key
  {
    hide Inv, Holds, Get, Set, Delete, SetBudget, Accepts;
    match op
    case DoGet(k, now) => GetHolds(st, k, now, x);
    case DoSet(k, o) => SetHolds(st, k, o, x);
    case DoDelete(k) => DeleteHolds(st, k, x);
    case DoBudget(b) => SetBudgetHolds(st, b, x);
  }

  lemma {:induction false} HeldIsLatest(budget: int, ops: seq<Op>, x: Entry)
    requires Holds(Run(budget, ops), x)
    ensures Latest(budget, ops, x.key) == Some(x.obj)
  {
    if ops != [] {
      var before, op := ops[..|ops| - 1], ops[|ops| - 1];
      RunInv(budget, before);
      hide Inv, Apply, Holds, Run;
      assert Run(budget, ops) == Apply(Run(budget, before), op);
      ApplyHolds(Run(budget, before), op, x);
      if Holds(Run(budget, before), x) {
        HeldIsLatest(budget, before, x);
      }
    }
  }

  /**
    After any history, Get returns an object only if it is the one last accepted for that key and not
    deleted since, only inside its stale window, and it is Stale exactly past its TTL.
  */
  lemma GetReturnsLatest(budget: int, ops: seq<Op>, k: Key, now: int)
    ensures var (_, r, f) := Get(Run(budget, ops), k, now);
            && (f == Miss <==> r == None)
            && (r.Some? ==> r == Latest(budget, ops, k)
                            && now <= r.value.storedAt + r.value.ttl + r.value.staleFor
                            && (f == Stale <==> now > r.value.storedAt + r.value.ttl))
  {
    var st := Run(budget, ops);
    var found := Find(st.lists[ShardOf(k)], k);
    if found.Some? {
      HeldIsLatest(budget, ops, found.value);
    }
  }

  /**
    Exactly what a Get answers and leaves, after any history: a held object is returned if and only if its stale
    window has not ended, Fresh up to its TTL and Stale after it, and moves to the front of its shard; past the
    window it is dropped. Nothing else in the shard changes its place, no other shard changes at all.
  */
  lemma GetExact(st: State, k: Key, now: int)
    requires Inv(st)
    ensures var (st', r, f) := Get(st, k, now); var i := ShardOf(k);
            && (forall j :: 0 <= j < SHARDS && j != i ==> st'.lists[j] == st.lists[j])
            && st'.budget == st.budget && st'.evictions == st.evictions
            && match Find(st.lists[i], k)
               case None =>
                 r == None && f == Miss && st'.lists == st.lists && st'.hits == st.hits && st'.misses == st.misses + 1
               case Some(e) =>
                 var o := e.obj;
                 if now <= o.storedAt + o.ttl + o.staleFor then
                   && r == Some(o) && f == (if now <= o.storedAt + o.ttl then Fresh else Stale)
                   && MovedToFront(st.lists[i], e, st'.lists[i])
                   && st'.hits == st.hits + 1 && st'.misses == st.misses
                 else
                   && r == None && f == Miss && TakenOut(st.lists[i], e, st'.lists[i])
                   && st'.hits == st.hits && st'.misses == st.misses + 1
  {
    hide Inv, ShardOk, Find, Without, Touch, TakenOut, MovedToFront, Distinct;
    DistinctAt(st, ShardOf(k));
    var l := st.lists[ShardOf(k)];
    if Find(l, k).Some? {
      TakeOut(l, Find(l, k).value);
    }
  }

  /** The same list without that entry, which was its only one of this key. */
  ghost predicate TakenOut(l: seq<Entry>, e: Entry, l': seq<Entry>) {
    && !(exists x :: x in l' && x.key == e.key)
    && exists n :: 0 <= n < |l| && l[n] == e && l' == l[..n] + l[n + 1..]
  }

  ghost predicate MovedToFront(l: seq<Entry>, e: Entry, l': seq<Entry>) {
    l' != [] && l'[0] == e && TakenOut(l, e, l'[1..])
  }

  lemma TakeOut(l: seq<Entry>, e: Entry)
    requires Distinct(l) && Find(l, e.key) == Some(e)
    ensures TakenOut(l, e, Without(l, e.key)) && MovedToFront(l, e, Touch(l, e))
  {
    var n :| 0 <= n < |l| && l[n] == e;
    WithoutAt(l, n);
    assert Without(l, e.key) == l[..n] + l[n + 1..];
    assert Touch(l, e)[1..] == Without(l, e.key);
  }

  lemma {:induction false} WithoutAt(l: seq<Entry>, n: nat)
    requires Distinct(l) && n < |l|
    ensures Without(l, l[n].key) == l[..n] + l[n + 1..]
  {
    if n > 0 {
      assert l[0].key != l[n].key;
      WithoutAt(l[1..], n - 1);
      assert [l[0]] + l[1..][..n - 1] == l[..n] && l[1..][n..] == l[n + 1..];
    }
  }

  /**
    A Set is accepted exactly when the budget is positive and the object fits it. A refused one changes nothing,
    an older entry of the key stays; an accepted one is found by a Get at exactly the times up to the end of its
    stale window.
  */
  lemma RefusedSetKeepsOlder(st: State, k: Key, o: Object)
    requires |st.lists| == SHARDS
    ensures !(0 < st.budget && o.Size() <= st.budget) ==> Set(st, k, o) == st
    ensures Inv(st) && 0 < st.budget && o.Size() <= st.budget ==>
              forall now :: Get(Set(st, k, o), k, now).1 ==
                            if now <= o.storedAt + o.ttl + o.staleFor then Some(o) else None
  {
    if Inv(st) && Accepts(st.budget, o.Size()) {
      var l := st.lists[ShardOf(k)];
      var e := Entry(k, o, o.Size());
      assert ShardOk(ShardOf(k), l);
      SizeAtLeastOverhead(o);
      InsertExact(l, e, st.budget / SHARDS);
    }
  }

  // ----- how much the cache can hold -----

  ghost predicate Within(lists: seq<seq<Entry>>, share: int) {
    forall i :: 0 <= i < |lists| ==> Bytes(lists[i]) <= share
  }

  lemma LoadsWithin(lists: seq<seq<Entry>>, budget: int)
    requires |lists| == SHARDS && 0 <= budget && Within(lists, budget / SHARDS)
    ensures Sum(Loads(lists)) <= budget
  {
    forall i | 0 <= i < |lists| ensures Loads(lists)[i] <= budget / SHARDS {
    }
    SumUpper(Loads(lists), budget / SHARDS);
  }

  /** SetBudget leaves in every shard exactly the longest prefix that fits the new share. */
  lemma SetBudgetExact(st: State, budget: int, i: nat)
    requires Inv(st) && i < SHARDS
    ensures var r, was := SetBudget(st, budget).lists[i], st.lists[i];
            && |r| <= |was| && r == was[..|r|]
            && Bytes(r) <= Clamp(budget) / SHARDS
            && forall k :: 0 <= k <= |was| ==> (k <= |r| <==> Bytes(was[..k]) <= Clamp(budget) / SHARDS)
  {
    var share := Clamp(budget) / SHARDS;
    SweepLists(st.(budget := Clamp(budget)), share, SHARDS, i);
    assert ShardOk(i, st.lists[i]);
    EvictLongest(st.lists[i], share);
    var r := Evict(st.lists[i], share, None);
    assert st.lists[i][..|r|] == r;
  }

  /** Right after SetBudget the whole cache is within the (non-negative) budget. */
  lemma SetBudgetWithin(st: State, budget: int)
    requires Inv(st)
    ensures var r := SetBudget(st, budget);
            r.budget == Clamp(budget) && Within(r.lists, Clamp(budget) / SHARDS) && r.bytes <= r.budget
  {
    var r := SetBudget(st, budget);
    SweepKeepsInv(st.(budget := Clamp(budget)), Clamp(budget) / SHARDS, SHARDS);
    SweepLists(st.(budget := Clamp(budget)), Clamp(budget) / SHARDS, SHARDS, 0);
    assert Inv(r);
    hide SetBudget, ShardOk;
    forall i | 0 <= i < SHARDS ensures Bytes(r.lists[i]) <= Clamp(budget) / SHARDS {
      SetBudgetExact(st, budget, i);
    }
    LoadsWithin(r.lists, Clamp(budget));
  }

  /**
    An accepted Set leaves exactly the longest most-recent-first prefix that fits the share, or the new
    entry alone when it exceeds the share by itself; so the shard is within its share exactly when the new
    object fits it. Other shards are untouched.
  */
  lemma SetExact(st: State, k: Key, o: Object)
    requires Inv(st) && Accepts(st.budget, o.Size())
    ensures var i, share := ShardOf(k), st.budget / SHARDS;
            var all, r := [Entry(k, o, o.Size())] + Without(st.lists[i], k), Set(st, k, o).lists[i];
            && 1 <= |r| <= |all| && r == all[..|r|]
            && (forall n :: 1 <= n <= |all| ==> (n <= |r| <==> n == 1 || Bytes(all[..n]) <= share))
            && (Bytes(r) <= share <==> o.Size() <= share)
    ensures forall i :: 0 <= i < SHARDS && i != ShardOf(k) ==> Set(st, k, o).lists[i] == st.lists[i]
  {
    hide Inv, Insert, Without;
    ListAt(st, ShardOf(k));
    SizeAtLeastOverhead(o);
    InsertExact(st.lists[ShardOf(k)], Entry(k, o, o.Size()), st.budget / SHARDS);
  }

  /** ServeHTTP's demand fill - Get, then Set on a miss - acts on its shard as Recency.DemandFill and on no other. */
  lemma DemandFillIsGetThenSet(st: State, k: Key, o: Object, now: int)
    requires Inv(st)
    ensures var (got, hit, _) := Get(st, k, now);
            var after := if hit.Some? then got else Set(got, k, o);
            && after.lists[ShardOf(k)] == DemandFill(st.lists[ShardOf(k)], st.budget, Demand(k, o, o.Size(), now))
            && forall i :: 0 <= i < SHARDS && i != ShardOf(k) ==> after.lists[i] == st.lists[i]
  {
    hide Inv, Insert, Without, Find, Touch;
    ListAt(st, ShardOf(k));
  }

  /** Every object accepted along the run fitted one shard's share at that time. */
  ghost predicate AllFitOneShare(budget: int, ops: seq<Op>) {
    ops == [] ||
    var before, op := ops[..|ops| - 1], ops[|ops| - 1];
    var b := Run(budget, before).budget;
    && AllFitOneShare(budget, before)
    && (op.DoSet? && Accepts(b, op.obj.Size()) ==> op.obj.Size() <= b / SHARDS)
  }

  lemma GetLoad(st: State, k: Key, now: int)
    requires Inv(st)
    ensures var r := Get(st, k, now).0;
            && r.budget == st.budget
            && Bytes(r.lists[ShardOf(k)]) <= Bytes(st.lists[ShardOf(k)])
            && forall i :: 0 <= i < SHARDS && i != ShardOf(k) ==> r.lists[i] == st.lists[i]
  {
    var l := st.lists[ShardOf(k)];
    assert ShardOk(ShardOf(k), l);
    WithoutBytes(l, k);
    hide Without;
    match Find(l, k)
    case None =>
    case Some(e) => BytesCons(e, Without(l, k));
  }

  lemma DeleteLoad(st: State, k: Key)
    requires Inv(st)
    ensures var r := Delete(st, k);
            && r.budget == st.budget
            && Bytes(r.lists[ShardOf(k)]) <= Bytes(st.lists[ShardOf(k)])
            && forall i :: 0 <= i < SHARDS && i != ShardOf(k) ==> r.lists[i] == st.lists[i]
  {
    assert ShardOk(ShardOf(k), st.lists[ShardOf(k)]);
    WithoutBytes(st.lists[ShardOf(k)], k);
  }

  lemma ApplyWithin(st: State, op: Op)
    requires Inv(st) && Within(st.lists, Clamp(st.budget) / SHARDS)
    requires op.DoSet? && Accepts(st.budget, op.obj.Size()) ==> op.obj.Size() <= st.budget / SHARDS
    ensures Within(Apply(st, op).lists, Clamp(Apply(st, op).budget) / SHARDS)
  {
    assert |st.lists| == SHARDS;
    hide Get, SetBudget, Inv, Insert, Without;
    match op
    case DoGet(k, now) => GetLoad(st, k, now);
    case DoSet(k, o) =>
      if Accepts(st.budget, o.Size()) {
        SetExact(st, k, o);
      }
    case DoDelete(k) =>
      DeleteLoad(st, k);
    case DoBudget(b) => SetBudgetWithin(st, b);
  }

  /** When every accepted object fits one share, the cache never exceeds its budget, at any point of any run. */
  lemma {:induction false} RunWithinBudget(budget: int, ops: seq<Op>)
    requires AllFitOneShare(budget, ops)
    ensures Within(Run(budget, ops).lists, Clamp(Run(budget, ops).budget) / SHARDS)
    ensures Run(budget, ops).bytes <= Clamp(Run(budget, ops).budget)
  {
    RunInv(budget, ops);
    if ops != [] {
      var before, op := ops[..|ops| - 1], ops[|ops| - 1];
      RunInv(budget, before);
      RunWithinBudget(budget, before);
      hide Apply;
      ApplyWithin(Run(budget, before), op);
    }
    LoadsWithin(Run(budget, ops).lists, Clamp(Run(budget, ops).budget));
  }
}
