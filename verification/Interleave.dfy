/**
  The cache under concurrency (internal/cache/cache.go): any number of goroutines run Get, Set, Delete
  and SetBudget, and the schedule may switch between them at every lock operation, every load or store
  of the budget and every atomic add. Work on one shard between two such points is done under the
  shard's mutex and touches nothing shared, so it is one step.
*/
module Interleave {
  import opened Sums
  import opened Objects
  import opened Recency
  import S = CacheSpec

  type Tid = nat

  datatype Shard = Shard(list: seq<Entry>, owner: Option<Tid>)

  /** What a call does once a removal it made has been taken off the counters. */
  datatype Next =
    | Finish                                                                  // Get: already unlocked
    | Unlock(shard: nat)                                                      // Delete
    | Insert(shard: nat, e: Entry, share: int)                                // Set, before PushFront
    | Loop(shard: nat, share: int, protect: Option<Entry>, sweep: bool)       // head of the eviction loop

  datatype Pc =
    | Idle
    | Loaded(e: Entry, budget: int)                 // Set: size checked against this budget, lock not yet taken
    | Sweeping(share: int, i: nat)                  // SetBudget: about to lock shard i
    | At(next: Next)
    | OwesEntry(size: int, next: Next)              // removed an entry; entries.Add(-1) and bytes.Add(-size) to come
    | OwesBytes(size: int, next: Next)              // bytes.Add(-size) to come
    | NewEntry(shard: nat, e: Entry, share: int)    // pushed; entries.Add(1) and bytes.Add(size) to come
    | NewBytes(shard: nat, e: Entry, share: int)    // bytes.Add(size) to come

  datatype System = System(
    shards: seq<Shard>,
    budget: int,
    largest: int,      // the largest budget published so far, at least 0
    entries: int,
    bytes: int,
    pcs: seq<Pc>)

  /** What a goroutine's next step is; arguments are given where a call starts. */
  datatype Action =
    | StartGet(key: Key, now: int)
    | StartSet(key: Key, obj: Object)
    | StartDelete(key: Key)
    | StartSetBudget(budget: int)
    | Continue

  function Init(budget: int, threads: nat): System {
    System(seq(SHARDS, _ => Shard([], None)), budget, Max(0, budget), 0, 0, seq(threads, _ => Idle))
  }

  function Holding(next: Next): Option<nat> {
    match next
    case Finish => None
    case Unlock(i) => Some(i)
    case Insert(i, _, _) => Some(i)
    case Loop(i, _, _, _) => Some(i)
  }

  /** The shard whose mutex a goroutine holds at this point. */
  function Held(pc: Pc): Option<nat> {
    match pc
    case Idle => None
    case Loaded(_, _) => None
    case Sweeping(_, _) => None
    case At(next) => Holding(next)
    case OwesEntry(_, next) => Holding(next)
    case OwesBytes(_, next) => Holding(next)
    case NewEntry(i, _, _) => Some(i)
    case NewBytes(i, _, _) => Some(i)
  }

  /** Store t's new program counter and shard i's new contents; add to the counters. */
  function Put(s: System, t: Tid, pc: Pc, i: nat, sh: Shard): System
    requires t < |s.pcs| && i < |s.shards|
  {
    s.(pcs := s.pcs[t := pc], shards := s.shards[i := sh])
  }

  function Move(s: System, t: Tid, pc: Pc): System
    requires t < |s.pcs|
  {
    s.(pcs := s.pcs[t := pc])
  }

  /** The steps a goroutine takes inside a call; a step whose lock is taken does nothing (it waits). */
  function Proceed(s: System, t: Tid): (r: System)
    requires t < |s.pcs| && |s.shards| == SHARDS
    ensures |r.shards| == |s.shards| && |r.pcs| == |s.pcs|
  {
    if Held(s.pcs[t]).Some? && Held(s.pcs[t]).value >= SHARDS then s  // no such mutex: not reachable
    else match s.pcs[t]
    case Idle => s
    case Loaded(e, b) =>
      var i := ShardOf(e.key);
      var sh := s.shards[i];
      if sh.owner.Some? then s
      else
        var next := Insert(i, e, b / SHARDS);
        (match Find(sh.list, e.key)
         case None => Put(s, t, At(next), i, Shard(sh.list, Some(t)))
         case Some(was) => Put(s, t, OwesEntry(was.size, next), i, Shard(Without(sh.list, e.key), Some(t))))
    case Sweeping(share, i) =>
      if i >= SHARDS || s.shards[i].owner.Some? then s
      else Put(s, t, At(Loop(i, share, None, true)), i, s.shards[i].(owner := Some(t)))
    case At(Finish) => Move(s, t, Idle)
    case At(Unlock(i)) => Put(s, t, Idle, i, s.shards[i].(owner := None))
    case At(Insert(i, e, share)) => Put(s, t, NewEntry(i, e, share), i, s.shards[i].(list := [e] + s.shards[i].list))
    case At(Loop(i, share, protect, sweep)) =>
      var l := s.shards[i].list;
      if Bytes(l) <= share || l == [] || protect == Some(l[|l| - 1]) then
        Put(s, t, if sweep && i + 1 < SHARDS then Sweeping(share, i + 1) else Idle, i, Shard(l, None))
      else
        Put(s, t, OwesEntry(l[|l| - 1].size, Loop(i, share, protect, sweep)), i, s.shards[i].(list := l[..|l| - 1]))
    case OwesEntry(size, next) => Move(s, t, OwesBytes(size, next)).(entries := s.entries - 1)
    case OwesBytes(size, next) => Move(s, t, if next.Finish? then Idle else At(next)).(bytes := s.bytes - size)
    case NewEntry(i, e, share) => Move(s, t, NewBytes(i, e, share)).(entries := s.entries + 1)
    case NewBytes(i, e, share) => Move(s, t, At(Loop(i, share, Some(e), false))).(bytes := s.bytes + e.size)
  }

  ghost function Start(s: System, t: Tid, a: Action): (r: System)
    requires t < |s.pcs| && |s.shards| == SHARDS && !a.Continue?
    ensures |r.shards| == |s.shards| && |r.pcs| == |s.pcs|
  {
    match a
    case StartGet(k, now) =>
      var i := ShardOf(k);
      var sh := s.shards[i];
      if sh.owner.Some? then s
      else (
        match Find(sh.list, k)
        case None => s
        case Some(e) =>
          if e.obj.Evictable(now) then Put(s, t, OwesEntry(e.size, Finish), i, sh.(list := Without(sh.list, k)))
          else Put(s, t, Idle, i, sh.(list := Touch(sh.list, e))))
    case StartSet(k, o) =>
      if S.Accepts(s.budget, o.Size()) then Move(s, t, Loaded(Entry(k, o, o.Size()), s.budget)) else s
    case StartDelete(k) =>
      var i := ShardOf(k);
      var sh := s.shards[i];
      if sh.owner.Some? then s
      else (
        match Find(sh.list, k)
        case None => s
        case Some(e) => Put(s, t, OwesEntry(e.size, Unlock(i)), i, Shard(Without(sh.list, k), Some(t))))
    case StartSetBudget(b) =>
      Move(s, t, Sweeping(S.Clamp(b) / SHARDS, 0)).(budget := S.Clamp(b), largest := Max(s.largest, S.Clamp(b)))
  }

  ghost function Step(s: System, t: Tid, a: Action): (r: System)
    requires t < |s.pcs| && |s.shards| == SHARDS
    ensures |r.shards| == |s.shards| && |r.pcs| == |s.pcs|
  {
    match a
    case Continue => Proceed(s, t)
    case _ => if s.pcs[t] != Idle then s else Start(s, t, a)
  }

  // ----- the deltas still owed to the counters -----

  function EntriesOwed(pc: Pc): int {
    match pc
    case OwesEntry(_, _) => -1
    case NewEntry(_, _, _) => 1
    case _ => 0
  }

  function BytesOwed(pc: Pc): int {
    match pc
    case OwesEntry(size, _) => -size
    case OwesBytes(size, _) => -size
    case NewEntry(_, e, _) => e.size
    case NewBytes(_, e, _) => e.size
    case _ => 0
  }

  function EntriesPending(pcs: seq<Pc>): (r: seq<int>)
    ensures |r| == |pcs| && forall t :: 0 <= t < |pcs| ==> r[t] == EntriesOwed(pcs[t])
  {
    seq(|pcs|, t requires 0 <= t < |pcs| => EntriesOwed(pcs[t]))
  }

  function BytesPending(pcs: seq<Pc>): (r: seq<int>)
    ensures |r| == |pcs| && forall t :: 0 <= t < |pcs| ==> r[t] == BytesOwed(pcs[t])
  {
    seq(|pcs|, t requires 0 <= t < |pcs| => BytesOwed(pcs[t]))
  }

  function Lists(shards: seq<Shard>): (r: seq<seq<Entry>>)
    ensures |r| == |shards| && forall i :: 0 <= i < |shards| ==> r[i] == shards[i].list
  {
    seq(|shards|, i requires 0 <= i < |shards| => shards[i].list)
  }

  // ----- the invariant -----

  /** At most one entry, or within the share of the largest budget ever published. */
  predicate Fits(l: seq<Entry>, largest: int) {
    |l| <= 1 || Bytes(l) <= largest / SHARDS
  }

  /** What holds of the locked shard's list at each point of the call that locked it. */
  ghost predicate NextOk(next: Next, l: seq<Entry>, largest: int) {
    match next
    case Finish => true
    case Unlock(i) => Fits(l, largest)
    case Insert(i, e, share) => 0 < e.size && ShardOf(e.key) == i && share <= largest / SHARDS && !Has(l, e.key)
    case Loop(i, share, protect, sweep) =>
      && share <= largest / SHARDS
      && (protect.Some? ==> l != [] && l[0] == protect.value)
      && (protect == None || sweep ==> 0 <= share)
  }

  ghost predicate PcOk(pc: Pc, l: seq<Entry>, largest: int) {
    match pc
    case Idle => true
    case Loaded(e, b) => 0 < e.size == e.obj.Size() && S.Accepts(b, e.size) && b <= largest
    case Sweeping(share, i) => 0 <= share <= largest / SHARDS && i < SHARDS
    case At(next) => !next.Finish? && NextOk(next, l, largest)
    case OwesEntry(size, next) => 0 < size && NextOk(next, l, largest)
    case OwesBytes(size, next) => 0 < size && NextOk(next, l, largest)
    case NewEntry(i, e, share) => share <= largest / SHARDS && l != [] && l[0] == e
    case NewBytes(i, e, share) => share <= largest / SHARDS && l != [] && l[0] == e
  }

  /** The list a goroutine has locked ([] when it holds no lock). */
  function Locked(pc: Pc, shards: seq<Shard>): seq<Entry> {
    match Held(pc)
    case None => []
    case Some(i) => if i < |shards| then shards[i].list else []
  }

  /** A shard's owner is exactly the goroutine whose program counter says it holds that mutex. */
  ghost predicate Exclusive(s: System)
    requires |s.shards| == SHARDS
  {
    && (forall t, i :: 0 <= t < |s.pcs| && 0 <= i < SHARDS ==>
          (Held(s.pcs[t]) == Some(i) <==> s.shards[i].owner == Some(t)))
    && (forall i :: 0 <= i < SHARDS ==> s.shards[i].owner.Some? ==> s.shards[i].owner.value < |s.pcs|)
    && (forall t :: 0 <= t < |s.pcs| && Held(s.pcs[t]).Some? ==> Held(s.pcs[t]).value < SHARDS)
  }

  ghost predicate Local(s: System) {
    && |s.shards| == SHARDS
    && Exclusive(s)
    && (forall i :: 0 <= i < SHARDS ==> ListOk(i, s.shards[i].list))
    && (forall i :: 0 <= i < SHARDS && s.shards[i].owner == None ==> Fits(s.shards[i].list, s.largest))
    && (forall t :: 0 <= t < |s.pcs| ==> PcOk(s.pcs[t], Locked(s.pcs[t], s.shards), s.largest))
    && s.budget <= s.largest && 0 <= s.largest
  }

  /** Counter plus the deltas still to be added is the true total. */
  ghost predicate Accounted(s: System) {
    && s.entries + Sum(EntriesPending(s.pcs)) == Sum(Lens(Lists(s.shards)))
    && s.bytes + Sum(BytesPending(s.pcs)) == Sum(Loads(Lists(s.shards)))
  }

  ghost predicate Inv(s: System) {
    Local(s) && Accounted(s)
  }

  lemma InitInv(budget: int, threads: nat)
    ensures Inv(Init(budget, threads))
  {
    var s := Init(budget, threads);
    SumZero(EntriesPending(s.pcs));
    SumZero(BytesPending(s.pcs));
    SumZero(Lens(Lists(s.shards)));
    SumZero(Loads(Lists(s.shards)));
  }

  // ----- one goroutine's step, whatever it is, seen from outside -----

  lemma PutAccounted(s: System, t: Tid, pc: Pc, i: nat, sh: Shard, de: int, db: int)
    requires |s.shards| == SHARDS && t < |s.pcs| && i < SHARDS && Accounted(s)
    requires de == |sh.list| - |s.shards[i].list| - EntriesOwed(pc) + EntriesOwed(s.pcs[t])
    requires db == Bytes(sh.list) - Bytes(s.shards[i].list) - BytesOwed(pc) + BytesOwed(s.pcs[t])
    ensures Accounted(Put(s, t, pc, i, sh).(entries := s.entries + de, bytes := s.bytes + db))
  {
    var s' := Put(s, t, pc, i, sh);
    assert EntriesPending(s'.pcs) == EntriesPending(s.pcs)[t := EntriesOwed(pc)];
    assert BytesPending(s'.pcs) == BytesPending(s.pcs)[t := BytesOwed(pc)];
    assert Lens(Lists(s'.shards)) == Lens(Lists(s.shards))[i := |sh.list|];
    assert Loads(Lists(s'.shards)) == Loads(Lists(s.shards))[i := Bytes(sh.list)];
    SumUpdate(EntriesPending(s.pcs), t, EntriesOwed(pc));
    SumUpdate(BytesPending(s.pcs), t, BytesOwed(pc));
    SumUpdate(Lens(Lists(s.shards)), i, |sh.list|);
    SumUpdate(Loads(Lists(s.shards)), i, Bytes(sh.list));
  }

  lemma PutExclusive(s: System, t: Tid, pc: Pc, i: nat, sh: Shard)
    requires |s.shards| == SHARDS && Exclusive(s) && t < |s.pcs| && i < SHARDS
    requires s.shards[i].owner == None || s.shards[i].owner == Some(t)
    requires Held(s.pcs[t]) == None || Held(s.pcs[t]) == Some(i)
    requires sh.owner == (if Held(pc) == Some(i) then Some(t) else None)
    requires Held(pc) == None || Held(pc) == Some(i)
    ensures Exclusive(Put(s, t, pc, i, sh))
  {
    hide Held;
  }

  /** The other goroutines hold other shards, so what they rely on is unchanged. */
  lemma PutPoint(s: System, t: Tid, pc: Pc, i: nat, sh: Shard, u: Tid)
    requires |s.shards| == SHARDS && Exclusive(s) && t < |s.pcs| && i < SHARDS && u < |s.pcs|
    requires s.shards[i].owner == None || s.shards[i].owner == Some(t)
    requires Held(pc) == None || Held(pc) == Some(i)
    requires PcOk(s.pcs[u], Locked(s.pcs[u], s.shards), s.largest)
    requires PcOk(pc, if Held(pc) == Some(i) then sh.list else [], s.largest)
    ensures var s' := Put(s, t, pc, i, sh); PcOk(s'.pcs[u], Locked(s'.pcs[u], s'.shards), s'.largest)
  {
    hide PcOk, Held;
    if u != t {
      assert Held(s.pcs[u]) != Some(i);
    }
  }

  lemma PutLocal(s: System, t: Tid, pc: Pc, i: nat, sh: Shard)
    requires Local(s) && t < |s.pcs| && i < SHARDS
    requires s.shards[i].owner == None || s.shards[i].owner == Some(t)
    requires Held(s.pcs[t]) == None || Held(s.pcs[t]) == Some(i)
    requires sh.owner == (if Held(pc) == Some(i) then Some(t) else None)
    requires Held(pc) == None || Held(pc) == Some(i)
    requires ListOk(i, sh.list)
    requires sh.owner == None ==> Fits(sh.list, s.largest)
    requires PcOk(pc, if Held(pc) == Some(i) then sh.list else [], s.largest)
    ensures Local(Put(s, t, pc, i, sh))
  {
    hide Exclusive, ListOk, Fits, PcOk, Held, Locked;
    var s' := Put(s, t, pc, i, sh);
    PutExclusive(s, t, pc, i, sh);
    forall u | 0 <= u < |s'.pcs|
      ensures PcOk(s'.pcs[u], Locked(s'.pcs[u], s'.shards), s'.largest)
    {
      PutPoint(s, t, pc, i, sh, u);
    }
  }

  lemma MoveLocal(s: System, t: Tid, pc: Pc)
    requires Local(s) && t < |s.pcs|
    requires Held(pc) == Held(s.pcs[t])
    requires PcOk(pc, Locked(pc, s.shards), s.largest)
    ensures Local(Move(s, t, pc))
  {
  }

  // ----- every kind of step keeps the invariant -----

  lemma PointOf(s: System, t: Tid)
    requires Inv(s) && t < |s.pcs|
    ensures |s.shards| == SHARDS && s.budget <= s.largest && 0 <= s.largest
    ensures PcOk(s.pcs[t], Locked(s.pcs[t], s.shards), s.largest)
    ensures Held(s.pcs[t]).Some? ==> Held(s.pcs[t]).value < SHARDS
  {
    hide PcOk, Fits, ListOk, Accounted;
  }

  lemma OwnerOf(s: System, t: Tid, i: nat)
    requires Inv(s) && t < |s.pcs| && i < SHARDS
    ensures |s.shards| == SHARDS
    ensures Held(s.pcs[t]) == Some(i) <==> s.shards[i].owner == Some(t)
    ensures s.shards[i].owner.Some? ==> s.shards[i].owner.value < |s.pcs|
  {
    hide PcOk, Fits, ListOk, Accounted;
  }

  lemma ListOf(s: System, i: nat)
    requires Inv(s) && i < SHARDS
    ensures ListOk(i, s.shards[i].list)
    ensures s.shards[i].owner == None ==> Fits(s.shards[i].list, s.largest)
  {
    hide PcOk, Fits, ListOk, Accounted;
  }

  lemma PutInv(s: System, t: Tid, pc: Pc, i: nat, sh: Shard)
    requires Inv(s) && t < |s.pcs| && i < SHARDS
    requires s.shards[i].owner == None || s.shards[i].owner == Some(t)
    requires Held(s.pcs[t]) == None || Held(s.pcs[t]) == Some(i)
    requires sh.owner == (if Held(pc) == Some(i) then Some(t) else None)
    requires Held(pc) == None || Held(pc) == Some(i)
    requires ListOk(i, sh.list)
    requires sh.owner == None ==> Fits(sh.list, s.largest)
    requires PcOk(pc, if Held(pc) == Some(i) then sh.list else [], s.largest)
    requires |sh.list| - EntriesOwed(pc) == |s.shards[i].list| - EntriesOwed(s.pcs[t])
    requires Bytes(sh.list) - BytesOwed(pc) == Bytes(s.shards[i].list) - BytesOwed(s.pcs[t])
    ensures Inv(Put(s, t, pc, i, sh))
  {
    hide Local, Accounted, ListOk, Fits, PcOk, Bytes;
    PointOf(s, t);
    PutLocal(s, t, pc, i, sh);
    PutAccounted(s, t, pc, i, sh, 0, 0);
  }

  lemma RemovalFits(i: nat, l: seq<Entry>, k: Key, largest: int)
    requires ListOk(i, l) && Fits(l, largest)
    ensures Fits(Without(l, k), largest)
  {
    hide Without;
    WithoutOk(i, l, k);
    WithoutBytes(l, k);
  }

  lemma TouchFits(i: nat, l: seq<Entry>, e: Entry, largest: int)
    requires ListOk(i, l) && Find(l, e.key) == Some(e) && Fits(l, largest)
    ensures Fits(Touch(l, e), largest)
  {
    TouchOk(i, l, e);
  }

  lemma DropLastOk(i: nat, l: seq<Entry>)
    requires ListOk(i, l) && l != []
    ensures ListOk(i, l[..|l| - 1]) && 0 < l[|l| - 1].size && Bytes(l[..|l| - 1]) == Bytes(l) - l[|l| - 1].size
  {
    assert forall e :: e in l[..|l| - 1] ==> e in l;
  }

  lemma LoopDone(i: nat, l: seq<Entry>, share: int, protect: Option<Entry>, sweep: bool, largest: int)
    requires ListOk(i, l) && NextOk(Loop(i, share, protect, sweep), l, largest)
    requires Bytes(l) <= share || l == [] || protect == Some(l[|l| - 1])
    ensures Fits(l, largest)
  {
    if |l| > 1 && protect.Some? {
      assert l[0].key != l[|l| - 1].key;
    }
  }

  lemma StartGetInv(s: System, t: Tid, k: Key, now: int)
    requires Inv(s) && t < |s.pcs| && s.pcs[t] == Idle
    ensures Inv(Start(s, t, StartGet(k, now)))
  {
    hide Inv, ListOk, Without, Find, Has, Fits;
    var i := ShardOf(k);
    PointOf(s, t);
    ListOf(s, i);
    var sh := s.shards[i];
    WithoutOk(i, sh.list, k);
    if sh.owner == None && Find(sh.list, k).Some? {
      var e := Find(sh.list, k).value;
      TouchOk(i, sh.list, e);
      TouchFits(i, sh.list, e, s.largest);
      RemovalFits(i, sh.list, k, s.largest);
      if e.obj.Evictable(now) {
        PutInv(s, t, OwesEntry(e.size, Finish), i, sh.(list := Without(sh.list, k)));
      } else {
        PutInv(s, t, Idle, i, sh.(list := Touch(sh.list, e)));
      }
    }
  }

  lemma StartDeleteInv(s: System, t: Tid, k: Key)
    requires Inv(s) && t < |s.pcs| && s.pcs[t] == Idle
    ensures Inv(Start(s, t, StartDelete(k)))
  {
    hide Inv, ListOk, Without, Find, Has, Fits;
    var i := ShardOf(k);
    PointOf(s, t);
    ListOf(s, i);
    var sh := s.shards[i];
    WithoutOk(i, sh.list, k);
    if sh.owner == None && Find(sh.list, k).Some? {
      RemovalFits(i, sh.list, k, s.largest);
      PutInv(s, t, OwesEntry(Find(sh.list, k).value.size, Unlock(i)), i, Shard(Without(sh.list, k), Some(t)));
    }
  }

  lemma MoveAccounted(s: System, t: Tid, pc: Pc, de: int, db: int)
    requires |s.shards| == SHARDS && t < |s.pcs| && Accounted(s)
    requires de == EntriesOwed(s.pcs[t]) - EntriesOwed(pc)
    requires db == BytesOwed(s.pcs[t]) - BytesOwed(pc)
    ensures Accounted(Move(s, t, pc).(entries := s.entries + de, bytes := s.bytes + db))
  {
    PutAccounted(s, t, pc, 0, s.shards[0], de, db);
    assert s.shards[0 := s.shards[0]] == s.shards;
  }

  lemma MoveInv(s: System, t: Tid, pc: Pc, de: int, db: int)
    requires Inv(s) && t < |s.pcs|
    requires Held(pc) == Held(s.pcs[t])
    requires PcOk(pc, Locked(pc, s.shards), s.largest)
    requires de == EntriesOwed(s.pcs[t]) - EntriesOwed(pc)
    requires db == BytesOwed(s.pcs[t]) - BytesOwed(pc)
    ensures Inv(Move(s, t, pc).(entries := s.entries + de, bytes := s.bytes + db))
  {
    hide Accounted, ListOk, Fits, PcOk;
    MoveLocal(s, t, pc);
    MoveAccounted(s, t, pc, de, db);
  }

  lemma StartSetInv(s: System, t: Tid, k: Key, o: Object)
    requires Inv(s) && t < |s.pcs| && s.pcs[t] == Idle
    ensures Inv(Start(s, t, StartSet(k, o)))
  {
    hide Inv;
    PointOf(s, t);
    SizeAtLeastOverhead(o);
    if S.Accepts(s.budget, o.Size()) {
      MoveInv(s, t, Loaded(Entry(k, o, o.Size()), s.budget), 0, 0);
    }
  }

  lemma FitsMonotone(l: seq<Entry>, a: int, b: int)
    requires a <= b && Fits(l, a)
    ensures Fits(l, b)
  {
  }

  lemma RaiseLargest(s: System, budget: int)
    requires Local(s) && 0 <= budget
    ensures Local(s.(budget := budget, largest := Max(s.largest, budget)))
  {
    hide ListOk, Fits, Distinct;
    var largest := Max(s.largest, budget);
    assert s.largest / SHARDS <= largest / SHARDS;
    forall i | 0 <= i < SHARDS && s.shards[i].owner == None ensures Fits(s.shards[i].list, largest) {
      FitsMonotone(s.shards[i].list, s.largest, largest);
    }
    forall t | 0 <= t < |s.pcs| ensures PcOk(s.pcs[t], Locked(s.pcs[t], s.shards), largest) {
      var l := Locked(s.pcs[t], s.shards);
      assert PcOk(s.pcs[t], l, s.largest);
      if Fits(l, s.largest) {
        FitsMonotone(l, s.largest, largest);
      }
    }
  }

  lemma BudgetsUncounted(s: System, budget: int, largest: int)
    requires Accounted(s)
    ensures Accounted(s.(budget := budget, largest := largest))
  {
  }

  lemma StartSetBudgetInv(s: System, t: Tid, b: int)
    requires Inv(s) && t < |s.pcs| && s.pcs[t] == Idle
    ensures Inv(Start(s, t, StartSetBudget(b)))
  {
    hide Local, Accounted;
    var c := S.Clamp(b);
    var raised := s.(budget := c, largest := Max(s.largest, c));
    RaiseLargest(s, c);
    BudgetsUncounted(s, c, raised.largest);
    assert c / SHARDS <= raised.largest / SHARDS;
    MoveInv(raised, t, Sweeping(c / SHARDS, 0), 0, 0);
  }

  lemma LoadedInv(s: System, t: Tid)
    requires Inv(s) && t < |s.pcs| && s.pcs[t].Loaded?
    ensures Inv(Proceed(s, t))
  {
    hide Inv, ListOk, Without, Find, Has, Fits;
    var e, b := s.pcs[t].e, s.pcs[t].budget;
    var i := ShardOf(e.key);
    PointOf(s, t);
    ListOf(s, i);
    var sh := s.shards[i];
    var next := Insert(i, e, b / SHARDS);
    assert b / SHARDS <= s.largest / SHARDS;
    WithoutOk(i, sh.list, e.key);
    if sh.owner == None {
      match Find(sh.list, e.key)
      case None => PutInv(s, t, At(next), i, Shard(sh.list, Some(t)));
      case Some(was) => PutInv(s, t, OwesEntry(was.size, next), i, Shard(Without(sh.list, e.key), Some(t)));
    }
  }

  lemma SweepingInv(s: System, t: Tid)
    requires Inv(s) && t < |s.pcs| && s.pcs[t].Sweeping?
    ensures Inv(Proceed(s, t))
  {
    hide Inv, ListOk, Fits;
    PointOf(s, t);
    var share, i := s.pcs[t].share, s.pcs[t].i;
    ListOf(s, i);
    if s.shards[i].owner == None {
      PutInv(s, t, At(Loop(i, share, None, true)), i, s.shards[i].(owner := Some(t)));
    }
  }

  lemma AtInv(s: System, t: Tid)
    requires Inv(s) && t < |s.pcs| && s.pcs[t].At? && !s.pcs[t].next.Loop?
    ensures Inv(Proceed(s, t))
  {
    hide Inv, ListOk, Fits, Has;
    PointOf(s, t);
    match s.pcs[t].next
    case Unlock(i) =>
      OwnerOf(s, t, i);
      ListOf(s, i);
      PutInv(s, t, Idle, i, s.shards[i].(owner := None));
    case Insert(i, e, share) =>
      OwnerOf(s, t, i);
      ListOf(s, i);
      ConsOk(i, s.shards[i].list, e);
      PutInv(s, t, NewEntry(i, e, share), i, s.shards[i].(list := [e] + s.shards[i].list));
  }

  lemma LoopInv(s: System, t: Tid)
    requires Inv(s) && t < |s.pcs| && s.pcs[t].At? && s.pcs[t].next.Loop?
    ensures Inv(Proceed(s, t))
  {
    hide Inv, ListOk, Fits, Bytes;
    var Loop(i, share, protect, sweep) := s.pcs[t].next;
    PointOf(s, t);
    OwnerOf(s, t, i);
    ListOf(s, i);
    var l := s.shards[i].list;
    if Bytes(l) <= share || l == [] || protect == Some(l[|l| - 1]) {
      LoopDone(i, l, share, protect, sweep, s.largest);
      PutInv(s, t, if sweep && i + 1 < SHARDS then Sweeping(share, i + 1) else Idle, i, Shard(l, None));
    } else {
      DropLastOk(i, l);
      var pc := OwesEntry(l[|l| - 1].size, Loop(i, share, protect, sweep));
      PutInv(s, t, pc, i, s.shards[i].(list := l[..|l| - 1]));
    }
  }

  lemma PayInv(s: System, t: Tid)
    requires Inv(s) && t < |s.pcs|
    requires s.pcs[t].OwesEntry? || s.pcs[t].OwesBytes? || s.pcs[t].NewEntry? || s.pcs[t].NewBytes?
    ensures Inv(Proceed(s, t))
  {
    hide Inv, Fits, Has;
    PointOf(s, t);
    match s.pcs[t]
    case OwesEntry(size, next) => MoveInv(s, t, OwesBytes(size, next), -1, 0);
    case OwesBytes(size, next) => MoveInv(s, t, if next.Finish? then Idle else At(next), 0, -size);
    case NewEntry(i, e, share) => MoveInv(s, t, NewBytes(i, e, share), 1, 0);
    case NewBytes(i, e, share) => MoveInv(s, t, At(Loop(i, share, Some(e), false)), 0, e.size);
  }

  lemma StepInv(s: System, t: Tid, a: Action)
    requires Inv(s) && t < |s.pcs|
    ensures Inv(Step(s, t, a))
  {
    hide Inv, Proceed, Start;
    match a
    case StartGet(k, now) => if s.pcs[t] == Idle { StartGetInv(s, t, k, now); }
    case StartSet(k, o) => if s.pcs[t] == Idle { StartSetInv(s, t, k, o); }
    case StartDelete(k) => if s.pcs[t] == Idle { StartDeleteInv(s, t, k); }
    case StartSetBudget(b) => if s.pcs[t] == Idle { StartSetBudgetInv(s, t, b); }
    case Continue => ProceedInv(s, t);
  }

  lemma ProceedInv(s: System, t: Tid)
    requires Inv(s) && t < |s.pcs|
    ensures Inv(Proceed(s, t))
  {
    match s.pcs[t]
    case Idle =>
    case Loaded(_, _) => LoadedInv(s, t);
    case Sweeping(_, _) => SweepingInv(s, t);
    case At(next) =>
      assert PcOk(s.pcs[t], Locked(s.pcs[t], s.shards), s.largest);
      if next.Loop? { LoopInv(s, t); } else { AtInv(s, t); }
    case _ => PayInv(s, t);
  }

  // ----- what holds in every interleaving -----

  /** Distinct claims on the elements of a sum, each covered by its element, add up to at most the sum. */
  lemma {:induction false} ClaimsCovered(xs: seq<int>, claims: seq<int>, on: seq<Option<nat>>)
    requires |claims| == |on|
    requires forall i :: 0 <= i < |xs| ==> 0 <= xs[i]
    requires forall t :: 0 <= t < |claims| && 0 < claims[t] ==>
               on[t].Some? && on[t].value < |xs| && claims[t] <= xs[on[t].value]
    requires forall t, u :: 0 <= t < u < |claims| && 0 < claims[t] && 0 < claims[u] ==> on[t] != on[u]
    ensures Sum(claims) <= Sum(xs)
    decreases |claims|
  {
    if claims == [] {
      SumAtLeastZero(xs);
    } else {
      var n := |claims| - 1;
      if 0 < claims[n] {
        var i := on[n].value;
        SumUpdate(xs, i, 0);
        ClaimsCovered(xs[i := 0], claims[..n], on[..n]);
      } else {
        ClaimsCovered(xs, claims[..n], on[..n]);
      }
    }
  }

  lemma {:induction false} SumAtLeastZero(xs: seq<int>)
    requires forall i :: 0 <= i < |xs| ==> 0 <= xs[i]
    ensures 0 <= Sum(xs)
  {
    if xs != [] {
      SumAtLeastZero(xs[..|xs| - 1]);
    }
  }

  lemma HeadCovers(i: nat, l: seq<Entry>, e: Entry)
    requires ListOk(i, l) && l != [] && l[0] == e
    ensures 1 <= |l| && e.size <= Bytes(l)
  {
    BytesPrefix(l, 1, |l|);
    assert l[..|l|] == l && l[..1][..0] == [];
  }

  lemma LoadNonNegative(i: nat, l: seq<Entry>)
    requires ListOk(i, l)
    ensures 0 <= Bytes(l)
  {
    BytesPrefix(l, 0, |l|);
    assert l[..|l|] == l;
  }

  /** A goroutine with a push not yet counted holds the shard whose front entry it pushed. */
  lemma PushIsCovered(s: System, t: Tid)
    requires Local(s) && t < |s.pcs|
    ensures 0 < EntriesOwed(s.pcs[t]) || 0 < BytesOwed(s.pcs[t]) ==>
              && Held(s.pcs[t]).Some? && Held(s.pcs[t]).value < SHARDS
              && EntriesOwed(s.pcs[t]) <= |s.shards[Held(s.pcs[t]).value].list|
              && BytesOwed(s.pcs[t]) <= Bytes(s.shards[Held(s.pcs[t]).value].list)
  {
    assert PcOk(s.pcs[t], Locked(s.pcs[t], s.shards), s.largest);
    if s.pcs[t].NewEntry? || s.pcs[t].NewBytes? {
      var i := Held(s.pcs[t]).value;
      HeadCovers(i, s.shards[i].list, s.pcs[t].e);
    }
  }

  lemma LocksDiffer(s: System, t: Tid, u: Tid)
    requires Local(s) && t < u < |s.pcs|
    ensures Held(s.pcs[t]).Some? ==> Held(s.pcs[t]) != Held(s.pcs[u])
  {
  }

  /** The counters never read negative, at any point of any interleaving. */
  lemma CountersNonNegative(s: System)
    requires Inv(s)
    ensures 0 <= s.entries && 0 <= s.bytes
  {
    assert |s.shards| == SHARDS;
    forall i | 0 <= i < SHARDS ensures 0 <= Bytes(s.shards[i].list) {
      LoadNonNegative(i, s.shards[i].list);
    }
    hide Local, EntriesOwed, BytesOwed, Held, Bytes;
    var on := seq(|s.pcs|, t requires 0 <= t < |s.pcs| => Held(s.pcs[t]));
    forall t | 0 <= t < |s.pcs| && (0 < EntriesOwed(s.pcs[t]) || 0 < BytesOwed(s.pcs[t]))
      ensures on[t].Some? && on[t].value < SHARDS
      ensures EntriesOwed(s.pcs[t]) <= |s.shards[on[t].value].list|
      ensures BytesOwed(s.pcs[t]) <= Bytes(s.shards[on[t].value].list)
    {
      PushIsCovered(s, t);
    }
    forall t, u | 0 <= t < u < |s.pcs| && on[t].Some? ensures on[t] != on[u] {
      LocksDiffer(s, t, u);
    }
    ClaimsCovered(Lens(Lists(s.shards)), EntriesPending(s.pcs), on);
    ClaimsCovered(Loads(Lists(s.shards)), BytesPending(s.pcs), on);
  }

  /** A schedule names, step by step, which goroutine moves and which call an idle one starts. */
  ghost function Exec(budget: int, threads: nat, schedule: seq<(Tid, Action)>): (s: System)
    ensures |s.shards| == SHARDS && |s.pcs| == threads
  {
    if schedule == [] then Init(budget, threads)
    else
      var n := |schedule| - 1;
      var before := Exec(budget, threads, schedule[..n]);
      var (t, a) := schedule[n];
      if t >= threads then before else Step(before, t, a)
  }

  lemma {:induction false} ExecInv(budget: int, threads: nat, schedule: seq<(Tid, Action)>)
    ensures Inv(Exec(budget, threads, schedule))
  {
    hide Inv, Step;
    if schedule == [] {
      InitInv(budget, threads);
    } else {
      var n := |schedule| - 1;
      ExecInv(budget, threads, schedule[..n]);
      var (t, a) := schedule[n];
      if t < threads {
        StepInv(Exec(budget, threads, schedule[..n]), t, a);
      }
    }
  }

  /**
    In every interleaving: the counters are never negative, each equals the true total once the deltas
    of unfinished calls are added, they are exact when no call is in progress, and every shard whose
    mutex is free holds one entry or at most its share of the largest budget ever published.
  */
  lemma EveryInterleaving(budget: int, threads: nat, schedule: seq<(Tid, Action)>)
    ensures var s := Exec(budget, threads, schedule);
            && 0 <= s.entries && 0 <= s.bytes
            && s.entries + Sum(EntriesPending(s.pcs)) == Sum(Lens(Lists(s.shards)))
            && s.bytes + Sum(BytesPending(s.pcs)) == Sum(Loads(Lists(s.shards)))
            && ((forall t :: 0 <= t < threads ==> s.pcs[t] == Idle) ==>
                  s.entries == Sum(Lens(Lists(s.shards))) && s.bytes == Sum(Loads(Lists(s.shards))))
            && (forall i :: 0 <= i < SHARDS && s.shards[i].owner == None ==>
                  |s.shards[i].list| <= 1 || Bytes(s.shards[i].list) <= s.largest / SHARDS)
  {
    hide Exec;
    var s := Exec(budget, threads, schedule);
    ExecInv(budget, threads, schedule);
    CountersNonNegative(s);
    if forall t :: 0 <= t < threads ==> s.pcs[t] == Idle {
      SumZero(EntriesPending(s.pcs));
      SumZero(BytesPending(s.pcs));
    }
  }

  /** The largest budget published along a schedule: the initial one or one some SetBudget stored. */
  ghost function Published(budget: int, threads: nat, schedule: seq<(Tid, Action)>): set<int> {
    if schedule == [] then {Max(0, budget)}
    else
      var n := |schedule| - 1;
      var (t, a) := schedule[n];
      Published(budget, threads, schedule[..n]) +
      if t < threads && a.StartSetBudget? && Exec(budget, threads, schedule[..n]).pcs[t] == Idle
      then {S.Clamp(a.budget)} else {}
  }

  lemma StepLargest(s: System, t: Tid, a: Action)
    requires |s.shards| == SHARDS && t < |s.pcs|
    ensures Step(s, t, a).largest ==
            if a.StartSetBudget? && s.pcs[t] == Idle then Max(s.largest, S.Clamp(a.budget)) else s.largest
  {
  }

  lemma {:induction false} LargestIsMaximum(budget: int, threads: nat, schedule: seq<(Tid, Action)>)
    ensures Exec(budget, threads, schedule).largest in Published(budget, threads, schedule)
    ensures forall b :: b in Published(budget, threads, schedule) ==> b <= Exec(budget, threads, schedule).largest
  {
    if schedule != [] {
      hide Inv, Step;
      var n := |schedule| - 1;
      LargestIsMaximum(budget, threads, schedule[..n]);
      var (t, a) := schedule[n];
      if t < threads {
        StepLargest(Exec(budget, threads, schedule[..n]), t, a);
      }
    }
  }

  // ----- atomicity: the fine-grained system refines one atomic operation per critical section -----

  /** What the shard will hold when the call that has it locked lets it go. */
  function Outcome(next: Next, l: seq<Entry>): seq<Entry> {
    match next
    case Finish => l
    case Unlock(_) => l
    case Insert(_, e, share) => Evict([e] + l, share, Some(e))
    case Loop(_, share, protect, _) => Evict(l, share, protect)
  }

  function OutcomeAt(pc: Pc, l: seq<Entry>): seq<Entry> {
    match pc
    case At(next) => Outcome(next, l)
    case OwesEntry(_, next) => Outcome(next, l)
    case OwesBytes(_, next) => Outcome(next, l)
    case NewEntry(_, e, share) => Evict(l, share, Some(e))
    case NewBytes(_, e, share) => Evict(l, share, Some(e))
    case _ => l
  }

  /** Shard i as an observer of whole critical sections sees it. */
  function Abs(s: System, i: nat): seq<Entry>
    requires i < |s.shards|
  {
    match s.shards[i].owner
    case None => s.shards[i].list
    case Some(t) => if t < |s.pcs| then OutcomeAt(s.pcs[t], s.shards[i].list) else s.shards[i].list
  }

  /** The atomic effect of a step: the shard operation of the call that takes the lock, else nothing. */
  ghost function Effect(s: System, t: Tid, a: Action, i: nat): seq<Entry>
    requires Inv(s) && t < |s.pcs| && i < SHARDS
  {
    var free := s.shards[i].owner == None;
    var pc := s.pcs[t];
    if !free then Abs(s, i)
    else if pc == Idle && a.StartGet? && ShardOf(a.key) == i then GetShard(Abs(s, i), a.key, a.now).0
    else if pc == Idle && a.StartDelete? && ShardOf(a.key) == i then Without(Abs(s, i), a.key)
    else if pc.Loaded? && a.Continue? && ShardOf(pc.e.key) == i then Recency.Insert(Abs(s, i), pc.e, pc.budget / SHARDS)
    else if pc.Sweeping? && a.Continue? && pc.i == i then Evict(Abs(s, i), pc.share, None)
    else Abs(s, i)
  }

  /** Every step is, on every shard, exactly its atomic effect. */
  lemma StepIsAtomic(s: System, t: Tid, a: Action, i: nat)
    requires Inv(s) && t < |s.pcs| && i < SHARDS
    ensures |Step(s, t, a).shards| == SHARDS
    ensures Abs(Step(s, t, a), i) == Effect(s, t, a, i)
  {
    hide Inv, Proceed, Start;
    PointOf(s, t);
    if a.Continue? {
      ProceedIsAtomic(s, t, i);
    } else if s.pcs[t] == Idle {
      StartIsAtomic(s, t, a, i);
    }
  }

  lemma StartIsAtomic(s: System, t: Tid, a: Action, i: nat)
    requires Inv(s) && t < |s.pcs| && i < SHARDS && s.pcs[t] == Idle && !a.Continue?
    ensures |Start(s, t, a).shards| == SHARDS
    ensures Abs(Start(s, t, a), i) == Effect(s, t, a, i)
  {
    hide Inv, Without, Find, Evict;
    OwnerOf(s, t, i);
    if a.StartDelete? {
      WithoutBytes(s.shards[i].list, a.key);
    }
  }

  lemma ProceedIsAtomic(s: System, t: Tid, i: nat)
    requires Inv(s) && t < |s.pcs| && i < SHARDS
    ensures |Proceed(s, t).shards| == SHARDS
    ensures Abs(Proceed(s, t), i) == Effect(s, t, Continue, i)
  {
    hide Inv, Proceed, Effect, Abs;
    PointOf(s, t);
    if s.pcs[t].At? {
      AtIsAtomic(s, t, i);
    } else if s.pcs[t].Loaded? || s.pcs[t].Sweeping? {
      LockIsAtomic(s, t, i);
    } else {
      PayIsAtomic(s, t, i);
    }
  }

  lemma LockIsAtomic(s: System, t: Tid, i: nat)
    requires Inv(s) && t < |s.pcs| && i < SHARDS && (s.pcs[t].Loaded? || s.pcs[t].Sweeping?)
    ensures |Proceed(s, t).shards| == SHARDS
    ensures Abs(Proceed(s, t), i) == Effect(s, t, Continue, i)
  {
    hide Inv, Fits, Without, Find, Has, NextOk, Evict;
    PointOf(s, t);
    OwnerOf(s, t, i);
    if s.pcs[t].Loaded? {
      WithoutBytes(s.shards[i].list, s.pcs[t].e.key);
    }
  }

  /** Paying a debt or a charge is invisible on every shard. */
  lemma PayIsAtomic(s: System, t: Tid, i: nat)
    requires Inv(s) && t < |s.pcs| && i < SHARDS && !s.pcs[t].At? && !s.pcs[t].Loaded? && !s.pcs[t].Sweeping?
    ensures |Proceed(s, t).shards| == SHARDS
    ensures Abs(Proceed(s, t), i) == Effect(s, t, Continue, i)
  {
    hide Inv, Fits, Without, Find, Has, NextOk, Evict;
    PointOf(s, t);
    OwnerOf(s, t, i);
  }

  lemma AtIsAtomic(s: System, t: Tid, i: nat)
    requires Inv(s) && t < |s.pcs| && i < SHARDS && s.pcs[t].At?
    ensures |Proceed(s, t).shards| == SHARDS
    ensures Abs(Proceed(s, t), i) == Effect(s, t, Continue, i)
  {
    hide Inv, Fits, Has, NextOk;
    PointOf(s, t);
    OwnerOf(s, t, i);
  }
}
