/**
  The cache as a sequence of critical sections (internal/cache/cache.go): what one locked stretch of a call, or
  one store of the budget, does to the shards. Set acts with the budget it loaded before it took the lock, and
  SetBudget is one store and 256 separate evictions. Every schedule of module Interleave is such a sequence.
*/
module Sections {
  import opened Sums
  import opened Objects
  import opened Recency
  import S = CacheSpec
  import I = Interleave

  datatype Section =
    | Whole(op: S.Op)                               // a call that nothing interrupts
    | SetWith(key: Key, obj: Object, budget: int)   // Set under its lock, with the budget it loaded
    | EvictShard(shard: nat, share: int)            // one turn of SetBudget's loop
    | Publish(budget: int)                          // SetBudget's store

  ghost function Perform(st: S.State, sec: Section): (r: S.State)
    requires |st.lists| == SHARDS
    ensures |r.lists| == SHARDS
  {
    match sec
    case Whole(op) => S.Apply(st, op)
    case SetWith(k, o, b) => S.Set(st.(budget := b), k, o).(budget := st.budget)
    case EvictShard(i, share) =>
      if i >= SHARDS then st
      else
        var l' := Evict(st.lists[i], share, None);
        S.Replace(st, i, l').(evictions := st.evictions + |st.lists[i]| - |l'|)
    case Publish(b) => st.(budget := S.Clamp(b))
  }

  /** This section puts object o into the cache under key k. */
  ghost predicate Stores(st: S.State, sec: Section, k: Key, o: Object) {
    match sec
    case Whole(DoSet(k', o')) => k' == k && o' == o && S.Accepts(st.budget, o.Size())
    case SetWith(k', o', b) => k' == k && o' == o && S.Accepts(b, o.Size())
    case _ => false
  }

  /** An uninterrupted Set is the section with the budget of that moment. */
  lemma SetIsSection(st: S.State, k: Key, o: Object)
    requires |st.lists| == SHARDS
    ensures Perform(st, SetWith(k, o, st.budget)) == S.Set(st, k, o)
  {
    assert st.(budget := st.budget) == st;
  }

  lemma PerformKeepsInv(st: S.State, sec: Section)
    requires S.Inv(st)
    ensures S.Inv(Perform(st, sec))
  {
    hide S.Inv, S.ShardOk, S.Apply, S.Set, Evict;
    match sec
    case Whole(op) => S.ApplyKeepsInv(st, op);
    case SetWith(k, o, b) =>
      S.BudgetFieldKeepsInv(st, b);
      S.SetKeepsInv(st.(budget := b), k, o);
      S.BudgetFieldKeepsInv(S.Set(st.(budget := b), k, o), st.budget);
    case EvictShard(i, share) =>
      if i < SHARDS {
        S.ListAt(st, i);
        S.ShardEvict(i, st.lists[i], share, None);
        S.ReplaceKeepsInv(st, i, Evict(st.lists[i], share, None));
        EvictionsFree(S.Replace(st, i, Evict(st.lists[i], share, None)), Perform(st, sec).evictions);
      }
    case Publish(b) => S.BudgetFieldKeepsInv(st, S.Clamp(b));
  }

  lemma EvictionsFree(st: S.State, n: int)
    requires S.Inv(st)
    ensures S.Inv(st.(evictions := n))
  {
  }

  /** What a section can leave in the cache: the object it stores, or an entry that was there. */
  lemma PerformHolds(st: S.State, sec: Section, x: Entry)
    requires S.Inv(st) && S.Holds(Perform(st, sec), x)
    ensures S.Holds(st, x) || Stores(st, sec, x.key, x.obj)
    ensures forall o :: Stores(st, sec, x.key, o) ==> o == x.obj
  {
    hide S.Inv, S.Apply, S.Set, Evict, S.Accepts;
    S.DistinctAt(st, ShardOf(x.key));
    match sec
    case Whole(op) => S.ApplyHolds(st, op, x);
    case SetWith(k, o, b) =>
      S.BudgetFieldKeepsInv(st, b);
      S.SetHolds(st.(budget := b), k, o, x);
    case EvictShard(i, share) => if i < SHARDS { EvictIsPrefix(st.lists[i], share, None); }
    case Publish(b) =>
  }

  ghost function PerformAll(st: S.State, secs: seq<Section>): (r: S.State)
    requires |st.lists| == SHARDS
    ensures |r.lists| == SHARDS
  {
    if secs == [] then st else Perform(PerformAll(st, secs[..|secs| - 1]), secs[|secs| - 1])
  }

  /** A SetBudget that nothing interrupts is its store and its 256 evictions in a row. */
  function SetBudgetSections(b: int, n: nat): seq<Section> {
    if n == 0 then [Publish(b)] else SetBudgetSections(b, n - 1) + [EvictShard(n - 1, S.Clamp(b) / SHARDS)]
  }

  lemma {:induction false} SetBudgetIsSections(st: S.State, b: int, n: nat)
    requires |st.lists| == SHARDS && n <= SHARDS
    ensures PerformAll(st, SetBudgetSections(b, n)) == S.Sweep(st.(budget := S.Clamp(b)), S.Clamp(b) / SHARDS, n)
  {
    var secs := SetBudgetSections(b, n);
    if n > 0 {
      SetBudgetIsSections(st, b, n - 1);
      assert secs[..|secs| - 1] == SetBudgetSections(b, n - 1);
    } else {
      assert secs[..0] == [];
    }
  }

  // ----- every schedule is a sequence of critical sections -----

  /** The section that a goroutine enters with this step, if it takes a lock or stores the budget. */
  function SectionOf(s: I.System, t: I.Tid, a: I.Action): Option<Section>
    requires t < |s.pcs| && |s.shards| == SHARDS
  {
    match s.pcs[t]
    case Idle => (
      match a
      case StartGet(k, now) => if s.shards[ShardOf(k)].owner == None then Some(Whole(S.DoGet(k, now))) else None
      case StartDelete(k) => if s.shards[ShardOf(k)].owner == None then Some(Whole(S.DoDelete(k))) else None
      case StartSetBudget(b) => Some(Publish(b))
      case _ => None)
    case Loaded(e, b) =>
      if a.Continue? && s.shards[ShardOf(e.key)].owner == None then Some(SetWith(e.key, e.obj, b)) else None
    case Sweeping(share, i) =>
      if a.Continue? && i < SHARDS && s.shards[i].owner == None then Some(EvictShard(i, share)) else None
    case _ => None
  }

  /** The lists as an observer of whole critical sections sees them. */
  ghost predicate Sees(s: I.System, st: S.State) {
    && |s.shards| == SHARDS && |st.lists| == SHARDS
    && s.budget == st.budget
    && forall i :: 0 <= i < SHARDS ==> I.Abs(s, i) == st.lists[i]
  }

  /** What each kind of section does to shard i. */
  lemma SectionLists(st: S.State, i: nat)
    requires |st.lists| == SHARDS && i < SHARDS
    ensures forall k, now :: Perform(st, Whole(S.DoGet(k, now))).lists[i] ==
              if ShardOf(k) == i then GetShard(st.lists[i], k, now).0 else st.lists[i]
    ensures forall k :: Perform(st, Whole(S.DoDelete(k))).lists[i] ==
              if ShardOf(k) == i then Without(st.lists[i], k) else st.lists[i]
    ensures forall k, o: Object, b :: S.Accepts(b, o.Size()) ==>
              (Perform(st, SetWith(k, o, b)).lists[i] ==
               if ShardOf(k) == i then Insert(st.lists[i], Entry(k, o, o.Size()), b / SHARDS) else st.lists[i])
    ensures forall j, share :: Perform(st, EvictShard(j, share)).lists[i] ==
              if j == i then Evict(st.lists[i], share, None) else st.lists[i]
    ensures forall b :: Perform(st, Publish(b)).lists[i] == st.lists[i]
  {
    hide Without, Evict, Touch, Find, Insert, Has, S.Accepts;
  }

  lemma StartIsSection(s: I.System, t: I.Tid, a: I.Action, st: S.State, i: nat)
    requires I.Inv(s) && t < |s.pcs| && |s.shards| == SHARDS && Sees(s, st) && i < SHARDS && s.pcs[t].Idle?
    ensures I.Effect(s, t, a, i) ==
            match SectionOf(s, t, a) case None => st.lists[i] case Some(sec) => Perform(st, sec).lists[i]
  {
    hide I.Inv, I.Abs, Perform, GetShard, Without, Evict, Insert;
    SectionLists(st, i);
  }

  lemma LockIsSection(s: I.System, t: I.Tid, a: I.Action, st: S.State, i: nat)
    requires I.Inv(s) && t < |s.pcs| && |s.shards| == SHARDS && Sees(s, st) && i < SHARDS && !s.pcs[t].Idle?
    ensures I.Effect(s, t, a, i) ==
            match SectionOf(s, t, a) case None => st.lists[i] case Some(sec) => Perform(st, sec).lists[i]
  {
    hide I.Inv, I.Abs, I.Fits, I.NextOk, Perform, GetShard, Without, Evict, Insert, S.Accepts;
    I.PointOf(s, t);
    SectionLists(st, i);
  }

  lemma StepIsSection(s: I.System, t: I.Tid, a: I.Action, st: S.State)
    requires I.Inv(s) && t < |s.pcs| && Sees(s, st)
    ensures Sees(I.Step(s, t, a),
                 match SectionOf(s, t, a) case None => st case Some(sec) => Perform(st, sec))
  {
    hide I.Inv, I.Abs, I.Effect, I.Step, SectionOf, Perform;
    var after := match SectionOf(s, t, a) case None => st case Some(sec) => Perform(st, sec);
    I.StepIsAtomic(s, t, a, 0);
    forall i | 0 <= i < SHARDS ensures I.Abs(I.Step(s, t, a), i) == after.lists[i] {
      I.StepIsAtomic(s, t, a, i);
      if s.pcs[t].Idle? {
        StartIsSection(s, t, a, st, i);
      } else {
        LockIsSection(s, t, a, st, i);
      }
    }
    StepBudget(s, t, a, st);
  }

  lemma StepBudget(s: I.System, t: I.Tid, a: I.Action, st: S.State)
    requires |s.shards| == SHARDS && t < |s.pcs| && |st.lists| == SHARDS && s.budget == st.budget
    ensures I.Step(s, t, a).budget ==
            match SectionOf(s, t, a) case None => st.budget case Some(sec) => Perform(st, sec).budget
  {
    hide Without, Evict, Touch, Find, Insert, Has;
  }

  ghost function SectionsOf(budget: int, threads: nat, schedule: seq<(I.Tid, I.Action)>): seq<Section> {
    if schedule == [] then []
    else
      var n := |schedule| - 1;
      var (t, a) := schedule[n];
      SectionsOf(budget, threads, schedule[..n]) +
      if t >= threads then []
      else
        match SectionOf(I.Exec(budget, threads, schedule[..n]), t, a)
        case None => []
        case Some(sec) => [sec]
  }

  lemma PerformSnoc(st: S.State, secs: seq<Section>, sec: Section)
    requires |st.lists| == SHARDS
    ensures PerformAll(st, secs + [sec]) == Perform(PerformAll(st, secs), sec)
  {
    assert (secs + [sec])[..|secs|] == secs;
  }

  /**
    Linearization: whatever the schedule, all shards and the budget are what the critical sections, performed
    one after the other in the order in which their locks were taken, leave behind.
  */
  lemma {:induction false} ScheduleIsSections(budget: int, threads: nat, schedule: seq<(I.Tid, I.Action)>)
    ensures Sees(I.Exec(budget, threads, schedule),
                 PerformAll(S.Init(budget), SectionsOf(budget, threads, schedule)))
  {
    hide I.Inv, I.Abs, I.Step, Perform, Sees, SectionOf;
    if schedule == [] {
      StartsEmpty(budget, threads);
    } else {
      var n := |schedule| - 1;
      var (t, a) := schedule[n];
      var s := I.Exec(budget, threads, schedule[..n]);
      var secs := SectionsOf(budget, threads, schedule[..n]);
      ScheduleIsSections(budget, threads, schedule[..n]);
      I.ExecInv(budget, threads, schedule[..n]);
      if t < threads {
        StepIsSection(s, t, a, PerformAll(S.Init(budget), secs));
        if SectionOf(s, t, a).Some? {
          PerformSnoc(S.Init(budget), secs, SectionOf(s, t, a).value);
        } else {
          assert secs + [] == secs;
        }
      } else {
        assert secs + [] == secs;
      }
    }
  }

  lemma StartsEmpty(budget: int, threads: nat)
    ensures Sees(I.Init(budget, threads), S.Init(budget))
  {
  }
}
