/**
  Every call is its own critical sections, in its own order (internal/cache/cache.go): in every schedule of module
  Interleave, what a goroutine does to the shards is what its calls are meant to do, one after the other - a Set
  with the key and object it was given and the budget of the moment it started, a SetBudget as its store and one
  eviction of every shard, all with that budget's share. A call that runs undisturbed is the sequential operation.
*/
module ProgramOrder {
  import opened Sums
  import opened Objects
  import opened Recency
  import opened Interleave
  import opened Sections
  import S = CacheSpec

  /** A call that has started, and the budget stored at that moment. */
  datatype Call = Call(action: Action, budget: int)

  /** What the call as a whole does, section by section. */
  ghost function SectionsOfCall(c: Call): seq<Section> {
    match c.action
    case StartGet(k, now) => [Whole(S.DoGet(k, now))]
    case StartSet(k, o) => if 0 < c.budget && o.Size() <= c.budget then [SetWith(k, o, c.budget)] else []
    case StartDelete(k) => [Whole(S.DoDelete(k))]
    case StartSetBudget(b) => SetBudgetSections(b, SHARDS)
    case Continue => []
  }

  /** The goroutine starts this call in this step: it is idle, and a lock that the call needs first is free. */
  predicate Starts(s: System, t: Tid, a: Action)
    requires t < |s.pcs| && |s.shards| == SHARDS
  {
    && s.pcs[t] == Idle && !a.Continue?
    && (a.StartGet? || a.StartDelete? ==> s.shards[ShardOf(a.key)].owner == None)
  }

  ghost function SectionSeq(s: System, t: Tid, a: Action): seq<Section>
    requires t < |s.pcs| && |s.shards| == SHARDS
  {
    match SectionOf(s, t, a) case None => [] case Some(sec) => [sec]
  }

  function ShareOf(b: int): int {
    (if b < 0 then 0 else b) / 256
  }

  /** Where a call stands, and the sections it has been through by then. */
  ghost predicate Stands(c: Call, pc: Pc, own: seq<Section>) {
    match c.action
    case StartGet(_, _) =>
      own == SectionsOfCall(c) && (pc.Idle? || ((pc.OwesEntry? || pc.OwesBytes?) && pc.next == Finish))
    case StartDelete(_) =>
      own == SectionsOfCall(c) && (pc.Idle? || ((pc.At? || pc.OwesEntry? || pc.OwesBytes?) && pc.next.Unlock?))
    case StartSet(k, o) =>
      if pc.Loaded? then
        own == [] && S.Accepts(c.budget, o.Size()) && pc.e == Entry(k, o, o.Size()) && pc.budget == c.budget
      else
        && own == SectionsOfCall(c)
        && (pc.Idle? || pc.NewEntry? || pc.NewBytes? ||
            ((pc.At? || pc.OwesEntry? || pc.OwesBytes?) && (pc.next.Insert? || (pc.next.Loop? && !pc.next.sweep))))
    case StartSetBudget(b) => (
      match pc
      case Idle => own == SetBudgetSections(b, SHARDS)
      case Sweeping(share, i) => i < SHARDS && share == ShareOf(b) && own == SetBudgetSections(b, i)
      case At(next) => SweepStands(b, next, own)
      case OwesEntry(_, next) => SweepStands(b, next, own)
      case OwesBytes(_, next) => SweepStands(b, next, own)
      case _ => false)
    case Continue => false
  }

  /** Inside SetBudget's loop, at shard next.shard. */
  ghost predicate SweepStands(b: int, next: Next, own: seq<Section>) {
    && next.Loop? && next.sweep && next.shard < SHARDS && next.share == ShareOf(b)
    && own == SetBudgetSections(b, next.shard + 1)
  }

  lemma StartStands(s: System, t: Tid, a: Action)
    requires t < |s.pcs| && |s.shards| == SHARDS && Starts(s, t, a)
    ensures Stands(Call(a, s.budget), Step(s, t, a).pcs[t], SectionSeq(s, t, a))
  {
    hide Without, Touch, Find, SetBudgetSections, Has;
    if a.StartSetBudget? {
      NoneSwept(a.budget);
    }
  }

  lemma NoneSwept(b: int)
    ensures SetBudgetSections(b, 0) == [Publish(b)]
  {
  }

  lemma OneMoreSwept(b: int, n: nat)
    ensures SetBudgetSections(b, n + 1) == SetBudgetSections(b, n) + [EvictShard(n, ShareOf(b))]
  {
  }

  lemma StepStands(s: System, t: Tid, c: Call, own: seq<Section>)
    requires t < |s.pcs| && |s.shards| == SHARDS && Stands(c, s.pcs[t], own)
    ensures Stands(c, Step(s, t, Continue).pcs[t], own + SectionSeq(s, t, Continue))
  {
    if c.action.StartSetBudget? {
      SweepStepStands(s, t, c, own);
    } else {
      PlainStepStands(s, t, c, own);
    }
  }

  lemma SweepStepStands(s: System, t: Tid, c: Call, own: seq<Section>)
    requires t < |s.pcs| && |s.shards| == SHARDS && Stands(c, s.pcs[t], own) && c.action.StartSetBudget?
    ensures Stands(c, Step(s, t, Continue).pcs[t], own + SectionSeq(s, t, Continue))
  {
    hide Without, Find, SetBudgetSections, Bytes, Has, Object.Size;
    assert own + [] == own;
    if s.pcs[t].Sweeping? {
      OneMoreSwept(c.action.budget, s.pcs[t].i);
    }
  }

  lemma PlainStepStands(s: System, t: Tid, c: Call, own: seq<Section>)
    requires t < |s.pcs| && |s.shards| == SHARDS && Stands(c, s.pcs[t], own) && !c.action.StartSetBudget?
    ensures Stands(c, Step(s, t, Continue).pcs[t], own + SectionSeq(s, t, Continue))
  {
    hide Without, Find, SetBudgetSections, Bytes, Has, Object.Size;
    assert own + [] == own;
    if s.pcs[t].Loaded? {
      assert own + [SetWith(s.pcs[t].e.key, s.pcs[t].e.obj, s.pcs[t].budget)] ==
             [SetWith(s.pcs[t].e.key, s.pcs[t].e.obj, s.pcs[t].budget)];
    }
  }

  // ----- a call that runs undisturbed -----

  function Steps(t: Tid, a: Action, n: nat): seq<(Tid, Action)> {
    if n == 0 then [(t, a)] else Steps(t, a, n - 1) + [(t, Continue)]
  }

  lemma ExecSnoc(budget: int, threads: nat, schedule: seq<(Tid, Action)>, t: Tid, a: Action)
    requires t < threads
    ensures Exec(budget, threads, schedule + [(t, a)]) == Step(Exec(budget, threads, schedule), t, a)
  {
    assert (schedule + [(t, a)])[..|schedule|] == schedule;
  }

  lemma {:induction false} AloneStands(
      budget: int, threads: nat, before: seq<(Tid, Action)>, t: Tid, a: Action, n: nat, st: S.State)
      returns (own: seq<Section>)
    requires t < threads && |st.lists| == SHARDS
    requires Starts(Exec(budget, threads, before), t, a) && Sees(Exec(budget, threads, before), st)
    ensures var s := Exec(budget, threads, before + Steps(t, a, n));
            && Stands(Call(a, Exec(budget, threads, before).budget), s.pcs[t], own)
            && Sees(s, PerformAll(st, own))
    decreases n
  {
    hide Exec, Stands, Inv, Step, Perform, SectionOf, Sees;
    var s0 := Exec(budget, threads, before);
    if n == 0 {
      ExecInv(budget, threads, before);
      ExecSnoc(budget, threads, before, t, a);
      StartStands(s0, t, a);
      StepIsSection(s0, t, a, st);
      own := SectionSeq(s0, t, a);
      if own != [] {
        PerformSnoc(st, [], own[0]);
        assert [] + [own[0]] == own;
      }
    } else {
      own := AloneStands(budget, threads, before, t, a, n - 1, st);
      var done := before + Steps(t, a, n - 1);
      var s := Exec(budget, threads, done);
      ExecInv(budget, threads, done);
      ExecSnoc(budget, threads, done, t, Continue);
      assert done + [(t, Continue)] == before + Steps(t, a, n);
      StepStands(s, t, Call(a, s0.budget), own);
      StepIsSection(s, t, Continue, PerformAll(st, own));
      if SectionOf(s, t, Continue).Some? {
        PerformSnoc(st, own, SectionOf(s, t, Continue).value);
      } else {
        assert own + [] == own;
      }
      own := own + SectionSeq(s, t, Continue);
    }
  }

  // ----- it comes to its end -----

  /** Only t can be inside a shard. */
  ghost predicate AllYours(s: System, t: Tid) {
    forall i :: 0 <= i < |s.shards| ==> s.shards[i].owner == None || s.shards[i].owner == Some(t)
  }

  function Tail(s: System, i: nat): nat
    requires |s.shards| == SHARDS
    decreases SHARDS - i
  {
    if i >= SHARDS then 0 else 2 + 3 * |s.shards[i].list| + Tail(s, i + 1)
  }

  function NextRank(s: System, next: Next): nat
    requires |s.shards| == SHARDS
  {
    match next
    case Finish => 0
    case Unlock(i) => 1
    case Insert(i, _, _) => if i < SHARDS then 7 + 3 * |s.shards[i].list| else 0
    case Loop(i, _, _, sweep) =>
      if i < SHARDS then 1 + 3 * |s.shards[i].list| + (if sweep then Tail(s, i + 1) else 0) else 0
  }

  /** How many steps a call can still take, at most. */
  function Rank(s: System, t: Tid): nat
    requires |s.shards| == SHARDS && t < |s.pcs|
  {
    match s.pcs[t]
    case Idle => 0
    case Loaded(e, _) => 10 + 3 * |s.shards[ShardOf(e.key)].list|
    case Sweeping(_, i) => Tail(s, i)
    case At(next) => NextRank(s, next)
    case OwesEntry(_, next) => 2 + NextRank(s, next)
    case OwesBytes(_, next) => 1 + NextRank(s, next)
    case NewEntry(i, _, _) => if i < SHARDS then 3 + 3 * |s.shards[i].list| else 0
    case NewBytes(i, _, _) => if i < SHARDS then 2 + 3 * |s.shards[i].list| else 0
  }

  lemma {:induction false} TailSame(s: System, s': System, i: nat)
    requires |s.shards| == |s'.shards| == SHARDS
    requires forall j :: i <= j < SHARDS ==> |s.shards[j].list| == |s'.shards[j].list|
    ensures Tail(s, i) == Tail(s', i)
    decreases SHARDS - i
  {
    if i < SHARDS {
      TailSame(s, s', i + 1);
    }
  }

  lemma WithoutNoLonger(l: seq<Entry>, k: Key)
    ensures |Without(l, k)| <= |l|
    ensures Has(l, k) ==> |Without(l, k)| < |l|
    decreases |l|
  {
  }

  lemma StaysYours(s: System, t: Tid)
    requires t < |s.pcs| && |s.shards| == SHARDS && AllYours(s, t)
    ensures AllYours(Step(s, t, Continue), t)
  {
    hide Without, Find, Bytes, Has;
  }

  /** Undisturbed, every step brings the call closer to its end. */
  lemma Advances(s: System, t: Tid)
    requires Inv(s) && t < |s.pcs| && |s.shards| == SHARDS && AllYours(s, t) && s.pcs[t] != Idle
    ensures Rank(Step(s, t, Continue), t) < Rank(s, t)
  {
    hide Inv, Without, Find, Bytes, ListOk, Fits, Has;
    PointOf(s, t);
    if s.pcs[t].Loaded? || s.pcs[t].Sweeping? {
      LockAdvances(s, t);
    } else if s.pcs[t].At? && s.pcs[t].next.Loop? {
      LoopAdvances(s, t);
    } else {
      hide NextOk;
      var next := if s.pcs[t].OwesEntry? || s.pcs[t].OwesBytes? then s.pcs[t].next else Finish;
      if next.Loop? {
        TailSame(s, Step(s, t, Continue), next.shard + 1);
      }
    }
  }

  lemma LockAdvances(s: System, t: Tid)
    requires Inv(s) && t < |s.pcs| && |s.shards| == SHARDS && AllYours(s, t)
    requires s.pcs[t].Loaded? || s.pcs[t].Sweeping?
    ensures Rank(Step(s, t, Continue), t) < Rank(s, t)
  {
    hide Inv, Without, Find, Bytes, ListOk, Fits, Has, Tail;
    PointOf(s, t);
    if s.pcs[t].Loaded? {
      OwnerOf(s, t, ShardOf(s.pcs[t].e.key));
      WithoutNoLonger(s.shards[ShardOf(s.pcs[t].e.key)].list, s.pcs[t].e.key);
    } else {
      var i := s.pcs[t].i;
      OwnerOf(s, t, i);
      TailAt(s, i);
      TailSame(s, Step(s, t, Continue), i + 1);
    }
  }

  lemma LoopAdvances(s: System, t: Tid)
    requires Inv(s) && t < |s.pcs| && |s.shards| == SHARDS && s.pcs[t].At? && s.pcs[t].next.Loop?
    ensures Rank(Step(s, t, Continue), t) < Rank(s, t)
  {
    hide Inv, Without, Find, Bytes, ListOk, Fits, Has, Tail;
    PointOf(s, t);
    TailSame(s, Step(s, t, Continue), s.pcs[t].next.shard + 1);
  }

  lemma TailAt(s: System, i: nat)
    requires |s.shards| == SHARDS && i < SHARDS
    ensures Tail(s, i) == 2 + 3 * |s.shards[i].list| + Tail(s, i + 1)
  {
  }

  lemma StartYours(s: System, t: Tid, a: Action)
    requires t < |s.pcs| && |s.shards| == SHARDS && AllYours(s, t)
    ensures AllYours(Step(s, t, a), t)
  {
    hide Without, Find, Bytes, Has, Touch;
  }

  lemma {:induction false} Finishes(
      budget: int, threads: nat, before: seq<(Tid, Action)>, t: Tid, a: Action, n: nat) returns (m: nat)
    requires t < threads && AllYours(Exec(budget, threads, before + Steps(t, a, n)), t)
    ensures var s := Exec(budget, threads, before + Steps(t, a, m)); s.pcs[t] == Idle && AllYours(s, t)
    decreases Rank(Exec(budget, threads, before + Steps(t, a, n)), t)
  {
    hide Exec, Inv, Step, AllYours, Rank;
    var done := before + Steps(t, a, n);
    var s := Exec(budget, threads, done);
    if s.pcs[t] == Idle {
      m := n;
    } else {
      ExecInv(budget, threads, done);
      ExecSnoc(budget, threads, done, t, Continue);
      assert done + [(t, Continue)] == before + Steps(t, a, n + 1);
      StaysYours(s, t);
      Advances(s, t);
      m := Finishes(budget, threads, before, t, a, n + 1);
    }
  }

  function OpOf(a: Action): S.Op
    requires !a.Continue?
  {
    match a
    case StartGet(k, now) => S.DoGet(k, now)
    case StartSet(k, o) => S.DoSet(k, o)
    case StartDelete(k) => S.DoDelete(k)
    case StartSetBudget(b) => S.DoBudget(b)
  }

  /** All its sections in a row are the whole operation. */
  lemma CallIsOp(st: S.State, a: Action)
    requires |st.lists| == SHARDS && !a.Continue?
    ensures var r := PerformAll(st, SectionsOfCall(Call(a, st.budget)));
            r.lists == S.Apply(st, OpOf(a)).lists && r.budget == S.Apply(st, OpOf(a)).budget
  {
    hide S.Get, S.Set, S.Delete, S.Sweep, SetBudgetSections;
    match a
    case StartGet(k, now) => PerformSnoc(st, [], Whole(S.DoGet(k, now)));
    case StartSet(k, o) =>
      SetIsSection(st, k, o);
      PerformSnoc(st, [], SetWith(k, o, st.budget));
      S.RefusedSetKeepsOlder(st, k, o);
    case StartDelete(k) => PerformSnoc(st, [], Whole(S.DoDelete(k)));
    case StartSetBudget(b) => SetBudgetIsSections(st, b, SHARDS);
  }

  lemma IdleIsDone(s: System, t: Tid, c: Call, own: seq<Section>, st: S.State)
    requires Inv(s) && t < |s.pcs| && |st.lists| == |s.shards| == SHARDS && AllYours(s, t) && s.pcs[t] == Idle
    requires Stands(c, s.pcs[t], own) && Sees(s, st)
    ensures own == SectionsOfCall(c)
    ensures forall i :: 0 <= i < SHARDS ==> s.shards[i] == Shard(st.lists[i], None)
  {
    hide Inv, SetBudgetSections;
    forall i | 0 <= i < SHARDS ensures s.shards[i] == Shard(st.lists[i], None) {
      OwnerOf(s, t, i);
    }
  }

  /**
    Undisturbed, every call is the sequential operation: started with all shards free, it comes to its end, and
    then the shards and the budget are exactly what CacheSpec says, with every mutex free again.
  */
  lemma AloneIsSequential(
      budget: int, threads: nat, before: seq<(Tid, Action)>, t: Tid, a: Action, st: S.State) returns (n: nat)
    requires t < threads && Exec(budget, threads, before).pcs[t] == Idle && !a.Continue?
    requires |st.lists| == SHARDS && st.budget == Exec(budget, threads, before).budget
    requires forall i :: 0 <= i < SHARDS ==> Exec(budget, threads, before).shards[i] == Shard(st.lists[i], None)
    ensures var s := Exec(budget, threads, before + Steps(t, a, n));
            && s.pcs[t] == Idle && s.budget == S.Apply(st, OpOf(a)).budget
            && forall i :: 0 <= i < SHARDS ==> s.shards[i] == Shard(S.Apply(st, OpOf(a)).lists[i], None)
  {
    hide Exec, Inv, Step, Rank, Perform, Stands, S.Apply, SectionsOfCall;
    var s0 := Exec(budget, threads, before);
    ExecSnoc(budget, threads, before, t, a);
    StartYours(s0, t, a);
    n := Finishes(budget, threads, before, t, a, 0);
    var own := AloneStands(budget, threads, before, t, a, n, st);
    ExecInv(budget, threads, before + Steps(t, a, n));
    IdleIsDone(Exec(budget, threads, before + Steps(t, a, n)), t, Call(a, s0.budget), own, PerformAll(st, own));
    CallIsOp(st, a);
  }

  // ----- every schedule -----

  /** The calls goroutine t has started, oldest first. */
  ghost function Calls(budget: int, threads: nat, schedule: seq<(Tid, Action)>, t: Tid): seq<Call>
    requires t < threads
  {
    if schedule == [] then []
    else
      var n := |schedule| - 1;
      var s := Exec(budget, threads, schedule[..n]);
      var (u, a) := schedule[n];
      Calls(budget, threads, schedule[..n], t) + if u == t && Starts(s, t, a) then [Call(a, s.budget)] else []
  }

  /** The critical sections goroutine t has been through, in the order of its locks. */
  ghost function By(budget: int, threads: nat, schedule: seq<(Tid, Action)>, t: Tid): seq<Section>
    requires t < threads
  {
    if schedule == [] then []
    else
      var n := |schedule| - 1;
      var (u, a) := schedule[n];
      By(budget, threads, schedule[..n], t) +
      if u == t then SectionSeq(Exec(budget, threads, schedule[..n]), t, a) else []
  }

  ghost function AllSections(calls: seq<Call>): seq<Section> {
    if calls == [] then [] else AllSections(calls[..|calls| - 1]) + SectionsOfCall(calls[|calls| - 1])
  }

  /** The finished calls in full, and the last one as far as it got. */
  ghost predicate InOrder(calls: seq<Call>, pc: Pc, did: seq<Section>, own: seq<Section>) {
    if calls == [] then pc == Idle && did == []
    else did == AllSections(calls[..|calls| - 1]) + own && Stands(calls[|calls| - 1], pc, own)
  }

  lemma IdleMeansWhole(calls: seq<Call>, did: seq<Section>, own: seq<Section>)
    requires InOrder(calls, Idle, did, own)
    ensures did == AllSections(calls)
  {
  }

  lemma OthersStay(s: System, t: Tid, u: Tid, a: Action)
    requires t < |s.pcs| && u < |s.pcs| && t != u && |s.shards| == SHARDS
    ensures Step(s, u, a).pcs[t] == s.pcs[t]
  {
    hide Without, Find, Bytes, Has, Touch;
  }

  /** A step that neither starts a call nor continues one changes nothing. */
  lemma BlockedStep(s: System, t: Tid, a: Action)
    requires t < |s.pcs| && |s.shards| == SHARDS && !Starts(s, t, a)
    requires !a.Continue? || s.pcs[t] == Idle
    ensures Step(s, t, a) == s && SectionSeq(s, t, a) == []
  {
    hide Without, Find, Bytes, Has, Touch;
  }

  lemma OwnStepInOrder(s: System, t: Tid, a: Action, calls: seq<Call>, did: seq<Section>, own: seq<Section>)
      returns (own': seq<Section>)
    requires t < |s.pcs| && |s.shards| == SHARDS && InOrder(calls, s.pcs[t], did, own)
    ensures InOrder(calls + if Starts(s, t, a) then [Call(a, s.budget)] else [],
                    Step(s, t, a).pcs[t], did + SectionSeq(s, t, a), own')
  {
    hide Stands, Step, SectionOf, AllSections, SectionsOfCall;
    own' := own;
    assert calls + [] == calls && did + [] == did;
    if Starts(s, t, a) {
      own' := SectionSeq(s, t, a);
      StartStands(s, t, a);
      IdleMeansWhole(calls, did, own);
      assert (calls + [Call(a, s.budget)])[..|calls|] == calls;
    } else if a.Continue? && s.pcs[t] != Idle {
      own' := own + SectionSeq(s, t, Continue);
      StepStands(s, t, calls[|calls| - 1], own);
      assert AllSections(calls[..|calls| - 1]) + own + SectionSeq(s, t, Continue) ==
             AllSections(calls[..|calls| - 1]) + own';
    } else {
      BlockedStep(s, t, a);
    }
  }

  /**
    Program order: in every schedule, the critical sections of a goroutine are those of its calls, in order, each
    call with its own arguments and the budget of the moment it started; when it is idle, all of them in full.
  */
  lemma {:induction false} RunsInOrder(budget: int, threads: nat, schedule: seq<(Tid, Action)>, t: Tid)
      returns (own: seq<Section>)
    requires t < threads
    ensures InOrder(Calls(budget, threads, schedule, t), Exec(budget, threads, schedule).pcs[t],
                    By(budget, threads, schedule, t), own)
    ensures Exec(budget, threads, schedule).pcs[t] == Idle ==>
              By(budget, threads, schedule, t) == AllSections(Calls(budget, threads, schedule, t))
  {
    hide Step, SectionSeq, InOrder, Starts, AllSections;
    if schedule == [] {
      own := [];
      NothingYet(budget, threads, t);
    } else {
      var n := |schedule| - 1;
      var (u, a) := schedule[n];
      var s := Exec(budget, threads, schedule[..n]);
      var calls, did := Calls(budget, threads, schedule[..n], t), By(budget, threads, schedule[..n], t);
      own := RunsInOrder(budget, threads, schedule[..n], t);
      assert calls + [] == calls && did + [] == did;
      if u == t {
        own := OwnStepInOrder(s, t, a, calls, did, own);
      } else if u < threads {
        OthersStay(s, t, u, a);
      }
    }
    if Exec(budget, threads, schedule).pcs[t] == Idle {
      IdleMeansWhole(Calls(budget, threads, schedule, t), By(budget, threads, schedule, t), own);
    }
  }

  lemma NothingYet(budget: int, threads: nat, t: Tid)
    requires t < threads
    ensures InOrder([], Exec(budget, threads, []).pcs[t], [], [])
  {
  }

  /** Some goroutine has been through this section. */
  ghost predicate Somebodys(budget: int, threads: nat, schedule: seq<(Tid, Action)>, sec: Section) {
    exists t: Tid :: t < threads && sec in By(budget, threads, schedule, t)
  }

  lemma StaysSomebodys(budget: int, threads: nat, schedule: seq<(Tid, Action)>, n: nat, sec: Section)
    requires |schedule| == n + 1 && Somebodys(budget, threads, schedule[..n], sec)
    ensures Somebodys(budget, threads, schedule, sec)
  {
    hide SectionSeq;
    var t: Tid :| t < threads && sec in By(budget, threads, schedule[..n], t);
    assert sec in By(budget, threads, schedule, t);
  }

  /** The sections of the schedule are those of its goroutines, and no others. */
  lemma {:induction false} SectionsAreShared(budget: int, threads: nat, schedule: seq<(Tid, Action)>, sec: Section)
    requires sec in SectionsOf(budget, threads, schedule)
    ensures Somebodys(budget, threads, schedule, sec)
  {
    hide Somebodys, SectionOf;
    if schedule != [] {
      var n := |schedule| - 1;
      if sec in SectionsOf(budget, threads, schedule[..n]) {
        SectionsAreShared(budget, threads, schedule[..n], sec);
        StaysSomebodys(budget, threads, schedule, n, sec);
      } else {
        NewIsSomebodys(budget, threads, schedule, n, sec);
      }
    }
  }

  lemma NewIsSomebodys(budget: int, threads: nat, schedule: seq<(Tid, Action)>, n: nat, sec: Section)
    requires |schedule| == n + 1 && schedule[n].0 < threads
    requires SectionOf(Exec(budget, threads, schedule[..n]), schedule[n].0, schedule[n].1) == Some(sec)
    ensures Somebodys(budget, threads, schedule, sec)
  {
    hide SectionOf, Exec;
    assert sec in By(budget, threads, schedule, schedule[n].0);
  }

  ghost predicate CallHas(calls: seq<Call>, sec: Section) {
    exists c :: c in calls && sec in SectionsOfCall(c)
  }

  lemma {:induction false} InSomeCall(calls: seq<Call>, sec: Section)
    requires sec in AllSections(calls)
    ensures CallHas(calls, sec)
  {
    hide SectionsOfCall;
    if calls != [] {
      var n := |calls| - 1;
      if sec in AllSections(calls[..n]) {
        InSomeCall(calls[..n], sec);
        var c :| c in calls[..n] && sec in SectionsOfCall(c);
        assert c in calls;
      } else {
        assert calls[n] in calls;
      }
    }
  }

  lemma OwnIsPartOfCall(c: Call, pc: Pc, own: seq<Section>, sec: Section)
    requires Stands(c, pc, own) && sec in own
    ensures sec in SectionsOfCall(c)
  {
    hide S.Accepts, Object.Size;
    if c.action.StartSetBudget? {
      hide SetBudgetSections;
      var n := if pc.Sweeping? then pc.i else if pc.Idle? then SHARDS else pc.next.shard + 1;
      SweepPrefix(c.action.budget, n, SHARDS, sec);
    }
  }

  lemma {:induction false} SweepPrefix(b: int, n: nat, m: nat, sec: Section)
    requires n <= m && sec in SetBudgetSections(b, n)
    ensures sec in SetBudgetSections(b, m)
  {
    if n < m {
      SweepPrefix(b, n, m - 1, sec);
    }
  }

  /**
    Every section of every schedule belongs to a call that some goroutine made: an eviction has the share of a
    budget that a SetBudget stored, a store the key and object of a Set and the budget of its start.
  */
  lemma EverySectionIsACalls(budget: int, threads: nat, schedule: seq<(Tid, Action)>, sec: Section) returns (t: Tid)
    requires sec in SectionsOf(budget, threads, schedule)
    ensures t < threads && CallHas(Calls(budget, threads, schedule, t), sec)
  {
    hide Exec, Calls, By, AllSections, SectionsOfCall, Stands;
    SectionsAreShared(budget, threads, schedule, sec);
    t :| t < threads && sec in By(budget, threads, schedule, t);
    var own := RunsInOrder(budget, threads, schedule, t);
    var calls := Calls(budget, threads, schedule, t);
    var before := calls[..|calls| - 1];
    if sec in AllSections(before) {
      InSomeCall(before, sec);
      var c :| c in before && sec in SectionsOfCall(c);
      assert c in calls;
    } else {
      OwnIsPartOfCall(calls[|calls| - 1], Exec(budget, threads, schedule).pcs[t], own, sec);
      assert calls[|calls| - 1] in calls;
    }
  }
}
