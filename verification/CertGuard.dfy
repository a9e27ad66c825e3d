/** The issuance guard as written (internal/certguard/certguard.go): a pruned, persisted per-apex history. */
module CertGuard {
  import opened Sums
  import opened Issuance

  /** apex -> issuance times, newest last. */
  type Events = map<Apex, seq<int>>

  function TimesOf(ev: Events, a: Apex): seq<int> {
    if a in ev then ev[a] else []
  }

  function After(times: seq<int>, cutoff: int): seq<int> {
    if times == [] then []
    else
      var n := |times| - 1;
      After(times[..n], cutoff) + if times[n] > cutoff then [times[n]] else []
  }

  function Pruned(ev: Events, cutoff: int): Events {
    map a | a in ev && After(ev[a], cutoff) != [] :: After(ev[a], cutoff)
  }

  ghost function CountsAfter(ev: Events, cutoff: int): map<Apex, int> {
    map a | a in ev :: |After(ev[a], cutoff)|
  }

  function Answer(limits: Limits, day: int, week: int, hour: int, nodeWeek: int): Verdict {
    if Used(limits.perApexPerDay, day) then ApexDayUsed
    else if Used(limits.perApexPerWeek, week) then ApexWeekUsed
    else if Used(limits.globalPerHour, hour) then NodeHourUsed
    else if Used(limits.globalPerWeek, nodeWeek) then NodeWeekUsed
    else Allowed
  }

  /** What Check answers from the events it holds. */
  ghost function DecideEvents(limits: Limits, ev: Events, apex: Apex, now: int): Verdict {
    Answer(limits,
           |After(TimesOf(ev, apex), now - DAY)|, |After(TimesOf(ev, apex), now - WEEK)|,
           SumMap(CountsAfter(ev, now - HOUR)), SumMap(CountsAfter(ev, now - WEEK)))
  }

  /** The full history's times for one apex, in order. */
  function LogTimes(log: seq<Issue>, a: Apex): seq<int> {
    if log == [] then []
    else
      var n := |log| - 1;
      LogTimes(log[..n], a) + if log[n].apex == a then [log[n].at] else []
  }

  /** The events still hold everything of the log later than `from`, apex by apex and in order. */
  ghost predicate Tracks(ev: Events, log: seq<Issue>, from: int) {
    forall a :: After(TimesOf(ev, a), from) == After(LogTimes(log, a), from)
  }

  // ----- laws of After -----

  lemma {:induction false} AfterAfter(times: seq<int>, c: int, d: int)
    ensures After(After(times, c), d) == After(times, Max(c, d))
  {
    if times != [] {
      var n := |times| - 1;
      AfterAfter(times[..n], c, d);
      AfterAppend(After(times[..n], c), if times[n] > c then [times[n]] else [], d);
    }
  }

  lemma {:induction false} AfterAppend(s: seq<int>, t: seq<int>, d: int)
    requires |t| <= 1
    ensures After(s + t, d) == After(s, d) + After(t, d)
  {
    if t == [] {
      assert s + t == s;
    } else {
      assert (s + t)[..|s|] == s && t[..0] == [];
    }
  }

  lemma {:induction false} AfterCounts(log: seq<Issue>, a: Apex, cutoff: int)
    ensures |After(LogTimes(log, a), cutoff)| == Since(log, Of(a), cutoff)
  {
    if log != [] {
      var n := |log| - 1;
      AfterCounts(log[..n], a, cutoff);
      AfterAppend(LogTimes(log[..n], a), if log[n].apex == a then [log[n].at] else [], cutoff);
    }
  }

  lemma PruneTracks(ev: Events, log: seq<Issue>, from: int, cutoff: int)
    requires Tracks(ev, log, from)
    ensures Tracks(Pruned(ev, cutoff), log, Max(from, cutoff))
  {
    var m := Max(from, cutoff);
    forall a ensures After(TimesOf(Pruned(ev, cutoff), a), m) == After(LogTimes(log, a), m) {
      AfterAfter(TimesOf(ev, a), cutoff, m);
      AfterAfter(TimesOf(ev, a), from, m);
      AfterAfter(LogTimes(log, a), from, m);
      assert TimesOf(Pruned(ev, cutoff), a) == After(TimesOf(ev, a), cutoff);
    }
  }

  lemma TracksLater(ev: Events, log: seq<Issue>, from: int, later: int)
    requires Tracks(ev, log, from) && from <= later
    ensures Tracks(ev, log, later)
  {
    forall a ensures After(TimesOf(ev, a), later) == After(LogTimes(log, a), later) {
      AfterAfter(TimesOf(ev, a), from, later);
      AfterAfter(LogTimes(log, a), from, later);
    }
  }

  lemma RecordTimes(ev: Events, log: seq<Issue>, from: int, apex: Apex, at: int, a: Apex)
    requires After(TimesOf(ev, a), from) == After(LogTimes(log, a), from)
    ensures After(TimesOf(ev[apex := TimesOf(ev, apex) + [at]], a), from) ==
            After(LogTimes(log + [Issue(apex, at)], a), from)
  {
    assert (log + [Issue(apex, at)])[..|log|] == log;
    if a == apex {
      hide After;
      AfterAppend(TimesOf(ev, a), [at], from);
      AfterAppend(LogTimes(log, a), [at], from);
    } else {
      assert LogTimes(log, a) + [] == LogTimes(log, a);
    }
  }

  lemma RecordTracks(ev: Events, log: seq<Issue>, from: int, apex: Apex, at: int)
    requires Tracks(ev, log, from)
    ensures Tracks(ev[apex := TimesOf(ev, apex) + [at]], log + [Issue(apex, at)], from)
  {
    hide After, TimesOf, LogTimes;
    forall a
      ensures After(TimesOf(ev[apex := TimesOf(ev, apex) + [at]], a), from) ==
              After(LogTimes(log + [Issue(apex, at)], a), from)
    {
      RecordTimes(ev, log, from, apex, at, a);
    }
  }

  /** A map of per-apex counts adds up to the count over the whole log, whatever apexes it lists as zero. */
  lemma {:induction false} CountsAddUp(m: map<Apex, int>, log: seq<Issue>, cutoff: int)
    requires forall a :: (if a in m then m[a] else 0) == Since(log, Of(a), cutoff)
    ensures SumMap(m) == Since(log, All, cutoff)
    decreases |log|
  {
    if log == [] {
      assert forall a :: a in m ==> m[a] == Since(log, Of(a), cutoff) == 0;
      SumMapZero(m);
    } else {
      var n := |log| - 1;
      var a0 := log[n].apex;
      if log[n].at > cutoff {
        assert Since(log, Of(a0), cutoff) == Since(log[..n], Of(a0), cutoff) + 1;
        var m' := m[a0 := m[a0] - 1];
        forall a ensures (if a in m' then m'[a] else 0) == Since(log[..n], Of(a), cutoff) {
          assert (if a in m then m[a] else 0) == Since(log, Of(a), cutoff);
        }
        CountsAddUp(m', log[..n], cutoff);
        SumMapSplit(m, a0);
        SumMapSplit(m', a0);
        assert m - {a0} == m' - {a0};
      } else {
        forall a ensures (if a in m then m[a] else 0) == Since(log[..n], Of(a), cutoff) {
          assert (if a in m then m[a] else 0) == Since(log, Of(a), cutoff);
        }
        CountsAddUp(m, log[..n], cutoff);
      }
    }
  }

  lemma {:induction false} SumMapZero(m: map<Apex, int>)
    requires forall a :: a in m ==> m[a] == 0
    ensures SumMap(m) == 0
    decreases m.Keys
  {
    if m != map[] {
      var k :| k in m;
      assert k !in (m - {k}).Keys;
      SumMapSplit(m, k);
      SumMapZero(m - {k});
    }
  }

  lemma TrackedCount(ev: Events, log: seq<Issue>, from: int, a: Apex, cutoff: int)
    requires Tracks(ev, log, from) && from <= cutoff
    ensures |After(TimesOf(ev, a), cutoff)| == Since(log, Of(a), cutoff)
  {
    AfterAfter(TimesOf(ev, a), from, cutoff);
    AfterAfter(LogTimes(log, a), from, cutoff);
    AfterCounts(log, a, cutoff);
  }

  lemma TrackedTotal(ev: Events, log: seq<Issue>, from: int, cutoff: int)
    requires Tracks(ev, log, from) && from <= cutoff
    ensures SumMap(CountsAfter(ev, cutoff)) == Since(log, All, cutoff)
  {
    var m := CountsAfter(ev, cutoff);
    forall a ensures (if a in m then m[a] else 0) == Since(log, Of(a), cutoff) {
      TrackedCount(ev, log, from, a, cutoff);
    }
    CountsAddUp(m, log, cutoff);
  }

  /** Pruned or not, reloaded or not: as long as nothing in a window was dropped, the answer is the full history's. */
  lemma TrackedDecision(limits: Limits, ev: Events, log: seq<Issue>, from: int, apex: Apex, now: int)
    requires Tracks(ev, log, from) && from <= now - WEEK
    ensures DecideEvents(limits, ev, apex, now) == Decide(limits, log, apex, now)
  {
    hide Tracks, After, SumMap, CountsAfter, TimesOf;
    TrackedCount(ev, log, from, apex, now - DAY);
    TrackedCount(ev, log, from, apex, now - WEEK);
    TrackedTotal(ev, log, from, now - HOUR);
    TrackedTotal(ev, log, from, now - WEEK);
  }

  // ----- whole lives of a guard: checks, records and restarts in any order, every write reaching the disk -----

  datatype Life = Life(events: Events, saved: Option<Events>, log: seq<Issue>)

  datatype Act =
    | Checked(at: int)                // Check prunes
    | Recorded(apex: Apex, at: int)   // Record appends and saves
    | Restarted(at: int)              // New reads the file and prunes; without a file it starts empty

  const NEWBORN := Life(map[], None, [])

  function Live(l: Life, act: Act): Life {
    match act
    case Checked(at) => l.(events := Pruned(l.events, at - RETENTION))
    case Recorded(apex, at) =>
      var ev := l.events[apex := TimesOf(l.events, apex) + [at]];
      Life(ev, Some(ev), l.log + [Issue(apex, at)])
    case Restarted(at) =>
      (match l.saved
       case None => l.(events := map[])
       case Some(ev) => l.(events := Pruned(ev, at - RETENTION)))
  }

  function Lived(acts: seq<Act>): Life {
    if acts == [] then NEWBORN else Live(Lived(acts[..|acts| - 1]), acts[|acts| - 1])
  }

  /** Memory and file hold everything of the log later than `from`. */
  ghost predicate LifeOk(l: Life, from: int) {
    && Tracks(l.events, l.log, from)
    && match l.saved
       case None => l.log == []
       case Some(ev) => Tracks(ev, l.log, from)
  }

  /** A clock reading used to prune is at most a day ahead of `now`; Record's readings may be anything. */
  predicate PrunesNear(act: Act, now: int) {
    act.Recorded? || act.at <= now + DAY
  }

  lemma EmptyTracks(from: int)
    ensures Tracks(map[], [], from)
  {
  }

  lemma LiveOk(l: Life, act: Act, now: int)
    requires LifeOk(l, now - WEEK) && PrunesNear(act, now)
    ensures LifeOk(Live(l, act), now - WEEK)
  {
    hide Tracks, Pruned;
    var from := now - WEEK;
    match act
    case Checked(at) => PruneTracks(l.events, l.log, from, at - RETENTION);
    case Recorded(apex, at) => RecordTracks(l.events, l.log, from, apex, at);
    case Restarted(at) =>
      if l.saved.None? {
        EmptyTracks(from);
      } else {
        PruneTracks(l.saved.value, l.log, from, at - RETENTION);
      }
  }

  lemma {:induction false} LivedOk(acts: seq<Act>, now: int)
    requires forall i :: 0 <= i < |acts| ==> PrunesNear(acts[i], now)
    ensures LifeOk(Lived(acts), now - WEEK)
  {
    hide Live, Tracks;
    if acts == [] {
      EmptyTracks(now - WEEK);
    } else {
      LivedOk(acts[..|acts| - 1], now);
      LiveOk(Lived(acts[..|acts| - 1]), acts[|acts| - 1], now);
    }
  }

  lemma OneRecorded(apex: Apex, at: int)
    ensures Lived([Recorded(apex, at)]) == Live(NEWBORN, Recorded(apex, at))
    ensures Lived([Recorded(apex, at)]).events == map[apex := [at]]
    ensures Lived([Recorded(apex, at)]).log == [Issue(apex, at)]
  {
    var acts := [Recorded(apex, at)];
    assert acts[..|acts| - 1] == [] && acts[|acts| - 1] == Recorded(apex, at) && Lived([]) == NEWBORN;
    assert [] + [at] == [at] && [] + [Issue(apex, at)] == [Issue(apex, at)];
  }

  lemma SinceOne(apex: Apex, at: int, cutoff: int)
    ensures Since([Issue(apex, at)], Of(apex), cutoff) == if at > cutoff then 1 else 0
  {
    assert [Issue(apex, at)][..0] == [];
  }

  lemma PrunedAway(apex: Apex, at: int)
    ensures Pruned(map[apex := [at]], at) == map[]
  {
    assert [at][..0] == [] && After([at][..0], at) == [];
    assert After([at], at) == [];
  }

  /**
    The day of slack between the 8-day retention and the 7-day window is all there is: whenever the clock
    steps back further than that after a prune, the guard that recorded one issuance just outside the
    retention answers the next check differently from the complete history.
  */
  lemma SlackIsOneDay(pruneAt: int, back: int, apex: Apex)
    requires back > DAY
    ensures var limits, l := Limits(0, 1, 0, 0), Lived([Recorded(apex, pruneAt - RETENTION)]);
            && Decide(limits, l.log, apex, pruneAt - back) == ApexWeekUsed
            && DecideEvents(limits, Pruned(l.events, pruneAt - RETENTION), apex, pruneAt - back) == Allowed
  {
    hide Lived, Live, Since, Pruned, CountsAfter, SumMap;
    var at := pruneAt - RETENTION;
    OneRecorded(apex, at);
    SinceOne(apex, at, pruneAt - back - WEEK);
    PrunedAway(apex, at);
  }

  /**
    Pruning and restarts are invisible over a guard's whole life: after any checks, records and restarts,
    a check decides from the pruned, possibly reloaded events exactly as from the complete history, as long
    as no clock reading that pruned was more than 24 hours ahead of the one it counts with.
  */
  lemma PruningIsInvisible(limits: Limits, acts: seq<Act>, apex: Apex, pruneAt: int, now: int)
    requires forall i :: 0 <= i < |acts| ==> PrunesNear(acts[i], now)
    requires pruneAt <= now + DAY
    ensures var l := Lived(acts);
            DecideEvents(limits, Pruned(l.events, pruneAt - RETENTION), apex, now) == Decide(limits, l.log, apex, now)
  {
    hide Decide, DecideEvents, Pruned, Tracks, Lived;
    var l := Lived(acts);
    LivedOk(acts, now);
    PruneTracks(l.events, l.log, now - WEEK, pruneAt - RETENTION);
    TrackedDecision(limits, Pruned(l.events, pruneAt - RETENTION), l.log, now - WEEK, apex, now);
  }

  // ----- the guard -----

  /** certguard.json on disk. */
  datatype File = Missing | Unreadable | Malformed | Holding(events: Events)

  class Store {
    var file: File

    constructor (file: File)
      ensures this.file == file
    {
      this.file := file;
    }
  }

  /**
    The loop of pruneLocked over one apex's slice: `kept` grows in the very array that is being read.
    The write position never passes the read position, so this is an order-preserving filter.
  */
  method KeepAfter(times: array<int>, cutoff: int) returns (kept: nat)
    modifies times
    ensures kept <= times.Length && times[..kept] == After(old(times[..]), cutoff)
  {
    kept := 0;
    ghost var before := times[..];
    for i := 0 to times.Length
      invariant kept <= i
      invariant times[..kept] == After(before[..i], cutoff)
      invariant forall j :: i <= j < times.Length ==> times[j] == before[j]
    {
      assert before[..i + 1][..i] == before[..i];
      var t := times[i];
      if t > cutoff {
        ghost var done := times[..kept];
        times[kept] := t;
        kept := kept + 1;
        assert times[..kept] == done + [t];
      }
    }
    assert before[..times.Length] == before;
  }

  /** The same loop on a slice held in the map: its backing array is filtered and re-sliced. */
  method KeepSlice(times: seq<int>, cutoff: int) returns (kept: seq<int>)
    ensures kept == After(times, cutoff)
  {
    var backing := new int[|times|](i requires 0 <= i < |times| => times[i]);
    assert backing[..] == times;
    var n := KeepAfter(backing, cutoff);
    kept := backing[..n];
  }

  function SavedIn(file: File): Option<Events> {
    match file case Holding(ev) => Some(ev) case _ => None
  }

  class Guard {
    const limits: Limits
    const store: Store
    var events: Events
    ghost var log: seq<Issue>  // everything ever recorded, across restarts
    ghost var dropped: int     // nothing later than this has been pruned

    ghost predicate Valid()
      reads this
    {
      Tracks(events, log, dropped)
    }

    /** The file holds at least what the memory needs: true while every save succeeds. */
    ghost predicate Saved()
      reads this, store
    {
      match store.file
      case Missing => log == []
      case Holding(ev) => Tracks(ev, log, dropped)
      case _ => false
    }

    /** The guard and its file as a value. */
    ghost function AsLife(): Life
      reads this, store
    {
      Life(events, SavedIn(store.file), log)
    }

    constructor Empty(limits: Limits, store: Store)
      ensures Valid() && this.limits == limits && this.store == store
      ensures events == map[] && log == [] && dropped == 0
    {
      this.limits := limits;
      this.store := store;
      events := map[];
      log := [];
      dropped := 0;
    }

    /** New on an existing file: read it, then prune. A file that cannot be read or parsed is an error. */
    static method New(limits: Limits, store: Store, now: int, ghost log: seq<Issue>, ghost dropped: int)
      returns (g: Option<Guard>)
      requires store.file.Missing? ==> log == []
      requires store.file.Holding? ==> Tracks(store.file.events, log, dropped)
      ensures g.None? <==> store.file.Unreadable? || store.file.Malformed?
      ensures g.Some? ==>
                && fresh(g.value) && g.value.Valid() && g.value.Saved()
                && g.value.limits == limits && g.value.store == store
                && g.value.log == log
                && g.value.dropped == (if store.file.Missing? then dropped else Max(dropped, now - RETENTION))
      ensures forall before :: g.Some? ==>
                g.value.AsLife() == Live(Life(before, SavedIn(store.file), log), Restarted(now))
    {
      if store.file.Unreadable? || store.file.Malformed? {
        return None;
      }
      var loaded := new Guard.Empty(limits, store);
      loaded.log, loaded.dropped := log, dropped;
      if store.file.Holding? {
        loaded.events := store.file.events;
        TracksLater(loaded.events, log, dropped, Max(dropped, now - RETENTION));
        loaded.Prune(now);
      }
      return Some(loaded);
    }

    /** pruneLocked. */
    method Prune(now: int)
      requires Valid()
      modifies this`events, this`dropped
      ensures Valid() && events == Pruned(old(events), now - RETENTION)
      ensures dropped == Max(old(dropped), now - RETENTION)
      ensures old(Saved()) ==> Saved()
    {
      hide After, Tracks, LogTimes;
      var cutoff := now - RETENTION;
      PruneTracks(events, log, dropped, cutoff);
      if Saved() && store.file.Holding? {
        TracksLater(store.file.events, log, dropped, Max(dropped, cutoff));
      }
      var todo := events.Keys;
      while todo != {}
        invariant todo <= old(events).Keys && dropped == old(dropped)
        invariant forall a :: a in todo ==> a in events && events[a] == old(events)[a]
        invariant forall a :: a !in todo ==> (a in events <==> a in Pruned(old(events), cutoff))
        invariant forall a :: a !in todo && a in events ==> events[a] == After(old(events)[a], cutoff)
        decreases todo
      {
        var apex :| apex in todo;
        var kept := KeepSlice(events[apex], cutoff);
        if kept == [] {
          events := events - {apex};
        } else {
          events := events[apex := kept];
        }
        todo := todo - {apex};
      }
      assert events == Pruned(old(events), cutoff);
      dropped := Max(dropped, cutoff);
    }

    method CountSince(apex: Apex, cutoff: int) returns (n: nat)
      ensures n == |After(TimesOf(events, apex), cutoff)|
    {
      n := 0;
      var times := if apex in events then events[apex] else [];
      for i := 0 to |times|
        invariant n == |After(times[..i], cutoff)|
      {
        assert times[..i + 1][..i] == times[..i];
        if times[i] > cutoff {
          n := n + 1;
        }
      }
      assert times[..|times|] == times;
    }

    /** countAllSince; Go's map order is an arbitrary choice. */
    method CountAllSince(cutoff: int) returns (n: int)
      ensures n == SumMap(CountsAfter(events, cutoff))
    {
      n := 0;
      var todo := events.Keys;
      ghost var left := CountsAfter(events, cutoff);
      while todo != {}
        invariant todo <= events.Keys && left.Keys == todo
        invariant forall a :: a in todo ==> left[a] == |After(events[a], cutoff)|
        invariant n + SumMap(left) == SumMap(CountsAfter(events, cutoff))
        decreases todo
      {
        var apex :| apex in todo;
        var k := CountSince(apex, cutoff);
        SumMapSplit(left, apex);
        n := n + k;
        todo := todo - {apex};
        left := left - {apex};
      }
      assert left == map[];
    }

    /**
      Check reads the clock twice, once to prune and once to count. As long as the second reading is not
      more than 24 hours behind the latest reading ever used to prune, pruning and restarts are invisible:
      the answer is the one the complete history gives.
    */
    method Check(apex: Apex, pruneAt: int, now: int) returns (v: Verdict)
      requires Valid()
      modifies this`events, this`dropped
      ensures Valid() && events == Pruned(old(events), pruneAt - RETENTION)
      ensures dropped == Max(old(dropped), pruneAt - RETENTION)
      ensures old(Saved()) ==> Saved()
      ensures AsLife() == Live(old(AsLife()), Checked(pruneAt))
      ensures v == DecideEvents(limits, events, apex, now)
      ensures dropped <= now + DAY - RETENTION ==> v == Decide(limits, log, apex, now)
    {
      hide Tracks, Pruned, CountsAfter, After;
      Prune(pruneAt);
      if dropped <= now + DAY - RETENTION {
        TrackedDecision(limits, events, log, dropped, apex, now);
      }
      var day := CountSince(apex, now - DAY);
      if limits.perApexPerDay > 0 && day >= limits.perApexPerDay {
        return ApexDayUsed;
      }
      var week := CountSince(apex, now - WEEK);
      if limits.perApexPerWeek > 0 && week >= limits.perApexPerWeek {
        return ApexWeekUsed;
      }
      var hour := CountAllSince(now - HOUR);
      if limits.globalPerHour > 0 && hour >= limits.globalPerHour {
        return NodeHourUsed;
      }
      var nodeWeek := CountAllSince(now - WEEK);
      if limits.globalPerWeek > 0 && nodeWeek >= limits.globalPerWeek {
        return NodeWeekUsed;
      }
      return Allowed;
    }

    /** Record appends and saves; whether the write reaches the disk is not reported to anyone. */
    method Record(apex: Apex, now: int, written: bool)
      requires Valid()
      modifies this`events, this`log, store
      ensures Valid() && log == old(log) + [Issue(apex, now)]
      ensures events == old(events)[apex := TimesOf(old(events), apex) + [now]]
      ensures written ==> Saved() && AsLife() == Live(old(AsLife()), Recorded(apex, now))
      ensures !written ==> store.file == old(store.file)
    {
      hide Tracks, TimesOf;
      RecordTracks(events, log, dropped, apex, now);
      events := events[apex := TimesOf(events, apex) + [now]];
      log := log + [Issue(apex, now)];
      if written {
        store.file := Holding(events);
      }
    }
  }
}
