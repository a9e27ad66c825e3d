/**
  The issuance protocol (internal/server/server.go): Check approves an order, the CA takes its time, and
  Record happens only when the certificate arrives. Orders overlap, so the limits are met up to the
  number of approvals in flight.
*/
module IssuanceRuns {
  import opened Issuance

  /** `flying` holds the apex of every order approved and neither recorded nor failed yet. */
  datatype State = State(now: int, log: seq<Issue>, flying: seq<Apex>)

  datatype Event =
    | Tick(span: nat)
    | Approve(apex: Apex)   // Check; nothing happens when it refuses
    | Issued(order: nat)    // cert_obtained: Record
    | Failed(order: nat)    // cert_failed

  function Init(now: int): State {
    State(now, [], [])
  }

  function Step(limits: Limits, s: State, e: Event): State {
    match e
    case Tick(span) => s.(now := s.now + span)
    case Approve(a) =>
      if Decide(limits, s.log, a, s.now) == Allowed then s.(flying := s.flying + [a]) else s
    case Issued(i) =>
      if i >= |s.flying| then s
      else State(s.now, s.log + [Issue(s.flying[i], s.now)], s.flying[..i] + s.flying[i + 1..])
    case Failed(i) =>
      if i >= |s.flying| then s else s.(flying := s.flying[..i] + s.flying[i + 1..])
  }

  function Run(limits: Limits, start: int, events: seq<Event>): State {
    if events == [] then Init(start)
    else Step(limits, Run(limits, start, events[..|events| - 1]), events[|events| - 1])
  }

  /** Orders in flight that count in a scope. */
  function Flying(flying: seq<Apex>, scope: Scope): nat {
    if flying == [] then 0
    else Flying(flying[..|flying| - 1], scope) + if Counts(scope, flying[|flying| - 1]) then 1 else 0
  }

  /** Along the whole run at most m orders of the scope are in flight at once. */
  ghost predicate AtMostInFlight(limits: Limits, start: int, events: seq<Event>, scope: Scope, m: int) {
    forall n :: 0 <= n <= |events| ==> Flying(Run(limits, start, events[..n]).flying, scope) <= m
  }

  /** The four configured budgets: scope, window length, limit. */
  datatype Budget = Budget(scope: Scope, length: int, limit: int)

  const SECOND := 1_000_000_000  // nanoseconds

  predicate Configured(limits: Limits, b: Budget) {
    && 0 < b.limit
    && match b.scope
       case Of(_) =>
         || (b.length == 24 * 3600 * SECOND && b.limit == limits.perApexPerDay)
         || (b.length == 7 * 24 * 3600 * SECOND && b.limit == limits.perApexPerWeek)
       case All =>
         || (b.length == 3600 * SECOND && b.limit == limits.globalPerHour)
         || (b.length == 7 * 24 * 3600 * SECOND && b.limit == limits.globalPerWeek)
  }

  /** Check approves exactly when every configured budget that counts the apex has room in the window ending now. */
  lemma ApprovedIff(limits: Limits, log: seq<Issue>, apex: Apex, now: int)
    ensures Decide(limits, log, apex, now) == Allowed <==>
            forall b: Budget :: Configured(limits, b) && (b.scope == Of(apex) || b.scope == All) ==>
              Since(log, b.scope, now - b.length) < b.limit
  {
    if forall b: Budget :: Configured(limits, b) && (b.scope == Of(apex) || b.scope == All) ==>
         Since(log, b.scope, now - b.length) < b.limit {
      var day, week := Budget(Of(apex), DAY, limits.perApexPerDay), Budget(Of(apex), WEEK, limits.perApexPerWeek);
      var hour, all := Budget(All, HOUR, limits.globalPerHour), Budget(All, WEEK, limits.globalPerWeek);
      assert Configured(limits, day) ==> Since(log, day.scope, now - day.length) < day.limit;
      assert Configured(limits, week) ==> Since(log, week.scope, now - week.length) < week.limit;
      assert Configured(limits, hour) ==> Since(log, hour.scope, now - hour.length) < hour.limit;
      assert Configured(limits, all) ==> Since(log, all.scope, now - all.length) < all.limit;
    }
  }

  // ----- nothing is lost -----

  /** The issuances a run must record: each certificate that arrives for an order in flight, with its apex and time. */
  function Arrived(limits: Limits, start: int, events: seq<Event>): seq<Issue> {
    if events == [] then []
    else
      var n := |events| - 1;
      var s := Run(limits, start, events[..n]);
      Arrived(limits, start, events[..n]) +
      if events[n].Issued? && events[n].order < |s.flying| then [Issue(s.flying[events[n].order], s.now)] else []
  }

  /** Approvals granted, and orders that failed, along a run. */
  function Granted(limits: Limits, start: int, events: seq<Event>): nat {
    if events == [] then 0
    else
      var n := |events| - 1;
      var s := Run(limits, start, events[..n]);
      Granted(limits, start, events[..n]) +
      if events[n].Approve? && Decide(limits, s.log, events[n].apex, s.now) == Allowed then 1 else 0
  }

  function Lost(limits: Limits, start: int, events: seq<Event>): nat {
    if events == [] then 0
    else
      var n := |events| - 1;
      Lost(limits, start, events[..n]) +
      if events[n].Failed? && events[n].order < |Run(limits, start, events[..n]).flying| then 1 else 0
  }

  /** Every certificate that arrives is recorded, and every approved order is in flight, recorded or failed. */
  lemma {:induction false} OrdersAddUp(limits: Limits, start: int, events: seq<Event>)
    ensures var s := Run(limits, start, events);
            && s.log == Arrived(limits, start, events)
            && Granted(limits, start, events) == |s.flying| + |s.log| + Lost(limits, start, events)
  {
    hide Decide;
    if events != [] {
      OrdersAddUp(limits, start, events[..|events| - 1]);
    }
  }

  // ----- counting -----

  lemma {:induction false} FlyingConcat(s: seq<Apex>, t: seq<Apex>, scope: Scope)
    ensures Flying(s + t, scope) == Flying(s, scope) + Flying(t, scope)
  {
    if t == [] {
      assert s + t == s;
    } else {
      FlyingConcat(s, t[..|t| - 1], scope);
      assert (s + t)[..|s + t| - 1] == s + t[..|t| - 1];
    }
  }

  lemma FlyingRemove(s: seq<Apex>, i: nat, scope: Scope)
    requires i < |s|
    ensures Flying(s[..i] + s[i + 1..], scope) == Flying(s, scope) - if Counts(scope, s[i]) then 1 else 0
  {
    assert s == s[..i] + ([s[i]] + s[i + 1..]);
    assert [s[i]][..0] == [];
    FlyingConcat(s[..i], [s[i]] + s[i + 1..], scope);
    FlyingConcat([s[i]], s[i + 1..], scope);
    FlyingConcat(s[..i], s[i + 1..], scope);
  }

  lemma {:induction false} SinceAntitone(log: seq<Issue>, scope: Scope, c: int, d: int)
    requires c <= d
    ensures Since(log, scope, d) <= Since(log, scope, c)
  {
    if log != [] {
      SinceAntitone(log[..|log| - 1], scope, c, d);
    }
  }

  lemma {:induction false} WithinAtMostSince(log: seq<Issue>, scope: Scope, length: int, from: int, cutoff: int)
    requires cutoff <= from
    ensures Within(log, scope, length, from) <= Since(log, scope, cutoff)
  {
    if log != [] {
      WithinAtMostSince(log[..|log| - 1], scope, length, from, cutoff);
    }
  }

  lemma SinceAppend(log: seq<Issue>, e: Issue, scope: Scope, cutoff: int)
    ensures Since(log + [e], scope, cutoff) ==
            Since(log, scope, cutoff) + if Counts(scope, e.apex) && e.at > cutoff then 1 else 0
  {
    assert (log + [e])[..|log|] == log;
  }

  lemma WithinAppend(log: seq<Issue>, e: Issue, scope: Scope, length: int, from: int)
    ensures Within(log + [e], scope, length, from) ==
            Within(log, scope, length, from) + if Counts(scope, e.apex) && from < e.at <= from + length then 1 else 0
  {
    assert (log + [e])[..|log|] == log;
  }

  // ----- the bound -----

  /** Recorded in the window that ends now, plus in flight, never exceeds limit - 1 + m. */
  ghost predicate WithinBudget(s: State, b: Budget, m: nat) {
    && Since(s.log, b.scope, s.now - b.length) + Flying(s.flying, b.scope) <= b.limit - 1 + m
    && forall from :: Within(s.log, b.scope, b.length, from) <= b.limit - 1 + m
  }

  lemma ApprovedMeansBelowLimit(limits: Limits, s: State, a: Apex, b: Budget)
    requires Configured(limits, b) && Decide(limits, s.log, a, s.now) == Allowed && Counts(b.scope, a)
    ensures Since(s.log, b.scope, s.now - b.length) < b.limit
  {
  }

  lemma StepWithinBudget(limits: Limits, s: State, e: Event, b: Budget, m: nat)
    requires Configured(limits, b) && WithinBudget(s, b, m)
    requires Flying(Step(limits, s, e).flying, b.scope) <= m
    ensures WithinBudget(Step(limits, s, e), b, m)
  {
    hide Since, Within, Flying, Decide;
    match e
    case Tick(span) => SinceAntitone(s.log, b.scope, s.now - b.length, s.now + span - b.length);
    case Approve(a) =>
      if Decide(limits, s.log, a, s.now) == Allowed {
        FlyingAppend(s.flying, a, b.scope);
        if Counts(b.scope, a) {
          ApprovedMeansBelowLimit(limits, s, a, b);
        }
      }
    case Issued(i) => if i < |s.flying| { IssuedWithinBudget(limits, s, i, b, m); }
    case Failed(i) => if i < |s.flying| { FlyingRemove(s.flying, i, b.scope); }
  }

  lemma FlyingAppend(flying: seq<Apex>, a: Apex, scope: Scope)
    ensures Flying(flying + [a], scope) == Flying(flying, scope) + if Counts(scope, a) then 1 else 0
  {
    assert (flying + [a])[..|flying|] == flying;
  }

  /** A record turns one order in flight into one recorded issuance: in no window can that exceed the bound. */
  lemma IssuedWithinBudget(limits: Limits, s: State, i: nat, b: Budget, m: nat)
    requires Configured(limits, b) && WithinBudget(s, b, m) && i < |s.flying|
    ensures WithinBudget(Step(limits, s, Issued(i)), b, m)
  {
    hide Since, Within, Flying;
    var s' := Step(limits, s, Issued(i));
    var e := Issue(s.flying[i], s.now);
    FlyingRemove(s.flying, i, b.scope);
    SinceAppend(s.log, e, b.scope, s.now - b.length);
    forall from ensures Within(s'.log, b.scope, b.length, from) <= b.limit - 1 + m {
      WithinAppend(s.log, e, b.scope, b.length, from);
      if Counts(b.scope, e.apex) && from < s.now <= from + b.length {
        WithinAtMostSince(s.log, b.scope, b.length, from, s.now - b.length);
        assert Within(s.log, b.scope, b.length, from) + 1 <= b.limit - 1 + m;
      }
    }
  }

  lemma InitWithinBudget(start: int, b: Budget, m: nat)
    requires 0 < b.limit
    ensures WithinBudget(Init(start), b, m)
  {
  }

  lemma {:induction false} RunWithinBudget(limits: Limits, start: int, events: seq<Event>, b: Budget, m: nat)
    requires Configured(limits, b) && AtMostInFlight(limits, start, events, b.scope, m)
    ensures WithinBudget(Run(limits, start, events), b, m)
  {
    hide WithinBudget, Step, Flying;
    if events == [] {
      InitWithinBudget(start, b, m);
    } else {
      var n := |events| - 1;
      forall k | 0 <= k <= n
        ensures Flying(Run(limits, start, events[..n][..k]).flying, b.scope) <= m
      {
        assert events[..n][..k] == events[..k];
      }
      RunWithinBudget(limits, start, events[..n], b, m);
      assert events[..|events|] == events;
      StepWithinBudget(limits, Run(limits, start, events[..n]), events[n], b, m);
    }
  }

  /**
    The issuance bound. With at most m orders of a budget's scope in flight, every window of the budget's
    length, wherever it lies, holds at most limit - 1 + m recorded issuances: the limit itself when orders
    never overlap, and m - 1 more at worst.
  */
  lemma EveryWindowBounded(limits: Limits, start: int, events: seq<Event>, b: Budget, m: nat, from: int)
    requires Configured(limits, b) && AtMostInFlight(limits, start, events, b.scope, m)
    ensures Within(Run(limits, start, events).log, b.scope, b.length, from) <= b.limit - 1 + m
    ensures m == 1 ==> Within(Run(limits, start, events).log, b.scope, b.length, from) <= b.limit
  {
    RunWithinBudget(limits, start, events, b, m);
  }

  // ----- the bound is reached -----

  /** One of the four kinds of budget there are. */
  predicate Proper(b: Budget) {
    && 0 < b.limit
    && match b.scope
       case Of(_) => b.length == DAY || b.length == WEEK
       case All => b.length == HOUR || b.length == WEEK
  }

  /** The configuration in which b is the only budget. */
  function Only(b: Budget): Limits {
    match b.scope
    case Of(_) => if b.length == DAY then Limits(b.limit, 0, 0, 0) else Limits(0, b.limit, 0, 0)
    case All => if b.length == HOUR then Limits(0, 0, b.limit, 0) else Limits(0, 0, 0, b.limit)
  }

  /** b.limit - 1 orders one after the other, then m approvals before any of them arrives, then the m arrivals. */
  function Sequential(a: Apex, n: nat): seq<Event> {
    if n == 0 then [] else Sequential(a, n - 1) + [Approve(a), Issued(0)]
  }

  function Burst(a: Apex, n: nat): seq<Event> {
    if n == 0 then [] else Burst(a, n - 1) + [Approve(a)]
  }

  function Arrivals(n: nat): seq<Event> {
    if n == 0 then [] else Arrivals(n - 1) + [Issued(0)]
  }

  function Copies<T>(x: T, n: nat): (r: seq<T>)
    ensures |r| == n && forall i :: 0 <= i < n ==> r[i] == x
  {
    seq(n, _ => x)
  }

  /** The same run from a given state. */
  function From(limits: Limits, s: State, events: seq<Event>): State {
    if events == [] then s else Step(limits, From(limits, s, events[..|events| - 1]), events[|events| - 1])
  }

  lemma {:induction false} FromConcat(limits: Limits, s: State, a: seq<Event>, b: seq<Event>)
    ensures From(limits, s, a + b) == From(limits, From(limits, s, a), b)
  {
    hide Step;
    if b == [] {
      assert a + b == a;
    } else {
      FromConcat(limits, s, a, b[..|b| - 1]);
      assert (a + b)[..|a + b| - 1] == a + b[..|b| - 1];
    }
  }

  lemma {:induction false} RunIsFrom(limits: Limits, start: int, events: seq<Event>)
    ensures Run(limits, start, events) == From(limits, Init(start), events)
  {
    hide Step;
    if events != [] {
      RunIsFrom(limits, start, events[..|events| - 1]);
    }
  }

  lemma {:induction false} CopiesCount(a: Apex, n: nat, cutoff: int, at: int, scope: Scope)
    requires at > cutoff && Counts(scope, a)
    ensures Since(Copies(Issue(a, at), n), scope, cutoff) == n
  {
    if n > 0 {
      CopiesCount(a, n - 1, cutoff, at, scope);
      assert Copies(Issue(a, at), n)[..n - 1] == Copies(Issue(a, at), n - 1);
    }
  }

  lemma StepApprove(b: Budget, a: Apex, n: nat, k: nat)
    requires Proper(b) && Counts(b.scope, a) && n < b.limit
    ensures Step(Only(b), State(0, Copies(Issue(a, 0), n), Copies(a, k)), Approve(a)) ==
            State(0, Copies(Issue(a, 0), n), Copies(a, k + 1))
  {
    CopiesCount(a, n, -b.length, 0, b.scope);
    assert Copies(a, k) + [a] == Copies(a, k + 1);
  }

  lemma StepIssued(limits: Limits, a: Apex, n: nat, k: nat)
    requires 0 < k
    ensures Step(limits, State(0, Copies(Issue(a, 0), n), Copies(a, k)), Issued(0)) ==
            State(0, Copies(Issue(a, 0), n + 1), Copies(a, k - 1))
  {
    assert Copies(Issue(a, 0), n) + [Issue(a, 0)] == Copies(Issue(a, 0), n + 1);
    assert Copies(a, k)[..0] + Copies(a, k)[1..] == Copies(a, k - 1);
  }

  lemma {:induction false} SequentialRun(b: Budget, a: Apex, n: nat)
    requires Proper(b) && Counts(b.scope, a) && n <= b.limit
    ensures From(Only(b), Init(0), Sequential(a, n)) == State(0, Copies(Issue(a, 0), n), [])
  {
    hide Step;
    assert Copies(a, 0) == [] && Copies(Issue(a, 0), 0) == [];
    if n > 0 {
      var l := Only(b);
      SequentialRun(b, a, n - 1);
      StepApprove(b, a, n - 1, 0);
      StepIssued(l, a, n - 1, 1);
      FromConcat(l, Init(0), Sequential(a, n - 1), [Approve(a), Issued(0)]);
      FromTwo(l, State(0, Copies(Issue(a, 0), n - 1), []), Approve(a), Issued(0));
    }
  }

  lemma FromTwo(limits: Limits, s: State, d: Event, e: Event)
    ensures From(limits, s, [d, e]) == Step(limits, Step(limits, s, d), e)
  {
    hide Step;
    FromOne(limits, s, d);
    var two := [d, e];
    assert two[..|two| - 1] == [d];
  }

  lemma {:induction false} BurstRun(b: Budget, a: Apex, n: nat, k: nat)
    requires Proper(b) && Counts(b.scope, a) && n < b.limit
    ensures From(Only(b), State(0, Copies(Issue(a, 0), n), []), Burst(a, k)) ==
            State(0, Copies(Issue(a, 0), n), Copies(a, k))
  {
    hide Step;
    assert Copies(a, 0) == [];
    if k > 0 {
      BurstRun(b, a, n, k - 1);
      var l := Only(b);
      StepApprove(b, a, n, k - 1);
      FromConcat(l, State(0, Copies(Issue(a, 0), n), []), Burst(a, k - 1), [Approve(a)]);
      FromOne(l, State(0, Copies(Issue(a, 0), n), Copies(a, k - 1)), Approve(a));
    }
  }

  lemma {:induction false} ArrivalsRun(limits: Limits, a: Apex, n: nat, k: nat, j: nat)
    requires j <= k
    ensures From(limits, State(0, Copies(Issue(a, 0), n), Copies(a, k)), Arrivals(j)) ==
            State(0, Copies(Issue(a, 0), n + j), Copies(a, k - j))
  {
    hide Step;
    if j > 0 {
      ArrivalsRun(limits, a, n, k, j - 1);
      StepIssued(limits, a, n + j - 1, k - j + 1);
      assert Arrivals(j)[..|Arrivals(j)| - 1] == Arrivals(j - 1);
    }
  }

  lemma AtMostSnoc(limits: Limits, start: int, events: seq<Event>, e: Event, scope: Scope, m: nat)
    requires AtMostInFlight(limits, start, events, scope, m)
    requires Flying(Run(limits, start, events + [e]).flying, scope) <= m
    ensures AtMostInFlight(limits, start, events + [e], scope, m)
  {
    hide Run, Flying;
    var all := events + [e];
    forall n | 0 <= n <= |all| ensures Flying(Run(limits, start, all[..n]).flying, scope) <= m {
      if n <= |events| {
        assert all[..n] == events[..n];
      } else {
        assert all[..n] == all;
      }
    }
  }

  lemma {:induction false} CopiesFlying(a: Apex, n: nat, scope: Scope)
    requires Counts(scope, a)
    ensures Flying(Copies(a, n), scope) == n
  {
    if n > 0 {
      CopiesFlying(a, n - 1, scope);
      assert Copies(a, n)[..n - 1] == Copies(a, n - 1);
    }
  }

  /** Where the run stands after each of its three parts. */
  lemma PartialRun(b: Budget, m: nat, a: Apex, k: nat, j: nat)
    requires Proper(b) && Counts(b.scope, a) && k <= m && j <= k
    ensures Run(Only(b), 0, Sequential(a, b.limit - 1) + Burst(a, k) + Arrivals(j)) ==
            State(0, Copies(Issue(a, 0), b.limit - 1 + j), Copies(a, k - j))
  {
    hide Step, Run, From;
    var l := Only(b);
    var n := b.limit - 1;
    SequentialRun(b, a, n);
    BurstRun(b, a, n, k);
    ArrivalsRun(l, a, n, k, j);
    FromConcat(l, Init(0), Sequential(a, n), Burst(a, k));
    FromConcat(l, Init(0), Sequential(a, n) + Burst(a, k), Arrivals(j));
    RunIsFrom(l, 0, Sequential(a, n) + Burst(a, k) + Arrivals(j));
  }

  lemma {:induction false} SequentialInFlight(b: Budget, m: nat, a: Apex, n: nat)
    requires Proper(b) && Counts(b.scope, a) && 1 <= m && n < b.limit
    ensures AtMostInFlight(Only(b), 0, Sequential(a, n), b.scope, m)
  {
    hide Step, Run, From, AtMostInFlight;
    var l := Only(b);
    if n == 0 {
      EmptyInFlight(l, 0, b.scope, m);
    } else {
      var before := Sequential(a, n - 1);
      SequentialInFlight(b, m, a, n - 1);
      SequentialRun(b, a, n - 1);
      SequentialRun(b, a, n);
      StepApprove(b, a, n - 1, 0);
      FromConcat(l, Init(0), before, [Approve(a)]);
      FromOne(l, From(l, Init(0), before), Approve(a));
      RunIsFrom(l, 0, before + [Approve(a)]);
      RunIsFrom(l, 0, Sequential(a, n));
      CopiesFlying(a, 1, b.scope);
      assert Copies(a, 0) == [];
      AtMostSnoc(l, 0, before, Approve(a), b.scope, m);
      assert before + [Approve(a)] + [Issued(0)] == Sequential(a, n);
      AtMostSnoc(l, 0, before + [Approve(a)], Issued(0), b.scope, m);
    }
  }

  lemma EmptyInFlight(limits: Limits, start: int, scope: Scope, m: nat)
    ensures AtMostInFlight(limits, start, [], scope, m)
  {
  }

  lemma FromOne(limits: Limits, s: State, e: Event)
    ensures From(limits, s, [e]) == Step(limits, s, e)
  {
    hide Step;
    assert [e][..0] == [];
  }

  lemma {:induction false} BurstInFlight(b: Budget, m: nat, a: Apex, k: nat)
    requires Proper(b) && Counts(b.scope, a) && 1 <= m && k <= m
    ensures AtMostInFlight(Only(b), 0, Sequential(a, b.limit - 1) + Burst(a, k), b.scope, m)
  {
    hide Step, Run, AtMostInFlight, Flying;
    var l, first := Only(b), Sequential(a, b.limit - 1);
    if k == 0 {
      SequentialInFlight(b, m, a, b.limit - 1);
      assert first + Burst(a, 0) == first;
    } else {
      BurstInFlight(b, m, a, k - 1);
      PartialRun(b, m, a, k, 0);
      CopiesFlying(a, k, b.scope);
      assert first + Burst(a, k) + Arrivals(0) == first + Burst(a, k - 1) + [Approve(a)];
      AtMostSnoc(l, 0, first + Burst(a, k - 1), Approve(a), b.scope, m);
      assert first + Burst(a, k) == first + Burst(a, k - 1) + [Approve(a)];
    }
  }

  lemma {:induction false} ArrivalsInFlight(b: Budget, m: nat, a: Apex, j: nat)
    requires Proper(b) && Counts(b.scope, a) && 1 <= m && j <= m
    ensures AtMostInFlight(Only(b), 0, Sequential(a, b.limit - 1) + Burst(a, m) + Arrivals(j), b.scope, m)
  {
    hide Step, Run, AtMostInFlight, Flying;
    var l, first := Only(b), Sequential(a, b.limit - 1) + Burst(a, m);
    if j == 0 {
      BurstInFlight(b, m, a, m);
      assert first + Arrivals(0) == first;
    } else {
      ArrivalsInFlight(b, m, a, j - 1);
      PartialRun(b, m, a, m, j);
      CopiesFlying(a, m - j, b.scope);
      assert first + Arrivals(j) == first + Arrivals(j - 1) + [Issued(0)];
      AtMostSnoc(l, 0, first + Arrivals(j - 1), Issued(0), b.scope, m);
    }
  }

  /**
    The bound cannot be improved, whichever budget it is: for every budget and every m there is a run that
    never has more than m of its orders in flight and records limit - 1 + m issuances at one instant.
  */
  lemma BoundIsReached(b: Budget, m: nat, a: Apex)
    requires Proper(b) && Counts(b.scope, a) && 1 <= m
    ensures var events := Sequential(a, b.limit - 1) + Burst(a, m) + Arrivals(m);
            && Configured(Only(b), b)
            && AtMostInFlight(Only(b), 0, events, b.scope, m)
            && Within(Run(Only(b), 0, events).log, b.scope, b.length, -b.length) == b.limit - 1 + m
  {
    hide Step, Run;
    PartialRun(b, m, a, m, m);
    ArrivalsInFlight(b, m, a, m);
    CopiesWithin(a, b.limit - 1 + m, b);
  }

  lemma {:induction false} CopiesWithin(a: Apex, n: nat, b: Budget)
    requires Proper(b) && Counts(b.scope, a)
    ensures Within(Copies(Issue(a, 0), n), b.scope, b.length, -b.length) == n
  {
    if n > 0 {
      CopiesWithin(a, n - 1, b);
      assert Copies(Issue(a, 0), n)[..n - 1] == Copies(Issue(a, 0), n - 1);
    }
  }
}
