/**
  The issuance bound of the guard as it really runs: Check prunes and answers from the events it holds, Record
  saves, restarts reload the file, orders overlap and the clock moves forward. Composes the pruning theorem of
  CertGuard with the protocol bound of IssuanceRuns.
*/
module GuardedRuns {
  import opened Issuance
  import opened CertGuard
  import R = IssuanceRuns

  datatype World = World(life: Life, now: int, flying: seq<Apex>)

  /** A protocol event, or a restart of the node, which loses the orders in flight. */
  datatype Event = Order(e: R.Event) | Restart

  function Init(start: int): World {
    World(NEWBORN, start, [])
  }

  ghost function Step(limits: Limits, w: World, e: Event): World {
    match e
    case Restart => World(Live(w.life, Restarted(w.now)), w.now, [])
    case Order(Tick(span)) => w.(now := w.now + span)
    case Order(Approve(a)) =>
      var l := Live(w.life, Checked(w.now));
      w.(life := l, flying := if DecideEvents(limits, l.events, a, w.now) == Allowed then w.flying + [a] else w.flying)
    case Order(Issued(i)) =>
      if i >= |w.flying| then w
      else World(Live(w.life, Recorded(w.flying[i], w.now)), w.now, w.flying[..i] + w.flying[i + 1..])
    case Order(Failed(i)) =>
      if i >= |w.flying| then w else w.(flying := w.flying[..i] + w.flying[i + 1..])
  }

  ghost function Run(limits: Limits, start: int, events: seq<Event>): World {
    if events == [] then Init(start)
    else Step(limits, Run(limits, start, events[..|events| - 1]), events[|events| - 1])
  }

  ghost predicate AtMostInFlight(limits: Limits, start: int, events: seq<Event>, scope: Scope, m: int) {
    forall n :: 0 <= n <= |events| ==> R.Flying(Run(limits, start, events[..n]).flying, scope) <= m
  }

  /** What the protocol sees of the world. */
  function Seen(w: World): R.State {
    R.State(w.now, w.life.log, w.flying)
  }

  lemma LifeOkLater(l: Life, from: int, later: int)
    requires LifeOk(l, from) && from <= later
    ensures LifeOk(l, later)
  {
    hide Tracks;
    TracksLater(l.events, l.log, from, later);
    if l.saved.Some? {
      TracksLater(l.saved.value, l.log, from, later);
    }
  }

  /** Nothing of the last 8 days is missing, neither in memory nor on disk. */
  lemma StepKeepsLife(limits: Limits, w: World, e: Event)
    requires LifeOk(w.life, w.now - RETENTION)
    ensures LifeOk(Step(limits, w, e).life, Step(limits, w, e).now - RETENTION)
  {
    hide LifeOk, Live, DecideEvents;
    match e
    case Restart => LiveOk(w.life, Restarted(w.now), w.now - DAY);
    case Order(Tick(span)) => LifeOkLater(w.life, w.now - RETENTION, w.now + span - RETENTION);
    case Order(Approve(a)) => LiveOk(w.life, Checked(w.now), w.now - DAY);
    case Order(Issued(i)) => if i < |w.flying| { LiveOk(w.life, Recorded(w.flying[i], w.now), w.now - DAY); }
    case Order(Failed(i)) =>
  }

  /** Every order event is the protocol's own step: the pruned, reloaded guard decides as the full history does. */
  lemma StepRefines(limits: Limits, w: World, e: R.Event)
    requires LifeOk(w.life, w.now - RETENTION)
    ensures Seen(Step(limits, w, Order(e))) == R.Step(limits, Seen(w), e)
  {
    hide Tracks, DecideEvents, Decide, Pruned;
    if e.Approve? {
      LiveOk(w.life, Checked(w.now), w.now - DAY);
      var l := Live(w.life, Checked(w.now));
      TrackedDecision(limits, l.events, l.log, w.now - RETENTION, e.apex, w.now);
    }
  }

  lemma {:induction false} RunWithinBudget(limits: Limits, start: int, events: seq<Event>, b: R.Budget, m: nat)
    requires R.Configured(limits, b) && AtMostInFlight(limits, start, events, b.scope, m)
    ensures LifeOk(Run(limits, start, events).life, Run(limits, start, events).now - RETENTION)
    ensures R.WithinBudget(Seen(Run(limits, start, events)), b, m)
  {
    hide LifeOk, Step, R.Step, R.Flying, R.WithinBudget;
    if events == [] {
      NewbornOk(start);
      R.InitWithinBudget(start, b, m);
    } else {
      var n := |events| - 1;
      forall k | 0 <= k <= n ensures R.Flying(Run(limits, start, events[..n][..k]).flying, b.scope) <= m {
        assert events[..n][..k] == events[..k];
      }
      RunWithinBudget(limits, start, events[..n], b, m);
      var w := Run(limits, start, events[..n]);
      StepKeepsLife(limits, w, events[n]);
      assert events[..|events|] == events;
      match events[n]
      case Order(e) =>
        StepRefines(limits, w, e);
        R.StepWithinBudget(limits, Seen(w), e, b, m);
      case Restart => RestartWithinBudget(limits, w, b, m);
    }
  }

  /** What the run does to the guard: a check for every order, a record for every certificate, the restarts. */
  ghost function Acts(limits: Limits, start: int, events: seq<Event>): seq<Act> {
    if events == [] then []
    else
      var n := |events| - 1;
      var w := Run(limits, start, events[..n]);
      Acts(limits, start, events[..n]) +
      match events[n]
      case Restart => [Restarted(w.now)]
      case Order(Approve(a)) => [Checked(w.now)]
      case Order(Issued(i)) => if i < |w.flying| then [Recorded(w.flying[i], w.now)] else []
      case _ => []
  }

  /** The guard of a run lives exactly the life of those acts. */
  lemma {:induction false} RunIsLife(limits: Limits, start: int, events: seq<Event>)
    ensures Run(limits, start, events).life == Lived(Acts(limits, start, events))
  {
    hide Live, DecideEvents;
    if events != [] {
      var n := |events| - 1;
      RunIsLife(limits, start, events[..n]);
      var before, all := Acts(limits, start, events[..n]), Acts(limits, start, events);
      assert before + [] == before;
      if |all| > |before| {
        assert all[..|before|] == before;
      }
    }
  }

  lemma NewbornOk(start: int)
    ensures LifeOk(Init(start).life, start - RETENTION)
  {
    hide Tracks;
    EmptyTracks(start - RETENTION);
  }

  lemma RestartWithinBudget(limits: Limits, w: World, b: R.Budget, m: nat)
    requires R.WithinBudget(Seen(w), b, m)
    ensures R.WithinBudget(Seen(Step(limits, w, Restart)), b, m)
  {
  }

  /**
    The guard keeps its promise end to end: with pruning, saving and restarts in any order, and at most m orders
    of a budget's scope in flight, every window of the budget's length holds at most limit - 1 + m issuances.
  */
  lemma GuardBoundsEveryWindow(limits: Limits, start: int, events: seq<Event>, b: R.Budget, m: nat, from: int)
    requires R.Configured(limits, b) && AtMostInFlight(limits, start, events, b.scope, m)
    ensures Within(Run(limits, start, events).life.log, b.scope, b.length, from) <= b.limit - 1 + m
  {
    hide Run;
    RunWithinBudget(limits, start, events, b, m);
  }
}
