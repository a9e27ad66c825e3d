/** The memory watchdog that moves the cache budget (internal/cache/memory.go). */
module Watchdog {
  import opened Sums
  import S = CacheSpec
  import C = Cache

  const FLOOR := 67108864  // 64 MiB

  /** Go's integer division truncates toward zero. */
  function GoDiv(a: int, b: int): int
    requires b > 0
  {
    if a >= 0 then a / b else -((-a) / b)
  }

  lemma Quotient(a: nat, b: nat)
    requires 0 < b
    ensures 0 <= (a / b) * b <= a < (a / b) * b + b
  {
    var q, r := a / b, a % b;
    assert a == q * b + r;
    MulMono(0, q, b);
  }

  /** The quotient times b comes from zero as close to a as it can, without passing it. */
  lemma DivTruncates(a: int, b: int)
    requires 0 < b
    ensures var m := GoDiv(a, b) * b; if 0 <= a then 0 <= m <= a < m + b else m - b < a <= m <= 0
  {
    if 0 <= a {
      Quotient(a, b);
    } else {
      Quotient(-a, b);
      Negated((-a) / b, b);
    }
  }

  lemma Negated(q: int, b: int)
    ensures (-q) * b == -(q * b)
  {
  }

  /** The budget one tick asks SetBudget for, or None when the tick leaves it alone. */
  function Wanted(budget: int, target: int, headroom: int, avail: int): Option<int> {
    if avail <= 0 then None
    else if avail < headroom && budget > FLOOR then Some(Max(GoDiv(budget * 3, 4), FLOOR))
    else if avail > headroom * 2 && budget < target then Some(Min(budget + GoDiv(budget, 10), target))
    else None
  }

  function Tick(budget: int, target: int, headroom: int, avail: int): int {
    match Wanted(budget, target, headroom, avail)
    case None => budget
    case Some(b) => S.Clamp(b)
  }

  /** One iteration of the watchdog loop on the real cache. */
  method WatchdogTick(c: C.Cache, target: int, headroom: int, avail: int)
    requires c.Valid()
    modifies c, c.shards
    ensures c.Valid() && c.budget == Tick(old(c.budget), target, headroom, avail)
    ensures match Wanted(old(c.budget), target, headroom, avail)
            case None => c.State() == old(c.State())
            case Some(b) => c.State() == S.SetBudget(old(c.State()), b) && c.bytes <= c.budget
  {
    hide C.Cache.Linked, S.Inv, S.SetBudget;
    if avail <= 0 {
      return;
    }
    var budget := c.budget;
    if avail < headroom && budget > FLOOR {
      var next := budget * 3 / 4;
      if next < FLOOR {
        next := FLOOR;
      }
      S.SetBudgetWithin(c.State(), next);
      c.SetBudget(next);
    } else if avail > headroom * 2 && budget < target {
      var next := budget + GoDiv(budget, 10);
      if next > target {
        next := target;
      }
      S.SetBudgetWithin(c.State(), next);
      c.SetBudget(next);
    }
  }

  /** The budget after one tick per memory sample. */
  function Ticks(budget: int, target: int, headroom: int, avails: seq<int>): int {
    if avails == [] then budget
    else
      var n := |avails| - 1;
      Tick(Ticks(budget, target, headroom, avails[..n]), target, headroom, avails[n])
  }

  function Pow(b: nat, n: nat): nat {
    if n == 0 then 1 else b * Pow(b, n - 1)
  }

  predicate Pressure(avail: int, headroom: int) {
    0 < avail < headroom
  }

  predicate Clear(avail: int, headroom: int) {
    0 < avail && avail > headroom * 2
  }

  /** Whatever the samples, a budget between the floor and the target stays there. */
  lemma {:induction false} RunStaysBetween(budget: int, target: int, headroom: int, avails: seq<int>)
    requires 64 * 1024 * 1024 <= budget <= target
    ensures 64 * 1024 * 1024 <= Ticks(budget, target, headroom, avails) <= target
  {
    if avails != [] {
      RunStaysBetween(budget, target, headroom, avails[..|avails| - 1]);
    }
  }

  /** Started at a target not above the floor (as the server starts it), the watchdog never moves the budget. */
  lemma {:induction false} SmallTargetNeverMoves(target: int, headroom: int, avails: seq<int>)
    requires target <= FLOOR
    ensures Ticks(target, target, headroom, avails) == target
  {
    if avails != [] {
      SmallTargetNeverMoves(target, headroom, avails[..|avails| - 1]);
    }
  }

  lemma ShrinkStep(b: int, r: int, p3: nat, p4: nat, start: int)
    requires 0 <= 4 * r <= 3 * b && b * p4 <= start * p3
    ensures r * (4 * p4) <= start * (3 * p3)
  {
    assert 4 * r * p4 <= 3 * b * p4 by { MulMono(4 * r, 3 * b, p4); }
    assert r * (4 * p4) == 4 * r * p4;
    assert 3 * b * p4 == 3 * (b * p4);
    assert start * (3 * p3) == 3 * (start * p3);
  }

  /** n pressure ticks in a row bring the budget down to max(floor, start * (3/4)^n). */
  lemma {:induction false} PressureShrinks(budget: int, target: int, headroom: int, avails: seq<int>)
    requires FLOOR <= budget <= target
    requires forall i :: 0 <= i < |avails| ==> Pressure(avails[i], headroom)
    ensures var r := Ticks(budget, target, headroom, avails);
            r == FLOOR || r * Pow(4, |avails|) <= budget * Pow(3, |avails|)
  {
    if avails != [] {
      var n := |avails| - 1;
      var b := Ticks(budget, target, headroom, avails[..n]);
      PressureShrinks(budget, target, headroom, avails[..n]);
      RunStaysBetween(budget, target, headroom, avails[..n]);
      RunStaysBetween(budget, target, headroom, avails);
      assert Pressure(avails[n], headroom);
      var r := Ticks(budget, target, headroom, avails);
      if r != FLOOR && b != FLOOR {
        ShrinkStep(b, r, Pow(3, n), Pow(4, n), budget);
      }
    }
  }

  lemma GrowStep(b: int, r: int, p109: nat, p100: nat, start: int)
    requires 100 * r >= 109 * b && b * p100 >= start * p109
    ensures r * (100 * p100) >= start * (109 * p109)
  {
    assert 109 * b * p100 <= 100 * r * p100 by { MulMono(109 * b, 100 * r, p100); }
    assert r * (100 * p100) == 100 * r * p100;
    assert 109 * b * p100 == 109 * (b * p100);
    assert start * (109 * p109) == 109 * (start * p109);
  }

  lemma StaysAtTarget(target: int, headroom: int, avail: int)
    requires FLOOR <= target && Clear(avail, headroom)
    ensures Tick(target, target, headroom, avail) == target
  {
  }

  lemma ClearTick(b: int, target: int, headroom: int, avail: int)
    requires FLOOR <= b <= target && Clear(avail, headroom)
    ensures var r := Tick(b, target, headroom, avail);
            r == target || (100 * r >= 109 * b && r >= b + FLOOR / 10)
  {
  }

  lemma PowZero()
    ensures Pow(100, 0) == 1 && Pow(109, 0) == 1
  {
  }

  lemma PowSnoc(n: nat)
    ensures Pow(100, n + 1) == 100 * Pow(100, n) && Pow(109, n + 1) == 109 * Pow(109, n)
  {
  }

  /** Consecutive clear ticks grow the budget by at least 9% each until it is back at the target. */
  lemma {:induction false} ClearGrows(budget: int, target: int, headroom: int, avails: seq<int>)
    requires FLOOR <= budget <= target
    requires forall i :: 0 <= i < |avails| ==> Clear(avails[i], headroom)
    ensures var r, n := Ticks(budget, target, headroom, avails), |avails|;
            r == target || (r * Pow(100, n) >= budget * Pow(109, n) && r >= budget + n * (FLOOR / 10))
  {
    hide Tick, Pressure, Clear, Pow;
    if avails == [] {
      PowZero();
    } else {
      var n := |avails| - 1;
      var b := Ticks(budget, target, headroom, avails[..n]);
      ClearGrows(budget, target, headroom, avails[..n]);
      RunStaysBetween(budget, target, headroom, avails[..n]);
      assert Clear(avails[n], headroom);
      PowSnoc(n);
      ClearTick(b, target, headroom, avails[n]);
      StaysAtTarget(target, headroom, avails[n]);
      var r := Ticks(budget, target, headroom, avails);
      if r != target {
        GrowStep(b, r, Pow(109, n), Pow(100, n), budget);
      }
    }
  }

  /** So the target is reached again after finitely many clear ticks, however far the budget fell. */
  lemma ClearRecovers(budget: int, target: int, headroom: int, avails: seq<int>)
    requires FLOOR <= budget <= target
    requires forall i :: 0 <= i < |avails| ==> Clear(avails[i], headroom)
    requires |avails| * (FLOOR / 10) >= target - budget
    ensures Ticks(budget, target, headroom, avails) == target
  {
    ClearGrows(budget, target, headroom, avails);
    RunStaysBetween(budget, target, headroom, avails);
  }

  /**
    No tick is more violent than announced: at most 25% down (rounded down), at most 10% up; the budget
    falls only under pressure and rises only when memory is clear.
  */
  lemma TickIsGentle(budget: int, target: int, headroom: int, avail: int)
    requires FLOOR <= budget <= target
    ensures var r := Tick(budget, target, headroom, avail);
            && 4 * r > 3 * budget - 4 && 10 * r <= 11 * budget
            && (r < budget ==> Pressure(avail, headroom))
            && (r > budget ==> Clear(avail, headroom))
            && (Pressure(avail, headroom) && budget > FLOOR ==> r < budget)
            && (Clear(avail, headroom) && budget < target && !Pressure(avail, headroom) ==> r > budget)
  {
  }
}
