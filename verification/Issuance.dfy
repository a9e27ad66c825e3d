/** The history of issued certificates and the counts the limits are about (internal/certguard/certguard.go). */
module Issuance {
  type Apex = string

  const HOUR := 3600 * 1000000000  // nanoseconds
  const DAY := 24 * HOUR
  const WEEK := 7 * DAY
  const RETENTION := 8 * DAY

  datatype Limits = Limits(perApexPerDay: int, perApexPerWeek: int, globalPerHour: int, globalPerWeek: int)

  datatype Issue = Issue(apex: Apex, at: int)

  /** Whose issuances a budget counts: one apex's, or everybody's. */
  datatype Scope = Of(apex: Apex) | All

  predicate Counts(scope: Scope, a: Apex) {
    scope.All? || scope.apex == a
  }

  /** How many issuances in scope are strictly after the cutoff. */
  function Since(log: seq<Issue>, scope: Scope, cutoff: int): nat {
    if log == [] then 0
    else
      var last := log[|log| - 1];
      Since(log[..|log| - 1], scope, cutoff) + if Counts(scope, last.apex) && last.at > cutoff then 1 else 0
  }

  /** How many issuances in scope lie in the window (from, from + length]. */
  function Within(log: seq<Issue>, scope: Scope, length: int, from: int): nat {
    if log == [] then 0
    else
      var last := log[|log| - 1];
      Within(log[..|log| - 1], scope, length, from) +
      if Counts(scope, last.apex) && from < last.at <= from + length then 1 else 0
  }

  datatype Verdict = Allowed | ApexDayUsed | ApexWeekUsed | NodeHourUsed | NodeWeekUsed

  predicate Used(limit: int, count: int) {
    limit > 0 && count >= limit
  }

  /** The answer for the whole recorded history: what Check is meant to decide. */
  function Decide(limits: Limits, log: seq<Issue>, apex: Apex, now: int): Verdict {
    if Used(limits.perApexPerDay, Since(log, Of(apex), now - DAY)) then ApexDayUsed
    else if Used(limits.perApexPerWeek, Since(log, Of(apex), now - WEEK)) then ApexWeekUsed
    else if Used(limits.globalPerHour, Since(log, All, now - HOUR)) then NodeHourUsed
    else if Used(limits.globalPerWeek, Since(log, All, now - WEEK)) then NodeWeekUsed
    else Allowed
  }
}
