/**
 The sliding-log limiter in front of the PII connection test: at most five calls per tenant in any minute.
 */
module RateLimiter {
  const LIMIT: nat := 5
  const WINDOW := 60_000_000_000 // one minute in nanoseconds

  type Log = map<string, seq<int>>

  // The entries that are younger than a minute at `now`.
  function Young(times: seq<int>, now: int): seq<int> {
    if times == [] then []
    else
      var init, last := times[..|times| - 1], times[|times| - 1];
      if last > now - WINDOW then Young(init, now) + [last] else Young(init, now)
  }

  function TimesOf(log: Log, tenant: string): seq<int> {
    if tenant in log then log[tenant] else []
  }

  function Admits(log: Log, tenant: string, now: int): bool {
    |Young(TimesOf(log, tenant), now)| < LIMIT
  }

  function Logged(log: Log, tenant: string, now: int): Log {
    var kept := Young(TimesOf(log, tenant), now);
    log[tenant := if Admits(log, tenant, now) then kept + [now] else kept]
  }

  class Limiter {
    var byTenant: Log

    constructor ()
      ensures byTenant == map[]
    {
      byTenant := map[];
    }

    method Allow(tenant: string, now: int) returns (ok: bool)
      modifies this
      ensures ok == Admits(old(byTenant), tenant, now)
      ensures byTenant == Logged(old(byTenant), tenant, now)
    {
      var cutoff := now - WINDOW;
      var times := TimesOf(byTenant, tenant);
      var kept: seq<int> := [];
      for i := 0 to |times|
        invariant kept == Young(times[..i], now) && byTenant == old(byTenant)
      {
        assert times[..i + 1][..i] == times[..i];
        if times[i] > cutoff {
          kept := kept + [times[i]];
        }
      }
      assert times[..|times|] == times;
      if |kept| >= LIMIT {
        byTenant := byTenant[tenant := kept];
        return false;
      }
      byTenant := byTenant[tenant := kept + [now]];
      return true;
    }
  }

  // ---- Runs -----------------------------------------------------------------------------------------

  datatype Call = Call(tenant: string, now: int)

  function After(calls: seq<Call>): Log {
    if calls == [] then map[]
    else
      var init, last := calls[..|calls| - 1], calls[|calls| - 1];
      Logged(After(init), last.tenant, last.now)
  }

  // When the calls of one tenant were let through.
  function Accepted(calls: seq<Call>, tenant: string): seq<int> {
    if calls == [] then []
    else
      var init, last := calls[..|calls| - 1], calls[|calls| - 1];
      if last.tenant == tenant && Admits(After(init), tenant, last.now) then Accepted(init, tenant) + [last.now]
      else Accepted(init, tenant)
  }

  ghost predicate ClockRuns(calls: seq<Call>) {
    forall i, j | 0 <= i < j < |calls| :: calls[i].now <= calls[j].now
  }

  ghost predicate NotAfter(calls: seq<Call>, now: int) {
    forall i | 0 <= i < |calls| :: calls[i].now <= now
  }

  // How many of the times fall in the minute up to and including x, in nanoseconds.
  function InMinute(times: seq<int>, x: int): nat {
    if times == [] then 0
    else
      var last := times[|times| - 1];
      InMinute(times[..|times| - 1], x) + if x - 60_000_000_000 < last <= x then 1 else 0
  }

  lemma {:induction false} YoungTwice(times: seq<int>, c: int, d: int)
    requires c <= d
    ensures Young(Young(times, c), d) == Young(times, d)
  {
    if times != [] {
      var init, last := times[..|times| - 1], times[|times| - 1];
      YoungTwice(init, c, d);
      var y := Young(init, c);
      assert (y + [last])[..|y|] == y;
    }
  }

  lemma {:induction false} YoungShorter(times: seq<int>, now: int)
    ensures |Young(times, now)| <= |times|
  {
    if times != [] {
      YoungShorter(times[..|times| - 1], now);
    }
  }

  lemma YoungSnoc(times: seq<int>, t: int, now: int)
    ensures Young(times + [t], now) == if t > now - WINDOW then Young(times, now) + [t] else Young(times, now)
  {
    assert (times + [t])[..|times|] == times;
  }

  lemma MinuteSnoc(times: seq<int>, t: int, x: int)
    ensures InMinute(times + [t], x) == InMinute(times, x) + if x - 60_000_000_000 < t <= x then 1 else 0
  {
    assert (times + [t])[..|times|] == times;
  }

  // From `now` on, a minute holds no more than the entries still young at `now`.
  lemma {:induction false} MinuteIsYoung(times: seq<int>, now: int, x: int)
    requires now <= x
    ensures InMinute(times, x) <= |Young(times, now)|
  {
    if times != [] {
      MinuteIsYoung(times[..|times| - 1], now, x);
    }
  }

  lemma {:induction false} MinuteIsAllYoung(times: seq<int>, now: int)
    requires forall i | 0 <= i < |times| :: times[i] <= now
    ensures InMinute(times, now) == |Young(times, now)|
  {
    if times != [] {
      MinuteIsAllYoung(times[..|times| - 1], now);
    }
  }

  lemma {:induction false} AcceptedNotAfter(calls: seq<Call>, tenant: string, now: int)
    requires NotAfter(calls, now)
    ensures forall i | 0 <= i < |Accepted(calls, tenant)| :: Accepted(calls, tenant)[i] <= now
  {
    if calls != [] {
      AcceptedNotAfter(calls[..|calls| - 1], tenant, now);
    }
  }

  /** What the limiter forgot can no longer matter: from the last call on, the stored list and the whole accepted
      history have the same young entries. */
  lemma {:induction false} LogIsExact(calls: seq<Call>, tenant: string, now: int)
    requires ClockRuns(calls) && NotAfter(calls, now)
    ensures Young(TimesOf(After(calls), tenant), now) == Young(Accepted(calls, tenant), now)
  {
    hide Young;
    if calls != [] {
      var init, last := calls[..|calls| - 1], calls[|calls| - 1];
      LogIsExact(init, tenant, now);
      if last.tenant == tenant {
        var stored := TimesOf(After(init), tenant);
        YoungTwice(stored, last.now, now);
        YoungSnoc(Young(stored, last.now), last.now, now);
        YoungSnoc(Accepted(init, tenant), last.now, now);
      }
    }
  }

  /** A call is refused exactly when the tenant had five calls let through in the minute before it. */
  lemma RefusedExactly(calls: seq<Call>, tenant: string, now: int)
    requires ClockRuns(calls) && NotAfter(calls, now)
    ensures !Admits(After(calls), tenant, now) <==> InMinute(Accepted(calls, tenant), now) == 5
  {
    hide Young;
    LogIsExact(calls, tenant, now);
    AcceptedNotAfter(calls, tenant, now);
    MinuteIsAllYoung(Accepted(calls, tenant), now);
    MinuteBound(calls, tenant, now);
  }

  /** No minute, wherever it starts, holds more than five accepted calls of a tenant. */
  lemma {:induction false} MinuteBound(calls: seq<Call>, tenant: string, x: int)
    requires ClockRuns(calls)
    ensures InMinute(Accepted(calls, tenant), x) <= 5
  {
    if calls != [] {
      var init, last := calls[..|calls| - 1], calls[|calls| - 1];
      MinuteBound(init, tenant, x);
      if last.tenant == tenant && Admits(After(init), tenant, last.now) {
        LogIsExact(init, tenant, last.now);
        var a := Accepted(init, tenant);
        MinuteSnoc(a, last.now, x);
        if last.now <= x {
          MinuteIsYoung(a, last.now, x);
        }
      }
    }
  }

  /** The stored lists never exceed the limit, whatever the clock does. */
  lemma {:induction false} LogIsShort(calls: seq<Call>, tenant: string)
    ensures |TimesOf(After(calls), tenant)| <= 5
  {
    if calls != [] {
      var init, last := calls[..|calls| - 1], calls[|calls| - 1];
      LogIsShort(init, tenant);
      YoungShorter(TimesOf(After(init), tenant), last.now);
    }
  }

  function Only(calls: seq<Call>, tenant: string): seq<Call> {
    if calls == [] then []
    else
      var init, last := calls[..|calls| - 1], calls[|calls| - 1];
      if last.tenant == tenant then Only(init, tenant) + [last] else Only(init, tenant)
  }

  /** Tenants do not affect each other: a tenant's log and accepted calls are those of a run of its calls alone. */
  lemma {:induction false} TenantsIndependent(calls: seq<Call>, tenant: string)
    ensures TimesOf(After(calls), tenant) == TimesOf(After(Only(calls, tenant)), tenant)
    ensures Accepted(calls, tenant) == Accepted(Only(calls, tenant), tenant)
  {
    hide Young;
    if calls != [] {
      var init, last := calls[..|calls| - 1], calls[|calls| - 1];
      TenantsIndependent(init, tenant);
      if last.tenant == tenant {
        var o := Only(init, tenant);
        assert (o + [last])[..|o|] == o;
      }
    }
  }
}
