/**
 The tenant-config cache in front of the database, for any number of tenants on any number of pods.

 A resolve looks in its pod's cache; after a miss it reads the database in a later step and fills the
 cache in a still later one. An admin write stores a new version and then, in a later step, invalidates
 the cache of the pod that served it. Steps of all pods interleave freely.
 */
module TenantCache {
  import opened Wrappers

  // ---- The cache ------------------------------------------------------------------------------------

  datatype Entry<T> = Entry(value: T, version: int, fetchedAt: int)
  type Entries<T> = map<string, Entry<T>>

  // The entry a lookup may return: one whose age is at most the time to live.
  function Live<T>(entries: Entries<T>, ttl: int, tenant: string, now: int): Option<Entry<T>> {
    if tenant in entries && now - entries[tenant].fetchedAt <= ttl then Some(entries[tenant]) else None
  }

  function Filled<T>(entries: Entries<T>, tenant: string, value: T, version: int, now: int): Entries<T> {
    entries[tenant := Entry(value, version, now)]
  }

  function Without<T>(entries: Entries<T>, tenant: string): Entries<T> {
    entries - {tenant}
  }

  /** What a lookup finds after a fill or an invalidation, at whatever later time. */
  lemma LookupAfter<T>(entries: Entries<T>, ttl: int, tenant: string, value: T, version: int, at: int, other: string,
                       now: int)
    ensures Live(Filled(entries, tenant, value, version, at), ttl, other, now) ==
            if other != tenant then Live(entries, ttl, other, now)
            else if now - at <= ttl then Some(Entry(value, version, at)) else None
    ensures Live(Without(entries, tenant), ttl, other, now) ==
            if other != tenant then Live(entries, ttl, other, now) else None
  {
  }

  class Cache<T> {
    const ttl: int
    var entries: Entries<T>

    constructor (ttl: int)
      ensures this.ttl == ttl && entries == map[]
    {
      this.ttl := ttl;
      entries := map[];
    }

    method Get(tenant: string, now: int) returns (r: Option<(T, int)>)
      ensures r == match Live(entries, ttl, tenant, now)
                   case Some(e) => Some((e.value, e.version))
                   case None => None
    {
      if tenant !in entries {
        return None;
      }
      var cached := entries[tenant];
      if now - cached.fetchedAt > ttl {
        return None;
      }
      return Some((cached.value, cached.version));
    }

    method Set(tenant: string, value: T, version: int, now: int)
      modifies this`entries
      ensures entries == Filled(old(entries), tenant, value, version, now)
      ensures forall later | later - now <= ttl :: Live(entries, ttl, tenant, later) == Some(Entry(value, version, now))
      ensures forall other, later | other != tenant ::
                Live(entries, ttl, other, later) == Live(old(entries), ttl, other, later)
    {
      entries := entries[tenant := Entry(value, version, now)];
    }

    method Invalidate(tenant: string)
      modifies this`entries
      ensures entries == Without(old(entries), tenant)
      ensures forall later :: Live(entries, ttl, tenant, later) == None
      ensures forall other, later | other != tenant ::
                Live(entries, ttl, other, later) == Live(old(entries), ttl, other, later)
    {
      entries := entries - {tenant};
    }

    method Clear()
      modifies this`entries
      ensures forall tenant, now :: Live(entries, ttl, tenant, now) == None
      ensures entries == map[]
    {
      entries := map[];
    }
  }

  // ---- The protocol ---------------------------------------------------------------------------------

  // A config is identified by its version: the index of the write that stored it. A cached one is stamped with
  // the time at which it was read from the database.
  type Copies = Entries<int>

  datatype Lookup = Lookup(pod: nat, tenant: string)                             // a resolve after its miss
  datatype Fetch = Fetch(pod: nat, tenant: string, version: nat, readAt: int)    // and after its database read
  datatype Admin = Admin(pod: nat, tenant: string, version: nat)                 // a write before its Invalidate

  datatype System = System(
    clock: int,
    writes: map<string, seq<int>>,   // when each version of a tenant's config was stored; the last is current
    caches: map<nat, Copies>,        // by pod
    lookups: map<nat, Lookup>,
    fetches: map<nat, Fetch>,
    admins: map<nat, Admin>)

  datatype Event =
    | Hit(now: int, pod: nat, tenant: string)
    | Miss(now: int, pod: nat, tenant: string, id: nat)
    | Fallback(now: int, id: nat)     // no row, a database error or dynamic config off: YAML
    | Read(now: int, id: nat)         // the database read
    | Fill(now: int, id: nat)         // Set and return
    | Put(now: int, pod: nat, tenant: string, id: nat)
    | Invalidate(now: int, id: nat)
    | Clear(now: int, pod: nat)

  function CacheOf(s: System, pod: nat): Copies {
    if pod in s.caches then s.caches[pod] else map[]
  }

  function Writes(s: System, tenant: string): seq<int> {
    if tenant in s.writes then s.writes[tenant] else []
  }

  predicate Enabled(ttl: int, s: System, e: Event) {
    && e.now >= s.clock
    && match e
       case Hit(now, pod, tenant) => Live(CacheOf(s, pod), ttl, tenant, now).Some?
       case Miss(now, pod, tenant, id) => Live(CacheOf(s, pod), ttl, tenant, now).None? && id !in s.lookups
       case Fallback(_, id) => id in s.lookups
       case Read(_, id) => id in s.lookups && id !in s.fetches && Writes(s, s.lookups[id].tenant) != []
       case Fill(_, id) => id in s.fetches
       case Put(_, _, _, id) => id !in s.admins
       case Invalidate(_, id) => id in s.admins
       case Clear(_, _) => true
  }

  function Next(ttl: int, s: System, e: Event): System
    requires Enabled(ttl, s, e)
  {
    var t := s.(clock := e.now);
    match e
    case Hit(_, _, _) => t
    case Miss(_, pod, tenant, id) => t.(lookups := s.lookups[id := Lookup(pod, tenant)])
    case Fallback(_, id) => t.(lookups := s.lookups - {id})
    case Read(now, id) =>
      var l := s.lookups[id];
      t.(lookups := s.lookups - {id},
         fetches := s.fetches[id := Fetch(l.pod, l.tenant, |Writes(s, l.tenant)| - 1, now)])
    case Fill(now, id) =>
      var f := s.fetches[id];
      t.(caches := s.caches[f.pod := Filled(CacheOf(s, f.pod), f.tenant, f.readAt, f.version, now)],
         fetches := s.fetches - {id})
    case Put(now, pod, tenant, id) =>
      t.(writes := s.writes[tenant := Writes(s, tenant) + [now]],
         admins := s.admins[id := Admin(pod, tenant, |Writes(s, tenant)|)])
    case Invalidate(_, id) =>
      var a := s.admins[id];
      t.(caches := s.caches[a.pod := Without(CacheOf(s, a.pod), a.tenant)], admins := s.admins - {id})
    case Clear(_, pod) => t.(caches := s.caches[pod := map[]])
  }

  // What a resolve returns at this step, if it returns a stored config here.
  datatype Answer = Answer(tenant: string, version: int)

  function Returns(ttl: int, s: System, e: Event): Option<Answer>
    requires Enabled(ttl, s, e)
  {
    match e
    case Hit(now, pod, tenant) => Some(Answer(tenant, Live(CacheOf(s, pod), ttl, tenant, now).value.version))
    case Fill(_, id) => Some(Answer(s.fetches[id].tenant, s.fetches[id].version))
    case _ => None
  }

  ghost predicate Steps(ttl: int, ss: seq<System>, es: seq<Event>) {
    && |ss| == |es| + 1
    && forall i | 0 <= i < |es| :: Enabled(ttl, ss[i], es[i]) && ss[i + 1] == Next(ttl, ss[i], es[i])
  }

  // Empty caches, nothing under way, and a past that is past.
  ghost predicate Initial(s: System) {
    && s.caches == map[] && s.lookups == map[] && s.fetches == map[] && s.admins == map[]
    && WritesPast(s)
  }

  ghost predicate WritesPast(s: System) {
    forall tenant, v | tenant in s.writes && 0 <= v < |s.writes[tenant]| :: s.writes[tenant][v] <= s.clock
  }

  ghost predicate IsRun(ttl: int, ss: seq<System>, es: seq<Event>) {
    Steps(ttl, ss, es) && Initial(ss[0])
  }

  // No resolve takes longer than `d` from its database read to its Set.
  ghost predicate FillsWithin(d: int, ss: seq<System>, es: seq<Event>)
    requires |ss| == |es| + 1
  {
    forall i | 0 <= i < |es| && es[i].Fill? && es[i].id in ss[i].fetches ::
      es[i].now - ss[i].fetches[es[i].id].readAt <= d
  }

  // ---- Bounded staleness ----------------------------------------------------------------------------

  // Version `v` was the stored one at time `t`.
  ghost predicate StoredAt(writes: seq<int>, v: int, t: int) {
    0 <= v < |writes| && writes[v] <= t && (v + 1 < |writes| ==> t <= writes[v + 1])
  }

  lemma StoredStays(writes: seq<int>, v: int, t: int, now: int)
    requires StoredAt(writes, v, t) && t <= now
    ensures StoredAt(writes + [now], v, t)
  {
  }

  ghost predicate FetchDated(s: System, f: Fetch) {
    StoredAt(Writes(s, f.tenant), f.version, f.readAt) && f.readAt <= s.clock
  }

  ghost predicate CopyDated(d: int, s: System, tenant: string, e: Entry<int>) {
    StoredAt(Writes(s, tenant), e.version, e.value) && e.value <= s.clock && e.fetchedAt - d <= e.value
  }

  ghost predicate Dated(d: int, s: System) {
    && WritesPast(s)
    && (forall id | id in s.fetches :: FetchDated(s, s.fetches[id]))
    && (forall pod, tenant | pod in s.caches && tenant in s.caches[pod] ::
          CopyDated(d, s, tenant, s.caches[pod][tenant]))
  }

  // Time and further writes leave dates alone.
  lemma DatesStay(ttl: int, d: int, s: System, e: Event)
    requires Enabled(ttl, s, e)
    ensures var t := Next(ttl, s, e);
            && (forall f: Fetch | FetchDated(s, f) :: FetchDated(t, f))
            && (forall tenant, c: Entry<int> | CopyDated(d, s, tenant, c) :: CopyDated(d, t, tenant, c))
  {
    var t := Next(ttl, s, e);
    if e.Put? {
      forall f: Fetch | FetchDated(s, f) ensures FetchDated(t, f) {
        if f.tenant == e.tenant {
          StoredStays(Writes(s, f.tenant), f.version, f.readAt, e.now);
        }
      }
      forall tenant, c: Entry<int> | CopyDated(d, s, tenant, c) ensures CopyDated(d, t, tenant, c) {
        if tenant == e.tenant {
          StoredStays(Writes(s, tenant), c.version, c.value, e.now);
        }
      }
    }
  }

  lemma StepKeepsWritesPast(ttl: int, s: System, e: Event)
    requires WritesPast(s) && Enabled(ttl, s, e)
    ensures WritesPast(Next(ttl, s, e))
  {
  }

  lemma StepKeepsFetches(ttl: int, d: int, s: System, e: Event)
    requires Dated(d, s) && Enabled(ttl, s, e)
    ensures forall id | id in Next(ttl, s, e).fetches :: FetchDated(Next(ttl, s, e), Next(ttl, s, e).fetches[id])
  {
    DatesStay(ttl, d, s, e);
    if e.Read? {
      var f := Next(ttl, s, e).fetches[e.id];
      var last := |Writes(s, f.tenant)| - 1;
      assert Writes(s, f.tenant)[last] <= s.clock;
    }
  }

  lemma StepKeepsCopy(ttl: int, d: int, s: System, e: Event, pod: nat, tenant: string)
    requires Dated(d, s) && Enabled(ttl, s, e) && (e.Fill? ==> e.now - s.fetches[e.id].readAt <= d)
    requires tenant in CacheOf(Next(ttl, s, e), pod)
    ensures CopyDated(d, Next(ttl, s, e), tenant, CacheOf(Next(ttl, s, e), pod)[tenant])
  {
    FromWhere(ttl, s, e, pod, tenant);
    DatesStay(ttl, d, s, e);
    var c := CacheOf(Next(ttl, s, e), pod)[tenant];
    hide Next, FetchDated, CopyDated, WritesPast;
    if tenant in CacheOf(s, pod) && CacheOf(s, pod)[tenant] == c {
      assert CopyDated(d, s, tenant, c);
    } else {
      assert FetchDated(s, s.fetches[e.id]);
      FillDated(ttl, d, s, e);
    }
  }

  lemma StepKeepsDated(ttl: int, d: int, s: System, e: Event)
    requires Dated(d, s) && Enabled(ttl, s, e)
    requires e.Fill? ==> e.now - s.fetches[e.id].readAt <= d
    ensures Dated(d, Next(ttl, s, e))
  {
    StepKeepsWritesPast(ttl, s, e);
    StepKeepsFetches(ttl, d, s, e);
    hide Next, FetchDated, CopyDated, WritesPast, Enabled;
    var t := Next(ttl, s, e);
    forall pod, tenant | pod in t.caches && tenant in t.caches[pod]
      ensures CopyDated(d, t, tenant, t.caches[pod][tenant])
    {
      StepKeepsCopy(ttl, d, s, e, pod, tenant);
    }
  }

  // A cached copy was there before, or has just been filled in.
  lemma FromWhere(ttl: int, s: System, e: Event, pod: nat, tenant: string)
    requires Enabled(ttl, s, e) && tenant in CacheOf(Next(ttl, s, e), pod)
    ensures var c := CacheOf(Next(ttl, s, e), pod)[tenant];
            || (tenant in CacheOf(s, pod) && CacheOf(s, pod)[tenant] == c)
            || (e.Fill? && var f := s.fetches[e.id];
                pod == f.pod && tenant == f.tenant && c == Entry(f.readAt, f.version, e.now))
  {
  }

  lemma FillDated(ttl: int, d: int, s: System, e: Event)
    requires Enabled(ttl, s, e) && e.Fill? && FetchDated(s, s.fetches[e.id]) && e.now - s.fetches[e.id].readAt <= d
    ensures var f := s.fetches[e.id]; CopyDated(d, Next(ttl, s, e), f.tenant, Entry(f.readAt, f.version, e.now))
  {
  }

  lemma {:induction false} RunDated(ttl: int, d: int, ss: seq<System>, es: seq<Event>, j: nat)
    requires IsRun(ttl, ss, es) && FillsWithin(d, ss, es) && j < |ss|
    ensures Dated(d, ss[j])
  {
    if j > 0 {
      RunDated(ttl, d, ss, es, j - 1);
      assert Enabled(ttl, ss[j - 1], es[j - 1]);
      StepKeepsDated(ttl, d, ss[j - 1], es[j - 1]);
    }
  }

  /** Over every interleaving, a cache hit at time t returns a config of that tenant that was the stored one at some
      time no earlier than t - ttl - d, where d bounds the gap between a resolve's database read and its Set. */
  lemma BoundedStaleness(ttl: int, d: int, ss: seq<System>, es: seq<Event>, j: nat)
    requires IsRun(ttl, ss, es) && FillsWithin(d, ss, es) && j < |es| && es[j].Hit?
    ensures exists t :: es[j].now - ttl - d <= t <= es[j].now &&
              StoredAt(Writes(ss[j], es[j].tenant), Returns(ttl, ss[j], es[j]).value.version, t)
  {
    RunDated(ttl, d, ss, es, j);
    assert Enabled(ttl, ss[j], es[j]);
    var copy := CacheOf(ss[j], es[j].pod)[es[j].tenant];
    assert CopyDated(d, ss[j], es[j].tenant, copy);
    assert Returns(ttl, ss[j], es[j]) == Some(Answer(es[j].tenant, copy.version));
    assert es[j].now - ttl - d <= copy.value <= es[j].now;
    assert StoredAt(Writes(ss[j], es[j].tenant), copy.version, copy.value);
  }

  // ---- What a lookup finds -----------------------------------------------------------------------------

  // The step fills, invalidates or clears the tenant's place in the pod's cache.
  ghost predicate Touches(s: System, e: Event, pod: nat, tenant: string) {
    match e
    case Fill(_, id) => id in s.fetches && s.fetches[id].pod == pod && s.fetches[id].tenant == tenant
    case Invalidate(_, id) => id in s.admins && s.admins[id].pod == pod && s.admins[id].tenant == tenant
    case Clear(_, p) => p == pod
    case _ => false
  }

  // Step `i` filled it, and nothing touched it since, up to state `k`.
  ghost predicate FilledAt(ss: seq<System>, es: seq<Event>, pod: nat, tenant: string, i: int, k: nat)
    requires k <= |es| && |ss| == |es| + 1
  {
    && 0 <= i < k && es[i].Fill? && Touches(ss[i], es[i], pod, tenant)
    && forall m | i < m < k :: !Touches(ss[m], es[m], pod, tenant)
  }

  lemma TouchStep(ttl: int, s: System, e: Event, pod: nat, tenant: string)
    requires Enabled(ttl, s, e)
    ensures var c := CacheOf(Next(ttl, s, e), pod);
            if !Touches(s, e, pod, tenant)
            then (tenant in c <==> tenant in CacheOf(s, pod)) && (tenant in c ==> c[tenant] == CacheOf(s, pod)[tenant])
            else if e.Fill?
            then tenant in c && c[tenant] == Entry(s.fetches[e.id].readAt, s.fetches[e.id].version, e.now)
            else tenant !in c
  {
  }

  // A step that does not touch the place leaves its history as it was.
  lemma FillsStay(ss: seq<System>, es: seq<Event>, pod: nat, tenant: string, k: nat)
    requires 0 < k <= |es| && |ss| == |es| + 1 && !Touches(ss[k - 1], es[k - 1], pod, tenant)
    ensures forall i :: FilledAt(ss, es, pod, tenant, i, k) <==> FilledAt(ss, es, pod, tenant, i, k - 1)
  {
    hide Touches;
  }

  // A step that does, if it is a fill, is the last one.
  lemma FillNow(ss: seq<System>, es: seq<Event>, pod: nat, tenant: string, k: nat)
    requires 0 < k <= |es| && |ss| == |es| + 1 && Touches(ss[k - 1], es[k - 1], pod, tenant)
    ensures forall i :: FilledAt(ss, es, pod, tenant, i, k) <==> i == k - 1 && es[i].Fill?
  {
    hide Touches;
  }

  lemma {:induction false} EntryHistory(ttl: int, ss: seq<System>, es: seq<Event>, pod: nat, tenant: string, k: nat)
    requires IsRun(ttl, ss, es) && k < |ss|
    ensures tenant in CacheOf(ss[k], pod) <==> exists i :: FilledAt(ss, es, pod, tenant, i, k)
    ensures forall i | FilledAt(ss, es, pod, tenant, i, k) ::
              && tenant in CacheOf(ss[k], pod) && es[i].id in ss[i].fetches
              && CacheOf(ss[k], pod)[tenant] ==
                 Entry(ss[i].fetches[es[i].id].readAt, ss[i].fetches[es[i].id].version, es[i].now)
  {
    if k > 0 {
      EntryHistory(ttl, ss, es, pod, tenant, k - 1);
      var s, e := ss[k - 1], es[k - 1];
      assert Enabled(ttl, s, e) && ss[k] == Next(ttl, s, e);
      TouchStep(ttl, s, e, pod, tenant);
      if Touches(s, e, pod, tenant) {
        FillNow(ss, es, pod, tenant, k);
        hide Next, Enabled, CacheOf, FilledAt;
        assert e.Fill? ==> FilledAt(ss, es, pod, tenant, k - 1, k);
      } else {
        FillsStay(ss, es, pod, tenant, k);
        hide Next, Enabled, CacheOf, FilledAt, Touches;
        if tenant in CacheOf(ss[k - 1], pod) {
          var i :| FilledAt(ss, es, pod, tenant, i, k - 1);
          assert FilledAt(ss, es, pod, tenant, i, k);
        }
      }
    }
  }

  /** In every run a lookup hits exactly when the last step that touched the tenant's place in that pod's cache was a
      fill, and no longer than the time to live ago; it returns the version that this fill had read. */
  lemma HitExactly(ttl: int, ss: seq<System>, es: seq<Event>, pod: nat, tenant: string, k: nat, now: int, v: int)
    requires IsRun(ttl, ss, es) && k < |ss|
    ensures (exists e :: Live(CacheOf(ss[k], pod), ttl, tenant, now) == Some(e) && e.version == v) <==>
            exists i :: FilledAt(ss, es, pod, tenant, i, k) && now - es[i].now <= ttl && FillOf(ss, es, i) == v
  {
    EntryHistory(ttl, ss, es, pod, tenant, k);
    if i :| FilledAt(ss, es, pod, tenant, i, k) && now - es[i].now <= ttl && FillOf(ss, es, i) == v {
      assert Live(CacheOf(ss[k], pod), ttl, tenant, now) == Some(CacheOf(ss[k], pod)[tenant]);
    }
    var found := Live(CacheOf(ss[k], pod), ttl, tenant, now);
    if found.Some? && found.value.version == v {
      var i :| FilledAt(ss, es, pod, tenant, i, k);
      assert FillOf(ss, es, i) == v && now - es[i].now <= ttl;
    }
  }

  // The version that the fill at step `i` carries, or -1.
  ghost function FillOf(ss: seq<System>, es: seq<Event>, i: int): int {
    if 0 <= i < |es| && i < |ss| && es[i].Fill? && es[i].id in ss[i].fetches
    then ss[i].fetches[es[i].id].version else -1
  }

  // ---- Reading one's writes -------------------------------------------------------------------------

  // One pod serves the tenant: its lookups and its admin writes.
  ghost predicate OnePod(es: seq<Event>, tenant: string, pod: nat) {
    forall i | 0 <= i < |es| ::
      match es[i]
      case Hit(_, p, t) => t == tenant ==> p == pod
      case Miss(_, p, t, _) => t == tenant ==> p == pod
      case Put(_, p, t, _) => t == tenant ==> p == pod
      case _ => true
  }

  // No resolve that read the database before the write was stored is still out.
  ghost predicate Unstraddled(s: System, admin: nat)
    requires admin in s.admins
  {
    forall id | id in s.fetches && s.fetches[id].tenant == s.admins[admin].tenant ::
      s.fetches[id].version >= s.admins[admin].version
  }

  // Nothing on the way to a reader of the tenant is older than version `v`.
  ghost predicate AtLeast(s: System, tenant: string, v: nat) {
    && v < |Writes(s, tenant)|
    && (forall id | id in s.fetches && s.fetches[id].tenant == tenant :: s.fetches[id].version >= v)
    && (forall pod | tenant in CacheOf(s, pod) :: CacheOf(s, pod)[tenant].version >= v)
  }

  ghost predicate SinglePod(s: System, tenant: string, pod: nat) {
    && (forall p | tenant in CacheOf(s, p) :: p == pod)
    && (forall id | id in s.lookups && s.lookups[id].tenant == tenant :: s.lookups[id].pod == pod)
    && (forall id | id in s.fetches && s.fetches[id].tenant == tenant :: s.fetches[id].pod == pod)
    && (forall id | id in s.admins && s.admins[id].tenant == tenant ::
          s.admins[id].pod == pod && s.admins[id].version < |Writes(s, tenant)|)
  }

  lemma StepKeepsSinglePod(ttl: int, s: System, e: Event, tenant: string, pod: nat)
    requires SinglePod(s, tenant, pod) && Enabled(ttl, s, e) && OnePod([e], tenant, pod)
    ensures SinglePod(Next(ttl, s, e), tenant, pod)
  {
    var t := Next(ttl, s, e);
    assert [e][0] == e;
    forall p | tenant in CacheOf(t, p) ensures p == pod {
      FromWhere(ttl, s, e, p, tenant);
    }
  }

  lemma {:induction false} RunSinglePod(ttl: int, ss: seq<System>, es: seq<Event>, tenant: string, pod: nat, j: nat)
    requires IsRun(ttl, ss, es) && OnePod(es, tenant, pod) && j < |ss|
    ensures SinglePod(ss[j], tenant, pod)
  {
    if j > 0 {
      hide Next, Enabled;
      RunSinglePod(ttl, ss, es, tenant, pod, j - 1);
      assert OnePod([es[j - 1]], tenant, pod);
      StepKeepsSinglePod(ttl, ss[j - 1], es[j - 1], tenant, pod);
    }
  }

  lemma StepKeepsAtLeast(ttl: int, s: System, e: Event, tenant: string, v: nat)
    requires AtLeast(s, tenant, v) && Enabled(ttl, s, e)
    ensures AtLeast(Next(ttl, s, e), tenant, v)
  {
    var t := Next(ttl, s, e);
    forall p | tenant in CacheOf(t, p) ensures CacheOf(t, p)[tenant].version >= v {
      FromWhere(ttl, s, e, p, tenant);
    }
  }

  lemma {:induction false} StaysAtLeast(ttl: int, ss: seq<System>, es: seq<Event>, i: nat, j: nat, tenant: string,
                                        v: nat)
    requires Steps(ttl, ss, es) && i <= j < |ss| && AtLeast(ss[i], tenant, v)
    ensures AtLeast(ss[j], tenant, v)
  {
    hide Next, Enabled, AtLeast;
    if i < j {
      StaysAtLeast(ttl, ss, es, i, j - 1, tenant, v);
      StepKeepsAtLeast(ttl, ss[j - 1], es[j - 1], tenant, v);
    }
  }

  // The invalidation of an unstraddled write leaves nothing older behind.
  lemma InvalidationClears(ttl: int, s: System, e: Event, pod: nat)
    requires Enabled(ttl, s, e) && e.Invalidate? && Unstraddled(s, e.id) && SinglePod(s, s.admins[e.id].tenant, pod)
    ensures AtLeast(Next(ttl, s, e), s.admins[e.id].tenant, s.admins[e.id].version)
  {
    var a := s.admins[e.id];
    var t := Next(ttl, s, e);
    forall p ensures a.tenant !in CacheOf(t, p) {
      if a.tenant in CacheOf(t, p) {
        FromWhere(ttl, s, e, p, a.tenant);
        assert false;
      }
    }
  }

  // Starting in `s` with the invalidation of `admin`, step `j` returns a config of its tenant that is older than the
  // write.
  ghost predicate ReadsOld(ttl: int, s: System, admin: nat, pod: nat, ss: seq<System>, es: seq<Event>, j: nat)
    requires admin in s.admins
  {
    var a := s.admins[admin];
    && Steps(ttl, ss, es) && ss[0] == s && 0 < j < |es|
    && es[0].Invalidate? && es[0].id == admin && OnePod(es, a.tenant, pod)
    && var r := Returns(ttl, ss[j], es[j]);
       r.Some? && r.value.tenant == a.tenant && r.value.version < a.version
  }

  // And that step is a lookup that found it in the cache.
  ghost predicate HitsOld(ttl: int, s: System, admin: nat, pod: nat, ss: seq<System>, es: seq<Event>, j: nat)
    requires admin in s.admins
  {
    ReadsOld(ttl, s, admin, pod, ss, es, j) && 0 <= j < |es| && es[j].Hit?
  }

  lemma NoOldRead(ttl: int, s: System, admin: nat, pod: nat, ss: seq<System>, es: seq<Event>, j: nat)
    requires admin in s.admins && SinglePod(s, s.admins[admin].tenant, pod) && Unstraddled(s, admin)
    ensures !ReadsOld(ttl, s, admin, pod, ss, es, j)
  {
    var a := s.admins[admin];
    if Steps(ttl, ss, es) && ss[0] == s && 0 < j < |es| && es[0].Invalidate? && es[0].id == admin {
      assert Enabled(ttl, ss[0], es[0]) && ss[1] == Next(ttl, ss[0], es[0]);
      InvalidationClears(ttl, s, es[0], pod);
      StaysAtLeast(ttl, ss, es, 1, j, a.tenant, a.version);
      hide Next;
      assert Enabled(ttl, ss[j], es[j]);
    }
  }

  /** On one pod, a resolve can return a config older than an admin write after the write's invalidation exactly when a
      resolve that read the database before the write is still out as the invalidation runs. The same holds of
      resolves that only start after the invalidation and are answered from the cache. */
  lemma OldReadExactly(ttl: int, s: System, admin: nat, pod: nat)
    requires admin in s.admins && SinglePod(s, s.admins[admin].tenant, pod)
    ensures (exists ss, es, j :: ReadsOld(ttl, s, admin, pod, ss, es, j)) <==> !Unstraddled(s, admin)
    ensures ttl >= 0 ==>
              ((exists ss, es, j :: HitsOld(ttl, s, admin, pod, ss, es, j)) <==> !Unstraddled(s, admin))
  {
    hide ReadsOld;
    if Unstraddled(s, admin) {
      forall ss, es, j ensures !ReadsOld(ttl, s, admin, pod, ss, es, j) {
        NoOldRead(ttl, s, admin, pod, ss, es, j);
      }
    } else {
      var id :| id in s.fetches && s.fetches[id].tenant == s.admins[admin].tenant &&
                s.fetches[id].version < s.admins[admin].version;
      StraddleAnswers(ttl, s, admin, pod, id);
      if ttl >= 0 {
        var ss, es := StraddleCached(ttl, s, admin, pod, id);
        assert HitsOld(ttl, s, admin, pod, ss, es, 2);
      }
    }
  }

  // The straddling resolve's own answer.
  lemma StraddleAnswers(ttl: int, s: System, admin: nat, pod: nat, id: nat)
    requires admin in s.admins && id in s.fetches
    requires s.fetches[id].tenant == s.admins[admin].tenant && s.fetches[id].version < s.admins[admin].version
    ensures exists ss, es, j :: ReadsOld(ttl, s, admin, pod, ss, es, j)
  {
    var es := [Invalidate(s.clock, admin), Fill(s.clock, id)];
    var s1 := Next(ttl, s, es[0]);
    var s2 := Next(ttl, s1, es[1]);
    assert Returns(ttl, s1, es[1]) == Some(Answer(s.fetches[id].tenant, s.fetches[id].version));
    assert ReadsOld(ttl, s, admin, pod, [s, s1, s2], es, 1);
  }

  // A lookup after it.
  lemma StraddleCached(ttl: int, s: System, admin: nat, pod: nat, id: nat) returns (ss: seq<System>, es: seq<Event>)
    requires ttl >= 0 && admin in s.admins && id in s.fetches && SinglePod(s, s.admins[admin].tenant, pod)
    requires s.fetches[id].tenant == s.admins[admin].tenant && s.fetches[id].version < s.admins[admin].version
    ensures HitsOld(ttl, s, admin, pod, ss, es, 2)
  {
    var f := s.fetches[id];
    StraddleReturnsOld(ttl, s, admin, id);
    es := [Invalidate(s.clock, admin), Fill(s.clock, id), Hit(s.clock, f.pod, f.tenant)];
    var s1 := Next(ttl, s, es[0]);
    var s2 := Next(ttl, s1, es[1]);
    var s3 := Next(ttl, s2, es[2]);
    assert f.pod == pod;
    hide Next, Enabled, Returns;
    ss := [s, s1, s2, s3];
    assert Enabled(ttl, s, es[0]) && Enabled(ttl, s1, es[1]) && Enabled(ttl, s2, es[2]);
  }

  /** In every run in which one pod serves the tenant: after a write whose invalidation no resolve straddles, every
      later resolve that returns a stored config returns that write's or a newer one. */
  lemma ReadYourWrites(ttl: int, ss: seq<System>, es: seq<Event>, pod: nat, i: nat, j: nat)
    requires IsRun(ttl, ss, es) && i < j < |es|
    requires es[i].Invalidate? && es[i].id in ss[i].admins && Unstraddled(ss[i], es[i].id)
    requires OnePod(es, ss[i].admins[es[i].id].tenant, pod)
    requires var r := Returns(ttl, ss[j], es[j]); r.Some? && r.value.tenant == ss[i].admins[es[i].id].tenant
    ensures Returns(ttl, ss[j], es[j]).value.version >= ss[i].admins[es[i].id].version
  {
    var a := ss[i].admins[es[i].id];
    RunSinglePod(ttl, ss, es, a.tenant, pod, i);
    assert ss[i + 1] == Next(ttl, ss[i], es[i]);
    InvalidationClears(ttl, ss[i], es[i], pod);
    StaysAtLeast(ttl, ss, es, i + 1, j, a.tenant, a.version);
    hide Next;
    assert Enabled(ttl, ss[j], es[j]);
  }

  /** A straddling resolve does not only return the old config: it puts it back, and the next lookup on its pod finds
      it there. */
  lemma StraddleReturnsOld(ttl: int, s: System, admin: nat, id: nat)
    requires ttl >= 0 && admin in s.admins && id in s.fetches
    requires s.fetches[id].tenant == s.admins[admin].tenant && s.fetches[id].version < s.admins[admin].version
    ensures var f := s.fetches[id];
            var e1, e2, e3 := Invalidate(s.clock, admin), Fill(s.clock, id), Hit(s.clock, f.pod, f.tenant);
            && Enabled(ttl, s, e1) && Enabled(ttl, Next(ttl, s, e1), e2)
            && var t := Next(ttl, Next(ttl, s, e1), e2);
               Enabled(ttl, t, e3) && Returns(ttl, t, e3) == Some(Answer(f.tenant, f.version))
  {
    var f := s.fetches[id];
    var s1 := Next(ttl, s, Invalidate(s.clock, admin));
    LookupAfter(CacheOf(s1, f.pod), ttl, f.tenant, f.readAt, f.version, s.clock, f.tenant, s.clock);
  }

  /** Such a straddle is reachable: miss, read version 0, store version 1. */
  lemma StraddleReachable(ttl: int) returns (ss: seq<System>, es: seq<Event>)
    ensures IsRun(ttl, ss, es) && OnePod(es, "acme", 0)
    ensures var s := ss[|es|]; 0 in s.admins && SinglePod(s, "acme", 0) && !Unstraddled(s, 0)
  {
    var s0 := System(0, map["acme" := [0]], map[], map[], map[], map[]);
    es := [Miss(0, 0, "acme", 0), Read(0, 0), Put(0, 0, "acme", 0)];
    var s1 := Next(ttl, s0, es[0]);
    var s2 := Next(ttl, s1, es[1]);
    var s3 := Next(ttl, s2, es[2]);
    ss := [s0, s1, s2, s3];
    RunSinglePod(ttl, ss, es, "acme", 0, 3);
    assert s3.fetches[0] == Fetch(0, "acme", 0, 0) && s3.admins[0] == Admin(0, "acme", 1);
  }
}
