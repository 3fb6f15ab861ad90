/**
 Every interleaving of the two scripts, issued by any number of gateway instances.

 A granted Allow hands out a ticket; a Report spends one, possibly long after the breaker has moved
 on. `epoch` counts entries into half-open, and a ticket remembers the epoch it was issued in.
 */
module BreakerRuns {
  import opened Wrappers
  import opened Breaker

  datatype Ticket = Ticket(probe: bool, epoch: nat)

  datatype Event =
    | Allow(now: nat)
    | Report(now: nat, id: nat, outcome: Outcome)

  datatype System = System(
    store: Store,
    clock: nat,
    epoch: nat,
    nextId: nat,
    outstanding: map<nat, Ticket>,
    stale: nat)  // probe reports from earlier epochs that landed in this half-open epoch

  const INITIAL := System(Store(NO_HASH, map[]), 0, 0, 0, map[], 0)

  function Ph(s: System): Phase {
    PhaseOf(s.store.hash)
  }

  predicate Enabled(s: System, e: Event) {
    e.now >= s.clock && (e.Report? ==> e.id in s.outstanding)
  }

  function AfterAllow(cfg: Config, s: System, now: nat): System {
    var (h, d) := AllowStep(cfg, s.store.hash, now);
    var entered := !Ph(s).HalfOpen? && PhaseOf(h).HalfOpen?;
    var epoch := if entered then s.epoch + 1 else s.epoch;
    System(
      s.store.(hash := h), now, epoch,
      if d.allowed then s.nextId + 1 else s.nextId,
      if d.allowed then s.outstanding[s.nextId := Ticket(d.isProbe, epoch)] else s.outstanding,
      if entered then 0 else s.stale)
  }

  function AfterReport(cfg: Config, s: System, now: nat, id: nat, o: Outcome): System
    requires id in s.outstanding
  {
    var t := s.outstanding[id];
    var store := ReportStep(cfg, s.store, now, o, t.probe).0;
    System(
      store, now, s.epoch, s.nextId, s.outstanding - {id},
      if Ph(s).HalfOpen? && t.probe && t.epoch < s.epoch then s.stale + 1 else s.stale)
  }

  function Next(cfg: Config, s: System, e: Event): System
    requires Enabled(s, e)
  {
    match e
    case Allow(now) => AfterAllow(cfg, s, now)
    case Report(now, id, o) => AfterReport(cfg, s, now, id, o)
  }

  // The decision an Allow event gets.
  function Granted(cfg: Config, s: System, e: Event): bool {
    e.Allow? && AllowStep(cfg, s.store.hash, e.now).1.allowed
  }

  ghost predicate IsRun(cfg: Config, ss: seq<System>, es: seq<Event>) {
    && |ss| == |es| + 1
    && forall i | 0 <= i < |es| :: Enabled(ss[i], es[i]) && ss[i + 1] == Next(cfg, ss[i], es[i])
  }

  // ---- Probe accounting ---------------------------------------------------------------------

  function Probes(out: map<nat, Ticket>, epoch: nat): set<nat> {
    set id | id in out && out[id] == Ticket(true, epoch)
  }

  function ProbesBefore(out: map<nat, Ticket>, epoch: nat): set<nat> {
    set id | id in out && out[id].probe && out[id].epoch < epoch
  }

  function EarlierProbes(s: System): set<nat> {
    ProbesBefore(s.outstanding, s.epoch)
  }

  function CurrentProbes(s: System): nat {
    |Probes(s.outstanding, s.epoch)|
  }

  function Max0(x: int): nat {
    if x < 0 then 0 else x
  }

  ghost predicate Tickets(s: System) {
    forall id | id in s.outstanding :: id < s.nextId && s.outstanding[id].epoch <= s.epoch
  }

  ghost predicate Accounted(cfg: Config, s: System) {
    && Tickets(s)
    && (Ph(s).Open? ==> s.store.hash.openUntil.Some?)
    && (Ph(s).HalfOpen? ==>
          && s.store.hash.inflight == Some(CurrentProbes(s) - s.stale)
          && s.store.hash.successes.Some?
          && CurrentProbes(s) - s.stale <= Max0(cfg.maxInflight))
  }

  lemma ProbesAfterReport(cfg: Config, s: System, e: Event)
    requires Enabled(s, e) && e.Report?
    ensures var s' := Next(cfg, s, e);
            && Probes(s'.outstanding, s.epoch) == Probes(s.outstanding, s.epoch) - {e.id}
            && EarlierProbes(s') == EarlierProbes(s) - {e.id}
  {
  }

  lemma TicketAdded(out: map<nat, Ticket>, id: nat, t: Ticket)
    requires id !in out
    ensures Probes(out[id := t], t.epoch) == Probes(out, t.epoch) + (if t.probe then {id} else {})
    ensures ProbesBefore(out[id := t], t.epoch) == ProbesBefore(out, t.epoch)
  {
  }

  // An Allow that does not start an epoch.
  lemma ProbesAfterAllow(cfg: Config, s: System, e: Event)
    requires Tickets(s) && Enabled(s, e) && e.Allow? && Next(cfg, s, e).epoch == s.epoch
    ensures var s' := Next(cfg, s, e);
            && CurrentProbes(s') == CurrentProbes(s) + (if Granted(cfg, s, e) && Ph(s').HalfOpen? then 1 else 0)
            && EarlierProbes(s') == EarlierProbes(s)
  {
    hide Probes, ProbesBefore;
    if Granted(cfg, s, e) {
      var t := AllowStep(cfg, s.store.hash, e.now).1.isProbe;
      TicketAdded(s.outstanding, s.nextId, Ticket(t, s.epoch));
      NotYetOut(s);
    }
  }

  lemma NotYetOut(s: System)
    requires Tickets(s)
    ensures s.nextId !in Probes(s.outstanding, s.epoch)
  {
  }

  // An Allow that starts an epoch: whatever is out belongs to earlier ones.
  lemma ProbesAfterEntry(cfg: Config, s: System, e: Event)
    requires Tickets(s) && Enabled(s, e) && e.Allow? && Next(cfg, s, e).epoch != s.epoch
    ensures var s' := Next(cfg, s, e); CurrentProbes(s') == if Granted(cfg, s, e) then 1 else 0
  {
    var s' := Next(cfg, s, e);
    assert Probes(s'.outstanding, s'.epoch) == if Granted(cfg, s, e) then {s.nextId} else {};
  }

  lemma AllowKeepsAccounts(cfg: Config, s: System, e: Event)
    requires Accounted(cfg, s) && Enabled(s, e) && e.Allow?
    ensures Accounted(cfg, Next(cfg, s, e))
  {
    var s' := Next(cfg, s, e);
    assert Tickets(s');
    if s'.epoch == s.epoch {
      ProbesAfterAllow(cfg, s, e);
    } else {
      ProbesAfterEntry(cfg, s, e);
    }
  }

  lemma CountAfterReport(cfg: Config, s: System, e: Event)
    requires Enabled(s, e) && e.Report?
    ensures CurrentProbes(Next(cfg, s, e)) ==
            CurrentProbes(s) - if s.outstanding[e.id] == Ticket(true, s.epoch) then 1 else 0
  {
    hide ReportStep;
    ProbesAfterReport(cfg, s, e);
  }

  lemma ReportKeepsAccounts(cfg: Config, s: System, e: Event)
    requires Accounted(cfg, s) && Enabled(s, e) && e.Report?
    ensures Accounted(cfg, Next(cfg, s, e))
  {
    hide TotalOk, TotalFail, Trips, Recorded, BucketOf, CurrentProbes;
    assert Tickets(Next(cfg, s, e));
    CountAfterReport(cfg, s, e);
  }

  lemma StepKeepsAccounts(cfg: Config, s: System, e: Event)
    requires Accounted(cfg, s) && Enabled(s, e)
    ensures Accounted(cfg, Next(cfg, s, e))
  {
    if e.Allow? {
      AllowKeepsAccounts(cfg, s, e);
    } else {
      ReportKeepsAccounts(cfg, s, e);
    }
  }

  /** In every reachable half-open state the stored counter is the epoch's outstanding probes minus the
      stale reports that landed in the epoch, and never above the limit. */
  lemma {:induction false} ProbeAccounting(cfg: Config, ss: seq<System>, es: seq<Event>, j: nat)
    requires IsRun(cfg, ss, es) && Accounted(cfg, ss[0]) && j < |ss|
    ensures Accounted(cfg, ss[j])
  {
    if j > 0 {
      ProbeAccounting(cfg, ss, es, j - 1);
      StepKeepsAccounts(cfg, ss[j - 1], es[j - 1]);
    }
  }

  // While an epoch lasts, every stale report spends one earlier probe.
  lemma DebtStep(cfg: Config, s: System, e: Event)
    requires Accounted(cfg, s) && Enabled(s, e)
    requires Ph(Next(cfg, s, e)).HalfOpen? && Next(cfg, s, e).epoch == s.epoch
    ensures Ph(s).HalfOpen?
    ensures var s' := Next(cfg, s, e); s'.stale + |EarlierProbes(s')| == s.stale + |EarlierProbes(s)|
  {
    if e.Allow? {
      ProbesAfterAllow(cfg, s, e);
    } else {
      ProbesAfterReport(cfg, s, e);
    }
  }

  lemma EpochMonotone(cfg: Config, ss: seq<System>, es: seq<Event>, i: nat, j: nat)
    requires IsRun(cfg, ss, es) && i <= j < |ss|
    ensures ss[i].epoch <= ss[j].epoch
  {
    if i < j {
      EpochMonotone(cfg, ss, es, i, j - 1);
    }
  }

  lemma {:induction false} DebtConstant(cfg: Config, ss: seq<System>, es: seq<Event>, i: nat, j: nat)
    requires IsRun(cfg, ss, es) && Accounted(cfg, ss[0]) && i <= j < |ss|
    requires Ph(ss[j]).HalfOpen? && ss[j].epoch == ss[i].epoch
    ensures Ph(ss[i]).HalfOpen?
    ensures ss[j].stale + |EarlierProbes(ss[j])| == ss[i].stale + |EarlierProbes(ss[i])|
  {
    hide Next, EarlierProbes, Accounted;
    if i < j {
      ProbeAccounting(cfg, ss, es, j - 1);
      EpochMonotone(cfg, ss, es, i, j - 1);
      EpochMonotone(cfg, ss, es, j - 1, j);
      DebtStep(cfg, ss[j - 1], es[j - 1]);
      DebtConstant(cfg, ss, es, i, j - 1);
    }
  }

  /** The probes really in flight, of this and all earlier epochs, exceed the limit by at most the probes
      left over when the epoch began: with none left over, the limit is real. */
  lemma ProbeBound(cfg: Config, ss: seq<System>, es: seq<Event>, i: nat, j: nat)
    requires IsRun(cfg, ss, es) && Accounted(cfg, ss[0]) && i < j < |ss|
    requires !Ph(ss[i]).HalfOpen? && Ph(ss[i + 1]).HalfOpen?
    requires Ph(ss[j]).HalfOpen? && ss[j].epoch == ss[i + 1].epoch
    ensures CurrentProbes(ss[j]) + |EarlierProbes(ss[j])| <= Max0(cfg.maxInflight) + |EarlierProbes(ss[i + 1])|
    ensures EarlierProbes(ss[i + 1]) == {} ==> CurrentProbes(ss[j]) <= Max0(cfg.maxInflight)
  {
    ProbeAccounting(cfg, ss, es, i + 1);
    ProbeAccounting(cfg, ss, es, j);
    DebtConstant(cfg, ss, es, i + 1, j);
    assert ss[i + 1] == Next(cfg, ss[i], es[i]);
  }

  // ---- When the limit fails -------------------------------------------------------------------

  ghost predicate Fresh(cfg: Config, s: System) {
    Accounted(cfg, s) && Ph(s).HalfOpen? && s.stale == 0 && s.store.hash.successes == Some(0)
  }

  ghost predicate Overrun(cfg: Config, s: System, ss: seq<System>, es: seq<Event>) {
    && IsRun(cfg, ss, es) && ss[0] == s
    && var last := ss[|es|];
       Ph(last).HalfOpen? && last.epoch == s.epoch && CurrentProbes(last) > Max0(cfg.maxInflight)
  }

  lemma ExtendRun(cfg: Config, ss: seq<System>, es: seq<Event>, e: Event)
    requires IsRun(cfg, ss, es) && Enabled(ss[|es|], e)
    ensures IsRun(cfg, ss + [Next(cfg, ss[|es|], e)], es + [e])
  {
    var ss', es' := ss + [Next(cfg, ss[|es|], e)], es + [e];
    forall i | 0 <= i < |es'| ensures Enabled(ss'[i], es'[i]) && ss'[i + 1] == Next(cfg, ss'[i], es'[i]) {
      if i < |es| {
        assert ss'[i] == ss[i] && es'[i] == es[i] && ss'[i + 1] == ss[i + 1];
      }
    }
  }

  // Allow until the counter is full.
  lemma {:induction false} FillUp(cfg: Config, s: System) returns (ss: seq<System>, es: seq<Event>)
    requires Accounted(cfg, s) && Ph(s).HalfOpen? && cfg.maxInflight >= 0
    ensures IsRun(cfg, ss, es) && ss[0] == s
    ensures var t := ss[|es|];
            && Accounted(cfg, t) && Ph(t).HalfOpen? && t.epoch == s.epoch && t.stale == s.stale
            && t.store.hash.inflight == Some(cfg.maxInflight)
            && t.store.hash.successes == s.store.hash.successes
            && EarlierProbes(t) == EarlierProbes(s)
    decreases cfg.maxInflight - s.store.hash.inflight.value
  {
    if s.store.hash.inflight.value >= cfg.maxInflight {
      return [s], [];
    }
    var e := Allow(s.clock);
    var s' := Next(cfg, s, e);
    StepKeepsAccounts(cfg, s, e);
    ProbesAfterAllow(cfg, s, e);
    var tt, fs := FillUp(cfg, s');
    PrependRun(cfg, s, e, tt, fs);
    ss, es := [s] + tt, [e] + fs;
  }

  lemma SuccessStep(cfg: Config, s: System, id: nat)
    requires Ph(s).HalfOpen? && id in s.outstanding && s.store.hash.successes.Some?
    requires s.store.hash.successes.value + 1 < cfg.successesToClose
    ensures var t := Next(cfg, s, Report(s.clock, id, Success));
            && Ph(t).HalfOpen? && t.epoch == s.epoch && t.clock == s.clock && t.outstanding == s.outstanding - {id}
            && t.store.hash.successes == Some(s.store.hash.successes.value + 1)
  {
    hide TotalOk, TotalFail, Recorded, Trips, BucketOf;
  }

  // Success reports of the given tickets, one after the other.
  lemma {:induction false} ReportAll(cfg: Config, s: System, ids: set<nat>) returns (ss: seq<System>, es: seq<Event>)
    requires Accounted(cfg, s) && Ph(s).HalfOpen? && ids <= s.outstanding.Keys
    requires s.store.hash.successes.value >= 0
    requires ids != {} ==> s.store.hash.successes.value + |ids| < cfg.successesToClose
    ensures IsRun(cfg, ss, es) && ss[0] == s
    ensures forall i | 0 <= i < |es| :: es[i].Report? && es[i].id in ids
    ensures forall i | 0 <= i < |ss| :: Ph(ss[i]).HalfOpen?
    ensures var t := ss[|es|];
            && Accounted(cfg, t) && Ph(t).HalfOpen? && t.epoch == s.epoch && t.clock == s.clock
            && t.outstanding == s.outstanding - ids
            && t.store.hash.successes == Some(s.store.hash.successes.value + |ids|)
    decreases |ids|
  {
    hide Next, CurrentProbes;
    if ids == {} {
      return [s], [];
    }
    var id :| id in ids;
    var e := Report(s.clock, id, Success);
    var s' := Next(cfg, s, e);
    StepKeepsAccounts(cfg, s, e);
    SuccessStep(cfg, s, id);
    hide Accounted, Ph;
    SizeWithout(ids, {id});
    var tt, fs := ReportAll(cfg, s', ids - {id});
    assert s.outstanding - ids == s.outstanding - {id} - (ids - {id});
    PrependRun(cfg, s, e, tt, fs);
    ss, es := [s] + tt, [e] + fs;
  }

  lemma PrependRun(cfg: Config, s: System, e: Event, tt: seq<System>, fs: seq<Event>)
    requires IsRun(cfg, tt, fs) && Enabled(s, e) && tt[0] == Next(cfg, s, e)
    ensures IsRun(cfg, [s] + tt, [e] + fs)
  {
    hide Next;
    var ss, es := [s] + tt, [e] + fs;
    forall i | 0 <= i < |es| ensures Enabled(ss[i], es[i]) && ss[i + 1] == Next(cfg, ss[i], es[i]) {
      if i > 0 {
        assert ss[i] == tt[i - 1] && es[i] == fs[i - 1] && ss[i + 1] == tt[i];
      }
    }
  }

  lemma AppendRuns(cfg: Config, ss: seq<System>, es: seq<Event>, tt: seq<System>, fs: seq<Event>)
    requires IsRun(cfg, ss, es) && IsRun(cfg, tt, fs) && tt[0] == ss[|es|]
    ensures IsRun(cfg, ss + tt[1..], es + fs) && (ss + tt[1..])[|es + fs|] == tt[|fs|]
  {
    hide Next;
    var uu, gs := ss + tt[1..], es + fs;
    forall i | 0 <= i < |gs| ensures Enabled(uu[i], gs[i]) && uu[i + 1] == Next(cfg, uu[i], gs[i]) {
      if i < |es| {
        assert uu[i] == ss[i] && uu[i + 1] == ss[i + 1] && gs[i] == es[i];
      } else {
        var k := i - |es|;
        assert uu[i] == tt[k] && uu[i + 1] == tt[k + 1] && gs[i] == fs[k];
      }
    }
  }

  lemma {:induction false} SubsetOfSize(xs: set<nat>, n: nat) returns (ys: set<nat>)
    requires n <= |xs|
    ensures ys <= xs && |ys| == n
  {
    if n == 0 {
      return {};
    }
    var x :| x in xs;
    ys := SubsetOfSize(xs - {x}, n - 1);
    ys := ys + {x};
  }

  // Stale reports it takes before a full epoch admits one probe too many: one, and one more for every step that a
  // negative limit lies below zero.
  function StaleNeeded(cfg: Config): nat {
    if cfg.maxInflight < 0 then 1 - cfg.maxInflight else 1
  }

  // Fill the counter, spend leftover probes as successes, and let one more in.
  lemma OverrunWitness(cfg: Config, s: System) returns (ss: seq<System>, es: seq<Event>)
    requires Fresh(cfg, s)
    requires |EarlierProbes(s)| >= StaleNeeded(cfg) && cfg.successesToClose > StaleNeeded(cfg)
    ensures Overrun(cfg, s, ss, es)
  {
    ss, es := [s], [];
    if cfg.maxInflight >= 0 {
      ss, es := FillUp(cfg, s);
    }
    var full := ss[|es|];
    var stale := SubsetOfSize(EarlierProbes(full), StaleNeeded(cfg));
    var tt, fs := ReportAll(cfg, full, stale);
    var freed := tt[|fs|];
    DebtConstant(cfg, tt, fs, 0, |fs|);
    LeftoversSpent(full, freed, stale);
    AppendRuns(cfg, ss, es, tt, fs);
    ss, es := ss + tt[1..], es + fs;
    var allow := Allow(freed.clock);
    ProbesAfterAllow(cfg, freed, allow);
    StepKeepsAccounts(cfg, freed, allow);
    ExtendRun(cfg, ss, es, allow);
    ss, es := ss + [Next(cfg, freed, allow)], es + [allow];
  }

  lemma LeftoversSpent(s: System, t: System, ids: set<nat>)
    requires ids <= EarlierProbes(s) && t.epoch == s.epoch && t.outstanding == s.outstanding - ids
    ensures |EarlierProbes(t)| == |EarlierProbes(s)| - |ids| && CurrentProbes(t) == CurrentProbes(s)
  {
    TicketsRemoved(s.outstanding, ids, s.epoch);
    SizeWithout(ProbesBefore(s.outstanding, s.epoch), ids);
  }

  lemma SizeWithout(xs: set<nat>, ys: set<nat>)
    requires ys <= xs
    ensures |xs - ys| == |xs| - |ys|
  {
  }

  lemma TicketsRemoved(out: map<nat, Ticket>, ids: set<nat>, epoch: nat)
    requires ids <= ProbesBefore(out, epoch)
    ensures ProbesBefore(out - ids, epoch) == ProbesBefore(out, epoch) - ids
    ensures Probes(out - ids, epoch) == Probes(out, epoch)
  {
    forall id ensures id in Probes(out - ids, epoch) <==> id in Probes(out, epoch) {
      assert id in ids ==> id in ProbesBefore(out, epoch);
    }
  }

  // Within an epoch every stale report was a success, and a breaker that is still half-open wants more of them.
  ghost predicate Earned(cfg: Config, s: System) {
    Ph(s).HalfOpen? ==>
      && s.stale <= s.store.hash.successes.GetOr(0)
      && (s.store.hash.successes.GetOr(0) > 0 ==> s.store.hash.successes.GetOr(0) < cfg.successesToClose)
      && (CurrentProbes(s) > Max0(cfg.maxInflight) ==> s.stale >= StaleNeeded(cfg))
  }

  lemma StepKeepsEarned(cfg: Config, s: System, e: Event)
    requires Accounted(cfg, s) && Earned(cfg, s) && Enabled(s, e)
    requires Ph(s).HalfOpen? && Next(cfg, s, e).epoch == s.epoch
    ensures Earned(cfg, Next(cfg, s, e))
  {
    hide CurrentProbes, TotalOk, TotalFail, Trips, Recorded, BucketOf, EarlierProbes;
    if e.Allow? {
      ProbesAfterAllow(cfg, s, e);
    } else {
      CountAfterReport(cfg, s, e);
    }
  }

  lemma {:induction false} EpochEarned(cfg: Config, ss: seq<System>, es: seq<Event>, j: nat)
    requires IsRun(cfg, ss, es) && Fresh(cfg, ss[0]) && j < |ss|
    requires Ph(ss[j]).HalfOpen? && ss[j].epoch == ss[0].epoch
    ensures Earned(cfg, ss[j])
  {
    if j > 0 {
      ProbeAccounting(cfg, ss, es, j - 1);
      EpochMonotone(cfg, ss, es, 0, j - 1);
      EpochMonotone(cfg, ss, es, j - 1, j);
      DebtStep(cfg, ss[j - 1], es[j - 1]);
      EpochEarned(cfg, ss, es, j - 1);
      StepKeepsEarned(cfg, ss[j - 1], es[j - 1]);
    }
  }

  /** The concurrency limit can be broken within a half-open epoch exactly when enough probes of earlier epochs are
      still out as the epoch begins, and as many successes do not yet close the breaker. For any limit that is not
      negative, one leftover probe is enough. */
  lemma OverrunExactly(cfg: Config, s: System)
    requires Fresh(cfg, s)
    ensures (exists ss, es :: Overrun(cfg, s, ss, es)) <==>
            |EarlierProbes(s)| >= StaleNeeded(cfg) && cfg.successesToClose > StaleNeeded(cfg)
  {
    hide EarlierProbes, CurrentProbes;
    if |EarlierProbes(s)| >= StaleNeeded(cfg) && cfg.successesToClose > StaleNeeded(cfg) {
      var ss, es := OverrunWitness(cfg, s);
    } else {
      forall ss, es | IsRun(cfg, ss, es) && ss[0] == s
        ensures !Overrun(cfg, s, ss, es)
      {
        var last := ss[|es|];
        if Ph(last).HalfOpen? && last.epoch == s.epoch {
          EpochEarned(cfg, ss, es, |es|);
          DebtConstant(cfg, ss, es, 0, |es|);
        }
      }
    }
  }

  // ---- Closing without a probe ----------------------------------------------------------------------

  // Requests still out that were admitted while the breaker was closed.
  function Plain(s: System): set<nat> {
    set id | id in s.outstanding && !s.outstanding[id].probe
  }

  function SuccessesNeeded(cfg: Config): nat {
    if cfg.successesToClose < 1 then 1 else cfg.successesToClose
  }

  // A run that stays half-open until its last step, which closes the breaker, and in which no probe reports.
  ghost predicate PlainClose(cfg: Config, s: System, ss: seq<System>, es: seq<Event>) {
    && IsRun(cfg, ss, es) && ss[0] == s && |es| > 0
    && (forall i | 0 <= i < |es| :: Ph(ss[i]).HalfOpen?) && Ph(ss[|es|]).Closed?
    && PlainReports(ss, es)
  }

  ghost predicate PlainReports(ss: seq<System>, es: seq<Event>)
    requires |ss| == |es| + 1
  {
    forall i | 0 <= i < |es| && es[i].Report? :: es[i].id in Plain(ss[i])
  }

  lemma PlainAfterAllow(cfg: Config, s: System, e: Event)
    requires Tickets(s) && Enabled(s, e) && e.Allow? && Ph(s).HalfOpen?
    ensures Plain(Next(cfg, s, e)) == Plain(s)
  {
  }

  lemma PlainAfterReport(cfg: Config, s: System, e: Event)
    requires Enabled(s, e) && e.Report?
    ensures Plain(Next(cfg, s, e)) == Plain(s) - {e.id}
  {
    hide ReportStep;
  }

  // While half-open, what the success field gained is what the plain requests lost.
  lemma {:induction false} PlainSpent(cfg: Config, ss: seq<System>, es: seq<Event>, k: nat)
    requires IsRun(cfg, ss, es) && Fresh(cfg, ss[0]) && PlainReports(ss, es) && k < |ss|
    requires forall i | 0 <= i <= k :: Ph(ss[i]).HalfOpen?
    ensures Accounted(cfg, ss[k])
    ensures ss[k].store.hash.successes.value + |Plain(ss[k])| == |Plain(ss[0])|
    ensures ss[k].store.hash.successes.value >= 0
  {
    if k > 0 {
      var s, e := ss[k - 1], es[k - 1];
      PlainSpent(cfg, ss, es, k - 1);
      StepKeepsAccounts(cfg, s, e);
      hide Plain, Accounted, TotalOk, TotalFail, Trips, Recorded;
      if e.Allow? {
        PlainAfterAllow(cfg, s, e);
      } else {
        PlainAfterReport(cfg, s, e);
      }
    }
  }

  lemma PlainCloseRun(cfg: Config, s: System) returns (ss: seq<System>, es: seq<Event>)
    requires Fresh(cfg, s) && |Plain(s)| >= SuccessesNeeded(cfg)
    ensures PlainClose(cfg, s, ss, es)
  {
    var ids := SubsetOfSize(Plain(s), SuccessesNeeded(cfg));
    var last :| last in ids;
    var rest := ids - {last};
    ss, es := ReportAll(cfg, s, rest);
    var t := ss[|es|];
    var e := Report(t.clock, last, Success);
    hide TotalOk, TotalFail, Trips, Recorded;
    forall i | 0 <= i < |es| ensures es[i].id in Plain(ss[i]) {
      OutSince(cfg, ss, es, 0, i, es[i].id);
    }
    ExtendRun(cfg, ss, es, e);
    ss, es := ss + [Next(cfg, t, e)], es + [e];
  }

  // A ticket that is out, and was out before, is the same ticket.
  lemma {:induction false} OutSince(cfg: Config, ss: seq<System>, es: seq<Event>, i: nat, j: nat, id: nat)
    requires IsRun(cfg, ss, es) && i <= j < |ss| && id in ss[i].outstanding && id in ss[j].outstanding
    requires Tickets(ss[i])
    ensures ss[j].outstanding[id] == ss[i].outstanding[id] && id < ss[j].nextId
  {
    hide ReportStep, AllowStep;
    if i < j {
      assert ss[j] == Next(cfg, ss[j - 1], es[j - 1]);
      NeverReissued(cfg, ss, es, i, j - 1);
      OutSince(cfg, ss, es, i, j - 1, id);
    }
  }

  lemma {:induction false} NeverReissued(cfg: Config, ss: seq<System>, es: seq<Event>, i: nat, j: nat)
    requires IsRun(cfg, ss, es) && i <= j < |ss|
    ensures ss[i].nextId <= ss[j].nextId
  {
    hide ReportStep, AllowStep;
    if i < j {
      assert ss[j] == Next(cfg, ss[j - 1], es[j - 1]);
      NeverReissued(cfg, ss, es, i, j - 1);
    }
  }

  /** From the start of a half-open epoch the breaker can close without any probe report exactly when at least as
      many requests admitted while it was closed are still out as successes are needed. */
  lemma PlainCloseExactly(cfg: Config, s: System)
    requires Fresh(cfg, s)
    ensures (exists ss, es :: PlainClose(cfg, s, ss, es)) <==> |Plain(s)| >= SuccessesNeeded(cfg)
  {
    if |Plain(s)| >= SuccessesNeeded(cfg) {
      var ss, es := PlainCloseRun(cfg, s);
    } else {
      forall ss, es | IsRun(cfg, ss, es) && ss[0] == s
        ensures !PlainClose(cfg, s, ss, es)
      {
        if PlainClose(cfg, s, ss, es) {
          ClosingStep(cfg, ss, es);
          assert false;
        }
      }
    }
  }

  lemma ClosingStep(cfg: Config, ss: seq<System>, es: seq<Event>)
    requires |ss| > 0 && Fresh(cfg, ss[0]) && PlainClose(cfg, ss[0], ss, es)
    ensures |Plain(ss[0])| >= SuccessesNeeded(cfg)
  {
    hide TotalOk, TotalFail, Trips, Recorded;
    var k := |es| - 1;
    PlainSpent(cfg, ss, es, k);
    assert ss[k + 1] == Next(cfg, ss[k], es[k]);
    assert es[k].Report? && es[k].id in Plain(ss[k]);
    assert |Plain(ss[k])| > 0;
  }

  // ---- Safety over whole runs -------------------------------------------------------------------

  /** The only phase changes, and what each one needs. */
  lemma LegalTransitions(cfg: Config, s: System, e: Event)
    requires Enabled(s, e)
    ensures var s' := Next(cfg, s, e);
            Ph(s) != Ph(s') ==>
              || (Ph(s) == Closed && Ph(s') == Open && e.Report? && e.outcome == Failure)
              || (Ph(s) == Open && Ph(s') == HalfOpen && e.Allow? && e.now >= s.store.hash.openUntil.GetOr(0))
              || (Ph(s) == HalfOpen && Ph(s') == Open && e.Report? && e.outcome == Failure)
              || (Ph(s) == HalfOpen && Ph(s') == Closed && e.Report? && e.outcome == Success)
  {
  }

  /** What the gate answers: yes while closed, yes as a probe when half-open (or due to become so) with room under
      the limit, otherwise no; the phase it names is the one it leaves behind. */
  lemma AllowAnswers(cfg: Config, h: StateHash, now: nat)
    ensures var (g, d) := AllowStep(cfg, h, now);
            var due := PhaseOf(h).Open? && now >= h.openUntil.GetOr(0);
            && d.phase == PhaseOf(g) && (d.isProbe <==> d.allowed && d.phase.HalfOpen?)
            && (d.allowed <==>
                  || PhaseOf(h).Closed?
                  || (due && cfg.maxInflight > 0)
                  || (PhaseOf(h).HalfOpen? && h.inflight.GetOr(0) < cfg.maxInflight))
            && PhaseOf(g) == (if due then HalfOpen else PhaseOf(h)) && g.openUntil == h.openUntil
            && g.successes == (if due then Some(0) else h.successes)
            && g.inflight == (var before := if due then Some(0) else h.inflight;
                              if d.isProbe then Some(before.GetOr(0) + 1) else before)
            && (!d.allowed && !due ==> g == h)
  {
  }

  /** What a report announces is what it did: the phases before and after, and the reason for a change. It leaves the
      whole state hash of an opening or a close, and otherwise only counts. */
  lemma ReportAnswers(cfg: Config, s: Store, now: nat, o: Outcome, isProbe: bool)
    ensures var (s', t) := ReportStep(cfg, s, now, o, isProbe);
            && t.from == PhaseOf(s.hash) && t.to == PhaseOf(s'.hash)
            && (t.moved <==> t.from != t.to)
            && t.reason == (if t.from == t.to then NoReason
                            else if t.from.Closed? then FailureRate
                            else if t.to.Open? then HalfOpenFailure else ProbeSuccess)
            && (t.moved && t.to.Open? ==>
                  s'.hash == StateHash(Some(Open), Some(now + cfg.cooldown), Some(0), Some(0)))
            && (t.moved && t.to.Closed? ==> s'.hash == NO_HASH)
            && (!t.moved ==>
                  && s'.hash.state == s.hash.state && s'.hash.openUntil == s.hash.openUntil
                  && s'.hash.inflight == (if isProbe then Some(s.hash.inflight.GetOr(0) - 1) else s.hash.inflight)
                  && s'.hash.successes == (if t.from.HalfOpen? then Some(s.hash.successes.GetOr(0) + 1)
                                           else s.hash.successes))
  {
    hide TotalOk, TotalFail;
  }

  lemma {:induction false} ClockMonotone(cfg: Config, ss: seq<System>, es: seq<Event>, i: nat, j: nat)
    requires IsRun(cfg, ss, es) && i <= j < |es|
    ensures es[i].now <= es[j].now
  {
    if i < j {
      ClockMonotone(cfg, ss, es, i, j - 1);
      assert ss[j] == Next(cfg, ss[j - 1], es[j - 1]);
    }
  }

  /** Once the breaker opens at time t, it stays open and denies every Allow before t + cooldown, whatever
      reports arrive in between. */
  lemma {:induction false} CooldownHolds(cfg: Config, ss: seq<System>, es: seq<Event>, i: nat, j: nat)
    requires IsRun(cfg, ss, es) && i < j < |es|
    requires !Ph(ss[i]).Open? && Ph(ss[i + 1]).Open?
    requires es[j].now < es[i].now + cfg.cooldown
    ensures Ph(ss[j]).Open? && ss[j].store.hash.openUntil == Some(es[i].now + cfg.cooldown)
    ensures !Granted(cfg, ss[j], es[j])
  {
    assert ss[i + 1] == Next(cfg, ss[i], es[i]);
    if i + 1 < j {
      ClockMonotone(cfg, ss, es, j - 1, j);
      CooldownHolds(cfg, ss, es, i, j - 1);
      assert ss[j] == Next(cfg, ss[j - 1], es[j - 1]);
    }
  }

  // Step `i` opened the breaker, and it has been open ever since, up to state `k`.
  ghost predicate OpenSince(ss: seq<System>, i: nat, k: nat)
    requires i < k < |ss|
  {
    !Ph(ss[i]).Open? && forall j | i < j <= k :: Ph(ss[j]).Open?
  }

  lemma OpenStep(cfg: Config, s: System, e: Event)
    requires Enabled(s, e) && Ph(Next(cfg, s, e)).Open?
    ensures Next(cfg, s, e).store.hash.openUntil ==
            if Ph(s).Open? then s.store.hash.openUntil else Some(e.now + cfg.cooldown)
  {
    hide TotalOk, TotalFail, Recorded, Trips, BucketOf;
  }

  /** In every open state of every run the deadline is the time of the step that last opened the breaker plus the
      cooldown, whatever was reported since and however late. */
  lemma {:induction false} DeadlineExactly(cfg: Config, ss: seq<System>, es: seq<Event>, k: nat) returns (i: nat)
    requires IsRun(cfg, ss, es) && ss[0] == INITIAL && k < |ss| && Ph(ss[k]).Open?
    ensures i < k && OpenSince(ss, i, k)
    ensures ss[k].store.hash.openUntil == Some(es[i].now + cfg.cooldown)
  {
    hide Next;
    assert ss[k] == Next(cfg, ss[k - 1], es[k - 1]);
    OpenStep(cfg, ss[k - 1], es[k - 1]);
    if Ph(ss[k - 1]).Open? {
      i := DeadlineExactly(cfg, ss, es, k - 1);
    } else {
      i := k - 1;
    }
  }

  /** The gate of an open breaker: an Allow before opening time plus cooldown is denied and changes nothing; the first
      one at or after that time makes the breaker half-open and, with a positive limit, is granted as a probe. */
  lemma ReopensExactly(cfg: Config, ss: seq<System>, es: seq<Event>, i: nat, k: nat)
    requires IsRun(cfg, ss, es) && ss[0] == INITIAL && i < k < |es|
    requires OpenSince(ss, i, k) && es[k].Allow?
    ensures var due := es[k].now >= es[i].now + cfg.cooldown;
            && Ph(ss[k + 1]) == (if due then HalfOpen else Open)
            && (Granted(cfg, ss[k], es[k]) <==> due && cfg.maxInflight >= 1)
            && (!due ==> ss[k + 1].store == ss[k].store)
            && (due && cfg.maxInflight >= 1 ==>
                  ss[k + 1].outstanding == ss[k].outstanding[ss[k].nextId := Ticket(true, ss[k].epoch + 1)])
  {
    var j := DeadlineExactly(cfg, ss, es, k);
    assert Ph(ss[k]).Open? && i == j;
    assert ss[k + 1] == Next(cfg, ss[k], es[k]);
  }

  function CountReports(es: seq<Event>, lo: nat, hi: nat, o: Outcome): nat
    requires lo <= hi <= |es|
    decreases hi - lo
  {
    if lo == hi then 0
    else CountReports(es, lo, hi - 1, o) + (if es[hi - 1].Report? && es[hi - 1].outcome == o then 1 else 0)
  }

  // Step `j` entered half-open, and the breaker has been half-open ever since, up to state `k`.
  ghost predicate HalfOpenSince(ss: seq<System>, j: nat, k: nat)
    requires j < k < |ss|
  {
    !Ph(ss[j]).HalfOpen? && forall i | j < i <= k :: Ph(ss[i]).HalfOpen?
  }

  // One step inside an epoch.
  lemma HalfOpenStep(cfg: Config, s: System, e: Event)
    requires Enabled(s, e) && Ph(s).HalfOpen? && Ph(Next(cfg, s, e)).HalfOpen? && s.store.hash.successes.Some?
    ensures var gained := if e.Report? && e.outcome == Success then 1 else 0;
            && Next(cfg, s, e).store.hash.successes == Some(s.store.hash.successes.value + gained)
            && (gained == 1 ==> s.store.hash.successes.value + 1 < cfg.successesToClose)
            && (e.Report? ==> e.outcome == Success)
  {
    hide TotalOk, TotalFail, Recorded, Trips, BucketOf;
  }

  // The step that enters half-open.
  lemma EntryStep(cfg: Config, s: System, e: Event)
    requires Enabled(s, e) && !Ph(s).HalfOpen? && Ph(Next(cfg, s, e)).HalfOpen?
    ensures Next(cfg, s, e).store.hash.successes == Some(0)
  {
    hide TotalOk, TotalFail, Recorded, Trips, BucketOf;
  }

  lemma {:induction false} HalfOpenHistory(cfg: Config, ss: seq<System>, es: seq<Event>, k: nat) returns (j: nat)
    requires IsRun(cfg, ss, es) && ss[0] == INITIAL && k < |ss| && Ph(ss[k]).HalfOpen?
    ensures j < k && HalfOpenSince(ss, j, k)
    ensures ss[k].store.hash.successes == Some(CountReports(es, j + 1, k, Success))
    ensures CountReports(es, j + 1, k, Success) > 0 ==>
              CountReports(es, j + 1, k, Success) < cfg.successesToClose
    ensures CountReports(es, j + 1, k, Failure) == 0
  {
    hide Next;
    assert ss[k] == Next(cfg, ss[k - 1], es[k - 1]);
    if Ph(ss[k - 1]).HalfOpen? {
      j := HalfOpenHistory(cfg, ss, es, k - 1);
      HalfOpenStep(cfg, ss[k - 1], es[k - 1]);
    } else {
      j := k - 1;
      EntryStep(cfg, ss[k - 1], es[k - 1]);
    }
  }

  /** Every close is preceded, since the last entry into half-open, by exactly the configured number of
      success reports (at least one) and by no failure report. */
  lemma CloseNeedsSuccesses(cfg: Config, ss: seq<System>, es: seq<Event>, k: nat)
    requires IsRun(cfg, ss, es) && ss[0] == INITIAL && k < |es|
    requires !Ph(ss[k]).Closed? && Ph(ss[k + 1]).Closed?
    ensures exists j :: 0 <= j < k && HalfOpenSince(ss, j, k)
              && CountReports(es, j + 1, k + 1, Success) == SuccessesNeeded(cfg)
              && CountReports(es, j + 1, k + 1, Failure) == 0
  {
    assert ss[k + 1] == Next(cfg, ss[k], es[k]);
    LegalTransitions(cfg, ss[k], es[k]);
    var j := HalfOpenHistory(cfg, ss, es, k);
  }

  /** With the counter full and none of the outstanding requests ever reported, no later event is anything but
      a denied Allow: the provider is blocked for good. */
  lemma {:induction false} UnreportedProbesBlock(cfg: Config, ss: seq<System>, es: seq<Event>, j: nat)
    requires IsRun(cfg, ss, es) && j < |es|
    requires Ph(ss[0]).HalfOpen? && ss[0].store.hash.inflight.GetOr(0) >= cfg.maxInflight
    requires forall i | 0 <= i < |es| && es[i].Report? :: es[i].id !in ss[0].outstanding
    ensures es[j].Allow? && !Granted(cfg, ss[j], es[j])
    ensures ss[j + 1].store == ss[0].store && ss[j + 1].outstanding == ss[0].outstanding
  {
    if j > 0 {
      UnreportedProbesBlock(cfg, ss, es, j - 1);
    }
    assert Enabled(ss[j], es[j]);
    assert ss[j + 1] == Next(cfg, ss[j], es[j]);
  }

  // Some request is granted in the run, and only tickets in `live` report.
  ghost predicate Grants(cfg: Config, s: System, live: set<nat>, ss: seq<System>, es: seq<Event>) {
    && IsRun(cfg, ss, es) && ss[0] == s
    && (forall i | 0 <= i < |es| && es[i].Report? :: es[i].id in live)
    && exists j :: 0 <= j < |es| && Granted(cfg, ss[j], es[j])
  }

  // Half-open with a full counter, and nobody left to report.
  ghost predicate Blocked(cfg: Config, s: System, live: set<nat>) {
    && Ph(s).HalfOpen? && s.store.hash.inflight.GetOr(0) >= cfg.maxInflight
    && forall id | id in s.outstanding :: id !in live
  }

  function Later(a: int, b: int): nat
    requires a >= 0
  {
    if a < b then b else a
  }

  // One Allow, late enough for a cooldown to be over.
  lemma GrantNow(cfg: Config, s: System, live: set<nat>) returns (e: Event)
    requires cfg.maxInflight >= 1 && (Ph(s).HalfOpen? ==> s.store.hash.inflight.GetOr(0) < cfg.maxInflight)
    ensures e.Allow? && Enabled(s, e) && Granted(cfg, s, e)
    ensures Grants(cfg, s, live, [s, Next(cfg, s, e)], [e])
  {
    e := Allow(Later(s.clock, s.store.hash.openUntil.GetOr(0)));
    assert Granted(cfg, s, e) && Enabled(s, e);
    var ss := [s, Next(cfg, s, e)];
    assert ss[0] == s && [e][0] == e;
  }

  // A failure report reopens the breaker, and the next epoch has room.
  lemma GrantAfterReport(cfg: Config, s: System, live: set<nat>, id: nat) returns (ss: seq<System>, es: seq<Event>)
    requires cfg.maxInflight >= 1 && Ph(s).HalfOpen? && id in s.outstanding && id in live
    ensures Grants(cfg, s, live, ss, es)
  {
    var report := Report(s.clock, id, Failure);
    var t := Next(cfg, s, report);
    assert Ph(t).Open?;
    hide ReportStep, AllowStep;
    var allow := GrantNow(cfg, t, live);
    PrependRun(cfg, s, report, [t, Next(cfg, t, allow)], [allow]);
    ss, es := [s, t, Next(cfg, t, allow)], [report, allow];
    assert ss == [s] + [t, Next(cfg, t, allow)] && es == [report] + [allow];
    assert Granted(cfg, ss[1], es[1]);
  }

  lemma NoGrant(cfg: Config, s: System, live: set<nat>, ss: seq<System>, es: seq<Event>)
    requires Blocked(cfg, s, live)
    ensures !Grants(cfg, s, live, ss, es)
  {
    if IsRun(cfg, ss, es) && ss[0] == s && forall i | 0 <= i < |es| && es[i].Report? :: es[i].id in live {
      forall j | 0 <= j < |es| ensures !Granted(cfg, ss[j], es[j]) {
        UnreportedProbesBlock(cfg, ss, es, j);
      }
    }
  }

  /** With a positive limit, and only tickets of `live` ever reporting, some run grants a request unless the breaker is
      half-open with a full counter and no ticket of `live` is out; then none ever does. */
  lemma BlockedExactly(cfg: Config, s: System, live: set<nat>)
    requires cfg.maxInflight >= 1
    ensures (exists ss, es :: Grants(cfg, s, live, ss, es)) <==> !Blocked(cfg, s, live)
  {
    if Blocked(cfg, s, live) {
      forall ss, es ensures !Grants(cfg, s, live, ss, es) {
        NoGrant(cfg, s, live, ss, es);
      }
    } else if id :| Ph(s).HalfOpen? && id in s.outstanding && id in live {
      var ss, es := GrantAfterReport(cfg, s, live, id);
    } else {
      var e := GrantNow(cfg, s, live);
    }
  }

  /** With the default of one probe at a time: if the probe that starts an epoch is the only request out and
      its caller never reports, as the streaming path may do, every later Allow is denied forever. */
  lemma LoneProbeBlocks(cfg: Config, ss: seq<System>, es: seq<Event>, j: nat)
    requires IsRun(cfg, ss, es) && 0 < j < |es| && cfg.maxInflight == 1
    requires Ph(ss[0]).Open? && ss[0].outstanding == map[] && Granted(cfg, ss[0], es[0])
    requires forall i | 0 <= i < |es| && es[i].Report? :: es[i].id != ss[0].nextId
    ensures es[j].Allow? && !Granted(cfg, ss[j], es[j])
  {
    assert ss[1] == Next(cfg, ss[0], es[0]);
    var tt, fs := ss[1..], es[1..];
    forall i | 0 <= i < |fs| ensures Enabled(tt[i], fs[i]) && tt[i + 1] == Next(cfg, tt[i], fs[i]) {
      assert tt[i] == ss[i + 1] && fs[i] == es[i + 1] && tt[i + 1] == ss[i + 2];
    }
    UnreportedProbesBlock(cfg, tt, fs, j - 1);
  }

  // ---- Reachable witnesses ----------------------------------------------------------------------

  // Two requests admitted while closed; the first one's failure opens the breaker at time 0.
  lemma OpenWithOneOut(cfg: Config) returns (ss: seq<System>, es: seq<Event>)
    requires cfg == Config(60, 5, 1, 0.5, 30, 1, cfg.successesToClose)
    ensures IsRun(cfg, ss, es) && ss[0] == INITIAL
    ensures var s := ss[|es|];
            && s.store.hash == StateHash(Some(Open), Some(30), Some(0), Some(0))
            && s.clock == 0 && s.epoch == 0 && s.nextId == 2 && s.outstanding == map[1 := Ticket(false, 0)]
    ensures forall i | 0 <= i < |es| && es[i].Report? :: !ss[i].outstanding[es[i].id].probe
  {
    es := [Allow(0), Allow(0), Report(0, 0, Failure)];
    var s1 := Next(cfg, INITIAL, es[0]);
    var s2 := Next(cfg, s1, es[1]);
    assert s2.outstanding == map[0 := Ticket(false, 0), 1 := Ticket(false, 0)];
    var win := Recorded(cfg, map[], 0, Failure);
    WindowOfOne(cfg, win, 12);
    var s3 := Next(cfg, s2, es[2]);
    ss := [INITIAL, s1, s2, s3];
  }

  lemma WindowOfOne(cfg: Config, win: map<int, Bucket>, n: nat)
    requires cfg.window == 60 && cfg.bucketSize == 5 && 1 <= n
    requires win == map[0 := Bucket(0, 1, 65)]
    ensures TotalOk(cfg, win, 0, n) == 0 && TotalFail(cfg, win, 0, n) == 1
  {
    if n > 1 {
      WindowOfOne(cfg, win, n - 1);
    }
  }

  /** The side condition of OverrunExactly is met in a real run: a late failure reopens the breaker while a
      probe is out, and the next epoch starts with that probe still unreported. */
  lemma LeftoverProbeReachable(cfg: Config) returns (ss: seq<System>, es: seq<Event>)
    requires cfg == Config(60, 5, 1, 0.5, 30, 1, 3)
    ensures IsRun(cfg, ss, es) && ss[0] == INITIAL
    ensures Fresh(cfg, ss[|es|]) && EarlierProbes(ss[|es|]) != {}
  {
    ss, es := OpenWithOneOut(cfg);
    var e1, e2, e3 := Allow(30), Report(30, 1, Failure), Allow(60);
    var s1 := Next(cfg, ss[|es|], e1);
    ExtendRun(cfg, ss, es, e1);
    ss, es := ss + [s1], es + [e1];
    var s2 := Next(cfg, s1, e2);
    ExtendRun(cfg, ss, es, e2);
    ss, es := ss + [s2], es + [e2];
    var s3 := Next(cfg, s2, e3);
    ExtendRun(cfg, ss, es, e3);
    ss, es := ss + [s3], es + [e3];
    assert Accounted(cfg, INITIAL);
    ProbeAccounting(cfg, ss, es, |es|);
    assert 2 in EarlierProbes(s3);
  }

  /** The breaker can close although no probe has reported: any success that arrives while half-open counts,
      including one admitted before the breaker opened. */
  lemma CloseWithoutProbeReport(cfg: Config) returns (ss: seq<System>, es: seq<Event>)
    requires cfg == Config(60, 5, 1, 0.5, 30, 1, 1)
    ensures IsRun(cfg, ss, es) && ss[0] == INITIAL
    ensures |es| > 0 && Ph(ss[|es|]).Closed? && Ph(ss[|es| - 1]).HalfOpen?
    ensures Probes(ss[|es|].outstanding, ss[|es|].epoch) != {}
    ensures forall i | 0 <= i < |es| && es[i].Report? ::
              es[i].id in ss[i].outstanding && !ss[i].outstanding[es[i].id].probe
  {
    ss, es := OpenWithOneOut(cfg);
    var e1, e2 := Allow(30), Report(30, 1, Success);
    var s1 := Next(cfg, ss[|es|], e1);
    ExtendRun(cfg, ss, es, e1);
    ss, es := ss + [s1], es + [e1];
    var s2 := Next(cfg, s1, e2);
    ExtendRun(cfg, ss, es, e2);
    ss, es := ss + [s2], es + [e2];
    assert 2 in Probes(s2.outstanding, s2.epoch);
  }
}
