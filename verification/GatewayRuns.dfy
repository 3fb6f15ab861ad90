/**
 Requests running the fallback loop against the breaker of one provider and tenant.

 Any number of requests are in progress. Each works through the trace of its own loop; an Asked action on the
 breaker's key is an Allow step whose answer is the one in the trace, and a Reported action is a Report step of the
 ticket the request holds. What a request reports, or fails to, thus follows from its loop.
 */
module GatewayRuns {
  import opened Wrappers
  import B = Breaker
  import R = BreakerRuns
  import F = FallbackLoop

  datatype Request = Request(env: F.Env, tenant: string, plan: seq<string>, limit: nat, stream: bool)

  function Plan(r: Request): seq<F.Action> {
    F.TraceFrom(r.env, r.tenant, r.plan, r.limit, r.stream, 0)
  }

  // A request that has done the first `at` actions of its loop, and the ticket of its last granted Allow.
  datatype Progress = Progress(request: Request, at: nat, ticket: Option<nat>)

  datatype Gateway = Gateway(breaker: R.System, active: map<nat, Progress>)

  datatype Event = Arrive(id: nat, request: Request) | Act(id: nat, now: nat)

  predicate Done(p: Progress) {
    p.at >= |Plan(p.request)|
  }

  predicate Asks(key: string, p: Progress) {
    !Done(p) && Plan(p.request)[p.at].Asked? && Plan(p.request)[p.at].key == key
  }

  predicate Reports(key: string, p: Progress) {
    !Done(p) && Plan(p.request)[p.at].Reported? && Plan(p.request)[p.at].key == key
  }

  // The next action is an Asked on the key to which the trace says yes.
  predicate AsksGranted(key: string, p: Progress) {
    Asks(key, p) && Plan(p.request)[p.at].granted
  }

  // The breaker gives the answer that the trace has.
  predicate Answered(cfg: B.Config, s: R.System, now: nat, a: F.Action)
    requires a.Asked?
  {
    var d := B.AllowStep(cfg, s.store.hash, now).1;
    d.allowed == a.granted && d.isProbe == a.probe
  }

  // The request holds an outstanding ticket with the probe flag it reports.
  predicate HoldsFor(s: R.System, p: Progress, probe: bool) {
    p.ticket.Some? && p.ticket.value in s.outstanding && s.outstanding[p.ticket.value].probe == probe
  }

  predicate Enabled(cfg: B.Config, key: string, g: Gateway, e: Event) {
    match e
    case Arrive(id, _) => id !in g.active
    case Act(id, now) =>
      && id in g.active && !Done(g.active[id]) && now >= g.breaker.clock
      && var p := g.active[id];
         && (Asks(key, p) ==> Answered(cfg, g.breaker, now, Plan(p.request)[p.at]))
         && (Reports(key, p) ==> HoldsFor(g.breaker, p, Plan(p.request)[p.at].probe))
  }

  function OutcomeOf(failure: bool): B.Outcome {
    if failure then B.Failure else B.Success
  }

  function Moved(g: Gateway, id: nat): Progress
    requires id in g.active
  {
    g.active[id].(at := g.active[id].at + 1)
  }

  function Next(cfg: B.Config, key: string, g: Gateway, e: Event): Gateway
    requires Enabled(cfg, key, g, e)
  {
    match e
    case Arrive(id, r) => g.(active := g.active[id := Progress(r, 0, None)])
    case Act(id, now) =>
      var p := g.active[id];
      var a := Plan(p.request)[p.at];
      if Asks(key, p) then
        var moved := if a.granted then Moved(g, id).(ticket := Some(g.breaker.nextId)) else Moved(g, id);
        Gateway(R.AfterAllow(cfg, g.breaker, now), g.active[id := moved])
      else if Reports(key, p) then
        Gateway(R.AfterReport(cfg, g.breaker, now, p.ticket.value, OutcomeOf(a.failure)),
                g.active[id := Moved(g, id).(ticket := None)])
      else
        g.(active := g.active[id := Moved(g, id)])
  }

  ghost predicate IsRun(cfg: B.Config, key: string, gs: seq<Gateway>, es: seq<Event>) {
    && |gs| == |es| + 1 && gs[0] == Gateway(R.INITIAL, map[])
    && forall i | 0 <= i < |es| :: Enabled(cfg, key, gs[i], es[i]) && gs[i + 1] == Next(cfg, key, gs[i], es[i])
  }

  // ---- Who holds which ticket -----------------------------------------------------------------------

  // The probe flag of the grant that the request is between: after its Asked on the key and before the report.
  function Owed(key: string, p: Progress): Option<bool> {
    var t, n := Plan(p.request), p.at;
    if n >= |t| then None
    else if t[n].Reported? && t[n].key == key then Some(t[n].probe)
    else if n >= 1 && t[n].Called? && t[n - 1].Asked? && t[n - 1].granted && t[n - 1].key == key
    then Some(t[n - 1].probe)
    else None
  }

  ghost predicate TicketOk(s: R.System, key: string, p: Progress) {
    && (p.ticket.Some? ==> p.ticket.value in s.outstanding)
    && (Owed(key, p).Some? ==> HoldsFor(s, p, Owed(key, p).value))
  }

  ghost predicate Apart(active: map<nat, Progress>) {
    forall i, j | i in active && j in active && i != j && active[i].ticket.Some? :: active[i].ticket != active[j].ticket
  }

  ghost predicate Held(cfg: B.Config, key: string, g: Gateway) {
    && R.Accounted(cfg, g.breaker) && Apart(g.active)
    && forall i | i in g.active :: TicketOk(g.breaker, key, g.active[i])
  }

  // How a request moves from one state of debt to the next, by the pairing of its loop's trace.
  lemma OwedNext(key: string, p: Progress)
    requires !Done(p)
    ensures var q := p.(at := p.at + 1);
            var a := Plan(p.request)[p.at];
            && (AsksGranted(key, p) ==> Owed(key, p).None? && Owed(key, q) == Some(a.probe))
            && (Asks(key, p) && !a.granted ==> Owed(key, p).None? && Owed(key, q).None?)
            && (Reports(key, p) ==> Owed(key, p) == Some(a.probe) && Owed(key, q).None?)
            && (!Asks(key, p) && !Reports(key, p) && Owed(key, q).Some? ==> Owed(key, q) == Owed(key, p))
            && (!p.request.stream && !Asks(key, p) && !Reports(key, p) ==> Owed(key, q) == Owed(key, p))
  {
    var r := p.request;
    F.TracePaired(r.env, r.tenant, r.plan, r.limit, r.stream, 0);
    var t, n := Plan(r), p.at;
    hide F.TraceFrom, Plan;
    if t[n].Called? {
      assert F.CallPaired(r.env, r.tenant, r.stream, t, n);
    }
    if n + 1 < |t| && t[n + 1].Called? {
      assert F.CallPaired(r.env, r.tenant, r.stream, t, n + 1);
    }
  }

  lemma NewTicket(cfg: B.Config, s: R.System, now: nat)
    requires R.Tickets(s)
    ensures s.nextId !in s.outstanding
    ensures var t := R.AfterAllow(cfg, s, now);
            var d := B.AllowStep(cfg, s.store.hash, now).1;
            && (forall id | id in s.outstanding :: id in t.outstanding && t.outstanding[id] == s.outstanding[id])
            && t.outstanding.Keys == s.outstanding.Keys + (if d.allowed then {s.nextId} else {})
            && (d.allowed ==> t.outstanding[s.nextId].probe == d.isProbe)
  {
    hide B.AllowStep;
  }

  // One request moves; the tickets of the others stay out.
  lemma MoveKeepsHeld(cfg: B.Config, key: string, g: Gateway, h: Gateway, id: nat)
    requires Held(cfg, key, g) && R.Accounted(cfg, h.breaker)
    requires id in h.active && h.active == g.active[id := h.active[id]]
    requires forall t | t in g.breaker.outstanding && !(id in g.active && g.active[id].ticket == Some(t)) ::
               t in h.breaker.outstanding && h.breaker.outstanding[t] == g.breaker.outstanding[t]
    requires TicketOk(h.breaker, key, h.active[id])
    requires h.active[id].ticket.Some? ==>
               || (id in g.active && h.active[id].ticket == g.active[id].ticket)
               || h.active[id].ticket.value !in g.breaker.outstanding
    ensures Held(cfg, key, h)
  {
    hide R.Accounted, Owed;
    forall j | j in h.active && j != id ensures TicketOk(h.breaker, key, h.active[j]) {
      assert TicketOk(g.breaker, key, g.active[j]);
    }
    forall i, j | i in h.active && j in h.active && i != j && h.active[i].ticket.Some?
      ensures h.active[i].ticket != h.active[j].ticket
    {
      assert i != id ==> TicketOk(g.breaker, key, g.active[i]);
      assert j != id ==> TicketOk(g.breaker, key, g.active[j]);
    }
  }

  // A step that does not touch the breaker's key.
  lemma QuietKeepsHeld(cfg: B.Config, key: string, g: Gateway, e: Event)
    requires Held(cfg, key, g) && Enabled(cfg, key, g, e)
    requires e.Act? ==> !Asks(key, g.active[e.id]) && !Reports(key, g.active[e.id])
    ensures Held(cfg, key, Next(cfg, key, g, e))
  {
    hide R.Accounted, Owed, Plan;
    if e.Act? {
      OwedNext(key, g.active[e.id]);
      assert TicketOk(g.breaker, key, g.active[e.id]);
    } else {
      FreshOwesNothing(key, e.request);
    }
    MoveKeepsHeld(cfg, key, g, Next(cfg, key, g, e), e.id);
  }

  lemma FreshOwesNothing(key: string, r: Request)
    ensures Owed(key, Progress(r, 0, None)).None?
  {
    F.TracePaired(r.env, r.tenant, r.plan, r.limit, r.stream, 0);
    hide F.TraceFrom;
  }

  lemma AskKeepsHeld(cfg: B.Config, key: string, g: Gateway, e: Event)
    requires Held(cfg, key, g) && Enabled(cfg, key, g, e) && e.Act? && Asks(key, g.active[e.id])
    ensures Held(cfg, key, Next(cfg, key, g, e))
  {
    hide Owed, Plan;
    var h := Next(cfg, key, g, e);
    assert h.breaker == R.AfterAllow(cfg, g.breaker, e.now);
    R.StepKeepsAccounts(cfg, g.breaker, R.Allow(e.now));
    NewTicket(cfg, g.breaker, e.now);
    hide R.Accounted, R.AfterAllow, B.AllowStep;
    OwedNext(key, g.active[e.id]);
    assert TicketOk(g.breaker, key, g.active[e.id]);
    TicketAside(key, Moved(g, e.id), h.active[e.id].ticket);
    MoveKeepsHeld(cfg, key, g, h, e.id);
  }

  // What is owed does not depend on the ticket.
  lemma TicketAside(key: string, p: Progress, t: Option<nat>)
    ensures Owed(key, p.(ticket := t)) == Owed(key, p)
  {
    hide Plan;
  }

  lemma ReportKeepsHeld(cfg: B.Config, key: string, g: Gateway, e: Event)
    requires Held(cfg, key, g) && Enabled(cfg, key, g, e) && e.Act? && Reports(key, g.active[e.id])
    ensures Held(cfg, key, Next(cfg, key, g, e))
  {
    hide Owed, Plan, B.ReportStep;
    var h, p := Next(cfg, key, g, e), g.active[e.id];
    var o := OutcomeOf(Plan(p.request)[p.at].failure);
    assert h.breaker == R.AfterReport(cfg, g.breaker, e.now, p.ticket.value, o);
    assert h.breaker.outstanding == g.breaker.outstanding - {p.ticket.value};
    R.StepKeepsAccounts(cfg, g.breaker, R.Report(e.now, p.ticket.value, o));
    hide R.Accounted, R.AfterReport;
    OwedNext(key, p);
    TicketAside(key, Moved(g, e.id), None);
    MoveKeepsHeld(cfg, key, g, h, e.id);
  }

  lemma {:induction false} AlwaysHeld(cfg: B.Config, key: string, gs: seq<Gateway>, es: seq<Event>, k: nat)
    requires IsRun(cfg, key, gs, es) && k < |gs|
    ensures Held(cfg, key, gs[k])
  {
    if k > 0 {
      AlwaysHeld(cfg, key, gs, es, k - 1);
      var g, e := gs[k - 1], es[k - 1];
      assert Enabled(cfg, key, g, e);
      hide Held, Next, Plan;
      if e.Act? && Asks(key, g.active[e.id]) {
        AskKeepsHeld(cfg, key, g, e);
      } else if e.Act? && Reports(key, g.active[e.id]) {
        ReportKeepsHeld(cfg, key, g, e);
      } else {
        QuietKeepsHeld(cfg, key, g, e);
      }
    }
  }

  /** Every report finds its ticket: whenever a request is about to report, it holds an outstanding ticket with the
      probe flag it passes, so no report is ever a stray one. */
  lemma ReportsFindTickets(cfg: B.Config, key: string, gs: seq<Gateway>, es: seq<Event>, k: nat, id: nat)
    requires IsRun(cfg, key, gs, es) && k < |gs| && id in gs[k].active && Reports(key, gs[k].active[id])
    ensures var p := gs[k].active[id]; HoldsFor(gs[k].breaker, p, Plan(p.request)[p.at].probe)
  {
    AlwaysHeld(cfg, key, gs, es, k);
    OwedNext(key, gs[k].active[id]);
  }

  // ---- Without streaming nothing leaks --------------------------------------------------------------

  // Every outstanding ticket belongs to a request that is still between its grant and its report.
  ghost predicate HasHolder(key: string, g: Gateway, id: nat) {
    exists i :: i in g.active && g.active[i].ticket == Some(id) && Owed(key, g.active[i]).Some?
  }

  ghost predicate NoLeak(key: string, g: Gateway) {
    && (forall i | i in g.active :: !g.active[i].request.stream)
    && (forall id | id in g.breaker.outstanding :: HasHolder(key, g, id))
  }

  // A holder other than the request that moves stays one.
  lemma HolderStays(key: string, g: Gateway, h: Gateway, id: nat, i: nat, moved: Progress)
    requires HasHolder(key, g, id) && h.active == g.active[i := moved]
    requires i in g.active && g.active[i].ticket == Some(id) && Owed(key, g.active[i]).Some? ==>
               moved.ticket == Some(id) && Owed(key, moved).Some?
    ensures HasHolder(key, h, id)
  {
    var k :| k in g.active && g.active[k].ticket == Some(id) && Owed(key, g.active[k]).Some?;
    assert k in h.active && h.active[k].ticket == Some(id) && Owed(key, h.active[k]).Some?;
  }

  lemma StepKeepsNoLeak(cfg: B.Config, key: string, g: Gateway, e: Event)
    requires Held(cfg, key, g) && NoLeak(key, g) && Enabled(cfg, key, g, e) && (e.Arrive? ==> !e.request.stream)
    ensures NoLeak(key, Next(cfg, key, g, e))
  {
    hide Owed, Plan, B.ReportStep, B.AllowStep, HasHolder;
    var h := Next(cfg, key, g, e);
    var moved := h.active[e.id];
    if e.Act? {
      var p := g.active[e.id];
      OwedNext(key, p);
      TicketAside(key, Moved(g, e.id), moved.ticket);
      if Asks(key, p) {
        assert h.breaker == R.AfterAllow(cfg, g.breaker, e.now);
        NewTicket(cfg, g.breaker, e.now);
      } else if Reports(key, p) {
        assert h.breaker.outstanding == g.breaker.outstanding - {p.ticket.value};
      }
    }
    hide R.Accounted, R.AfterAllow, R.AfterReport;
    forall id | id in h.breaker.outstanding ensures HasHolder(key, h, id) {
      if id in g.breaker.outstanding {
        HolderStays(key, g, h, id, e.id, moved);
      } else {
        NewHolder(key, h, e.id, id);
      }
    }
  }

  lemma NewHolder(key: string, h: Gateway, i: nat, id: nat)
    requires i in h.active && h.active[i].ticket == Some(id) && Owed(key, h.active[i]).Some?
    ensures HasHolder(key, h, id)
  {
  }

  lemma {:induction false} AlwaysNoLeak(cfg: B.Config, key: string, gs: seq<Gateway>, es: seq<Event>, k: nat)
    requires IsRun(cfg, key, gs, es) && k < |gs|
    requires forall i | 0 <= i < |es| && es[i].Arrive? :: !es[i].request.stream
    ensures NoLeak(key, gs[k])
  {
    if k > 0 {
      AlwaysNoLeak(cfg, key, gs, es, k - 1);
      AlwaysHeld(cfg, key, gs, es, k - 1);
      hide Held, NoLeak, Next, Enabled;
      StepKeepsNoLeak(cfg, key, gs[k - 1], es[k - 1]);
    }
  }

  lemma NoHolder(key: string, g: Gateway, id: nat)
    requires forall i | i in g.active :: Done(g.active[i])
    ensures !HasHolder(key, g, id)
  {
  }

  /** With non-streaming requests only, once all of them are done no ticket is outstanding, and the breaker is never
      stuck: with a positive probe limit it admits the next request unless its cooldown is still running. */
  lemma NeverStuck(cfg: B.Config, key: string, gs: seq<Gateway>, es: seq<Event>, now: nat)
    requires IsRun(cfg, key, gs, es)
    requires forall i | 0 <= i < |es| && es[i].Arrive? :: !es[i].request.stream
    requires forall i | i in gs[|es|].active :: Done(gs[|es|].active[i])
    ensures var s := gs[|es|].breaker;
            && s.outstanding == map[]
            && (cfg.maxInflight >= 1 ==>
                  (B.AllowStep(cfg, s.store.hash, now).1.allowed <==>
                     !(R.Ph(s).Open? && now < s.store.hash.openUntil.GetOr(0))))
  {
    var g := gs[|es|];
    AlwaysNoLeak(cfg, key, gs, es, |es|);
    AlwaysHeld(cfg, key, gs, es, |es|);
    forall id ensures id in g.breaker.outstanding ==> HasHolder(key, g, id) {
    }
    forall id ensures !HasHolder(key, g, id) {
      NoHolder(key, g, id);
    }
    hide HasHolder, Plan;
    assert g.breaker.outstanding == map[];
    assert R.Probes(g.breaker.outstanding, g.breaker.epoch) == {};
  }

  // ---- A streaming exit blocks the provider ---------------------------------------------------------

  // The counter is full and no request in progress will report.
  ghost predicate Stuck(cfg: B.Config, key: string, g: Gateway) {
    && R.Ph(g.breaker).HalfOpen? && g.breaker.store.hash.inflight.GetOr(0) >= cfg.maxInflight
    && forall i | i in g.active :: Owed(key, g.active[i]).None?
  }

  lemma StepKeepsStuck(cfg: B.Config, key: string, g: Gateway, e: Event)
    requires Stuck(cfg, key, g) && Enabled(cfg, key, g, e)
    ensures Stuck(cfg, key, Next(cfg, key, g, e))
    ensures e.Act? ==> !AsksGranted(key, g.active[e.id])
  {
    hide Owed, Plan, B.ReportStep;
    if e.Act? {
      OwedNext(key, g.active[e.id]);
    } else {
      FreshOwesNothing(key, e.request);
    }
  }

  /** Once the counter is full of probes that no request in progress will report, no request is ever granted again,
      whatever arrives later: the provider is blocked for this tenant for good. */
  lemma {:induction false} LostProbesBlock(cfg: B.Config, key: string, gs: seq<Gateway>, es: seq<Event>, i: nat, k: nat)
    requires IsRun(cfg, key, gs, es) && i <= k < |gs| && Stuck(cfg, key, gs[i])
    ensures Stuck(cfg, key, gs[k])
    ensures k < |es| && es[k].Act? ==> es[k].id in gs[k].active && !AsksGranted(key, gs[k].active[es[k].id])
  {
    hide Next, Stuck, Plan, Asks, Reports, AsksGranted, HoldsFor;
    if i < k {
      LostProbesBlock(cfg, key, gs, es, i, k - 1);
      assert Enabled(cfg, key, gs[k - 1], es[k - 1]) && gs[k] == Next(cfg, key, gs[k - 1], es[k - 1]);
      StepKeepsStuck(cfg, key, gs[k - 1], es[k - 1]);
    }
    if k < |es| {
      assert Enabled(cfg, key, gs[k], es[k]);
      StepKeepsStuck(cfg, key, gs[k], es[k]);
    }
  }

  // The request is about to call upstream, with a reply after which a stream reports nothing.
  ghost predicate AtUnreportedExit(p: Progress) {
    !Done(p) && p.request.stream && Plan(p.request)[p.at].Called? && F.Unreported(Plan(p.request)[p.at].reply)
  }

  lemma ExitOwesNothing(key: string, p: Progress)
    requires AtUnreportedExit(p)
    ensures Owed(key, p.(at := p.at + 1)).None?
  {
    var r := p.request;
    F.TracePaired(r.env, r.tenant, r.plan, r.limit, r.stream, 0);
    var t, n := Plan(r), p.at;
    hide F.TraceFrom, Plan;
    assert F.CallPaired(r.env, r.tenant, r.stream, t, n);
    forall u | 0 <= u < |t| && t[u].Called? ensures u > 0 && t[u - 1].Asked? {
      assert F.CallPaired(r.env, r.tenant, r.stream, t, u);
    }
  }

  /** A streaming request that was let through as a probe, whose ticket is the only one out and fills the counter, and
      that ends on an exit which reports nothing, blocks the provider: no request is granted after it. */
  lemma StreamingExitBlocks(cfg: B.Config, key: string, gs: seq<Gateway>, es: seq<Event>, i: nat, k: nat)
    requires IsRun(cfg, key, gs, es) && i < k < |es|
    requires es[i].Act? && es[i].id in gs[i].active && AtUnreportedExit(gs[i].active[es[i].id])
    requires Owed(key, gs[i].active[es[i].id]) == Some(true) && |gs[i].breaker.outstanding| == 1
    requires R.Ph(gs[i].breaker).HalfOpen? && gs[i].breaker.store.hash.inflight.GetOr(0) >= cfg.maxInflight
    ensures es[k].Act? ==> es[k].id in gs[k].active && !AsksGranted(key, gs[k].active[es[k].id])
    ensures R.Ph(gs[k].breaker).HalfOpen?
  {
    var g, id := gs[i], es[i].id;
    AlwaysHeld(cfg, key, gs, es, i);
    assert Enabled(cfg, key, g, es[i]) && gs[i + 1] == Next(cfg, key, g, es[i]);
    ExitStuck(cfg, key, g, es[i]);
    LostProbesBlock(cfg, key, gs, es, i + 1, k);
  }

  lemma ExitStuck(cfg: B.Config, key: string, g: Gateway, e: Event)
    requires Held(cfg, key, g) && Enabled(cfg, key, g, e) && e.Act? && AtUnreportedExit(g.active[e.id])
    requires Owed(key, g.active[e.id]).Some? && |g.breaker.outstanding| == 1
    requires R.Ph(g.breaker).HalfOpen? && g.breaker.store.hash.inflight.GetOr(0) >= cfg.maxInflight
    ensures Stuck(cfg, key, Next(cfg, key, g, e))
  {
    hide Owed, Plan, R.Accounted;
    ExitOwesNothing(key, g.active[e.id]);
    assert TicketOk(g.breaker, key, g.active[e.id]);
    OnlyHolder(cfg, key, g, e.id);
  }

  // With one ticket outstanding, nobody but its holder owes a report.
  lemma OnlyHolder(cfg: B.Config, key: string, g: Gateway, id: nat)
    requires Held(cfg, key, g) && id in g.active && g.active[id].ticket.Some? && |g.breaker.outstanding| == 1
    ensures forall j | j in g.active && j != id :: Owed(key, g.active[j]).None?
  {
    hide R.Accounted, Owed;
    var t := g.active[id].ticket.value;
    assert TicketOk(g.breaker, key, g.active[id]);
    SingleKey(g.breaker.outstanding, t);
    forall j | j in g.active && j != id ensures Owed(key, g.active[j]).None? {
      assert TicketOk(g.breaker, key, g.active[j]);
    }
  }

  lemma SingleKey(m: map<nat, R.Ticket>, t: nat)
    requires |m| == 1 && t in m
    ensures forall u | u in m :: u == t
  {
    forall u | u in m ensures u == t {
      if u != t {
        assert {t, u} <= m.Keys;
        TwoKeys(m.Keys, t, u);
        assert false;
      }
    }
  }

  lemma TwoKeys(xs: set<nat>, a: nat, b: nat)
    requires a in xs && b in xs && a != b
    ensures |xs| >= 2
  {
    assert |xs - {a}| == |xs| - 1 && b in xs - {a};
  }

  // ---- Such a request is reachable ------------------------------------------------------------------

  lemma ExtendRun(cfg: B.Config, key: string, gs: seq<Gateway>, es: seq<Event>, e: Event)
    requires IsRun(cfg, key, gs, es) && |gs| == |es| + 1 && Enabled(cfg, key, gs[|es|], e)
    ensures IsRun(cfg, key, gs + [Next(cfg, key, gs[|es|], e)], es + [e])
  {
    hide Next, Enabled;
    var gs', es' := gs + [Next(cfg, key, gs[|es|], e)], es + [e];
    forall i | 0 <= i < |es'|
      ensures Enabled(cfg, key, gs'[i], es'[i]) && gs'[i + 1] == Next(cfg, key, gs'[i], es'[i])
    {
      if i < |es| {
        assert gs'[i] == gs[i] && es'[i] == es[i] && gs'[i + 1] == gs[i + 1];
      }
    }
  }

  // Two steps of the breaker: one request let through while closed, whose failure opens it.
  lemma FailureOpens(cfg: B.Config)
    requires cfg == B.Config(60, 5, 1, 0.5, 30, 1, 3)
    ensures var d := B.AllowStep(cfg, R.INITIAL.store.hash, 0).1; d.allowed && !d.isProbe
    ensures var s := R.AfterAllow(cfg, R.INITIAL, 0);
            && s.outstanding == map[0 := R.Ticket(false, 0)] && s.clock == 0
            && var t := R.AfterReport(cfg, s, 0, 0, B.Failure);
               && t.store.hash == B.StateHash(Some(B.Open), Some(30), Some(0), Some(0))
               && t.clock == 0 && t.outstanding == map[]
  {
    R.WindowOfOne(cfg, B.Recorded(cfg, map[], 0, B.Failure), 12);
  }

  // And a third: after the cooldown the next one is let through as a probe that fills the counter.
  lemma CooldownAdmits(cfg: B.Config, s: R.System)
    requires cfg.maxInflight == 1
    requires s.store.hash == B.StateHash(Some(B.Open), Some(30), Some(0), Some(0)) && s.outstanding == map[]
    ensures var d := B.AllowStep(cfg, s.store.hash, 30).1; d.allowed && d.isProbe
    ensures var t := R.AfterAllow(cfg, s, 30);
            && R.Ph(t).HalfOpen? && t.store.hash.inflight == Some(1) && t.clock == 30
            && t.outstanding == map[s.nextId := R.Ticket(true, s.epoch + 1)]
  {
  }

  // The three kinds of action, from a request's own point of view.
  lemma AskStep(cfg: B.Config, key: string, g: Gateway, id: nat, now: nat)
    requires id in g.active && AsksGranted(key, g.active[id]) && now >= g.breaker.clock
    requires Answered(cfg, g.breaker, now, Plan(g.active[id].request)[g.active[id].at])
    ensures Enabled(cfg, key, g, Act(id, now))
    ensures Next(cfg, key, g, Act(id, now)) ==
            Gateway(R.AfterAllow(cfg, g.breaker, now),
                    g.active[id := Moved(g, id).(ticket := Some(g.breaker.nextId))])
  {
    hide Plan, R.AfterAllow, B.AllowStep;
  }

  lemma CallStep(cfg: B.Config, key: string, g: Gateway, id: nat, now: nat)
    requires id in g.active && !Done(g.active[id]) && now >= g.breaker.clock
    requires Plan(g.active[id].request)[g.active[id].at].Called?
    ensures Enabled(cfg, key, g, Act(id, now))
    ensures Next(cfg, key, g, Act(id, now)) == g.(active := g.active[id := Moved(g, id)])
  {
    hide Plan;
  }

  lemma ReportStep(cfg: B.Config, key: string, g: Gateway, id: nat, now: nat)
    requires id in g.active && Reports(key, g.active[id]) && now >= g.breaker.clock
    requires HoldsFor(g.breaker, g.active[id], Plan(g.active[id].request)[g.active[id].at].probe)
    ensures Enabled(cfg, key, g, Act(id, now))
    ensures var p := g.active[id];
            Next(cfg, key, g, Act(id, now)) ==
            Gateway(R.AfterReport(cfg, g.breaker, now, p.ticket.value, OutcomeOf(Plan(p.request)[p.at].failure)),
                    g.active[id := Moved(g, id).(ticket := None)])
  {
    hide Plan, B.ReportStep;
  }

  // A first request fails and opens the breaker.
  lemma OpenedByFailure(cfg: B.Config, key: string, r: Request) returns (gs: seq<Gateway>, es: seq<Event>)
    requires cfg == B.Config(60, 5, 1, 0.5, 30, 1, 3)
    requires |Plan(r)| == 3 && Plan(r)[1].Called?
    requires Plan(r)[0] == F.Asked(key, true, false) && Plan(r)[2] == F.Reported(key, true, false)
    ensures IsRun(cfg, key, gs, es)
    ensures var g := gs[|es|];
            && g.breaker.store.hash == B.StateHash(Some(B.Open), Some(30), Some(0), Some(0))
            && g.breaker.clock == 0 && g.breaker.outstanding == map[] && g.active.Keys == {0}
  {
    hide Plan, R.AfterAllow, R.AfterReport, B.AllowStep;
    FailureOpens(cfg);
    var s := R.AfterAllow(cfg, R.INITIAL, 0);
    var t := R.AfterReport(cfg, s, 0, 0, B.Failure);
    var e0, e1 := Arrive(0, r), Act(0, 0);
    var g0 := Gateway(R.INITIAL, map[]);
    var g1 := Gateway(R.INITIAL, map[0 := Progress(r, 0, None)]);
    var g2 := Gateway(s, map[0 := Progress(r, 1, Some(0))]);
    var g3 := Gateway(s, map[0 := Progress(r, 2, Some(0))]);
    var g4 := Gateway(t, map[0 := Progress(r, 3, None)]);
    assert Enabled(cfg, key, g0, e0) && Next(cfg, key, g0, e0) == g1;
    hide Next, Enabled;
    gs, es := [g0], [];
    assert IsRun(cfg, key, gs, es);
    ExtendRun(cfg, key, gs, es, e0);
    gs, es := gs + [g1], es + [e0];
    hide IsRun;
    AskStep(cfg, key, g1, 0, 0);
    assert Next(cfg, key, g1, e1) == g2;
    ExtendRun(cfg, key, gs, es, e1);
    gs, es := gs + [g2], es + [e1];
    CallStep(cfg, key, g2, 0, 0);
    assert Next(cfg, key, g2, e1) == g3;
    ExtendRun(cfg, key, gs, es, e1);
    gs, es := gs + [g3], es + [e1];
    ReportStep(cfg, key, g3, 0, 0);
    assert Next(cfg, key, g3, e1) == g4;
    ExtendRun(cfg, key, gs, es, e1);
    gs, es := gs + [g4], es + [e1];
  }

  /** A run from the empty gateway in which a streaming request is let through as the lone probe to a provider that
      does not stream: the situation that StreamingExitBlocks is about. */
  lemma LoneStreamReachable(cfg: B.Config, tenant: string) returns (gs: seq<Gateway>, es: seq<Event>)
    requires cfg == B.Config(60, 5, 1, 0.5, 30, 1, 3)
    ensures IsRun(cfg, "acme" + ":" + tenant, gs, es)
    ensures var g := gs[|es|];
            && 1 in g.active && AtUnreportedExit(g.active[1]) && Owed("acme" + ":" + tenant, g.active[1]) == Some(true)
            && |g.breaker.outstanding| == 1 && R.Ph(g.breaker).HalfOpen?
            && g.breaker.store.hash.inflight == Some(cfg.maxInflight)
            && Enabled(cfg, "acme" + ":" + tenant, g, Act(1, 30))
  {
    var key := "acme" + ":" + tenant;
    var r := Request(F.Sample(F.NotSupported, true), tenant, ["a"], 1, true);
    F.UnreportedProbe(tenant);
    assert Plan(r) == F.TraceFrom(F.Sample(F.NotSupported, true), tenant, ["a"], 1, true, 0);
    F.ReportedFailure(tenant);
    var first := Request(F.Sample(F.Error(F.Upstream5xx), false), tenant, ["a"], 1, false);
    gs, es := OpenedByFailure(cfg, key, first);
    var g := gs[|es|];
    hide F.TraceFrom, F.Sample, R.AfterAllow, B.AllowStep;
    CooldownAdmits(cfg, g.breaker);
    var e1 := Arrive(1, r);
    var g1 := Next(cfg, key, g, e1);
    hide Plan;
    ExtendRun(cfg, key, gs, es, e1);
    gs, es := gs + [g1], es + [e1];
    AskStep(cfg, key, g1, 1, 30);
    ExtendRun(cfg, key, gs, es, Act(1, 30));
    var g2 := Next(cfg, key, g1, Act(1, 30));
    gs, es := gs + [g2], es + [Act(1, 30)];
    assert g2.active[1] == Progress(r, 1, Some(g.breaker.nextId));
    CallStep(cfg, key, g2, 1, 30);
  }
}
