/**
 From routed candidates to upstream calls: hook and budget stages narrow the list, then the fallback
 loop tries the candidates in order behind the circuit breaker.

 Everything the loop learns from outside is a parameter: which models and providers exist, what the
 breaker answers on attempt `i`, and how the upstream replies. The loop's actions are recorded as a
 trace of breaker calls and upstream calls.
 */
module FallbackLoop {
  import opened Wrappers

  // ---- Narrowing ----------------------------------------------------------------------------------

  datatype Decision = Allow | Warn | Redact | Block | AllowPII | Failed

  // A hook's decision with what AllowPII needs: the configured model, when enabled.
  datatype Narrowed = Rejected | Candidates(models: seq<string>)

  function AfterHooks(routed: seq<string>, hooks: seq<Decision>, pii: Option<string>, known: string -> bool): Narrowed {
    if hooks == [] then Candidates(routed)
    else
      var n := AfterHooks(routed, hooks[..|hooks| - 1], pii, known);
      if n.Rejected? then Rejected
      else match hooks[|hooks| - 1]
           case Block => Rejected
           case Failed => Rejected
           case AllowPII => if pii.None? || !known(pii.value) then Rejected else Candidates([pii.value])
           case _ => n
  }

  method RunHooks(routed: seq<string>, hooks: seq<Decision>, pii: Option<string>, known: string -> bool)
    returns (n: Narrowed)
    ensures n == AfterHooks(routed, hooks, pii, known)
  {
    var candidates := routed;
    for i := 0 to |hooks|
      invariant Candidates(candidates) == AfterHooks(routed, hooks[..i], pii, known)
    {
      assert hooks[..i + 1][..i] == hooks[..i];
      assert AfterHooks(routed, hooks[..i + 1], pii, known).Rejected? ==>
               AfterHooks(routed, hooks, pii, known).Rejected? by {
        if AfterHooks(routed, hooks[..i + 1], pii, known).Rejected? {
          RejectionSticks(routed, hooks, pii, known, i + 1, |hooks|);
          assert hooks[..|hooks|] == hooks;
        }
      }
      match hooks[i]
      case Block => return Rejected;
      case Failed => return Rejected;
      case AllowPII =>
        if pii.None? || !known(pii.value) {
          return Rejected;
        }
        candidates := [pii.value];
      case _ =>
    }
    assert hooks[..|hooks|] == hooks;
    n := Candidates(candidates);
  }

  lemma {:induction false} RejectionSticks(routed: seq<string>, hooks: seq<Decision>, pii: Option<string>,
                                           known: string -> bool, i: nat, j: nat)
    requires i <= j <= |hooks| && AfterHooks(routed, hooks[..i], pii, known).Rejected?
    ensures AfterHooks(routed, hooks[..j], pii, known).Rejected?
    decreases j
  {
    if i < j {
      RejectionSticks(routed, hooks, pii, known, i, j - 1);
      assert hooks[..j][..j - 1] == hooks[..j - 1];
    }
  }

  // A hook answer that ends the request.
  predicate Rejects(d: Decision, pii: Option<string>, known: string -> bool) {
    d.Block? || d.Failed? || (d.AllowPII? && (pii.None? || !known(pii.value)))
  }

  /** The request is rejected exactly when some hook blocks it, fails, or asks for a PII reroute that is not
      configured or names an unknown model. */
  lemma {:induction false} RejectedExactly(routed: seq<string>, hooks: seq<Decision>, pii: Option<string>,
                                           known: string -> bool)
    ensures AfterHooks(routed, hooks, pii, known).Rejected? <==>
            exists i :: 0 <= i < |hooks| && Rejects(hooks[i], pii, known)
  {
    if hooks != [] {
      var n := |hooks| - 1;
      RejectedExactly(routed, hooks[..n], pii, known);
      assert forall i | 0 <= i < n :: hooks[..n][i] == hooks[i];
    }
  }

  // The budget degrade filter: the candidates inside the group, unless there are none.
  function InGroup(cands: seq<string>, group: seq<string>): seq<string> {
    if cands == [] then []
    else InGroup(cands[..|cands| - 1], group) + if cands[|cands| - 1] in group then [cands[|cands| - 1]] else []
  }

  function Degrade(cands: seq<string>, group: Option<seq<string>>): seq<string> {
    if group.None? || group.value == [] || InGroup(cands, group.value) == [] then cands
    else InGroup(cands, group.value)
  }

  method DegradeFilter(cands: seq<string>, group: Option<seq<string>>) returns (r: seq<string>)
    ensures r == Degrade(cands, group)
  {
    if group.None? || |group.value| == 0 {
      return cands;
    }
    var allowed := set m | m in group.value;
    r := [];
    for i := 0 to |cands|
      invariant r == InGroup(cands[..i], group.value)
    {
      assert cands[..i + 1][..i] == cands[..i];
      if cands[i] in allowed {
        r := r + [cands[i]];
      }
    }
    assert cands[..|cands|] == cands;
    if |r| == 0 {
      r := cands;
    }
  }

  // `index` picks positions of `whole`, in increasing order.
  ghost predicate Picks(part: seq<string>, whole: seq<string>, index: seq<nat>) {
    && |index| == |part|
    && (forall i | 0 <= i < |part| :: index[i] < |whole| && whole[index[i]] == part[i])
    && (forall i, j | 0 <= i < j < |index| :: index[i] < index[j])
  }

  lemma {:induction false} InGroupPicks(cands: seq<string>, group: seq<string>) returns (index: seq<nat>)
    ensures Picks(InGroup(cands, group), cands, index)
    ensures forall i | 0 <= i < |InGroup(cands, group)| :: InGroup(cands, group)[i] in group
  {
    if cands == [] {
      return [];
    }
    var n := |cands| - 1;
    index := InGroupPicks(cands[..n], group);
    assert cands == cands[..n] + [cands[n]];
    if cands[n] in group {
      index := index + [n];
    }
  }

  lemma {:induction false} InGroupMember(cands: seq<string>, group: seq<string>, c: string)
    ensures c in InGroup(cands, group) <==> c in cands && c in group
  {
    if cands != [] {
      var n := |cands| - 1;
      InGroupMember(cands[..n], group, c);
      assert cands == cands[..n] + [cands[n]];
    }
  }

  /** When some candidate is in the group, only and all of those in the group remain; otherwise the list is
      unchanged. */
  lemma DegradeExactly(cands: seq<string>, group: seq<string>, c: string)
    ensures (exists e :: e in cands && e in group) ==>
              (c in Degrade(cands, Some(group)) <==> c in cands && c in group)
    ensures !(exists e :: e in cands && e in group) ==> Degrade(cands, Some(group)) == cands
  {
    var d := InGroup(cands, group);
    InGroupMember(cands, group, c);
    if e :| e in cands && e in group {
      InGroupMember(cands, group, e);
      hide InGroup;
      assert d != [] && group != [];
    } else {
      hide InGroup;
      if d != [] {
        InGroupMember(cands, group, d[0]);
        assert false;
      }
    }
  }

  /** Degrading keeps the order of the candidates. */
  lemma DegradeOrder(cands: seq<string>, group: Option<seq<string>>) returns (index: seq<nat>)
    ensures Picks(Degrade(cands, group), cands, index)
  {
    hide InGroup;
    index := seq(|cands|, i => i);
    if group.Some? && Degrade(cands, group) == InGroup(cands, group.value) {
      index := InGroupPicks(cands, group.value);
    }
  }

  lemma {:induction false} HooksPII(routed: seq<string>, hooks: seq<Decision>, pii: Option<string>,
                                    known: string -> bool)
    requires AllowPII in hooks && AfterHooks(routed, hooks, pii, known).Candidates?
    ensures pii.Some? && AfterHooks(routed, hooks, pii, known).models == [pii.value]
    decreases |hooks|
  {
    var n := |hooks| - 1;
    if hooks[n] != AllowPII {
      assert AllowPII in hooks[..n] by {
        assert hooks == hooks[..n] + [hooks[n]];
      }
      HooksPII(routed, hooks[..n], pii, known);
    }
  }

  lemma DegradeOne(x: string, group: Option<seq<string>>)
    ensures Degrade([x], group) == [x]
  {
    if group.Some? {
      assert [x][..0] == [];
      assert InGroup([], group.value) == [];
    }
  }

  /** Once a hook answers AllowPII and the request goes on, only the PII model is left, and the degrade filter
      does not change that. */
  lemma PIISticks(routed: seq<string>, hooks: seq<Decision>, pii: Option<string>, known: string -> bool,
                  group: Option<seq<string>>)
    requires AllowPII in hooks && AfterHooks(routed, hooks, pii, known).Candidates?
    ensures pii.Some? && Degrade(AfterHooks(routed, hooks, pii, known).models, group) == [pii.value]
  {
    HooksPII(routed, hooks, pii, known);
    DegradeOne(pii.value, group);
  }

  function Limit(candidates: nat, enabled: bool, maxAttempts: int): nat {
    if enabled && maxAttempts > 0 then (if maxAttempts < candidates then maxAttempts else candidates)
    else if !enabled then 1
    else candidates
  }

  // ---- The loop -------------------------------------------------------------------------------------

  datatype ErrorType = Timeout | RateLimited | Upstream5xx | Network | Auth | InvalidRequest | Unknown

  predicate IsCBFailure(e: ErrorType) {
    !(e.RateLimited? || e.Auth? || e.InvalidRequest?)
  }

  predicate IsRetryable(e: ErrorType) {
    !(e.Auth? || e.InvalidRequest?)
  }

  datatype Reply = Ok | NotSupported | Error(kind: ErrorType)

  // `providerModelID` is blank or a trimmed identifier.
  datatype Model = Model(provider: string, enabled: bool, mock: bool, providerModelID: string)

  datatype Env = Env(
    resolve: string -> Option<Model>,
    providerKnown: string -> bool,
    needsModelID: string -> bool,     // providers that reject a blank provider model id
    chatProvider: Model -> bool,
    breaker: nat -> (bool, bool),     // granted and probe flag, by attempt
    upstream: nat -> Reply)

  datatype Action =
    | Asked(key: string, granted: bool, probe: bool)
    | Called(index: nat, model: string, sentID: string, reply: Reply)
    | Reported(key: string, failure: bool, probe: bool)

  // What the breaker should hear about a reply.
  predicate CountsAsFailure(r: Reply) {
    match r
    case Ok => false
    case NotSupported => true
    case Error(kind) => kind.Timeout? || kind.Upstream5xx? || kind.Network? || kind.Unknown?
  }

  // A granted Asked is owed a Reported with its key and probe flag and the outcome of the call in between.
  datatype Debt = Debt(key: string, probe: bool, reply: Option<Reply>)

  // What is still owed, and how many debts were dropped or reports were wrong.
  datatype Ledger = Ledger(owed: Option<Debt>, dropped: nat)

  function Enter(l: Ledger, a: Action): Ledger {
    match a
    case Asked(key, granted, probe) =>
      if !granted then l
      else Ledger(Some(Debt(key, probe, None)), l.dropped + if l.owed.Some? then 1 else 0)
    case Called(_, _, _, reply) =>
      if l.owed.Some? then l.(owed := Some(l.owed.value.(reply := Some(reply)))) else l
    case Reported(key, failure, probe) =>
      if l.owed.Some? && l.owed.value.reply.Some? && l.owed.value.key == key && l.owed.value.probe == probe &&
         failure == CountsAsFailure(l.owed.value.reply.value)
      then l.(owed := None) else l.(dropped := l.dropped + 1)
  }

  function Balance(trace: seq<Action>): Ledger {
    if trace == [] then Ledger(None, 0) else Enter(Balance(trace[..|trace| - 1]), trace[|trace| - 1])
  }

  // Granted calls that were never matched by a report of the same key and probe flag and the right outcome.
  function Unmatched(trace: seq<Action>): nat {
    var l := Balance(trace);
    l.dropped + if l.owed.Some? then 1 else 0
  }

  // Replies after which the streaming path reports nothing.
  predicate Unreported(r: Reply) {
    r.NotSupported? || (r.Error? && (r.kind.RateLimited? || r.kind.Auth? || r.kind.InvalidRequest?))
  }

  function CountUnreported(trace: seq<Action>): nat {
    if trace == [] then 0
    else CountUnreported(trace[..|trace| - 1]) +
         if trace[|trace| - 1].Called? && Unreported(trace[|trace| - 1].reply) then 1 else 0
  }

  // The provider model id the request carries at attempt `i`: the last non-blank one set so far.
  function Prepared(env: Env, plan: seq<string>, i: nat): Option<Model>
    requires i < |plan|
  {
    match env.resolve(plan[i])
    case None => None
    case Some(m) =>
      if m.mock || (env.providerKnown(m.provider) && env.chatProvider(m)) then Some(m) else None
  }

  function Carried(env: Env, plan: seq<string>, i: nat): string
    requires i <= |plan|
  {
    if i == 0 then ""
    else var m := Prepared(env, plan, i - 1);
         if m.Some? && m.value.providerModelID != "" then m.value.providerModelID else Carried(env, plan, i - 1)
  }

  // Every upstream call is to the planned model at its index, with the carried id, and gets its reply; indices only
  // grow.
  ghost predicate Follows(env: Env, plan: seq<string>, limit: nat, trace: seq<Action>) {
    && (forall t | 0 <= t < |trace| && trace[t].Called? ::
          var i := trace[t].index;
          && i < limit && i < |plan| && trace[t].model == plan[i] && trace[t].sentID == Carried(env, plan, i + 1)
          && trace[t].reply == env.upstream(i))
    && (forall t, u | 0 <= t < u < |trace| && trace[t].Called? && trace[u].Called? :: trace[t].index < trace[u].index)
  }

  ghost predicate Before(trace: seq<Action>, i: nat) {
    forall t | 0 <= t < |trace| && trace[t].Called? :: trace[t].index < i
  }

  lemma LedgerSnoc(trace: seq<Action>, a: Action)
    ensures Balance(trace + [a]) == Enter(Balance(trace), a)
    ensures CountUnreported(trace + [a]) == CountUnreported(trace) + if a.Called? && Unreported(a.reply) then 1 else 0
  {
    assert (trace + [a])[..|trace|] == trace;
  }

  // One attempt's actions: ask, call, and the report if there is one.
  lemma CallLedger(trace: seq<Action>, key: string, probe: bool, call: Action, report: Option<bool>)
    requires call.Called? && (report.Some? ==> report.value == CountsAsFailure(call.reply))
    ensures var t := trace + [Asked(key, true, probe)] + [call] +
                     (if report.Some? then [Reported(key, report.value, probe)] else []);
            && Unmatched(t) == Unmatched(trace) + (if report.None? then 1 else 0)
            && CountUnreported(t) == CountUnreported(trace) + (if Unreported(call.reply) then 1 else 0)
  {
    var t1 := trace + [Asked(key, true, probe)];
    LedgerSnoc(trace, Asked(key, true, probe));
    LedgerSnoc(t1, call);
    if report.Some? {
      LedgerSnoc(t1 + [call], Reported(key, report.value, probe));
    } else {
      assert t1 + [call] + [] == t1 + [call];
    }
  }

  // What attempt `i` does, and whether the loop returns after it.
  function AttemptActions(env: Env, tenant: string, plan: seq<string>, stream: bool, i: nat): seq<Action>
    requires i < |plan|
  {
    match env.resolve(plan[i])
    case None => []
    case Some(m) =>
      if !m.enabled || Prepared(env, plan, i).None? || (env.needsModelID(m.provider) && m.providerModelID == "") then []
      else
        var (key, (granted, probe)) := (m.provider + ":" + tenant, env.breaker(i));
        if !granted then [Asked(key, false, probe)]
        else
          var reply := env.upstream(i);
          var report := ReportFor(stream, reply);
          [Asked(key, true, probe)] + [Called(i, plan[i], Carried(env, plan, i + 1), reply)] +
          (if report.Some? then [Reported(key, report.value, probe)] else [])
  }

  predicate Halts(env: Env, plan: seq<string>, stream: bool, i: nat)
    requires i < |plan|
  {
    match env.resolve(plan[i])
    case None => false
    case Some(m) =>
      || !m.enabled
      || (Prepared(env, plan, i).Some? &&
          if env.needsModelID(m.provider) && m.providerModelID == "" then true
          else env.breaker(i).0 && Stops(stream, env.upstream(i)))
  }

  // The attempts from `i` on.
  function TraceFrom(env: Env, tenant: string, plan: seq<string>, limit: nat, stream: bool, i: nat): seq<Action>
    decreases |plan| - i
  {
    if i >= limit || i >= |plan| then []
    else AttemptActions(env, tenant, plan, stream, i) +
         if Halts(env, plan, stream, i) then [] else TraceFrom(env, tenant, plan, limit, stream, i + 1)
  }

  lemma EmptyTrace(env: Env, plan: seq<string>, limit: nat)
    ensures Follows(env, plan, limit, []) && Before([], 0) && Unmatched([]) == CountUnreported([]) == 0
  {
  }

  lemma Later(trace: seq<Action>, i: nat)
    requires Before(trace, i)
    ensures Before(trace, i + 1)
  {
  }

  lemma Resume(done: seq<Action>, now: seq<Action>, rest: seq<Action>)
    ensures done + (now + rest) == (done + now) + rest
    ensures done + [] == done
  {
  }

  lemma Denied(trace: seq<Action>, key: string, probe: bool)
    ensures var t := trace + [Asked(key, false, probe)];
            Unmatched(t) == Unmatched(trace) && CountUnreported(t) == CountUnreported(trace)
  {
    LedgerSnoc(trace, Asked(key, false, probe));
  }

  // Adding actions of attempt `i`, of which only a call is constrained.
  lemma {:induction false} FollowsSnoc(env: Env, plan: seq<string>, limit: nat, trace: seq<Action>, i: nat, a: Action)
    requires Follows(env, plan, limit, trace) && Before(trace, i) && i < limit && i < |plan|
    requires a.Called? ==> a == Called(i, plan[i], Carried(env, plan, i + 1), env.upstream(i))
    ensures Follows(env, plan, limit, trace + [a]) && Before(trace + [a], i + 1)
    ensures !a.Called? ==> Before(trace + [a], i)
  {
    hide Carried;
  }

  lemma {:induction false} CallFollows(env: Env, plan: seq<string>, limit: nat, trace: seq<Action>, i: nat,
                                       ask: Action, call: Action, report: Option<Action>)
    requires Follows(env, plan, limit, trace) && Before(trace, i) && i < limit && i < |plan|
    requires ask.Asked? && (report.Some? ==> report.value.Reported?)
    requires call == Called(i, plan[i], Carried(env, plan, i + 1), env.upstream(i))
    ensures var t := trace + [ask] + [call] + (if report.Some? then [report.value] else []);
            Follows(env, plan, limit, t) && Before(t, i + 1)
  {
    FollowsSnoc(env, plan, limit, trace, i, ask);
    FollowsSnoc(env, plan, limit, trace + [ask], i, call);
    hide Follows, Carried;
    var t := trace + [ask] + [call];
    if report.Some? {
      ReportFollows(env, plan, limit, t, i + 1, report.value);
    } else {
      assert t + [] == t;
    }
  }

  lemma ReportFollows(env: Env, plan: seq<string>, limit: nat, trace: seq<Action>, i: nat, a: Action)
    requires Follows(env, plan, limit, trace) && Before(trace, i) && !a.Called?
    ensures Follows(env, plan, limit, trace + [a]) && Before(trace + [a], i)
  {
    hide Carried;
  }

  // Attempt `i` keeps both properties of the trace so far.
  lemma AttemptSound(env: Env, tenant: string, plan: seq<string>, limit: nat, stream: bool, i: nat, done: seq<Action>)
    requires i < limit && i < |plan| && Follows(env, plan, limit, done) && Before(done, i)
    requires Unmatched(done) == if stream then CountUnreported(done) else 0
    ensures var t := done + AttemptActions(env, tenant, plan, stream, i);
            && Follows(env, plan, limit, t) && Before(t, i + 1)
            && Unmatched(t) == if stream then CountUnreported(t) else 0
  {
    hide Follows, Before, Unmatched, CountUnreported, Carried;
    var actions := AttemptActions(env, tenant, plan, stream, i);
    Later(done, i);
    if actions == [] {
      assert done + [] == done;
    } else {
      var key, probe := actions[0].key, actions[0].probe;
      if !actions[0].granted {
        Denied(done, key, probe);
        ReportFollows(env, plan, limit, done, i + 1, actions[0]);
      } else {
        var call := actions[1];
        var report := ReportFor(stream, env.upstream(i));
        CallLedger(done, key, probe, call, report);
        CallFollows(env, plan, limit, done, i, actions[0], call,
                    if report.Some? then Some(Reported(key, report.value, probe)) else None);
        assert done + actions == done + [actions[0]] + [call] +
               (if report.Some? then [Reported(key, report.value, probe)] else []);
      }
    }
  }

  lemma {:induction false} TraceSound(env: Env, tenant: string, plan: seq<string>, limit: nat, stream: bool, i: nat,
                                      done: seq<Action>)
    requires Follows(env, plan, limit, done) && Before(done, i)
    requires Unmatched(done) == if stream then CountUnreported(done) else 0
    ensures var t := done + TraceFrom(env, tenant, plan, limit, stream, i);
            Follows(env, plan, limit, t) && Unmatched(t) == if stream then CountUnreported(t) else 0
    decreases |plan| - i
  {
    hide Follows, Before, Unmatched, CountUnreported, AttemptActions, Halts;
    if i >= limit || i >= |plan| {
      assert done + [] == done;
    } else {
      var actions := AttemptActions(env, tenant, plan, stream, i);
      AttemptSound(env, tenant, plan, limit, stream, i, done);
      var rest := if Halts(env, plan, stream, i) then [] else TraceFrom(env, tenant, plan, limit, stream, i + 1);
      Resume(done, actions, rest);
      if Halts(env, plan, stream, i) {
        Resume(done + actions, [], []);
      } else {
        TraceSound(env, tenant, plan, limit, stream, i + 1, done + actions);
      }
    }
  }

  // Each call comes right after the Asked that granted it, under the called model's key; and right before its
  // Reported, with the same key and probe flag and the call's outcome, except on the two streaming exits.
  ghost predicate CallPaired(env: Env, tenant: string, stream: bool, trace: seq<Action>, t: nat)
    requires t < |trace| && trace[t].Called?
  {
    && t > 0 && trace[t - 1].Asked? && trace[t - 1].granted && trace[t - 1].probe == env.breaker(trace[t].index).1
    && env.resolve(trace[t].model).Some?
    && trace[t - 1].key == env.resolve(trace[t].model).value.provider + ":" + tenant
    && if stream && Unreported(trace[t].reply) then t + 1 == |trace| || !trace[t + 1].Reported?
       else t + 1 < |trace| &&
            trace[t + 1] == Reported(trace[t - 1].key, CountsAsFailure(trace[t].reply), trace[t - 1].probe)
  }

  ghost predicate Paired(env: Env, tenant: string, stream: bool, trace: seq<Action>) {
    && (forall t | 0 <= t < |trace| && trace[t].Called? :: CallPaired(env, tenant, stream, trace, t))
    && (forall t | 0 <= t < |trace| && trace[t].Asked? && trace[t].granted :: t + 1 < |trace| && trace[t + 1].Called?)
    && (forall t | 0 <= t < |trace| && trace[t].Reported? :: t > 0 && trace[t - 1].Called?)
  }

  lemma AttemptPaired(env: Env, tenant: string, plan: seq<string>, stream: bool, i: nat)
    requires i < |plan|
    ensures Paired(env, tenant, stream, AttemptActions(env, tenant, plan, stream, i))
  {
    hide Carried;
  }

  lemma PairedAppend(env: Env, tenant: string, stream: bool, now: seq<Action>, rest: seq<Action>)
    requires Paired(env, tenant, stream, now) && Paired(env, tenant, stream, rest)
    ensures Paired(env, tenant, stream, now + rest)
  {
    var all := now + rest;
    forall t | 0 <= t < |all| && all[t].Called? ensures CallPaired(env, tenant, stream, all, t) {
      if t < |now| {
        assert CallPaired(env, tenant, stream, now, t);
      } else {
        assert CallPaired(env, tenant, stream, rest, t - |now|);
      }
    }
    forall t | 0 <= t < |all| && all[t].Asked? && all[t].granted ensures t + 1 < |all| && all[t + 1].Called? {
      if t >= |now| {
        assert rest[t - |now|].Asked?;
      } else {
        assert now[t].Asked?;
      }
    }
    forall t | 0 <= t < |all| && all[t].Reported? ensures t > 0 && all[t - 1].Called? {
      if t >= |now| {
        assert rest[t - |now|].Reported?;
      } else {
        assert now[t].Reported?;
      }
    }
  }

  lemma {:induction false} TracePaired(env: Env, tenant: string, plan: seq<string>, limit: nat, stream: bool, i: nat)
    ensures Paired(env, tenant, stream, TraceFrom(env, tenant, plan, limit, stream, i))
    decreases |plan| - i
  {
    if i < limit && i < |plan| {
      hide AttemptActions, Halts, Paired;
      AttemptPaired(env, tenant, plan, stream, i);
      TracePaired(env, tenant, plan, limit, stream, i + 1);
      NothingPaired(env, tenant, stream);
      var rest := if Halts(env, plan, stream, i) then [] else TraceFrom(env, tenant, plan, limit, stream, i + 1);
      PairedAppend(env, tenant, stream, AttemptActions(env, tenant, plan, stream, i), rest);
    }
  }

  lemma NothingPaired(env: Env, tenant: string, stream: bool)
    ensures Paired(env, tenant, stream, [])
  {
  }

  /** Every upstream call is to the planned candidate at a strictly growing index below the limit. Each granted Allow
      is followed by its call, and each call by its one report with the same key and probe flag and the call's
      outcome, except, with streaming, a call that ended in "streaming not supported" or in an error that does not
      count as a breaker failure: those calls, and no others, stay unmatched. */
  lemma LoopPairing(env: Env, tenant: string, plan: seq<string>, limit: nat, stream: bool)
    ensures var t := TraceFrom(env, tenant, plan, limit, stream, 0);
            && Follows(env, plan, limit, t) && Paired(env, tenant, stream, t)
            && Unmatched(t) == if stream then CountUnreported(t) else 0
  {
    EmptyTrace(env, plan, limit);
    TraceSound(env, tenant, plan, limit, stream, 0, []);
    TracePaired(env, tenant, plan, limit, stream, 0);
    hide TraceFrom, Follows, Paired, Unmatched, CountUnreported;
    var t := TraceFrom(env, tenant, plan, limit, stream, 0);
    assert [] + t == t;
  }

  // ---- Witnesses ------------------------------------------------------------------------------------

  // Models a and b of one provider, of which only a has a provider model id; every Allow is granted.
  function Sample(first: Reply, probe: bool): Env {
    Env(
      name => Some(Model("acme", true, false, if name == "a" then "a-2024" else "")),
      _ => true, _ => false, _ => true, _ => (true, probe), i => if i == 0 then first else Ok)
  }

  /** A streamed request to a provider without streaming takes a probe and never reports it. */
  lemma UnreportedProbe(tenant: string)
    ensures var t := TraceFrom(Sample(NotSupported, true), tenant, ["a"], 1, true, 0);
            && t == [Asked("acme" + ":" + tenant, true, true), Called(0, "a", "a-2024", NotSupported)]
            && Unmatched(t) == 1
  {
    var env := Sample(NotSupported, true);
    var ask, call := Asked("acme" + ":" + tenant, true, true), Called(0, "a", "a-2024", NotSupported);
    assert Carried(env, ["a"], 1) == "a-2024";
    assert TraceFrom(env, tenant, ["a"], 1, true, 0) == [ask, call];
    CallLedger([], ask.key, true, call, None);
    EmptyTrace(env, ["a"], 1);
    hide Unmatched;
    assert [] + [ask] + [call] + [] == [ask, call];
  }

  // One failing call without streaming.
  lemma ReportedFailure(tenant: string)
    ensures TraceFrom(Sample(Error(Upstream5xx), false), tenant, ["a"], 1, false, 0) ==
            [Asked("acme" + ":" + tenant, true, false), Called(0, "a", "a-2024", Error(Upstream5xx)),
             Reported("acme" + ":" + tenant, true, false)]
  {
    var env := Sample(Error(Upstream5xx), false);
    assert Carried(env, ["a"], 1) == "a-2024";
    assert TraceFrom(env, tenant, ["a"], 1, false, 1) == [];
  }

  /** After a timeout on a, the request for b still carries a's provider model id. */
  lemma ForeignID(tenant: string)
    ensures var t := TraceFrom(Sample(Error(Timeout), false), tenant, ["a", "b"], 2, false, 0);
            && |t| == 6 && t[4] == Called(1, "b", "a-2024", Ok)
            && Sample(Error(Timeout), false).resolve("b").value.providerModelID == ""
  {
    var env, plan := Sample(Error(Timeout), false), ["a", "b"];
    assert Carried(env, plan, 1) == "a-2024" && Carried(env, plan, 2) == "a-2024";
    assert TraceFrom(env, tenant, plan, 2, false, 2) == [];
    assert |AttemptActions(env, tenant, plan, false, 0)| == 3;
    assert TraceFrom(env, tenant, plan, 2, false, 1) == AttemptActions(env, tenant, plan, false, 1);
  }

  // One iteration of the loop: its actions, the provider model id now in the request, and whether it returns.
  method Attempt(env: Env, tenant: string, plan: seq<string>, stream: bool, i: nat, carried: string)
    returns (actions: seq<Action>, sentID: string, halt: bool)
    requires i < |plan| && carried == Carried(env, plan, i)
    ensures actions == AttemptActions(env, tenant, plan, stream, i) && halt == Halts(env, plan, stream, i)
    ensures !halt ==> sentID == Carried(env, plan, i + 1)
  {
    actions, sentID, halt := [], carried, false;
    var found := env.resolve(plan[i]);
    if found.None? {
      return;
    }
    var model := found.value;
    if !model.enabled {
      halt := true;
      return;
    }
    if !model.mock && (!env.providerKnown(model.provider) || !env.chatProvider(model)) {
      return;
    }
    if model.providerModelID != "" {
      sentID := model.providerModelID;
    }
    if env.needsModelID(model.provider) && model.providerModelID == "" {
      halt := true;
      return;
    }
    var key := model.provider + ":" + tenant;
    var (granted, probe) := env.breaker(i);
    if !granted {
      actions := [Asked(key, false, probe)];
      return;
    }
    var reply := env.upstream(i);
    var report := ReportFor(stream, reply);
    actions := [Asked(key, true, probe)] + [Called(i, plan[i], sentID, reply)] +
               (if report.Some? then [Reported(key, report.value, probe)] else []);
    halt := Stops(stream, reply);
  }

  /** The fallback loop. */
  method Attempts(env: Env, tenant: string, plan: seq<string>, limit: nat, stream: bool) returns (trace: seq<Action>)
    ensures trace == TraceFrom(env, tenant, plan, limit, stream, 0)
    ensures Follows(env, plan, limit, trace) && Paired(env, tenant, stream, trace)
    ensures Unmatched(trace) == if stream then CountUnreported(trace) else 0
  {
    hide Paired, Follows, Unmatched, CountUnreported, AttemptActions, Halts;
    LoopPairing(env, tenant, plan, limit, stream);
    ghost var all := TraceFrom(env, tenant, plan, limit, stream, 0);
    trace := [];
    assert [] + all == all;
    var sentID := "";
    var attempt := 0;
    while attempt < limit && attempt < |plan|
      invariant attempt <= |plan|
      invariant sentID == Carried(env, plan, attempt)
      invariant trace + TraceFrom(env, tenant, plan, limit, stream, attempt) == all
      decreases |plan| - attempt
    {
      var actions, id, halt := Attempt(env, tenant, plan, stream, attempt, sentID);
      ghost var rest := if halt then [] else TraceFrom(env, tenant, plan, limit, stream, attempt + 1);
      Resume(trace, actions, rest);
      trace := trace + actions;
      Resume(trace, [], []);
      if halt {
        return;
      }
      sentID := id;
      attempt := attempt + 1;
    }
    Resume(trace, [], []);
  }

  // The failure flag reported to the breaker, or nothing.
  function ReportFor(stream: bool, r: Reply): (report: Option<bool>)
    ensures report.None? <==> stream && Unreported(r)
    ensures report.Some? ==> report.value == CountsAsFailure(r)
  {
    match r
    case Ok => Some(false)
    case NotSupported => if stream then None else Some(true)
    case Error(kind) =>
      if stream && !IsCBFailure(kind) then None else Some(IsCBFailure(kind))
  }

  // Whether the loop returns after this reply instead of trying the next candidate.
  predicate Stops(stream: bool, r: Reply) {
    match r
    case Ok => true
    case NotSupported => stream
    case Error(kind) => !IsRetryable(kind)
  }

  /** The whole path: hooks, budget, degrade filter, limit, semantic cache, loop. `blocked` is the budget's answer
      and `cached` whether the semantic cache had a response; either ends the request before any upstream call. */
  method Orchestrate(env: Env, tenant: string, routed: seq<string>, hooks: seq<Decision>, pii: Option<string>,
                     blocked: bool, group: Option<seq<string>>, fallback: bool, maxAttempts: int, cached: bool,
                     stream: bool) returns (trace: seq<Action>)
    ensures var n := AfterHooks(routed, hooks, pii, m => env.resolve(m).Some?);
            if n.Rejected? || blocked || cached then trace == []
            else var plan := Degrade(n.models, group);
                 var limit := Limit(|plan|, fallback, maxAttempts);
                 && trace == TraceFrom(env, tenant, plan, limit, stream, 0)
                 && Follows(env, plan, limit, trace) && Paired(env, tenant, stream, trace)
                 && Unmatched(trace) == if stream then CountUnreported(trace) else 0
    ensures AllowPII in hooks ==> forall t | 0 <= t < |trace| && trace[t].Called? :: pii == Some(trace[t].model)
    ensures !fallback ==> |CalledModels(trace)| <= 1
    ensures fallback && maxAttempts > 0 ==> |CalledModels(trace)| <= maxAttempts
  {
    hide Paired;
    trace := [];
    var n := RunHooks(routed, hooks, pii, m => env.resolve(m).Some?);
    if n.Rejected? || blocked {
      return;
    }
    var plan := DegradeFilter(n.models, group);
    var limit := Limit(|plan|, fallback, maxAttempts);
    if cached {
      return;
    }
    trace := Attempts(env, tenant, plan, limit, stream);
    ghost var index := CallsPick(env, plan, limit, trace, limit);
    if AllowPII in hooks {
      PIISticks(routed, hooks, pii, m => env.resolve(m).Some?, group);
    }
  }

  // ---- Counting and the carried id -----------------------------------------------------------------------

  // The models called upstream, in order, and their places in the plan.
  function CalledModels(trace: seq<Action>): seq<string> {
    if trace == [] then []
    else CalledModels(trace[..|trace| - 1]) + if trace[|trace| - 1].Called? then [trace[|trace| - 1].model] else []
  }

  // A trace without its last action, and what that action adds if it is a call.
  lemma FollowsInit(env: Env, plan: seq<string>, limit: nat, trace: seq<Action>, bound: nat)
    requires trace != [] && Follows(env, plan, limit, trace) && Before(trace, bound)
    ensures var init, last := trace[..|trace| - 1], trace[|trace| - 1];
            && Follows(env, plan, limit, init) && Before(init, bound)
            && (last.Called? ==> last.index < bound && last.index < |plan| && last.model == plan[last.index]
                                 && Before(init, last.index))
  {
    hide Carried;
    var init := trace[..|trace| - 1];
    assert forall t | 0 <= t < |init| :: init[t] == trace[t];
  }

  lemma PicksSnoc(part: seq<string>, whole: seq<string>, index: seq<nat>, p: nat)
    requires Picks(part, whole, index) && p < |whole| && forall k | 0 <= k < |index| :: index[k] < p
    ensures Picks(part + [whole[p]], whole, index + [p])
  {
  }

  /** The models called are candidates of the plan, in its order and each place at most once, and no more than the
      attempt limit of them. */
  lemma {:induction false} CallsPick(env: Env, plan: seq<string>, limit: nat, trace: seq<Action>, bound: nat)
    returns (index: seq<nat>)
    requires Follows(env, plan, limit, trace) && Before(trace, bound)
    ensures Picks(CalledModels(trace), plan, index) && forall k | 0 <= k < |index| :: index[k] < bound
    ensures |index| <= bound
  {
    index := [];
    if trace != [] {
      hide Follows, Before, Picks;
      var init, last := trace[..|trace| - 1], trace[|trace| - 1];
      FollowsInit(env, plan, limit, trace, bound);
      if last.Called? {
        index := CallsPick(env, plan, limit, init, last.index);
        PicksSnoc(CalledModels(init), plan, index, last.index);
        index := index + [last.index];
      } else {
        index := CallsPick(env, plan, limit, init, bound);
        assert CalledModels(init) + [] == CalledModels(init);
      }
    }
  }

  lemma PicksCompose(a: seq<string>, b: seq<string>, c: seq<string>, i: seq<nat>, j: seq<nat>) returns (k: seq<nat>)
    requires Picks(a, b, i) && Picks(b, c, j)
    ensures Picks(a, c, k)
  {
    k := seq(|i|, n requires 0 <= n < |i| => j[i[n]]);
  }

  lemma {:induction false} HooksNoPII(routed: seq<string>, hooks: seq<Decision>, pii: Option<string>,
                                      known: string -> bool)
    requires AllowPII !in hooks && AfterHooks(routed, hooks, pii, known).Candidates?
    ensures AfterHooks(routed, hooks, pii, known).models == routed
    decreases |hooks|
  {
    if hooks != [] {
      var n := |hooks| - 1;
      assert hooks[n] in hooks && hooks == hooks[..n] + [hooks[n]];
      HooksNoPII(routed, hooks[..n], pii, known);
    }
  }

  /** Without a PII reroute the models called are, in order, at most `limit` of the routed candidates, and all in
      the degrade group whenever some routed candidate is in it. */
  lemma Narrowing(env: Env, tenant: string, routed: seq<string>, hooks: seq<Decision>, pii: Option<string>,
                  known: string -> bool, group: Option<seq<string>>, limit: nat, stream: bool) returns (index: seq<nat>)
    requires AllowPII !in hooks && AfterHooks(routed, hooks, pii, known).Candidates?
    ensures var plan := Degrade(AfterHooks(routed, hooks, pii, known).models, group);
            var called := CalledModels(TraceFrom(env, tenant, plan, limit, stream, 0));
            && Picks(called, routed, index) && |called| <= limit
            && (group.Some? && (exists e :: e in routed && e in group.value) ==>
                  forall i | 0 <= i < |called| :: called[i] in group.value)
  {
    hide TraceFrom, CalledModels, Degrade;
    HooksNoPII(routed, hooks, pii, known);
    var plan := Degrade(routed, group);
    var trace := TraceFrom(env, tenant, plan, limit, stream, 0);
    LoopPairing(env, tenant, plan, limit, stream);
    var inPlan := CallsPick(env, plan, limit, trace, limit);
    var inRouted := DegradeOrder(routed, group);
    index := PicksCompose(CalledModels(trace), plan, routed, inPlan, inRouted);
    if group.Some? {
      forall i | 0 <= i < |CalledModels(trace)|
        ensures (exists e :: e in routed && e in group.value) ==> CalledModels(trace)[i] in group.value
      {
        DegradeExactly(routed, group.value, CalledModels(trace)[i]);
        assert plan[inPlan[i]] in plan;
      }
    }
  }

  // A reply after which the next candidate may be tried.
  predicate MayRetry(stream: bool, r: Reply) {
    match r
    case Ok => false
    case NotSupported => !stream
    case Error(kind) => kind.Timeout? || kind.RateLimited? || kind.Upstream5xx? || kind.Network? || kind.Unknown?
  }

  ghost predicate RetriedOnly(stream: bool, trace: seq<Action>) {
    forall t, u | 0 <= t < u < |trace| && trace[t].Called? && trace[u].Called? :: MayRetry(stream, trace[t].reply)
  }

  lemma AttemptCalls(env: Env, tenant: string, plan: seq<string>, stream: bool, i: nat)
    requires i < |plan|
    ensures var now := AttemptActions(env, tenant, plan, stream, i);
            && (forall t | 0 <= t < |now| && now[t].Called? :: t == 1)
            && (!Halts(env, plan, stream, i) ==>
                  forall t | 0 <= t < |now| && now[t].Called? :: MayRetry(stream, now[t].reply))
  {
    hide Carried;
  }

  lemma RetriedAppend(stream: bool, now: seq<Action>, rest: seq<Action>)
    requires forall t | 0 <= t < |now| && now[t].Called? :: t == 1
    requires rest != [] ==> forall t | 0 <= t < |now| && now[t].Called? :: MayRetry(stream, now[t].reply)
    requires RetriedOnly(stream, rest)
    ensures RetriedOnly(stream, now + rest)
  {
    var all := now + rest;
    forall t, u | 0 <= t < u < |all| && all[t].Called? && all[u].Called? ensures MayRetry(stream, all[t].reply) {
      if t < |now| {
        assert all[t] == now[t] && u >= |now|;
      } else {
        assert all[t] == rest[t - |now|] && all[u] == rest[u - |now|];
      }
    }
  }

  /** The loop goes on to another upstream call only after a retryable error, or an unsupported call without
      streaming; so a success, or an error that no other candidate could cure, is always the last call. */
  lemma {:induction false} LastCallDecides(env: Env, tenant: string, plan: seq<string>, limit: nat, stream: bool,
                                           i: nat)
    ensures RetriedOnly(stream, TraceFrom(env, tenant, plan, limit, stream, i))
    decreases |plan| - i
  {
    hide AttemptActions, Halts;
    if i < limit && i < |plan| {
      AttemptCalls(env, tenant, plan, stream, i);
      LastCallDecides(env, tenant, plan, limit, stream, i + 1);
      var rest := if Halts(env, plan, stream, i) then [] else TraceFrom(env, tenant, plan, limit, stream, i + 1);
      RetriedAppend(stream, AttemptActions(env, tenant, plan, stream, i), rest);
    }
  }

  // What stands between a known model and its upstream call.
  predicate HasProvider(env: Env, m: Model) {
    m.mock || (env.providerKnown(m.provider) && env.chatProvider(m))
  }

  predicate HasID(env: Env, m: Model) {
    m.providerModelID != "" || !env.needsModelID(m.provider)
  }

  // The candidate gets as far as the breaker.
  predicate Usable(env: Env, plan: seq<string>, i: nat)
    requires i < |plan|
  {
    match env.resolve(plan[i])
    case None => false
    case Some(m) => m.enabled && HasProvider(env, m) && HasID(env, m)
  }

  // The candidate does not end the loop: it is unknown, or has no provider, or is denied, or its reply may be retried.
  predicate GoesOn(env: Env, plan: seq<string>, stream: bool, i: nat)
    requires i < |plan|
  {
    match env.resolve(plan[i])
    case None => true
    case Some(m) =>
      m.enabled &&
      (!HasProvider(env, m) || (HasID(env, m) && (!env.breaker(i).0 || MayRetry(stream, env.upstream(i)))))
  }

  lemma HaltsExactly(env: Env, plan: seq<string>, stream: bool, i: nat)
    requires i < |plan|
    ensures Halts(env, plan, stream, i) <==> !GoesOn(env, plan, stream, i)
  {
  }

  ghost predicate CalledAt(trace: seq<Action>, i: nat) {
    exists t :: 0 <= t < |trace| && trace[t].Called? && trace[t].index == i
  }

  lemma CalledAtAppend(a: seq<Action>, b: seq<Action>, i: nat)
    ensures CalledAt(a + b, i) <==> CalledAt(a, i) || CalledAt(b, i)
  {
    if t :| 0 <= t < |a| && a[t].Called? && a[t].index == i {
      assert (a + b)[t] == a[t];
    }
    if t :| 0 <= t < |b| && b[t].Called? && b[t].index == i {
      assert (a + b)[|a| + t] == b[t];
    }
  }

  lemma AttemptCalledAt(env: Env, tenant: string, plan: seq<string>, stream: bool, i: nat, k: nat)
    requires i < |plan|
    ensures CalledAt(AttemptActions(env, tenant, plan, stream, i), k) <==>
            k == i && Usable(env, plan, i) && env.breaker(i).0
  {
    hide Carried;
    var actions := AttemptActions(env, tenant, plan, stream, i);
    if Usable(env, plan, i) && env.breaker(i).0 {
      assert actions[1].Called? && actions[1].index == i;
    }
  }

  /** Nothing is skipped: a candidate below the limit is called exactly when it is usable, the breaker lets it
      through, and every earlier candidate was unknown, without a provider, denied, or answered with a reply that may
      be retried. */
  lemma {:induction false} CalledExactly(env: Env, tenant: string, plan: seq<string>, limit: nat, stream: bool,
                                         i: nat, k: nat)
    requires i <= k < |plan| && k < limit
    ensures CalledAt(TraceFrom(env, tenant, plan, limit, stream, i), k) <==>
            Usable(env, plan, k) && env.breaker(k).0 && forall j | i <= j < k :: GoesOn(env, plan, stream, j)
    decreases |plan| - i
  {
    hide AttemptActions, Halts, GoesOn, Usable, CalledAt;
    HaltsExactly(env, plan, stream, i);
    var actions := AttemptActions(env, tenant, plan, stream, i);
    var rest := if Halts(env, plan, stream, i) then [] else TraceFrom(env, tenant, plan, limit, stream, i + 1);
    CalledAtAppend(actions, rest, k);
    AttemptCalledAt(env, tenant, plan, stream, i, k);
    NotCalledHere(k);
    if i < k {
      CalledExactly(env, tenant, plan, limit, stream, i + 1, k);
    } else {
      LaterCalls(env, tenant, plan, limit, stream, i + 1, k);
    }
  }

  lemma NotCalledHere(k: nat)
    ensures !CalledAt([], k)
  {
  }

  lemma {:induction false} LaterCalls(env: Env, tenant: string, plan: seq<string>, limit: nat, stream: bool, i: nat,
                                      k: nat)
    requires k < i
    ensures !CalledAt(TraceFrom(env, tenant, plan, limit, stream, i), k)
    decreases |plan| - i
  {
    hide AttemptActions, Halts, CalledAt;
    NotCalledHere(k);
    if i < limit && i < |plan| {
      var rest := if Halts(env, plan, stream, i) then [] else TraceFrom(env, tenant, plan, limit, stream, i + 1);
      CalledAtAppend(AttemptActions(env, tenant, plan, stream, i), rest, k);
      AttemptCalledAt(env, tenant, plan, stream, i, k);
      LaterCalls(env, tenant, plan, limit, stream, i + 1, k);
    }
  }

  /** Which candidates are called under the tenant's fallback setting: only the first without fallback, the first
      `maxAttempts` with a positive maximum, and otherwise all; as far as the loop goes on to them. */
  lemma TriedExactly(env: Env, tenant: string, plan: seq<string>, fallback: bool, maxAttempts: int, stream: bool,
                     k: nat)
    requires k < |plan|
    ensures CalledAt(TraceFrom(env, tenant, plan, Limit(|plan|, fallback, maxAttempts), stream, 0), k) <==>
            && (if !fallback then k == 0 else maxAttempts <= 0 || k < maxAttempts)
            && Usable(env, plan, k) && env.breaker(k).0 && forall j | 0 <= j < k :: GoesOn(env, plan, stream, j)
  {
    hide TraceFrom, Usable, GoesOn;
    var limit := Limit(|plan|, fallback, maxAttempts);
    if k < limit {
      CalledExactly(env, tenant, plan, limit, stream, 0, k);
    } else {
      LoopPairing(env, tenant, plan, limit, stream);
    }
  }

  // What the loop asks the breaker, in order.
  function Questions(trace: seq<Action>): seq<Action> {
    if trace == [] then []
    else (if trace[0].Asked? then [trace[0]] else []) + Questions(trace[1..])
  }

  // The question for each usable candidate, as far as the loop goes on.
  function Expected(env: Env, tenant: string, plan: seq<string>, limit: nat, stream: bool, i: nat): seq<Action>
    decreases |plan| - i
  {
    if i >= limit || i >= |plan| then []
    else
      (if Usable(env, plan, i)
       then [Asked(env.resolve(plan[i]).value.provider + ":" + tenant, env.breaker(i).0, env.breaker(i).1)] else []) +
      if GoesOn(env, plan, stream, i) then Expected(env, tenant, plan, limit, stream, i + 1) else []
  }

  lemma {:induction false} QuestionsAppend(a: seq<Action>, b: seq<Action>)
    ensures Questions(a + b) == Questions(a) + Questions(b)
    decreases |a|
  {
    if a == [] {
      assert a + b == b;
    } else {
      QuestionsAppend(a[1..], b);
      assert (a + b)[0] == a[0] && (a + b)[1..] == a[1..] + b;
    }
  }

  lemma AttemptQuestions(env: Env, tenant: string, plan: seq<string>, stream: bool, i: nat)
    requires i < |plan|
    ensures Questions(AttemptActions(env, tenant, plan, stream, i)) ==
            if Usable(env, plan, i)
            then [Asked(env.resolve(plan[i]).value.provider + ":" + tenant, env.breaker(i).0, env.breaker(i).1)] else []
  {
    hide Carried;
    var actions := AttemptActions(env, tenant, plan, stream, i);
    if |actions| >= 2 {
      assert actions == [actions[0]] + actions[1..];
      QuestionsAppend([actions[0]], actions[1..]);
      assert actions[1..] == [actions[1]] + actions[2..];
      QuestionsAppend([actions[1]], actions[2..]);
      assert |actions| > 2 ==> actions[2..] == [actions[2]];
    }
  }

  /** The breaker is asked for each usable candidate the loop gets to, in order, under the key of its provider and
      tenant, and the answers recorded are the ones it gave; nothing else is asked. */
  lemma {:induction false} AskedExactly(env: Env, tenant: string, plan: seq<string>, limit: nat, stream: bool, i: nat)
    ensures Questions(TraceFrom(env, tenant, plan, limit, stream, i)) == Expected(env, tenant, plan, limit, stream, i)
    decreases |plan| - i
  {
    hide AttemptActions, Halts, GoesOn, Usable;
    if i < limit && i < |plan| {
      HaltsExactly(env, plan, stream, i);
      AttemptQuestions(env, tenant, plan, stream, i);
      AskedExactly(env, tenant, plan, limit, stream, i + 1);
      var rest := if Halts(env, plan, stream, i) then [] else TraceFrom(env, tenant, plan, limit, stream, i + 1);
      QuestionsAppend(AttemptActions(env, tenant, plan, stream, i), rest);
    }
  }

  // Candidate `j` puts a provider model id into the request.
  predicate SetsID(env: Env, plan: seq<string>, j: nat)
    requires j < |plan|
  {
    match env.resolve(plan[j])
    case None => false
    case Some(m) => HasProvider(env, m) && m.providerModelID != ""
  }

  lemma CarriedStep(env: Env, plan: seq<string>, i: nat)
    requires i < |plan|
    ensures Carried(env, plan, i + 1) ==
            if SetsID(env, plan, i) then env.resolve(plan[i]).value.providerModelID else Carried(env, plan, i)
    ensures SetsID(env, plan, i) ==> env.resolve(plan[i]).value.providerModelID != ""
  {
  }

  lemma {:induction false} CarriedBlank(env: Env, plan: seq<string>, i: nat)
    requires i <= |plan|
    ensures Carried(env, plan, i) == "" <==> forall j | 0 <= j < i :: !SetsID(env, plan, j)
  {
    if i > 0 {
      CarriedStep(env, plan, i - 1);
      CarriedBlank(env, plan, i - 1);
      hide Carried, SetsID;
      assert SetsID(env, plan, i - 1) ==> !forall j | 0 <= j < i :: !SetsID(env, plan, j);
    }
  }

  /** The id a request carries is that of the last candidate so far that set one. */
  lemma {:induction false} CarriedExactly(env: Env, plan: seq<string>, i: nat, j: nat)
    requires j < i <= |plan| && SetsID(env, plan, j) && forall k | j < k < i :: !SetsID(env, plan, k)
    ensures Carried(env, plan, i) == env.resolve(plan[j]).value.providerModelID
  {
    CarriedStep(env, plan, i - 1);
    hide Carried, SetsID;
    if j < i - 1 {
      CarriedExactly(env, plan, i - 1, j);
    }
  }

  /** The request sent for a candidate carries that candidate's own provider model id exactly when it has one or
      no earlier candidate set one: an id is never cleared between attempts. */
  lemma OwnIDExactly(env: Env, plan: seq<string>, i: nat)
    requires i < |plan| && env.resolve(plan[i]).Some? && HasProvider(env, env.resolve(plan[i]).value)
    ensures var own := env.resolve(plan[i]).value.providerModelID;
            Carried(env, plan, i + 1) == own <==> own != "" || forall j | 0 <= j < i :: !SetsID(env, plan, j)
  {
    CarriedStep(env, plan, i);
    CarriedBlank(env, plan, i);
  }
}
