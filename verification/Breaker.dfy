/**
 The distributed circuit breaker: two scripts that Redis runs atomically on one provider's keys.

 The state hash holds four optional fields; an absent `state` reads as closed. The window is a
 family of bucket keys, each with an expiry time. `AllowStep` and `ReportStep` are the scripts as
 functions of that store, and `Circuit` runs them command by command.
 */
module Breaker {
  import opened Wrappers

  datatype Phase = Closed | Open | HalfOpen
  datatype Outcome = Success | Failure
  datatype Reason = NoReason | ProbeSuccess | HalfOpenFailure | FailureRate

  datatype RawConfig = Config(
    window: nat, bucketSize: nat, minRequests: int, threshold: real,
    cooldown: int, maxInflight: int, successesToClose: int)

  // A bucket size of zero makes the caller divide by zero before any script runs.
  type Config = c: RawConfig | c.bucketSize > 0 witness Config(60, 5, 20, 0.5, 30, 1, 3)

  datatype StateHash = StateHash(
    state: Option<Phase>, openUntil: Option<int>, inflight: Option<int>, successes: Option<int>)

  const NO_HASH := StateHash(None, None, None, None)

  datatype Bucket = Bucket(ok: nat, fail: nat, expireAt: int)
  datatype Store = Store(hash: StateHash, win: map<int, Bucket>)
  datatype Decision = Decision(allowed: bool, phase: Phase, isProbe: bool)
  datatype Transition = Transition(moved: bool, from: Phase, to: Phase, reason: Reason)

  function PhaseOf(h: StateHash): Phase {
    h.state.GetOr(Closed)
  }

  function BucketOf(cfg: Config, now: nat): nat {
    now / cfg.bucketSize * cfg.bucketSize
  }

  function WindowBuckets(cfg: Config): nat {
    cfg.window / cfg.bucketSize
  }

  // ---- Allow ----------------------------------------------------------------------------------

  function AllowStep(cfg: Config, h: StateHash, now: nat): (StateHash, Decision) {
    if PhaseOf(h).Open? && now < h.openUntil.GetOr(0) then
      (h, Decision(false, Open, false))
    else
      var g := if PhaseOf(h).Open?
               then h.(state := Some(HalfOpen), inflight := Some(0), successes := Some(0)) else h;
      var inflight := g.inflight.GetOr(0);
      if !PhaseOf(g).HalfOpen? then
        (g, Decision(true, Closed, false))
      else if inflight >= cfg.maxInflight then
        (g, Decision(false, HalfOpen, false))
      else
        (g.(inflight := Some(inflight + 1)), Decision(true, HalfOpen, true))
  }

  // ---- Report ---------------------------------------------------------------------------------

  // What a read of bucket `b` returns at time `now`: an expired key is gone.
  function LiveOk(win: map<int, Bucket>, b: int, now: nat): nat {
    if b in win && now < win[b].expireAt then win[b].ok else 0
  }

  function LiveFail(win: map<int, Bucket>, b: int, now: nat): nat {
    if b in win && now < win[b].expireAt then win[b].fail else 0
  }

  // HINCRBY on the current bucket followed by EXPIRE.
  function Recorded(cfg: Config, win: map<int, Bucket>, now: nat, o: Outcome): map<int, Bucket> {
    var b := BucketOf(cfg, now);
    win[b as int := Bucket(
          LiveOk(win, b, now) + (if o.Success? then 1 else 0),
          LiveFail(win, b, now) + (if o.Failure? then 1 else 0),
          now + cfg.window + cfg.bucketSize)]
  }

  // Totals of the `n` newest buckets.
  function TotalOk(cfg: Config, win: map<int, Bucket>, now: nat, n: nat): nat {
    if n == 0 then 0
    else TotalOk(cfg, win, now, n - 1) + LiveOk(win, BucketOf(cfg, now) - (n - 1) * cfg.bucketSize, now)
  }

  function TotalFail(cfg: Config, win: map<int, Bucket>, now: nat, n: nat): nat {
    if n == 0 then 0
    else TotalFail(cfg, win, now, n - 1) + LiveFail(win, BucketOf(cfg, now) - (n - 1) * cfg.bucketSize, now)
  }

  // With no requests at all the script compares 0/0 with the threshold, which is false.
  predicate Trips(cfg: Config, ok: nat, fail: nat) {
    ok + fail >= cfg.minRequests && ok + fail > 0 &&
    fail as real / (ok + fail) as real >= cfg.threshold
  }

  function Opened(cfg: Config, now: nat): StateHash {
    StateHash(Some(Open), Some(now + cfg.cooldown), Some(0), Some(0))
  }

  function ReportStep(cfg: Config, s: Store, now: nat, o: Outcome, isProbe: bool): (Store, Transition) {
    var phase := PhaseOf(s.hash);
    var h := if isProbe then s.hash.(inflight := Some(s.hash.inflight.GetOr(0) - 1)) else s.hash;
    var win := Recorded(cfg, s.win, now, o);
    match phase
    case HalfOpen =>
      if o.Failure? then
        (Store(Opened(cfg, now), win), Transition(true, HalfOpen, Open, HalfOpenFailure))
      else
        var successes := h.successes.GetOr(0) + 1;
        if successes >= cfg.successesToClose then
          (Store(NO_HASH, win), Transition(true, HalfOpen, Closed, ProbeSuccess))
        else
          (Store(h.(successes := Some(successes)), win), Transition(false, HalfOpen, HalfOpen, NoReason))
    case Closed =>
      var n := WindowBuckets(cfg);
      if o.Failure? && Trips(cfg, TotalOk(cfg, win, now, n), TotalFail(cfg, win, now, n)) then
        (Store(Opened(cfg, now), win), Transition(true, Closed, Open, FailureRate))
      else
        (Store(h, win), Transition(false, Closed, Closed, NoReason))
    case Open =>
      (Store(h, win), Transition(false, Open, Open, NoReason))
  }

  // ---- The scripts, command by command ----------------------------------------------------------

  /** One provider's keys in Redis. */
  class Circuit {
    var hash: StateHash
    var win: map<int, Bucket>

    function Contents(): Store
      reads this
    {
      Store(hash, win)
    }

    constructor ()
      ensures Contents() == Store(NO_HASH, map[])
    {
      hash, win := NO_HASH, map[];
    }

    method Allow(cfg: Config, now: nat) returns (d: Decision)
      modifies this`hash
      ensures (hash, d) == AllowStep(cfg, old(hash), now)
    {
      var state := PhaseOf(hash);
      var inflight := hash.inflight.GetOr(0);
      if state == Open {
        if now < hash.openUntil.GetOr(0) {
          return Decision(false, Open, false);
        }
        hash := hash.(state := Some(HalfOpen), inflight := Some(0), successes := Some(0));
        state, inflight := HalfOpen, 0;
      }
      if state == HalfOpen {
        if inflight >= cfg.maxInflight {
          return Decision(false, HalfOpen, false);
        }
        hash := hash.(inflight := Some(hash.inflight.GetOr(0) + 1));
        return Decision(true, HalfOpen, true);
      }
      return Decision(true, Closed, false);
    }

    method Report(cfg: Config, now: nat, o: Outcome, isProbe: bool) returns (t: Transition)
      modifies this
      ensures (Contents(), t) == ReportStep(cfg, old(Contents()), now, o, isProbe)
    {
      var state := PhaseOf(hash);
      if isProbe {
        hash := hash.(inflight := Some(hash.inflight.GetOr(0) - 1));
      }
      win := Recorded(cfg, win, now, o);
      if state == HalfOpen {
        if o == Success {
          hash := hash.(successes := Some(hash.successes.GetOr(0) + 1));
          if hash.successes.value >= cfg.successesToClose {
            hash := NO_HASH;
            return Transition(true, HalfOpen, Closed, ProbeSuccess);
          }
          return Transition(false, HalfOpen, HalfOpen, NoReason);
        }
        hash := StateHash(Some(Open), Some(now + cfg.cooldown), Some(0), Some(0));
        return Transition(true, HalfOpen, Open, HalfOpenFailure);
      }
      if state == Closed && o == Failure {
        var ok, fail := SumWindow(cfg, now);
        var total := ok + fail;
        if total >= cfg.minRequests && total > 0 && fail as real / total as real >= cfg.threshold {
          hash := StateHash(Some(Open), Some(now + cfg.cooldown), Some(0), Some(0));
          return Transition(true, Closed, Open, FailureRate);
        }
      }
      return Transition(false, state, state, NoReason);
    }

    method SumWindow(cfg: Config, now: nat) returns (ok: nat, fail: nat)
      ensures ok == TotalOk(cfg, win, now, WindowBuckets(cfg))
      ensures fail == TotalFail(cfg, win, now, WindowBuckets(cfg))
    {
      ok, fail := 0, 0;
      var current := BucketOf(cfg, now);
      for i := 0 to WindowBuckets(cfg)
        invariant ok == TotalOk(cfg, win, now, i)
        invariant fail == TotalFail(cfg, win, now, i)
      {
        var ts := current - i * cfg.bucketSize;
        ok := ok + LiveOk(win, ts, now);
        fail := fail + LiveFail(win, ts, now);
      }
    }
  }
}
