/**
 One benchmark round as a transition system: the main goroutine, one worker per eligible model, and the two
 buffered channels between them. Workers are numbered by their model's position in the list.
 */
module BenchmarkRunner {
  datatype Config = Config(models: nat, maxConcurrency: int)

  // Slots of the semaphore channel.
  function Slots(c: Config): nat {
    if c.maxConcurrency <= 0 then 2 else c.maxConcurrency
  }

  // Acquire(i) is about to put a token for model i, Spawn(i) to start its goroutine, Receive(k) to take the
  // (k + 1)-th completion.
  datatype Main = Acquire(i: nat) | Spawn(i: nat) | Receive(k: nat) | Returned

  datatype Worker = Absent | Started | Benchmarking | Finished | Released | Exited

  // `ran` lists the models whose benchmark completed.
  datatype State = State(main: Main, workers: seq<Worker>, sem: nat, done: nat, ran: seq<nat>)

  datatype Event = DoAcquire | DoSpawn | Begin(i: nat) | Finish(i: nat) | Release(i: nat) | Send(i: nat) | DoReceive

  function Init(c: Config): State {
    State(if c.models == 0 then Returned else Acquire(0), seq(c.models, _ => Absent), 0, 0, [])
  }

  predicate Is(s: State, i: nat, w: Worker) {
    i < |s.workers| && s.workers[i] == w
  }

  // A send blocks on a full channel, a receive on an empty one.
  predicate Enabled(c: Config, s: State, e: Event) {
    match e
    case DoAcquire => s.main.Acquire? && s.sem < Slots(c)
    case DoSpawn => s.main.Spawn? && s.main.i < |s.workers|
    case Begin(i) => Is(s, i, Started)
    case Finish(i) => Is(s, i, Benchmarking)
    case Release(i) => Is(s, i, Finished) && s.sem > 0
    case Send(i) => Is(s, i, Released) && s.done < c.models
    case DoReceive => s.main.Receive? && s.done > 0
  }

  function Next(c: Config, s: State, e: Event): State
    requires Enabled(c, s, e)
  {
    match e
    case DoAcquire => s.(main := Spawn(s.main.i), sem := s.sem + 1)
    case DoSpawn =>
      var i := s.main.i;
      s.(main := if i + 1 == c.models then Receive(0) else Acquire(i + 1), workers := s.workers[i := Started])
    case Begin(i) => s.(workers := s.workers[i := Benchmarking])
    case Finish(i) => s.(workers := s.workers[i := Finished], ran := s.ran + [i])
    case Release(i) => s.(workers := s.workers[i := Released], sem := s.sem - 1)
    case Send(i) => s.(workers := s.workers[i := Exited], done := s.done + 1)
    case DoReceive =>
      var k := s.main.k + 1;
      s.(main := if k == c.models then Returned else Receive(k), done := s.done - 1)
  }

  ghost predicate IsRun(c: Config, states: seq<State>, events: seq<Event>) {
    && |states| == |events| + 1
    && states[0] == Init(c)
    && forall i | 0 <= i < |events| ::
         Enabled(c, states[i], events[i]) && states[i + 1] == Next(c, states[i], events[i])
  }

  // ---- Counting workers -------------------------------------------------------------------------------

  function Weigh(ws: seq<Worker>, weight: Worker -> nat): nat {
    if ws == [] then 0 else weight(ws[0]) + Weigh(ws[1..], weight)
  }

  function Holds(w: Worker): nat {
    if w.Started? || w.Benchmarking? || w.Finished? then 1 else 0
  }

  function Runs(w: Worker): nat {
    if w.Benchmarking? then 1 else 0
  }

  function Gone(w: Worker): nat {
    if w.Exited? then 1 else 0
  }

  // Steps a worker still has to make, its spawning included.
  function Todo(w: Worker): nat {
    match w
    case Absent => 5
    case Started => 4
    case Benchmarking => 3
    case Finished => 2
    case Released => 1
    case Exited => 0
  }

  lemma {:induction false} WeighUpdate(ws: seq<Worker>, i: nat, w: Worker, weight: Worker -> nat)
    requires i < |ws|
    ensures Weigh(ws[i := w], weight) + weight(ws[i]) == Weigh(ws, weight) + weight(w)
  {
    if i == 0 {
      assert ws[i := w][1..] == ws[1..];
    } else {
      WeighUpdate(ws[1..], i - 1, w, weight);
      assert ws[i := w][1..] == ws[1..][i - 1 := w];
    }
  }

  lemma {:induction false} WeighBound(ws: seq<Worker>, light: Worker -> nat, heavy: Worker -> nat)
    requires forall w: Worker :: light(w) <= heavy(w)
    ensures Weigh(ws, light) <= Weigh(ws, heavy)
  {
    if ws != [] {
      WeighBound(ws[1..], light, heavy);
    }
  }

  lemma {:induction false} WeighConstant(ws: seq<Worker>, weight: Worker -> nat, k: nat)
    requires forall i | 0 <= i < |ws| :: weight(ws[i]) == k
    ensures Weigh(ws, weight) == k * |ws|
  {
    if ws != [] {
      WeighConstant(ws[1..], weight, k);
    }
  }

  lemma {:induction false} AllGone(ws: seq<Worker>, i: nat)
    requires i < |ws|
    ensures Weigh(ws, Gone) <= |ws| && (!ws[i].Exited? ==> Weigh(ws, Gone) < |ws|)
    decreases |ws|
  {
    if |ws| > 1 {
      AllGone(ws[1..], if i == 0 then 0 else i - 1);
    }
  }

  // ---- Invariant --------------------------------------------------------------------------------------

  // Models whose goroutine was started, completions received, tokens main holds for a worker not yet started.
  function Spawned(c: Config, s: State): nat {
    match s.main
    case Acquire(i) => i
    case Spawn(i) => i
    case _ => c.models
  }

  function Received(c: Config, s: State): nat {
    match s.main
    case Receive(k) => k
    case Returned => c.models
    case _ => 0
  }

  function Pending(s: State): nat {
    if s.main.Spawn? then 1 else 0
  }

  function RanOf(w: Worker): nat {
    if w.Finished? || w.Released? || w.Exited? then 1 else 0
  }

  // Main and the workers are where the loop over the models has them.
  ghost predicate Placed(c: Config, s: State) {
    && |s.workers| == c.models
    && (s.main.Acquire? || s.main.Spawn? ==> s.main.i < c.models)
    && (s.main.Receive? ==> s.main.k < c.models)
    && (forall i | 0 <= i < c.models :: s.workers[i].Absent? <==> i >= Spawned(c, s))
  }

  // What the two channels hold.
  ghost predicate Filled(c: Config, s: State) {
    && s.sem == Weigh(s.workers, Holds) + Pending(s) <= Slots(c)
    && s.done + Received(c, s) == Weigh(s.workers, Gone)
  }

  // Which benchmarks have completed.
  ghost predicate Recorded(c: Config, s: State)
    requires |s.workers| == c.models
  {
    && (forall i | 0 <= i < c.models :: multiset(s.ran)[i] == RanOf(s.workers[i]))
    && (forall j | 0 <= j < |s.ran| :: s.ran[j] < c.models)
  }

  ghost predicate Valid(c: Config, s: State) {
    Placed(c, s) && Filled(c, s) && Recorded(c, s)
  }

  lemma InitValid(c: Config)
    ensures Valid(c, Init(c))
  {
    WeighConstant(Init(c).workers, Holds, 0);
    WeighConstant(Init(c).workers, Gone, 0);
  }

  // The worker a step moves, with its new stage.
  function Moved(s: State, e: Event): (nat, Worker) {
    match e
    case DoSpawn => (if s.main.Spawn? then s.main.i else 0, Started)
    case Begin(i) => (i, Benchmarking)
    case Finish(i) => (i, Finished)
    case Release(i) => (i, Released)
    case Send(i) => (i, Exited)
    case _ => (0, Absent)
  }

  predicate Moves(e: Event) {
    !e.DoAcquire? && !e.DoReceive?
  }

  lemma Weights(c: Config, s: State, e: Event, weight: Worker -> nat)
    requires Enabled(c, s, e)
    ensures Moves(e) ==> Moved(s, e).0 < |s.workers|
    ensures Moves(e) ==> Weigh(Next(c, s, e).workers, weight) + weight(s.workers[Moved(s, e).0]) ==
                         Weigh(s.workers, weight) + weight(Moved(s, e).1)
    ensures !Moves(e) ==> Weigh(Next(c, s, e).workers, weight) == Weigh(s.workers, weight)
  {
    if Moves(e) {
      WeighUpdate(s.workers, Moved(s, e).0, Moved(s, e).1, weight);
    }
  }

  lemma StepPlaced(c: Config, s: State, e: Event)
    requires Placed(c, s) && Enabled(c, s, e)
    ensures Placed(c, Next(c, s, e))
  {
  }

  lemma StepFilled(c: Config, s: State, e: Event)
    requires Placed(c, s) && Filled(c, s) && Enabled(c, s, e)
    ensures Filled(c, Next(c, s, e))
  {
    hide Weigh;
    Weights(c, s, e, Holds);
    Weights(c, s, e, Gone);
  }

  lemma StepRecorded(c: Config, s: State, e: Event)
    requires Placed(c, s) && Recorded(c, s) && Enabled(c, s, e)
    ensures |Next(c, s, e).workers| == c.models && Recorded(c, Next(c, s, e))
  {
  }

  lemma StepValid(c: Config, s: State, e: Event)
    requires Valid(c, s) && Enabled(c, s, e)
    ensures Valid(c, Next(c, s, e))
  {
    hide Placed, Filled, Recorded, Next;
    StepPlaced(c, s, e);
    StepFilled(c, s, e);
    StepRecorded(c, s, e);
  }

  lemma {:induction false} AlwaysValid(c: Config, states: seq<State>, events: seq<Event>, i: nat)
    requires IsRun(c, states, events) && i < |states|
    ensures Valid(c, states[i])
  {
    if i == 0 {
      InitValid(c);
    } else {
      AlwaysValid(c, states, events, i - 1);
      StepValid(c, states[i - 1], events[i - 1]);
    }
  }

  // ---- Results ----------------------------------------------------------------------------------------

  /** On every schedule no more benchmarks are in flight than the semaphore has slots. */
  lemma ConcurrencyBound(c: Config, states: seq<State>, events: seq<Event>, i: nat)
    requires IsRun(c, states, events) && i < |states|
    ensures Weigh(states[i].workers, Runs) <= if c.maxConcurrency <= 0 then 2 else c.maxConcurrency
  {
    AlwaysValid(c, states, events, i);
    WeighBound(states[i].workers, Runs, Holds);
  }

  /** Until the round has returned, some goroutine can move: neither channel can deadlock it. */
  lemma Progress(c: Config, states: seq<State>, events: seq<Event>) returns (e: Event)
    requires IsRun(c, states, events) && !states[|events|].main.Returned?
    ensures Enabled(c, states[|events|], e)
  {
    AlwaysValid(c, states, events, |events|);
    e := Movable(c, states[|events|]);
  }

  lemma Movable(c: Config, s: State) returns (e: Event)
    requires Valid(c, s) && !s.main.Returned?
    ensures Enabled(c, s, e)
  {
    if s.main.Spawn? {
      return DoSpawn;
    }
    if w :| 0 <= w < c.models && !s.workers[w].Absent? && !s.workers[w].Exited? {
      e := WorkerMoves(c, s, w);
      return;
    }
    if s.main.Acquire? {
      assert forall w | 0 <= w < c.models :: Holds(s.workers[w]) == 0;
      WeighConstant(s.workers, Holds, 0);
      return DoAcquire;
    }
    assert forall w | 0 <= w < c.models :: Gone(s.workers[w]) == 1;
    WeighConstant(s.workers, Gone, 1);
    return DoReceive;
  }

  // A started worker is never blocked: a holder finds its own token, and the done channel has room for all.
  lemma WorkerMoves(c: Config, s: State, w: nat) returns (e: Event)
    requires Valid(c, s) && w < c.models && !s.workers[w].Absent? && !s.workers[w].Exited?
    ensures Enabled(c, s, e)
  {
    match s.workers[w]
    case Started => e := Begin(w);
    case Benchmarking => e := Finish(w);
    case Finished =>
      WeighUpdate(s.workers, w, Released, Holds);
      e := Release(w);
    case Released =>
      AllGone(s.workers, w);
      e := Send(w);
  }

  // Steps left in the whole round.
  function StepsLeft(c: Config, s: State): int {
    Weigh(s.workers, Todo) + (c.models - Spawned(c, s)) - Pending(s) + (c.models - Received(c, s))
  }

  lemma StepTakesOne(c: Config, s: State, e: Event)
    requires Valid(c, s) && Enabled(c, s, e)
    ensures StepsLeft(c, Next(c, s, e)) == StepsLeft(c, s) - 1
  {
    hide Weigh;
    Weights(c, s, e, Todo);
  }

  lemma {:induction false} StepsCounted(c: Config, states: seq<State>, events: seq<Event>, i: nat)
    requires IsRun(c, states, events) && i < |states|
    ensures StepsLeft(c, states[i]) == 7 * c.models - i
  {
    if i == 0 {
      WeighConstant(Init(c).workers, Todo, 5);
    } else {
      StepsCounted(c, states, events, i - 1);
      AlwaysValid(c, states, events, i - 1);
      StepTakesOne(c, states[i - 1], events[i - 1]);
    }
  }

  /** Every schedule terminates, and returns after exactly seven steps per model: one that has returned has taken
      them all, so no goroutine is left behind, and one that has not is shorter. */
  lemma ReturnsAfterExactly(c: Config, states: seq<State>, events: seq<Event>)
    requires IsRun(c, states, events)
    ensures |events| <= 7 * c.models
    ensures states[|events|].main.Returned? <==> |events| == 7 * c.models
  {
    StepsCounted(c, states, events, |events|);
    AlwaysValid(c, states, events, |events|);
    var s := states[|events|];
    if s.main.Returned? {
      EveryoneGone(c, s);
      WeighConstant(s.workers, Todo, 0);
    } else {
      ghost var e := Movable(c, s);
      StepTakesOne(c, s, e);
      StepValid(c, s, e);
    }
  }

  lemma EveryoneGone(c: Config, s: State)
    requires Valid(c, s) && s.main.Returned?
    ensures forall i | 0 <= i < c.models :: s.workers[i].Exited?
  {
    forall i | 0 <= i < c.models ensures s.workers[i].Exited? {
      AllGone(s.workers, i);
    }
  }

  /** When the round returns, every eligible model has been benchmarked exactly once and nothing else has, every
      goroutine is gone and both channels are empty. */
  lemma BenchmarkedOnce(c: Config, states: seq<State>, events: seq<Event>)
    requires IsRun(c, states, events) && states[|events|].main.Returned?
    ensures var s := states[|events|];
            && multiset(s.ran) == multiset(seq(c.models, i => i))
            && |s.workers| == c.models && (forall i | 0 <= i < c.models :: s.workers[i].Exited?)
            && s.sem == 0 && s.done == 0
  {
    AlwaysValid(c, states, events, |events|);
    var s := states[|events|];
    EveryoneGone(c, s);
    WeighConstant(s.workers, Holds, 0);
    WeighConstant(s.workers, Gone, 1);
    forall x: nat ensures multiset(s.ran)[x] == multiset(seq(c.models, i => i))[x] {
      OnceUpTo(c.models, x);
      assert x in multiset(s.ran) <==> x in s.ran;
    }
  }

  lemma {:induction false} OnceUpTo(n: nat, x: nat)
    ensures multiset(seq(n, i => i))[x] == if x < n then 1 else 0
  {
    if n > 0 {
      OnceUpTo(n - 1, x);
      assert seq(n, i => i) == seq(n - 1, i => i) + [n - 1];
    }
  }

  // Main when m goroutines have been started and nothing received.
  function MainAt(c: Config, m: nat): Main {
    if m < c.models then Acquire(m) else if m == 0 then Returned else Receive(0)
  }

  /** The bound is tight: every number of benchmarks up to it, and up to the number of models, is in
      flight on some schedule. */
  lemma {:induction false} PeakReached(c: Config, m: nat) returns (states: seq<State>, events: seq<Event>)
    requires m <= c.models && m <= if c.maxConcurrency <= 0 then 2 else c.maxConcurrency
    ensures IsRun(c, states, events)
    ensures states[|events|] ==
            State(MainAt(c, m), seq(c.models, i => if i < m then Benchmarking else Absent), m, 0, [])
  {
    if m == 0 {
      states, events := [Init(c)], [];
      assert seq<Worker>(c.models, _ => Absent) == seq<Worker>(c.models, i => if i < m then Benchmarking else Absent);
    } else {
      states, events := PeakReached(c, m - 1);
      var more := [DoAcquire, DoSpawn, Begin(m - 1)];
      var s0 := states[|events|];
      var s1 := Next(c, s0, DoAcquire);
      var s2 := Next(c, s1, DoSpawn);
      var s3 := Next(c, s2, Begin(m - 1));
      assert s3.workers == seq<Worker>(c.models, i => if i < m then Benchmarking else Absent);
      states, events := states + [s1, s2, s3], events + more;
    }
  }
}
