/** Fetching log entries in parallel: a producer sends the UUIDs to a pool of workers, which send
    what they fetched to a collector; a closer waits for the workers. The context may be cancelled
    at any time. The UUIDs are known by their positions in the list. */
module RekorFetch {
  import opened Wrappers
  import opened Sequences

  const DEFAULT_WORKERS := 8
  const MAX_WORKERS := 64

  /** `configured` is the environment variable: missing, no number, or a number. */
  method GetWorkerCount(configured: Option<Option<int>>) returns (workers: int)
    ensures 1 <= workers <= 64
    ensures workers == if configured.None? || configured.value.None? || configured.value.value <= 0 then 8
                       else if configured.value.value <= 64 then configured.value.value
                       else 64
  {
    if configured.Some? {
      if configured.value.Some? && configured.value.value > 0 {
        workers := configured.value.value;
        if workers > MAX_WORKERS {
          workers := MAX_WORKERS;
        }
        return workers;
      }
    }
    return DEFAULT_WORKERS;
  }

  // ----- the state -----

  datatype Worker = Waiting | Received(i: nat) | Fetched(i: nat) | Exited

  /** Both channels have room for `n` messages. `returned` says whether the error was nil. */
  datatype State = State(sent: nat, sendingDone: bool, queue: seq<nat>, workers: seq<Worker>,
                         results: seq<nat>, resultsClosed: bool, collected: seq<nat>, returned: Option<bool>,
                         cancelled: bool, dropped: seq<nat>, panicked: bool)

  function Init(workerCount: nat): State {
    State(0, false, [], seq(workerCount, _ => Waiting), [], false, [], None, false, [], false)
  }

  datatype Step = Cancel
                | Send | StopSending
                | Receive(w: nat) | Drain(w: nat) | Fetch(w: nat) | Abandon(w: nat) | Deliver(w: nat)
                | CloseResults
                | Collect | Return

  predicate AllExited(workers: seq<Worker>) {
    forall w | 0 <= w < |workers| :: workers[w].Exited?
  }

  predicate IsWorker(s: State, w: nat) {
    w < |s.workers|
  }

  predicate Enabled(n: nat, s: State, step: Step) {
    match step
    case Cancel => !s.cancelled
    case Send => !s.sendingDone && s.sent < n && |s.queue| < n
    case StopSending => !s.sendingDone && (s.sent == n || s.cancelled)
    case Receive(w) => IsWorker(s, w) && s.workers[w].Waiting? && s.queue != []
    case Drain(w) => IsWorker(s, w) && s.workers[w].Waiting? && s.queue == [] && s.sendingDone
    case Fetch(w) => IsWorker(s, w) && s.workers[w].Received? && !s.cancelled
    case Abandon(w) => IsWorker(s, w) && (s.workers[w].Received? || s.workers[w].Fetched?) && s.cancelled
    case Deliver(w) => IsWorker(s, w) && s.workers[w].Fetched? && (|s.results| < n || s.resultsClosed)
    case CloseResults => AllExited(s.workers) && !s.resultsClosed
    case Collect => s.returned.None? && s.results != []
    case Return => s.returned.None? && s.results == [] && s.resultsClosed
  }

  /** Sending on a closed channel panics. */
  function Next(n: nat, s: State, step: Step): State
    requires Enabled(n, s, step)
  {
    match step
    case Cancel => s.(cancelled := true)
    case Send => s.(sent := s.sent + 1, queue := s.queue + [s.sent])
    case StopSending => s.(sendingDone := true)
    case Receive(w) => s.(queue := s.queue[1..], workers := s.workers[w := Received(s.queue[0])])
    case Drain(w) => s.(workers := s.workers[w := Exited])
    case Fetch(w) => s.(workers := s.workers[w := Fetched(s.workers[w].i)])
    case Abandon(w) => s.(workers := s.workers[w := Exited], dropped := s.dropped + [s.workers[w].i])
    case Deliver(w) =>
      s.(workers := s.workers[w := Waiting], results := s.results + [s.workers[w].i], panicked := s.panicked || s.resultsClosed)
    case CloseResults => s.(resultsClosed := true)
    case Collect => s.(results := s.results[1..], collected := s.collected + [s.results[0]])
    case Return => s.(returned := Some(!s.cancelled))
  }

  // ----- where every UUID is -----

  function Carries(w: Worker, i: nat): nat {
    if (w.Received? || w.Fetched?) && w.i == i then 1 else 0
  }

  function InFlight(workers: seq<Worker>, i: nat): nat {
    if workers == [] then 0 else Carries(workers[0], i) + InFlight(workers[1..], i)
  }

  function Busy(w: Worker): nat {
    if w.Received? || w.Fetched? then 1 else 0
  }

  function BusyCount(workers: seq<Worker>): nat {
    if workers == [] then 0 else Busy(workers[0]) + BusyCount(workers[1..])
  }

  /** How often the UUID is queued, in flight, in a result, collected, or dropped. */
  function Places(s: State, i: nat): nat {
    multiset(s.queue)[i] + InFlight(s.workers, i) + multiset(s.results)[i] + multiset(s.collected)[i] + multiset(s.dropped)[i]
  }

  function PlacesTaken(s: State): nat {
    |s.queue| + BusyCount(s.workers) + |s.results| + |s.collected| + |s.dropped|
  }

  /** Every UUID that was sent is in exactly one place, and the others in none. */
  ghost predicate InOnePlace(s: State) {
    forall i: nat :: Places(s, i) == if i < s.sent then 1 else 0
  }

  ghost predicate AllCollected(n: nat, s: State) {
    forall i: nat :: multiset(s.collected)[i] == if i < n then 1 else 0
  }

  ghost predicate Inv(n: nat, s: State) {
    && s.workers != []
    && s.sent <= n
    && InOnePlace(s)
    && PlacesTaken(s) == s.sent
    && (s.sendingDone && !s.cancelled ==> s.sent == n)
    && (!s.cancelled ==> s.dropped == [])
    && (!s.cancelled && (exists w :: 0 <= w < |s.workers| && s.workers[w].Exited?) ==> s.sendingDone && s.queue == [])
    && (s.resultsClosed ==> AllExited(s.workers))
    && (s.returned.Some? ==> s.resultsClosed && s.results == [])
    && (s.returned == Some(true) ==> AllCollected(n, s))
    && (s.returned == Some(false) ==> s.cancelled)
    && !s.panicked
  }

  lemma {:induction false} NothingInFlight(workers: seq<Worker>, i: nat)
    requires forall w | 0 <= w < |workers| :: Busy(workers[w]) == 0
    ensures InFlight(workers, i) == 0 && BusyCount(workers) == 0
  {
    if workers != [] {
      NothingInFlight(workers[1..], i);
    }
  }

  lemma {:induction false} InFlightUpdate(workers: seq<Worker>, w: nat, x: Worker, i: nat)
    requires w < |workers|
    ensures InFlight(workers[w := x], i) + Carries(workers[w], i) == InFlight(workers, i) + Carries(x, i)
    ensures BusyCount(workers[w := x]) + Busy(workers[w]) == BusyCount(workers) + Busy(x)
  {
    if w == 0 {
      assert workers[0 := x][1..] == workers[1..];
    } else {
      InFlightUpdate(workers[1..], w - 1, x, i);
      assert workers[w := x][1..] == workers[1..][w - 1 := x];
    }
  }

  lemma InitInv(n: nat, workerCount: nat)
    requires workerCount >= 1
    ensures Inv(n, Init(workerCount))
  {
    forall i: nat {
      NothingInFlight(Init(workerCount).workers, i);
    }
    NothingInFlight(Init(workerCount).workers, 0);
  }

  ghost predicate Moves(n: nat, s: State, step: Step, i: nat)
    requires Enabled(n, s, step)
  {
    && Places(Next(n, s, step), i) == Places(s, i) + (if step == Send && i == s.sent then 1 else 0)
    && PlacesTaken(Next(n, s, step)) == PlacesTaken(s) + (if step == Send then 1 else 0)
  }

  lemma SendMoves(n: nat, s: State, i: nat)
    requires Enabled(n, s, Send)
    ensures Moves(n, s, Send, i)
  {
    ConcatMultiplicity(s.queue, [s.sent], i);
  }

  lemma ReceiveMoves(n: nat, s: State, w: nat, i: nat)
    requires Enabled(n, s, Receive(w))
    ensures Moves(n, s, Receive(w), i)
  {
    var s' := Next(n, s, Receive(w));
    assert s'.queue == s.queue[1..] && s'.workers == s.workers[w := Received(s.queue[0])];
    assert Carries(Received(s.queue[0]), i) == if s.queue[0] == i then 1 else 0;
    InFlightUpdate(s.workers, w, Received(s.queue[0]), i);
    HeadMultiplicity(s.queue, i);
  }

  lemma DrainMoves(n: nat, s: State, w: nat, i: nat)
    requires Enabled(n, s, Drain(w))
    ensures Moves(n, s, Drain(w), i)
  {
    InFlightUpdate(s.workers, w, Exited, i);
  }

  lemma FetchMoves(n: nat, s: State, w: nat, i: nat)
    requires Enabled(n, s, Fetch(w))
    ensures Moves(n, s, Fetch(w), i)
  {
    InFlightUpdate(s.workers, w, Fetched(s.workers[w].i), i);
  }

  lemma AbandonMoves(n: nat, s: State, w: nat, i: nat)
    requires Enabled(n, s, Abandon(w))
    ensures Moves(n, s, Abandon(w), i)
  {
    InFlightUpdate(s.workers, w, Exited, i);
    ConcatMultiplicity(s.dropped, [s.workers[w].i], i);
  }

  lemma DeliverMoves(n: nat, s: State, w: nat, i: nat)
    requires Enabled(n, s, Deliver(w))
    ensures Moves(n, s, Deliver(w), i)
  {
    InFlightUpdate(s.workers, w, Waiting, i);
    ConcatMultiplicity(s.results, [s.workers[w].i], i);
  }

  lemma CollectMoves(n: nat, s: State, i: nat)
    requires Enabled(n, s, Collect)
    ensures Moves(n, s, Collect, i)
  {
    HeadMultiplicity(s.results, i);
    ConcatMultiplicity(s.collected, [s.results[0]], i);
  }

  /** A UUID only moves, except that sending puts a new one in the queue. */
  lemma PlacesStep(n: nat, s: State, step: Step, i: nat)
    requires Enabled(n, s, step)
    ensures Moves(n, s, step, i)
  {
    match step {
      case Send => SendMoves(n, s, i);
      case Receive(w) => ReceiveMoves(n, s, w, i);
      case Drain(w) => DrainMoves(n, s, w, i);
      case Fetch(w) => FetchMoves(n, s, w, i);
      case Abandon(w) => AbandonMoves(n, s, w, i);
      case Deliver(w) => DeliverMoves(n, s, w, i);
      case Collect => CollectMoves(n, s, i);
      case _ =>
    }
  }

  lemma InOnePlaceStep(n: nat, s: State, step: Step)
    requires Enabled(n, s, step)
    requires InOnePlace(s) && PlacesTaken(s) == s.sent
    ensures InOnePlace(Next(n, s, step)) && PlacesTaken(Next(n, s, step)) == Next(n, s, step).sent
  {
    PlacesStep(n, s, step, 0);
    forall i: nat ensures Places(Next(n, s, step), i) == if i < Next(n, s, step).sent then 1 else 0 {
      PlacesStep(n, s, step, i);
    }
  }

  /** A nil error means that nothing was left behind. */
  lemma ReturnsAll(n: nat, s: State)
    requires Inv(n, s) && Enabled(n, s, Return) && !s.cancelled
    ensures AllCollected(n, s)
  {
    assert s.workers[0].Exited?;
    forall i: nat ensures multiset(s.collected)[i] == if i < n then 1 else 0 {
      NothingInFlight(s.workers, i);
      assert Places(s, i) == multiset(s.collected)[i];
    }
  }

  lemma NextInv(n: nat, s: State, step: Step)
    requires Inv(n, s) && Enabled(n, s, step)
    ensures Inv(n, Next(n, s, step))
  {
    InOnePlaceStep(n, s, step);
    if step == Return && !s.cancelled {
      ReturnsAll(n, s);
    }
    if !step.Drain? && !step.Abandon? {
      NobodyExits(n, s, step);
    }
  }

  lemma NobodyExits(n: nat, s: State, step: Step)
    requires Enabled(n, s, step) && !step.Drain? && !step.Abandon?
    ensures var s' := Next(n, s, step);
            |s'.workers| == |s.workers|
            && forall w | 0 <= w < |s.workers| :: s'.workers[w].Exited? <==> s.workers[w].Exited?
  {
  }

  // ----- every run comes to an end -----

  function Weight(w: Worker): nat {
    match w case Waiting => 1 case Received(_) => 5 case Fetched(_) => 4 case Exited => 0
  }

  function Weights(workers: seq<Worker>): nat {
    if workers == [] then 0 else Weight(workers[0]) + Weights(workers[1..])
  }

  /** What is left to do. */
  function Remaining(n: nat, s: State): nat
    requires s.sent <= n
  {
    6 * (n - s.sent) + 5 * |s.queue| + Weights(s.workers) + 2 * |s.results|
    + (if s.sendingDone then 0 else 1) + (if s.resultsClosed then 0 else 1)
    + (if s.returned.Some? then 0 else 1) + (if s.cancelled then 0 else 1)
  }

  lemma {:induction false} WeightsUpdate(workers: seq<Worker>, w: nat, x: Worker)
    requires w < |workers|
    ensures Weights(workers[w := x]) + Weight(workers[w]) == Weights(workers) + Weight(x)
  {
    if w == 0 {
      assert workers[0 := x][1..] == workers[1..];
    } else {
      WeightsUpdate(workers[1..], w - 1, x);
      assert workers[w := x][1..] == workers[1..][w - 1 := x];
    }
  }

  lemma WorkerRemaining(n: nat, s: State, step: Step, w: nat, x: Worker)
    requires s.sent <= n && Enabled(n, s, step)
    requires step in {Drain(w), Fetch(w), Abandon(w)} && w < |s.workers|
    requires Next(n, s, step).workers == s.workers[w := x] && Weight(x) < Weight(s.workers[w])
    ensures Remaining(n, Next(n, s, step)) < Remaining(n, s)
  {
    WeightsUpdate(s.workers, w, x);
  }

  lemma ReceiveRemaining(n: nat, s: State, w: nat)
    requires s.sent <= n && Enabled(n, s, Receive(w))
    ensures Remaining(n, Next(n, s, Receive(w))) < Remaining(n, s)
  {
    WeightsUpdate(s.workers, w, Received(s.queue[0]));
  }

  lemma DeliverRemaining(n: nat, s: State, w: nat)
    requires s.sent <= n && Enabled(n, s, Deliver(w))
    ensures Remaining(n, Next(n, s, Deliver(w))) < Remaining(n, s)
  {
    WeightsUpdate(s.workers, w, Waiting);
  }

  lemma RemainingDecreases(n: nat, s: State, step: Step)
    requires s.sent <= n && Enabled(n, s, step)
    ensures Next(n, s, step).sent <= n && Remaining(n, Next(n, s, step)) < Remaining(n, s)
  {
    match step {
      case Receive(w) => ReceiveRemaining(n, s, w);
      case Drain(w) => WorkerRemaining(n, s, step, w, Exited);
      case Fetch(w) => WorkerRemaining(n, s, step, w, Fetched(s.workers[w].i));
      case Abandon(w) => WorkerRemaining(n, s, step, w, Exited);
      case Deliver(w) => DeliverRemaining(n, s, w);
      case _ =>
    }
  }

  /** All goroutines have ended. */
  predicate Finished(s: State) {
    s.sendingDone && AllExited(s.workers) && s.resultsClosed && s.returned.Some?
  }

  lemma {:induction false} BusyIsCounted(workers: seq<Worker>, w: nat)
    requires w < |workers| && Busy(workers[w]) == 1
    ensures BusyCount(workers) >= 1
  {
    if w > 0 {
      BusyIsCounted(workers[1..], w - 1);
    }
  }

  /** Nothing ever blocks for good: until all have ended, some goroutine can go on. */
  lemma SomeoneCanGoOn(n: nat, s: State) returns (step: Step)
    requires Inv(n, s) && !Finished(s)
    ensures step != Cancel && Enabled(n, s, step)
  {
    if !s.sendingDone {
      step := if s.sent < n then Send else StopSending;
    } else if !AllExited(s.workers) {
      var w: nat :| w < |s.workers| && !s.workers[w].Exited?;
      match s.workers[w] {
        case Waiting => step := if s.queue != [] then Receive(w) else Drain(w);
        case Received(_) => step := if s.cancelled then Abandon(w) else Fetch(w);
        case Fetched(_) =>
          BusyIsCounted(s.workers, w);
          step := Deliver(w);
      }
    } else if !s.resultsClosed {
      step := CloseResults;
    } else {
      step := if s.results != [] then Collect else Return;
    }
  }

  // ----- whole runs, under any interleaving -----

  ghost predicate CanMove(n: nat, s: State, s': State) {
    exists step :: Enabled(n, s, step) && s' == Next(n, s, step)
  }

  ghost predicate Behaviour(n: nat, workerCount: nat, states: seq<State>) {
    && states != [] && states[0] == Init(workerCount)
    && forall k | 0 <= k < |states| - 1 :: CanMove(n, states[k], states[k + 1])
  }

  lemma MoveInv(n: nat, s: State, s': State)
    requires Inv(n, s) && CanMove(n, s, s')
    ensures Inv(n, s') && Remaining(n, s') < Remaining(n, s)
  {
    var step :| Enabled(n, s, step) && s' == Next(n, s, step);
    NextInv(n, s, step);
    RemainingDecreases(n, s, step);
  }

  /** In every state of every run each UUID is in one place and nothing was sent on a closed channel. */
  lemma {:induction false} BehaviourInv(n: nat, workerCount: nat, states: seq<State>, k: nat)
    requires workerCount >= 1 && Behaviour(n, workerCount, states) && k < |states|
    ensures Inv(n, states[k])
    ensures Remaining(n, states[k]) + k <= Remaining(n, Init(workerCount))
  {
    if k == 0 {
      InitInv(n, workerCount);
    } else {
      BehaviourInv(n, workerCount, states, k - 1);
      assert CanMove(n, states[k - 1], states[k - 1 + 1]);
      MoveInv(n, states[k - 1], states[k]);
    }
  }

  lemma {:induction false} AllWaiting(workerCount: nat)
    ensures Weights(seq(workerCount, _ => Waiting)) == workerCount
  {
    if workerCount > 0 {
      AllWaiting(workerCount - 1);
      assert seq(workerCount, _ => Waiting)[1..] == seq(workerCount - 1, _ => Waiting);
    }
  }

  /** Every run ends after a bounded number of steps, and where it cannot go on, all have ended and,
      unless it was cancelled, without an error. */
  lemma BehavioursTerminate(n: nat, workerCount: nat, states: seq<State>)
    requires workerCount >= 1 && Behaviour(n, workerCount, states)
    ensures |states| <= 6 * n + workerCount + 5
    ensures var last := states[|states| - 1];
            (forall step | step != Cancel :: !Enabled(n, last, step)) ==>
              Finished(last) && (last.returned == Some(true) || last.cancelled)
  {
    BehaviourInv(n, workerCount, states, |states| - 1);
    AllWaiting(workerCount);
    if Finished(states[|states| - 1]) {
      EndsWell(n, states[|states| - 1]);
    } else {
      var step := SomeoneCanGoOn(n, states[|states| - 1]);
    }
  }

  lemma EndsWell(n: nat, s: State)
    requires Inv(n, s) && Finished(s)
    ensures s.returned == Some(true) || s.cancelled
  {
    if !s.returned.value {
      assert s.returned == Some(false);
    }
  }

  lemma OneMoreState(n: nat, workerCount: nat, states: seq<State>, next: State)
    requires Behaviour(n, workerCount, states) && CanMove(n, states[|states| - 1], next)
    ensures Behaviour(n, workerCount, states + [next])
  {
  }

  /** Every run that was not cancelled can be continued to one that ends without an error. */
  lemma {:induction false} CanSucceed(n: nat, workerCount: nat, states: seq<State>) returns (longer: seq<State>)
    requires workerCount >= 1 && Behaviour(n, workerCount, states) && !states[|states| - 1].cancelled
    ensures Behaviour(n, workerCount, longer) && states <= longer
    ensures longer[|longer| - 1].returned == Some(true)
    decreases 6 * n + workerCount + 5 - |states|
  {
    var last := states[|states| - 1];
    BehaviourInv(n, workerCount, states, |states| - 1);
    if Finished(last) {
      EndsWell(n, last);
      longer := states;
    } else {
      var next := GoOn(n, last);
      OneMoreState(n, workerCount, states, next);
      BehavioursTerminate(n, workerCount, states + [next]);
      longer := CanSucceed(n, workerCount, states + [next]);
    }
  }

  lemma GoOn(n: nat, s: State) returns (s': State)
    requires Inv(n, s) && !Finished(s) && !s.cancelled
    ensures CanMove(n, s, s') && !s'.cancelled
  {
    var step := SomeoneCanGoOn(n, s);
    s' := Next(n, s, step);
  }

  /** With any number of workers there is a run that ends without an error. */
  lemma SomeRunSucceeds(n: nat, workerCount: nat)
    requires workerCount >= 1
    ensures exists states: seq<State> :: Behaviour(n, workerCount, states) && states[|states| - 1].returned == Some(true)
  {
    var states := CanSucceed(n, workerCount, [Init(workerCount)]);
  }
}
