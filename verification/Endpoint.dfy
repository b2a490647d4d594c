/** Shutting a SQL endpoint down: the accept thread, the session workers and `shutdown`, step by step.
    A step is one load or store of the stop flag, one lock section, one spawn or one join. */
module Endpoint {
  import opened Wrappers

  // What `Clients` holds: the stop flag, the sockets by connection (true: shut down) and the handles.
  datatype Shared = Shared(stopping: bool, streams: map<nat, bool>, workers: seq<nat>)

  // A worker runs its session, removes its socket from `streams`, and finishes.
  datatype Worker = Working | Cleaned | Finished

  // The accept thread: before the flag is read, before a connection is taken, with a connection
  // that is not registered, registered, or served by a worker whose handle it still holds.
  datatype Accept = Looping | Listening | Accepted(id: nat) | Registered(id: nat) | Spawned(id: nat) | Ended

  // The thread in `stop_accepting` and `join_workers`; `second` tells its two calls of `stop` apart.
  datatype Stopper = Resting | Stored(second: bool) | Swept(second: bool) | Joined | Joining(waiting: seq<nat>)

  datatype State = State(shared: Shared, sessions: map<nat, Worker>, accept: Accept, stopper: Stopper)

  datatype Step =
    | LoadFlag | Take(id: nat) | NobodyThere | AcceptFails | Register | CloneFails | Spawn | SpawnFails | Push
    | Cleanup(id: nat) | Finish(id: nat)
    | StoreFlag | Sweep | JoinAccept | StoreAgain | Release | TakeWorkers | JoinWorker | EndJoin

  function ShutDown(streams: map<nat, bool>): map<nat, bool> {
    map id | id in streams :: true
  }

  predicate HasFinished(sessions: map<nat, Worker>, id: nat) {
    id in sessions && sessions[id] == Finished
  }

  // `retain`: the handles of workers that have not finished, in order.
  function Unfinished(workers: seq<nat>, sessions: map<nat, Worker>): seq<nat> {
    if workers == [] then [] else
      var rest := Unfinished(workers[..|workers| - 1], sessions);
      if HasFinished(sessions, workers[|workers| - 1]) then rest else rest + [workers[|workers| - 1]]
  }

  function AcceptStep(s: State, step: Step): Option<State> {
    match (s.accept, step)
    case (Looping, LoadFlag) => Some(s.(accept := if s.shared.stopping then Ended else Listening))
    case (Listening, Take(id)) => if id in s.sessions || id in s.shared.streams then None
        else Some(s.(accept := Accepted(id)))
    case (Listening, NobodyThere) => Some(s.(accept := Looping))
    case (Listening, AcceptFails) => Some(s.(accept := Ended))
    case (Accepted(id), Register) =>
      if s.shared.stopping then Some(s.(accept := Looping))
      else Some(s.(accept := Registered(id), shared := s.shared.(streams := s.shared.streams[id := false])))
    case (Accepted(id), CloneFails) => Some(s.(accept := Looping))
    case (Registered(id), Spawn) => Some(s.(accept := Spawned(id), sessions := s.sessions[id := Working]))
    case (Registered(id), SpawnFails) => Some(s.(accept := Ended))
    case (Spawned(id), Push) =>
      var kept := Unfinished(s.shared.workers, s.sessions);
      Some(s.(accept := Looping, shared := s.shared.(workers := kept + [id])))
    case _ => None
  }

  function WorkerStep(s: State, step: Step): Option<State> {
    match step
    case Cleanup(id) =>
      if id in s.sessions && s.sessions[id] == Working
      then Some(s.(sessions := s.sessions[id := Cleaned], shared := s.shared.(streams := s.shared.streams - {id})))
      else None
    case Finish(id) =>
      if id in s.sessions && s.sessions[id] == Cleaned then Some(s.(sessions := s.sessions[id := Finished])) else None
    case _ => None
  }

  function StopperStep(s: State, step: Step): Option<State> {
    match (s.stopper, step)
    case (Resting, StoreFlag) => Some(s.(stopper := Stored(false), shared := s.shared.(stopping := true)))
    case (Stored(second), Sweep) =>
      Some(s.(stopper := Swept(second), shared := s.shared.(streams := ShutDown(s.shared.streams))))
    case (Swept(second), JoinAccept) => if !second && s.accept == Ended then Some(s.(stopper := Joined)) else None
    case (Joined, StoreAgain) => Some(s.(stopper := Stored(true), shared := s.shared.(stopping := true)))
    case (Swept(second), Release) => if second then Some(s.(stopper := Resting)) else None
    case (Swept(second), TakeWorkers) =>
      if second then Some(s.(stopper := Joining(s.shared.workers), shared := s.shared.(workers := []))) else None
    case (Joining(waiting), JoinWorker) =>
      if waiting != [] && HasFinished(s.sessions, waiting[0]) then Some(s.(stopper := Joining(waiting[1..]))) else None
    case (Joining(waiting), EndJoin) => if waiting == [] then Some(s.(stopper := Resting)) else None
    case _ => None
  }

  predicate IsWorkerStep(step: Step) {
    step.Cleanup? || step.Finish?
  }

  predicate IsStopperStep(step: Step) {
    || step.StoreFlag? || step.Sweep? || step.JoinAccept? || step.StoreAgain? || step.Release? || step.TakeWorkers?
    || step.JoinWorker? || step.EndJoin?
  }

  function Next(s: State, step: Step): Option<State> {
    if IsWorkerStep(step) then WorkerStep(s, step)
    else if IsStopperStep(step) then StopperStep(s, step)
    else AcceptStep(s, step)
  }

  const STARTED := State(Shared(false, map[], []), map[], Looping, Resting)

  // ---------------------------------------------------------------- the invariant

  predicate HoldsHandle(s: State, id: nat) {
    || id in s.shared.workers
    || s.accept == Spawned(id)
    || (s.stopper.Joining? && id in s.stopper.waiting)
  }

  // A worker that has not finished can be joined by somebody, and its socket is registered until
  // it cleans up.
  ghost predicate WorkersOk(s: State) {
    && (forall id :: id in s.sessions && s.sessions[id] != Finished ==> HoldsHandle(s, id))
    && (forall id :: id in s.sessions && s.sessions[id] == Working ==> id in s.shared.streams)
    && (forall id :: id in s.shared.workers ==> id in s.sessions)
    && (s.stopper.Joining? ==> forall id :: id in s.stopper.waiting ==> id in s.sessions)
  }

  ghost predicate AcceptOk(s: State) {
    && (s.accept.Accepted? || s.accept.Registered? ==> s.accept.id !in s.sessions)
    && (s.accept.Accepted? ==> s.accept.id !in s.shared.streams)
    && (s.accept.Registered? ==> s.accept.id in s.shared.streams)
    && (s.accept.Spawned? ==> s.accept.id in s.sessions)
  }

  // The stopper has been through the lock section of `stop` at least once.
  predicate HasSwept(stopper: Stopper) {
    stopper.Swept? || stopper.Joined? || stopper.Joining? || (stopper.Stored? && stopper.second)
  }

  predicate HasJoined(stopper: Stopper) {
    stopper.Joined? || stopper.Joining? || (stopper.Stored? && stopper.second) || (stopper.Swept? && stopper.second)
  }

  predicate AllShut(streams: map<nat, bool>) {
    forall id :: id in streams ==> streams[id]
  }

  ghost predicate StopperOk(s: State) {
    && (!s.stopper.Resting? ==> s.shared.stopping)
    && (HasSwept(s.stopper) ==> AllShut(s.shared.streams))
    && (HasJoined(s.stopper) ==> s.accept == Ended)
    && (s.stopper.Joining? ==> s.shared.workers == [])
  }

  ghost predicate Invariant(s: State) {
    WorkersOk(s) && AcceptOk(s) && StopperOk(s)
  }

  lemma {:induction false} UnfinishedHas(workers: seq<nat>, sessions: map<nat, Worker>, id: nat)
    ensures id in Unfinished(workers, sessions) <==> id in workers && !HasFinished(sessions, id)
  {
    if workers != [] {
      UnfinishedHas(workers[..|workers| - 1], sessions, id);
      assert id in workers <==> id in workers[..|workers| - 1] || id == workers[|workers| - 1];
    }
  }

  lemma PushKeepsInvariant(s: State)
    requires Invariant(s) && AcceptStep(s, Push).Some?
    ensures Invariant(AcceptStep(s, Push).value)
  {
    var next := AcceptStep(s, Push).value;
    forall id ensures id in next.shared.workers <==>
      (id in s.shared.workers && !HasFinished(s.sessions, id)) || id == s.accept.id {
      UnfinishedHas(s.shared.workers, s.sessions, id);
    }
  }

  lemma AcceptKeepsInvariant(s: State, step: Step)
    requires Invariant(s) && AcceptStep(s, step).Some?
    ensures Invariant(AcceptStep(s, step).value)
  {
    if step.Push? { PushKeepsInvariant(s); }
  }

  lemma WorkerKeepsInvariant(s: State, step: Step)
    requires Invariant(s) && WorkerStep(s, step).Some?
    ensures Invariant(WorkerStep(s, step).value)
  {
  }

  lemma JoinWorkerKeepsInvariant(s: State)
    requires Invariant(s) && StopperStep(s, JoinWorker).Some?
    ensures Invariant(StopperStep(s, JoinWorker).value)
  {
    var waiting := s.stopper.waiting;
    assert forall id :: id in waiting <==> id == waiting[0] || id in waiting[1..];
  }

  lemma StopperKeepsInvariant(s: State, step: Step)
    requires Invariant(s) && StopperStep(s, step).Some?
    ensures Invariant(StopperStep(s, step).value)
  {
    if step.JoinWorker? { JoinWorkerKeepsInvariant(s); }
  }

  lemma NextKeepsInvariant(s: State, step: Step)
    requires Invariant(s) && Next(s, step).Some?
    ensures Invariant(Next(s, step).value)
  {
    if IsWorkerStep(step) {
      WorkerKeepsInvariant(s, step);
    } else if IsStopperStep(step) {
      StopperKeepsInvariant(s, step);
    } else {
      AcceptKeepsInvariant(s, step);
    }
  }

  // ---------------------------------------------------------------- every run

  ghost predicate IsRun(states: seq<State>, steps: seq<Step>) {
    && |states| == |steps| + 1 && states[0] == STARTED
    && forall i :: 0 <= i < |steps| ==> Next(states[i], steps[i]) == Some(states[i + 1])
  }

  lemma StepOf(states: seq<State>, steps: seq<Step>, i: nat)
    requires IsRun(states, steps) && i < |steps|
    ensures Next(states[i], steps[i]) == Some(states[i + 1])
  {
  }

  lemma {:induction false} RunKeepsInvariant(states: seq<State>, steps: seq<Step>, i: nat)
    requires IsRun(states, steps) && i < |states|
    ensures Invariant(states[i])
  {
    if i > 0 {
      RunKeepsInvariant(states, steps, i - 1);
      StepOf(states, steps, i - 1);
      NextKeepsInvariant(states[i - 1], steps[i - 1]);
    }
  }

  // While `join_workers` waits, it waits for every worker that has not finished, and each of these
  // has had its socket shut down or has already given it back.
  lemma JoinSeesEveryWorker(states: seq<State>, steps: seq<Step>, i: nat, id: nat)
    requires IsRun(states, steps) && i < |states| && states[i].stopper.Joining?
    requires id in states[i].sessions && states[i].sessions[id] != Finished
    ensures id in states[i].stopper.waiting
    ensures states[i].sessions[id] == Working ==> id in states[i].shared.streams && states[i].shared.streams[id]
  {
    RunKeepsInvariant(states, steps, i);
  }

  // At any time: an unfinished worker's handle is in `workers`, taken by `join_workers`, or about
  // to be pushed; the last is over once the accept thread has been joined.
  lemma HandlesAreKept(states: seq<State>, steps: seq<Step>, i: nat, id: nat)
    requires IsRun(states, steps) && i < |states| && id in states[i].sessions && states[i].sessions[id] != Finished
    ensures HoldsHandle(states[i], id)
    ensures HasJoined(states[i].stopper) && !states[i].stopper.Joining? ==> id in states[i].shared.workers
  {
    RunKeepsInvariant(states, steps, i);
  }

  lemma EndedStays(s: State, step: Step)
    requires Next(s, step).Some? && s.accept == Ended
    ensures Next(s, step).value.accept == Ended
    ensures Next(s, step).value.sessions.Keys == s.sessions.Keys
    ensures Next(s, step).value.shared.streams.Keys <= s.shared.streams.Keys
  {
  }

  // No session starts, and no socket is registered, after the accept thread has been joined.
  lemma {:induction false} NothingStartsAfterJoin(states: seq<State>, steps: seq<Step>, i: nat, j: nat)
    requires IsRun(states, steps) && i <= j < |states| && HasJoined(states[i].stopper)
    ensures states[j].accept == Ended && states[j].sessions.Keys == states[i].sessions.Keys
    ensures states[j].shared.streams.Keys <= states[i].shared.streams.Keys
  {
    if i == j {
      RunKeepsInvariant(states, steps, i);
    } else {
      NothingStartsAfterJoin(states, steps, i, j - 1);
      StepOf(states, steps, j - 1);
      EndedStays(states[j - 1], steps[j - 1]);
    }
  }

  // When `shutdown` returns, every session ever started has finished.
  lemma ShutdownLeavesNoWorker(states: seq<State>, steps: seq<Step>, i: nat)
    requires IsRun(states, steps) && i < |steps| && steps[i] == EndJoin
    ensures var s := states[i + 1]; s.accept == Ended && forall id :: id in s.sessions ==> s.sessions[id] == Finished
  {
    RunKeepsInvariant(states, steps, i);
    StepOf(states, steps, i);
  }

  // The second call of `stop` finds nothing left to shut down: the flag is stored before the
  // first call takes the lock under which sockets are registered.
  lemma SecondStopIsRedundant(states: seq<State>, steps: seq<Step>, i: nat)
    requires IsRun(states, steps) && i < |states| && states[i].stopper == Stored(true)
    ensures Next(states[i], Sweep) == Some(states[i].(stopper := Swept(true)))
  {
    RunKeepsInvariant(states, steps, i);
    assert ShutDown(states[i].shared.streams) == states[i].shared.streams;
  }

  // ---------------------------------------------------------------- shutdown comes to an end

  function AcceptLeft(a: Accept): nat {
    match a
    case Ended => 0
    case Looping => 1
    case Spawned(_) => 2
    case Registered(_) => 3
    case Accepted(_) => 4
    case Listening => 5
  }

  // Once the flag is stored, whatever the accept thread does brings it closer to its end.
  lemma AcceptWindsDown(s: State, step: Step)
    requires s.shared.stopping && !IsWorkerStep(step) && !IsStopperStep(step) && Next(s, step).Some?
    ensures AcceptLeft(Next(s, step).value.accept) < AcceptLeft(s.accept)
  {
  }

  function StopperLeft(t: Stopper): nat {
    match t
    case Resting => 0
    case Joining(_) => 1
    case Swept(second) => if second then 2 else 5
    case Stored(second) => if second then 3 else 6
    case Joined => 4
  }

  function WorkerLeft(s: State): nat {
    if s.stopper.Joining? && s.stopper.waiting != [] && s.stopper.waiting[0] in s.sessions then
      match s.sessions[s.stopper.waiting[0]]
      case Working => 2
      case Cleaned => 1
      case Finished => 0
    else 0
  }

  // The step `shutdown` is waiting for.
  function Awaited(s: State): Step {
    match s.stopper
    case Resting => StoreFlag
    case Stored(_) => Sweep
    case Joined => StoreAgain
    case Swept(second) =>
      if second then TakeWorkers
      else (match s.accept
            case Ended => JoinAccept
            case Looping => LoadFlag
            case Listening => NobodyThere
            case Accepted(_) => Register
            case Registered(_) => Spawn
            case Spawned(_) => Push)
    case Joining(waiting) =>
      if waiting == [] then EndJoin
      else if waiting[0] !in s.sessions then EndJoin
      else (match s.sessions[waiting[0]]
            case Working => Cleanup(waiting[0])
            case Cleaned => Finish(waiting[0])
            case Finished => JoinWorker)
  }

  // It is never stuck: that step is possible.
  lemma AwaitedIsPossible(s: State)
    requires Invariant(s)
    ensures Next(s, Awaited(s)).Some?
  {
  }

  function Follow(s: State, steps: seq<Step>): Option<State>
    decreases |steps|
  {
    if steps == [] then Some(s) else
      match Next(s, steps[0])
      case None => None
      case Some(t) => Follow(t, steps[1..])
  }

  // From any point of a shutdown that has joined the accept thread and taken the workers, the run
  // can go on until every worker is joined.
  lemma {:induction false} JoinCompletes(s: State) returns (steps: seq<Step>)
    requires Invariant(s) && s.stopper.Joining?
    ensures Follow(s, steps).Some? && Follow(s, steps).value.stopper == Resting
    ensures forall id :: id in Follow(s, steps).value.sessions ==> Follow(s, steps).value.sessions[id] == Finished
    decreases |s.stopper.waiting|, WorkerLeft(s)
  {
    AwaitedIsPossible(s);
    var next := Next(s, Awaited(s)).value;
    NextKeepsInvariant(s, Awaited(s));
    if s.stopper.waiting == [] {
      steps := [EndJoin];
      assert Follow(next, []) == Some(next);
    } else {
      var rest := JoinCompletes(next);
      steps := [Awaited(s)] + rest;
      assert steps[1..] == rest;
    }
  }

  lemma {:induction false} ShutdownCompletes(s: State) returns (steps: seq<Step>)
    requires Invariant(s) && !s.stopper.Resting?
    ensures Follow(s, steps).Some? && Follow(s, steps).value.stopper == Resting
    ensures forall id :: id in Follow(s, steps).value.sessions ==> Follow(s, steps).value.sessions[id] == Finished
    decreases StopperLeft(s.stopper), AcceptLeft(s.accept)
  {
    if s.stopper.Joining? {
      steps := JoinCompletes(s);
    } else {
      AwaitedIsPossible(s);
      NextKeepsInvariant(s, Awaited(s));
      var rest := ShutdownCompletes(Next(s, Awaited(s)).value);
      steps := [Awaited(s)] + rest;
      assert steps[1..] == rest;
    }
  }

  // ---------------------------------------------------------------- the object of the source

  lemma OneMoreShut(streams: map<nat, bool>, all: map<nat, bool>, left: set<nat>, id: nat)
    requires id in left && id in all && streams == map i | i in all :: i !in left || all[i]
    ensures streams[id := true] == map i | i in all :: i !in left - {id} || all[i]
  {
  }

  class Clients {
    var stopping: bool
    var streams: map<nat, bool>
    var workers: seq<nat>

    function Value(): Shared
      reads this
    {
      Shared(stopping, streams, workers)
    }

    constructor ()
      ensures Value() == STARTED.shared
    {
      stopping, streams, workers := false, map[], [];
    }

    // StoreFlag and Sweep, one after the other.
    method Stop()
      modifies this
      ensures Value() == Shared(true, ShutDown(old(streams)), old(workers))
    {
      stopping := true;
      var left := streams.Keys;
      while left != {}
        invariant left <= old(streams).Keys && stopping && workers == old(workers)
        invariant streams == map i | i in old(streams) :: i !in left || old(streams)[i]
      {
        var id :| id in left;
        OneMoreShut(streams, old(streams), left, id);
        streams := streams[id := true];
        left := left - {id};
      }
    }

    // The lock section of `spawn_session`: false when the endpoint is stopping or the socket
    // cannot be cloned.
    method Register(id: nat, cloned: bool) returns (registered: bool)
      modifies this
      ensures registered == (!old(stopping) && cloned)
      ensures Value() == if registered then old(Value()).(streams := old(streams)[id := false]) else old(Value())
    {
      if stopping || !cloned { return false; }
      streams := streams[id := false];
      return true;
    }

    method Push(id: nat, sessions: map<nat, Worker>)
      modifies this
      ensures Value() == old(Value()).(workers := Unfinished(old(workers), sessions) + [id])
    {
      var kept := [];
      for i := 0 to |workers|
        invariant Value() == old(Value()) && kept == Unfinished(workers[..i], sessions)
      {
        PrefixGrows(workers, i);
        if !HasFinished(sessions, workers[i]) { kept := kept + [workers[i]]; }
      }
      assert workers[..|workers|] == workers;
      workers := kept + [id];
    }

    // Every handle is joined, also after one of them reports a panic.
    method JoinWorkers(panics: nat -> bool) returns (joined: seq<nat>, result: Result<(), string>)
      modifies this
      ensures Value() == old(Value()).(workers := []) && joined == old(workers)
      ensures result.Err? <==> exists id :: id in old(workers) && panics(id)
    {
      var taken := workers;
      workers := [];
      joined, result := [], Ok(());
      for i := 0 to |taken|
        invariant Value() == old(Value()).(workers := []) && joined == taken[..i]
        invariant result.Err? <==> exists id :: id in taken[..i] && panics(id)
      {
        PrefixGrows(taken, i);
        joined := joined + [taken[i]];
        if panics(taken[i]) { result := Err("SQL connection worker panicked"); }
      }
      assert taken[..|taken|] == taken;
    }
  }
}
