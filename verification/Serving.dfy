/** What the accept thread does for clients: when it ends, which sockets stay registered, and that a
    client is served as long as the endpoint is not stopping. */
module Serving {
  import opened Endpoint
  import opened Wrappers

  // ---------------------------------------------------------------- when the accept thread ends

  ghost predicate EndsAccept(s: State, step: Step) {
    (step.LoadFlag? && s.shared.stopping) || step.AcceptFails? || step.SpawnFails?
  }

  lemma EndedByStep(s: State, step: Step)
    requires Next(s, step).Some?
    ensures Next(s, step).value.accept == Ended <==> s.accept == Ended || EndsAccept(s, step)
  {
  }

  // One of the first steps was such a step.
  ghost predicate HasEnded(states: seq<State>, steps: seq<Step>, j: nat)
    requires j <= |steps| < |states|
  {
    j > 0 && (EndsAccept(states[j - 1], steps[j - 1]) || HasEnded(states, steps, j - 1))
  }

  lemma {:induction false} EndedBefore(states: seq<State>, steps: seq<Step>, j: nat)
    requires j <= |steps| < |states|
    ensures HasEnded(states, steps, j) <==> exists i: nat :: i < j && EndsAccept(states[i], steps[i])
  {
    if j > 0 { EndedBefore(states, steps, j - 1); }
  }

  lemma {:induction false} EndedHasCause(states: seq<State>, steps: seq<Step>, j: nat)
    requires IsRun(states, steps) && j < |states|
    ensures states[j].accept == Ended <==> HasEnded(states, steps, j)
  {
    if j > 0 {
      EndedHasCause(states, steps, j - 1);
      StepOf(states, steps, j - 1);
      EndedByStep(states[j - 1], steps[j - 1]);
    }
  }

  // It ends when it reads the stop flag, when the listener fails, or when no thread can be started, and
  // for nothing else: not when nobody is there, nor when a client is refused or its socket cannot be cloned.
  lemma AcceptEndsFor(states: seq<State>, steps: seq<Step>, j: nat)
    requires IsRun(states, steps) && j < |states|
    ensures states[j].accept == Ended <==> exists i: nat :: i < j && EndsAccept(states[i], steps[i])
  {
    EndedHasCause(states, steps, j);
    EndedBefore(states, steps, j);
  }

  // ---------------------------------------------------------------- the registered sockets

  // No thread could be started for a client whose socket is registered already.
  ghost predicate LeftOver(s: State, step: Step, id: nat) {
    s.accept == Registered(id) && step.SpawnFails?
  }

  predicate IsServed(s: State, id: nat) {
    id in s.sessions && s.sessions[id] == Working
  }

  ghost predicate IsOrphan(s: State, id: nat) {
    s.accept == Ended && id !in s.sessions && id in s.shared.streams
  }

  // Every registered socket has an owner, or is an orphan.
  ghost predicate IsOwned(s: State, id: nat) {
    id in s.shared.streams <==> IsServed(s, id) || s.accept == Registered(id) || IsOrphan(s, id)
  }

  // One step: a socket is added with its registration and removed by its worker.
  ghost predicate IsOwnedAfter(s: State, step: Step, t: State, id: nat) {
    id in t.shared.streams <==>
      IsServed(t, id) || t.accept == Registered(id) || LeftOver(s, step, id) || IsOrphan(s, id)
  }

  lemma AcceptKeepsOwner(s: State, step: Step, t: State, id: nat)
    requires Invariant(s) && AcceptStep(s, step) == Some(t) && IsOwned(s, id)
    ensures IsOwnedAfter(s, step, t, id)
  {
  }

  lemma WorkerKeepsOwner(s: State, step: Step, t: State, id: nat)
    requires Invariant(s) && WorkerStep(s, step) == Some(t) && IsOwned(s, id)
    ensures IsOwnedAfter(s, step, t, id)
  {
  }

  lemma StopperKeepsOwner(s: State, step: Step, t: State, id: nat)
    requires StopperStep(s, step) == Some(t) && IsOwned(s, id)
    ensures IsOwnedAfter(s, step, t, id)
  {
  }

  lemma SocketStep(s: State, step: Step, id: nat)
    requires Invariant(s) && Next(s, step).Some? && IsOwned(s, id)
    ensures IsOwnedAfter(s, step, Next(s, step).value, id)
  {
    var t := Next(s, step).value;
    if IsWorkerStep(step) {
      WorkerKeepsOwner(s, step, t, id);
    } else if IsStopperStep(step) {
      StopperKeepsOwner(s, step, t, id);
    } else {
      AcceptKeepsOwner(s, step, t, id);
    }
  }

  ghost predicate WasLeftOver(states: seq<State>, steps: seq<Step>, j: nat, id: nat)
    requires j <= |steps| < |states|
  {
    j > 0 && (LeftOver(states[j - 1], steps[j - 1], id) || WasLeftOver(states, steps, j - 1, id))
  }

  lemma {:induction false} LeftOverBefore(states: seq<State>, steps: seq<Step>, j: nat, id: nat)
    requires j <= |steps| < |states|
    ensures WasLeftOver(states, steps, j, id) <==> exists i: nat :: i < j && LeftOver(states[i], steps[i], id)
  {
    if j > 0 { LeftOverBefore(states, steps, j - 1, id); }
  }

  lemma LeftOverStep(s: State, step: Step, id: nat)
    requires Invariant(s) && Next(s, step).Some? && LeftOver(s, step, id)
    ensures IsOrphan(Next(s, step).value, id)
  {
  }

  lemma OrphanStays(s: State, step: Step, id: nat)
    requires Next(s, step).Some? && IsOrphan(s, id)
    ensures IsOrphan(Next(s, step).value, id)
  {
  }

  // Where no thread could be started, the socket stays and no session has its number.
  lemma {:induction false} LeftOverStays(states: seq<State>, steps: seq<Step>, j: nat, id: nat)
    requires IsRun(states, steps) && j < |states| && WasLeftOver(states, steps, j, id)
    ensures IsOrphan(states[j], id)
  {
    var s, step := states[j - 1], steps[j - 1];
    StepOf(states, steps, j - 1);
    if LeftOver(s, step, id) {
      RunKeepsInvariant(states, steps, j - 1);
      LeftOverStep(s, step, id);
    } else {
      LeftOverStays(states, steps, j - 1, id);
      OrphanStays(s, step, id);
    }
  }

  lemma {:induction false} SocketHasOwner(states: seq<State>, steps: seq<Step>, j: nat, id: nat)
    requires IsRun(states, steps) && j < |states|
    ensures id in states[j].shared.streams <==>
      IsServed(states[j], id) || states[j].accept == Registered(id) || WasLeftOver(states, steps, j, id)
  {
    if j > 0 {
      var s, step := states[j - 1], steps[j - 1];
      SocketHasOwner(states, steps, j - 1, id);
      RunKeepsInvariant(states, steps, j - 1);
      if WasLeftOver(states, steps, j - 1, id) { LeftOverStays(states, steps, j - 1, id); }
      StepOf(states, steps, j - 1);
      SocketStep(s, step, id);
      if WasLeftOver(states, steps, j, id) { LeftOverStays(states, steps, j, id); }
    }
  }

  // At any time exactly these sockets are registered: those of running sessions, the one whose worker is
  // about to be started, and those whose worker could not be started.
  lemma SocketIsRegistered(states: seq<State>, steps: seq<Step>, j: nat, id: nat)
    requires IsRun(states, steps) && j < |states|
    ensures id in states[j].shared.streams <==>
      || IsServed(states[j], id) || states[j].accept == Registered(id)
      || exists i: nat :: i < j && LeftOver(states[i], steps[i], id)
  {
    SocketHasOwner(states, steps, j, id);
    LeftOverBefore(states, steps, j, id);
  }

  // ---------------------------------------------------------------- after the flag is stored

  // The client whose socket is registered but whose session has not started.
  function Pending(a: Accept): set<nat> {
    if a.Registered? then {a.id} else {}
  }

  lemma StoppingStep(s: State, step: Step)
    requires Next(s, step).Some? && s.shared.stopping
    ensures var t := Next(s, step).value;
      && t.shared.stopping && t.shared.streams.Keys <= s.shared.streams.Keys
      && t.sessions.Keys + Pending(t.accept) <= s.sessions.Keys + Pending(s.accept)
  {
  }

  // From the moment the flag is stored no socket is registered, and the only session that can still start
  // is the one that had been registered before.
  lemma {:induction false} NothingRegistersAfterStop(states: seq<State>, steps: seq<Step>, i: nat, j: nat)
    requires IsRun(states, steps) && i <= j < |states| && states[i].shared.stopping
    ensures states[j].shared.stopping && states[j].shared.streams.Keys <= states[i].shared.streams.Keys
    ensures states[j].sessions.Keys + Pending(states[j].accept)
         <= states[i].sessions.Keys + Pending(states[i].accept)
  {
    if i < j {
      NothingRegistersAfterStop(states, steps, i, j - 1);
      StepOf(states, steps, j - 1);
      StoppingStep(states[j - 1], steps[j - 1]);
    }
  }

  // ---------------------------------------------------------------- a client is served

  predicate IsHeld(a: Accept, id: nat) {
    (a.Accepted? || a.Registered? || a.Spawned?) && a.id == id
  }

  // Nobody has this connection number yet.
  predicate IsNew(s: State, id: nat) {
    id !in s.sessions && id !in s.shared.streams && !IsHeld(s.accept, id)
  }

  function StepsBack(a: Accept): nat {
    match a
    case Listening => 0
    case Looping => 1
    case Spawned(_) => 2
    case Registered(_) => 3
    case Accepted(_) => 4
    case Ended => 5
  }

  function TowardsListening(a: Accept): Step {
    match a
    case Accepted(_) => Register
    case Registered(_) => Spawn
    case Spawned(_) => Push
    case _ => LoadFlag
  }

  lemma StepBack(s: State, id: nat)
    requires Invariant(s) && !s.shared.stopping && s.accept != Ended && s.accept != Listening && IsNew(s, id)
    ensures var next := Next(s, TowardsListening(s.accept));
      && next.Some? && Invariant(next.value) && !next.value.shared.stopping && next.value.accept != Ended
      && IsNew(next.value, id) && StepsBack(next.value.accept) < StepsBack(s.accept)
  {
    NextKeepsInvariant(s, TowardsListening(s.accept));
  }

  lemma FollowOne(s: State, step: Step, more: seq<Step>)
    requires Next(s, step).Some?
    ensures Follow(s, [step] + more) == Follow(Next(s, step).value, more)
  {
    assert ([step] + more)[1..] == more;
  }

  // The client is connected, its session runs, and its worker can be joined.
  ghost predicate Serves(s: State, id: nat) {
    && IsServed(s, id) && id in s.shared.streams && !s.shared.streams[id] && id in s.shared.workers
    && s.accept == Looping && !s.shared.stopping
  }

  // Registered or started, with its socket open.
  ghost predicate IsOnTheWay(s: State, id: nat) {
    && id in s.shared.streams && !s.shared.streams[id] && !s.shared.stopping
    && (s.accept == Registered(id) || (s.accept == Spawned(id) && IsServed(s, id)))
  }

  lemma SpawnedIsServed(s: State, id: nat)
    requires IsOnTheWay(s, id) && s.accept == Spawned(id)
    ensures Follow(s, [Push]).Some? && Serves(Follow(s, [Push]).value, id)
  {
    var t := AcceptStep(s, Push).value;
    FollowOne(s, Push, []);
    assert [Push] + [] == [Push];
    assert t.shared.workers[|t.shared.workers| - 1] == id;
  }

  lemma RegisteredIsSpawned(s: State, id: nat)
    requires IsOnTheWay(s, id) && s.accept == Registered(id)
    ensures Follow(s, [Spawn] + [Push]).Some? && Serves(Follow(s, [Spawn] + [Push]).value, id)
  {
    var t := AcceptStep(s, Spawn).value;
    FollowOne(s, Spawn, [Push]);
    SpawnedIsServed(t, id);
  }

  lemma RegisteredIsServed(s: State, id: nat)
    requires !s.shared.stopping && s.accept == Accepted(id)
    ensures Follow(s, [Register] + ([Spawn] + [Push])).Some?
    ensures Serves(Follow(s, [Register] + ([Spawn] + [Push])).value, id)
  {
    var t := AcceptStep(s, Register).value;
    FollowOne(s, Register, [Spawn] + [Push]);
    RegisteredIsSpawned(t, id);
  }

  lemma TakenIsServed(s: State, id: nat)
    requires Invariant(s) && !s.shared.stopping && s.accept == Listening && IsNew(s, id)
    ensures Follow(s, [Take(id)] + ([Register] + ([Spawn] + [Push]))).Some?
    ensures Serves(Follow(s, [Take(id)] + ([Register] + ([Spawn] + [Push]))).value, id)
  {
    NextKeepsInvariant(s, Take(id));
    FollowOne(s, Take(id), [Register] + ([Spawn] + [Push]));
    RegisteredIsServed(Next(s, Take(id)).value, id);
  }

  // Whatever the accept thread is doing, the next client can be served, unless the endpoint is stopping
  // or the thread has ended.
  lemma {:induction false} ClientIsServed(s: State, id: nat) returns (steps: seq<Step>)
    requires Invariant(s) && !s.shared.stopping && s.accept != Ended && IsNew(s, id)
    ensures Follow(s, steps).Some? && Serves(Follow(s, steps).value, id)
    decreases StepsBack(s.accept)
  {
    if s.accept == Listening {
      steps := [Take(id)] + ([Register] + ([Spawn] + [Push]));
      TakenIsServed(s, id);
    } else {
      StepBack(s, id);
      var rest := ClientIsServed(Next(s, TowardsListening(s.accept)).value, id);
      steps := [TowardsListening(s.accept)] + rest;
      FollowOne(s, TowardsListening(s.accept), rest);
    }
  }

  // ---------------------------------------------------------------- the life of a session

  // A session starts with its thread, gives its socket back, and then ends; each of these is one step of
  // its own, and no other step changes it.
  lemma SessionGoesOn(s: State, step: Step, id: nat)
    requires Next(s, step).Some?
    ensures var was, now := Get(s.sessions, id), Get(Next(s, step).value.sessions, id);
      now != was <==>
        || (step.Spawn? && s.accept == Registered(id) && now == Some(Working) && was != now)
        || (step == Cleanup(id) && was == Some(Working) && now == Some(Cleaned))
        || (step == Finish(id) && was == Some(Cleaned) && now == Some(Finished))
  {
  }

  // ---------------------------------------------------------------- dropping an endpoint

  // When an endpoint has been dropped without a shutdown, its accept thread has ended and every socket
  // that is still registered is shut down; the sessions end by themselves.
  lemma DropStopsAccepting(states: seq<State>, steps: seq<Step>, i: nat)
    requires IsRun(states, steps) && i < |steps| && steps[i] == Release
    ensures states[i + 1].accept == Ended && states[i + 1].shared.stopping && AllShut(states[i + 1].shared.streams)
    ensures states[i + 1].stopper == Resting && states[i + 1].shared.workers == states[i].shared.workers
  {
    RunKeepsInvariant(states, steps, i);
    StepOf(states, steps, i);
  }
}
