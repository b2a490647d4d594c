/** How a subscription ends: what a callback's answer and a cancellation do to a listener, for the
    rest of every run. */
module Endings {
  import opened Wrappers
  import opened ChangeFeed
  import opened Delivery

  // Out of its loop.
  predicate IsOut(w: Worker) {
    w.Leaving? || w.Gone?
  }

  // What can still happen to a stopped client: the callback that is running may come to its end, and
  // no other one begins.
  predicate CanBecome(a: Client, b: Client) {
    && b.box.stopped == a.box.stopped && (IsOut(a.worker) ==> IsOut(b.worker))
    && if a.worker.Calling? then
         || (b.handed == a.handed && (b.worker == a.worker || IsOut(b.worker)))
         || (b.handed == a.handed + [a.worker.event] && !b.worker.Calling?)
       else
         b.handed == a.handed && !b.worker.Calling?
  }

  lemma WorkerStepCan(c: Client, step: Step, next: Client)
    requires WorkerStep(c, step) == Some(next) && c.box.stopped.Some?
    ensures CanBecome(c, next)
  {
  }

  lemma EmitterStepCan(s: State, m: Emission, step: Step, id: nat)
    requires EmitterStep(s, m, step).Some? && id in s.clients && s.clients[id].box.stopped.Some?
    ensures id in EmitterStep(s, m, step).value.clients
    ensures CanBecome(s.clients[id], EmitterStep(s, m, step).value.clients[id])
  {
  }

  lemma RegistryStepCan(s: State, step: Step, id: nat)
    requires RegistryStep(s, step).Some? && id in s.clients && s.clients[id].box.stopped.Some?
    ensures id in RegistryStep(s, step).value.clients
    ensures CanBecome(s.clients[id], RegistryStep(s, step).value.clients[id])
  {
  }

  lemma StepCan(s: State, step: Step, next: State, id: nat)
    requires Next(s, step) == Some(next) && id in s.clients && s.clients[id].box.stopped.Some?
    ensures id in next.clients && CanBecome(s.clients[id], next.clients[id])
  {
    if IsRegistryStep(step) {
      RegistryStepCan(s, step, id);
    } else if IsEmitterStep(step) {
      EmitterStepCan(s, s.emission.value, step, id);
    } else if step.id == id {
      WorkerStepCan(s.clients[id], step, next.clients[id]);
    }
  }

  lemma CanCan(a: Client, b: Client, c: Client)
    requires CanBecome(a, b) && CanBecome(b, c)
    ensures CanBecome(a, c)
  {
  }

  // Whatever stopped a client, in every later state its outcome is the same, and it has heard of
  // nothing but the event its callback was called with.
  lemma {:induction false} StoppedHearsNoMore(states: seq<State>, steps: seq<Step>, i: nat, j: nat, id: nat)
    requires IsRun(states, steps) && i <= j < |states| && id in states[i].clients
    requires states[i].clients[id].box.stopped.Some?
    ensures id in states[j].clients && CanBecome(states[i].clients[id], states[j].clients[id])
  {
    if i < j {
      var n := j - 1;
      StoppedHearsNoMore(states, steps, i, n, id);
      StepOf(states, steps, n);
      StepCan(states[n], steps[n], states[j], id);
      CanCan(states[i].clients[id], states[n].clients[id], states[j].clients[id]);
    }
  }

  // What a subscriber is told when its callback fails or panics.
  function OutcomeOf(answer: Answer): Outcome
    requires !answer.Fine?
  {
    match answer
    case Failed(error) => Callback(error)
    case Panic => Panicked
  }

  // A callback that fails or panics ends the subscription: the outcome is its own unless there is one
  // already, the event counts as handed over, and the subscriber is never called again.
  lemma FailureEnds(states: seq<State>, steps: seq<Step>, i: nat, j: nat, id: nat, answer: Answer)
    requires IsRun(states, steps) && i < j < |states| && steps[i] == Return(id, answer) && !answer.Fine?
    ensures id in states[i].clients && states[i].clients[id].worker.Calling? && id in states[j].clients
    ensures var a, b := states[i].clients[id], states[j].clients[id];
      && b.box.stopped == Some(if a.box.stopped.Some? then a.box.stopped.value else OutcomeOf(answer))
      && b.handed == a.handed + [a.worker.event] && IsOut(b.worker)
  {
    StepOf(states, steps, i);
    StoppedHearsNoMore(states, steps, i + 1, j, id);
  }

  // A callback that succeeds leaves the listener as it was, ready for the next event.
  lemma SuccessGoesOn(s: State, next: State, id: nat)
    requires Next(s, Return(id, Fine)) == Some(next)
    ensures id in s.clients && s.clients[id].worker.Calling? && id in next.clients
    ensures var a, b := s.clients[id], next.clients[id];
      && b.box == a.box && b.handed == a.handed + [a.worker.event] && b.worker == Waiting && b.cancelled == a.cancelled
  {
  }

  // A cancelled subscription ends as done unless it has ended already; a callback that is running may
  // still come to its end, and no other one begins.
  lemma CancelEnds(states: seq<State>, steps: seq<Step>, i: nat, j: nat, id: nat)
    requires IsRun(states, steps) && i < j < |states| && (steps[i] == Cancel(id) || steps[i] == Abandon(id))
    ensures id in states[i].clients && id in states[j].clients
    ensures var a, b := states[i].clients[id], states[j].clients[id];
      && b.box.stopped == Some(if a.box.stopped.Some? then a.box.stopped.value else Done)
      && (b.handed == a.handed || (a.worker.Calling? && b.handed == a.handed + [a.worker.event]))
      && (b.worker.Calling? ==> b.worker == a.worker && b.handed == a.handed)
  {
    StepOf(states, steps, i);
    StoppedHearsNoMore(states, steps, i + 1, j, id);
  }

  // ---------------------------------------------------------------- who stops a listener

  // The outcome that a step writes for a listener that has none.
  function CauseOf(s: State, step: Step, id: nat): Option<Outcome>
    requires id in s.clients
  {
    match step
    case Return(i, Failed(error)) => if i == id then Some(Callback(error)) else None
    case Return(i, Panic) => if i == id then Some(Panicked) else None
    case Cancel(i) => if i == id then Some(Done) else None
    case Abandon(i) => if i == id then Some(Done) else None
    case TryReserve =>
      if s.emission.None? || s.emission.value.chosen == [] || s.emission.value.chosen[0] != id then None
      else ReserveCause(s.clients[id].box)
    case _ => None
  }

  // The emitter finds the receiving side gone, or the queue full.
  function ReserveCause(b: Mailbox): Option<Outcome> {
    if b.closed then Some(Done) else if |b.queue| + b.permits >= b.capacity then Some(Overflow) else None
  }

  ghost predicate Stops(s: State, step: Step, id: nat, outcome: Outcome) {
    id in s.clients && s.clients[id].box.stopped.None? && CauseOf(s, step, id) == Some(outcome)
  }

  ghost predicate IsStopped(s: State, id: nat, outcome: Outcome) {
    id in s.clients && s.clients[id].box.stopped == Some(outcome)
  }

  lemma WorkerCause(s: State, step: Step, c: Client, id: nat, outcome: Outcome)
    requires !IsRegistryStep(step) && !IsEmitterStep(step) && step.id == id
    requires id in s.clients && WorkerStep(s.clients[id], step) == Some(c)
    ensures c.box.stopped == Some(outcome) <==> IsStopped(s, id, outcome) || Stops(s, step, id, outcome)
  {
  }

  lemma EmitterCause(s: State, m: Emission, step: Step, t: State, id: nat, outcome: Outcome)
    requires s.emission == Some(m) && EmitterStep(s, m, step) == Some(t)
    ensures IsStopped(t, id, outcome) <==> IsStopped(s, id, outcome) || Stops(s, step, id, outcome)
  {
  }

  lemma RegistryCause(s: State, step: Step, t: State, id: nat, outcome: Outcome)
    requires IsRegistryStep(step) && RegistryStep(s, step) == Some(t)
    ensures IsStopped(t, id, outcome) <==> IsStopped(s, id, outcome) || Stops(s, step, id, outcome)
  {
  }

  lemma StepCause(s: State, step: Step, t: State, id: nat, outcome: Outcome)
    requires Next(s, step) == Some(t)
    ensures IsStopped(t, id, outcome) <==> IsStopped(s, id, outcome) || Stops(s, step, id, outcome)
  {
    if IsRegistryStep(step) {
      RegistryCause(s, step, t, id, outcome);
    } else if IsEmitterStep(step) {
      EmitterCause(s, s.emission.value, step, t, id, outcome);
    } else if step.id == id {
      WorkerCause(s, step, t.clients[id], id, outcome);
    }
  }

  // One of the first steps wrote this outcome.
  ghost predicate WasStopped(states: seq<State>, steps: seq<Step>, j: nat, id: nat, outcome: Outcome)
    requires j <= |steps| < |states|
  {
    j > 0 && (Stops(states[j - 1], steps[j - 1], id, outcome) || WasStopped(states, steps, j - 1, id, outcome))
  }

  lemma {:induction false} StoppedBefore(states: seq<State>, steps: seq<Step>, j: nat, id: nat, outcome: Outcome)
    requires j <= |steps| < |states|
    ensures WasStopped(states, steps, j, id, outcome)
       <==> exists i: nat :: i < j && Stops(states[i], steps[i], id, outcome)
  {
    if j > 0 { StoppedBefore(states, steps, j - 1, id, outcome); }
  }

  lemma {:induction false} StoppedHasCause(states: seq<State>, steps: seq<Step>, j: nat, id: nat, outcome: Outcome)
    requires IsRun(states, steps) && j < |states|
    ensures IsStopped(states[j], id, outcome) <==> WasStopped(states, steps, j, id, outcome)
  {
    if j > 0 {
      StoppedHasCause(states, steps, j - 1, id, outcome);
      StepOf(states, steps, j - 1);
      StepCause(states[j - 1], steps[j - 1], states[j], id, outcome);
    }
  }

  // In every run a listener has an outcome exactly when a step gave it that one while it had none: its
  // callback failed or panicked, it was cancelled or abandoned, or the emitter found its queue full or
  // its receiving side gone. Nothing else stops a listener, not even the loss of its worker.
  lemma OutcomeHasCause(states: seq<State>, steps: seq<Step>, j: nat, id: nat, outcome: Outcome)
    requires IsRun(states, steps) && j < |states|
    ensures IsStopped(states[j], id, outcome)
       <==> exists i: nat :: i < j && Stops(states[i], steps[i], id, outcome)
  {
    StoppedHasCause(states, steps, j, id, outcome);
    StoppedBefore(states, steps, j, id, outcome);
  }
}
