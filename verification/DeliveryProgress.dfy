/** Delivery makes progress: queued events reach the subscriber, an emission in progress comes to its
    end, and a stopped or cancelled subscription leaves the registry. */
module DeliveryProgress {
  import opened Wrappers
  import opened ChangeFeed
  import opened Delivery

  function Follow(s: State, steps: seq<Step>): Option<State>
    decreases |steps|
  {
    if steps == [] then Some(s) else
      var next :- Next(s, steps[0]);
      Follow(next, steps[1..])
  }

  lemma FollowOne(s: State, step: Step, next: State, more: seq<Step>)
    requires Next(s, step) == Some(next)
    ensures Follow(s, [step] + more) == Follow(next, more)
  {
    assert ([step] + more)[1..] == more;
  }

  // ---------------------------------------------------------------- one listener by itself

  // A step of this listener's worker inside its loop.
  predicate IsLoopStep(step: Step, id: nat) {
    (step.Receive? || step.Confirm? || step.Return? || step.SeeStop?) && step.id == id
  }

  predicate AreLoopSteps(steps: seq<Step>, id: nat) {
    forall i :: 0 <= i < |steps| ==> IsLoopStep(steps[i], id)
  }

  function FollowClient(c: Client, steps: seq<Step>): Option<Client>
    decreases |steps|
  {
    if steps == [] then Some(c) else
      var next :- WorkerStep(c, steps[0]);
      FollowClient(next, steps[1..])
  }

  lemma FollowClientOne(c: Client, step: Step, next: Client, more: seq<Step>)
    requires WorkerStep(c, step) == Some(next)
    ensures FollowClient(c, [step] + more) == FollowClient(next, more)
  {
    assert ([step] + more)[1..] == more;
  }

  function WithClient(s: State, id: nat, c: Client): State {
    s.(clients := s.clients[id := c])
  }

  lemma LoopStepIsNext(s: State, step: Step, id: nat, c: Client)
    requires id in s.clients && IsLoopStep(step, id) && WorkerStep(s.clients[id], step) == Some(c)
    ensures Next(s, step) == Some(WithClient(s, id, c))
  {
  }

  // What a worker can do by itself, it can do in the system, whatever the others are at.
  lemma {:induction false} LoopStepsLift(s: State, id: nat, steps: seq<Step>)
    requires id in s.clients && AreLoopSteps(steps, id) && FollowClient(s.clients[id], steps).Some?
    ensures Follow(s, steps) == Some(WithClient(s, id, FollowClient(s.clients[id], steps).value))
    decreases |steps|
  {
    if steps == [] {
      assert s.clients[id := s.clients[id]] == s.clients;
    } else {
      var c := WorkerStep(s.clients[id], steps[0]).value;
      var next := WithClient(s, id, c);
      assert IsLoopStep(steps[0], id);
      LoopStepIsNext(s, steps[0], id, c);
      LoopStepsLift(next, id, steps[1..]);
      var last := FollowClient(c, steps[1..]).value;
      assert s.clients[id := c][id := last] == s.clients[id := last];
    }
  }

  // ---------------------------------------------------------------- queued events are delivered

  function StepsToGo(c: Client): nat {
    3 * |c.box.queue| + (match c.worker case Holding(_) => 2 case Calling(_) => 1 case _ => 0)
  }

  // Still in its loop.
  predicate IsLooping(w: Worker) {
    w.Waiting? || w.Holding? || w.Calling?
  }

  // Everything that had arrived is handed over, and the listener waits for more.
  ghost predicate Drained(c: Client, d: Client) {
    && d.handed == Received(c) && d.worker == Waiting
    && d.box == c.box.(queue := []) && d.since == c.since && d.cancelled == c.cancelled
  }

  function Going(c: Client, id: nat): Step {
    match c.worker
    case Holding(_) => Confirm(id)
    case Calling(_) => Return(id, Fine)
    case _ => Receive(id)
  }

  lemma GoesOn(c: Client, id: nat, next: Client)
    requires Active(c.box) && IsLooping(c.worker) && (c.worker.Waiting? ==> c.box.queue != [])
    requires WorkerStep(c, Going(c, id)) == Some(next)
    ensures Active(next.box) && IsLooping(next.worker) && StepsToGo(next) < StepsToGo(c)
    ensures Received(next) == Received(c) && next.box.(queue := []) == c.box.(queue := [])
    ensures next.since == c.since && next.cancelled == c.cancelled
  {
    WorkerKeepsReceived(c, Going(c, id), next);
  }

  lemma {:induction false} ClientDrains(c: Client, id: nat) returns (steps: seq<Step>)
    requires Active(c.box) && IsLooping(c.worker)
    ensures AreLoopSteps(steps, id) && FollowClient(c, steps).Some? && Drained(c, FollowClient(c, steps).value)
    decreases StepsToGo(c)
  {
    if c.worker.Waiting? && c.box.queue == [] {
      steps := [];
      assert c.handed + [] + [] == c.handed;
    } else {
      var next := WorkerStep(c, Going(c, id)).value;
      GoesOn(c, id, next);
      var more := ClientDrains(next, id);
      steps := [Going(c, id)] + more;
      FollowClientOne(c, Going(c, id), next, more);
    }
  }

  // While a listener is not stopped, what has arrived in its queue can be delivered to the last event,
  // even in the middle of an emission; nobody else has to move.
  lemma QueueDrains(s: State, id: nat) returns (steps: seq<Step>)
    requires id in s.clients && Active(s.clients[id].box) && IsLooping(s.clients[id].worker)
    ensures Follow(s, steps).Some?
    ensures var t := Follow(s, steps).value;
      id in t.clients && t == WithClient(s, id, t.clients[id]) && Drained(s.clients[id], t.clients[id])
  {
    steps := ClientDrains(s.clients[id], id);
    LoopStepsLift(s, id, steps);
  }

  // ---------------------------------------------------------------- the end of a subscription

  // A stopped worker leaves its loop at once: it neither takes another event nor waits for a callback.
  function LeaveLoop(c: Client, id: nat): seq<Step> {
    if c.worker.Holding? then [Confirm(id)] else if IsLooping(c.worker) then [SeeStop(id)] else []
  }

  lemma LoopIsLeft(c: Client, id: nat)
    requires !Active(c.box) && !c.worker.Gone?
    ensures AreLoopSteps(LeaveLoop(c, id), id) && FollowClient(c, LeaveLoop(c, id)).Some?
    ensures FollowClient(c, LeaveLoop(c, id)).value == c.(worker := Leaving(InHand(c.worker)))
  {
    if c.worker.Holding? {
      FollowClientOne(c, Confirm(id), WorkerStep(c, Confirm(id)).value, []);
      assert [Confirm(id)] + [] == [Confirm(id)];
    } else if IsLooping(c.worker) {
      FollowClientOne(c, SeeStop(id), WorkerStep(c, SeeStop(id)).value, []);
      assert [SeeStop(id)] + [] == [SeeStop(id)];
    }
  }

  lemma {:induction false} FollowAppend(s: State, a: seq<Step>, b: seq<Step>, mid: State)
    requires Follow(s, a) == Some(mid)
    ensures Follow(s, a + b) == Follow(mid, b)
    decreases |a|
  {
    if a == [] {
      assert a + b == b;
    } else {
      assert (a + b)[1..] == a[1..] + b;
      FollowAppend(Next(s, a[0]).value, a[1..], b, mid);
    }
  }

  lemma RemoveIsNext(s: State, id: nat)
    requires s.emission.None? && id in s.clients && (s.clients[id].worker.Leaving? || s.clients[id].cancelled)
    ensures Next(s, Remove(id)) == Some(s.(registered := Without(s.registered, id)))
  {
  }

  lemma LeaveIsNext(s: State, id: nat)
    requires id in s.clients && id !in s.registered && s.clients[id].worker.Leaving?
    ensures Next(s, Leave(id)).Some?
    ensures var t := Next(s, Leave(id)).value;
      t.registered == s.registered && id in t.clients && t.clients[id].worker.Gone? && t.clients[id].box.closed
  {
  }

  // A stopped subscription cleans up behind itself once no emission holds the registry: it is no longer
  // registered, and its queue is closed. No callback has to come back for that.
  lemma StoppedLeaves(s: State, id: nat) returns (steps: seq<Step>)
    requires Invariant(s) && s.emission.None? && id in s.clients
    requires !Active(s.clients[id].box) && !s.clients[id].worker.Gone?
    ensures forall i :: 0 <= i < |steps| ==> !steps[i].Return? && !steps[i].Receive?
    ensures Follow(s, steps).Some?
    ensures var t := Follow(s, steps).value;
      && id in t.clients && t.clients[id].worker.Gone? && t.clients[id].box.closed
      && id !in t.registered && forall i :: i in t.registered <==> i in s.registered && i != id
  {
    var a := LeaveLoop(s.clients[id], id);
    LoopIsLeft(s.clients[id], id);
    LoopStepsLift(s, id, a);
    var left := Follow(s, a).value;
    var removed := left.(registered := Without(s.registered, id));
    RemoveIsNext(left, id);
    WithoutHas(s.registered, id);
    LeaveIsNext(removed, id);
    var gone := Next(removed, Leave(id)).value;
    FollowOne(removed, Leave(id), gone, []);
    FollowOne(left, Remove(id), removed, [Leave(id)] + []);
    steps := a + ([Remove(id)] + ([Leave(id)] + []));
    FollowAppend(s, a, [Remove(id)] + ([Leave(id)] + []), left);
  }

  // Cancelling unregisters the listener without any help of its worker.
  lemma CancelUnregisters(s: State, id: nat)
    requires Invariant(s) && s.emission.None? && id in s.clients
    ensures Follow(s, [Cancel(id)] + ([Remove(id)] + [])).Some?
    ensures var t := Follow(s, [Cancel(id)] + ([Remove(id)] + [])).value;
      && id in t.clients && t.clients[id].worker == s.clients[id].worker && !Active(t.clients[id].box)
      && forall i :: i in t.registered <==> i in s.registered && i != id
  {
    var cancelled := WithClient(s, id, WorkerStep(s.clients[id], Cancel(id)).value);
    assert Next(s, Cancel(id)) == Some(cancelled);
    RemoveIsNext(cancelled, id);
    WithoutHas(s.registered, id);
    FollowOne(cancelled, Remove(id), cancelled.(registered := Without(s.registered, id)), []);
    FollowOne(s, Cancel(id), cancelled, [Remove(id)] + []);
  }

  // ---------------------------------------------------------------- an emission comes to its end

  function EmitterNext(m: Emission): Step {
    if m.unchecked != [] then Check
    else if m.chosen == [] then EndEmit
    else match m.progress case Untried => Probe case Probed => TryReserve case Permitted => Fill
  }

  function TriesLeft(p: Progress): nat {
    match p case Untried => 2 case Probed => 1 case Permitted => 0
  }

  function EmissionLeft(m: Emission): nat {
    6 * |m.unchecked| + 3 * |m.chosen| + (if m.chosen == [] then 0 else TriesLeft(m.progress))
  }

  // The emitter touches nothing but the boxes.
  ghost predicate OnlyBoxes(s: State, t: State) {
    && t.registered == s.registered && t.history == s.history && t.clients.Keys == s.clients.Keys
    && forall id :: id in s.clients ==> t.clients[id] == s.clients[id].(box := t.clients[id].box)
  }

  lemma EmitterIsEnabled(s: State, m: Emission)
    requires Invariant(s) && s.emission == Some(m)
    ensures EmitterStep(s, m, EmitterNext(m)).Some?
  {
    if m.unchecked != [] {
      assert m.unchecked[0] in m.unchecked;
    } else if m.chosen != [] {
      assert m.chosen[0] in m.chosen;
      assert BoxOk(m.chosen[0], s.clients[m.chosen[0]], s.registered, s.emission);
    }
  }

  lemma EmitterKeepsRest(s: State, m: Emission, step: Step, t: State)
    requires EmitterStep(s, m, step) == Some(t)
    ensures OnlyBoxes(s, t)
  {
  }

  lemma EmissionShrinks(s: State, m: Emission, t: State)
    requires EmitterStep(s, m, EmitterNext(m)) == Some(t)
    ensures t.emission.Some? <==> m.unchecked != [] || m.chosen != []
    ensures t.emission.Some? ==> EmissionLeft(t.emission.value) < EmissionLeft(m)
  {
  }

  lemma EmitterNextIs(s: State, m: Emission)
    requires s.emission == Some(m)
    ensures Next(s, EmitterNext(m)) == EmitterStep(s, m, EmitterNext(m))
  {
  }

  // An emission is never stuck: from any point of it the emitter alone can finish it.
  lemma {:induction false} EmissionCompletes(s: State) returns (steps: seq<Step>)
    requires Invariant(s) && s.emission.Some?
    ensures Follow(s, steps).Some? && Follow(s, steps).value.emission.None? && OnlyBoxes(s, Follow(s, steps).value)
    decreases EmissionLeft(s.emission.value)
  {
    var m := s.emission.value;
    EmitterIsEnabled(s, m);
    EmitterNextIs(s, m);
    var next := Next(s, EmitterNext(m)).value;
    EmitterKeepsRest(s, m, EmitterNext(m), next);
    NextKeepsInvariant(s, EmitterNext(m));
    EmissionShrinks(s, m, next);
    var more := [];
    if next.emission.Some? { more := EmissionCompletes(next); }
    steps := [EmitterNext(m)] + more;
    FollowOne(s, EmitterNext(m), next, more);
  }

  // ---------------------------------------------------------------- capacities

  lemma CapacityStep(s: State, step: Step, next: State, id: nat)
    requires Next(s, step) == Some(next) && id in next.clients
    requires id in s.clients ==> s.clients[id].box.capacity > 0
    ensures next.clients[id].box.capacity > 0
  {
  }

  // Every listener has room for at least one event.
  lemma {:induction false} CapacityIsPositive(states: seq<State>, steps: seq<Step>, i: nat, id: nat)
    requires IsRun(states, steps) && i < |states| && id in states[i].clients
    ensures states[i].clients[id].box.capacity > 0
  {
    if i > 0 {
      StepOf(states, steps, i - 1);
      if id in states[i - 1].clients { CapacityIsPositive(states, steps, i - 1, id); }
      CapacityStep(states[i - 1], steps[i - 1], states[i], id);
    }
  }

  // ---------------------------------------------------------------- after a worker has left

  lemma UnregisteredStays(s: State, step: Step, next: State, id: nat)
    requires Invariant(s) && Next(s, step) == Some(next) && id in s.clients && id !in s.registered
    ensures id in next.clients && id !in next.registered
  {
    if step.Remove? || step.Abandon? { WithoutHas(s.registered, step.id); }
  }

  lemma LeavingIsUnregistered(s: State, id: nat)
    requires Next(s, Leave(id)).Some?
    ensures var t := Next(s, Leave(id)).value; id in t.clients && id !in t.registered
  {
  }

  // A worker that has ended by itself leaves nothing in the registry, for the rest of the run.
  lemma {:induction false} LeftIsUnregistered(states: seq<State>, steps: seq<Step>, i: nat, j: nat, id: nat)
    requires IsRun(states, steps) && i < j < |states| && steps[i] == Leave(id)
    ensures id in states[j].clients && id !in states[j].registered
  {
    StepOf(states, steps, j - 1);
    if i == j - 1 {
      LeavingIsUnregistered(states[i], id);
    } else {
      LeftIsUnregistered(states, steps, i, j - 1, id);
      RunKeepsInvariant(states, steps, j - 1);
      UnregisteredStays(states[j - 1], steps[j - 1], states[j], id);
    }
  }

  // ---------------------------------------------------------------- which events a listener gets

  // Each kind of event has its own option.
  predicate Wants(o: Options, event: Event) {
    || (event.Read? && o.read) || (event.Write? && o.write) || (event.Delete? && o.delete)
    || (event.TableCreated? && o.created) || (event.TableUpdated? && o.updated) || (event.TableDropped? && o.dropped)
  }

  // What a listener asked for is every event of its kinds, as often as it was emitted, and no other.
  lemma {:induction false} AcceptedByKind(o: Options, events: seq<Event>, event: Event)
    ensures multiset(Accepted(o, events))[event] == if Wants(o, event) then multiset(events)[event] else 0
  {
    if events != [] {
      var init, last := events[..|events| - 1], events[|events| - 1];
      InitAndLast(events);
      AcceptedByKind(o, init, event);
    }
  }
}
