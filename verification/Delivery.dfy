/** Delivery of change events: a registry of listeners, each with a bounded queue, a worker that
    calls the subscriber back, and a stop state that is written once. Every step below is one lock
    section, one read of the stop state or one queue operation of the source, and steps of different
    threads may be interleaved in any order. */
module Delivery {
  import opened Wrappers
  import opened ChangeFeed

  // Done stands for Ok(()): cancelled, or the receiving side was gone.
  datatype Outcome = Done | Overflow | Callback(error: string) | Panicked

  // ---------------------------------------------------------------- one listener

  datatype Mailbox = Mailbox(
    options: Options, capacity: nat, queue: seq<Event>, permits: nat, closed: bool, stopped: Option<Outcome>)

  predicate Active(b: Mailbox) {
    b.stopped.None?
  }

  // Not stopped, and somebody is there to receive.
  predicate IsOpen(b: Mailbox) {
    Active(b) && !b.closed
  }

  function Stopped(b: Mailbox, outcome: Outcome): Mailbox {
    if b.stopped.Some? then b else b.(stopped := Some(outcome))
  }

  predicate HasRoom(b: Mailbox) {
    !b.closed && |b.queue| + b.permits < b.capacity
  }

  // One slot of the queue for the sender, or a stop.
  function Reserved(b: Mailbox): Mailbox {
    if b.closed then Stopped(b, Done)
    else if |b.queue| + b.permits >= b.capacity then Stopped(b, Overflow)
    else b.(permits := b.permits + 1)
  }

  // The slot is filled; a closed queue drops the event.
  function Filled(b: Mailbox, event: Event): Mailbox
    requires b.permits > 0
  {
    b.(permits := b.permits - 1, queue := if b.closed then b.queue else b.queue + [event])
  }

  function Sent(b: Mailbox, event: Event): Mailbox {
    if !Active(b) then b
    else if HasRoom(b) then Filled(Reserved(b), event)
    else Reserved(b)
  }

  function Closed(b: Mailbox): Mailbox {
    b.(closed := true, queue := [])
  }

  // ---------------------------------------------------------------- the whole system

  // Where the worker is: between callbacks, with an event it has not looked at yet, in a callback,
  // past its loop, or gone with the queue closed.
  datatype Worker =
    | Waiting
    | Holding(event: Event)
    | Calling(event: Event)
    | Leaving(lost: seq<Event>)
    | Gone(lost: seq<Event>)

  datatype Client = Client(box: Mailbox, since: nat, handed: seq<Event>, worker: Worker, cancelled: bool)

  // Progress with the listener at the head of `chosen`.
  datatype Progress = Untried | Probed | Permitted

  // An `emit` in progress; it holds the registry lock from its first step to its last.
  datatype Emission = Emission(event: Event, unchecked: seq<nat>, chosen: seq<nat>, progress: Progress)

  datatype State = State(clients: map<nat, Client>, registered: seq<nat>, emission: Option<Emission>,
      history: seq<Event>)

  datatype Answer = Fine | Failed(error: string) | Panic

  datatype Step =
    | Subscribe(id: nat, options: Options, capacity: nat)
    | BeginEmit(event: Event)
    | Check
    | Probe
    | TryReserve
    | Fill
    | EndEmit
    | Receive(id: nat)
    | Confirm(id: nat)
    | Return(id: nat, answer: Answer)
    | SeeStop(id: nat)
    | Leave(id: nat)
    | Drop(id: nat)
    | Cancel(id: nat)
    | Abandon(id: nat)
    | Remove(id: nat)

  function InHand(w: Worker): seq<Event> {
    match w
    case Waiting => []
    case Holding(e) => [e]
    case Calling(e) => [e]
    case Leaving(lost) => lost
    case Gone(lost) => lost
  }

  // Delivered, in flight, queued.
  function Received(c: Client): seq<Event> {
    c.handed + InHand(c.worker) + c.box.queue
  }

  function Without<T(==)>(ids: seq<T>, id: T): seq<T> {
    if ids == [] then []
    else if ids[|ids| - 1] == id then Without(ids[..|ids| - 1], id)
    else Without(ids[..|ids| - 1], id) + [ids[|ids| - 1]]
  }

  // What a worker step makes of its client; None when the step is not enabled.
  function WorkerStep(c: Client, step: Step): Option<Client> {
    match step
    case Receive(_) =>
      if c.worker.Waiting? && c.box.queue != []
      then Some(c.(worker := Holding(c.box.queue[0]), box := c.box.(queue := c.box.queue[1..])))
      else None
    case Confirm(_) =>
      if !c.worker.Holding? then None
      else if Active(c.box) then Some(c.(worker := Calling(c.worker.event)))
      else Some(c.(worker := Leaving([c.worker.event])))
    case Return(_, answer) =>
      if !c.worker.Calling? then None else
        var handed := c.handed + [c.worker.event];
        (match answer
         case Fine => Some(c.(handed := handed, worker := Waiting))
         case Failed(error) => Some(c.(handed := handed, worker := Leaving([]), box := Stopped(c.box, Callback(error))))
         case Panic => Some(c.(handed := handed, worker := Leaving([]), box := Stopped(c.box, Panicked))))
    case SeeStop(_) =>
      if Active(c.box) || !(c.worker.Waiting? || c.worker.Calling?) then None
      else Some(c.(worker := Leaving(InHand(c.worker))))
    case Leave(_) =>
      if c.worker.Leaving? then Some(c.(worker := Gone(c.worker.lost), box := Closed(c.box))) else None
    case Drop(_) => if c.worker.Gone? then None else Some(c.(worker := Gone(InHand(c.worker)), box := Closed(c.box)))
    case Cancel(_) => Some(c.(cancelled := true, box := Stopped(c.box, Done)))
    case _ => None
  }

  function WithBox(s: State, id: nat, box: Mailbox): State
    requires id in s.clients
  {
    s.(clients := s.clients[id := s.clients[id].(box := box)])
  }

  // The emitter's steps, while it holds the lock.
  function EmitterStep(s: State, m: Emission, step: Step): Option<State> {
    match step
    case Check =>
      if m.unchecked == [] || m.unchecked[0] !in s.clients then None else
        var id := m.unchecked[0];
        var wanted := Active(s.clients[id].box) && s.clients[id].box.options.Accepts(m.event);
        var chosen := if wanted then m.chosen + [id] else m.chosen;
        Some(s.(emission := Some(m.(unchecked := m.unchecked[1..], chosen := chosen))))
    case Probe =>
      if m.unchecked != [] || m.chosen == [] || m.progress != Untried || m.chosen[0] !in s.clients then None
      else if Active(s.clients[m.chosen[0]].box) then Some(s.(emission := Some(m.(progress := Probed))))
      else Some(s.(emission := Some(m.(chosen := m.chosen[1..]))))
    case TryReserve =>
      if m.unchecked != [] || m.chosen == [] || m.progress != Probed || m.chosen[0] !in s.clients then None else
        var box := s.clients[m.chosen[0]].box;
        var next := if HasRoom(box) then m.(progress := Permitted)
            else m.(chosen := m.chosen[1..], progress := Untried);
        Some(WithBox(s, m.chosen[0], Reserved(box)).(emission := Some(next)))
    case Fill =>
      if m.unchecked != [] || m.chosen == [] || m.progress != Permitted || m.chosen[0] !in s.clients
         || s.clients[m.chosen[0]].box.permits == 0 then None else
        Some(WithBox(s, m.chosen[0], Filled(s.clients[m.chosen[0]].box, m.event))
             .(emission := Some(m.(chosen := m.chosen[1..], progress := Untried))))
    case EndEmit => if m.unchecked == [] && m.chosen == [] then Some(s.(emission := None)) else None
    case _ => None
  }

  // Steps that take the registry lock, so none of them happens during an emission.
  function RegistryStep(s: State, step: Step): Option<State> {
    match step
    case Subscribe(id, options, capacity) =>
      if id in s.clients || capacity == 0 then None else
        var c := Client(Mailbox(options, capacity, [], 0, false, None), |s.history|, [], Waiting, false);
        Some(s.(clients := s.clients[id := c], registered := s.registered + [id]))
    case BeginEmit(event) =>
      Some(s.(history := s.history + [event], emission := Some(Emission(event, s.registered, [], Untried))))
    case Remove(id) =>
      if id in s.clients && (s.clients[id].worker.Leaving? || s.clients[id].cancelled)
      then Some(s.(registered := Without(s.registered, id)))
      else None
    case Abandon(id) =>
      if id !in s.clients then None
      else Some(WithBox(s, id, Stopped(s.clients[id].box, Done)).(registered := Without(s.registered, id)))
    case _ => None
  }

  predicate IsRegistryStep(step: Step) {
    step.Subscribe? || step.BeginEmit? || step.Remove? || step.Abandon?
  }

  predicate IsEmitterStep(step: Step) {
    step.Check? || step.Probe? || step.TryReserve? || step.Fill? || step.EndEmit?
  }

  function Next(s: State, step: Step): Option<State> {
    if IsRegistryStep(step) then (if s.emission.None? then RegistryStep(s, step) else None)
    else if IsEmitterStep(step) then (if s.emission.Some? then EmitterStep(s, s.emission.value, step) else None)
    else if step.id !in s.clients || (step.Leave? && step.id in s.registered) then None
    else
      match WorkerStep(s.clients[step.id], step)
      case None => None
      case Some(c) => Some(s.(clients := s.clients[step.id := c]))
  }

  // ---------------------------------------------------------------- the invariant

  // The events a client asked for, since it subscribed.
  function Asked(c: Client, history: seq<Event>): seq<Event>
    requires c.since <= |history|
  {
    Accepted(c.box.options, history[c.since..])
  }

  // The emission in progress still has to try this client.
  predicate IsPending(id: nat, c: Client, emission: Option<Emission>) {
    && emission.Some? && (id in emission.value.unchecked || id in emission.value.chosen)
    && c.box.options.Accepts(emission.value.event)
  }

  predicate IsAtHead(id: nat, emission: Option<Emission>, progress: Progress) {
    && emission.Some? && emission.value.chosen != [] && emission.value.chosen[0] == id
    && emission.value.progress == progress
  }

  // Found active by the emitter, which is about to fill a slot of its queue.
  predicate IsBeingServed(id: nat, emission: Option<Emission>) {
    IsAtHead(id, emission, Probed) || IsAtHead(id, emission, Permitted)
  }

  ghost predicate StreamOk(id: nat, c: Client, emission: Option<Emission>, history: seq<Event>) {
    && c.since <= |history|
    && Received(c) <= Asked(c, history)
    && (IsOpen(c.box) && !IsPending(id, c, emission) ==> Received(c) == Asked(c, history))
    && (IsOpen(c.box) && IsPending(id, c, emission) ==> Received(c) + [emission.value.event] == Asked(c, history))
    && (!c.box.closed && IsBeingServed(id, emission) ==> Received(c) + [emission.value.event] == Asked(c, history))
  }

  ghost predicate BoxOk(id: nat, c: Client, registered: seq<nat>, emission: Option<Emission>) {
    && |c.box.queue| + c.box.permits <= c.box.capacity
    && c.box.permits == (if IsAtHead(id, emission, Permitted) then 1 else 0)
    && (c.box.closed <==> c.worker.Gone?) && (c.box.closed ==> c.box.queue == [])
    && (Active(c.box) ==> id in registered && !c.cancelled && !c.worker.Leaving?)
  }

  ghost predicate NoRepeats(ids: seq<nat>) {
    forall i, j :: 0 <= i < j < |ids| ==> ids[i] != ids[j]
  }

  ghost predicate EmissionOk(s: State, m: Emission) {
    && NoRepeats(m.unchecked + m.chosen)
    && (m.unchecked != [] || m.chosen == [] ==> m.progress == Untried)
    && (forall id :: id in m.unchecked ==> id in s.clients)
    && (forall id :: id in m.chosen ==> id in s.clients && s.clients[id].box.options.Accepts(m.event))
    && s.history != [] && s.history[|s.history| - 1] == m.event
  }

  ghost predicate ListsOk(s: State) {
    && NoRepeats(s.registered) && (forall id :: id in s.registered ==> id in s.clients)
    && (s.emission.Some? ==> EmissionOk(s, s.emission.value))
  }

  ghost predicate ClientOk(id: nat, c: Client, registered: seq<nat>, emission: Option<Emission>, history: seq<Event>) {
    BoxOk(id, c, registered, emission) && StreamOk(id, c, emission, history)
  }

  ghost predicate Invariant(s: State) {
    ListsOk(s) && forall id :: id in s.clients ==> ClientOk(id, s.clients[id], s.registered, s.emission, s.history)
  }

  const NOBODY := State(map[], [], None, [])

  // ---------------------------------------------------------------- worker steps

  lemma WorkerKeepsBox(id: nat, c: Client, step: Step, next: Client, registered: seq<nat>, emission: Option<Emission>)
    requires WorkerStep(c, step) == Some(next) && BoxOk(id, c, registered, emission)
    ensures BoxOk(id, next, registered, emission)
    ensures Active(next.box) ==> Active(c.box)
    ensures next.box.options == c.box.options && next.since == c.since
  {
  }

  lemma WorkerKeepsReceived(c: Client, step: Step, next: Client)
    requires WorkerStep(c, step) == Some(next)
    ensures step.Leave? || step.Drop? || (Received(next) == Received(c) && next.box.closed == c.box.closed)
    ensures step.Leave? || step.Drop? ==> Received(next) <= Received(c) && next.box.closed
  {
    if step.Receive? {
      var q := c.box.queue;
      assert c.handed + [q[0]] + q[1..] == c.handed + [] + q by { assert q == [q[0]] + q[1..]; }
    }
  }

  lemma WorkerKeepsClient(
    id: nat, c: Client, step: Step, next: Client, registered: seq<nat>, emission: Option<Emission>, history: seq<Event>)
    requires WorkerStep(c, step) == Some(next) && ClientOk(id, c, registered, emission, history)
    ensures ClientOk(id, next, registered, emission, history)
  {
    WorkerKeepsBox(id, c, step, next, registered, emission);
    WorkerKeepsReceived(c, step, next);
  }

  lemma WorkerKeepsInvariant(s: State, step: Step)
    requires Invariant(s) && !IsRegistryStep(step) && !IsEmitterStep(step) && Next(s, step).Some?
    ensures Invariant(Next(s, step).value)
  {
    var next := Next(s, step).value;
    WorkerKeepsClient(step.id, s.clients[step.id], step, next.clients[step.id], s.registered, s.emission, s.history);
    WorkerKeepsBox(step.id, s.clients[step.id], step, next.clients[step.id], s.registered, s.emission);
  }

  // ---------------------------------------------------------------- registry steps

  lemma AskedGrows(c: Client, history: seq<Event>, event: Event)
    requires c.since <= |history|
    ensures Asked(c, history + [event])
         == if c.box.options.Accepts(event) then Asked(c, history) + [event] else Asked(c, history)
  {
    assert (history + [event])[c.since..] == history[c.since..] + [event];
    AcceptedAppend(c.box.options, history[c.since..], [event]);
    AcceptedSingle(c.box.options, event);
  }

  lemma BeginEmitKeepsClient(id: nat, c: Client, registered: seq<nat>, history: seq<Event>, event: Event)
    requires ClientOk(id, c, registered, None, history)
    ensures ClientOk(id, c, registered, Some(Emission(event, registered, [], Untried)), history + [event])
  {
    AskedGrows(c, history, event);
  }

  lemma BeginEmitKeepsInvariant(s: State, event: Event)
    requires Invariant(s) && s.emission.None?
    ensures Invariant(RegistryStep(s, BeginEmit(event)).value)
  {
    forall id | id in s.clients
      ensures ClientOk(id, s.clients[id], s.registered, Some(Emission(event, s.registered, [], Untried)),
          s.history + [event]) {
      BeginEmitKeepsClient(id, s.clients[id], s.registered, s.history, event);
    }
    assert s.registered + [] == s.registered;
  }

  lemma NewClientOk(id: nat, options: Options, capacity: nat, registered: seq<nat>, history: seq<Event>)
    requires id in registered
    ensures ClientOk(id, Client(Mailbox(options, capacity, [], 0, false, None), |history|, [], Waiting, false),
        registered, None, history)
  {
    assert history[|history|..] == [];
  }

  lemma SubscribeKeepsInvariant(s: State, id: nat, options: Options, capacity: nat)
    requires Invariant(s) && s.emission.None? && RegistryStep(s, Subscribe(id, options, capacity)).Some?
    ensures Invariant(RegistryStep(s, Subscribe(id, options, capacity)).value)
  {
    NewClientOk(id, options, capacity, s.registered + [id], s.history);
    assert id !in s.registered;
  }

  lemma {:induction false} WithoutHas(ids: seq<nat>, id: nat)
    requires NoRepeats(ids)
    ensures NoRepeats(Without(ids, id))
    ensures forall i :: i in Without(ids, id) <==> i in ids && i != id
  {
    if ids != [] {
      WithoutHas(ids[..|ids| - 1], id);
      assert forall i :: i in ids <==> i in ids[..|ids| - 1] || i == ids[|ids| - 1];
      assert ids[|ids| - 1] !in ids[..|ids| - 1];
    }
  }

  lemma RemoveKeepsInvariant(s: State, id: nat)
    requires Invariant(s) && s.emission.None? && RegistryStep(s, Remove(id)).Some?
    ensures Invariant(RegistryStep(s, Remove(id)).value)
  {
    WithoutHas(s.registered, id);
    assert ClientOk(id, s.clients[id], s.registered, s.emission, s.history);
  }

  lemma AbandonKeepsInvariant(s: State, id: nat)
    requires Invariant(s) && s.emission.None? && RegistryStep(s, Abandon(id)).Some?
    ensures Invariant(RegistryStep(s, Abandon(id)).value)
  {
    WithoutHas(s.registered, id);
    assert ClientOk(id, s.clients[id], s.registered, s.emission, s.history);
  }

  // ---------------------------------------------------------------- emitter steps

  lemma Rotate(u: seq<nat>, chosen: seq<nat>)
    requires u != [] && NoRepeats(u + chosen)
    ensures NoRepeats(u[1..] + (chosen + [u[0]])) && NoRepeats(u[1..] + chosen)
  {
    var all, turned := u + chosen, u[1..] + (chosen + [u[0]]);
    forall i, j | 0 <= i < j < |turned| ensures turned[i] != turned[j] {
      assert turned[i] == all[i + 1];
      if j < |turned| - 1 { assert turned[j] == all[j + 1]; } else { assert turned[j] == all[0]; }
    }
    forall i, j | 0 <= i < j < |all| - 1 ensures (u[1..] + chosen)[i] != (u[1..] + chosen)[j] {
      assert (u[1..] + chosen)[i] == all[i + 1] && (u[1..] + chosen)[j] == all[j + 1];
    }
  }

  lemma CheckKeepsLists(s: State)
    requires Invariant(s) && s.emission.Some? && EmitterStep(s, s.emission.value, Check).Some?
    ensures ListsOk(EmitterStep(s, s.emission.value, Check).value)
  {
    var m := s.emission.value;
    Rotate(m.unchecked, m.chosen);
  }

  lemma CheckKeepsClient(s: State, id: nat)
    requires Invariant(s) && s.emission.Some? && EmitterStep(s, s.emission.value, Check).Some? && id in s.clients
    ensures ClientOk(id, s.clients[id], s.registered, EmitterStep(s, s.emission.value, Check).value.emission, s.history)
  {
    var m := s.emission.value;
    assert ClientOk(id, s.clients[id], s.registered, s.emission, s.history);
    assert m.unchecked == [m.unchecked[0]] + m.unchecked[1..];
  }

  // The head of `chosen` is done with: nothing changes for the others.
  lemma NextHeadKeepsClient(id: nat, c: Client, registered: seq<nat>, m: Emission, history: seq<Event>)
    requires m.chosen != [] && id != m.chosen[0] && ClientOk(id, c, registered, Some(m), history)
    ensures ClientOk(id, c, registered, Some(m.(chosen := m.chosen[1..], progress := Untried)), history)
  {
    assert m.chosen == [m.chosen[0]] + m.chosen[1..];
  }

  lemma ProgressKeepsClient(id: nat, c: Client, registered: seq<nat>, m: Emission, history: seq<Event>,
      progress: Progress)
    requires m.chosen != [] && id != m.chosen[0] && ClientOk(id, c, registered, Some(m), history)
    ensures ClientOk(id, c, registered, Some(m.(progress := progress)), history)
  {
  }

  // A client whose turn is over, with the event in its queue or with the stop state set.
  ghost predicate Served(id: nat, c: Client, registered: seq<nat>, history: seq<Event>) {
    && BoxOk(id, c, registered, None) && c.since <= |history| && Received(c) <= Asked(c, history)
    && (IsOpen(c.box) ==> Received(c) == Asked(c, history))
  }

  lemma ServedClient(id: nat, c: Client, registered: seq<nat>, m: Emission, history: seq<Event>)
    requires m.unchecked == [] && m.chosen != [] && id == m.chosen[0] && NoRepeats(m.chosen)
    requires Served(id, c, registered, history)
    ensures ClientOk(id, c, registered, Some(m.(chosen := m.chosen[1..], progress := Untried)), history)
  {
  }

  lemma DropHeadKeepsLists(s: State, m: Emission, next: State)
    requires ListsOk(s) && s.emission == Some(m) && m.unchecked == [] && m.chosen != []
    requires next.registered == s.registered && next.history == s.history && next.clients.Keys == s.clients.Keys
    requires forall id :: id in s.clients ==> next.clients[id].box.options == s.clients[id].box.options
    requires next.emission == Some(m.(chosen := m.chosen[1..], progress := Untried))
    ensures ListsOk(next)
  {
    var a := m.chosen;
    assert m.unchecked + a == a && [] + a[1..] == a[1..];
  }

  lemma ProgressKeepsLists(s: State, m: Emission, next: State, progress: Progress)
    requires ListsOk(s) && s.emission == Some(m) && m.unchecked == [] && m.chosen != []
    requires next.registered == s.registered && next.history == s.history && next.clients.Keys == s.clients.Keys
    requires forall id :: id in s.clients ==> next.clients[id].box.options == s.clients[id].box.options
    requires next.emission == Some(m.(progress := progress))
    ensures ListsOk(next)
  {
  }

  // The next state of an emitter step whose client is done, put together.
  lemma DropHeadKeepsInvariant(s: State, m: Emission, box: Mailbox, next: State)
    requires Invariant(s) && s.emission == Some(m) && m.unchecked == [] && m.chosen != []
    requires m.chosen[0] in s.clients && box.options == s.clients[m.chosen[0]].box.options
    requires next == WithBox(s, m.chosen[0], box).(emission := Some(m.(chosen := m.chosen[1..], progress := Untried)))
    requires Served(m.chosen[0], s.clients[m.chosen[0]].(box := box), s.registered, s.history)
    ensures Invariant(next)
  {
    DropHeadKeepsLists(s, m, next);
    assert NoRepeats(m.chosen) by { assert m.unchecked + m.chosen == m.chosen; }
    forall id | id in next.clients
      ensures ClientOk(id, next.clients[id], next.registered, next.emission, next.history)
    {
      if id == m.chosen[0] {
        ServedClient(id, next.clients[id], s.registered, m, s.history);
      } else {
        assert next.clients[id] == s.clients[id];
        NextHeadKeepsClient(id, s.clients[id], s.registered, m, s.history);
      }
    }
  }

  // The same for a step that moves on with the client at the head.
  lemma ProgressKeepsInvariant(s: State, m: Emission, box: Mailbox, next: State, progress: Progress)
    requires Invariant(s) && s.emission == Some(m) && m.unchecked == [] && m.chosen != []
    requires m.chosen[0] in s.clients && box.options == s.clients[m.chosen[0]].box.options
    requires next == WithBox(s, m.chosen[0], box).(emission := Some(m.(progress := progress)))
    requires ClientOk(m.chosen[0], s.clients[m.chosen[0]].(box := box), s.registered, next.emission, s.history)
    ensures Invariant(next)
  {
    ProgressKeepsLists(s, m, next, progress);
    forall id | id in next.clients
      ensures ClientOk(id, next.clients[id], next.registered, next.emission, next.history)
    {
      if id != m.chosen[0] { ProgressKeepsClient(id, s.clients[id], s.registered, m, s.history, progress); }
    }
  }

  lemma SameBox(s: State, id: nat)
    requires id in s.clients
    ensures WithBox(s, id, s.clients[id].box) == s
  {
    assert s.clients[id := s.clients[id]] == s.clients;
  }

  lemma ProbeKeepsInvariant(s: State, m: Emission)
    requires Invariant(s) && s.emission == Some(m) && EmitterStep(s, m, Probe).Some?
    ensures Invariant(EmitterStep(s, m, Probe).value)
  {
    var id := m.chosen[0];
    assert ClientOk(id, s.clients[id], s.registered, s.emission, s.history);
    SameBox(s, id);
    if Active(s.clients[id].box) {
      ProgressKeepsInvariant(s, m, s.clients[id].box, EmitterStep(s, m, Probe).value, Probed);
    } else {
      DropHeadKeepsInvariant(s, m, s.clients[id].box, EmitterStep(s, m, Probe).value);
    }
  }

  lemma RoomIsPermitted(id: nat, c: Client, registered: seq<nat>, m: Emission, history: seq<Event>)
    requires ClientOk(id, c, registered, Some(m), history) && IsAtHead(id, Some(m), Probed) && HasRoom(c.box)
    ensures ClientOk(id, c.(box := Reserved(c.box)), registered, Some(m.(progress := Permitted)), history)
  {
  }

  lemma NoRoomIsServed(id: nat, c: Client, registered: seq<nat>, m: Emission, history: seq<Event>)
    requires ClientOk(id, c, registered, Some(m), history) && IsAtHead(id, Some(m), Probed) && !HasRoom(c.box)
    ensures Served(id, c.(box := Reserved(c.box)), registered, history)
  {
  }

  lemma TryReserveKeepsInvariant(s: State, m: Emission)
    requires Invariant(s) && s.emission == Some(m) && EmitterStep(s, m, TryReserve).Some?
    ensures Invariant(EmitterStep(s, m, TryReserve).value)
  {
    var id := m.chosen[0];
    var box := s.clients[id].box;
    if HasRoom(box) {
      RoomIsPermitted(id, s.clients[id], s.registered, m, s.history);
      ProgressKeepsInvariant(s, m, Reserved(box), EmitterStep(s, m, TryReserve).value, Permitted);
    } else {
      NoRoomIsServed(id, s.clients[id], s.registered, m, s.history);
      DropHeadKeepsInvariant(s, m, Reserved(box), EmitterStep(s, m, TryReserve).value);
    }
  }

  lemma FillReceives(c: Client, event: Event)
    requires c.box.permits > 0 && !c.box.closed
    ensures Received(c.(box := Filled(c.box, event))) == Received(c) + [event]
  {
  }

  lemma FilledIsServed(id: nat, c: Client, registered: seq<nat>, m: Emission, history: seq<Event>)
    requires ClientOk(id, c, registered, Some(m), history) && IsAtHead(id, Some(m), Permitted)
    ensures c.box.permits == 1 && Served(id, c.(box := Filled(c.box, m.event)), registered, history)
  {
    if !c.box.closed { FillReceives(c, m.event); }
  }

  lemma FillKeepsInvariant(s: State, m: Emission)
    requires Invariant(s) && s.emission == Some(m) && EmitterStep(s, m, Fill).Some?
    ensures Invariant(EmitterStep(s, m, Fill).value)
  {
    var id := m.chosen[0];
    FilledIsServed(id, s.clients[id], s.registered, m, s.history);
    DropHeadKeepsInvariant(s, m, Filled(s.clients[id].box, m.event), EmitterStep(s, m, Fill).value);
  }

  lemma EndEmitKeepsInvariant(s: State, m: Emission)
    requires Invariant(s) && s.emission == Some(m) && EmitterStep(s, m, EndEmit).Some?
    ensures Invariant(EmitterStep(s, m, EndEmit).value)
  {
    forall id | id in s.clients ensures ClientOk(id, s.clients[id], s.registered, None, s.history) {
      assert ClientOk(id, s.clients[id], s.registered, s.emission, s.history);
    }
  }

  lemma CheckKeepsInvariant(s: State, m: Emission)
    requires Invariant(s) && s.emission == Some(m) && EmitterStep(s, m, Check).Some?
    ensures Invariant(EmitterStep(s, m, Check).value)
  {
    CheckKeepsLists(s);
    forall id | id in s.clients
      ensures ClientOk(id, s.clients[id], s.registered, EmitterStep(s, m, Check).value.emission, s.history) {
      CheckKeepsClient(s, id);
    }
  }

  lemma NextKeepsInvariant(s: State, step: Step)
    requires Invariant(s) && Next(s, step).Some?
    ensures Invariant(Next(s, step).value)
  {
    if IsRegistryStep(step) {
      match step
      case Subscribe(id, options, capacity) => SubscribeKeepsInvariant(s, id, options, capacity);
      case BeginEmit(event) => BeginEmitKeepsInvariant(s, event);
      case Remove(id) => RemoveKeepsInvariant(s, id);
      case Abandon(id) => AbandonKeepsInvariant(s, id);
    } else if IsEmitterStep(step) {
      var m := s.emission.value;
      match step
      case Check => CheckKeepsInvariant(s, m);
      case Probe => ProbeKeepsInvariant(s, m);
      case TryReserve => TryReserveKeepsInvariant(s, m);
      case Fill => FillKeepsInvariant(s, m);
      case EndEmit => EndEmitKeepsInvariant(s, m);
    } else {
      WorkerKeepsInvariant(s, step);
    }
  }

  // ---------------------------------------------------------------- every run

  ghost predicate IsRun(states: seq<State>, steps: seq<Step>) {
    && |states| == |steps| + 1 && states[0] == NOBODY
    && forall i :: 0 <= i < |steps| ==> Next(states[i], steps[i]) == Some(states[i + 1])
  }

  lemma StepOf(states: seq<State>, steps: seq<Step>, i: nat)
    requires IsRun(states, steps) && i < |steps|
    ensures Next(states[i], steps[i]) == Some(states[i + 1])
  {
  }

  lemma {:induction false} RunKeepsInvariant(states: seq<State>, steps: seq<Step>, i: nat)
    requires IsRun(states, steps) && i < |states|
    ensures Invariant(states[i])
  {
    if i > 0 {
      RunKeepsInvariant(states, steps, i - 1);
      NextKeepsInvariant(states[i - 1], steps[i - 1]);
    }
  }

  // In every reachable state, of every client: what was delivered, is in flight and is queued, in
  // this order, is a prefix of the events it asked for since it subscribed; it is all of them while
  // the client is active and its worker is there, up to the event being emitted; and its queue is
  // within its capacity.
  lemma DeliveryIsGapFree(states: seq<State>, steps: seq<Step>, i: nat, id: nat)
    requires IsRun(states, steps) && i < |states| && id in states[i].clients
    ensures var s := states[i];
            var c := s.clients[id];
            && c.since <= |s.history|
            && Received(c) <= Asked(c, s.history)
            && |c.box.queue| <= c.box.capacity
            && (IsOpen(c.box) && s.emission.None? ==> Received(c) == Asked(c, s.history))
            && (IsOpen(c.box) && s.emission.Some? ==>
                 Asked(c, s.history) == Received(c) || Asked(c, s.history) == Received(c) + [s.emission.value.event])
  {
    RunKeepsInvariant(states, steps, i);
    assert ClientOk(id, states[i].clients[id], states[i].registered, states[i].emission, states[i].history);
  }

  // ---------------------------------------------------------------- one step, one client

  predicate Touches(s: State, step: Step, id: nat) {
    match step
    case BeginEmit(_) => false
    case Check => false
    case EndEmit => false
    case Subscribe(_, _, _) => false
    case Remove(_) => false
    case Abandon(i) => i == id
    case Probe => false
    case TryReserve => IsAtHead(id, s.emission, Probed)
    case Fill => IsAtHead(id, s.emission, Permitted)
    case _ => step.id == id
  }

  // A step changes at most the client it is about: no overflow, failure or cancellation of one
  // listener shows in another.
  lemma StepsAreLocal(s: State, step: Step, id: nat)
    requires Next(s, step).Some? && id in s.clients && !Touches(s, step, id)
    ensures id in Next(s, step).value.clients && Next(s, step).value.clients[id] == s.clients[id]
  {
  }

  predicate Follows(a: Client, b: Client) {
    && b.box.options == a.box.options && b.since == a.since && a.handed <= b.handed
    && (a.box.stopped.Some? ==> b.box.stopped == a.box.stopped) && (a.box.closed ==> b.box.closed)
  }

  lemma StepFollows(s: State, step: Step, id: nat)
    requires Next(s, step).Some? && id in s.clients
    ensures id in Next(s, step).value.clients && Follows(s.clients[id], Next(s, step).value.clients[id])
  {
    if !Touches(s, step, id) { StepsAreLocal(s, step, id); }
  }

  // The stop outcome is written once, and what was delivered stays delivered, in its order.
  lemma {:induction false} OutcomeIsWrittenOnce(states: seq<State>, steps: seq<Step>, i: nat, j: nat, id: nat)
    requires IsRun(states, steps) && i <= j < |states| && id in states[i].clients
    ensures id in states[j].clients && Follows(states[i].clients[id], states[j].clients[id])
  {
    if i < j {
      OutcomeIsWrittenOnce(states, steps, i, j - 1, id);
      StepOf(states, steps, j - 1);
      StepFollows(states[j - 1], steps[j - 1], id);
    }
  }

  predicate FindsFull(s: State, step: Step, id: nat) {
    && step.TryReserve? && IsAtHead(id, s.emission, Probed) && id in s.clients
    && IsOpen(s.clients[id].box) && |s.clients[id].box.queue| == s.clients[id].box.capacity
  }

  predicate FindsClosed(s: State, step: Step, id: nat) {
    step.TryReserve? && IsAtHead(id, s.emission, Probed) && id in s.clients && s.clients[id].box.closed
  }

  lemma WorkerNeverOverflows(c: Client, step: Step, next: Client)
    requires WorkerStep(c, step) == Some(next)
    ensures c.box.stopped.None? ==> next.box.stopped != Some(Overflow)
  {
  }

  lemma EmitterOverflows(s: State, m: Emission, step: Step, id: nat)
    requires Invariant(s) && s.emission == Some(m) && EmitterStep(s, m, step).Some? && id in s.clients
    requires Active(s.clients[id].box)
    ensures id in EmitterStep(s, m, step).value.clients
    ensures EmitterStep(s, m, step).value.clients[id].box.stopped
         == (if FindsFull(s, step, id) then Some(Overflow) else if FindsClosed(s, step, id) then Some(Done) else None)
  {
    assert ClientOk(id, s.clients[id], s.registered, s.emission, s.history);
  }

  // A listener overflows exactly when the emitter finds its queue full.
  lemma OverflowMeansFull(s: State, step: Step, id: nat)
    requires Invariant(s) && Next(s, step).Some? && id in s.clients && Active(s.clients[id].box)
    ensures id in Next(s, step).value.clients
    ensures Next(s, step).value.clients[id].box.stopped == Some(Overflow) <==> FindsFull(s, step, id)
  {
    if IsEmitterStep(step) {
      EmitterOverflows(s, s.emission.value, step, id);
    } else if !IsRegistryStep(step) {
      WorkerNeverOverflows(s.clients[step.id], step, Next(s, step).value.clients[step.id]);
    }
  }

  // A client whose worker was dropped with its runtime: stopped, or still to be tried.
  ghost predicate IsDoomed(s: State, id: nat) {
    && id in s.clients && s.clients[id].box.closed
    && (s.clients[id].box.stopped.Some?
        || (IsPending(id, s.clients[id], s.emission) && !IsAtHead(id, s.emission, Permitted)))
  }

  lemma OtherTurn(m: Emission, next: Emission, id: nat, c: Client)
    requires m.chosen != [] && m.chosen[0] != id && next.event == m.event && next.unchecked == m.unchecked
    requires next.chosen == m.chosen || (next.chosen == m.chosen[1..] && next.progress == Untried)
    requires IsPending(id, c, Some(m))
    ensures IsPending(id, c, Some(next)) && !IsAtHead(id, Some(next), Permitted)
  {
    assert m.chosen == [m.chosen[0]] + m.chosen[1..];
  }

  // The emitter's step with another client.
  lemma OthersStayDoomed(s: State, m: Emission, step: Step, id: nat)
    requires s.emission == Some(m) && EmitterStep(s, m, step).Some? && !step.EndEmit? && !step.Check? && IsDoomed(s, id)
    requires m.chosen != [] && m.chosen[0] != id
    ensures IsDoomed(EmitterStep(s, m, step).value, id)
  {
    var next := EmitterStep(s, m, step).value;
    assert next.clients[id] == s.clients[id];
    if s.clients[id].box.stopped.None? { OtherTurn(m, next.emission.value, id, s.clients[id]); }
  }

  lemma CheckedStaysDoomed(s: State, m: Emission, id: nat)
    requires s.emission == Some(m) && EmitterStep(s, m, Check).Some? && IsDoomed(s, id) && m.progress == Untried
    ensures IsDoomed(EmitterStep(s, m, Check).value, id)
  {
    assert m.unchecked == [m.unchecked[0]] + m.unchecked[1..];
  }

  lemma HeadStaysDoomed(s: State, m: Emission, step: Step, id: nat)
    requires s.emission == Some(m) && EmitterStep(s, m, step).Some? && !step.EndEmit? && !step.Check? && IsDoomed(s, id)
    requires m.chosen != [] && m.chosen[0] == id && BoxOk(id, s.clients[id], s.registered, s.emission)
    ensures IsDoomed(EmitterStep(s, m, step).value, id)
  {
  }

  lemma EmitterKeepsDoomed(s: State, m: Emission, step: Step, id: nat)
    requires Invariant(s) && s.emission == Some(m) && EmitterStep(s, m, step).Some? && !step.EndEmit? && IsDoomed(s, id)
    ensures IsDoomed(EmitterStep(s, m, step).value, id) && EmitterStep(s, m, step).value.emission.Some?
  {
    if step.Check? {
      CheckedStaysDoomed(s, m, id);
    } else if m.chosen[0] != id {
      OthersStayDoomed(s, m, step, id);
    } else {
      assert ClientOk(id, s.clients[id], s.registered, s.emission, s.history);
      HeadStaysDoomed(s, m, step, id);
    }
  }

  lemma WorkerKeepsDoomed(s: State, step: Step, id: nat)
    requires Invariant(s) && Next(s, step).Some? && !IsEmitterStep(step) && !IsRegistryStep(step) && IsDoomed(s, id)
    ensures IsDoomed(Next(s, step).value, id)
  {
    assert ClientOk(id, s.clients[id], s.registered, s.emission, s.history);
  }

  lemma BeginEmitDooms(s: State, event: Event, id: nat)
    requires Invariant(s) && Next(s, BeginEmit(event)).Some? && id in s.clients && s.clients[id].box.closed
    requires s.clients[id].box.options.Accepts(event)
    ensures IsDoomed(Next(s, BeginEmit(event)).value, id)
  {
    assert ClientOk(id, s.clients[id], s.registered, s.emission, s.history);
  }

  lemma DoomedStep(s: State, step: Step, next: State, id: nat)
    requires Invariant(s) && Next(s, step) == Some(next) && IsDoomed(s, id) && s.emission.Some? && !step.EndEmit?
    ensures IsDoomed(next, id) && next.emission.Some?
  {
    if IsEmitterStep(step) {
      EmitterKeepsDoomed(s, s.emission.value, step, id);
    } else {
      WorkerKeepsDoomed(s, step, id);
    }
  }

  // A closed client that accepts the event whose emission begins.
  predicate IsTarget(s: State, step: Step, id: nat) {
    step.BeginEmit? && id in s.clients && s.clients[id].box.closed && s.clients[id].box.options.Accepts(step.event)
  }

  lemma FirstDoomed(s: State, step: Step, next: State, id: nat)
    requires Invariant(s) && Next(s, step) == Some(next) && IsTarget(s, step, id)
    ensures IsDoomed(next, id) && next.emission.Some?
  {
    BeginEmitDooms(s, step.event, id);
  }

  lemma {:induction false} EmissionKeepsDoomed(states: seq<State>, steps: seq<Step>, i: nat, j: nat, id: nat)
    requires IsRun(states, steps) && i < j < |states| && IsTarget(states[i], steps[i], id)
    requires forall k :: i < k < j ==> !steps[k].EndEmit?
    ensures IsDoomed(states[j], id) && states[j].emission.Some?
  {
    var n := j - 1;
    StepOf(states, steps, n);
    RunKeepsInvariant(states, steps, n);
    if n == i {
      FirstDoomed(states[n], steps[n], states[j], id);
    } else {
      EmissionKeepsDoomed(states, steps, i, n, id);
      DoomedStep(states[n], steps[n], states[j], id);
    }
  }

  // A client whose queue was closed under it is stopped by the next event it accepts: when that
  // emission ends its outcome is written, whatever else happens in between.
  lemma ClosedIsNoticed(states: seq<State>, steps: seq<Step>, i: nat, j: nat, id: nat)
    requires IsRun(states, steps) && i < j < |steps| && IsTarget(states[i], steps[i], id) && steps[j].EndEmit?
    requires forall k :: i < k < j ==> !steps[k].EndEmit?
    ensures id in states[j].clients && states[j].clients[id].box.stopped.Some?
  {
    EmissionKeepsDoomed(states, steps, i, j, id);
    StepOf(states, steps, j);
  }

  lemma AskedExtends(c: Client, history: seq<Event>, events: seq<Event>)
    requires c.since <= |history|
    ensures Asked(c, history + events) == Asked(c, history) + Accepted(c.box.options, events)
  {
    assert (history + events)[c.since..] == history[c.since..] + events;
    AcceptedAppend(c.box.options, history[c.since..], events);
  }

  // The events of one commit reach an active listener as the feed of its own options.
  lemma CommitIsReceived(
    states: seq<State>, steps: seq<Step>, i: nat, j: nat, id: nat,
    w: World, same: Pointers, u: Options, before: Engines, after: Engines)
    requires IsRun(states, steps) && i <= j < |states| && id in states[i].clients && id in states[j].clients
    requires states[i].emission.None? && states[j].emission.None? && IsOpen(states[j].clients[id].box)
    requires Within(states[j].clients[id].box.options, u) && Feed(w, same, u, before, after).Ok?
    requires states[j].history == states[i].history + Feed(w, same, u, before, after).value
    ensures Feed(w, same, states[j].clients[id].box.options, before, after).Ok?
    ensures Received(states[j].clients[id])
         == Received(states[i].clients[id]) + Feed(w, same, states[j].clients[id].box.options, before, after).value
  {
    OutcomeIsWrittenOnce(states, steps, i, j, id);
    DeliveryIsGapFree(states, steps, i, id);
    DeliveryIsGapFree(states, steps, j, id);
    var a, c := states[i].clients[id], states[j].clients[id];
    ListenersAreIndependent(w, same, c.box.options, u, before, after);
    AskedExtends(a, states[i].history, Feed(w, same, u, before, after).value);
    assert Asked(c, states[j].history) == Asked(a, states[j].history);
  }

  // ---------------------------------------------------------------- the objects of the source

  // Without other threads in between, the three steps of one listener's turn are `send`.
  lemma TurnIsSend(s: State, m: Emission)
    requires s.emission == Some(m) && m.unchecked == [] && m.chosen != [] && m.progress == Untried
    requires m.chosen[0] in s.clients
    ensures var id := m.chosen[0];
            var box := s.clients[id].box;
            var probed := Next(s, Probe);
            && probed.Some?
            && (!Active(box) ==> probed.value.clients[id].box == Sent(box, m.event))
            && (Active(box) ==>
                 && Next(probed.value, TryReserve).Some?
                 && (!HasRoom(box) ==> Next(probed.value, TryReserve).value.clients[id].box == Sent(box, m.event))
                 && (HasRoom(box) ==>
                      && Next(Next(probed.value, TryReserve).value, Fill).Some?
                      && Next(Next(probed.value, TryReserve).value, Fill).value.clients[id].box == Sent(box, m.event)))
  {
  }

  const NO_OPTIONS := Options(false, false, false, false, false, false)

  // The options of all active listeners together.
  function Union(boxes: seq<Mailbox>): Options {
    if boxes == [] then NO_OPTIONS
    else
      var last := boxes[|boxes| - 1];
      if Active(last) then Union(boxes[..|boxes| - 1]).Or(last.options) else Union(boxes[..|boxes| - 1])
  }

  // The union is the least set of options that has every active listener's.
  lemma {:induction false} UnionIsLeast(boxes: seq<Mailbox>, o: Options)
    ensures Within(Union(boxes), o) <==> forall b :: b in boxes && Active(b) ==> Within(b.options, o)
  {
    if boxes != [] {
      UnionIsLeast(boxes[..|boxes| - 1], o);
      var last := boxes[|boxes| - 1];
      assert forall b :: b in boxes <==> b in boxes[..|boxes| - 1] || b == last;
    }
  }

  class Listener {
    const options: Options
    const capacity: nat
    var queue: seq<Event>
    var permits: nat
    var closed: bool
    var stopped: Option<Outcome>

    function Box(): Mailbox
      reads this
    {
      Mailbox(options, capacity, queue, permits, closed, stopped)
    }

    constructor (options: Options, capacity: nat)
      ensures Box() == Mailbox(options, capacity, [], 0, false, None)
    {
      this.options, this.capacity := options, capacity;
      queue, permits, closed, stopped := [], 0, false, None;
    }

    method Stop(outcome: Outcome)
      modifies this
      ensures Box() == Stopped(old(Box()), outcome)
    {
      if stopped.None? { stopped := Some(outcome); }
    }

    method Reserve() returns (granted: bool)
      modifies this
      ensures granted == (Active(old(Box())) && HasRoom(old(Box())))
      ensures Box() == if Active(old(Box())) then Reserved(old(Box())) else old(Box())
    {
      if stopped.Some? { return false; }
      if closed {
        Stop(Done);
        return false;
      }
      if |queue| + permits >= capacity {
        Stop(Overflow);
        return false;
      }
      permits := permits + 1;
      return true;
    }

    method Send(event: Event)
      modifies this
      ensures Box() == Sent(old(Box()), event)
    {
      var granted := Reserve();
      if granted {
        permits := permits - 1;
        queue := queue + [event];
      }
    }
  }

  class HookRegistry {
    var listeners: seq<Listener>

    ghost predicate Valid()
      reads this
    {
      forall i, j :: 0 <= i < j < |listeners| ==> listeners[i] != listeners[j]
    }

    constructor ()
      ensures listeners == []
    {
      listeners := [];
    }

    method Subscribe(options: Options, capacity: nat) returns (r: Option<Listener>)
      requires Valid()
      modifies this
      ensures Valid()
      ensures r.None? <==> capacity == 0
      ensures r.None? ==> listeners == old(listeners)
      ensures r.Some? ==> listeners == old(listeners) + [r.value] && fresh(r.value)
                          && r.value.Box() == Mailbox(options, capacity, [], 0, false, None)
    {
      if capacity == 0 { return None; }
      var listener := new Listener(options, capacity);
      listeners := listeners + [listener];
      return Some(listener);
    }

    method Remove(listener: Listener)
      requires Valid()
      modifies this
      ensures Valid() && listener !in listeners && listeners == Without(old(listeners), listener)
      ensures forall l :: l in listeners <==> l in old(listeners) && l != listener
    {
      var all := listeners;
      var kept: seq<Listener> := [];
      for i := 0 to |all|
        invariant kept == Without(all[..i], listener)
        invariant forall l :: l in kept <==> l in all[..i] && l != listener
        invariant forall a, b :: 0 <= a < b < |kept| ==> kept[a] != kept[b]
      {
        assert all[i] !in all[..i];
        PrefixGrows(all, i);
        if all[i] != listener { kept := kept + [all[i]]; }
      }
      WholePrefix(all);
      listeners := kept;
    }

    function Boxes(): seq<Mailbox>
      reads this, listeners
    {
      seq(|listeners|, i requires 0 <= i < |listeners| reads this, listeners => listeners[i].Box())
    }

    method Wanted() returns (o: Options)
      ensures o == Union(Boxes())
    {
      o := NO_OPTIONS;
      for i := 0 to |listeners|
        invariant o == Union(Boxes()[..i])
      {
        PrefixGrows(Boxes(), i);
        if listeners[i].stopped.None? { o := o.Or(listeners[i].options); }
      }
      WholePrefix(Boxes());
    }

    // One event, to every active listener that accepts it, and to no other.
    method Emit(event: Event)
      requires Valid()
      modifies listeners
      ensures forall l :: l in listeners ==>
        l.Box() == if Active(old(l.Box())) && l.options.Accepts(event) then Sent(old(l.Box()), event) else old(l.Box())
    {
      var chosen: seq<Listener> := [];
      for i := 0 to |listeners|
        invariant forall l :: l in chosen <==> l in listeners[..i] && Active(l.Box()) && l.options.Accepts(event)
        invariant forall a, b :: 0 <= a < b < |chosen| ==> chosen[a] != chosen[b]
        invariant forall l :: l in listeners ==> l.Box() == old(l.Box())
      {
        assert listeners[i] !in listeners[..i];
        if listeners[i].stopped.None? && listeners[i].options.Accepts(event) { chosen := chosen + [listeners[i]]; }
      }
      for k := 0 to |chosen|
        invariant forall l :: l in chosen ==> l in listeners
        invariant forall l :: l in listeners ==>
          l.Box() == if l in chosen[..k] then Sent(old(l.Box()), event) else old(l.Box())
      {
        assert chosen[k] in chosen && chosen[k] in listeners && chosen[k] !in chosen[..k];
        chosen[k].Send(event);
      }
    }
  }
}
