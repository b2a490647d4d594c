/** A subscriber that replays what it is handed: over every run of the registry and every number of
    commits its mirror follows the committed states. */
module Replication {
  import opened Wrappers
  import opened ChangeFeed
  import opened Delivery

  // Every kind of change, but not the reads.
  const CHANGES := Options(false, true, true, true, true, true)

  // What the emitter knew at one commit, and the events it found.
  datatype Commit = Commit(same: Pointers, union: Options, feed: seq<Event>)

  ghost predicate IsCommit(w: World, c: Commit, before: Engines, after: Engines) {
    && Sound(c.same, before, after) && WellFormed(before)
    && Within(CHANGES, c.union) && Feed(w, c.same, c.union, before, after) == Ok(c.feed)
  }

  // States e0, e1, ... and the commits between them.
  ghost predicate AreCommits(w: World, engines: seq<Engines>, commits: seq<Commit>) {
    |engines| == |commits| + 1 && forall i :: 0 <= i < |commits| ==> IsCommit(w, commits[i], engines[i], engines[i + 1])
  }

  function Emitted(commits: seq<Commit>): seq<Event> {
    if commits == [] then [] else Emitted(commits[..|commits| - 1]) + commits[|commits| - 1].feed
  }

  // No table changes its temporary flag, and no shared rows change their meaning.
  ghost predicate Replayable(w: World, c: Commit, before: Engines, after: Engines) {
    forall p :: !Flips(before, after, p) && !Misread(w, c.same, before, after, p)
  }

  // ---------------------------------------------------------------- reads do not matter

  lemma {:induction false} EventsWithoutReads(
    w: World, same: Pointers, o: Options, u: Options, before: Engines, after: Engines, places: seq<Place>)
    requires o.(read := true) == u
    ensures EventsOf(w, same, o, before, after, places) == EventsOf(w, same, u, before, after, places)
  {
    if places != [] {
      var init, p := places[..|places| - 1], places[|places| - 1];
      EventsWithoutReads(w, same, o, u, before, after, init);
      TableWithoutReads(w, same, o, u, before, after, p.database, p.table);
    }
  }

  lemma TableWithoutReads(w: World, same: Pointers, o: Options, u: Options, before: Engines, after: Engines,
      d: string, t: string)
    requires o.(read := true) == u
    ensures TableEvents(w, same, o, before, after, d, t) == TableEvents(w, same, u, before, after, d, t)
  {
  }

  lemma UnionIsEverything(w: World, c: Commit, before: Engines, after: Engines)
    requires IsCommit(w, c, before, after)
    ensures Feed(w, c.same, EVERYTHING, before, after) == Ok(c.feed)
  {
    EventsWithoutReads(w, c.same, c.union, EVERYTHING, before, after, Visited(before, after));
  }

  lemma {:induction false} ReplayWithoutReads(w: World, m: Mirror, events: seq<Event>)
    ensures Replay(w, m, Accepted(CHANGES, events)) == Replay(w, m, events)
  {
    if events != [] {
      var init, last := events[..|events| - 1], events[|events| - 1];
      ReplayWithoutReads(w, m, init);
      if !last.Read? { ReplayLast(w, m, Accepted(CHANGES, init), last); }
    }
  }

  lemma ReplayLast(w: World, m: Mirror, events: seq<Event>, event: Event)
    ensures Replay(w, m, events + [event]) == ReplayEvent(w, Replay(w, m, events), event)
  {
    assert (events + [event])[..|events|] == events;
  }

  lemma {:induction false} ReplayInTwo(w: World, m: Mirror, a: seq<Event>, b: seq<Event>)
    ensures Replay(w, m, a + b) == Replay(w, Replay(w, m, a), b)
  {
    if b == [] {
      assert a + b == a;
    } else {
      var init, last := b[..|b| - 1], b[|b| - 1];
      InitAndLast(b);
      Shift(a, init, [last]);
      ReplayInTwo(w, m, a, init);
      ReplayLast(w, m, a + init, last);
    }
  }

  // What a client asked for keeps every change.
  lemma {:induction false} ChangesAreAccepted(o: Options, events: seq<Event>)
    requires Within(CHANGES, o)
    ensures Accepted(CHANGES, Accepted(o, events)) == Accepted(CHANGES, events)
  {
    if events != [] {
      var init, last := events[..|events| - 1], events[|events| - 1];
      ChangesAreAccepted(o, init);
      if o.Accepts(last) {
        AcceptedAppend(CHANGES, Accepted(o, init), [last]);
        AcceptedSingle(CHANGES, last);
      }
    }
  }

  // ---------------------------------------------------------------- the mirror follows the commits

  ghost predicate Follows(w: World, engines: seq<Engines>, commits: seq<Commit>, m: Mirror, n: nat)
    requires n <= |commits| < |engines|
  {
    Mirrors(w, Replay(w, m, Emitted(commits[..n])), engines[n])
  }

  lemma EmittedNext(commits: seq<Commit>, n: nat)
    requires n < |commits|
    ensures Emitted(commits[..n + 1]) == Emitted(commits[..n]) + commits[n].feed
  {
    PrefixGrows(commits, n);
  }

  lemma FollowsOn(w: World, engines: seq<Engines>, commits: seq<Commit>, m: Mirror, n: nat)
    requires AreCommits(w, engines, commits) && n < |commits| && Follows(w, engines, commits, m, n)
    ensures Follows(w, engines, commits, m, n + 1) <==> Replayable(w, commits[n], engines[n], engines[n + 1])
  {
    var c := commits[n];
    assert IsCommit(w, c, engines[n], engines[n + 1]);
    UnionIsEverything(w, c, engines[n], engines[n + 1]);
    EmittedNext(commits, n);
    ReplayInTwo(w, m, Emitted(commits[..n]), c.feed);
    FeedReplays(w, c.same, engines[n], engines[n + 1], Replay(w, m, Emitted(commits[..n])));
  }

  lemma {:induction false} FollowsUpTo(w: World, engines: seq<Engines>, commits: seq<Commit>, m: Mirror, n: nat)
    requires AreCommits(w, engines, commits) && Mirrors(w, m, engines[0]) && n <= |commits|
    requires forall i :: 0 <= i < n ==> Replayable(w, commits[i], engines[i], engines[i + 1])
    ensures Follows(w, engines, commits, m, n)
  {
    if n > 0 {
      FollowsUpTo(w, engines, commits, m, n - 1);
      FollowsOn(w, engines, commits, m, n - 1);
    }
  }

  // The mirror is right after each commit exactly when every commit is replayable.
  lemma MirrorFollows(w: World, engines: seq<Engines>, commits: seq<Commit>, m: Mirror)
    requires AreCommits(w, engines, commits) && Mirrors(w, m, engines[0])
    ensures (forall n: nat | n <= |commits| :: Follows(w, engines, commits, m, n))
       <==> (forall i: nat | i < |commits| :: Replayable(w, commits[i], engines[i], engines[i + 1]))
  {
    if forall n: nat | n <= |commits| :: Follows(w, engines, commits, m, n) {
      forall i: nat | i < |commits| ensures Replayable(w, commits[i], engines[i], engines[i + 1]) {
        assert Follows(w, engines, commits, m, i + 1);
        FollowsOn(w, engines, commits, m, i);
      }
    } else {
      var n: nat :| n <= |commits| && !Follows(w, engines, commits, m, n);
      if forall i :: 0 <= i < n ==> Replayable(w, commits[i], engines[i], engines[i + 1]) {
        FollowsUpTo(w, engines, commits, m, n);
      }
    }
  }

  // ---------------------------------------------------------------- a subscriber of the registry

  // Since the client subscribed the registry has emitted the events of these commits, and reads.
  ghost predicate HasEmitted(s: State, c: Client, commits: seq<Commit>) {
    c.since <= |s.history| && Accepted(CHANGES, s.history[c.since..]) == Emitted(commits)
  }

  // In every run, a subscriber of all changes that is open and between two emissions has been sent
  // what it needs: replayed on a mirror of the state it subscribed in, the events it has received
  // give a mirror of the last committed state. With nothing queued it has been handed all of them.
  lemma SubscriberMirrors(
    states: seq<State>, steps: seq<Step>, j: nat, id: nat,
    w: World, engines: seq<Engines>, commits: seq<Commit>, m: Mirror)
    requires IsRun(states, steps) && j < |states| && id in states[j].clients
    requires states[j].emission.None? && IsOpen(states[j].clients[id].box)
    requires Within(CHANGES, states[j].clients[id].box.options) && HasEmitted(states[j], states[j].clients[id], commits)
    requires AreCommits(w, engines, commits) && Mirrors(w, m, engines[0])
    requires forall i :: 0 <= i < |commits| ==> Replayable(w, commits[i], engines[i], engines[i + 1])
    ensures var c := states[j].clients[id];
            && Mirrors(w, Replay(w, m, Received(c)), engines[|commits|])
            && (c.box.queue == [] && c.worker.Waiting? ==> Mirrors(w, Replay(w, m, c.handed), engines[|commits|]))
  {
    var c := states[j].clients[id];
    DeliveryIsGapFree(states, steps, j, id);
    ChangesAreAccepted(c.box.options, states[j].history[c.since..]);
    ReplayWithoutReads(w, m, Received(c));
    FollowsUpTo(w, engines, commits, m, |commits|);
    WholePrefix(commits);
    if c.box.queue == [] && c.worker.Waiting? { assert Received(c) == c.handed; }
  }
}
