/** The events of a commit, one by one: which there are, and in which order. Together they determine
    the feed. */
module FeedEvents {
  import opened Wrappers
  import opened Ordering
  import opened ChangeFeed
  import opened FeedRows

  // ---------------------------------------------------------------- which tables are compared

  // Known on one side at least, temporary on none, and not in a database that is one allocation.
  ghost predicate IsCompared(same: Pointers, before: Engines, after: Engines, d: string, t: string) {
    var a, b := SchemaIn(before, d, t), SchemaIn(after, d, t);
    && (a.Some? || b.Some?) && !(a.Some? && a.value.temporary) && !(b.Some? && b.value.temporary)
    && !(d in before && d in after && same.engine(d))
  }

  // Not their rows when these are one allocation, read under the same key and the same columns.
  ghost predicate ComparesRows(same: Pointers, before: Engines, after: Engines, d: string, t: string) {
    var a, b := SchemaIn(before, d, t), SchemaIn(after, d, t);
    var sameShape :=
      if a.Some? && b.Some? then a.value.primaryKey == b.value.primaryKey && a.value.columns == b.value.columns
                     else a.None? && b.None?;
    && IsCompared(same, before, after, d, t)
    && !(sameShape && same.rows(d, t) && StoredIn(before, d, t).Some? && StoredIn(after, d, t).Some?)
  }

  lemma ComparedIsNotSkipped(same: Pointers, before: Engines, after: Engines, d: string, t: string)
    ensures IsCompared(same, before, after, d, t) <==> !IsSkipped(same, before, after, d, t)
    ensures ComparesRows(same, before, after, d, t) <==>
      IsCompared(same, before, after, d, t) && !SharesRows(same, before, after, d, t)
  {
  }

  // ---------------------------------------------------------------- finding an event

  lemma {:induction false} EventsAtHas(events: seq<Event>, p: Place, event: Event)
    requires IsAt(event, p)
    ensures event in EventsAt(events, p) <==> event in events
  {
    if events != [] {
      var init, last := events[..|events| - 1], events[|events| - 1];
      InitAndLast(events);
      EventsAtHas(init, p, event);
    }
  }

  // An event of a table is in the feed exactly when it is in that table's part of it.
  lemma FeedHas(w: World, same: Pointers, o: Options, before: Engines, after: Engines, p: Place, event: Event)
    requires o.Changes() && Feed(w, same, o, before, after).Ok? && IsAt(event, p)
    ensures TableEvents(w, same, o, before, after, p.database, p.table).Ok?
    ensures event in Feed(w, same, o, before, after).value <==>
      event in TableEvents(w, same, o, before, after, p.database, p.table).value.All()
  {
    FeedAt(w, same, o, before, after, p);
    EventsAtHas(Feed(w, same, o, before, after).value, p, event);
  }

  lemma AllHas(parts: Parts, event: Event)
    ensures event in parts.All() <==>
      event in parts.deletes || event in parts.drops || event in parts.schemas || event in parts.writes
  {
  }

  // ---------------------------------------------------------------- schema events

  // What happened to the schema of a compared table, its time stamp aside.
  ghost predicate SchemaEventIs(same: Pointers, o: Options, before: Engines, after: Engines, event: Event)
    requires !event.Read?
  {
    var d, t := event.database, event.table;
    var a, b := SchemaIn(before, d, t), SchemaIn(after, d, t);
    && IsCompared(same, before, after, d, t)
    && match event
       case TableCreated(_, _, schema) => o.created && a.None? && b == Some(schema)
       case TableDropped(_, _) => o.dropped && a.Some? && b.None?
       case TableUpdated(_, _, schema) =>
         o.updated && a.Some? && b == Some(schema) && !same.schema(d, t)
         && a.value.(updatedAt := None) != schema.(updatedAt := None)
       case _ => false
  }

  lemma SchemaEventsHave(same: Pointers, o: Options, before: Engines, after: Engines, d: string, t: string,
      event: Event)
    requires !event.Read? && event.database == d && event.table == t && IsCompared(same, before, after, d, t)
    ensures event in DropEvents(o, before, after, d, t) || event in SchemaEvents(same, o, before, after, d, t)
       <==> SchemaEventIs(same, o, before, after, event)
  {
  }

  lemma RowEventsAreRows(o: Options, d: string, t: string, previous: map<string, HookRow>,
      current: map<string, HookRow>, event: Event)
    ensures event in DeleteEvents(o, d, t, previous, current) ==> event.Delete?
    ensures event in WriteEvents(o, d, t, previous, current) ==> event.Write?
  {
  }

  // The feed tells exactly the created, dropped and updated tables.
  lemma SchemaEventsAreExact(w: World, same: Pointers, o: Options, before: Engines, after: Engines, event: Event)
    requires o.Changes() && Feed(w, same, o, before, after).Ok?
    requires event.TableCreated? || event.TableDropped? || event.TableUpdated?
    ensures event in Feed(w, same, o, before, after).value <==> SchemaEventIs(same, o, before, after, event)
  {
    var d, t := event.database, event.table;
    FeedHas(w, same, o, before, after, Place(d, t), event);
    ComparedIsNotSkipped(same, before, after, d, t);
    var parts := TableEvents(w, same, o, before, after, d, t).value;
    AllHas(parts, event);
    if IsCompared(same, before, after, d, t) {
      SchemaEventsHave(same, o, before, after, d, t, event);
      if (o.write || o.delete) && !SharesRows(same, before, after, d, t) {
        RowEventsAreRows(o, d, t, HookRows(w, before, d, t).value, HookRows(w, after, d, t).value, event);
      }
    }
  }

  // ---------------------------------------------------------------- row events

  lemma RowEventsOf(w: World, same: Pointers, o: Options, before: Engines, after: Engines, d: string, t: string)
    requires o.Changes() && Feed(w, same, o, before, after).Ok? && (o.write || o.delete)
    ensures TableEvents(w, same, o, before, after, d, t).Ok?
    ensures !ComparesRows(same, before, after, d, t) ==>
      TableEvents(w, same, o, before, after, d, t).value.deletes == []
      && TableEvents(w, same, o, before, after, d, t).value.writes == []
    ensures ComparesRows(same, before, after, d, t) ==>
      && HookRows(w, before, d, t).Ok? && HookRows(w, after, d, t).Ok?
      && TableEvents(w, same, o, before, after, d, t).value.deletes
         == DeleteEvents(o, d, t, HookRows(w, before, d, t).value, HookRows(w, after, d, t).value)
      && TableEvents(w, same, o, before, after, d, t).value.writes
         == WriteEvents(o, d, t, HookRows(w, before, d, t).value, HookRows(w, after, d, t).value)
  {
    FeedAt(w, same, o, before, after, Place(d, t));
    ComparedIsNotSkipped(same, before, after, d, t);
  }

  lemma OnlySchemaEvents(same: Pointers, o: Options, before: Engines, after: Engines, d: string, t: string,
      event: Event)
    ensures event in DropEvents(o, before, after, d, t) ==> event.TableDropped?
    ensures event in SchemaEvents(same, o, before, after, d, t) ==> event.TableCreated? || event.TableUpdated?
  {
  }

  lemma PartsHaveSchemas(w: World, same: Pointers, o: Options, before: Engines, after: Engines, d: string, t: string,
      event: Event)
    requires TableEvents(w, same, o, before, after, d, t).Ok? && (event.Write? || event.Delete?)
    ensures event !in TableEvents(w, same, o, before, after, d, t).value.drops
    ensures event !in TableEvents(w, same, o, before, after, d, t).value.schemas
  {
    OnlySchemaEvents(same, o, before, after, d, t, event);
  }

  // The row event of the feed for one table, if there is one.
  lemma FeedHasRows(w: World, same: Pointers, o: Options, before: Engines, after: Engines, d: string, t: string,
      event: Event)
    requires o.Changes() && Feed(w, same, o, before, after).Ok? && (o.write || o.delete)
    requires (event.Write? || event.Delete?) && event.database == d && event.table == t
    ensures ComparesRows(same, before, after, d, t) ==> HookRows(w, before, d, t).Ok? && HookRows(w, after, d, t).Ok?
    ensures event in Feed(w, same, o, before, after).value <==>
      && ComparesRows(same, before, after, d, t)
      && var previous, current := HookRows(w, before, d, t).value, HookRows(w, after, d, t).value;
         event in DeleteEvents(o, d, t, previous, current) || event in WriteEvents(o, d, t, previous, current)
  {
    FeedHas(w, same, o, before, after, Place(d, t), event);
    RowEventsOf(w, same, o, before, after, d, t);
    PartsHaveSchemas(w, same, o, before, after, d, t, event);
    AllHas(TableEvents(w, same, o, before, after, d, t).value, event);
  }

  // The list is in strict order of the identities.
  ghost predicate InOrder(w: World, keys: seq<Key>) {
    forall i, j :: 0 <= i < j < |keys| ==> Less(w.identity(keys[i]), w.identity(keys[j]))
  }

  function KeysOf(rows: seq<HookRow>): (r: seq<Key>)
    ensures |r| == |rows| && forall i :: 0 <= i < |r| ==> r[i] == rows[i].key
  {
    seq(|rows|, i requires 0 <= i < |rows| => rows[i].key)
  }

  // The rows a write event carries: the listed rows of after that before does not list.
  ghost predicate AreWritten(w: World, before: Engines, after: Engines, d: string, t: string, rows: seq<HookRow>) {
    && rows != [] && InOrder(w, KeysOf(rows))
    && forall h :: h in rows <==> IsListed(w, after, d, t, h) && !IsListed(w, before, d, t, h)
  }

  // The keys a delete event carries: those listed before and by no row after.
  ghost predicate IsGone(w: World, before: Engines, after: Engines, d: string, t: string, h: HookRow) {
    && IsListed(w, before, d, t, h)
    && forall g :: IsListed(w, after, d, t, g) ==> w.identity(g.key) != w.identity(h.key)
  }

  ghost predicate AreDeleted(w: World, before: Engines, after: Engines, d: string, t: string, keys: seq<Key>) {
    && keys != [] && InOrder(w, keys)
    && (forall h :: IsGone(w, before, after, d, t, h) ==> h.key in keys)
    && (forall k :: k in keys ==> exists h :: IsGone(w, before, after, d, t, h) && h.key == k)
  }

  function IdentitiesOf(w: World, keys: seq<Key>): (r: seq<string>)
    ensures |r| == |keys| && forall i :: 0 <= i < |r| ==> r[i] == w.identity(keys[i])
  {
    seq(|keys|, i requires 0 <= i < |keys| => w.identity(keys[i]))
  }

  lemma OrderedIdentities(w: World, keys: seq<Key>)
    requires InOrder(w, keys)
    ensures StrictlySorted(IdentitiesOf(w, keys))
  {
  }

  // Two lists in this order with the same identities are the same length, identity by identity.
  lemma SameIdentities(w: World, a: seq<Key>, b: seq<Key>)
    requires InOrder(w, a) && InOrder(w, b)
    requires forall k :: k in a ==> exists j :: j in b && w.identity(j) == w.identity(k)
    requires forall k :: k in b ==> exists j :: j in a && w.identity(j) == w.identity(k)
    ensures IdentitiesOf(w, a) == IdentitiesOf(w, b)
  {
    OrderedIdentities(w, a);
    OrderedIdentities(w, b);
    IdentitiesWithin(w, a, b);
    IdentitiesWithin(w, b, a);
    SortedIsUnique(IdentitiesOf(w, a), IdentitiesOf(w, b));
  }

  lemma IdentitiesWithin(w: World, a: seq<Key>, b: seq<Key>)
    requires forall k :: k in a ==> exists j :: j in b && w.identity(j) == w.identity(k)
    ensures forall i :: i in IdentitiesOf(w, a) ==> i in IdentitiesOf(w, b)
  {
    forall i | i in IdentitiesOf(w, a) ensures i in IdentitiesOf(w, b) {
      var n :| 0 <= n < |a| && IdentitiesOf(w, a)[n] == i;
      assert a[n] in a;
      var j :| j in b && w.identity(j) == w.identity(a[n]);
      var m :| 0 <= m < |b| && b[m] == j;
      assert IdentitiesOf(w, b)[m] == i;
    }
  }

  lemma SelectedInOrder(w: World, rows: map<string, HookRow>, ids: seq<string>)
    requires Keyed(w, rows) && StrictlySorted(ids) && forall id :: id in ids ==> id in rows
    ensures InOrder(w, KeysAt(rows, ids)) && InOrder(w, KeysOf(RowsAt(rows, ids)))
  {
    forall i | 0 <= i < |ids| ensures w.identity(rows[ids[i]].key) == ids[i] { assert ids[i] in ids; }
  }

  lemma SelectedHas(w: World, rows: map<string, HookRow>, ids: seq<string>, h: HookRow)
    requires Keyed(w, rows) && forall id :: id in ids ==> id in rows
    ensures h in RowsAt(rows, ids) <==> w.identity(h.key) in ids && rows[w.identity(h.key)] == h
  {
    var id := w.identity(h.key);
    if h in RowsAt(rows, ids) {
      var i :| 0 <= i < |ids| && RowsAt(rows, ids)[i] == h;
      assert ids[i] in ids && ids[i] == id;
    }
    if id in ids && rows[id] == h {
      var i :| 0 <= i < |ids| && ids[i] == id;
      assert RowsAt(rows, ids)[i] == h;
    }
  }

  ghost predicate AreRows(w: World, engines: Engines, d: string, t: string, rows: map<string, HookRow>) {
    HookRows(w, engines, d, t) == Ok(rows)
  }

  lemma AreKeyed(w: World, engines: Engines, d: string, t: string, rows: map<string, HookRow>)
    requires AreRows(w, engines, d, t, rows)
    ensures Keyed(w, rows)
  {
    HookRowsKeyed(w, engines, d, t);
  }

  // ---------------------------------------------------------------- writes

  lemma ChangedAreWritten(w: World, before: Engines, after: Engines, d: string, t: string,
                          previous: map<string, HookRow>, current: map<string, HookRow>, h: HookRow)
    requires AreRows(w, before, d, t, previous) && AreRows(w, after, d, t, current)
    ensures h in RowsAt(current, Changed(previous, current)) <==>
      IsListed(w, after, d, t, h) && !IsListed(w, before, d, t, h)
  {
    AreKeyed(w, after, d, t, current);
    SortedKeysSorted(set id | id in current && Get(previous, id) != Some(current[id]));
    SelectedHas(w, current, Changed(previous, current), h);
    HookRowsAreListed(w, before, d, t, h);
    HookRowsAreListed(w, after, d, t, h);
  }

  lemma WrittenList(w: World, before: Engines, after: Engines, d: string, t: string,
                    previous: map<string, HookRow>, current: map<string, HookRow>)
    requires AreRows(w, before, d, t, previous) && AreRows(w, after, d, t, current)
    ensures Changed(previous, current) != [] ==>
      AreWritten(w, before, after, d, t, RowsAt(current, Changed(previous, current)))
    ensures Changed(previous, current) == [] ==>
      forall h :: !(IsListed(w, after, d, t, h) && !IsListed(w, before, d, t, h))
  {
    var ids := Changed(previous, current);
    AreKeyed(w, after, d, t, current);
    SortedKeysSorted(set id | id in current && Get(previous, id) != Some(current[id]));
    SelectedInOrder(w, current, ids);
    forall h ensures h in RowsAt(current, ids) <==> IsListed(w, after, d, t, h) && !IsListed(w, before, d, t, h) {
      ChangedAreWritten(w, before, after, d, t, previous, current, h);
    }
  }

  lemma WrittenIsUnique(w: World, before: Engines, after: Engines, d: string, t: string, a: seq<HookRow>,
      b: seq<HookRow>)
    requires AreWritten(w, before, after, d, t, a) && AreWritten(w, before, after, d, t, b)
    ensures a == b
  {
    WrittenWithin(w, a, b);
    WrittenWithin(w, b, a);
    SameIdentities(w, KeysOf(a), KeysOf(b));
    assert |a| == |IdentitiesOf(w, KeysOf(a))| == |b|;
    forall i | 0 <= i < |a| ensures a[i] == b[i] { SameRowAt(w, a, b, i); }
  }

  lemma WrittenWithin(w: World, a: seq<HookRow>, b: seq<HookRow>)
    requires forall h :: h in a ==> h in b
    ensures forall k :: k in KeysOf(a) ==> exists j :: j in KeysOf(b) && w.identity(j) == w.identity(k)
  {
    forall k | k in KeysOf(a) ensures k in KeysOf(b) {
      var i :| 0 <= i < |a| && KeysOf(a)[i] == k;
      assert a[i] in b;
      var j :| 0 <= j < |b| && b[j] == a[i];
      assert KeysOf(b)[j] == k;
    }
  }

  lemma SameRowAt(w: World, a: seq<HookRow>, b: seq<HookRow>, i: nat)
    requires IdentitiesOf(w, KeysOf(a)) == IdentitiesOf(w, KeysOf(b)) && InOrder(w, KeysOf(b)) && i < |a| && a[i] in b
    ensures i < |b| && a[i] == b[i]
  {
    assert |KeysOf(a)| == |IdentitiesOf(w, KeysOf(a))| == |KeysOf(b)|;
    var j :| 0 <= j < |b| && b[j] == a[i];
    var same := w.identity(a[i].key);
    assert IdentitiesOf(w, KeysOf(b))[i] == IdentitiesOf(w, KeysOf(a))[i] == w.identity(KeysOf(a)[i]) == same;
    assert w.identity(KeysOf(b)[i]) == same && w.identity(KeysOf(b)[j]) == same;
    LessIrreflexive(same);
  }

  // The write event of a table whose rows are compared.
  lemma WriteEventIs(w: World, o: Options, before: Engines, after: Engines, d: string, t: string,
                     previous: map<string, HookRow>, current: map<string, HookRow>, rows: seq<HookRow>)
    requires AreRows(w, before, d, t, previous) && AreRows(w, after, d, t, current)
    ensures Write(d, t, rows) in WriteEvents(o, d, t, previous, current)
       <==> o.write && AreWritten(w, before, after, d, t, rows)
  {
    WrittenList(w, before, after, d, t, previous, current);
    if AreWritten(w, before, after, d, t, rows) {
      assert rows[0] in rows;
      WrittenIsUnique(w, before, after, d, t, rows, RowsAt(current, Changed(previous, current)));
    }
  }

  // A write event is in the feed exactly when it carries the rows that are new or changed, in order.
  lemma WritesAreExact(w: World, same: Pointers, o: Options, before: Engines, after: Engines, d: string, t: string,
      rows: seq<HookRow>)
    requires o.Changes() && Feed(w, same, o, before, after).Ok?
    ensures Write(d, t, rows) in Feed(w, same, o, before, after).value <==>
      o.write && ComparesRows(same, before, after, d, t) && AreWritten(w, before, after, d, t, rows)
  {
    if o.write || o.delete {
      FeedHasRows(w, same, o, before, after, d, t, Write(d, t, rows));
      if ComparesRows(same, before, after, d, t) {
        var previous, current := HookRows(w, before, d, t).value, HookRows(w, after, d, t).value;
        RowEventsAreRows(o, d, t, previous, current, Write(d, t, rows));
        WriteEventIs(w, o, before, after, d, t, previous, current, rows);
      }
    } else {
      NoRowEvents(w, same, o, before, after, d, t, Write(d, t, rows));
    }
  }

  // The rows of a write event carry the values of their primary key, or the id they are stored under.
  lemma WrittenRowsHaveKeys(w: World, same: Pointers, o: Options, before: Engines, after: Engines, d: string, t: string,
      rows: seq<HookRow>, h: HookRow) returns (id: string)
    requires o.Changes() && Feed(w, same, o, before, after).Ok? && h in rows
    requires Write(d, t, rows) in Feed(w, same, o, before, after).value
    ensures StoredIn(after, d, t).Some? && id in after[d].rows[t]
    ensures HasKey(after[d], t, id, h) && Shows(w, after[d], t, id, after[d].rows[t][id], h)
  {
    WritesAreExact(w, same, o, before, after, d, t, rows);
    id :| IsLast(w, after[d], t, after[d].rows[t], id, h);
  }

  lemma NoRowEvents(w: World, same: Pointers, o: Options, before: Engines, after: Engines, d: string, t: string,
      event: Event)
    requires o.Changes() && Feed(w, same, o, before, after).Ok? && !o.write && !o.delete
    requires (event.Write? || event.Delete?) && event.database == d && event.table == t
    ensures event !in Feed(w, same, o, before, after).value
  {
    FeedHas(w, same, o, before, after, Place(d, t), event);
    PartsHaveSchemas(w, same, o, before, after, d, t, event);
    AllHas(TableEvents(w, same, o, before, after, d, t).value, event);
  }

  // ---------------------------------------------------------------- deletes

  lemma RemovedIsGone(w: World, before: Engines, after: Engines, d: string, t: string,
                      previous: map<string, HookRow>, current: map<string, HookRow>, h: HookRow)
    requires AreRows(w, before, d, t, previous) && AreRows(w, after, d, t, current)
    ensures IsGone(w, before, after, d, t, h) <==>
      var id := w.identity(h.key); Get(previous, id) == Some(h) && id !in current
  {
    var id := w.identity(h.key);
    AreKeyed(w, after, d, t, current);
    HookRowsAreListed(w, before, d, t, h);
    if id in current {
      var g := current[id];
      HookRowsAreListed(w, after, d, t, g);
    }
    forall g | IsListed(w, after, d, t, g) ensures w.identity(g.key) in current {
      HookRowsAreListed(w, after, d, t, g);
    }
  }

  lemma GoneIsRemoved(w: World, before: Engines, after: Engines, d: string, t: string,
                      previous: map<string, HookRow>, current: map<string, HookRow>, h: HookRow)
    requires AreRows(w, before, d, t, previous) && AreRows(w, after, d, t, current) && IsGone(w, before, after, d, t, h)
    ensures Removed(previous, current) != [] && h.key in KeysAt(previous, Removed(previous, current))
  {
    var ids, id := Removed(previous, current), w.identity(h.key);
    RemovedIsGone(w, before, after, d, t, previous, current, h);
    SortedKeysSorted(set i | i in previous && i !in current);
    assert id in ids;
    var n :| 0 <= n < |ids| && ids[n] == id;
    assert KeysAt(previous, ids)[n] == h.key;
  }

  lemma RemovedKeyIsGone(w: World, before: Engines, after: Engines, d: string, t: string,
                         previous: map<string, HookRow>, current: map<string, HookRow>, k: Key)
    requires AreRows(w, before, d, t, previous) && AreRows(w, after, d, t, current)
    requires k in KeysAt(previous, Removed(previous, current))
    ensures exists h :: IsGone(w, before, after, d, t, h) && h.key == k
  {
    var ids := Removed(previous, current);
    AreKeyed(w, before, d, t, previous);
    SortedKeysSorted(set i | i in previous && i !in current);
    var n :| 0 <= n < |ids| && KeysAt(previous, ids)[n] == k;
    assert ids[n] in ids;
    RemovedIsGone(w, before, after, d, t, previous, current, previous[ids[n]]);
  }

  lemma DeletedList(w: World, before: Engines, after: Engines, d: string, t: string,
                    previous: map<string, HookRow>, current: map<string, HookRow>)
    requires AreRows(w, before, d, t, previous) && AreRows(w, after, d, t, current)
    ensures Removed(previous, current) != [] ==>
      AreDeleted(w, before, after, d, t, KeysAt(previous, Removed(previous, current)))
    ensures Removed(previous, current) == [] ==> forall h :: !IsGone(w, before, after, d, t, h)
  {
    var ids := Removed(previous, current);
    AreKeyed(w, before, d, t, previous);
    SortedKeysSorted(set id | id in previous && id !in current);
    SelectedInOrder(w, previous, ids);
    forall h | IsGone(w, before, after, d, t, h) ensures h.key in KeysAt(previous, ids) && ids != [] {
      GoneIsRemoved(w, before, after, d, t, previous, current, h);
    }
    forall k | k in KeysAt(previous, ids) ensures exists h :: IsGone(w, before, after, d, t, h) && h.key == k {
      RemovedKeyIsGone(w, before, after, d, t, previous, current, k);
    }
  }

  // A row that is gone is told by its identity.
  lemma GoneIsUnique(w: World, before: Engines, after: Engines, d: string, t: string, g: HookRow, h: HookRow)
    requires HookRows(w, before, d, t).Ok? && IsListed(w, before, d, t, g) && IsListed(w, before, d, t, h)
    requires w.identity(g.key) == w.identity(h.key)
    ensures g == h
  {
    HookRowsAreListed(w, before, d, t, g);
    HookRowsAreListed(w, before, d, t, h);
  }

  lemma SameKeyAt(w: World, before: Engines, after: Engines, d: string, t: string, a: Key, b: Key)
    requires HookRows(w, before, d, t).Ok? && w.identity(a) == w.identity(b)
    requires exists h :: IsGone(w, before, after, d, t, h) && h.key == a
    requires exists h :: IsGone(w, before, after, d, t, h) && h.key == b
    ensures a == b
  {
    var g :| IsGone(w, before, after, d, t, g) && g.key == a;
    var h :| IsGone(w, before, after, d, t, h) && h.key == b;
    GoneIsUnique(w, before, after, d, t, g, h);
  }

  lemma DeletedWithin(w: World, before: Engines, after: Engines, d: string, t: string, a: seq<Key>, b: seq<Key>)
    requires AreDeleted(w, before, after, d, t, a) && AreDeleted(w, before, after, d, t, b)
    ensures forall k :: k in a ==> k in b
  {
    forall k | k in a ensures k in b { var h :| IsGone(w, before, after, d, t, h) && h.key == k; }
  }

  lemma SameKeysSameIdentities(w: World, a: seq<Key>, b: seq<Key>)
    requires InOrder(w, a) && InOrder(w, b) && (forall k :: k in a ==> k in b) && forall k :: k in b ==> k in a
    ensures IdentitiesOf(w, a) == IdentitiesOf(w, b)
  {
    SameIdentities(w, a, b);
  }

  lemma DeletedIdentities(w: World, before: Engines, after: Engines, d: string, t: string, a: seq<Key>, b: seq<Key>)
    requires AreDeleted(w, before, after, d, t, a) && AreDeleted(w, before, after, d, t, b)
    ensures IdentitiesOf(w, a) == IdentitiesOf(w, b)
  {
    assert InOrder(w, a) && InOrder(w, b);
    assert (forall k :: k in a ==> k in b) && forall k :: k in b ==> k in a by {
      DeletedWithin(w, before, after, d, t, a, b);
      DeletedWithin(w, before, after, d, t, b, a);
    }
    SameKeysSameIdentities(w, a, b);
  }

  lemma SameIdentityAt(w: World, a: seq<Key>, b: seq<Key>, i: nat)
    requires IdentitiesOf(w, a) == IdentitiesOf(w, b) && i < |a|
    ensures |a| == |b| && w.identity(a[i]) == w.identity(b[i])
  {
    assert |a| == |IdentitiesOf(w, a)| == |IdentitiesOf(w, b)| == |b|;
    assert w.identity(a[i]) == IdentitiesOf(w, a)[i] == IdentitiesOf(w, b)[i] == w.identity(b[i]);
  }

  lemma DeletedIsUnique(w: World, before: Engines, after: Engines, d: string, t: string, a: seq<Key>, b: seq<Key>)
    requires HookRows(w, before, d, t).Ok?
    requires AreDeleted(w, before, after, d, t, a) && AreDeleted(w, before, after, d, t, b)
    ensures a == b
  {
    DeletedIdentities(w, before, after, d, t, a, b);
    assert |a| == |IdentitiesOf(w, a)| == |IdentitiesOf(w, b)| == |b|;
    forall i: nat | i < |a| ensures a[i] == b[i] {
      SameIdentityAt(w, a, b, i);
      assert a[i] in a && b[i] in b;
      SameKeyAt(w, before, after, d, t, a[i], b[i]);
    }
  }

  lemma DeleteEventIs(w: World, o: Options, before: Engines, after: Engines, d: string, t: string,
                      previous: map<string, HookRow>, current: map<string, HookRow>, keys: seq<Key>)
    requires AreRows(w, before, d, t, previous) && AreRows(w, after, d, t, current)
    ensures Delete(d, t, keys) in DeleteEvents(o, d, t, previous, current)
       <==> o.delete && AreDeleted(w, before, after, d, t, keys)
  {
    DeletedList(w, before, after, d, t, previous, current);
    if AreDeleted(w, before, after, d, t, keys) {
      assert keys[0] in keys;
      DeletedIsUnique(w, before, after, d, t, keys, KeysAt(previous, Removed(previous, current)));
    }
  }

  // A delete event is in the feed exactly when it carries the keys that are gone, in order.
  lemma DeletesAreExact(w: World, same: Pointers, o: Options, before: Engines, after: Engines, d: string, t: string,
      keys: seq<Key>)
    requires o.Changes() && Feed(w, same, o, before, after).Ok?
    ensures Delete(d, t, keys) in Feed(w, same, o, before, after).value <==>
      o.delete && ComparesRows(same, before, after, d, t) && AreDeleted(w, before, after, d, t, keys)
  {
    if o.write || o.delete {
      FeedHasRows(w, same, o, before, after, d, t, Delete(d, t, keys));
      if ComparesRows(same, before, after, d, t) {
        var previous, current := HookRows(w, before, d, t).value, HookRows(w, after, d, t).value;
        RowEventsAreRows(o, d, t, previous, current, Delete(d, t, keys));
        DeleteEventIs(w, o, before, after, d, t, previous, current, keys);
      }
    } else {
      NoRowEvents(w, same, o, before, after, d, t, Delete(d, t, keys));
    }
  }

  // ---------------------------------------------------------------- the order of the events

  // Deletes, then drops, then created and updated tables, then writes.
  function Phase(event: Event): nat {
    match event
    case Delete(_, _, _) => 0
    case TableDropped(_, _) => 1
    case TableCreated(_, _, _) => 2
    case TableUpdated(_, _, _) => 2
    case Write(_, _, _) => 3
    case Read(_, _) => 4
  }

  predicate PlaceLess(p: Place, q: Place) {
    Less(p.database, q.database) || (p.database == q.database && Less(p.table, q.table))
  }

  function PlaceOf(event: Event): Place
    requires !event.Read?
  {
    Place(event.database, event.table)
  }

  // By phase, and within a phase by database and table.
  predicate Precedes(a: Event, b: Event) {
    && !a.Read? && !b.Read?
    && (Phase(a) < Phase(b) || (Phase(a) == Phase(b) && PlaceLess(PlaceOf(a), PlaceOf(b))))
  }

  ghost predicate PlacesSorted(places: seq<Place>) {
    forall i, j :: 0 <= i < j < |places| ==> PlaceLess(places[i], places[j])
  }

  lemma PlacesInSorted(d: string, tables: seq<string>)
    requires StrictlySorted(tables)
    ensures PlacesSorted(PlacesIn(d, tables))
  {
  }

  lemma {:induction false} PlacesOfSorted(before: Engines, after: Engines, databases: seq<string>)
    requires StrictlySorted(databases)
    ensures PlacesSorted(PlacesOf(before, after, databases))
  {
    if databases != [] {
      var init, d := databases[..|databases| - 1], databases[|databases| - 1];
      var a, b := PlacesOf(before, after, init), PlacesIn(d, SortedKeys(TableNames(before, after, d)));
      PlacesOfSorted(before, after, init);
      PlacesOfDistinct(before, after, init);
      SortedKeysSorted(TableNames(before, after, d));
      PlacesInSorted(d, SortedKeys(TableNames(before, after, d)));
      forall i, j | 0 <= i < |a| && 0 <= j < |b| ensures PlaceLess(a[i], b[j]) {
        assert a[i] in a;
        var k :| 0 <= k < |init| && init[k] == a[i].database;
        assert init[k] == databases[k];
      }
      SortedAppend(a, b);
    }
  }

  lemma SortedAppend(a: seq<Place>, b: seq<Place>)
    requires PlacesSorted(a) && PlacesSorted(b) && forall i, j :: 0 <= i < |a| && 0 <= j < |b| ==> PlaceLess(a[i], b[j])
    ensures PlacesSorted(a + b)
  {
  }

  // Events of one phase, in the order of their tables, which are among these.
  ghost predicate IsPart(events: seq<Event>, phase: nat, places: seq<Place>) {
    && (forall i :: 0 <= i < |events| ==> !events[i].Read? && Phase(events[i]) == phase && PlaceOf(events[i]) in places)
    && (forall i, j :: 0 <= i < j < |events| ==> PlaceLess(PlaceOf(events[i]), PlaceOf(events[j])))
  }

  ghost predicate AreParts(parts: Parts, places: seq<Place>) {
    && IsPart(parts.deletes, 0, places) && IsPart(parts.drops, 1, places)
    && IsPart(parts.schemas, 2, places) && IsPart(parts.writes, 3, places)
  }

  lemma PartGrows(a: seq<Event>, b: seq<Event>, phase: nat, init: seq<Place>, p: Place)
    requires IsPart(a, phase, init) && IsPart(b, phase, [p]) && |b| <= 1 && PlacesSorted(init + [p])
    ensures IsPart(a + b, phase, init + [p])
  {
    forall i | 0 <= i < |a| ensures PlaceLess(PlaceOf(a[i]), p) {
      var k :| 0 <= k < |init| && init[k] == PlaceOf(a[i]);
      assert (init + [p])[k] == init[k] && (init + [p])[|init|] == p;
    }
  }

  lemma SchemaParts(same: Pointers, o: Options, before: Engines, after: Engines, p: Place)
    ensures var drops, schemas := DropEvents(o, before, after, p.database, p.table),
                                  SchemaEvents(same, o, before, after, p.database, p.table);
            IsPart(drops, 1, [p]) && IsPart(schemas, 2, [p]) && |drops| <= 1 && |schemas| <= 1
  {
  }

  lemma RowParts(o: Options, p: Place, previous: map<string, HookRow>, current: map<string, HookRow>)
    ensures var deletes, writes := DeleteEvents(o, p.database, p.table, previous, current),
                                   WriteEvents(o, p.database, p.table, previous, current);
            IsPart(deletes, 0, [p]) && IsPart(writes, 3, [p]) && |deletes| <= 1 && |writes| <= 1
  {
  }

  lemma NoPart(phase: nat, p: Place)
    ensures IsPart([], phase, [p])
  {
  }

  lemma TableParts(w: World, same: Pointers, o: Options, before: Engines, after: Engines, p: Place)
    requires TableEvents(w, same, o, before, after, p.database, p.table).Ok?
    ensures var parts := TableEvents(w, same, o, before, after, p.database, p.table).value;
      && AreParts(parts, [p])
      && |parts.deletes| <= 1 && |parts.drops| <= 1 && |parts.schemas| <= 1 && |parts.writes| <= 1
  {
    var d, t := p.database, p.table;
    NoPart(0, p);
    NoPart(1, p);
    NoPart(2, p);
    NoPart(3, p);
    SchemaParts(same, o, before, after, p);
    if !IsSkipped(same, before, after, d, t) && (o.write || o.delete) && !SharesRows(same, before, after, d, t) {
      RowParts(o, p, HookRows(w, before, d, t).value, HookRows(w, after, d, t).value);
    }
  }

  lemma {:induction false} EventsAreParts(
    w: World, same: Pointers, o: Options, before: Engines, after: Engines, places: seq<Place>)
    requires PlacesSorted(places) && EventsOf(w, same, o, before, after, places).Ok?
    ensures AreParts(EventsOf(w, same, o, before, after, places).value, places)
  {
    if places != [] {
      var init, p := places[..|places| - 1], places[|places| - 1];
      InitAndLast(places);
      EventsAreParts(w, same, o, before, after, init);
      TableParts(w, same, o, before, after, p);
      var a := EventsOf(w, same, o, before, after, init).value;
      var b := TableEvents(w, same, o, before, after, p.database, p.table).value;
      PartGrows(a.deletes, b.deletes, 0, init, p);
      PartGrows(a.drops, b.drops, 1, init, p);
      PartGrows(a.schemas, b.schemas, 2, init, p);
      PartGrows(a.writes, b.writes, 3, init, p);
    }
  }

  ghost predicate IsOrdered(events: seq<Event>) {
    forall i, j :: 0 <= i < j < |events| ==> Precedes(events[i], events[j])
  }

  ghost predicate UpTo(events: seq<Event>, phase: nat) {
    IsOrdered(events) && forall i :: 0 <= i < |events| ==> !events[i].Read? && Phase(events[i]) <= phase
  }

  lemma PhasesAppend(a: seq<Event>, b: seq<Event>, phase: nat, places: seq<Place>)
    requires IsPart(b, phase, places) && (a == [] || (phase > 0 && UpTo(a, phase - 1)))
    ensures UpTo(a + b, phase)
  {
  }

  // The feed is in this order, with no two events of one phase for one table.
  lemma FeedIsOrdered(w: World, same: Pointers, o: Options, before: Engines, after: Engines)
    requires Feed(w, same, o, before, after).Ok?
    ensures IsOrdered(Feed(w, same, o, before, after).value)
    ensures forall event :: event in Feed(w, same, o, before, after).value ==> !event.Read?
  {
    if o.Changes() {
      var places := Visited(before, after);
      SortedKeysSorted(before.Keys + after.Keys);
      PlacesOfSorted(before, after, SortedKeys(before.Keys + after.Keys));
      EventsAreParts(w, same, o, before, after, places);
      var parts := EventsOf(w, same, o, before, after, places).value;
      assert [] + parts.deletes == parts.deletes;
      PhasesAppend([], parts.deletes, 0, places);
      PhasesAppend(parts.deletes, parts.drops, 1, places);
      PhasesAppend(parts.deletes + parts.drops, parts.schemas, 2, places);
      PhasesAppend(parts.deletes + parts.drops + parts.schemas, parts.writes, 3, places);
    }
  }

  // Ordered lists with the same events are equal: which events there are, and this order, is all
  // there is to know about a feed.
  lemma {:induction false} OrderedIsUnique(a: seq<Event>, b: seq<Event>)
    requires IsOrdered(a) && IsOrdered(b) && forall e :: e in a <==> e in b
    ensures a == b
    decreases |a|
  {
    if a != [] {
      assert a[0] in b;
      FirstIsFirst(a, b);
      forall e ensures e in a[1..] <==> e in b[1..] {
        NotAgain(a, e);
        NotAgain(b, e);
      }
      OrderedIsUnique(a[1..], b[1..]);
      assert a == [a[0]] + a[1..] && b == [b[0]] + b[1..];
    } else if b != [] {
      HasFirst(b);
    }
  }

  lemma HasFirst(events: seq<Event>)
    requires events != []
    ensures events[0] in events
  {
  }

  lemma PrecedesNotBack(a: Event, b: Event)
    requires Precedes(a, b)
    ensures a != b && !Precedes(b, a)
  {
    LessGoesOneWay(a.database, b.database);
    LessGoesOneWay(a.table, b.table);
  }

  lemma FirstIsFirst(a: seq<Event>, b: seq<Event>)
    requires IsOrdered(a) && IsOrdered(b) && a != [] && forall e :: e in a <==> e in b
    ensures b != [] && a[0] == b[0]
  {
    assert a[0] in b;
    var j :| 0 <= j < |b| && b[j] == a[0];
    assert b[0] in a;
    var i :| 0 <= i < |a| && a[i] == b[0];
    if i > 0 && j > 0 {
      PrecedesNotBack(a[0], b[0]);
    }
  }

  // What is behind the first is everything but the first.
  lemma NotAgain(a: seq<Event>, e: Event)
    requires IsOrdered(a) && a != []
    ensures e in a[1..] <==> e in a && e != a[0]
  {
    if e in a[1..] {
      var i :| 0 <= i < |a[1..]| && a[1..][i] == e;
      PrecedesNotBack(a[0], a[i + 1]);
    }
  }
}
