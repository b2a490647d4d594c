/** The change feed: the ordered events between two sets of engines (`HookRegistry::changes`), and
    what a consumer that replays them ends up with. */
module ChangeFeed {
  import opened Wrappers
  import opened Ordering

  type JsonText(==, !new)
  type Column(==, !new)
  type Moment(==, !new)
  type SchemaRest(==, !new)
  type Context(==, !new)

  datatype Value = Null | Json(text: JsonText)

  type Row = map<string, Value>

  // Indexes, constraints and the other fields are in `rest`.
  datatype Schema = Schema(
    temporary: bool,
    columns: map<string, Column>,
    columnOrder: seq<string>,
    primaryKey: seq<string>,
    updatedAt: Option<Moment>,
    rest: SchemaRest)

  // One database: schemas, the data of the stored rows by stored key, and what else an expression can read.
  datatype Engine = Engine(schemas: map<string, Schema>, rows: map<string, map<string, Row>>, context: Context)

  type Engines = map<string, Engine>

  datatype Key = Primary(values: Row) | Opaque(id: string)

  datatype HookRow = HookRow(key: Key, row: Row)

  datatype Event =
    | Read(database: string, sql: string)
    | Write(database: string, table: string, rows: seq<HookRow>)
    | Delete(database: string, table: string, keys: seq<Key>)
    | TableCreated(database: string, table: string, schema: Schema)
    | TableUpdated(database: string, table: string, schema: Schema)
    | TableDropped(database: string, table: string)

  datatype Options = Options(read: bool, write: bool, delete: bool, created: bool, updated: bool, dropped: bool) {
    predicate Accepts(event: Event) {
      match event
      case Read(_, _) => read
      case Write(_, _, _) => write
      case Delete(_, _, _) => delete
      case TableCreated(_, _, _) => created
      case TableUpdated(_, _, _) => updated
      case TableDropped(_, _) => dropped
    }

    predicate Changes() {
      write || delete || created || updated || dropped
    }

    // The union the registry asks for: every kind that some active listener wants.
    function Or(o: Options): Options {
      Options(read || o.read, write || o.write, delete || o.delete, created || o.created, updated || o.updated,
              dropped || o.dropped)
    }
  }

  const EVERYTHING := Options(true, true, true, true, true, true)

  // The SQL evaluator as a function, and the JSON text of a row key.
  datatype World = World(evaluate: (Engine, string, Row) -> Result<Row, string>, identity: Key -> string)

  // Which references of the two sides are one allocation.
  datatype Pointers = Pointers(engine: string -> bool, schema: (string, string) -> bool, rows: (string, string) -> bool)

  // Pointer equality is any relation that implies equality.
  ghost predicate Sound(same: Pointers, before: Engines, after: Engines) {
    && (forall d :: same.engine(d) && d in before && d in after ==> before[d] == after[d])
    && (forall d, t :: same.schema(d, t) && SchemaIn(before, d, t).Some? && SchemaIn(after, d, t).Some?
          ==> SchemaIn(before, d, t) == SchemaIn(after, d, t))
    && (forall d, t :: same.rows(d, t) && StoredIn(before, d, t).Some? && StoredIn(after, d, t).Some?
          ==> StoredIn(before, d, t) == StoredIn(after, d, t))
  }

  function SchemaIn(engines: Engines, d: string, t: string): Option<Schema> {
    if d in engines then Get(engines[d].schemas, t) else None
  }

  function StoredIn(engines: Engines, d: string, t: string): Option<map<string, Row>> {
    if d in engines then Get(engines[d].rows, t) else None
  }

  // An engine keeps rows only for the tables it knows.
  predicate WellFormed(engines: Engines) {
    forall d :: d in engines ==> engines[d].rows.Keys <= engines[d].schemas.Keys
  }

  // ---------------------------------------------------------------- rows as the feed shows them

  function CurrentRow(w: World, e: Engine, t: string, data: Row): Result<Row, string> {
    if t !in e.schemas || e.schemas[t].columns == map[] then Ok(data) else w.evaluate(e, t, data)
  }

  function Retained(e: Engine, t: string, row: Row): Row {
    if t in e.schemas && e.schemas[t].columns != map[]
    then map c | c in row && c in e.schemas[t].columns :: row[c]
    else row
  }

  function KeyOf(e: Engine, t: string, id: string, row: Row): Key {
    if t in e.schemas && e.schemas[t].primaryKey != []
    then Primary(map c | c in e.schemas[t].primaryKey :: if c in row then row[c] else Null)
    else Opaque(id)
  }

  function HookRowOf(w: World, e: Engine, t: string, id: string, data: Row): Result<HookRow, string> {
    match CurrentRow(w, e, t, data)
    case Err(error) => Err(error)
    case Ok(current) =>
      var row := Retained(e, t, current);
      Ok(HookRow(KeyOf(e, t, id, row), row))
  }

  // The rows by the identity of their key; the last of several rows with one key stays.
  function RowsFrom(w: World, e: Engine, t: string, stored: map<string, Row>,
      ids: seq<string>): Result<map<string, HookRow>, string>
    requires forall id :: id in ids ==> id in stored
  {
    if ids == [] then Ok(map[]) else
      var id := ids[|ids| - 1];
      match RowsFrom(w, e, t, stored, ids[..|ids| - 1])
      case Err(error) => Err(error)
      case Ok(rows) =>
        match HookRowOf(w, e, t, id, stored[id])
        case Err(error) => Err(error)
        case Ok(row) => Ok(rows[w.identity(row.key) := row])
  }

  function HookRows(w: World, engines: Engines, d: string, t: string): Result<map<string, HookRow>, string> {
    if d !in engines || t !in engines[d].rows then Ok(map[])
    else RowsFrom(w, engines[d], t, engines[d].rows[t], SortedKeys(engines[d].rows[t].Keys))
  }

  // ---------------------------------------------------------------- the events of one table

  function Undated(s: Schema): Schema {
    s.(updatedAt := None)
  }

  predicate SameSchema(a: Schema, b: Schema) {
    Undated(a) == Undated(b)
  }

  predicate IsTemporary(s: Option<Schema>) {
    s.Some? && s.value.temporary
  }

  predicate SameShape(a: Option<Schema>, b: Option<Schema>) {
    || (a.None? && b.None?)
    || (a.Some? && b.Some? && a.value.primaryKey == b.value.primaryKey && a.value.columns == b.value.columns)
  }

  // Four vectors, emitted one after the other.
  datatype Parts = Parts(deletes: seq<Event>, drops: seq<Event>, schemas: seq<Event>, writes: seq<Event>) {
    function Plus(p: Parts): Parts {
      Parts(deletes + p.deletes, drops + p.drops, schemas + p.schemas, writes + p.writes)
    }

    function All(): seq<Event> {
      deletes + drops + schemas + writes
    }
  }

  const NOTHING := Parts([], [], [], [])

  function DropEvents(o: Options, before: Engines, after: Engines, d: string, t: string): seq<Event> {
    if SchemaIn(before, d, t).Some? && SchemaIn(after, d, t).None? && o.dropped then [TableDropped(d, t)] else []
  }

  function SchemaEvents(same: Pointers, o: Options, before: Engines, after: Engines, d: string, t: string): seq<Event> {
    match (SchemaIn(before, d, t), SchemaIn(after, d, t))
    case (None, Some(b)) => if o.created then [TableCreated(d, t, b)] else []
    case (Some(a), Some(b)) =>
      if o.updated && !same.schema(d, t) && !SameSchema(a, b) then [TableUpdated(d, t, b)] else []
    case _ => []
  }

  function KeysAt(rows: map<string, HookRow>, ids: seq<string>): seq<Key>
    requires forall id :: id in ids ==> id in rows
  {
    seq(|ids|, i requires 0 <= i < |ids| => rows[ids[i]].key)
  }

  function RowsAt(rows: map<string, HookRow>, ids: seq<string>): seq<HookRow>
    requires forall id :: id in ids ==> id in rows
  {
    seq(|ids|, i requires 0 <= i < |ids| => rows[ids[i]])
  }

  function Removed(previous: map<string, HookRow>, current: map<string, HookRow>): seq<string> {
    SortedKeys(set id | id in previous && id !in current)
  }

  function Changed(previous: map<string, HookRow>, current: map<string, HookRow>): seq<string> {
    SortedKeys(set id | id in current && Get(previous, id) != Some(current[id]))
  }

  function DeleteEvents(o: Options, d: string, t: string, previous: map<string, HookRow>, current: map<string,
      HookRow>): seq<Event>
  {
    if o.delete && Removed(previous, current) != [] then [Delete(d, t, KeysAt(previous, Removed(previous, current)))]
    else []
  }

  function WriteEvents(o: Options, d: string, t: string, previous: map<string, HookRow>, current: map<string,
      HookRow>): seq<Event>
  {
    if o.write && Changed(previous, current) != [] then [Write(d, t, RowsAt(current, Changed(previous, current)))]
    else []
  }

  // The shortcut: one allocation of rows on both sides, read through the same shape.
  predicate SharesRows(same: Pointers, before: Engines, after: Engines, d: string, t: string) {
    && SameShape(SchemaIn(before, d, t), SchemaIn(after, d, t))
    && StoredIn(before, d, t).Some? && StoredIn(after, d, t).Some? && same.rows(d, t)
  }

  predicate IsSkipped(same: Pointers, before: Engines, after: Engines, d: string, t: string) {
    || (d in before && d in after && same.engine(d))
    || IsTemporary(SchemaIn(before, d, t)) || IsTemporary(SchemaIn(after, d, t))
    || (SchemaIn(before, d, t).None? && SchemaIn(after, d, t).None?)
  }

  function TableEvents(w: World, same: Pointers, o: Options, before: Engines, after: Engines, d: string,
      t: string): Result<Parts, string>
  {
    if IsSkipped(same, before, after, d, t) then Ok(NOTHING) else
      var drops, schemas := DropEvents(o, before, after, d, t), SchemaEvents(same, o, before, after, d, t);
      if (!o.write && !o.delete) || SharesRows(same, before, after, d, t) then Ok(Parts([], drops, schemas, [])) else
        match (HookRows(w, before, d, t), HookRows(w, after, d, t))
        case (Err(error), _) => Err(error)
        case (Ok(_), Err(error)) => Err(error)
        case (Ok(previous), Ok(current)) =>
          Ok(Parts(DeleteEvents(o, d, t, previous, current), drops, schemas, WriteEvents(o, d, t, previous, current)))
  }

  // ---------------------------------------------------------------- the events of a commit

  function Both(a: Result<Parts, string>, b: Result<Parts, string>): Result<Parts, string> {
    match (a, b)
    case (Err(error), _) => Err(error)
    case (Ok(_), Err(error)) => Err(error)
    case (Ok(p), Ok(q)) => Ok(p.Plus(q))
  }

  datatype Place = Place(database: string, table: string)

  // The events of some tables, in the order they are visited.
  function EventsOf(w: World, same: Pointers, o: Options, before: Engines, after: Engines,
      places: seq<Place>): Result<Parts, string>
  {
    if places == [] then Ok(NOTHING) else
      var p := places[|places| - 1];
      Both(EventsOf(w, same, o, before, after, places[..|places| - 1]),
          TableEvents(w, same, o, before, after, p.database, p.table))
  }

  function TableNames(before: Engines, after: Engines, d: string): set<string> {
    (if d in before then before[d].schemas.Keys else {}) + (if d in after then after[d].schemas.Keys else {})
  }

  function PlacesIn(d: string, tables: seq<string>): seq<Place> {
    seq(|tables|, i requires 0 <= i < |tables| => Place(d, tables[i]))
  }

  function PlacesOf(before: Engines, after: Engines, databases: seq<string>): seq<Place> {
    if databases == [] then [] else
      var d := databases[|databases| - 1];
      PlacesOf(before, after, databases[..|databases| - 1]) + PlacesIn(d, SortedKeys(TableNames(before, after, d)))
  }

  // Databases by name, and the tables of each by name.
  function Visited(before: Engines, after: Engines): seq<Place> {
    PlacesOf(before, after, SortedKeys(before.Keys + after.Keys))
  }

  function Feed(w: World, same: Pointers, o: Options, before: Engines, after: Engines): Result<seq<Event>, string> {
    if !o.Changes() then Ok([]) else
      match EventsOf(w, same, o, before, after, Visited(before, after))
      case Err(error) => Err(error)
      case Ok(parts) => Ok(parts.All())
  }

  // ---------------------------------------------------------------- a consumer's mirror

  datatype Table = Table(schema: Schema, rows: map<string, HookRow>)

  type Mirror = map<Place, Table>

  function Readable(r: Result<map<string, HookRow>, string>): map<string, HookRow> {
    match r
    case Ok(rows) => rows
    case Err(_) => map[]
  }

  // The persistent tables with their rows by key; the schema's time stamp does not count.
  function MirrorAt(w: World, engines: Engines, p: Place): Option<Table> {
    var s := SchemaIn(engines, p.database, p.table);
    if s.None? || s.value.temporary then None
    else Some(Table(Undated(s.value), Readable(HookRows(w, engines, p.database, p.table))))
  }

  ghost predicate Mirrors(w: World, m: Mirror, engines: Engines) {
    forall p :: Get(m, p) == MirrorAt(w, engines, p)
  }

  function Identities(w: World, keys: seq<Key>): set<string> {
    set k | k in keys :: w.identity(k)
  }

  function Upserts(w: World, rows: map<string, HookRow>, updates: seq<HookRow>): map<string, HookRow> {
    if updates == [] then rows
    else
      var row := updates[|updates| - 1];
      Upserts(w, rows, updates[..|updates| - 1])[w.identity(row.key) := row]
  }

  // What one event does to the mirror of its own table.
  function ReplayOne(w: World, table: Option<Table>, event: Event): Option<Table> {
    match event
    case Read(_, _) => table
    case TableDropped(_, _) => None
    case TableCreated(_, _, schema) => Some(Table(Undated(schema), if table.Some? then table.value.rows else map[]))
    case TableUpdated(_, _, schema) => Some(Table(Undated(schema), if table.Some? then table.value.rows else map[]))
    case Delete(_, _, keys) =>
      if table.None? then None else Some(table.value.(rows := table.value.rows - Identities(w, keys)))
    case Write(_, _, rows) =>
      if table.None? then None else Some(table.value.(rows := Upserts(w, table.value.rows, rows)))
  }

  predicate IsAt(event: Event, p: Place) {
    !event.Read? && event.database == p.database && event.table == p.table
  }

  function ReplayEvent(w: World, m: Mirror, event: Event): Mirror {
    if event.Read? then m else
      var p := Place(event.database, event.table);
      match ReplayOne(w, Get(m, p), event)
      case None => m - {p}
      case Some(table) => m[p := table]
  }

  function Replay(w: World, m: Mirror, events: seq<Event>): Mirror {
    if events == [] then m else ReplayEvent(w, Replay(w, m, events[..|events| - 1]), events[|events| - 1])
  }

  function ReplayTable(w: World, table: Option<Table>, events: seq<Event>): Option<Table> {
    if events == [] then table else ReplayOne(w, ReplayTable(w, table, events[..|events| - 1]), events[|events| - 1])
  }

  // The events of one table, in order.
  function EventsAt(events: seq<Event>, p: Place): seq<Event> {
    if events == [] then [] else
      var rest := EventsAt(events[..|events| - 1], p);
      if IsAt(events[|events| - 1], p) then rest + [events[|events| - 1]] else rest
  }

  // A mirror only depends, table by table, on the events of that table.
  lemma {:induction false} ReplayByTable(w: World, m: Mirror, events: seq<Event>, p: Place)
    ensures Get(Replay(w, m, events), p) == ReplayTable(w, Get(m, p), EventsAt(events, p))
  {
    if events != [] {
      var init, last := events[..|events| - 1], events[|events| - 1];
      ReplayByTable(w, m, init, p);
      if IsAt(last, p) {
        var at := EventsAt(init, p) + [last];
        assert at[..|at| - 1] == EventsAt(init, p);
      }
    }
  }

  lemma {:induction false} EventsAtAppend(a: seq<Event>, b: seq<Event>, p: Place)
    ensures EventsAt(a + b, p) == EventsAt(a, p) + EventsAt(b, p)
  {
    if b == [] {
      assert a + b == a;
    } else {
      assert (a + b)[..|a + b| - 1] == a + b[..|b| - 1];
      EventsAtAppend(a, b[..|b| - 1], p);
    }
  }

  // ---------------------------------------------------------------- the emitted events, table by table

  function PartsAt(parts: Parts, p: Place): Parts {
    Parts(EventsAt(parts.deletes, p), EventsAt(parts.drops, p), EventsAt(parts.schemas, p), EventsAt(parts.writes, p))
  }

  lemma PartsAtPlus(a: Parts, b: Parts, p: Place)
    ensures PartsAt(a.Plus(b), p) == PartsAt(a, p).Plus(PartsAt(b, p))
  {
    EventsAtAppend(a.deletes, b.deletes, p);
    EventsAtAppend(a.drops, b.drops, p);
    EventsAtAppend(a.schemas, b.schemas, p);
    EventsAtAppend(a.writes, b.writes, p);
  }

  lemma AllAt(parts: Parts, p: Place)
    ensures EventsAt(parts.All(), p) == PartsAt(parts, p).All()
  {
    EventsAtAppend(parts.deletes, parts.drops, p);
    EventsAtAppend(parts.deletes + parts.drops, parts.schemas, p);
    EventsAtAppend(parts.deletes + parts.drops + parts.schemas, parts.writes, p);
  }

  predicate AllIn(events: seq<Event>, p: Place) {
    forall e :: e in events ==> IsAt(e, p)
  }

  lemma {:induction false} EventsOfOnePlace(events: seq<Event>, p: Place, q: Place)
    requires AllIn(events, p)
    ensures EventsAt(events, q) == if p == q then events else []
  {
    if events != [] {
      var init, last := events[..|events| - 1], events[|events| - 1];
      EventsOfOnePlace(init, p, q);
      assert IsAt(last, p);
      InitAndLast(events);
    }
  }

  predicate PartsIn(parts: Parts, p: Place) {
    AllIn(parts.deletes, p) && AllIn(parts.drops, p) && AllIn(parts.schemas, p) && AllIn(parts.writes, p)
  }

  lemma PartsOfOnePlace(parts: Parts, p: Place, q: Place)
    requires PartsIn(parts, p)
    ensures PartsAt(parts, q) == if p == q then parts else NOTHING
  {
    EventsOfOnePlace(parts.deletes, p, q);
    EventsOfOnePlace(parts.drops, p, q);
    EventsOfOnePlace(parts.schemas, p, q);
    EventsOfOnePlace(parts.writes, p, q);
  }

  lemma SchemaPartsIn(same: Pointers, o: Options, before: Engines, after: Engines, p: Place)
    ensures AllIn(DropEvents(o, before, after, p.database, p.table), p)
    ensures AllIn(SchemaEvents(same, o, before, after, p.database, p.table), p)
  {
  }

  lemma RowPartsIn(o: Options, p: Place, previous: map<string, HookRow>, current: map<string, HookRow>)
    ensures AllIn(DeleteEvents(o, p.database, p.table, previous, current), p)
    ensures AllIn(WriteEvents(o, p.database, p.table, previous, current), p)
  {
  }

  lemma TablePartsIn(w: World, same: Pointers, o: Options, before: Engines, after: Engines, p: Place)
    requires TableEvents(w, same, o, before, after, p.database, p.table).Ok?
    ensures PartsIn(TableEvents(w, same, o, before, after, p.database, p.table).value, p)
  {
    var d, t := p.database, p.table;
    if !IsSkipped(same, before, after, d, t) {
      SchemaPartsIn(same, o, before, after, p);
      if (o.write || o.delete) && !SharesRows(same, before, after, d, t) {
        RowPartsIn(o, p, HookRows(w, before, d, t).value, HookRows(w, after, d, t).value);
      }
    }
  }

  ghost predicate Distinct(places: seq<Place>) {
    forall i, j :: 0 <= i < j < |places| ==> places[i] != places[j]
  }

  lemma NothingPlus(parts: Parts)
    ensures NOTHING.Plus(parts) == parts && parts.Plus(NOTHING) == parts
  {
  }

  lemma {:induction false} EventsOfAt(
    w: World, same: Pointers, o: Options, before: Engines, after: Engines, places: seq<Place>, p: Place)
    requires Distinct(places) && EventsOf(w, same, o, before, after, places).Ok?
    ensures p in places ==> TableEvents(w, same, o, before, after, p.database, p.table).Ok?
    ensures PartsAt(EventsOf(w, same, o, before, after, places).value, p)
         == if p in places then TableEvents(w, same, o, before, after, p.database, p.table).value else NOTHING
  {
    if places != [] {
      var init, last := places[..|places| - 1], places[|places| - 1];
      EventsOfAt(w, same, o, before, after, init, p);
      var a, b := EventsOf(w, same, o, before, after, init).value,
                  TableEvents(w, same, o, before, after, last.database, last.table).value;
      TablePartsIn(w, same, o, before, after, last);
      PartsOfOnePlace(b, last, p);
      PartsAtPlus(a, b, p);
      NothingPlus(PartsAt(a, p));
      NothingPlus(PartsAt(b, p));
      assert p in places <==> p in init || p == last;
      assert last !in init;
    }
  }

  lemma PlacesInDistinct(d: string, tables: seq<string>)
    requires StrictlySorted(tables)
    ensures Distinct(PlacesIn(d, tables))
    ensures forall p :: p in PlacesIn(d, tables) <==> p.database == d && p.table in tables
  {
    forall i, j | 0 <= i < j < |tables| ensures tables[i] != tables[j] { LessIrreflexive(tables[i]); }
    forall p: Place | p.database == d && p.table in tables ensures p in PlacesIn(d, tables) {
      var i :| 0 <= i < |tables| && tables[i] == p.table;
      assert PlacesIn(d, tables)[i] == p;
    }
  }

  lemma DistinctAppend(a: seq<Place>, b: seq<Place>)
    requires Distinct(a) && Distinct(b) && forall p :: p in a ==> p !in b
    ensures Distinct(a + b)
  {
    forall i, j | 0 <= i < j < |a + b| ensures (a + b)[i] != (a + b)[j] {
      if i < |a| <= j { assert a[i] in a; }
    }
  }

  lemma {:induction false} PlacesOfDistinct(before: Engines, after: Engines, databases: seq<string>)
    requires StrictlySorted(databases)
    ensures Distinct(PlacesOf(before, after, databases))
    ensures forall p :: p in PlacesOf(before, after, databases)
                   <==> p.database in databases && p.table in TableNames(before, after, p.database)
  {
    if databases != [] {
      var init, d := databases[..|databases| - 1], databases[|databases| - 1];
      PlacesOfDistinct(before, after, init);
      SortedKeysSorted(TableNames(before, after, d));
      PlacesInDistinct(d, SortedKeys(TableNames(before, after, d)));
      assert forall e :: e in databases <==> e in init || e == d;
      assert d !in init by { LessIrreflexive(d); }
      DistinctAppend(PlacesOf(before, after, init), PlacesIn(d, SortedKeys(TableNames(before, after, d))));
    }
  }

  lemma VisitedIsKnown(before: Engines, after: Engines)
    ensures Distinct(Visited(before, after))
    ensures forall p :: p in Visited(before, after)
                   <==> SchemaIn(before, p.database, p.table).Some? || SchemaIn(after, p.database, p.table).Some?
  {
    SortedKeysSorted(before.Keys + after.Keys);
    PlacesOfDistinct(before, after, SortedKeys(before.Keys + after.Keys));
  }

  // In the feed of a commit, the events of one table are its delete, drop, schema and write, in that order.
  lemma FeedAt(w: World, same: Pointers, o: Options, before: Engines, after: Engines, p: Place)
    requires o.Changes() && Feed(w, same, o, before, after).Ok?
    ensures TableEvents(w, same, o, before, after, p.database, p.table).Ok?
    ensures EventsAt(Feed(w, same, o, before, after).value, p)
         == TableEvents(w, same, o, before, after, p.database, p.table).value.All()
  {
    VisitedIsKnown(before, after);
    var places := Visited(before, after);
    EventsOfAt(w, same, o, before, after, places, p);
    AllAt(EventsOf(w, same, o, before, after, places).value, p);
  }

  // ---------------------------------------------------------------- replaying rows

  ghost predicate Keyed(w: World, rows: map<string, HookRow>) {
    forall id :: id in rows ==> w.identity(rows[id].key) == id
  }

  lemma {:induction false} RowsFromKeyed(w: World, e: Engine, t: string, stored: map<string, Row>, ids: seq<string>)
    requires forall id :: id in ids ==> id in stored
    ensures Keyed(w, Readable(RowsFrom(w, e, t, stored, ids)))
  {
    if ids != [] { RowsFromKeyed(w, e, t, stored, ids[..|ids| - 1]); }
  }

  lemma HookRowsKeyed(w: World, engines: Engines, d: string, t: string)
    ensures Keyed(w, Readable(HookRows(w, engines, d, t)))
  {
    if d in engines && t in engines[d].rows {
      RowsFromKeyed(w, engines[d], t, engines[d].rows[t], SortedKeys(engines[d].rows[t].Keys));
    }
  }

  // The rows whose key stays.
  function Kept(previous: map<string, HookRow>, current: map<string, HookRow>): map<string, HookRow> {
    map id | id in previous && id in current :: previous[id]
  }

  lemma KeysAtIdentities(w: World, rows: map<string, HookRow>, ids: seq<string>, id: string)
    requires Keyed(w, rows) && forall i :: i in ids ==> i in rows
    ensures id in Identities(w, KeysAt(rows, ids)) <==> id in ids
  {
    var keys := KeysAt(rows, ids);
    if id in ids {
      var i :| 0 <= i < |ids| && ids[i] == id;
      assert keys[i] in keys && w.identity(keys[i]) == id;
    }
    if id in Identities(w, keys) {
      var k :| k in keys && w.identity(k) == id;
      var i :| 0 <= i < |keys| && keys[i] == k;
      assert ids[i] == id;
    }
  }

  lemma DeletesKeep(w: World, previous: map<string, HookRow>, current: map<string, HookRow>)
    requires Keyed(w, previous)
    ensures previous - Identities(w, KeysAt(previous, Removed(previous, current))) == Kept(previous, current)
  {
    var left := previous - Identities(w, KeysAt(previous, Removed(previous, current)));
    forall id ensures id in left <==> id in Kept(previous, current) {
      KeysAtIdentities(w, previous, Removed(previous, current), id);
    }
  }

  lemma {:induction false} UpsertsAt(w: World, rows: map<string, HookRow>, current: map<string, HookRow>,
      ids: seq<string>, id: string)
    requires Keyed(w, current) && forall i :: i in ids ==> i in current
    ensures Get(Upserts(w, rows, RowsAt(current, ids)), id) == if id in ids then Some(current[id]) else Get(rows, id)
  {
    if ids != [] {
      var init, last := ids[..|ids| - 1], ids[|ids| - 1];
      var updates := RowsAt(current, ids);
      assert updates[..|updates| - 1] == RowsAt(current, init);
      UpsertsAt(w, rows, current, init, id);
      assert id in ids <==> id in init || id == last;
    }
  }

  lemma WritesRebuild(w: World, previous: map<string, HookRow>, current: map<string, HookRow>)
    requires Keyed(w, current)
    ensures Upserts(w, Kept(previous, current), RowsAt(current, Changed(previous, current))) == current
  {
    var kept, changed := Kept(previous, current), Changed(previous, current);
    var result := Upserts(w, kept, RowsAt(current, changed));
    forall id ensures Get(result, id) == Get(current, id) {
      UpsertsAt(w, kept, current, changed, id);
    }
    SameMap(result, current);
  }

  // ---------------------------------------------------------------- replaying one table

  lemma {:induction false} ReplayAppend(w: World, table: Option<Table>, a: seq<Event>, b: seq<Event>)
    ensures ReplayTable(w, table, a + b) == ReplayTable(w, ReplayTable(w, table, a), b)
  {
    if b == [] {
      assert a + b == a;
    } else {
      assert (a + b)[..|a + b| - 1] == a + b[..|b| - 1];
      ReplayAppend(w, table, a, b[..|b| - 1]);
    }
  }

  lemma ReplayParts(w: World, table: Option<Table>, parts: Parts)
    ensures ReplayTable(w, table, parts.All())
         == ReplayTable(w, ReplayTable(w, ReplayTable(w, ReplayTable(w, table, parts.deletes), parts.drops),
             parts.schemas), parts.writes)
  {
    ReplayAppend(w, table, parts.deletes, parts.drops);
    ReplayAppend(w, table, parts.deletes + parts.drops, parts.schemas);
    ReplayAppend(w, table, parts.deletes + parts.drops + parts.schemas, parts.writes);
  }

  lemma ReplaySingle(w: World, table: Option<Table>, event: Event)
    ensures ReplayTable(w, table, [event]) == ReplayOne(w, table, event)
  {
    assert [event][..0] == [];
  }

  lemma RemovedHas(previous: map<string, HookRow>, current: map<string, HookRow>, id: string)
    ensures id in Removed(previous, current) <==> id in previous && id !in current
  {
  }

  lemma AfterDeletes(w: World, d: string, t: string, s: Schema, previous: map<string, HookRow>, current: map<string,
      HookRow>)
    requires Keyed(w, previous)
    ensures ReplayTable(w, Some(Table(s, previous)), DeleteEvents(EVERYTHING, d, t, previous, current))
         == Some(Table(s, Kept(previous, current)))
  {
    var removed := Removed(previous, current);
    DeletesKeep(w, previous, current);
    if removed == [] {
      forall id | id in previous ensures id in current { RemovedHas(previous, current, id); }
      assert Kept(previous, current) == previous;
    } else {
      ReplaySingle(w, Some(Table(s, previous)), Delete(d, t, KeysAt(previous, removed)));
    }
  }

  lemma AfterWrites(w: World, d: string, t: string, s: Schema, previous: map<string, HookRow>, current: map<string,
      HookRow>)
    requires Keyed(w, current)
    ensures ReplayTable(w, Some(Table(s, Kept(previous, current))), WriteEvents(EVERYTHING, d, t, previous, current))
         == Some(Table(s, current))
  {
    var changed := Changed(previous, current);
    WritesRebuild(w, previous, current);
    if changed != [] {
      ReplaySingle(w, Some(Table(s, Kept(previous, current))), Write(d, t, RowsAt(current, changed)));
    }
  }

  lemma AfterSchemas(w: World, same: Pointers, before: Engines, after: Engines, d: string, t: string,
      rows: map<string, HookRow>)
    requires Sound(same, before, after) && SchemaIn(before, d, t).Some? && SchemaIn(after, d, t).Some?
    ensures ReplayTable(w, Some(Table(Undated(SchemaIn(before, d, t).value), rows)),
        SchemaEvents(same, EVERYTHING, before, after, d, t))
         == Some(Table(Undated(SchemaIn(after, d, t).value), rows))
  {
    var a, b := SchemaIn(before, d, t).value, SchemaIn(after, d, t).value;
    if !same.schema(d, t) && !SameSchema(a, b) {
      ReplaySingle(w, Some(Table(Undated(a), rows)), TableUpdated(d, t, b));
    }
  }

  // A table that stays: its schema and its rows are rebuilt, unless the row shortcut is taken.
  lemma StayingReplays(w: World, same: Pointers, before: Engines, after: Engines, p: Place)
    requires Sound(same, before, after) && !IsSkipped(same, before, after, p.database, p.table)
    requires SchemaIn(before, p.database, p.table).Some? && SchemaIn(after, p.database, p.table).Some?
    requires TableEvents(w, same, EVERYTHING, before, after, p.database, p.table).Ok?
    ensures ReplayTable(w, MirrorAt(w, before, p),
        TableEvents(w, same, EVERYTHING, before, after, p.database, p.table).value.All())
         == Some(Table(Undated(SchemaIn(after, p.database, p.table).value),
                       Readable(HookRows(w, if SharesRows(same, before, after, p.database, p.table) then before
                           else after, p.database, p.table))))
  {
    var d, t := p.database, p.table;
    var parts := TableEvents(w, same, EVERYTHING, before, after, d, t).value;
    var a, b := SchemaIn(before, d, t).value, SchemaIn(after, d, t).value;
    var previous, current := Readable(HookRows(w, before, d, t)), Readable(HookRows(w, after, d, t));
    ReplayParts(w, MirrorAt(w, before, p), parts);
    HookRowsKeyed(w, before, d, t);
    HookRowsKeyed(w, after, d, t);
    if SharesRows(same, before, after, d, t) {
      AfterSchemas(w, same, before, after, d, t, previous);
    } else {
      AfterDeletes(w, d, t, Undated(a), previous, current);
      AfterSchemas(w, same, before, after, d, t, Kept(previous, current));
      AfterWrites(w, d, t, Undated(b), previous, current);
    }
  }

  lemma WritesOnNothing(w: World, o: Options, d: string, t: string, previous: map<string, HookRow>,
      current: map<string, HookRow>)
    ensures ReplayTable(w, None, WriteEvents(o, d, t, previous, current)) == None
  {
    if WriteEvents(o, d, t, previous, current) != [] {
      ReplaySingle(w, None, Write(d, t, RowsAt(current, Changed(previous, current))));
    }
  }

  lemma DroppedReplays(w: World, same: Pointers, before: Engines, after: Engines, p: Place)
    requires !IsSkipped(same, before, after, p.database, p.table)
    requires SchemaIn(before, p.database, p.table).Some? && SchemaIn(after, p.database, p.table).None?
    requires TableEvents(w, same, EVERYTHING, before, after, p.database, p.table).Ok?
    ensures ReplayTable(w, MirrorAt(w, before, p),
        TableEvents(w, same, EVERYTHING, before, after, p.database, p.table).value.All()) == None
  {
    var d, t := p.database, p.table;
    var parts := TableEvents(w, same, EVERYTHING, before, after, d, t).value;
    ReplayParts(w, MirrorAt(w, before, p), parts);
    ReplaySingle(w, ReplayTable(w, MirrorAt(w, before, p), parts.deletes), TableDropped(d, t));
    WritesOnNothing(w, EVERYTHING, d, t, Readable(HookRows(w, before, d, t)), Readable(HookRows(w, after, d, t)));
  }

  lemma CreatedReplays(w: World, same: Pointers, before: Engines, after: Engines, p: Place)
    requires !IsSkipped(same, before, after, p.database, p.table) && WellFormed(before)
    requires SchemaIn(before, p.database, p.table).None? && SchemaIn(after, p.database, p.table).Some?
    requires TableEvents(w, same, EVERYTHING, before, after, p.database, p.table).Ok?
    ensures ReplayTable(w, None, TableEvents(w, same, EVERYTHING, before, after, p.database, p.table).value.All())
         == MirrorAt(w, after, p)
  {
    var d, t := p.database, p.table;
    var parts := TableEvents(w, same, EVERYTHING, before, after, d, t).value;
    var b, current := SchemaIn(after, d, t).value, Readable(HookRows(w, after, d, t));
    assert HookRows(w, before, d, t) == Ok(map[]);
    ReplayParts(w, None, parts);
    assert parts.deletes == [] by {
      assert forall id :: id !in Removed(map[], current);
      NothingIn(Removed(map[], current));
    }
    ReplaySingle(w, None, TableCreated(d, t, b));
    assert Kept(map[], current) == map[];
    HookRowsKeyed(w, after, d, t);
    AfterWrites(w, d, t, Undated(b), map[], current);
  }

  // A table that exists on both sides and is temporary on only one of them.
  predicate Flips(before: Engines, after: Engines, p: Place) {
    && SchemaIn(before, p.database, p.table).Some? && SchemaIn(after, p.database, p.table).Some?
    && SchemaIn(before, p.database, p.table).value.temporary != SchemaIn(after, p.database, p.table).value.temporary
  }

  // Rows shared under one shape that the evaluator nevertheless reads differently on the two sides.
  predicate Misread(w: World, same: Pointers, before: Engines, after: Engines, p: Place) {
    && !IsSkipped(same, before, after, p.database, p.table) && SharesRows(same, before, after, p.database, p.table)
    && Readable(HookRows(w, before, p.database, p.table)) != Readable(HookRows(w, after, p.database, p.table))
  }

  lemma TableReplays(w: World, same: Pointers, before: Engines, after: Engines, p: Place)
    requires Sound(same, before, after) && WellFormed(before)
    requires TableEvents(w, same, EVERYTHING, before, after, p.database, p.table).Ok?
    ensures var events := TableEvents(w, same, EVERYTHING, before, after, p.database, p.table).value.All();
            ReplayTable(w, MirrorAt(w, before, p), events) == MirrorAt(w, after, p)
            <==> !Flips(before, after, p) && !Misread(w, same, before, after, p)
  {
    if !IsSkipped(same, before, after, p.database, p.table) {
      if SchemaIn(before, p.database, p.table).None? {
        CreatedReplays(w, same, before, after, p);
      } else if SchemaIn(after, p.database, p.table).None? {
        DroppedReplays(w, same, before, after, p);
      } else {
        StayingReplays(w, same, before, after, p);
      }
    }
  }

  // ---------------------------------------------------------------- replaying a commit

  // Replaying the feed of a commit on a mirror of the state before gives a mirror of the state
  // after, exactly when no table flips its temporary flag and no shared rows change their meaning.
  lemma FeedReplays(w: World, same: Pointers, before: Engines, after: Engines, m: Mirror)
    requires Sound(same, before, after) && WellFormed(before) && Mirrors(w, m, before)
    requires Feed(w, same, EVERYTHING, before, after).Ok?
    ensures Mirrors(w, Replay(w, m, Feed(w, same, EVERYTHING, before, after).value), after)
       <==> forall p :: !Flips(before, after, p) && !Misread(w, same, before, after, p)
  {
    var events := Feed(w, same, EVERYTHING, before, after).value;
    forall p ensures Get(Replay(w, m, events), p) == MirrorAt(w, after, p)
                <==> !Flips(before, after, p) && !Misread(w, same, before, after, p) {
      ReplayByTable(w, m, events, p);
      FeedAt(w, same, EVERYTHING, before, after, p);
      TableReplays(w, same, before, after, p);
    }
  }

  // Two schemas that the evaluator reads alike: it fills the columns in, in the column order.
  predicate ReadAlike(a: Option<Schema>, b: Option<Schema>) {
    SameShape(a, b) && (a.Some? && b.Some? ==> a.value.columnOrder == b.value.columnOrder)
  }

  // An evaluator that reads a schema only through its columns and their order.
  ghost predicate ReadsColumnsOnly(w: World) {
    forall e: Engine, f: Engine, t: string, data: Row ::
      t in e.schemas && t in f.schemas && ReadAlike(Some(e.schemas[t]), Some(f.schemas[t]))
      ==> w.evaluate(e, t, data) == w.evaluate(f, t, data)
  }

  lemma {:induction false} ReadAlikeSameRows(w: World, e: Engine, f: Engine, t: string, stored: map<string, Row>,
      ids: seq<string>)
    requires ReadsColumnsOnly(w) && ReadAlike(Get(e.schemas, t), Get(f.schemas, t))
    requires forall id :: id in ids ==> id in stored
    ensures RowsFrom(w, e, t, stored, ids) == RowsFrom(w, f, t, stored, ids)
  {
    if ids != [] {
      var id := ids[|ids| - 1];
      ReadAlikeSameRows(w, e, f, t, stored, ids[..|ids| - 1]);
      assert HookRowOf(w, e, t, id, stored[id]) == HookRowOf(w, f, t, id, stored[id]);
    }
  }

  // Shared rows whose columns were only put in another order: the shortcut does not look at it.
  predicate IsReordered(same: Pointers, before: Engines, after: Engines, p: Place) {
    && SharesRows(same, before, after, p.database, p.table)
    && !ReadAlike(SchemaIn(before, p.database, p.table), SchemaIn(after, p.database, p.table))
  }

  // For such an evaluator the row shortcut is safe, whatever pointers happen to be shared, unless
  // the columns were reordered.
  lemma ShortcutIsSafe(w: World, same: Pointers, before: Engines, after: Engines, p: Place)
    requires ReadsColumnsOnly(w) && Sound(same, before, after)
    ensures Misread(w, same, before, after, p) ==> IsReordered(same, before, after, p)
  {
    var d, t := p.database, p.table;
    if SharesRows(same, before, after, d, t) && !IsReordered(same, before, after, p) {
      var stored := before[d].rows[t];
      assert StoredIn(before, d, t) == StoredIn(after, d, t);
      ReadAlikeSameRows(w, before[d], after[d], t, stored, SortedKeys(stored.Keys));
    }
  }

  lemma PersistentFeedReplays(w: World, same: Pointers, before: Engines, after: Engines, m: Mirror)
    requires ReadsColumnsOnly(w) && Sound(same, before, after) && WellFormed(before) && Mirrors(w, m, before)
    requires Feed(w, same, EVERYTHING, before, after).Ok?
    ensures Mirrors(w, Replay(w, m, Feed(w, same, EVERYTHING, before, after).value), after)
       <==> forall p :: !Flips(before, after, p)
                        && !(IsReordered(same, before, after, p) && Misread(w, same, before, after, p))
  {
    FeedReplays(w, same, before, after, m);
    forall p ensures Misread(w, same, before, after, p) ==> IsReordered(same, before, after, p) {
      ShortcutIsSafe(w, same, before, after, p);
    }
  }

  // One database with one table and no rows.
  function OneTable(d: string, t: string, schema: Schema, context: Context): Engines {
    map[d := Engine(map[t := schema], map[], context)]
  }

  const NOTHING_SHARED := Pointers(d => false, (d, t) => false, (d, t) => false)

  lemma OneTableSchemas(d: string, t: string, schema: Schema, context: Context, e: string, u: string)
    ensures SchemaIn(OneTable(d, t, schema, context), e, u) == if e == d && u == t then Some(schema) else None
    ensures WellFormed(OneTable(d, t, schema, context))
  {
  }

  lemma {:induction false} AllTemporary(w: World, same: Pointers, before: Engines, after: Engines, places: seq<Place>)
    requires forall p :: p in places ==> IsSkipped(same, before, after, p.database, p.table)
    ensures EventsOf(w, same, EVERYTHING, before, after, places) == Ok(NOTHING)
  {
    if places != [] {
      AllTemporary(w, same, before, after, places[..|places| - 1]);
      assert places[|places| - 1] in places;
      NothingPlus(NOTHING);
    }
  }

  lemma FlipIsSilent(w: World, schema: Schema, context: Context, d: string, t: string, before: Engines, after: Engines)
    requires before == OneTable(d, t, schema.(temporary := true), context)
    requires after == OneTable(d, t, schema.(temporary := false), context)
    ensures Feed(w, NOTHING_SHARED, EVERYTHING, before, after) == Ok([])
  {
    VisitedIsKnown(before, after);
    forall p | p in Visited(before, after) ensures IsSkipped(NOTHING_SHARED, before, after, p.database, p.table) {
      OneTableSchemas(d, t, schema.(temporary := true), context, p.database, p.table);
      OneTableSchemas(d, t, schema.(temporary := false), context, p.database, p.table);
    }
    AllTemporary(w, NOTHING_SHARED, before, after, Visited(before, after));
  }

  // Such a commit exists: a table that stops being temporary is never announced.
  lemma FlipIsMissed(w: World, schema: Schema, context: Context, d: string, t: string, before: Engines, after: Engines)
    requires before == OneTable(d, t, schema.(temporary := true), context)
    requires after == OneTable(d, t, schema.(temporary := false), context)
    ensures WellFormed(before) && Flips(before, after, Place(d, t)) && Mirrors(w, map[], before)
    ensures Feed(w, NOTHING_SHARED, EVERYTHING, before, after) == Ok([]) && !Mirrors(w, map[], after)
  {
    FlipIsSilent(w, schema, context, d, t, before, after);
    OneTableSchemas(d, t, schema.(temporary := false), context, d, t);
    forall p ensures MirrorAt(w, before, p) == None {
      OneTableSchemas(d, t, schema.(temporary := true), context, p.database, p.table);
    }
    assert MirrorAt(w, after, Place(d, t)).Some?;
  }

  // ---------------------------------------------------------------- nothing to say

  lemma TableIsQuiet(w: World, same: Pointers, before: Engines, after: Engines, p: Place)
    requires Sound(same, before, after)
    requires MirrorAt(w, before, p) == MirrorAt(w, after, p) && !Flips(before, after, p)
    requires TableEvents(w, same, EVERYTHING, before, after, p.database, p.table).Ok?
    ensures TableEvents(w, same, EVERYTHING, before, after, p.database, p.table).value == NOTHING
  {
    var d, t := p.database, p.table;
    if !IsSkipped(same, before, after, d, t) && !SharesRows(same, before, after, d, t) {
      var previous, current := Readable(HookRows(w, before, d, t)), Readable(HookRows(w, after, d, t));
      assert previous == current;
      assert forall id :: id !in Removed(previous, current) && id !in Changed(previous, current);
      NothingIn(Removed(previous, current));
      NothingIn(Changed(previous, current));
    }
  }

  lemma {:induction false} AllQuiet(w: World, same: Pointers, before: Engines, after: Engines, places: seq<Place>)
    requires EventsOf(w, same, EVERYTHING, before, after, places).Ok?
    requires forall p: Place, parts ::
      p in places && TableEvents(w, same, EVERYTHING, before, after, p.database, p.table) == Ok(parts)
      ==> parts == NOTHING
    ensures EventsOf(w, same, EVERYTHING, before, after, places).value == NOTHING
  {
    if places != [] {
      AllQuiet(w, same, before, after, places[..|places| - 1]);
      NothingPlus(NOTHING);
    }
  }

  // A commit that leaves every mirrored table as it was emits no event.
  lemma FeedIsQuiet(w: World, same: Pointers, before: Engines, after: Engines)
    requires Sound(same, before, after) && Feed(w, same, EVERYTHING, before, after).Ok?
    requires forall p :: MirrorAt(w, before, p) == MirrorAt(w, after, p) && !Flips(before, after, p)
    ensures Feed(w, same, EVERYTHING, before, after).value == []
  {
    forall p: Place, parts | TableEvents(w, same, EVERYTHING, before, after, p.database, p.table) == Ok(parts)
      ensures parts == NOTHING
    {
      TableIsQuiet(w, same, before, after, p);
    }
    AllQuiet(w, same, before, after, Visited(before, after));
  }

  // ---------------------------------------------------------------- one listener among several

  function Accepted(o: Options, events: seq<Event>): seq<Event> {
    if events == [] then [] else
      var rest := Accepted(o, events[..|events| - 1]);
      if o.Accepts(events[|events| - 1]) then rest + [events[|events| - 1]] else rest
  }

  function PartsAccepted(o: Options, parts: Parts): Parts {
    Parts(Accepted(o, parts.deletes), Accepted(o, parts.drops), Accepted(o, parts.schemas), Accepted(o, parts.writes))
  }

  lemma {:induction false} AcceptedAppend(o: Options, a: seq<Event>, b: seq<Event>)
    ensures Accepted(o, a + b) == Accepted(o, a) + Accepted(o, b)
  {
    if b == [] {
      assert a + b == a;
    } else {
      assert (a + b)[..|a + b| - 1] == a + b[..|b| - 1];
      AcceptedAppend(o, a, b[..|b| - 1]);
      Shift(Accepted(o, a), Accepted(o, b[..|b| - 1]), [b[|b| - 1]]);
    }
  }

  lemma PartsAcceptedPlus(o: Options, a: Parts, b: Parts)
    ensures PartsAccepted(o, a.Plus(b)) == PartsAccepted(o, a).Plus(PartsAccepted(o, b))
  {
    AcceptedAppend(o, a.deletes, b.deletes);
    AcceptedAppend(o, a.drops, b.drops);
    AcceptedAppend(o, a.schemas, b.schemas);
    AcceptedAppend(o, a.writes, b.writes);
  }

  lemma AllAccepted(o: Options, parts: Parts)
    ensures Accepted(o, parts.All()) == PartsAccepted(o, parts).All()
  {
    AcceptedAppend(o, parts.deletes, parts.drops);
    AcceptedAppend(o, parts.deletes + parts.drops, parts.schemas);
    AcceptedAppend(o, parts.deletes + parts.drops + parts.schemas, parts.writes);
  }

  lemma AcceptedSingle(o: Options, event: Event)
    ensures Accepted(o, [event]) == if o.Accepts(event) then [event] else []
  {
    assert [event][..0] == [];
  }

  lemma AcceptedAtMostOne(o: Options, events: seq<Event>)
    requires |events| <= 1
    ensures Accepted(o, events) == if events != [] && o.Accepts(events[0]) then events else []
  {
    if events != [] { AcceptedSingle(o, events[0]); }
  }

  predicate Within(o: Options, u: Options) {
    o.Or(u) == u
  }

  lemma DropsAccepted(o: Options, u: Options, before: Engines, after: Engines, d: string, t: string)
    requires Within(o, u)
    ensures Accepted(o, DropEvents(u, before, after, d, t)) == DropEvents(o, before, after, d, t)
  {
    AcceptedAtMostOne(o, DropEvents(u, before, after, d, t));
  }

  lemma SchemasAccepted(same: Pointers, o: Options, u: Options, before: Engines, after: Engines, d: string, t: string)
    requires Within(o, u)
    ensures Accepted(o, SchemaEvents(same, u, before, after, d, t)) == SchemaEvents(same, o, before, after, d, t)
  {
    AcceptedAtMostOne(o, SchemaEvents(same, u, before, after, d, t));
  }

  lemma RowsAccepted(o: Options, u: Options, d: string, t: string, previous: map<string, HookRow>,
      current: map<string, HookRow>)
    requires Within(o, u)
    ensures Accepted(o, DeleteEvents(u, d, t, previous, current)) == DeleteEvents(o, d, t, previous, current)
    ensures Accepted(o, WriteEvents(u, d, t, previous, current)) == WriteEvents(o, d, t, previous, current)
  {
    AcceptedAtMostOne(o, DeleteEvents(u, d, t, previous, current));
    AcceptedAtMostOne(o, WriteEvents(u, d, t, previous, current));
  }

  lemma NoRowsWanted(o: Options, d: string, t: string, previous: map<string, HookRow>, current: map<string, HookRow>)
    requires !o.write && !o.delete
    ensures DeleteEvents(o, d, t, previous, current) == [] && WriteEvents(o, d, t, previous, current) == []
  {
  }

  lemma TableAccepted(w: World, same: Pointers, o: Options, u: Options, before: Engines, after: Engines, d: string,
      t: string)
    requires Within(o, u) && TableEvents(w, same, u, before, after, d, t).Ok?
    ensures TableEvents(w, same, o, before, after, d, t)
         == Ok(PartsAccepted(o, TableEvents(w, same, u, before, after, d, t).value))
  {
    if !IsSkipped(same, before, after, d, t) {
      DropsAccepted(o, u, before, after, d, t);
      SchemasAccepted(same, o, u, before, after, d, t);
      var previous, current := HookRows(w, before, d, t), HookRows(w, after, d, t);
      if (u.write || u.delete) && !SharesRows(same, before, after, d, t) {
        RowsAccepted(o, u, d, t, previous.value, current.value);
        if !o.write && !o.delete { NoRowsWanted(o, d, t, previous.value, current.value); }
      }
    }
  }

  lemma {:induction false} EventsAccepted(
    w: World, same: Pointers, o: Options, u: Options, before: Engines, after: Engines, places: seq<Place>)
    requires Within(o, u) && EventsOf(w, same, u, before, after, places).Ok?
    ensures EventsOf(w, same, o, before, after, places)
         == Ok(PartsAccepted(o, EventsOf(w, same, u, before, after, places).value))
  {
    if places != [] {
      var init, p := places[..|places| - 1], places[|places| - 1];
      EventsAccepted(w, same, o, u, before, after, init);
      TableAccepted(w, same, o, u, before, after, p.database, p.table);
      PartsAcceptedPlus(o, EventsOf(w, same, u, before, after, init).value,
          TableEvents(w, same, u, before, after, p.database, p.table).value);
    }
  }

  lemma {:induction false} UnwantedIsEmpty(w: World, same: Pointers, o: Options, before: Engines, after: Engines,
      places: seq<Place>)
    requires !o.Changes()
    ensures EventsOf(w, same, o, before, after, places) == Ok(NOTHING)
  {
    if places != [] {
      UnwantedIsEmpty(w, same, o, before, after, places[..|places| - 1]);
      NothingPlus(NOTHING);
    }
  }

  // What a listener receives does not depend on what the others asked for: filtering the feed of
  // the union of all options leaves exactly the feed of its own options.
  lemma ListenersAreIndependent(w: World, same: Pointers, o: Options, u: Options, before: Engines, after: Engines)
    requires Within(o, u) && Feed(w, same, u, before, after).Ok?
    ensures Feed(w, same, o, before, after) == Ok(Accepted(o, Feed(w, same, u, before, after).value))
  {
    if u.Changes() {
      var places := Visited(before, after);
      EventsAccepted(w, same, o, u, before, after, places);
      AllAccepted(o, EventsOf(w, same, u, before, after, places).value);
      if !o.Changes() { UnwantedIsEmpty(w, same, o, before, after, places); }
    }
  }

  // ---------------------------------------------------------------- the loops of `changes`

  lemma EventsOfSnoc(w: World, same: Pointers, o: Options, before: Engines, after: Engines, places: seq<Place>,
      p: Place)
    ensures EventsOf(w, same, o, before, after, places + [p])
         == Both(EventsOf(w, same, o, before, after, places),
             TableEvents(w, same, o, before, after, p.database, p.table))
  {
    assert (places + [p])[..|places|] == places;
  }

  lemma {:induction false} ErrorStays(w: World, same: Pointers, o: Options, before: Engines, after: Engines,
      a: seq<Place>, b: seq<Place>)
    requires EventsOf(w, same, o, before, after, a).Err?
    ensures EventsOf(w, same, o, before, after, a + b) == EventsOf(w, same, o, before, after, a)
  {
    if b == [] {
      assert a + b == a;
    } else {
      assert (a + b)[..|a + b| - 1] == a + b[..|b| - 1];
      ErrorStays(w, same, o, before, after, a, b[..|b| - 1]);
    }
  }

  lemma PlacesInGrow(done: seq<Place>, d: string, tables: seq<string>, j: nat)
    requires j < |tables|
    ensures done + PlacesIn(d, tables[..j + 1]) == (done + PlacesIn(d, tables[..j])) + [Place(d, tables[j])]
    ensures done + PlacesIn(d, tables) == (done + PlacesIn(d, tables[..j + 1])) + PlacesIn(d, tables[j + 1..])
  {
  }

  lemma {:induction false} SharedDatabase(
    w: World, same: Pointers, o: Options, before: Engines, after: Engines, done: seq<Place>, d: string,
        tables: seq<string>)
    requires d in before && d in after && same.engine(d)
    ensures EventsOf(w, same, o, before, after, done + PlacesIn(d, tables)) == EventsOf(w, same, o, before, after, done)
  {
    if tables == [] {
      assert done + PlacesIn(d, tables) == done;
    } else {
      var n := |tables| - 1;
      PlacesInGrow(done, d, tables, n);
      PrefixGrows(tables, n);
      EventsOfSnoc(w, same, o, before, after, done + PlacesIn(d, tables[..n]), Place(d, tables[n]));
      SharedDatabase(w, same, o, before, after, done, d, tables[..n]);
      var r := EventsOf(w, same, o, before, after, done);
      if r.Ok? { NothingPlus(r.value); }
    }
  }

  lemma TableStep(
    w: World, same: Pointers, o: Options, before: Engines, after: Engines, done: seq<Place>, d: string,
        tables: seq<string>, j: nat)
    requires j < |tables| && EventsOf(w, same, o, before, after, done + PlacesIn(d, tables[..j])).Ok?
    ensures EventsOf(w, same, o, before, after, done + PlacesIn(d, tables[..j + 1]))
         == Both(EventsOf(w, same, o, before, after, done + PlacesIn(d, tables[..j])),
             TableEvents(w, same, o, before, after, d, tables[j]))
    ensures TableEvents(w, same, o, before, after, d, tables[j]).Err?
        ==> EventsOf(w, same, o, before, after, done + PlacesIn(d, tables))
            == TableEvents(w, same, o, before, after, d, tables[j])
  {
    PlacesInGrow(done, d, tables, j);
    EventsOfSnoc(w, same, o, before, after, done + PlacesIn(d, tables[..j]), Place(d, tables[j]));
    if TableEvents(w, same, o, before, after, d, tables[j]).Err? {
      ErrorStays(w, same, o, before, after, done + PlacesIn(d, tables[..j + 1]), PlacesIn(d, tables[j + 1..]));
    }
  }

  lemma NoPlacesYet(done: seq<Place>, d: string, tables: seq<string>)
    ensures done + PlacesIn(d, tables[..0]) == done
  {
  }

  method DatabaseChanges(
    w: World, same: Pointers, o: Options, before: Engines, after: Engines, d: string, ghost done: seq<Place>,
        parts: Parts)
    returns (r: Result<Parts, string>)
    requires EventsOf(w, same, o, before, after, done) == Ok(parts)
    ensures r == EventsOf(w, same, o, before, after, done + PlacesIn(d, SortedKeys(TableNames(before, after, d))))
  {
    var tables := SortedKeys(TableNames(before, after, d));
    if d in before && d in after && same.engine(d) {
      SharedDatabase(w, same, o, before, after, done, d, tables);
      return Ok(parts);
    }
    var deletes, drops, schemas, writes := parts.deletes, parts.drops, parts.schemas, parts.writes;
    NoPlacesYet(done, d, tables);
    for j := 0 to |tables|
      invariant EventsOf(w, same, o, before, after, done + PlacesIn(d, tables[..j]))
          == Ok(Parts(deletes, drops, schemas, writes))
    {
      TableStep(w, same, o, before, after, done, d, tables, j);
      var events := TableEvents(w, same, o, before, after, d, tables[j]);
      if events.Err? {
        return Err(events.error);
      }
      deletes := deletes + events.value.deletes;
      drops := drops + events.value.drops;
      schemas := schemas + events.value.schemas;
      writes := writes + events.value.writes;
    }
    WholePrefix(tables);
    r := Ok(Parts(deletes, drops, schemas, writes));
  }

  lemma PlacesOfGrow(before: Engines, after: Engines, databases: seq<string>, n: nat)
    requires n < |databases|
    ensures PlacesOf(before, after, databases[..n + 1])
         == PlacesOf(before, after, databases[..n])
             + PlacesIn(databases[n], SortedKeys(TableNames(before, after, databases[n])))
  {
    PrefixGrows(databases, n);
  }

  lemma ErrorStaysInOneMore(w: World, same: Pointers, o: Options, before: Engines, after: Engines,
      databases: seq<string>, n: nat)
    requires n < |databases| && EventsOf(w, same, o, before, after, PlacesOf(before, after, databases[..n])).Err?
    ensures EventsOf(w, same, o, before, after, PlacesOf(before, after, databases[..n + 1]))
         == EventsOf(w, same, o, before, after, PlacesOf(before, after, databases[..n]))
  {
    PlacesOfGrow(before, after, databases, n);
    ErrorStays(w, same, o, before, after, PlacesOf(before, after, databases[..n]),
               PlacesIn(databases[n], SortedKeys(TableNames(before, after, databases[n]))));
  }

  // A table that cannot be read decides the result, whatever is visited later.
  lemma {:induction false} FirstErrorIsTheResult(
    w: World, same: Pointers, o: Options, before: Engines, after: Engines, databases: seq<string>, i: nat, n: nat)
    requires i <= n <= |databases| && EventsOf(w, same, o, before, after, PlacesOf(before, after, databases[..i])).Err?
    ensures EventsOf(w, same, o, before, after, PlacesOf(before, after, databases[..n]))
         == EventsOf(w, same, o, before, after, PlacesOf(before, after, databases[..i]))
  {
    if i < n {
      FirstErrorIsTheResult(w, same, o, before, after, databases, i, n - 1);
      ErrorStaysInOneMore(w, same, o, before, after, databases, n - 1);
    }
  }

  // The events to emit; a row that cannot be read aborts the whole feed of the commit.
  method Changes(w: World, same: Pointers, o: Options, before: Engines, after: Engines) returns (r: Result<seq<Event>,
      string>)
    ensures r == Feed(w, same, o, before, after)
  {
    if !o.Changes() { return Ok([]); }
    var databases := SortedKeys(before.Keys + after.Keys);
    var parts := NOTHING;
    for i := 0 to |databases|
      invariant EventsOf(w, same, o, before, after, PlacesOf(before, after, databases[..i])) == Ok(parts)
    {
      PlacesOfGrow(before, after, databases, i);
      var next := DatabaseChanges(w, same, o, before, after, databases[i], PlacesOf(before, after, databases[..i]),
          parts);
      if next.Err? {
        FirstErrorIsTheResult(w, same, o, before, after, databases, i + 1, |databases|);
        WholePrefix(databases);
        return Err(next.error);
      }
      parts := next.value;
    }
    WholePrefix(databases);
    r := Ok(parts.deletes + parts.drops + parts.schemas + parts.writes);
  }
}
