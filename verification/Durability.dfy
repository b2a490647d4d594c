/** Reloading what was committed (`load_state`), and the durability of every run of commits. */
module Durability {
  import opened Wrappers
  import opened Ordering
  import opened TableKeys
  import opened RocksStore
  import opened Batches
  import opened RocksBackend
  import opened Delta
  import opened Paging

  const STORAGE_PAGE_SIZE: nat := 512

  datatype LoadError = UnsupportedVersion(version: nat) | CursorNotAdvancing

  // ---------------------------------------------------------------- what a reload returns

  function RowsIn(c: Contents, d: string, t: string): map<string, StoredRow> {
    map n | n in c.rows && n.0 == d && n.1 == t :: n.2 := c.rows[n]
  }

  // The rows of the pages up to where the paging stops.
  function PagedRows(rows: map<string, StoredRow>, limit: nat): map<string, StoredRow>
    requires limit >= 1
  {
    var fields := SortedKeys(rows.Keys);
    Only(rows, fields[..PagesEnd(fields, 0, limit)])
  }

  lemma PagedRowsComplete(rows: map<string, StoredRow>, limit: nat)
    requires limit >= 1
    ensures PagedRows(rows, limit) == rows <==> !SentinelClosesPage(rows.Keys, limit)
  {
    var fields := SortedKeys(rows.Keys);
    var end := PagesEnd(fields, 0, limit);
    PagesAreComplete(rows.Keys, limit);
    if end == |fields| {
      assert fields[..end] == fields;
    } else {
      SortedKeysSorted(rows.Keys);
      assert fields[end] in fields;
      SameElement(fields, fields[end], end);
      assert fields[end] !in PagedRows(rows, limit);
    }
  }

  function SchemasIn(c: Contents, d: string): map<string, TableSchemaHint> {
    map n | n in c.tables && n.0 == d :: n.1 := c.tables[n].schema
  }

  function AutoIncIn(c: Contents, d: string): map<string, int> {
    map n | n in c.tables && n.0 == d && c.tables[n].autoIncrement.Some? :: n.1 := c.tables[n].autoIncrement.value
  }

  function ReloadedRows(c: Contents, d: string): map<string, map<string, StoredRow>> {
    map n | n in c.tables && n.0 == d :: n.1 := PagedRows(RowsIn(c, d, n.1), STORAGE_PAGE_SIZE)
  }

  function ReloadedDatabase(c: Contents, d: string, metadata: DatabaseMetadata, now: string): Snapshot {
    Snapshot(1, now, SchemasIn(c, d), ReloadedRows(c, d), AutoIncIn(c, d), metadata.views, metadata.indexComments)
  }

  // The state load_state builds from stored contents; `clock` gives each database its fresh
  // creation time.
  function Reload(c: Contents, clock: string -> string): Result<Option<EngineState>, LoadError> {
    match c.catalog
    case None => Ok(None)
    case Some(catalog) =>
      if catalog.version != 1 then Err(UnsupportedVersion(catalog.version))
      else Ok(Some(EngineState(1, catalog.metadata, ReloadedDatabases(c, catalog, clock))))
  }

  function ReloadedDatabases(c: Contents, catalog: StorageCatalog, clock: string -> string): map<string, Snapshot> {
    map d | d in catalog.databases :: ReloadedDatabase(c, d, catalog.databases[d], clock(d))
  }

  // ---------------------------------------------------------------- the stored namespaces

  lemma RowField(db: Db, c: Contents, d: string, t: string, k: string)
    requires Represents(db, c)
    ensures Get(db, FieldKey(RowsKey(d, t), k)) == At(c, RowPlace(d, t, k))
    ensures k in Fields(db, RowsKey(d, t)) <==> k in RowsIn(c, d, t)
    ensures k in RowsIn(c, d, t) ==> At(c, RowPlace(d, t, k)) == Some(RowText(RowsIn(c, d, t)[k]))
  {
    assert PlaceKey(RowPlace(d, t, k)) == FieldKey(RowsKey(d, t), k);
    FieldsAreKeys(db, RowsKey(d, t), k);
    RowIn(c, d, t, k);
  }

  lemma RowIn(c: Contents, d: string, t: string, k: string)
    ensures Get(RowsIn(c, d, t), k) == Get(c.rows, (d, t, k))
  {
    assert (d, t, k).2 == k;
  }

  lemma RowFields(db: Db, c: Contents, d: string, t: string)
    requires Represents(db, c)
    ensures Fields(db, RowsKey(d, t)) == RowsIn(c, d, t).Keys
    ensures forall k ::
      k in RowsIn(c, d, t) ==> Get(db, FieldKey(RowsKey(d, t), k)) == Some(RowText(RowsIn(c, d, t)[k]))
  {
    forall k ensures k in Fields(db, RowsKey(d, t)) <==> k in RowsIn(c, d, t)
             ensures k in RowsIn(c, d, t) ==> Get(db, FieldKey(RowsKey(d, t), k)) == Some(RowText(RowsIn(c, d, t)[k]))
    {
      RowField(db, c, d, t, k);
    }
  }

  // ---------------------------------------------------------------- load_state

  method LoadCatalog(store: RocksDbStore<Text>, ghost c: Contents) returns (catalog: Option<StorageCatalog>)
    requires Represents(store.db, c)
    ensures catalog == c.catalog
  {
    var hash := store.HGetAll(CATALOG_KEY);
    FieldsAreKeys(store.db, CATALOG_KEY, CATALOG_FIELD);
    assert PlaceKey(CatalogPlace) == FieldKey(CATALOG_KEY, CATALOG_FIELD);
    assert Get(store.db, PlaceKey(CatalogPlace)) == At(c, CatalogPlace);
    catalog := if CATALOG_FIELD in hash then Some(hash[CATALOG_FIELD].catalog) else None;
  }

  function NamedTables(fields: seq<string>, d: string): seq<string> {
    if fields == [] then [] else
      var name := DecodeTableKey(fields[|fields| - 1]);
      NamedTables(fields[..|fields| - 1], d) + (if name.Some? && name.value.0 == d then [name.value.1] else [])
  }

  lemma {:induction false} NamedTablesAre(fields: seq<string>, d: string, t: string)
    ensures t in NamedTables(fields, d) <==> exists f :: f in fields && DecodeTableKey(f) == Some((d, t))
  {
    if fields != [] {
      var init, last := fields[..|fields| - 1], fields[|fields| - 1];
      assert forall f :: f in fields <==> f in init || f == last;
      NamedTablesAre(init, d, t);
    }
  }

  method DecodeTables(fields: seq<string>, d: string) returns (tables: seq<string>)
    ensures tables == NamedTables(fields, d)
  {
    tables := [];
    for i := 0 to |fields|
      invariant tables == NamedTables(fields[..i], d)
    {
      PrefixGrows(fields, i);
      var name := DecodeTableKey(fields[i]);
      if name.Some? && name.value.0 == d {
        tables := tables + [name.value.1];
      }
    }
    assert fields[..|fields|] == fields;
  }

  method ListTables(store: RocksDbStore<Text>, d: string, ghost c: Contents) returns (tables: seq<string>)
    requires Represents(store.db, c)
    ensures forall t :: t in tables <==> (d, t) in c.tables
  {
    var hash := store.HGetAll(TABLES_KEY);
    tables := DecodeTables(SortedKeys(hash.Keys), d);
    forall t ensures t in tables <==> (d, t) in c.tables {
      NamedTablesAre(SortedKeys(hash.Keys), d, t);
      ListedTable(store.db, c, SortedKeys(hash.Keys), d, t);
    }
  }

  lemma ListedTable(db: Db, c: Contents, fields: seq<string>, d: string, t: string)
    requires Represents(db, c) && forall f :: f in fields <==> f in Fields(db, TABLES_KEY)
    ensures (exists f :: f in fields && DecodeTableKey(f) == Some((d, t))) <==> (d, t) in c.tables
  {
    if f :| f in fields && DecodeTableKey(f) == Some((d, t)) {
      ListedFields(db, c, f);
      var n :| n in c.tables && f == EncodeTableKey(n.0, n.1);
      DecodeEncode(n.0, n.1);
    }
    if (d, t) in c.tables {
      ListedFields(db, c, EncodeTableKey(d, t));
      DecodeEncode(d, t);
    }
  }

  method LoadTable(store: RocksDbStore<Text>, d: string, t: string,
      ghost c: Contents) returns (table: Option<TableState>)
    requires Represents(store.db, c)
    ensures table == Get(c.tables, (d, t))
  {
    var field := EncodeTableKey(d, t);
    var hash := store.HGetAll(TABLES_KEY);
    FieldsAreKeys(store.db, TABLES_KEY, field);
    assert PlaceKey(TablePlace(d, t)) == FieldKey(TABLES_KEY, field);
    assert Get(store.db, PlaceKey(TablePlace(d, t))) == At(c, TablePlace(d, t));
    table := if field in hash then Some(hash[field].state) else None;
  }

  // The decoded rows of a page.
  method DecodeRows(ghost db: Db, ghost c: Contents, ghost d: string, ghost t: string, rows: seq<(string, Text)>,
      ghost keys: seq<string>)
    returns (page: map<string, StoredRow>)
    requires Represents(db, c) && Reads(HashAt(db, RowsKey(d, t)), rows, keys)
    ensures page == Only(RowsIn(c, d, t), keys)
  {
    RowFields(db, c, d, t);
    page := map[];
    for i := 0 to |rows|
      invariant page == Only(RowsIn(c, d, t), keys[..i])
    {
      PrefixGrows(keys, i);
      assert Get(db, FieldKey(RowsKey(d, t), keys[i])) == Some(RowText(RowsIn(c, d, t)[keys[i]]));
      OnlyGrows(RowsIn(c, d, t), keys[..i], keys[i]);
      page := page[rows[i].0 := rows[i].1.row];
    }
    assert keys[..|rows|] == keys;
  }

  method ScanRows(store: RocksDbStore<Text>, d: string, t: string, cursor: Option<string>, limit: nat,
      ghost c: Contents)
    returns (page: map<string, StoredRow>, next: Option<string>)
    requires Represents(store.db, c)
    ensures var fields := FieldsAfter(store.db, RowsKey(d, t), cursor);
            && page == Only(RowsIn(c, d, t), Take(fields, AtLeastOne(limit)))
            && next == if NextCursor(fields, limit) == END_SENTINEL then None else Some(NextCursor(fields, limit))
  {
    var token, rows := store.HScan(RowsKey(d, t), cursor, limit);
    page := DecodeRows(store.db, c, d, t, rows, Take(FieldsAfter(store.db, RowsKey(d, t), cursor), AtLeastOne(limit)));
    next := if token != END_SENTINEL then Some(token) else None;
  }

  // One page further: the rows read so far and where the loop stands.
  lemma NextPage(fields: seq<string>, from: nat, limit: nat)
    requires limit >= 1 && from <= |fields|
    ensures var rest := fields[from..];
            var to := from + Min(limit, |rest|);
            && fields[..from] + Take(rest, limit) == fields[..to]
            && (NextCursor(rest, limit) == END_SENTINEL ==> PagesEnd(fields, from, limit) == to)
            && (NextCursor(rest, limit) != END_SENTINEL ==>
                  PagesEnd(fields, from, limit) == PagesEnd(fields, to, limit)
                  && to == from + limit < |fields| && NextCursor(rest, limit) == fields[to - 1])
  {
  }

  // What scan_rows answers behind the first `from` fields.
  ghost predicate IsPage(rows: map<string, StoredRow>, fields: seq<string>, from: nat, limit: nat,
                         page: map<string, StoredRow>, next: Option<string>)
    requires limit >= 1 && from <= |fields|
  {
    && page == Only(rows, Take(fields[from..], limit))
    && next == var cursor := NextCursor(fields[from..], limit); if cursor == END_SENTINEL then None else Some(cursor)
  }

  lemma LastPage(rows: map<string, StoredRow>, fields: seq<string>, from: nat, limit: nat,
                 page: map<string, StoredRow>, next: Option<string>)
    requires limit >= 1 && from <= |fields| && IsPage(rows, fields, from, limit, page, next) && next.None?
    ensures Only(rows, fields[..from]) + page == Only(rows, fields[..PagesEnd(fields, from, limit)])
  {
    NextPage(fields, from, limit);
    OnlyAppend(rows, fields[..from], Take(fields[from..], limit));
  }

  lemma PageStep(rows: map<string, StoredRow>, fields: seq<string>, from: nat, limit: nat,
                 page: map<string, StoredRow>, next: Option<string>)
    requires limit >= 1 && from <= |fields| && StrictlySorted(fields) && IsPage(rows, fields, from, limit, page, next)
    ensures next.None? ==> Only(rows, fields[..from]) + page == Only(rows, fields[..PagesEnd(fields, from, limit)])
    ensures next.Some? ==>
      && from + limit < |fields|
      && Only(rows, fields[..from]) + page == Only(rows, fields[..from + limit])
      && PagesEnd(fields, from, limit) == PagesEnd(fields, from + limit, limit)
      && next == CursorAt(fields, from + limit) && fields[from + limit - 1] != END_SENTINEL
      && next != CursorAt(fields, from)
  {
    if next.None? {
      LastPage(rows, fields, from, limit, page, next);
    } else {
      NextPage(fields, from, limit);
      OnlyAppend(rows, fields[..from], Take(fields[from..], limit));
      if from > 0 { SameElement(fields, fields[from - 1], from - 1); }
    }
  }

  method ScanBehind(store: RocksDbStore<Text>, d: string, t: string, cursor: Option<string>, limit: nat,
                    ghost c: Contents, ghost rows: map<string, StoredRow>, ghost from: nat)
    returns (page: map<string, StoredRow>, next: Option<string>)
    requires Represents(store.db, c) && rows == RowsIn(c, d, t) && limit >= 1 && from <= |SortedKeys(rows.Keys)|
    requires cursor == CursorAt(SortedKeys(rows.Keys), from)
    requires from > 0 ==> SortedKeys(rows.Keys)[from - 1] != END_SENTINEL
    ensures IsPage(rows, SortedKeys(rows.Keys), from, limit, page, next)
  {
    RowFields(store.db, c, d, t);
    FieldsBehind(store.db, RowsKey(d, t), from);
    page, next := ScanRows(store, d, t, cursor, limit, c);
  }

  // The reload loop of one table: pages from the cursor until there is none. It never sees the
  // cursor stand still.
  method LoadRows(store: RocksDbStore<Text>, d: string, t: string, ghost c: Contents)
    returns (r: Result<map<string, StoredRow>, LoadError>)
    requires Represents(store.db, c)
    ensures r == Ok(PagedRows(RowsIn(c, d, t), STORAGE_PAGE_SIZE))
  {
    ghost var rows := RowsIn(c, d, t);
    ghost var fields := SortedKeys(rows.Keys);
    ghost var from := 0;
    SortedKeysSorted(rows.Keys);
    var tableRows: map<string, StoredRow> := map[];
    var cursor: Option<string> := None;
    while true
      invariant 0 <= from <= |fields| && cursor == CursorAt(fields, from)
      invariant from > 0 ==> fields[from - 1] != END_SENTINEL
      invariant PagesEnd(fields, from, STORAGE_PAGE_SIZE) == PagesEnd(fields, 0, STORAGE_PAGE_SIZE)
      invariant tableRows == Only(rows, fields[..from])
      decreases |fields| - from
    {
      var page, next := ScanBehind(store, d, t, cursor, STORAGE_PAGE_SIZE, c, rows, from);
      PageStep(rows, fields, from, STORAGE_PAGE_SIZE, page, next);
      tableRows := tableRows + page;
      if next.None? {
        break;
      }
      if cursor == next {
        assert false;
        return Err(CursorNotAdvancing);
      }
      from := from + STORAGE_PAGE_SIZE;
      cursor := next;
    }
    r := Ok(tableRows);
  }

  // The tables listed so far, in the three maps of a reloaded database.
  ghost predicate Loaded(c: Contents, d: string, done: seq<string>, schemas: map<string, TableSchemaHint>,
                         rows: map<string, map<string, StoredRow>>, autoInc: map<string, int>)
  {
    && schemas == Only(SchemasIn(c, d), done)
    && rows == Only(ReloadedRows(c, d), done)
    && autoInc == Only(AutoIncIn(c, d), done)
  }

  lemma TableIn(c: Contents, d: string, t: string)
    ensures Get(SchemasIn(c, d), t) == if (d, t) in c.tables then Some(c.tables[(d, t)].schema) else None
    ensures Get(AutoIncIn(c, d), t) == if (d, t) in c.tables then c.tables[(d, t)].autoIncrement else None
    ensures Get(ReloadedRows(c, d), t)
         == if (d, t) in c.tables then Some(PagedRows(RowsIn(c, d, t), STORAGE_PAGE_SIZE)) else None
  {
    assert (d, t).1 == t;
  }

  lemma LoadedStep(c: Contents, d: string, done: seq<string>, t: string, schemas: map<string, TableSchemaHint>,
                   rows: map<string, map<string, StoredRow>>, autoInc: map<string, int>)
    requires Loaded(c, d, done, schemas, rows, autoInc) && (d, t) in c.tables
    ensures var table := c.tables[(d, t)];
            Loaded(c, d, done + [t], schemas[t := table.schema],
                   rows[t := PagedRows(RowsIn(c, d, t), STORAGE_PAGE_SIZE)],
                   if table.autoIncrement.Some? then autoInc[t := table.autoIncrement.value] else autoInc)
  {
    TableIn(c, d, t);
    OnlyGrows(SchemasIn(c, d), done, t);
    OnlyGrows(ReloadedRows(c, d), done, t);
    OnlyGrows(AutoIncIn(c, d), done, t);
  }

  lemma LoadedAll(c: Contents, d: string, done: seq<string>, schemas: map<string, TableSchemaHint>,
                  rows: map<string, map<string, StoredRow>>, autoInc: map<string, int>)
    requires Loaded(c, d, done, schemas, rows, autoInc) && forall t :: t in done <==> (d, t) in c.tables
    ensures schemas == SchemasIn(c, d) && rows == ReloadedRows(c, d) && autoInc == AutoIncIn(c, d)
  {
    OnlyAll(SchemasIn(c, d), done);
    OnlyAll(ReloadedRows(c, d), done);
    OnlyAll(AutoIncIn(c, d), done);
  }

  method LoadDatabase(store: RocksDbStore<Text>, d: string, metadata: DatabaseMetadata, now: string, ghost c: Contents)
    returns (r: Result<Snapshot, LoadError>)
    requires Represents(store.db, c)
    ensures r == Ok(ReloadedDatabase(c, d, metadata, now))
  {
    var schemas: map<string, TableSchemaHint> := map[];
    var rows: map<string, map<string, StoredRow>> := map[];
    var autoInc: map<string, int> := map[];
    var tables := ListTables(store, d, c);
    for i := 0 to |tables|
      invariant Loaded(c, d, tables[..i], schemas, rows, autoInc)
    {
      var t := tables[i];
      assert t in tables;
      PrefixGrows(tables, i);
      LoadedStep(c, d, tables[..i], t, schemas, rows, autoInc);
      var table := LoadTable(store, d, t, c);
      schemas := schemas[t := table.value.schema];
      if table.value.autoIncrement.Some? {
        autoInc := autoInc[t := table.value.autoIncrement.value];
      }
      var tableRows := LoadRows(store, d, t, c);
      rows := rows[t := tableRows.value];
    }
    assert tables[..|tables|] == tables;
    LoadedAll(c, d, tables, schemas, rows, autoInc);
    r := Ok(Snapshot(1, now, schemas, rows, autoInc, metadata.views, metadata.indexComments));
  }

  method LoadDatabases(store: RocksDbStore<Text>, catalog: StorageCatalog, clock: string -> string, ghost c: Contents)
    returns (databases: map<string, Snapshot>)
    requires Represents(store.db, c)
    ensures databases == ReloadedDatabases(c, catalog, clock)
  {
    databases := map[];
    var names := SortedKeys(catalog.databases.Keys);
    ghost var all := ReloadedDatabases(c, catalog, clock);
    for i := 0 to |names|
      invariant databases == Only(all, names[..i])
    {
      var d := names[i];
      assert d in names;
      PrefixGrows(names, i);
      OnlyGrows(all, names[..i], d);
      var snapshot := LoadDatabase(store, d, catalog.databases[d], clock(d), c);
      databases := databases[d := snapshot.value];
    }
    assert names[..|names|] == names;
    OnlyAll(all, names);
  }

  // load_state over the RocksDB backend.
  method LoadState(store: RocksDbStore<Text>, clock: string -> string, ghost c: Contents)
    returns (r: Result<Option<EngineState>, LoadError>)
    requires Represents(store.db, c)
    ensures r == Reload(c, clock)
  {
    var catalog := LoadCatalog(store, c);
    if catalog.None? {
      return Ok(None);
    }
    if catalog.value.version != 1 {
      return Err(UnsupportedVersion(catalog.value.version));
    }
    var databases := LoadDatabases(store, catalog.value, clock, c);
    r := Ok(Some(EngineState(1, catalog.value.metadata, databases)));
  }

  // A load refuses the catalog of any other version, whatever else is stored, and names it; without a
  // catalog nothing was stored.
  lemma OnlyVersionOneLoads(c: Contents, clock: string -> string, version: nat)
    ensures Reload(c, clock) == Ok(None) <==> c.catalog.None?
    ensures Reload(c, clock).Err? <==> c.catalog.Some? && c.catalog.value.version != 1
    ensures Reload(c, clock) == Err(UnsupportedVersion(version)) <==>
      version != 1 && c.catalog.Some? && c.catalog.value.version == version
    ensures Reload(c, clock) != Err(CursorNotAdvancing)
  {
  }

  // ---------------------------------------------------------------- a reload restores the state

  // The state up to what is not stored: fresh creation times, a row map for every schema, and
  // no counters of unknown tables.
  function Restored(state: EngineState, clock: string -> string): EngineState {
    EngineState(1, state.metadata, map d | d in state.databases :: RestoredDatabase(state.databases[d], clock(d)))
  }

  function RestoredDatabase(s: Snapshot, now: string): Snapshot {
    Snapshot(1, now, s.schemas,
      map t | t in s.schemas :: if t in s.rows then s.rows[t] else map[],
      map t | t in s.schemas && t in s.autoInc :: s.autoInc[t],
      s.views, s.indexComments)
  }

  // Some stored table has the row "0" at the end of a full page, with more rows behind it.
  predicate Truncates(state: EngineState) {
    exists d, t :: d in state.databases && t in state.databases[d].rows
                   && SentinelClosesPage(state.databases[d].rows[t].Keys, STORAGE_PAGE_SIZE)
  }

  lemma RowsOfState(c: Contents, state: EngineState, d: string, t: string)
    requires Persists(c, state)
    ensures RowsIn(c, d, t)
         == if d in state.databases && t in state.databases[d].rows then state.databases[d].rows[t] else map[]
  {
    forall k ensures Get(RowsIn(c, d, t), k) == RowOf(state, d, t, k) {
      assert At(c, RowPlace(d, t, k)) == PersistedAt(state, RowPlace(d, t, k));
      assert (d, t, k) in c.rows ==> (d, t, k).2 == k;
    }
    SameMap(RowsIn(c, d, t), if d in state.databases && t in state.databases[d].rows then state.databases[d].rows[t]
        else map[]);
  }

  lemma TablesOfState(c: Contents, state: EngineState, d: string)
    requires Persists(c, state) && d in state.databases
    ensures SchemasIn(c, d) == state.databases[d].schemas
    ensures AutoIncIn(c, d) == RestoredDatabase(state.databases[d], "").autoInc
  {
    var s := state.databases[d];
    forall t ensures Get(c.tables, (d, t)) == TableOf(state, d, t) {
      assert At(c, TablePlace(d, t)) == PersistedAt(state, TablePlace(d, t));
    }
    forall t ensures Get(SchemasIn(c, d), t) == Get(s.schemas, t)
             ensures Get(AutoIncIn(c, d), t) == if t in s.schemas then Get(s.autoInc, t) else None {
      assert (d, t).1 == t;
    }
    SameMap(SchemasIn(c, d), s.schemas);
    SameMap(AutoIncIn(c, d), RestoredDatabase(s, "").autoInc);
  }

  predicate Readable(s: Snapshot) {
    forall t :: t in s.rows ==> !SentinelClosesPage(s.rows[t].Keys, STORAGE_PAGE_SIZE)
  }

  lemma NoRowsNoSentinel()
    ensures !SentinelClosesPage({}, STORAGE_PAGE_SIZE)
  {
  }

  // Two maps with the same keys are equal exactly when no key tells them apart.
  lemma SameKeys<K, V>(a: map<K, V>, b: map<K, V>)
    requires a.Keys == b.Keys
    ensures a == b <==> forall k :: k in a ==> a[k] == b[k]
  {
  }

  lemma RowsRestored(c: Contents, state: EngineState, d: string, now: string)
    requires Persists(c, state) && WellFormed(state) && d in state.databases
    ensures ReloadedRows(c, d) == RestoredDatabase(state.databases[d], now).rows <==> Readable(state.databases[d])
  {
    var s := state.databases[d];
    var reloaded := ReloadedRows(c, d);
    var restored := RestoredDatabase(s, now).rows;
    TablesOfState(c, state, d);
    forall t ensures t in reloaded <==> t in restored
             ensures t in restored ==>
               (reloaded[t] == restored[t] <==> !SentinelClosesPage(restored[t].Keys, STORAGE_PAGE_SIZE))
    {
      TableIn(c, d, t);
      if t in restored {
        RowsOfState(c, state, d, t);
        PagedRowsComplete(restored[t], STORAGE_PAGE_SIZE);
      }
    }
    assert reloaded.Keys == restored.Keys;
    SameKeys(reloaded, restored);
    NoRowsNoSentinel();
    assert forall t :: t in s.rows ==> t in restored && restored[t] == s.rows[t];
    assert forall t :: t in restored && t !in s.rows ==> restored[t].Keys == {};
  }

  lemma DatabaseRestored(c: Contents, state: EngineState, d: string, now: string)
    requires Persists(c, state) && WellFormed(state) && d in state.databases
    ensures ReloadedDatabase(c, d, StorageCatalogOf(state).databases[d], now)
         == RestoredDatabase(state.databases[d], now)
       <==> Readable(state.databases[d])
  {
    TablesOfState(c, state, d);
    RowsRestored(c, state, d, now);
  }

  // Reloading what a state persisted gives the state back, exactly when no table is truncated.
  lemma ReloadRestores(c: Contents, state: EngineState, clock: string -> string)
    requires Persists(c, state) && WellFormed(state)
    ensures Reload(c, clock) == Ok(Some(Restored(state, clock))) <==> !Truncates(state)
  {
    assert At(c, CatalogPlace) == PersistedAt(state, CatalogPlace);
    var reloaded := ReloadedDatabases(c, StorageCatalogOf(state), clock);
    var restored := Restored(state, clock).databases;
    forall d | d in restored ensures reloaded[d] == restored[d] <==> Readable(state.databases[d]) {
      DatabaseRestored(c, state, d, clock(d));
    }
    assert reloaded.Keys == restored.Keys;
    SameKeys(reloaded, restored);
    assert !Truncates(state) <==> forall d :: d in state.databases ==> Readable(state.databases[d]);
  }

  // ---------------------------------------------------------------- every run of commits

  // States s0, s1, ..., and the diff handed over between each state and the next.
  ghost predicate IsRun(states: seq<EngineState>, diffs: seq<StorageBatch>) {
    && |states| == |diffs| + 1
    && (forall i :: 0 <= i < |states| ==> WellFormed(states[i]))
    && (forall i :: 0 <= i < |diffs| ==> IsDiff(states[i], states[i + 1], diffs[i]))
    && (forall p :: p != CatalogPlace ==> PersistedAt(states[0], p) == None)
  }

  // The store after the first n commits on an empty store.
  function StoreAfter(states: seq<EngineState>, diffs: seq<StorageBatch>, n: nat): Db
    requires |states| == |diffs| + 1 && n <= |diffs|
  {
    if n == 0 then map[] else
      var db := StoreAfter(states, diffs, n - 1);
      ApplyWrites(db, BatchWrites(db, CommitBatch(diffs[n - 1], states[n])))
  }

  function ContentsAfter(states: seq<EngineState>, diffs: seq<StorageBatch>, n: nat): Contents
    requires |states| == |diffs| + 1 && n <= |diffs|
  {
    if n == 0 then Contents(None, map[], map[])
    else ApplyBatch(ContentsAfter(states, diffs, n - 1), CommitBatch(diffs[n - 1], states[n]))
  }

  lemma PatchOrder(before: EngineState, after: EngineState, batch: StorageBatch)
    requires Patches(before, after, batch)
    ensures DeletesBeforePuts(batch.metadata)
  {
    forall i, j | 0 <= i < j < |batch.metadata| && batch.metadata[i].PutTable? && batch.metadata[j].DeleteDatabase?
      ensures batch.metadata[i].database != batch.metadata[j].database
    {
      assert batch.metadata[i] in batch.metadata && batch.metadata[j] in batch.metadata;
    }
  }

  lemma PersistedRowsHaveTables(c: Contents, state: EngineState)
    requires PersistsItems(c, state) && WellFormed(state)
    ensures RowsHaveTables(c)
  {
    forall n | n in c.rows ensures (n.0, n.1) in c.tables {
      assert At(c, RowPlace(n.0, n.1, n.2)) == PersistedAt(state, RowPlace(n.0, n.1, n.2));
      assert At(c, TablePlace(n.0, n.1)) == PersistedAt(state, TablePlace(n.0, n.1));
    }
  }

  // One commit keeps the store, its contents and the engine state together.
  lemma CommitStep(db: Db, c: Contents, before: EngineState, after: EngineState, diff: StorageBatch)
    requires Represents(db, c) && PersistsItems(c, before)
    requires WellFormed(before) && WellFormed(after) && IsDiff(before, after, diff)
    ensures var batch := CommitBatch(diff, after);
            && Represents(ApplyWrites(db, BatchWrites(db, batch)), ApplyBatch(c, batch))
            && Persists(ApplyBatch(c, batch), after)
  {
    var batch := CommitBatch(diff, after);
    CommitBatchPatches(before, after, diff);
    PatchOrder(before, after, batch);
    PersistedRowsHaveTables(c, before);
    OrderedBatchRefines(db, c, batch);
    PatchRestores(c, before, after, batch);
    WellFormedLosesNothing(before, after);
  }

  lemma {:induction false} RunKeepsContents(states: seq<EngineState>, diffs: seq<StorageBatch>, n: nat)
    requires IsRun(states, diffs) && n <= |diffs|
    ensures Represents(StoreAfter(states, diffs, n), ContentsAfter(states, diffs, n))
    ensures PersistsItems(ContentsAfter(states, diffs, n), states[n])
    ensures n > 0 ==> Persists(ContentsAfter(states, diffs, n), states[n])
  {
    if n > 0 {
      RunKeepsContents(states, diffs, n - 1);
      assert IsDiff(states[n - 1], states[n - 1 + 1], diffs[n - 1]);
      CommitStep(StoreAfter(states, diffs, n - 1), ContentsAfter(states, diffs, n - 1), states[n - 1], states[n],
          diffs[n - 1]);
    }
  }

  // Durability: after any number of commits of any run, a reload returns the last committed
  // state, exactly when that state does not put the row "0" on a page boundary.
  lemma RunIsDurable(states: seq<EngineState>, diffs: seq<StorageBatch>, n: nat, clock: string -> string)
    requires IsRun(states, diffs) && 0 < n <= |diffs|
    ensures var c := ContentsAfter(states, diffs, n);
            && Represents(StoreAfter(states, diffs, n), c)
            && (Reload(c, clock) == Ok(Some(Restored(states[n], clock))) <==> !Truncates(states[n]))
  {
    RunKeepsContents(states, diffs, n);
    ReloadRestores(ContentsAfter(states, diffs, n), states[n], clock);
  }

  // A store determines what it holds, so a reload does not depend on how it was reached.
  lemma ContentsAreDetermined(db: Db, a: Contents, b: Contents)
    requires Represents(db, a) && Represents(db, b)
    ensures a == b
  {
    forall p ensures At(a, p) == At(b, p) { assert Get(db, PlaceKey(p)) == At(a, p) == At(b, p); }
    ContentsByPlace(a, b);
  }
}
