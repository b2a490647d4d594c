/** The diff between two engine states (`storage_batch`) and why committing it is enough. */
module Delta {
  import opened Wrappers
  import opened Ordering
  import opened Batches

  datatype Snapshot = Snapshot(
    version: nat,
    createdAt: string,
    schemas: map<string, TableSchemaHint>,
    rows: map<string, map<string, StoredRow>>,
    autoInc: map<string, int>,
    views: map<string, string>,
    indexComments: map<string, string>)

  datatype EngineState = EngineState(version: nat, metadata: Json, databases: map<string, Snapshot>)

  // storage_catalog: what is shared by the tables of every database.
  function StorageCatalogOf(state: EngineState): StorageCatalog {
    StorageCatalog(1, state.metadata,
      map d | d in state.databases :: DatabaseMetadata(state.databases[d].views, state.databases[d].indexComments))
  }

  function TableOf(state: EngineState, d: string, t: string): Option<TableState> {
    if d in state.databases && t in state.databases[d].schemas
    then Some(TableState(state.databases[d].schemas[t], Get(state.databases[d].autoInc, t)))
    else None
  }

  function RowOf(state: EngineState, d: string, t: string, k: string): Option<StoredRow> {
    if d in state.databases && t in state.databases[d].rows then Get(state.databases[d].rows[t], k) else None
  }

  // The persistent part of a state, item by item.
  function PersistedAt(state: EngineState, p: Place): Option<Text> {
    match p
    case CatalogPlace => Some(CatalogText(StorageCatalogOf(state)))
    case TablePlace(d, t) => (match TableOf(state, d, t) case Some(table) => Some(TableText(table)) case None => None)
    case RowPlace(d, t, k) => (match RowOf(state, d, t, k) case Some(row) => Some(RowText(row)) case None => None)
  }

  ghost predicate Persists(c: Contents, state: EngineState) {
    forall p :: At(c, p) == PersistedAt(state, p)
  }

  // Every table with rows has a schema; the engine keeps rows only for the tables it knows.
  predicate WellFormed(state: EngineState) {
    forall d :: d in state.databases ==> state.databases[d].rows.Keys <= state.databases[d].schemas.Keys
  }

  // ---------------------------------------------------------------- which mutations a diff holds

  predicate DropNeeded(before: EngineState, after: EngineState, m: MetadataMutation) {
    && !m.PutCatalog?
    && m.database in before.databases && m.database !in after.databases
    && (m.DeleteDatabase? || (m.DeleteTable? && m.table in before.databases[m.database].schemas))
  }

  predicate Mentions(state: EngineState, d: string, t: string) {
    d in state.databases && (t in state.databases[d].schemas || t in state.databases[d].rows)
  }

  predicate ChangeNeeded(before: EngineState, after: EngineState, m: MetadataMutation) {
    && !m.PutCatalog? && m.database in after.databases
    && match m
       case DeleteTable(d, t) => (Mentions(before, d, t) || Mentions(after, d, t)) && TableOf(after, d, t).None?
       case PutTable(d, t, table) =>
         && TableOf(after, d, t) == Some(table)
         && (OldSchema(before, d, t) != Some(table.schema) || OldAuto(before, d, t) != table.autoIncrement)
       case _ => false
  }

  function OldSchema(before: EngineState, d: string, t: string): Option<TableSchemaHint> {
    if d in before.databases then Get(before.databases[d].schemas, t) else None
  }

  function OldAuto(before: EngineState, d: string, t: string): Option<int> {
    if d in before.databases then Get(before.databases[d].autoInc, t) else None
  }

  predicate MetadataNeeded(before: EngineState, after: EngineState, m: MetadataMutation) {
    || (m == PutCatalog(StorageCatalogOf(after)) && StorageCatalogOf(before) != StorageCatalogOf(after))
    || DropNeeded(before, after, m)
    || ChangeNeeded(before, after, m)
  }

  predicate RowNeeded(before: EngineState, after: EngineState, m: RowMutation) {
    && m.database in after.databases
    && match m
       case Put(d, t, k, row) => RowOf(after, d, t, k) == Some(row) && RowOf(before, d, t, k) != Some(row)
       case Delete(d, t, k) => RowOf(before, d, t, k).Some? && RowOf(after, d, t, k).None?
  }

  // Exactly the needed mutations.
  ghost predicate IsDiff(before: EngineState, after: EngineState, batch: StorageBatch) {
    && (forall m :: m in batch.metadata <==> MetadataNeeded(before, after, m))
    && (forall m :: m in batch.rows <==> RowNeeded(before, after, m))
  }

  // ---------------------------------------------------------------- the two lists of a diff

  function DeleteTables(d: string, tables: seq<string>): seq<MetadataMutation> {
    seq(|tables|, i requires 0 <= i < |tables| => DeleteTable(d, tables[i]))
  }

  // A dropped database, then its tables by name.
  function DroppedDatabase(before: EngineState, after: EngineState, d: string): seq<MetadataMutation>
    requires d in before.databases
  {
    if d in after.databases then []
    else [DeleteDatabase(d)] + DeleteTables(d, SortedKeys(before.databases[d].schemas.Keys))
  }

  function Dropped(before: EngineState, after: EngineState, names: seq<string>): seq<MetadataMutation>
    requires forall d :: d in names ==> d in before.databases
  {
    if names == [] then []
    else Dropped(before, after, names[..|names| - 1]) + DroppedDatabase(before, after, names[|names| - 1])
  }

  function TableChange(before: EngineState, after: EngineState, d: string, t: string): seq<MetadataMutation> {
    match TableOf(after, d, t)
    case None => [DeleteTable(d, t)]
    case Some(table) =>
      if OldSchema(before, d, t) != Some(table.schema) || OldAuto(before, d, t) != table.autoIncrement
      then [PutTable(d, t, table)]
      else []
  }

  function Deletions(after: EngineState, d: string, t: string, keys: seq<string>): seq<RowMutation> {
    if keys == [] then [] else
      var k := keys[|keys| - 1];
      Deletions(after, d, t, keys[..|keys| - 1]) + (if RowOf(after, d, t, k).None? then [Delete(d, t, k)] else [])
  }

  function Writings(before: EngineState, after: EngineState, d: string, t: string, keys: seq<string>): seq<RowMutation>
    requires forall k :: k in keys ==> RowOf(after, d, t, k).Some?
  {
    if keys == [] then [] else
      var k := keys[|keys| - 1];
      var row := RowOf(after, d, t, k);
      Writings(before, after, d, t, keys[..|keys| - 1])
      + (if RowOf(before, d, t, k) != row then [Put(d, t, k, row.value)] else [])
  }

  function RowKeys(state: EngineState, d: string, t: string): (r: seq<string>)
    ensures forall k :: k in r <==> RowOf(state, d, t, k).Some?
  {
    if d in state.databases && t in state.databases[d].rows then SortedKeys(state.databases[d].rows[t].Keys) else []
  }

  // The rows of one table: what is gone, then what is new, each by key.
  function RowChanges(before: EngineState, after: EngineState, d: string, t: string): seq<RowMutation> {
    Deletions(after, d, t, RowKeys(before, d, t)) + Writings(before, after, d, t, RowKeys(after, d, t))
  }

  function MetadataOfTables(before: EngineState, after: EngineState, d: string,
      tables: seq<string>): seq<MetadataMutation>
  {
    if tables == [] then [] else
      var t := tables[|tables| - 1];
      MetadataOfTables(before, after, d, tables[..|tables| - 1]) + TableChange(before, after, d, t)
  }

  function RowsOfTables(before: EngineState, after: EngineState, d: string, tables: seq<string>): seq<RowMutation> {
    if tables == [] then []
    else RowsOfTables(before, after, d, tables[..|tables| - 1]) + RowChanges(before, after, d, tables[|tables| - 1])
  }

  // The tables of one database, from either side and from either map, by name.
  function TablesOf(before: EngineState, after: EngineState, d: string): (r: seq<string>)
    ensures forall t :: t in r <==> Mentions(before, d, t) || Mentions(after, d, t)
  {
    SortedKeys((if d in before.databases then before.databases[d].schemas.Keys + before.databases[d].rows.Keys else {})
      + (if d in after.databases then after.databases[d].schemas.Keys + after.databases[d].rows.Keys else {}))
  }

  function MetadataOfDatabases(before: EngineState, after: EngineState, names: seq<string>): seq<MetadataMutation> {
    if names == [] then [] else
      var d := names[|names| - 1];
      MetadataOfDatabases(before, after, names[..|names| - 1])
          + MetadataOfTables(before, after, d, TablesOf(before, after, d))
  }

  function RowsOfDatabases(before: EngineState, after: EngineState, names: seq<string>): seq<RowMutation> {
    if names == [] then [] else
      var d := names[|names| - 1];
      RowsOfDatabases(before, after, names[..|names| - 1]) + RowsOfTables(before, after, d, TablesOf(before, after, d))
  }

  function CatalogChange(before: EngineState, after: EngineState): seq<MetadataMutation> {
    if StorageCatalogOf(before) != StorageCatalogOf(after) then [PutCatalog(StorageCatalogOf(after))] else []
  }

  // The batch, in its order: the catalog, the dropped databases, then database by database and
  // table by table.
  function Diff(before: EngineState, after: EngineState): StorageBatch {
    StorageBatch(
      CatalogChange(before, after) + Dropped(before, after, SortedKeys(before.databases.Keys))
        + MetadataOfDatabases(before, after, SortedKeys(after.databases.Keys)),
      RowsOfDatabases(before, after, SortedKeys(after.databases.Keys)))
  }

  // ---------------------------------------------------------------- exactly the needed mutations

  lemma DroppedDatabaseHas(before: EngineState, after: EngineState, d: string, m: MetadataMutation)
    requires d in before.databases
    ensures m in DroppedDatabase(before, after, d) <==> DropNeeded(before, after, m) && m.database == d
  {
    if d !in after.databases {
      var tables := SortedKeys(before.databases[d].schemas.Keys);
      if m.DeleteTable? && m.database == d && m.table in tables {
        var i :| 0 <= i < |tables| && tables[i] == m.table;
        assert DeleteTables(d, tables)[i] == m;
      }
    }
  }

  lemma {:induction false} DroppedHas(before: EngineState, after: EngineState, names: seq<string>, m: MetadataMutation)
    requires forall d :: d in names ==> d in before.databases
    ensures m in Dropped(before, after, names) <==> DropNeeded(before, after, m) && m.database in names
  {
    if names != [] {
      DroppedHas(before, after, names[..|names| - 1], m);
      DroppedDatabaseHas(before, after, names[|names| - 1], m);
      InitAndLast(names);
    }
  }

  lemma TableChangeHas(before: EngineState, after: EngineState, d: string, t: string, m: MetadataMutation)
    requires d in after.databases && (Mentions(before, d, t) || Mentions(after, d, t))
    ensures m in TableChange(before, after, d, t)
       <==> ChangeNeeded(before, after, m) && m.database == d && m.table == t
  {
  }

  lemma {:induction false} MetadataOfTablesHas(
    before: EngineState, after: EngineState, d: string, tables: seq<string>, m: MetadataMutation)
    requires d in after.databases && forall t :: t in tables ==> Mentions(before, d, t) || Mentions(after, d, t)
    ensures m in MetadataOfTables(before, after, d, tables)
       <==> ChangeNeeded(before, after, m) && m.database == d && m.table in tables
  {
    if tables != [] {
      MetadataOfTablesHas(before, after, d, tables[..|tables| - 1], m);
      TableChangeHas(before, after, d, tables[|tables| - 1], m);
      InitAndLast(tables);
    }
  }

  lemma {:induction false} MetadataOfDatabasesHas(
    before: EngineState, after: EngineState, names: seq<string>, m: MetadataMutation)
    requires forall d :: d in names ==> d in after.databases
    ensures m in MetadataOfDatabases(before, after, names) <==> ChangeNeeded(before, after, m) && m.database in names
  {
    if names != [] {
      var d := names[|names| - 1];
      MetadataOfDatabasesHas(before, after, names[..|names| - 1], m);
      MetadataOfTablesHas(before, after, d, TablesOf(before, after, d), m);
      InitAndLast(names);
    }
  }

  lemma {:induction false} DeletionsHas(after: EngineState, d: string, t: string, keys: seq<string>, m: RowMutation)
    ensures m in Deletions(after, d, t, keys)
       <==> m.Delete? && m.database == d && m.table == t && m.key in keys && RowOf(after, d, t, m.key).None?
  {
    if keys != [] {
      DeletionsHas(after, d, t, keys[..|keys| - 1], m);
      InitAndLast(keys);
    }
  }

  lemma {:induction false} WritingsHas(
    before: EngineState, after: EngineState, d: string, t: string, keys: seq<string>, m: RowMutation)
    requires forall k :: k in keys ==> RowOf(after, d, t, k).Some?
    ensures m in Writings(before, after, d, t, keys)
       <==> m.Put? && m.database == d && m.table == t && m.key in keys
            && RowOf(after, d, t, m.key) == Some(m.row) && RowOf(before, d, t, m.key) != Some(m.row)
  {
    if keys != [] {
      WritingsHas(before, after, d, t, keys[..|keys| - 1], m);
      InitAndLast(keys);
    }
  }

  predicate RowOfTable(before: EngineState, after: EngineState, d: string, t: string, m: RowMutation) {
    RowNeeded(before, after, m) && m.database == d && m.table == t
  }

  lemma RowChangesHas(before: EngineState, after: EngineState, d: string, t: string, m: RowMutation)
    requires d in after.databases
    ensures m in RowChanges(before, after, d, t) <==> RowOfTable(before, after, d, t, m)
  {
    DeletionsHas(after, d, t, RowKeys(before, d, t), m);
    WritingsHas(before, after, d, t, RowKeys(after, d, t), m);
  }

  lemma {:induction false} RowsOfTablesHas(
    before: EngineState, after: EngineState, d: string, tables: seq<string>, m: RowMutation)
    requires d in after.databases
    ensures m in RowsOfTables(before, after, d, tables)
       <==> RowNeeded(before, after, m) && m.database == d && m.table in tables
  {
    if tables != [] {
      RowsOfTablesHas(before, after, d, tables[..|tables| - 1], m);
      RowChangesHas(before, after, d, tables[|tables| - 1], m);
      InitAndLast(tables);
    }
  }

  lemma {:induction false} RowsOfDatabasesHas(before: EngineState, after: EngineState, names: seq<string>,
      m: RowMutation)
    requires forall d :: d in names ==> d in after.databases
    ensures m in RowsOfDatabases(before, after, names) <==> RowNeeded(before, after, m) && m.database in names
  {
    if names != [] {
      var d := names[|names| - 1];
      RowsOfDatabasesHas(before, after, names[..|names| - 1], m);
      RowsOfTablesHas(before, after, d, TablesOf(before, after, d), m);
      InitAndLast(names);
    }
  }

  // However the nested loops order them, the lists hold the needed mutations and no others.
  lemma DiffIsExact(before: EngineState, after: EngineState)
    ensures IsDiff(before, after, Diff(before, after))
  {
    forall m ensures m in Diff(before, after).metadata <==> MetadataNeeded(before, after, m) {
      DroppedHas(before, after, SortedKeys(before.databases.Keys), m);
      MetadataOfDatabasesHas(before, after, SortedKeys(after.databases.Keys), m);
    }
    forall m ensures m in Diff(before, after).rows <==> RowNeeded(before, after, m) {
      RowsOfDatabasesHas(before, after, SortedKeys(after.databases.Keys), m);
    }
  }

  // ---------------------------------------------------------------- storage_batch

  lemma DeleteTablesGrow(d: string, tables: seq<string>, j: nat)
    requires j < |tables|
    ensures DeleteTables(d, tables[..j + 1]) == DeleteTables(d, tables[..j]) + [DeleteTable(d, tables[j])]
  {
  }

  method DropTables(d: string, tables: seq<string>) returns (ms: seq<MetadataMutation>)
    ensures ms == [DeleteDatabase(d)] + DeleteTables(d, tables)
  {
    ms := [DeleteDatabase(d)];
    assert DeleteTables(d, tables[..0]) == [];
    for j := 0 to |tables|
      invariant ms == [DeleteDatabase(d)] + DeleteTables(d, tables[..j])
    {
      DeleteTablesGrow(d, tables, j);
      ms := ms + [DeleteTable(d, tables[j])];
    }
    WholePrefix(tables);
  }

  method DroppedDatabases(before: EngineState, after: EngineState) returns (ms: seq<MetadataMutation>)
    ensures ms == Dropped(before, after, SortedKeys(before.databases.Keys))
  {
    ms := [];
    var names := SortedKeys(before.databases.Keys);
    for i := 0 to |names|
      invariant ms == Dropped(before, after, names[..i])
    {
      var d := names[i];
      assert d in names;
      PrefixGrows(names, i);
      if d !in after.databases {
        var drops := DropTables(d, SortedKeys(before.databases[d].schemas.Keys));
        ms := ms + drops;
      }
    }
    WholePrefix(names);
  }

  method TableMetadata(before: EngineState, after: EngineState, d: string,
      t: string) returns (ms: seq<MetadataMutation>)
    requires d in after.databases
    ensures ms == TableChange(before, after, d, t)
  {
    ms := [];
    var current := after.databases[d];
    if t !in current.schemas {
      ms := [DeleteTable(d, t)];
    } else {
      var newAuto := Get(current.autoInc, t);
      if OldSchema(before, d, t) != Some(current.schemas[t]) || OldAuto(before, d, t) != newAuto {
        ms := [PutTable(d, t, TableState(current.schemas[t], newAuto))];
      }
    }
  }

  method DeletedRows(before: EngineState, after: EngineState, d: string, t: string) returns (rs: seq<RowMutation>)
    ensures rs == Deletions(after, d, t, RowKeys(before, d, t))
  {
    rs := [];
    if d in before.databases && t in before.databases[d].rows {
      var keys := SortedKeys(before.databases[d].rows[t].Keys);
      for i := 0 to |keys|
        invariant rs == Deletions(after, d, t, keys[..i])
      {
        PrefixGrows(keys, i);
        if RowOf(after, d, t, keys[i]).None? {
          rs := rs + [Delete(d, t, keys[i])];
        }
      }
      WholePrefix(keys);
    }
  }

  method WrittenRows(before: EngineState, after: EngineState, d: string, t: string) returns (rs: seq<RowMutation>)
    requires d in after.databases
    ensures rs == Writings(before, after, d, t, RowKeys(after, d, t))
  {
    rs := [];
    if t in after.databases[d].rows {
      var rows := after.databases[d].rows[t];
      var keys := SortedKeys(rows.Keys);
      for i := 0 to |keys|
        invariant rs == Writings(before, after, d, t, keys[..i])
      {
        assert keys[i] in keys;
        PrefixGrows(keys, i);
        if RowOf(before, d, t, keys[i]) != Some(rows[keys[i]]) {
          rs := rs + [Put(d, t, keys[i], rows[keys[i]])];
        }
      }
      WholePrefix(keys);
    }
  }

  method ChangedDatabase(before: EngineState, after: EngineState, d: string)
    returns (ms: seq<MetadataMutation>, rs: seq<RowMutation>)
    requires d in after.databases
    ensures ms == MetadataOfTables(before, after, d, TablesOf(before, after, d))
    ensures rs == RowsOfTables(before, after, d, TablesOf(before, after, d))
  {
    ms, rs := [], [];
    var tables := TablesOf(before, after, d);
    for i := 0 to |tables|
      invariant ms == MetadataOfTables(before, after, d, tables[..i])
      invariant rs == RowsOfTables(before, after, d, tables[..i])
    {
      var t := tables[i];
      PrefixGrows(tables, i);
      var metadata := TableMetadata(before, after, d, t);
      var deletes := DeletedRows(before, after, d, t);
      var puts := WrittenRows(before, after, d, t);
      ms, rs := ms + metadata, rs + (deletes + puts);
    }
    WholePrefix(tables);
  }

  method ChangedDatabases(before: EngineState, after: EngineState)
    returns (ms: seq<MetadataMutation>, rs: seq<RowMutation>)
    ensures ms == MetadataOfDatabases(before, after, SortedKeys(after.databases.Keys))
    ensures rs == RowsOfDatabases(before, after, SortedKeys(after.databases.Keys))
  {
    ms, rs := [], [];
    var names := SortedKeys(after.databases.Keys);
    for i := 0 to |names|
      invariant ms == MetadataOfDatabases(before, after, names[..i])
      invariant rs == RowsOfDatabases(before, after, names[..i])
    {
      assert names[i] in names;
      PrefixGrows(names, i);
      var metadata, rows := ChangedDatabase(before, after, names[i]);
      ms, rs := ms + metadata, rs + rows;
    }
    WholePrefix(names);
  }

  method StorageBatchOf(before: EngineState, after: EngineState) returns (batch: StorageBatch)
    ensures batch == Diff(before, after)
  {
    var ms: seq<MetadataMutation> := [];
    if StorageCatalogOf(before) != StorageCatalogOf(after) {
      ms := [PutCatalog(StorageCatalogOf(after))];
    }
    var dropped := DroppedDatabases(before, after);
    var metadata, rows := ChangedDatabases(before, after);
    batch := StorageBatch(ms + dropped + metadata, rows);
  }

  // What the engine hands to the backend: the catalog is always included.
  function CommitBatch(batch: StorageBatch, after: EngineState): StorageBatch {
    if exists m :: m in batch.metadata && m.PutCatalog? then batch
    else batch.(metadata := [PutCatalog(StorageCatalogOf(after))] + batch.metadata)
  }

  // ---------------------------------------------------------------- the patch restores the state

  // All the needed mutations, and perhaps the catalog although it did not change.
  ghost predicate Patches(before: EngineState, after: EngineState, batch: StorageBatch) {
    && (forall m :: MetadataNeeded(before, after, m) ==> m in batch.metadata)
    && (forall m ::
          m in batch.metadata ==> MetadataNeeded(before, after, m) || m == PutCatalog(StorageCatalogOf(after)))
    && (forall m :: m in batch.rows <==> RowNeeded(before, after, m))
  }

  // The stored tables and rows are those of the state; the catalog need not be.
  ghost predicate PersistsItems(c: Contents, state: EngineState) {
    forall p :: p != CatalogPlace ==> At(c, p) == PersistedAt(state, p)
  }

  lemma CatalogPatched(c: Contents, before: EngineState, after: EngineState, batch: StorageBatch)
    requires Patches(before, after, batch)
    requires
      || At(c, CatalogPlace) == PersistedAt(before, CatalogPlace)
      || PutCatalog(StorageCatalogOf(after)) in batch.metadata
    ensures At(ApplyBatch(c, batch), CatalogPlace) == PersistedAt(after, CatalogPlace)
  {
    var put := PutCatalog(StorageCatalogOf(after));
    MetadataSettles(c, batch.metadata, CatalogPlace, PersistedAt(after, CatalogPlace));
    RowsSettle(ApplyAllMetadata(c, batch.metadata), batch.rows, CatalogPlace, None);
    assert MetadataEffect(put, CatalogPlace) != Keep;
    if put !in batch.metadata { assert !MetadataNeeded(before, after, put); }
  }

  lemma TablePatched(c: Contents, before: EngineState, after: EngineState, batch: StorageBatch, d: string, t: string)
    requires Patches(before, after, batch) && PersistsItems(c, before)
    ensures At(ApplyBatch(c, batch), TablePlace(d, t)) == PersistedAt(after, TablePlace(d, t))
  {
    var p := TablePlace(d, t);
    MetadataSettles(c, batch.metadata, p, PersistedAt(after, p));
    RowsSettle(ApplyAllMetadata(c, batch.metadata), batch.rows, p, None);
    if PersistedAt(before, p) != PersistedAt(after, p) {
      var m := if d !in after.databases then DeleteDatabase(d)
               else if TableOf(after, d, t).Some? then PutTable(d, t, TableOf(after, d, t).value)
               else DeleteTable(d, t);
      assert MetadataNeeded(before, after, m) && MetadataEffect(m, p) != Keep;
    }
  }

  // A kept row of a table without a schema: the diff deletes the table, and since the row did
  // not change it is never written again.
  predicate IsLost(before: EngineState, after: EngineState, d: string, t: string, k: string) {
    && d in after.databases && TableOf(after, d, t).None?
    && RowOf(after, d, t, k).Some? && RowOf(before, d, t, k) == RowOf(after, d, t, k)
  }

  lemma RowPatched(c: Contents, before: EngineState, after: EngineState, batch: StorageBatch, p: Place)
    requires Patches(before, after, batch) && PersistsItems(c, before) && p.RowPlace?
    ensures At(ApplyBatch(c, batch), p) == PersistedAt(after, p) <==> !IsLost(before, after, p.database, p.table, p.key)
  {
    var d, t, k := p.database, p.table, p.key;
    var middle := ApplyAllMetadata(c, batch.metadata);
    MetadataSettles(c, batch.metadata, p, None);
    RowsSettle(middle, batch.rows, p, PersistedAt(after, p));
    if d !in after.databases {
      if PersistedAt(before, p) != None {
        assert MetadataNeeded(before, after, DeleteDatabase(d)) && MetadataEffect(DeleteDatabase(d), p) != Keep;
      }
    } else if PersistedAt(before, p) != PersistedAt(after, p) {
      var m := if RowOf(after, d, t, k).Some? then Put(d, t, k, RowOf(after, d, t, k).value) else Delete(d, t, k);
      assert RowNeeded(before, after, m) && RowEffect(m, p) != Keep;
    } else if TableOf(after, d, t).None? && RowOf(after, d, t, k).Some? {
      assert MetadataNeeded(before, after, DeleteTable(d, t)) && MetadataEffect(DeleteTable(d, t), p) != Keep;
    }
  }

  // Diff and patch are inverse, exactly when no kept row is without a schema: all the metadata
  // and then all the rows take the stored form of one state to the stored form of the next,
  // however the lists are interleaved. The catalog must be in the batch or already right.
  lemma PatchRestores(c: Contents, before: EngineState, after: EngineState, batch: StorageBatch)
    requires Patches(before, after, batch) && PersistsItems(c, before)
    requires
      || At(c, CatalogPlace) == PersistedAt(before, CatalogPlace)
      || PutCatalog(StorageCatalogOf(after)) in batch.metadata
    ensures Persists(ApplyBatch(c, batch), after) <==> forall d, t, k :: !IsLost(before, after, d, t, k)
  {
    var c' := ApplyBatch(c, batch);
    CatalogPatched(c, before, after, batch);
    forall d, t ensures At(c', TablePlace(d, t)) == PersistedAt(after, TablePlace(d, t)) {
      TablePatched(c, before, after, batch, d, t);
    }
    forall d, t, k
      ensures At(c', RowPlace(d, t, k)) == PersistedAt(after, RowPlace(d, t, k)) <==> !IsLost(before, after, d, t, k) {
      RowPatched(c, before, after, batch, RowPlace(d, t, k));
    }
    if forall d, t, k :: !IsLost(before, after, d, t, k) {
      forall p ensures At(c', p) == PersistedAt(after, p) {
        if p.RowPlace? { assert !IsLost(before, after, p.database, p.table, p.key); }
      }
    }
  }

  // The same for a store that holds the whole stored form of the state before.
  lemma DiffRestores(c: Contents, before: EngineState, after: EngineState, batch: StorageBatch)
    requires IsDiff(before, after, batch) && Persists(c, before)
    ensures Persists(ApplyBatch(c, batch), after) <==> forall d, t, k :: !IsLost(before, after, d, t, k)
  {
    PatchRestores(c, before, after, batch);
  }

  // In a well-formed state every table with rows has a schema, so nothing is ever lost.
  lemma WellFormedLosesNothing(before: EngineState, after: EngineState)
    requires WellFormed(after)
    ensures forall d, t, k :: !IsLost(before, after, d, t, k)
  {
  }

  lemma CommitBatchPatches(before: EngineState, after: EngineState, batch: StorageBatch)
    requires IsDiff(before, after, batch)
    ensures Patches(before, after, CommitBatch(batch, after))
    ensures PutCatalog(StorageCatalogOf(after)) in CommitBatch(batch, after).metadata
  {
    assert forall m :: m in batch.metadata && m.PutCatalog? ==> m == PutCatalog(StorageCatalogOf(after));
  }

  // ---------------------------------------------------------------- minimality

  // The place a mutation is about; dropping a database shows in the catalog.
  function NamedPlace(m: MetadataMutation): Place {
    match m
    case PutCatalog(_) => CatalogPlace
    case DeleteDatabase(_) => CatalogPlace
    case PutTable(d, t, _) => TablePlace(d, t)
    case DeleteTable(d, t) => TablePlace(d, t)
  }

  lemma MetadataIsNeeded(before: EngineState, after: EngineState, m: MetadataMutation)
    requires WellFormed(before) && WellFormed(after) && MetadataNeeded(before, after, m)
    ensures PersistedAt(before, NamedPlace(m)) != PersistedAt(after, NamedPlace(m))
  {
    if m.DeleteDatabase? {
      assert m.database in StorageCatalogOf(before).databases && m.database !in StorageCatalogOf(after).databases;
    }
  }

  // A diff is empty exactly when nothing persistent changed.
  lemma EmptyIffUnchanged(before: EngineState, after: EngineState, batch: StorageBatch)
    requires WellFormed(before) && WellFormed(after) && IsDiff(before, after, batch)
    ensures batch.IsEmpty() <==> forall p :: PersistedAt(before, p) == PersistedAt(after, p)
  {
    if batch.IsEmpty() {
      forall p ensures PersistedAt(before, p) == PersistedAt(after, p) { NothingNeeded(before, after, batch, p); }
    }
    if batch.metadata != [] {
      assert batch.metadata[0] in batch.metadata;
      MetadataIsNeeded(before, after, batch.metadata[0]);
    } else if batch.rows != [] {
      var m := batch.rows[0];
      assert m in batch.rows;
      RowIsNeeded(before, after, batch, m);
    }
  }

  lemma NothingNeeded(before: EngineState, after: EngineState, batch: StorageBatch, p: Place)
    requires IsDiff(before, after, batch) && batch.IsEmpty()
    ensures PersistedAt(before, p) == PersistedAt(after, p)
  {
    assert forall m :: !MetadataNeeded(before, after, m);
    assert forall m :: !RowNeeded(before, after, m);
    match p
    case CatalogPlace =>
      assert !MetadataNeeded(before, after, PutCatalog(StorageCatalogOf(after)));
    case TablePlace(d, t) =>
      assert !MetadataNeeded(before, after, DeleteDatabase(d)) && !MetadataNeeded(before, after, DeleteTable(d, t));
      var table := TableOf(after, d, t);
      if table.Some? { assert !MetadataNeeded(before, after, PutTable(d, t, table.value)); }
    case RowPlace(d, t, k) =>
      assert !MetadataNeeded(before, after, DeleteDatabase(d)) && !RowNeeded(before, after, Delete(d, t, k));
      if RowOf(after, d, t, k).Some? { assert !RowNeeded(before, after, Put(d, t, k, RowOf(after, d, t, k).value)); }
  }

  // Every row mutation of a diff names a row whose stored value really differs.
  lemma RowIsNeeded(before: EngineState, after: EngineState, batch: StorageBatch, m: RowMutation)
    requires IsDiff(before, after, batch) && m in batch.rows
    ensures PersistedAt(before, RowPlace(m.database, m.table, m.key))
         != PersistedAt(after, RowPlace(m.database, m.table, m.key))
  {
    assert RowNeeded(before, after, m);
  }
}
