/** The commit contract: batches of mutations, what a backend holds, and `apply_batch`, the
    executable meaning of "metadata before rows" in the JSON and CSV backends. */
module Batches {
  import opened Wrappers

  // Encoded by serde_json on the way to disk; a lossless codec, so the value stands for its text.
  type StoredRow(==, !new)
  type TableSchemaHint(==, !new)
  type Json(==, !new)

  datatype DatabaseMetadata = DatabaseMetadata(views: map<string, string>, indexComments: map<string, string>)

  datatype StorageCatalog = StorageCatalog(version: nat, metadata: Json, databases: map<string, DatabaseMetadata>)

  datatype TableState = TableState(schema: TableSchemaHint, autoIncrement: Option<int>)

  datatype MetadataMutation =
    | PutCatalog(catalog: StorageCatalog)
    | DeleteDatabase(database: string)
    | PutTable(database: string, table: string, state: TableState)
    | DeleteTable(database: string, table: string)

  datatype RowMutation =
    | Put(database: string, table: string, key: string, row: StoredRow)
    | Delete(database: string, table: string, key: string)

  datatype StorageBatch = StorageBatch(metadata: seq<MetadataMutation>, rows: seq<RowMutation>) {
    predicate IsEmpty() {
      metadata == [] && rows == []
    }
  }

  // ---------------------------------------------------------------- what a backend holds

  type TableName = (string, string)
  type RowName = (string, string, string)

  datatype Contents = Contents(
    catalog: Option<StorageCatalog>,
    tables: map<TableName, TableState>,
    rows: map<RowName, StoredRow>)

  // One stored item, addressed independently of how a backend lays it out.
  datatype Place =
    | CatalogPlace
    | TablePlace(database: string, table: string)
    | RowPlace(database: string, table: string, key: string)

  datatype Text = CatalogText(catalog: StorageCatalog) | TableText(state: TableState) | RowText(row: StoredRow)

  function At(c: Contents, p: Place): Option<Text> {
    match p
    case CatalogPlace => if c.catalog.Some? then Some(CatalogText(c.catalog.value)) else None
    case TablePlace(d, t) => if (d, t) in c.tables then Some(TableText(c.tables[(d, t)])) else None
    case RowPlace(d, t, k) => if (d, t, k) in c.rows then Some(RowText(c.rows[(d, t, k)])) else None
  }

  lemma ContentsByPlace(a: Contents, b: Contents)
    requires forall p :: At(a, p) == At(b, p)
    ensures a == b
  {
    assert At(a, CatalogPlace) == At(b, CatalogPlace);
    forall n: TableName ensures Get(a.tables, n) == Get(b.tables, n) {
      assert At(a, TablePlace(n.0, n.1)) == At(b, TablePlace(n.0, n.1));
    }
    forall n: RowName ensures Get(a.rows, n) == Get(b.rows, n) {
      assert At(a, RowPlace(n.0, n.1, n.2)) == At(b, RowPlace(n.0, n.1, n.2));
    }
    SameMap(a.tables, b.tables);
    SameMap(a.rows, b.rows);
  }

  // Every stored row belongs to a stored table.
  predicate RowsHaveTables(c: Contents) {
    forall n :: n in c.rows ==> (n.0, n.1) in c.tables
  }

  // ---------------------------------------------------------------- the meaning of a batch

  function ApplyMetadata(c: Contents, m: MetadataMutation): Contents {
    match m
    case PutCatalog(catalog) => c.(catalog := Some(catalog))
    case DeleteDatabase(d) =>
      c.(tables := map n | n in c.tables && n.0 != d :: c.tables[n],
         rows := map n | n in c.rows && n.0 != d :: c.rows[n])
    case PutTable(d, t, state) => c.(tables := c.tables[(d, t) := state])
    case DeleteTable(d, t) =>
      c.(tables := c.tables - {(d, t)},
         rows := map n | n in c.rows && (n.0, n.1) != (d, t) :: c.rows[n])
  }

  function ApplyRow(c: Contents, m: RowMutation): Contents {
    match m
    case Put(d, t, k, row) => c.(rows := c.rows[(d, t, k) := row])
    case Delete(d, t, k) => c.(rows := c.rows - {(d, t, k)})
  }

  function ApplyAllMetadata(c: Contents, ms: seq<MetadataMutation>): Contents {
    if ms == [] then c else ApplyMetadata(ApplyAllMetadata(c, ms[..|ms| - 1]), ms[|ms| - 1])
  }

  function ApplyAllRows(c: Contents, ms: seq<RowMutation>): Contents {
    if ms == [] then c else ApplyRow(ApplyAllRows(c, ms[..|ms| - 1]), ms[|ms| - 1])
  }

  function ApplyBatch(c: Contents, batch: StorageBatch): Contents {
    ApplyAllRows(ApplyAllMetadata(c, batch.metadata), batch.rows)
  }

  // ---------------------------------------------------------------- effects, place by place

  datatype Effect = Keep | Become(content: Option<Text>)

  function MetadataEffect(m: MetadataMutation, p: Place): Effect {
    match m
    case PutCatalog(catalog) => if p.CatalogPlace? then Become(Some(CatalogText(catalog))) else Keep
    case DeleteDatabase(d) => if !p.CatalogPlace? && p.database == d then Become(None) else Keep
    case PutTable(d, t, state) => if p == TablePlace(d, t) then Become(Some(TableText(state))) else Keep
    case DeleteTable(d, t) => if !p.CatalogPlace? && p.database == d && p.table == t then Become(None) else Keep
  }

  function RowEffect(m: RowMutation, p: Place): Effect {
    match m
    case Put(d, t, k, row) => if p == RowPlace(d, t, k) then Become(Some(RowText(row))) else Keep
    case Delete(d, t, k) => if p == RowPlace(d, t, k) then Become(None) else Keep
  }

  function Outcome(content: Option<Text>, e: Effect): Option<Text> {
    if e.Keep? then content else e.content
  }

  lemma MetadataAt(c: Contents, m: MetadataMutation, p: Place)
    ensures At(ApplyMetadata(c, m), p) == Outcome(At(c, p), MetadataEffect(m, p))
  {
  }

  lemma RowAt(c: Contents, m: RowMutation, p: Place)
    ensures At(ApplyRow(c, m), p) == Outcome(At(c, p), RowEffect(m, p))
  {
  }

  // Mutations that agree about a place settle it, in whatever order they come.
  lemma {:induction false} MetadataSettles(c: Contents, ms: seq<MetadataMutation>, p: Place, content: Option<Text>)
    requires forall m :: m in ms ==> MetadataEffect(m, p) in {Keep, Become(content)}
    ensures At(ApplyAllMetadata(c, ms), p)
         == if exists m :: m in ms && MetadataEffect(m, p) != Keep then content else At(c, p)
  {
    if ms != [] {
      var init, last := ms[..|ms| - 1], ms[|ms| - 1];
      MetadataSettles(c, init, p, content);
      MetadataAt(ApplyAllMetadata(c, init), last, p);
      assert forall m :: m in ms <==> m in init || m == last;
    }
  }

  lemma {:induction false} RowsSettle(c: Contents, ms: seq<RowMutation>, p: Place, content: Option<Text>)
    requires forall m :: m in ms ==> RowEffect(m, p) in {Keep, Become(content)}
    ensures At(ApplyAllRows(c, ms), p)
         == if exists m :: m in ms && RowEffect(m, p) != Keep then content else At(c, p)
  {
    if ms != [] {
      var init, last := ms[..|ms| - 1], ms[|ms| - 1];
      RowsSettle(c, init, p, content);
      RowAt(ApplyAllRows(c, init), last, p);
      assert forall m :: m in ms <==> m in init || m == last;
    }
  }

  // ---------------------------------------------------------------- the JSON backend's state

  function OrEmpty<K, V>(m: map<string, map<K, V>>, name: string): map<K, V> {
    if name in m then m[name] else map[]
  }

  // The file backends hold nested maps, database by database; `ItemAt` looks one stored item up in them.
  class FileState {
    var catalog: Option<StorageCatalog>
    var tables: map<string, map<string, TableState>>
    var rows: map<string, map<string, map<string, StoredRow>>>

    constructor ()
      ensures Holds(Contents(None, map[], map[]))
    {
      catalog, tables, rows := None, map[], map[];
    }

    function ItemAt(p: Place): Option<Text>
      reads this
    {
      match p
      case CatalogPlace => if catalog.Some? then Some(CatalogText(catalog.value)) else None
      case TablePlace(d, t) => if d in tables && t in tables[d] then Some(TableText(tables[d][t])) else None
      case RowPlace(d, t, k) =>
        if d in rows && t in rows[d] && k in rows[d][t] then Some(RowText(rows[d][t][k])) else None
    }

    ghost predicate Holds(c: Contents)
      reads this
    {
      forall p :: ItemAt(p) == At(c, p)
    }

    method RemoveDatabase(d: string)
      modifies this
      ensures forall p :: ItemAt(p) == Outcome(old(ItemAt(p)), MetadataEffect(DeleteDatabase(d), p))
    {
      tables := tables - {d};
      rows := rows - {d};
    }

    method InsertTable(d: string, t: string, state: TableState)
      modifies this
      ensures forall p :: ItemAt(p) == Outcome(old(ItemAt(p)), MetadataEffect(PutTable(d, t, state), p))
    {
      tables := tables[d := OrEmpty(tables, d)[t := state]];
    }

    method RemoveTable(d: string, t: string)
      modifies this
      ensures forall p :: ItemAt(p) == Outcome(old(ItemAt(p)), MetadataEffect(DeleteTable(d, t), p))
    {
      if d in tables {
        tables := tables[d := tables[d] - {t}];
      }
      if d in rows {
        rows := rows[d := rows[d] - {t}];
      }
    }

    method ApplyOneMetadata(m: MetadataMutation)
      modifies this
      ensures forall p :: ItemAt(p) == Outcome(old(ItemAt(p)), MetadataEffect(m, p))
    {
      match m
      case PutCatalog(c) => catalog := Some(c);
      case DeleteDatabase(d) => RemoveDatabase(d);
      case PutTable(d, t, state) => InsertTable(d, t, state);
      case DeleteTable(d, t) => RemoveTable(d, t);
    }

    method ApplyOneRow(m: RowMutation)
      modifies this
      ensures forall p :: ItemAt(p) == Outcome(old(ItemAt(p)), RowEffect(m, p))
    {
      match m
      case Put(d, t, k, row) =>
        var ofDatabase := OrEmpty(rows, d);
        rows := rows[d := ofDatabase[t := OrEmpty(ofDatabase, t)[k := row]]];
      case Delete(d, t, k) =>
        if d in rows && t in rows[d] {
          rows := rows[d := rows[d][t := rows[d][t] - {k}]];
        }
    }

    // All the metadata first, then all the rows.
    method Apply(batch: StorageBatch, ghost before: Contents)
      requires Holds(before)
      modifies this
      ensures Holds(ApplyBatch(before, batch))
    {
      for i := 0 to |batch.metadata|
        invariant Holds(ApplyAllMetadata(before, batch.metadata[..i]))
      {
        ghost var c := ApplyAllMetadata(before, batch.metadata[..i]);
        assert batch.metadata[..i + 1][..i] == batch.metadata[..i];
        ApplyOneMetadata(batch.metadata[i]);
        forall p { MetadataAt(c, batch.metadata[i], p); }
      }
      assert batch.metadata[..|batch.metadata|] == batch.metadata;
      ghost var middle := ApplyAllMetadata(before, batch.metadata);
      for i := 0 to |batch.rows|
        invariant Holds(ApplyAllRows(middle, batch.rows[..i]))
      {
        ghost var c := ApplyAllRows(middle, batch.rows[..i]);
        assert batch.rows[..i + 1][..i] == batch.rows[..i];
        ApplyOneRow(batch.rows[i]);
        forall p { RowAt(c, batch.rows[i], p); }
      }
      assert batch.rows[..|batch.rows|] == batch.rows;
    }
  }
}
