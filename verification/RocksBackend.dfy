/** The built-in backend: how batches become RocksDB writes, and why the store that results
    holds what the batch contract says (`rocks_writes`, `RocksDbStorage`). */
module RocksBackend {
  import opened Wrappers
  import opened Ordering
  import opened TableKeys
  import opened RocksStore
  import opened Batches

  const CATALOG_FIELD := "catalog"

  type Db = map<string, Text>
  type Write = StorageWrite<Text>

  function PlaceNamespace(p: Place): string {
    match p
    case CatalogPlace => CATALOG_KEY
    case TablePlace(_, _) => TABLES_KEY
    case RowPlace(d, t, _) => RowsKey(d, t)
  }

  function PlaceField(p: Place): string {
    match p
    case CatalogPlace => CATALOG_FIELD
    case TablePlace(d, t) => EncodeTableKey(d, t)
    case RowPlace(_, _, k) => k
  }

  function PlaceKey(p: Place): string {
    FieldKey(PlaceNamespace(p), PlaceField(p))
  }

  // The keys as they stand in RocksDB: a namespace, a NUL, and a field; tables are named by the JSON
  // array of their two names.
  lemma TableKeyOnDisk(d: string, t: string)
    ensures PlaceKey(TablePlace(d, t))
         == TABLES_KEY + ("\0" + ("[\"" + (EscapeString(d) + ("\",\"" + (EscapeString(t) + ("\"]" + ""))))))
  {
    KeyParts(TABLES_KEY, EncodeTableKey(d, t));
    ArrayParts(EscapeString(d), EscapeString(t), "");
    assert EncodeTableKey(d, t) + "" == EncodeTableKey(d, t);
  }

  lemma RowKeyOnDisk(d: string, t: string, k: string)
    ensures PlaceKey(RowPlace(d, t, k))
         == ROWS_PREFIX + ("[\"" + (EscapeString(d) + ("\",\"" + (EscapeString(t) + ("\"]" + ("\0" + k))))))
  {
    KeyParts(RowsKey(d, t), k);
    ArrayParts(EscapeString(d), EscapeString(t), "\0" + k);
    Shift(ROWS_PREFIX, EncodeTableKey(d, t), "\0" + k);
  }

  lemma KeyParts(namespace: string, field: string)
    ensures FieldKey(namespace, field) == namespace + ("\0" + field)
  {
    assert [NUL] == "\0";
    Shift(namespace, "\0", field);
  }

  lemma ArrayParts(a: string, b: string, rest: string)
    ensures "[\"" + a + "\",\"" + b + "\"]" + rest == "[\"" + (a + ("\",\"" + (b + ("\"]" + rest))))
  {
  }

  // The store holds exactly these contents: every item under its key, and no other key.
  ghost predicate Represents(db: Db, c: Contents) {
    && (forall p :: Get(db, PlaceKey(p)) == At(c, p))
    && (forall k :: k in db ==> exists p :: k == PlaceKey(p))
  }

  lemma NamespaceIsNulFree(p: Place)
    ensures NulFree(PlaceNamespace(p))
  {
    FixedKeysAreNulFree();
    if p.RowPlace? { RowsKeyIsNulFree(p.database, p.table); }
  }

  // Different items never share a key, whatever characters their names contain.
  lemma PlaceKeyIsInjective(p: Place, q: Place)
    requires PlaceKey(p) == PlaceKey(q)
    ensures p == q
  {
    NamespaceIsNulFree(p);
    NamespaceIsNulFree(q);
    var n1, n2 := PlaceNamespace(p), PlaceNamespace(q);
    assert NamespacePrefix(n2) <= FieldKey(n1, PlaceField(p));
    NamespacesAreDisjoint(n1, n2, PlaceField(p));
    assert PlaceField(p) == PlaceKey(p)[|n1| + 1..] == PlaceKey(q)[|n2| + 1..] == PlaceField(q);
    if p.RowPlace? { NamespacesDiffer(p.database, p.table); }
    if q.RowPlace? { NamespacesDiffer(q.database, q.table); }
    if p.RowPlace? && q.RowPlace? { RowsKeyIsInjective(p.database, p.table, q.database, q.table); }
    if p.TablePlace? && q.TablePlace? { EncodeIsInjective(p.database, p.table, q.database, q.table); }
  }

  lemma PlaceKeysDiffer(p: Place, q: Place)
    ensures p != q ==> PlaceKey(p) != PlaceKey(q)
  {
    if PlaceKey(p) == PlaceKey(q) { PlaceKeyIsInjective(p, q); }
  }

  // A rows namespace covers the rows of its own table and nothing else.
  lemma RowsNamespaceCovers(d: string, t: string, p: Place)
    ensures NamespacePrefix(RowsKey(d, t)) <= PlaceKey(p) <==> p.RowPlace? && p.database == d && p.table == t
  {
    NamespaceIsNulFree(p);
    RowsKeyIsNulFree(d, t);
    NamespacesAreDisjoint(PlaceNamespace(p), RowsKey(d, t), PlaceField(p));
    NamespacesDiffer(d, t);
    if p.RowPlace? && RowsKey(p.database, p.table) == RowsKey(d, t) {
      RowsKeyIsInjective(p.database, p.table, d, t);
    }
  }

  // ---------------------------------------------------------------- rocks_writes

  // The deletions for one listed table.
  function DropTable(d: string, t: string): seq<Write> {
    [HDel(TABLES_KEY, EncodeTableKey(d, t)), Del(RowsKey(d, t))]
  }

  // Over the listed fields: drop those that decode to a table of the database.
  function DropListed(d: string, fields: seq<string>): seq<Write> {
    if fields == [] then [] else
      DropListed(d, fields[..|fields| - 1]) +
      (match DecodeTableKey(fields[|fields| - 1])
       case Some(name) =>
         if name.0 == d then [HDel(TABLES_KEY, fields[|fields| - 1]), Del(RowsKey(d, name.1))] else []
       case None => [])
  }

  function MetadataWrites(stored: Db, m: MetadataMutation): seq<Write> {
    match m
    case PutCatalog(catalog) => [HSet(CATALOG_KEY, CATALOG_FIELD, CatalogText(catalog))]
    case DeleteDatabase(d) => DropListed(d, SortedKeys(Fields(stored, TABLES_KEY)))
    case PutTable(d, t, state) => [HSet(TABLES_KEY, EncodeTableKey(d, t), TableText(state))]
    case DeleteTable(d, t) => DropTable(d, t)
  }

  function RowWrite(m: RowMutation): Write {
    match m
    case Put(d, t, k, row) => HSet(RowsKey(d, t), k, RowText(row))
    case Delete(d, t, k) => HDel(RowsKey(d, t), k)
  }

  function AllMetadataWrites(stored: Db, ms: seq<MetadataMutation>): seq<Write> {
    if ms == [] then [] else AllMetadataWrites(stored, ms[..|ms| - 1]) + MetadataWrites(stored, ms[|ms| - 1])
  }

  function AllRowWrites(ms: seq<RowMutation>): seq<Write> {
    if ms == [] then [] else AllRowWrites(ms[..|ms| - 1]) + [RowWrite(ms[|ms| - 1])]
  }

  function BatchWrites(stored: Db, batch: StorageBatch): seq<Write> {
    AllMetadataWrites(stored, batch.metadata) + AllRowWrites(batch.rows)
  }

  // ---------------------------------------------------------------- one mutation

  // One item replaced: the store then holds the replaced contents.
  lemma StoreItem(db: Db, c: Contents, p: Place, text: Text, c': Contents)
    requires Represents(db, c)
    requires forall q :: At(c', q) == if q == p then Some(text) else At(c, q)
    ensures Represents(db[PlaceKey(p) := text], c')
  {
    forall q ensures Get(db[PlaceKey(p) := text], PlaceKey(q)) == At(c', q) {
      PlaceKeysDiffer(q, p);
    }
  }

  // Items removed: enough that the surviving keys are those of the surviving items.
  lemma RemoveItems(db: Db, c: Contents, db': Db, c': Contents)
    requires Represents(db, c)
    requires forall k :: k in db' ==> k in db
    requires forall p :: Get(db', PlaceKey(p)) == At(c', p)
    ensures Represents(db', c')
  {
  }

  lemma DropTableDeletes(stored: Db, start: Contents, d: string, t: string, p: Place)
    requires Represents(stored, start) && (p.RowPlace? ==> At(start, p).Some?)
    ensures (exists w :: w in DropTable(d, t) && Deletes(stored, w, PlaceKey(p)))
       <==> !p.CatalogPlace? && p.database == d && p.table == t
  {
    var writes := DropTable(d, t);
    assert forall w :: w in writes <==> w == writes[0] || w == writes[1];
    assert Deletes(stored, writes[0], PlaceKey(p)) <==> p == TablePlace(d, t) by {
      PlaceKeysDiffer(p, TablePlace(d, t));
    }
    assert Deletes(stored, writes[1], PlaceKey(p)) <==> p.RowPlace? && p.database == d && p.table == t by {
      RowsNamespaceCovers(d, t, p);
      assert Get(stored, PlaceKey(p)) == At(start, p);
    }
  }

  lemma NoDeletionOfNothing(stored: Db, db: Db, writes: seq<Write>, p: Place)
    requires (forall w :: w in writes ==> !w.HSet?) && Get(db, PlaceKey(p)).None?
    ensures Get(ApplyWritesFrom(stored, db, writes), PlaceKey(p)).None?
  {
    DeletionsRemove(stored, db, writes, PlaceKey(p));
  }

  lemma DeleteTableStep(stored: Db, db: Db, start: Contents, c: Contents, d: string, t: string)
    requires Represents(stored, start) && Represents(db, c)
    requires forall n :: n in c.rows ==> n in start.rows
    ensures Represents(ApplyWritesFrom(stored, db, DropTable(d, t)), ApplyMetadata(c, DeleteTable(d, t)))
  {
    var writes := DropTable(d, t);
    var db' := ApplyWritesFrom(stored, db, writes);
    var c' := ApplyMetadata(c, DeleteTable(d, t));
    forall p ensures Get(db', PlaceKey(p)) == At(c', p) {
      MetadataAt(c, DeleteTable(d, t), p);
      assert Get(db, PlaceKey(p)) == At(c, p);
      if At(c, p).Some? {
        DeletionsRemove(stored, db, writes, PlaceKey(p));
        DropTableDeletes(stored, start, d, t, p);
      } else {
        NoDeletionOfNothing(stored, db, writes, p);
      }
    }
    forall k | k in db' ensures k in db { DeletionsRemove(stored, db, writes, k); }
    RemoveItems(db, c, db', c');
  }

  lemma {:induction false} DropListedMembers(d: string, fields: seq<string>, w: Write)
    ensures w in DropListed(d, fields)
       <==> exists f :: f in fields && DecodeTableKey(f).Some? && DecodeTableKey(f).value.0 == d
                        && (w == HDel(TABLES_KEY, f) || w == Del(RowsKey(d, DecodeTableKey(f).value.1)))
  {
    if fields != [] {
      var init, last := fields[..|fields| - 1], fields[|fields| - 1];
      assert forall f :: f in fields <==> f in init || f == last;
      DropListedMembers(d, init, w);
    }
  }

  // The listed fields are the encodings of the stored tables.
  lemma ListedFields(stored: Db, c: Contents, f: string)
    requires Represents(stored, c)
    ensures f in Fields(stored, TABLES_KEY) <==> exists n :: n in c.tables && f == EncodeTableKey(n.0, n.1)
  {
    FieldsAreKeys(stored, TABLES_KEY, f);
    if f in Fields(stored, TABLES_KEY) {
      var p :| FieldKey(TABLES_KEY, f) == PlaceKey(p);
      NamespaceIsNulFree(p);
      FixedKeysAreNulFree();
      assert NamespacePrefix(TABLES_KEY) <= FieldKey(PlaceNamespace(p), PlaceField(p));
      NamespacesAreDisjoint(PlaceNamespace(p), TABLES_KEY, PlaceField(p));
      if p.RowPlace? { NamespacesDiffer(p.database, p.table); }
      assert p.TablePlace?;
      FieldsAreKeys(stored, TABLES_KEY, PlaceField(p));
      assert f == PlaceField(p);
      assert (p.database, p.table) in c.tables;
    }
    if n :| n in c.tables && f == EncodeTableKey(n.0, n.1) {
      assert Get(stored, PlaceKey(TablePlace(n.0, n.1))) == At(c, TablePlace(n.0, n.1));
    }
  }

  lemma DroppedTable(stored: Db, start: Contents, d: string, w: Write) returns (t: string)
    requires Represents(stored, start) && w in MetadataWrites(stored, DeleteDatabase(d))
    ensures (d, t) in start.tables && (w == HDel(TABLES_KEY, EncodeTableKey(d, t)) || w == Del(RowsKey(d, t)))
  {
    var fields := SortedKeys(Fields(stored, TABLES_KEY));
    DropListedMembers(d, fields, w);
    var f :| f in fields && DecodeTableKey(f).Some? && DecodeTableKey(f).value.0 == d
             && (w == HDel(TABLES_KEY, f) || w == Del(RowsKey(d, DecodeTableKey(f).value.1)));
    ListedFields(stored, start, f);
    var n :| n in start.tables && f == EncodeTableKey(n.0, n.1);
    DecodeEncode(n.0, n.1);
    t := n.1;
  }

  lemma DroppedIsListed(stored: Db, start: Contents, d: string, p: Place, w: Write)
    requires Represents(stored, start)
    requires w in MetadataWrites(stored, DeleteDatabase(d)) && Deletes(stored, w, PlaceKey(p))
    ensures !p.CatalogPlace? && p.database == d && (d, p.table) in start.tables
  {
    var t := DroppedTable(stored, start, d, w);
    if w.HDel? {
      PlaceKeyIsInjective(p, TablePlace(d, t));
    } else {
      RowsNamespaceCovers(d, t, p);
    }
  }

  function DropsPlace(p: Place): Write
    requires !p.CatalogPlace?
  {
    if p.TablePlace? then HDel(TABLES_KEY, EncodeTableKey(p.database, p.table)) else Del(RowsKey(p.database, p.table))
  }

  lemma ListedIsWritten(stored: Db, start: Contents, p: Place)
    requires Represents(stored, start) && !p.CatalogPlace? && (p.database, p.table) in start.tables
    ensures DropsPlace(p) in MetadataWrites(stored, DeleteDatabase(p.database))
  {
    var f := EncodeTableKey(p.database, p.table);
    var fields := SortedKeys(Fields(stored, TABLES_KEY));
    ListedFields(stored, start, f);
    DecodeEncode(p.database, p.table);
    assert f in fields && DecodeTableKey(f) == Some((p.database, p.table));
    DropListedMembers(p.database, fields, DropsPlace(p));
  }

  lemma ListedIsDropped(stored: Db, start: Contents, p: Place)
    requires Represents(stored, start) && !p.CatalogPlace? && At(start, p).Some?
    ensures Deletes(stored, DropsPlace(p), PlaceKey(p))
  {
    RowsNamespaceCovers(p.database, p.table, p);
    assert Get(stored, PlaceKey(p)) == At(start, p);
  }

  // A database's deletion reads its table list from the store before the batch: it reaches
  // exactly the tables listed there, and their rows.
  lemma DroppedPlaces(stored: Db, start: Contents, d: string, p: Place)
    requires Represents(stored, start) && (p.RowPlace? ==> At(start, p).Some?)
    ensures (exists w :: w in MetadataWrites(stored, DeleteDatabase(d)) && Deletes(stored, w, PlaceKey(p)))
       <==> !p.CatalogPlace? && p.database == d && (d, p.table) in start.tables
  {
    if w :| w in MetadataWrites(stored, DeleteDatabase(d)) && Deletes(stored, w, PlaceKey(p)) {
      DroppedIsListed(stored, start, d, p, w);
    }
    if !p.CatalogPlace? && p.database == d && (d, p.table) in start.tables {
      ListedIsWritten(stored, start, p);
      ListedIsDropped(stored, start, p);
    }
  }

  lemma OnlyDeletions(stored: Db, d: string)
    ensures forall w :: w in MetadataWrites(stored, DeleteDatabase(d)) ==> !w.HSet?
  {
    var fields := SortedKeys(Fields(stored, TABLES_KEY));
    forall w | w in DropListed(d, fields) ensures !w.HSet? { DropListedMembers(d, fields, w); }
  }

  // What one metadata mutation does to the store, `start` being what it held before the batch.
  function RocksEffect(start: Contents, m: MetadataMutation, p: Place): Effect {
    if m.DeleteDatabase? && !p.CatalogPlace? && (p.database, p.table) !in start.tables then Keep
        else MetadataEffect(m, p)
  }

  function RocksMetadata(start: Contents, c: Contents, m: MetadataMutation): Contents {
    if m.DeleteDatabase? then
      c.(tables := map n | n in c.tables && !(n.0 == m.database && n in start.tables) :: c.tables[n],
         rows := map n | n in c.rows && !(n.0 == m.database && (n.0, n.1) in start.tables) :: c.rows[n])
    else ApplyMetadata(c, m)
  }

  function RocksAll(start: Contents, c: Contents, ms: seq<MetadataMutation>): Contents {
    if ms == [] then c else RocksMetadata(start, RocksAll(start, c, ms[..|ms| - 1]), ms[|ms| - 1])
  }

  lemma RocksMetadataAt(start: Contents, c: Contents, m: MetadataMutation, p: Place)
    ensures At(RocksMetadata(start, c, m), p) == Outcome(At(c, p), RocksEffect(start, m, p))
  {
    MetadataAt(c, m, p);
  }

  lemma DeleteDatabaseStep(stored: Db, db: Db, start: Contents, c: Contents, d: string)
    requires Represents(stored, start) && Represents(db, c) && forall n :: n in c.rows ==> n in start.rows
    ensures Represents(ApplyWritesFrom(stored, db, MetadataWrites(stored, DeleteDatabase(d))),
                       RocksMetadata(start, c, DeleteDatabase(d)))
  {
    var writes := MetadataWrites(stored, DeleteDatabase(d));
    var db' := ApplyWritesFrom(stored, db, writes);
    var c' := RocksMetadata(start, c, DeleteDatabase(d));
    OnlyDeletions(stored, d);
    forall p ensures Get(db', PlaceKey(p)) == At(c', p) {
      RocksMetadataAt(start, c, DeleteDatabase(d), p);
      assert Get(db, PlaceKey(p)) == At(c, p);
      if At(c, p).Some? {
        DeletionsRemove(stored, db, writes, PlaceKey(p));
        DroppedPlaces(stored, start, d, p);
      } else {
        NoDeletionOfNothing(stored, db, writes, p);
      }
    }
    forall k | k in db' ensures k in db { DeletionsRemove(stored, db, writes, k); }
    RemoveItems(db, c, db', c');
  }

  lemma PutStep(stored: Db, db: Db, c: Contents, m: MetadataMutation)
    requires Represents(db, c) && (m.PutCatalog? || m.PutTable?)
    ensures Represents(ApplyWritesFrom(stored, db, MetadataWrites(stored, m)), ApplyMetadata(c, m))
  {
    var p := if m.PutCatalog? then CatalogPlace else TablePlace(m.database, m.table);
    var text := if m.PutCatalog? then CatalogText(m.catalog) else TableText(m.state);
    forall q ensures At(ApplyMetadata(c, m), q) == if q == p then Some(text) else At(c, q) { MetadataAt(c, m, q); }
    StoreItem(db, c, p, text, ApplyMetadata(c, m));
    var writes := MetadataWrites(stored, m);
    assert writes[..0] == [] && ApplyWritesFrom(stored, db, writes[..0]) == db;
    assert ApplyWritesFrom(stored, db, writes) == db[PlaceKey(p) := text];
  }

  lemma MetadataStep(stored: Db, db: Db, start: Contents, c: Contents, m: MetadataMutation)
    requires Represents(stored, start) && Represents(db, c)
    requires forall n :: n in c.rows ==> n in start.rows
    ensures Represents(ApplyWritesFrom(stored, db, MetadataWrites(stored, m)), RocksMetadata(start, c, m))
  {
    match m
    case PutCatalog(_) => PutStep(stored, db, c, m);
    case DeleteDatabase(d) => DeleteDatabaseStep(stored, db, start, c, d);
    case PutTable(_, _, _) => PutStep(stored, db, c, m);
    case DeleteTable(d, t) => DeleteTableStep(stored, db, start, c, d, t);
  }

  lemma RowStep(stored: Db, db: Db, c: Contents, m: RowMutation)
    requires Represents(db, c)
    ensures Represents(ApplyWrite(stored, db, RowWrite(m)), ApplyRow(c, m))
  {
    var c' := ApplyRow(c, m);
    var p := RowPlace(m.database, m.table, m.key);
    forall q ensures At(c', q) == if q == p then (if m.Put? then Some(RowText(m.row)) else None) else At(c, q) {
      RowAt(c, m, q);
    }
    assert PlaceKey(p) == FieldKey(RowsKey(m.database, m.table), m.key);
    if m.Put? {
      StoreItem(db, c, p, RowText(m.row), c');
    } else {
      RemoveItem(db, c, p, c');
    }
  }

  lemma RemoveItem(db: Db, c: Contents, p: Place, c': Contents)
    requires Represents(db, c)
    requires forall q :: At(c', q) == if q == p then None else At(c, q)
    ensures Represents(db - {PlaceKey(p)}, c')
  {
    var db' := db - {PlaceKey(p)};
    forall q ensures Get(db', PlaceKey(q)) == At(c', q) {
      assert Get(db, PlaceKey(q)) == At(c, q);
      PlaceKeysDiffer(q, p);
    }
    RemoveItems(db, c, db', c');
  }

  // ---------------------------------------------------------------- whole batches

  lemma {:induction false} RocksKeepsRows(start: Contents, c: Contents, ms: seq<MetadataMutation>)
    ensures forall n :: n in RocksAll(start, c, ms).rows ==> n in c.rows
  {
    if ms != [] { RocksKeepsRows(start, c, ms[..|ms| - 1]); }
  }

  // Every list of metadata mutations, whatever it does to whichever store: the store afterwards
  // is the encoding of these contents.
  lemma {:induction false} MetadataIsExact(stored: Db, c: Contents, ms: seq<MetadataMutation>)
    requires Represents(stored, c)
    ensures Represents(ApplyWrites(stored, AllMetadataWrites(stored, ms)), RocksAll(c, c, ms))
  {
    if ms != [] {
      var init, last := ms[..|ms| - 1], ms[|ms| - 1];
      MetadataIsExact(stored, c, init);
      RocksKeepsRows(c, c, init);
      MetadataStep(stored, ApplyWrites(stored, AllMetadataWrites(stored, init)), c, RocksAll(c, c, init), last);
      ApplyWritesAppend(stored, stored, AllMetadataWrites(stored, init), MetadataWrites(stored, last));
    }
  }

  // ---------------------------------------------------------------- where the contract is met

  predicate IsAbout(m: MetadataMutation, d: string, t: string) {
    (m.PutTable? || m.DeleteTable?) && m.database == d && m.table == t
  }

  // The last word about a table, apart from deletions of its database, is a put.
  predicate IsLastPut(ms: seq<MetadataMutation>, i: nat, d: string, t: string) {
    && i < |ms| && ms[i].PutTable? && IsAbout(ms[i], d, t)
    && forall k :: i < k < |ms| ==> !IsAbout(ms[k], d, t)
  }

  // A table is put, and its database is deleted afterwards.
  ghost predicate LeftBehind(ms: seq<MetadataMutation>, d: string, t: string) {
    exists i: nat, j: nat :: IsLastPut(ms, i, d, t) && i < j < |ms| && ms[j] == DeleteDatabase(d)
  }

  lemma LastPutGrows(ms: seq<MetadataMutation>, m: MetadataMutation, i: nat, d: string, t: string)
    ensures i < |ms| ==> (IsLastPut(ms + [m], i, d, t) <==> IsLastPut(ms, i, d, t) && !IsAbout(m, d, t))
    ensures IsLastPut(ms + [m], |ms|, d, t) <==> m.PutTable? && IsAbout(m, d, t)
  {
    var all := ms + [m];
    if i < |ms| {
      assert all[i] == ms[i];
      if IsLastPut(all, i, d, t) {
        assert all[|ms|] == m;
        forall k | i < k < |ms| ensures !IsAbout(ms[k], d, t) { assert all[k] == ms[k]; }
      }
    }
  }

  lemma HasPutGrows(ms: seq<MetadataMutation>, m: MetadataMutation, d: string, t: string)
    ensures (exists i :: IsLastPut(ms + [m], i, d, t))
       <==> (m.PutTable? && IsAbout(m, d, t)) || (!IsAbout(m, d, t) && exists i :: IsLastPut(ms, i, d, t))
  {
    if i :| IsLastPut(ms + [m], i, d, t) {
      LastPutGrows(ms, m, i, d, t);
    }
    if i :| IsLastPut(ms, i, d, t) && !IsAbout(m, d, t) {
      LastPutGrows(ms, m, i, d, t);
      assert IsLastPut(ms + [m], i, d, t);
    }
    LastPutGrows(ms, m, |ms|, d, t);
  }

  lemma LeftBehindGrows(ms: seq<MetadataMutation>, m: MetadataMutation, d: string, t: string)
    ensures LeftBehind(ms + [m], d, t) <==>
      !IsAbout(m, d, t) && (LeftBehind(ms, d, t) || (m == DeleteDatabase(d) && exists i :: IsLastPut(ms, i, d, t)))
  {
    var all := ms + [m];
    if LeftBehind(all, d, t) {
      var i: nat, j: nat :| IsLastPut(all, i, d, t) && i < j < |all| && all[j] == DeleteDatabase(d);
      LastPutGrows(ms, m, i, d, t);
      if j < |ms| { assert ms[j] == DeleteDatabase(d); }
    }
    if !IsAbout(m, d, t) && LeftBehind(ms, d, t) {
      var i: nat, j: nat :| IsLastPut(ms, i, d, t) && i < j < |ms| && ms[j] == DeleteDatabase(d);
      LastPutGrows(ms, m, i, d, t);
      assert IsLastPut(all, i, d, t) && all[j] == DeleteDatabase(d);
    }
    if m == DeleteDatabase(d) {
      if i :| IsLastPut(ms, i, d, t) {
        LastPutGrows(ms, m, i, d, t);
        assert IsLastPut(all, i, d, t) && all[|ms|] == DeleteDatabase(d);
      }
    }
  }

  // A table the store did not list before the batch.
  lemma {:induction false} UnlistedTable(c: Contents, ms: seq<MetadataMutation>, d: string, t: string)
    requires (d, t) !in c.tables
    ensures At(RocksAll(c, c, ms), TablePlace(d, t)).Some? <==> exists i :: IsLastPut(ms, i, d, t)
    ensures At(ApplyAllMetadata(c, ms), TablePlace(d, t))
         == if LeftBehind(ms, d, t) then None else At(RocksAll(c, c, ms), TablePlace(d, t))
  {
    if ms != [] {
      var init, last, p := ms[..|ms| - 1], ms[|ms| - 1], TablePlace(d, t);
      InitAndLast(ms);
      UnlistedTable(c, init, d, t);
      HasPutGrows(init, last, d, t);
      LeftBehindGrows(init, last, d, t);
      RocksMetadataAt(c, RocksAll(c, c, init), last, p);
      MetadataAt(ApplyAllMetadata(c, init), last, p);
    }
  }

  // A listed table goes with its database as the contract says.
  lemma {:induction false} ListedTable(c: Contents, ms: seq<MetadataMutation>, p: Place)
    requires p.CatalogPlace? || (p.database, p.table) in c.tables
    ensures At(RocksAll(c, c, ms), p) == At(ApplyAllMetadata(c, ms), p)
  {
    if ms != [] {
      var init, last := ms[..|ms| - 1], ms[|ms| - 1];
      ListedTable(c, init, p);
      RocksMetadataAt(c, RocksAll(c, c, init), last, p);
      MetadataAt(ApplyAllMetadata(c, init), last, p);
    }
  }

  // A stored row without a stored table that only the deletion of its database would remove.
  predicate IsStranded(c: Contents, ms: seq<MetadataMutation>, n: RowName) {
    && n in c.rows && (n.0, n.1) !in c.tables
    && DeleteDatabase(n.0) in ms && DeleteTable(n.0, n.1) !in ms
  }

  lemma {:induction false} UnlistedRow(c: Contents, ms: seq<MetadataMutation>, p: Place)
    requires p.RowPlace? && (p.database, p.table) !in c.tables
    ensures At(RocksAll(c, c, ms), p) == if DeleteTable(p.database, p.table) in ms then None else At(c, p)
    ensures At(ApplyAllMetadata(c, ms), p)
         == if DeleteTable(p.database, p.table) in ms || DeleteDatabase(p.database) in ms then None else At(c, p)
  {
    if ms != [] {
      var init, last := ms[..|ms| - 1], ms[|ms| - 1];
      InitAndLast(ms);
      UnlistedRow(c, init, p);
      RocksMetadataAt(c, RocksAll(c, c, init), last, p);
      MetadataAt(ApplyAllMetadata(c, init), last, p);
    }
  }

  // The store and the contract agree about a place.
  ghost predicate AgreesOnMetadata(c: Contents, ms: seq<MetadataMutation>, p: Place) {
    match p
    case CatalogPlace => true
    case TablePlace(d, t) => LeftBehind(ms, d, t) ==> (d, t) in c.tables
    case RowPlace(d, t, k) => !IsStranded(c, ms, (d, t, k))
  }

  lemma SameAfterMetadata(c: Contents, ms: seq<MetadataMutation>, p: Place)
    ensures At(RocksAll(c, c, ms), p) == At(ApplyAllMetadata(c, ms), p) <==> AgreesOnMetadata(c, ms, p)
  {
    if p.CatalogPlace? || (p.database, p.table) in c.tables {
      ListedTable(c, ms, p);
    } else if p.TablePlace? {
      UnlistedTable(c, ms, p.database, p.table);
      if LeftBehind(ms, p.database, p.table) {
        var i: nat, j: nat :|
          IsLastPut(ms, i, p.database, p.table) && i < j < |ms| && ms[j] == DeleteDatabase(p.database);
      }
    } else {
      UnlistedRow(c, ms, p);
    }
  }

  // Two stores that hold different contents are different.
  lemma RepresentsOne(db: Db, a: Contents, b: Contents)
    requires Represents(db, a)
    ensures Represents(db, b) <==> forall p :: At(a, p) == At(b, p)
  {
    if Represents(db, b) {
      forall p ensures At(a, p) == At(b, p) { assert Get(db, PlaceKey(p)) == At(a, p); }
    }
  }

  // Where the metadata of a batch does what the contract says: exactly when every table that is
  // put and then goes with its database was listed before, and no row is stranded.
  lemma MetadataRefines(stored: Db, c: Contents, ms: seq<MetadataMutation>)
    requires Represents(stored, c)
    ensures Represents(ApplyWrites(stored, AllMetadataWrites(stored, ms)), ApplyAllMetadata(c, ms))
       <==> (forall d, t :: LeftBehind(ms, d, t) ==> (d, t) in c.tables) && forall n :: !IsStranded(c, ms, n)
  {
    var db := ApplyWrites(stored, AllMetadataWrites(stored, ms));
    var a, b := RocksAll(c, c, ms), ApplyAllMetadata(c, ms);
    MetadataIsExact(stored, c, ms);
    RepresentsOne(db, a, b);
    forall p ensures At(a, p) == At(b, p) <==> AgreesOnMetadata(c, ms, p) {
      SameAfterMetadata(c, ms, p);
    }
    if forall p :: At(a, p) == At(b, p) {
      forall d, t | LeftBehind(ms, d, t) ensures (d, t) in c.tables {
        assert At(a, TablePlace(d, t)) == At(b, TablePlace(d, t));
      }
      forall n: RowName ensures !IsStranded(c, ms, n) {
        assert At(a, RowPlace(n.0, n.1, n.2)) == At(b, RowPlace(n.0, n.1, n.2));
      }
    }
  }

  lemma {:induction false} RowsRefine(stored: Db, db: Db, c: Contents, ms: seq<RowMutation>)
    requires Represents(db, c)
    ensures Represents(ApplyWritesFrom(stored, db, AllRowWrites(ms)), ApplyAllRows(c, ms))
  {
    if ms != [] {
      var init, last := ms[..|ms| - 1], ms[|ms| - 1];
      RowsRefine(stored, db, c, init);
      RowStep(stored, ApplyWritesFrom(stored, db, AllRowWrites(init)), ApplyAllRows(c, init), last);
      ApplyWritesAppend(stored, db, AllRowWrites(init), [RowWrite(last)]);
    }
  }

  predicate IsOver(m: RowMutation, p: Place) {
    p == RowPlace(m.database, m.table, m.key)
  }

  lemma {:induction false} RowsOverwrite(a: Contents, b: Contents, ms: seq<RowMutation>, p: Place)
    ensures At(ApplyAllRows(a, ms), p) == At(ApplyAllRows(b, ms), p)
       <==> At(a, p) == At(b, p) || exists m :: m in ms && IsOver(m, p)
  {
    if ms != [] {
      var init, last := ms[..|ms| - 1], ms[|ms| - 1];
      RowsOverwrite(a, b, init, p);
      RowAt(ApplyAllRows(a, init), last, p);
      RowAt(ApplyAllRows(b, init), last, p);
      InitAndLast(ms);
      assert last in ms && forall m :: m in ms <==> m in init || m == last;
      if IsOver(last, p) { assert exists m :: m in ms && IsOver(m, p); }
    }
  }

  // What the store holds after any batch at all.
  lemma BatchIsExact(stored: Db, c: Contents, batch: StorageBatch)
    requires Represents(stored, c)
    ensures Represents(ApplyWrites(stored, BatchWrites(stored, batch)),
        ApplyAllRows(RocksAll(c, c, batch.metadata), batch.rows))
  {
    MetadataIsExact(stored, c, batch.metadata);
    RowsRefine(stored, ApplyWrites(stored, AllMetadataWrites(stored, batch.metadata)), RocksAll(c, c, batch.metadata),
        batch.rows);
    ApplyWritesAppend(stored, stored, AllMetadataWrites(stored, batch.metadata), AllRowWrites(batch.rows));
  }

  // The condition of BatchRefines: whatever the table list of a deleted database misses.
  ghost predicate MeetsContract(c: Contents, batch: StorageBatch) {
    && (forall d, t :: LeftBehind(batch.metadata, d, t) ==> (d, t) in c.tables)
    && (forall n: RowName :: IsStranded(c, batch.metadata, n)
          ==> exists m :: m in batch.rows && IsOver(m, RowPlace(n.0, n.1, n.2)))
  }

  ghost predicate AgreesOnBatch(c: Contents, batch: StorageBatch, p: Place) {
    match p
    case CatalogPlace => true
    case TablePlace(d, t) => LeftBehind(batch.metadata, d, t) ==> (d, t) in c.tables
    case RowPlace(d, t, k) => IsStranded(c, batch.metadata, (d, t, k)) ==> exists m :: m in batch.rows && IsOver(m, p)
  }

  lemma SameAfterBatch(c: Contents, batch: StorageBatch, p: Place)
    ensures At(ApplyAllRows(RocksAll(c, c, batch.metadata), batch.rows), p) == At(ApplyBatch(c, batch), p)
       <==> AgreesOnBatch(c, batch, p)
  {
    SameAfterMetadata(c, batch.metadata, p);
    RowsOverwrite(RocksAll(c, c, batch.metadata), ApplyAllMetadata(c, batch.metadata), batch.rows, p);
  }

  // The RocksDB writes of a batch do what apply_batch says, although the deletions read their
  // keys from the store as it was before the batch: for every batch and every store, if and
  // only if the batch leaves nothing behind that the table list misses.
  lemma BatchRefines(stored: Db, c: Contents, batch: StorageBatch)
    requires Represents(stored, c)
    ensures Represents(ApplyWrites(stored, BatchWrites(stored, batch)), ApplyBatch(c, batch))
       <==> MeetsContract(c, batch)
  {
    var db := ApplyWrites(stored, BatchWrites(stored, batch));
    var a, b := ApplyAllRows(RocksAll(c, c, batch.metadata), batch.rows), ApplyBatch(c, batch);
    BatchIsExact(stored, c, batch);
    RepresentsOne(db, a, b);
    forall p ensures At(a, p) == At(b, p) <==> AgreesOnBatch(c, batch, p) {
      SameAfterBatch(c, batch, p);
    }
    if forall p :: At(a, p) == At(b, p) {
      forall d, t | LeftBehind(batch.metadata, d, t) ensures (d, t) in c.tables {
        assert At(a, TablePlace(d, t)) == At(b, TablePlace(d, t));
      }
      forall n: RowName | IsStranded(c, batch.metadata, n)
        ensures exists m :: m in batch.rows && IsOver(m, RowPlace(n.0, n.1, n.2)) {
        assert At(a, RowPlace(n.0, n.1, n.2)) == At(b, RowPlace(n.0, n.1, n.2));
      }
    }
  }

  // No table is created in a database that the same batch deletes later.
  predicate DeletesBeforePuts(ms: seq<MetadataMutation>) {
    forall i, j :: 0 <= i < j < |ms| && ms[i].PutTable? && ms[j].DeleteDatabase? ==> ms[i].database != ms[j].database
  }

  lemma OrderedLeavesNothing(ms: seq<MetadataMutation>, d: string, t: string)
    requires DeletesBeforePuts(ms)
    ensures !LeftBehind(ms, d, t)
  {
  }

  // The batches of a diff, on the stores that they build.
  lemma OrderedBatchRefines(stored: Db, c: Contents, batch: StorageBatch)
    requires Represents(stored, c) && RowsHaveTables(c) && DeletesBeforePuts(batch.metadata)
    ensures Represents(ApplyWrites(stored, BatchWrites(stored, batch)), ApplyBatch(c, batch))
  {
    forall d, t ensures !LeftBehind(batch.metadata, d, t) { OrderedLeavesNothing(batch.metadata, d, t); }
    BatchRefines(stored, c, batch);
  }

  lemma PutThenDropLeaves(d: string, t: string, state: TableState, e: string, u: string)
    ensures LeftBehind([PutTable(d, t, state), DeleteDatabase(d)], e, u) <==> e == d && u == t
  {
    var ms := [PutTable(d, t, state), DeleteDatabase(d)];
    assert IsLastPut(ms, 0, d, t) && ms[1] == DeleteDatabase(d);
    if LeftBehind(ms, e, u) {
      var i: nat, j: nat :| IsLastPut(ms, i, e, u) && i < j < |ms| && ms[j] == DeleteDatabase(e);
      assert i == 0;
    }
  }

  // A table created and then deleted with its database in one batch survives in RocksDB exactly
  // when the store did not list it before.
  lemma CreatedThenDeletedSurvives(stored: Db, c: Contents, d: string, t: string, state: TableState)
    requires Represents(stored, c) && RowsHaveTables(c)
    ensures var batch := StorageBatch([PutTable(d, t, state), DeleteDatabase(d)], []);
            Represents(ApplyWrites(stored, BatchWrites(stored, batch)), ApplyBatch(c, batch)) <==> (d, t) in c.tables
  {
    BatchRefines(stored, c, StorageBatch([PutTable(d, t, state), DeleteDatabase(d)], []));
    forall e, u
      ensures LeftBehind([PutTable(d, t, state), DeleteDatabase(d)], e, u) <==> e == d && u == t {
      PutThenDropLeaves(d, t, state, e, u);
    }
  }

  // ---------------------------------------------------------------- the storage object

  class RocksDbStorage {
    const store: RocksDbStore<Text>

    constructor (store: RocksDbStore<Text>)
      ensures this.store == store
    {
      this.store := store;
    }

    method DropDatabase(d: string) returns (writes: seq<Write>)
      ensures writes == MetadataWrites(store.db, DeleteDatabase(d))
    {
      var hash := store.HGetAll(TABLES_KEY);
      var fields := SortedKeys(hash.Keys);
      writes := [];
      for i := 0 to |fields|
        invariant writes == DropListed(d, fields[..i])
      {
        PrefixGrows(fields, i);
        var name := DecodeTableKey(fields[i]);
        if name.Some? && name.value.0 == d {
          writes := writes + [HDel(TABLES_KEY, fields[i]), Del(RowsKey(d, name.value.1))];
        }
      }
      assert fields[..|fields|] == fields;
    }

    method MetadataToWrites(m: MetadataMutation) returns (writes: seq<Write>)
      ensures writes == MetadataWrites(store.db, m)
    {
      match m
      case PutCatalog(catalog) => writes := [HSet(CATALOG_KEY, CATALOG_FIELD, CatalogText(catalog))];
      case DeleteDatabase(d) => writes := DropDatabase(d);
      case PutTable(d, t, state) => writes := [HSet(TABLES_KEY, EncodeTableKey(d, t), TableText(state))];
      case DeleteTable(d, t) => writes := [HDel(TABLES_KEY, EncodeTableKey(d, t)), Del(RowsKey(d, t))];
    }

    method RocksWrites(batch: StorageBatch) returns (writes: seq<Write>)
      ensures writes == BatchWrites(store.db, batch)
    {
      writes := [];
      for i := 0 to |batch.metadata|
        invariant writes == AllMetadataWrites(store.db, batch.metadata[..i])
      {
        assert batch.metadata[..i + 1][..i] == batch.metadata[..i];
        var more := MetadataToWrites(batch.metadata[i]);
        writes := writes + more;
      }
      assert batch.metadata[..|batch.metadata|] == batch.metadata;
      var rowWrites: seq<Write> := [];
      for i := 0 to |batch.rows|
        invariant rowWrites == AllRowWrites(batch.rows[..i])
      {
        assert batch.rows[..i + 1][..i] == batch.rows[..i];
        rowWrites := rowWrites + [RowWrite(batch.rows[i])];
      }
      assert batch.rows[..|batch.rows|] == batch.rows;
      writes := writes + rowWrites;
    }

    method Commit(batch: StorageBatch)
      modifies store
      ensures store.db == ApplyWrites(old(store.db), BatchWrites(old(store.db), batch))
    {
      if batch.IsEmpty() {
        return;
      }
      var writes := RocksWrites(batch);
      store.WriteBatch(writes);
    }
  }
}
