/** The order of a diff: nothing is named twice, and which mutations there are and this order are all
    there is to know about the batch that `storage_batch` builds and the engine commits. */
module DeltaOrder {
  import opened Wrappers
  import opened Ordering
  import opened Batches
  import opened Delta

  // ---------------------------------------------------------------- sorted lists

  // Where a mutation stands in its list.
  datatype Rank = Rank(group: nat, database: string, table: string, kind: nat, key: string)

  predicate Precedes(a: Rank, b: Rank) {
    || a.group < b.group
    || (a.group == b.group && (
          || Less(a.database, b.database)
          || (a.database == b.database && (
                || Less(a.table, b.table)
                || (a.table == b.table && (a.kind < b.kind || (a.kind == b.kind && Less(a.key, b.key))))))))
  }

  ghost predicate Sorted<T>(rank: T -> Rank, s: seq<T>) {
    forall i, j :: 0 <= i < j < |s| ==> Precedes(rank(s[i]), rank(s[j]))
  }

  ghost predicate AllPrecede<T(!new)>(rank: T -> Rank, a: seq<T>, b: seq<T>) {
    forall x, y :: x in a && y in b ==> Precedes(rank(x), rank(y))
  }

  lemma Joined<T(!new)>(rank: T -> Rank, a: seq<T>, b: seq<T>)
    requires Sorted(rank, a) && Sorted(rank, b) && AllPrecede(rank, a, b)
    ensures Sorted(rank, a + b)
  {
    var s := a + b;
    forall i, j | 0 <= i < j < |s| ensures Precedes(rank(s[i]), rank(s[j])) {
      if i < |a| && j >= |a| { assert s[i] in a && s[j] in b; }
    }
  }

  lemma NotBack(a: Rank, b: Rank)
    requires Precedes(a, b)
    ensures a != b && !Precedes(b, a)
  {
    LessGoesOneWay(a.database, b.database);
    LessGoesOneWay(a.table, b.table);
    LessGoesOneWay(a.key, b.key);
  }

  lemma SameFirst<T(!new)>(rank: T -> Rank, a: seq<T>, b: seq<T>)
    requires Sorted(rank, a) && Sorted(rank, b) && a != [] && b != []
    requires a[0] in b && b[0] in a
    ensures a[0] == b[0]
  {
    var j :| 0 <= j < |b| && b[j] == a[0];
    var i :| 0 <= i < |a| && a[i] == b[0];
    if i > 0 && j > 0 { NotBack(rank(a[0]), rank(b[0])); }
  }

  lemma BehindFirst<T(!new)>(rank: T -> Rank, a: seq<T>, x: T)
    requires Sorted(rank, a) && a != []
    ensures x in a[1..] <==> x in a && x != a[0]
  {
    if x in a[1..] {
      var i :| 0 <= i < |a[1..]| && a[1..][i] == x;
      NotBack(rank(a[0]), rank(a[i + 1]));
    }
  }

  lemma FirstIsIn<T>(a: seq<T>)
    ensures a != [] ==> a[0] in a
  {
  }

  // Sorted lists with the same elements are equal.
  lemma {:induction false} SortedIsDetermined<T(!new)>(rank: T -> Rank, a: seq<T>, b: seq<T>)
    requires Sorted(rank, a) && Sorted(rank, b) && forall x :: x in a <==> x in b
    ensures a == b
    decreases |a|
  {
    FirstIsIn(a);
    FirstIsIn(b);
    if a != [] {
      SameFirst(rank, a, b);
      forall x ensures x in a[1..] <==> x in b[1..] {
        BehindFirst(rank, a, x);
        BehindFirst(rank, b, x);
      }
      SortedIsDetermined(rank, a[1..], b[1..]);
      assert a == [a[0]] + a[1..] && b == [b[0]] + b[1..];
    }
  }

  // ---------------------------------------------------------------- the metadata list

  // The catalog, then each dropped database and its tables, then the tables that change.
  function MetadataRank(after: EngineState, m: MetadataMutation): Rank {
    match m
    case PutCatalog(_) => Rank(0, "", "", 0, "")
    case DeleteDatabase(d) => Rank(1, d, "", 0, "")
    case DeleteTable(d, t) => if d in after.databases then Rank(2, d, t, 0, "") else Rank(1, d, t, 1, "")
    case PutTable(d, t, _) => Rank(2, d, t, 0, "")
  }

  function ByMetadata(after: EngineState): MetadataMutation -> Rank {
    (m: MetadataMutation) => MetadataRank(after, m)
  }

  lemma EmptyLeft(t: string)
    ensures t == "" || Less("", t)
  {
  }

  lemma TablesSorted(after: EngineState, d: string, tables: seq<string>)
    requires d !in after.databases && StrictlySorted(tables)
    ensures Sorted(ByMetadata(after), DeleteTables(d, tables))
  {
  }

  lemma DroppedDatabaseSorted(before: EngineState, after: EngineState, d: string)
    requires d in before.databases
    ensures Sorted(ByMetadata(after), DroppedDatabase(before, after, d))
  {
    if d !in after.databases {
      var tables := SortedKeys(before.databases[d].schemas.Keys);
      SortedKeysSorted(before.databases[d].schemas.Keys);
      TablesSorted(after, d, tables);
      forall m | m in DeleteTables(d, tables)
        ensures Precedes(MetadataRank(after, DeleteDatabase(d)), MetadataRank(after, m))
      {
        EmptyLeft(m.table);
      }
      Joined(ByMetadata(after), [DeleteDatabase(d)], DeleteTables(d, tables));
    }
  }

  lemma InitIsBefore(names: seq<string>)
    requires names != [] && StrictlySorted(names)
    ensures StrictlySorted(names[..|names| - 1])
    ensures forall d :: d in names[..|names| - 1] ==> Less(d, names[|names| - 1]) && d in names
    ensures names[|names| - 1] in names
  {
  }

  lemma DropsByName(before: EngineState, after: EngineState, x: MetadataMutation, y: MetadataMutation)
    requires DropNeeded(before, after, x) && DropNeeded(before, after, y) && Less(x.database, y.database)
    ensures Precedes(MetadataRank(after, x), MetadataRank(after, y))
  {
  }

  lemma DroppedHasName(before: EngineState, after: EngineState, names: seq<string>, last: string, x: MetadataMutation)
    requires (forall d :: d in names ==> d in before.databases && Less(d, last)) && x in Dropped(before, after, names)
    ensures DropNeeded(before, after, x) && Less(x.database, last)
  {
    DroppedHas(before, after, names, x);
  }

  lemma DroppedInOrder(before: EngineState, after: EngineState, names: seq<string>, last: string)
    requires (forall d :: d in names ==> d in before.databases && Less(d, last)) && last in before.databases
    ensures AllPrecede(ByMetadata(after), Dropped(before, after, names), DroppedDatabase(before, after, last))
  {
    forall x, y | x in Dropped(before, after, names) && y in DroppedDatabase(before, after, last)
      ensures Precedes(MetadataRank(after, x), MetadataRank(after, y))
    {
      DroppedHasName(before, after, names, last, x);
      DroppedDatabaseHas(before, after, last, y);
      DropsByName(before, after, x, y);
    }
  }

  lemma {:induction false} DroppedSorted(before: EngineState, after: EngineState, names: seq<string>)
    requires StrictlySorted(names) && forall d :: d in names ==> d in before.databases
    ensures Sorted(ByMetadata(after), Dropped(before, after, names))
  {
    if names != [] {
      var init, last := names[..|names| - 1], names[|names| - 1];
      InitIsBefore(names);
      DroppedSorted(before, after, init);
      DroppedDatabaseSorted(before, after, last);
      DroppedInOrder(before, after, init, last);
      Joined(ByMetadata(after), Dropped(before, after, init), DroppedDatabase(before, after, last));
    }
  }

  predicate AreMentioned(before: EngineState, after: EngineState, d: string, tables: seq<string>) {
    d in after.databases && forall t :: t in tables ==> Mentions(before, d, t) || Mentions(after, d, t)
  }

  lemma {:induction false} TablesMetadataSorted(before: EngineState, after: EngineState, d: string,
      tables: seq<string>)
    requires StrictlySorted(tables) && AreMentioned(before, after, d, tables)
    ensures Sorted(ByMetadata(after), MetadataOfTables(before, after, d, tables))
  {
    if tables != [] {
      var init, last := tables[..|tables| - 1], tables[|tables| - 1];
      InitIsBefore(tables);
      TablesMetadataSorted(before, after, d, init);
      forall x, y | x in MetadataOfTables(before, after, d, init) && y in TableChange(before, after, d, last)
        ensures Precedes(MetadataRank(after, x), MetadataRank(after, y))
      {
        MetadataOfTablesHas(before, after, d, init, x);
        TableChangeHas(before, after, d, last, y);
      }
      Joined(ByMetadata(after), MetadataOfTables(before, after, d, init), TableChange(before, after, d, last));
    }
  }

  lemma TablesOfSorted(before: EngineState, after: EngineState, d: string)
    ensures StrictlySorted(TablesOf(before, after, d))
  {
    SortedKeysSorted(
      (if d in before.databases then before.databases[d].schemas.Keys + before.databases[d].rows.Keys else {})
      + (if d in after.databases then after.databases[d].schemas.Keys + after.databases[d].rows.Keys else {}));
  }

  lemma {:induction false} DatabasesMetadataSorted(before: EngineState, after: EngineState, names: seq<string>)
    requires StrictlySorted(names) && forall d :: d in names ==> d in after.databases
    ensures Sorted(ByMetadata(after), MetadataOfDatabases(before, after, names))
  {
    if names != [] {
      var init, last := names[..|names| - 1], names[|names| - 1];
      var tables := TablesOf(before, after, last);
      InitIsBefore(names);
      DatabasesMetadataSorted(before, after, init);
      TablesOfSorted(before, after, last);
      TablesMetadataSorted(before, after, last, tables);
      forall x, y | x in MetadataOfDatabases(before, after, init) && y in MetadataOfTables(before, after, last, tables)
        ensures Precedes(MetadataRank(after, x), MetadataRank(after, y))
      {
        MetadataOfDatabasesHas(before, after, init, x);
        MetadataOfTablesHas(before, after, last, tables, y);
      }
      Joined(ByMetadata(after), MetadataOfDatabases(before, after, init),
        MetadataOfTables(before, after, last, tables));
    }
  }

  // What a diff holds besides the catalog.
  function Changes(before: EngineState, after: EngineState): seq<MetadataMutation> {
    Dropped(before, after, SortedKeys(before.databases.Keys))
    + MetadataOfDatabases(before, after, SortedKeys(after.databases.Keys))
  }

  lemma ChangesHave(before: EngineState, after: EngineState, m: MetadataMutation)
    ensures m in Changes(before, after) <==> DropNeeded(before, after, m) || ChangeNeeded(before, after, m)
  {
    DroppedHas(before, after, SortedKeys(before.databases.Keys), m);
    MetadataOfDatabasesHas(before, after, SortedKeys(after.databases.Keys), m);
  }

  lemma DropComesFirst(before: EngineState, after: EngineState, x: MetadataMutation, y: MetadataMutation)
    requires DropNeeded(before, after, x) && ChangeNeeded(before, after, y)
    ensures Precedes(MetadataRank(after, x), MetadataRank(after, y))
  {
  }

  lemma DropsComeFirst(before: EngineState, after: EngineState, a: seq<string>, b: seq<string>)
    requires forall d :: d in a ==> d in before.databases
    requires forall d :: d in b ==> d in after.databases
    ensures AllPrecede(ByMetadata(after), Dropped(before, after, a), MetadataOfDatabases(before, after, b))
  {
    forall x, y | x in Dropped(before, after, a) && y in MetadataOfDatabases(before, after, b)
      ensures Precedes(MetadataRank(after, x), MetadataRank(after, y))
    {
      DroppedHas(before, after, a, x);
      MetadataOfDatabasesHas(before, after, b, y);
      DropComesFirst(before, after, x, y);
    }
  }

  lemma ChangesSorted(before: EngineState, after: EngineState)
    ensures Sorted(ByMetadata(after), Changes(before, after))
  {
    var a, b := SortedKeys(before.databases.Keys), SortedKeys(after.databases.Keys);
    SortedKeysSorted(before.databases.Keys);
    SortedKeysSorted(after.databases.Keys);
    DroppedSorted(before, after, a);
    DatabasesMetadataSorted(before, after, b);
    DropsComeFirst(before, after, a, b);
    Joined(ByMetadata(after), Dropped(before, after, a), MetadataOfDatabases(before, after, b));
  }

  lemma CatalogComesFirst(before: EngineState, after: EngineState, c: StorageCatalog, m: MetadataMutation)
    requires m in Changes(before, after)
    ensures Precedes(MetadataRank(after, PutCatalog(c)), MetadataRank(after, m))
  {
    ChangesHave(before, after, m);
  }

  lemma WithCatalogSorted(before: EngineState, after: EngineState, c: StorageCatalog)
    ensures Sorted(ByMetadata(after), [PutCatalog(c)] + Changes(before, after))
  {
    ChangesSorted(before, after);
    forall m | m in Changes(before, after) { CatalogComesFirst(before, after, c, m); }
    Joined(ByMetadata(after), [PutCatalog(c)], Changes(before, after));
  }

  lemma DiffMetadata(before: EngineState, after: EngineState)
    ensures Diff(before, after).metadata == CatalogChange(before, after) + Changes(before, after)
  {
    Shift(CatalogChange(before, after), Dropped(before, after, SortedKeys(before.databases.Keys)),
      MetadataOfDatabases(before, after, SortedKeys(after.databases.Keys)));
  }

  // ---------------------------------------------------------------- the row list

  // Table by table: the rows that go, then the rows that come or change, each by key.
  function RowRank(m: RowMutation): Rank {
    Rank(0, m.database, m.table, if m.Delete? then 0 else 1, m.key)
  }

  lemma {:induction false} DeletionsSorted(after: EngineState, d: string, t: string, keys: seq<string>)
    requires StrictlySorted(keys)
    ensures Sorted(RowRank, Deletions(after, d, t, keys))
  {
    if keys != [] {
      var init, last := keys[..|keys| - 1], keys[|keys| - 1];
      InitIsBefore(keys);
      DeletionsSorted(after, d, t, init);
      if RowOf(after, d, t, last).None? {
        forall x | x in Deletions(after, d, t, init) ensures Precedes(RowRank(x), RowRank(Delete(d, t, last))) {
          DeletionsHas(after, d, t, init, x);
        }
        Joined(RowRank, Deletions(after, d, t, init), [Delete(d, t, last)]);
      }
    }
  }

  lemma {:induction false} WritingsSorted(before: EngineState, after: EngineState, d: string, t: string,
      keys: seq<string>)
    requires StrictlySorted(keys) && forall k :: k in keys ==> RowOf(after, d, t, k).Some?
    ensures Sorted(RowRank, Writings(before, after, d, t, keys))
  {
    if keys != [] {
      var init, last := keys[..|keys| - 1], keys[|keys| - 1];
      InitIsBefore(keys);
      WritingsSorted(before, after, d, t, init);
      var row := RowOf(after, d, t, last).value;
      if RowOf(before, d, t, last) != Some(row) {
        forall x | x in Writings(before, after, d, t, init)
          ensures Precedes(RowRank(x), RowRank(Put(d, t, last, row)))
        {
          WritingsHas(before, after, d, t, init, x);
        }
        Joined(RowRank, Writings(before, after, d, t, init), [Put(d, t, last, row)]);
      }
    }
  }

  lemma RowKeysSorted(state: EngineState, d: string, t: string)
    ensures StrictlySorted(RowKeys(state, d, t))
  {
    if d in state.databases && t in state.databases[d].rows { SortedKeysSorted(state.databases[d].rows[t].Keys); }
  }

  lemma RowChangesSorted(before: EngineState, after: EngineState, d: string, t: string)
    ensures Sorted(RowRank, RowChanges(before, after, d, t))
  {
    var gone, kept := RowKeys(before, d, t), RowKeys(after, d, t);
    RowKeysSorted(before, d, t);
    RowKeysSorted(after, d, t);
    DeletionsSorted(after, d, t, gone);
    WritingsSorted(before, after, d, t, kept);
    forall x, y | x in Deletions(after, d, t, gone) && y in Writings(before, after, d, t, kept)
      ensures Precedes(RowRank(x), RowRank(y))
    {
      DeletionsHas(after, d, t, gone, x);
      WritingsHas(before, after, d, t, kept, y);
    }
    Joined(RowRank, Deletions(after, d, t, gone), Writings(before, after, d, t, kept));
  }

  lemma {:induction false} TablesRowsSorted(before: EngineState, after: EngineState, d: string, tables: seq<string>)
    requires StrictlySorted(tables) && d in after.databases
    ensures Sorted(RowRank, RowsOfTables(before, after, d, tables))
  {
    if tables != [] {
      var init, last := tables[..|tables| - 1], tables[|tables| - 1];
      InitIsBefore(tables);
      TablesRowsSorted(before, after, d, init);
      RowChangesSorted(before, after, d, last);
      forall x, y | x in RowsOfTables(before, after, d, init) && y in RowChanges(before, after, d, last)
        ensures Precedes(RowRank(x), RowRank(y))
      {
        RowsOfTablesHas(before, after, d, init, x);
        RowChangesHas(before, after, d, last, y);
      }
      Joined(RowRank, RowsOfTables(before, after, d, init), RowChanges(before, after, d, last));
    }
  }

  lemma {:induction false} DatabasesRowsSorted(before: EngineState, after: EngineState, names: seq<string>)
    requires StrictlySorted(names) && forall d :: d in names ==> d in after.databases
    ensures Sorted(RowRank, RowsOfDatabases(before, after, names))
  {
    if names != [] {
      var init, last := names[..|names| - 1], names[|names| - 1];
      var tables := TablesOf(before, after, last);
      InitIsBefore(names);
      DatabasesRowsSorted(before, after, init);
      TablesOfSorted(before, after, last);
      TablesRowsSorted(before, after, last, tables);
      forall x, y | x in RowsOfDatabases(before, after, init) && y in RowsOfTables(before, after, last, tables)
        ensures Precedes(RowRank(x), RowRank(y))
      {
        RowsOfDatabasesHas(before, after, init, x);
        RowsOfTablesHas(before, after, last, tables, y);
      }
      Joined(RowRank, RowsOfDatabases(before, after, init), RowsOfTables(before, after, last, tables));
    }
  }

  // ---------------------------------------------------------------- the batch is determined

  ghost predicate IsOrdered(after: EngineState, batch: StorageBatch) {
    Sorted(ByMetadata(after), batch.metadata) && Sorted(RowRank, batch.rows)
  }

  lemma DiffIsOrdered(before: EngineState, after: EngineState)
    ensures IsOrdered(after, Diff(before, after))
  {
    DiffMetadata(before, after);
    ChangesSorted(before, after);
    WithCatalogSorted(before, after, StorageCatalogOf(after));
    assert [] + Changes(before, after) == Changes(before, after);
    SortedKeysSorted(after.databases.Keys);
    DatabasesRowsSorted(before, after, SortedKeys(after.databases.Keys));
  }

  // A batch is the diff exactly when it holds the needed mutations, each once and in this order.
  lemma DiffIsDetermined(before: EngineState, after: EngineState, batch: StorageBatch)
    ensures batch == Diff(before, after) <==> IsDiff(before, after, batch) && IsOrdered(after, batch)
  {
    DiffIsExact(before, after);
    DiffIsOrdered(before, after);
    if IsDiff(before, after, batch) && IsOrdered(after, batch) {
      SortedIsDetermined(ByMetadata(after), batch.metadata, Diff(before, after).metadata);
      SortedIsDetermined(RowRank, batch.rows, Diff(before, after).rows);
    }
  }

  // What the engine commits: the catalog first, whether it changed or not, then the changes of the diff;
  // as the list is ordered, the catalog is put once.
  ghost predicate IsCommit(before: EngineState, after: EngineState, batch: StorageBatch) {
    && IsOrdered(after, batch)
    && (forall m :: m in batch.metadata <==>
          || m == PutCatalog(StorageCatalogOf(after)) || DropNeeded(before, after, m) || ChangeNeeded(before, after, m))
    && (forall m :: m in batch.rows <==> RowNeeded(before, after, m))
  }

  lemma CatalogIsKept(batch: StorageBatch, after: EngineState, c: StorageCatalog, ms: seq<MetadataMutation>)
    requires batch.metadata == [PutCatalog(c)] + ms
    ensures CommitBatch(batch, after) == batch
  {
    assert batch.metadata[0].PutCatalog? && batch.metadata[0] in batch.metadata;
  }

  lemma CatalogIsAdded(batch: StorageBatch, after: EngineState)
    requires forall m :: m in batch.metadata ==> !m.PutCatalog?
    ensures CommitBatch(batch, after).metadata == [PutCatalog(StorageCatalogOf(after))] + batch.metadata
  {
  }

  lemma ChangesHaveNoCatalog(before: EngineState, after: EngineState)
    ensures forall m :: m in Changes(before, after) ==> !m.PutCatalog?
  {
    forall m | m in Changes(before, after) ensures !m.PutCatalog? { ChangesHave(before, after, m); }
  }

  lemma CommitMetadata(before: EngineState, after: EngineState)
    ensures CommitBatch(Diff(before, after), after).metadata
         == [PutCatalog(StorageCatalogOf(after))] + Changes(before, after)
  {
    var diff, changes := Diff(before, after), Changes(before, after);
    DiffMetadata(before, after);
    if StorageCatalogOf(before) != StorageCatalogOf(after) {
      CatalogIsKept(diff, after, StorageCatalogOf(after), changes);
    } else {
      assert diff.metadata == [] + changes == changes;
      ChangesHaveNoCatalog(before, after);
      CatalogIsAdded(diff, after);
    }
  }

  lemma CommitHas(before: EngineState, after: EngineState, m: MetadataMutation)
    ensures m in CommitBatch(Diff(before, after), after).metadata <==>
      || m == PutCatalog(StorageCatalogOf(after)) || DropNeeded(before, after, m) || ChangeNeeded(before, after, m)
  {
    CommitMetadata(before, after);
    ChangesHave(before, after, m);
  }

  lemma CommitIsCommit(before: EngineState, after: EngineState)
    ensures IsCommit(before, after, CommitBatch(Diff(before, after), after))
  {
    CommitMetadata(before, after);
    WithCatalogSorted(before, after, StorageCatalogOf(after));
    DiffIsExact(before, after);
    DiffIsOrdered(before, after);
    forall m { CommitHas(before, after, m); }
  }

  lemma CommitIsUnique(before: EngineState, after: EngineState, a: StorageBatch, b: StorageBatch)
    requires IsCommit(before, after, a) && IsCommit(before, after, b)
    ensures a == b
  {
    SortedIsDetermined(ByMetadata(after), a.metadata, b.metadata);
    SortedIsDetermined(RowRank, a.rows, b.rows);
  }

  lemma CommitIsDetermined(before: EngineState, after: EngineState, batch: StorageBatch)
    ensures batch == CommitBatch(Diff(before, after), after) <==> IsCommit(before, after, batch)
  {
    CommitIsCommit(before, after);
    if IsCommit(before, after, batch) {
      CommitIsUnique(before, after, batch, CommitBatch(Diff(before, after), after));
    }
  }
}
