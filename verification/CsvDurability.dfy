/** Durability of the CSV backend: every run of commits, with a crash or a restart at any file step,
    ends in a directory from which the last committed state is loaded in full. */
module CsvDurability {
  import opened Wrappers
  import opened Ordering
  import opened Batches
  import opened Delta
  import opened Paging
  import opened Csv
  import opened Generations
  import D = Durability

  // ---------------------------------------------------------------- what a loaded generation holds

  function ItemIn(s: CsvState, p: Place): Option<Text> {
    match p
    case CatalogPlace => if s.catalog.Some? then Some(CatalogText(s.catalog.value)) else None
    case TablePlace(d, t) => if d in s.tables && t in s.tables[d] then Some(TableText(s.tables[d][t])) else None
    case RowPlace(d, t, k) =>
      if d in s.rows && t in s.rows[d] && k in s.rows[d][t] then Some(RowText(s.rows[d][t][k])) else None
  }

  ghost predicate Holds(s: CsvState, c: Contents) {
    forall p :: ItemIn(s, p) == At(c, p)
  }

  // The nested maps of some contents.
  function Nested(c: Contents): CsvState {
    CsvState(c.catalog, map d | d in (set n | n in c.tables :: n.0) :: TablesIn(c, d),
      map d | d in (set n | n in c.rows :: n.0) :: RowsByTable(c, d))
  }

  function TablesIn(c: Contents, d: string): map<string, TableState> {
    map n | n in c.tables && n.0 == d :: n.1 := c.tables[n]
  }

  function RowsByTable(c: Contents, d: string): map<string, map<string, StoredRow>> {
    map t | t in (set n | n in c.rows && n.0 == d :: n.1) :: D.RowsIn(c, d, t)
  }

  lemma NestedTable(c: Contents, d: string, t: string)
    ensures ItemIn(Nested(c), TablePlace(d, t)) == At(c, TablePlace(d, t))
  {
    if (d, t) in c.tables {
      assert (d, t).0 == d && (d, t).1 == t;
      assert d in Nested(c).tables && t in TablesIn(c, d);
    }
  }

  lemma NestedRow(c: Contents, d: string, t: string, k: string)
    ensures ItemIn(Nested(c), RowPlace(d, t, k)) == At(c, RowPlace(d, t, k))
  {
    D.RowIn(c, d, t, k);
    if (d, t, k) in c.rows {
      assert (d, t, k).0 == d && (d, t, k).1 == t;
      assert d in Nested(c).rows && t in RowsByTable(c, d);
    }
  }

  // Whatever a batch makes of the contents, there are nested maps that hold it, and nested maps hold the
  // contents of one store only.
  lemma EveryContentsIsHeld(c: Contents)
    ensures Holds(Nested(c), c)
  {
    forall p ensures ItemIn(Nested(c), p) == At(c, p) {
      if p.TablePlace? { NestedTable(c, p.database, p.table); }
      if p.RowPlace? { NestedRow(c, p.database, p.table, p.key); }
    }
  }

  lemma HeldContentsAreUnique(s: CsvState, a: Contents, b: Contents)
    requires Holds(s, a) && Holds(s, b)
    ensures a == b
  {
    forall p ensures At(a, p) == At(b, p) { assert ItemIn(s, p) == At(a, p) == At(b, p); }
    ContentsByPlace(a, b);
  }

  // A generation keeps the rows of the tables it lists.
  lemma StoredHolds(s: CsvState, c: Contents)
    requires Holds(s, c) && RowsHaveTables(c)
    ensures Holds(Stored(s), c)
  {
    forall p ensures ItemIn(Stored(s), p) == At(c, p) {
      assert ItemIn(s, p) == At(c, p);
      if p.RowPlace? {
        assert ItemIn(s, TablePlace(p.database, p.table)) == At(c, TablePlace(p.database, p.table));
      }
    }
  }

  // ---------------------------------------------------------------- reloading

  // The rows of one table, page by page.
  method LoadRows(s: CsvState, d: string, t: string, ghost c: Contents) returns (rows: map<string, StoredRow>)
    requires Holds(s, c)
    ensures rows == D.RowsIn(c, d, t)
  {
    var stored := RowsOf(s, d, t);
    RowsHeld(s, c, d, t);
    var advanced;
    rows, advanced := ReadAllPages(stored, D.STORAGE_PAGE_SIZE);
  }

  lemma RowsHeld(s: CsvState, c: Contents, d: string, t: string)
    requires Holds(s, c)
    ensures RowsOf(s, d, t) == D.RowsIn(c, d, t)
  {
    forall k ensures Get(RowsOf(s, d, t), k) == Get(D.RowsIn(c, d, t), k) {
      assert ItemIn(s, RowPlace(d, t, k)) == At(c, RowPlace(d, t, k));
      D.RowIn(c, d, t, k);
    }
    SameMap(RowsOf(s, d, t), D.RowsIn(c, d, t));
  }

  function ReloadedRows(c: Contents, d: string): map<string, map<string, StoredRow>> {
    map n | n in c.tables && n.0 == d :: n.1 := D.RowsIn(c, d, n.1)
  }

  function ReloadedDatabase(c: Contents, d: string, metadata: DatabaseMetadata, now: string): Snapshot {
    Snapshot(1, now, D.SchemasIn(c, d), ReloadedRows(c, d), D.AutoIncIn(c, d), metadata.views, metadata.indexComments)
  }

  // What load_state builds over this backend: the pager is complete, so every table has all its rows.
  function Reload(c: Contents, clock: string -> string): Result<Option<EngineState>, D.LoadError> {
    match c.catalog
    case None => Ok(None)
    case Some(catalog) =>
      if catalog.version != 1 then Err(D.UnsupportedVersion(catalog.version))
      else Ok(Some(EngineState(1, catalog.metadata, ReloadedDatabases(c, catalog, clock))))
  }

  function ReloadedDatabases(c: Contents, catalog: StorageCatalog, clock: string -> string): map<string, Snapshot> {
    map d | d in catalog.databases :: ReloadedDatabase(c, d, catalog.databases[d], clock(d))
  }

  lemma RowsRestored(c: Contents, state: EngineState, d: string, now: string)
    requires Persists(c, state) && WellFormed(state) && d in state.databases
    ensures ReloadedRows(c, d) == D.RestoredDatabase(state.databases[d], now).rows
  {
    var reloaded, restored := ReloadedRows(c, d), D.RestoredDatabase(state.databases[d], now).rows;
    forall t ensures t in reloaded <==> t in restored
             ensures t in restored ==> reloaded[t] == restored[t]
    {
      D.TableIn(c, d, t);
      D.TablesOfState(c, state, d);
      D.RowsOfState(c, state, d, t);
    }
    assert reloaded.Keys == restored.Keys;
  }

  lemma DatabaseRestored(c: Contents, state: EngineState, d: string, now: string)
    requires Persists(c, state) && WellFormed(state) && d in state.databases
    ensures ReloadedDatabase(c, d, StorageCatalogOf(state).databases[d], now)
         == D.RestoredDatabase(state.databases[d], now)
  {
    D.TablesOfState(c, state, d);
    RowsRestored(c, state, d, now);
  }

  // The two kinds of backends answer the same to a catalog that is missing or of another version.
  lemma ReloadsAnswerAlike(c: Contents, clock: string -> string)
    ensures Reload(c, clock).Err? || Reload(c, clock) == Ok(None) ==> D.Reload(c, clock) == Reload(c, clock)
    ensures D.Reload(c, clock).Err? || D.Reload(c, clock) == Ok(None) ==> D.Reload(c, clock) == Reload(c, clock)
  {
  }

  lemma CatalogHeld(c: Contents, state: EngineState)
    requires Persists(c, state)
    ensures c.catalog == Some(StorageCatalogOf(state))
  {
    assert At(c, CatalogPlace) == PersistedAt(state, CatalogPlace);
  }

  lemma DatabasesRestored(c: Contents, state: EngineState, clock: string -> string)
    requires Persists(c, state) && WellFormed(state)
    ensures ReloadedDatabases(c, StorageCatalogOf(state), clock) == D.Restored(state, clock).databases
  {
    var reloaded := ReloadedDatabases(c, StorageCatalogOf(state), clock);
    var restored := D.Restored(state, clock).databases;
    forall d | d in restored ensures reloaded[d] == restored[d] { DatabaseRestored(c, state, d, clock(d)); }
  }

  // A reload over the file backends restores every well-formed state, whatever its keys.
  lemma ReloadRestores(c: Contents, state: EngineState, clock: string -> string)
    requires Persists(c, state) && WellFormed(state)
    ensures Reload(c, clock) == Ok(Some(D.Restored(state, clock)))
  {
    CatalogHeld(c, state);
    DatabasesRestored(c, state, clock);
  }

  lemma SameCatalog(state: EngineState, clock: string -> string)
    ensures StorageCatalogOf(D.Restored(state, clock)) == StorageCatalogOf(state)
  {
  }

  lemma SameTable(state: EngineState, clock: string -> string, d: string, t: string)
    ensures TableOf(D.Restored(state, clock), d, t) == TableOf(state, d, t)
  {
  }

  lemma SameRow(state: EngineState, clock: string -> string, d: string, t: string, k: string)
    requires WellFormed(state)
    ensures RowOf(D.Restored(state, clock), d, t, k) == RowOf(state, d, t, k)
  {
  }

  // A restored state has the same persisted form.
  lemma RestoredPersists(c: Contents, state: EngineState, clock: string -> string)
    requires Persists(c, state) && WellFormed(state)
    ensures Persists(c, D.Restored(state, clock)) && WellFormed(D.Restored(state, clock))
  {
    forall p ensures At(c, p) == PersistedAt(D.Restored(state, clock), p) {
      assert At(c, p) == PersistedAt(state, p);
      match p
      case CatalogPlace => SameCatalog(state, clock);
      case TablePlace(d, t) => SameTable(state, clock, d, t);
      case RowPlace(d, t, k) => SameRow(state, clock, d, t, k);
    }
  }

  // ---------------------------------------------------------------- one commit, with a crash

  // The root on disk, what the backend has in memory, the engine's state, and what a client was last
  // told is committed; `contents` is what root and memory stand for.
  datatype Machine = Machine(
    root: Root, memory: CsvState, engine: EngineState, committed: Option<EngineState>, contents: Contents)

  // One attempt to commit: the engine's next state, its diff, the backend's next state, the names
  // drawn for the generation, and after how many file steps it ended.
  datatype Attempt = Attempt(target: EngineState, diff: StorageBatch, next: CsvState, names: Names, steps: nat)

  predicate Completes(codec: RowCodec, x: Attempt) {
    x.steps == |CommitSteps(codec, x.next)|
  }

  // An engine with nothing stored yet.
  ghost predicate IsEmpty(state: EngineState) {
    WellFormed(state) && forall p :: p != CatalogPlace ==> PersistedAt(state, p) == None
  }

  // What the process knows afterwards: it goes on, or it was restarted and has loaded the root.
  ghost predicate GoesOn(codec: RowCodec, a: Machine, x: Attempt, b: Machine) {
    if Completes(codec, x) then b.memory == x.next && b.engine == x.target
    else b.memory == a.memory && b.engine == a.engine
  }

  ghost predicate Restarts(codec: RowCodec, b: Machine, clock: string -> string) {
    && Load(codec, b.root) == Some(b.memory)
    && match Reload(b.contents, clock)
       case Ok(Some(state)) => b.engine == state
       case Ok(None) => IsEmpty(b.engine)
       case Err(_) => false
  }

  // The attempt ends at any step, with any junk in a half-written file.
  ghost predicate Commits(codec: RowCodec, a: Machine, x: Attempt, b: Machine, clock: string -> string) {
    && WellFormed(x.target) && IsDiff(a.engine, x.target, x.diff) && Fresh(a.root, x.names)
    && (Holds(a.memory, a.contents) ==> Holds(x.next, ApplyBatch(a.contents, CommitBatch(x.diff, x.target))))
    && AfterCrash(codec, a.root, x.names, x.next, x.steps, b.root)
    && b.committed == (if Completes(codec, x) then Some(x.target) else a.committed)
    && b.contents == (if Completes(codec, x) then ApplyBatch(a.contents, CommitBatch(x.diff, x.target)) else a.contents)
    && (GoesOn(codec, a, x, b) || Restarts(codec, b, clock))
  }

  // ---------------------------------------------------------------- what every attempt keeps

  const NO_CONTENTS := Contents(None, map[], map[])

  ghost predicate OnDisk(codec: RowCodec, m: Machine) {
    Load(codec, m.root).Some? && Holds(Load(codec, m.root).value, m.contents) && Holds(m.memory, m.contents)
  }

  // The engine's state is the last committed one, up to what is not stored.
  ghost predicate InStep(m: Machine) {
    && WellFormed(m.engine) && PersistsItems(m.contents, m.engine)
    && (m.committed.None? ==> m.contents == NO_CONTENTS)
    && (m.committed.Some? ==>
         WellFormed(m.committed.value) && Persists(m.contents, m.committed.value) && Persists(m.contents, m.engine))
  }

  ghost predicate Invariant(codec: RowCodec, m: Machine) {
    OnDisk(codec, m) && InStep(m)
  }

  lemma CommitPersists(a: Machine, x: Attempt)
    requires WellFormed(a.engine) && PersistsItems(a.contents, a.engine)
    requires WellFormed(x.target) && IsDiff(a.engine, x.target, x.diff)
    ensures Persists(ApplyBatch(a.contents, CommitBatch(x.diff, x.target)), x.target)
  {
    CommitBatchPatches(a.engine, x.target, x.diff);
    PatchRestores(a.contents, a.engine, x.target, CommitBatch(x.diff, x.target));
    WellFormedLosesNothing(a.engine, x.target);
  }

  lemma NothingPersists(state: EngineState)
    requires IsEmpty(state)
    ensures PersistsItems(NO_CONTENTS, state)
  {
  }

  // A restart finds the last committed state again.
  lemma RestartedInStep(codec: RowCodec, m: Machine, clock: string -> string)
    requires Restarts(codec, m, clock)
    requires m.committed.None? ==> m.contents == NO_CONTENTS
    requires m.committed.Some? ==> WellFormed(m.committed.value) && Persists(m.contents, m.committed.value)
    ensures InStep(m)
  {
    if m.committed.Some? {
      ReloadRestores(m.contents, m.committed.value, clock);
      RestoredPersists(m.contents, m.committed.value, clock);
    } else {
      NothingPersists(m.engine);
    }
  }

  lemma CompletedOnDisk(codec: RowCodec, a: Machine, x: Attempt, b: Machine, clock: string -> string)
    requires codec.Lossless() && OnDisk(codec, a) && Commits(codec, a, x, b, clock) && Completes(codec, x)
    requires Persists(b.contents, x.target)
    ensures OnDisk(codec, b)
  {
    CrashAtomicity(codec, a.root, x.names, x.next, x.steps, b.root);
    D.PersistedRowsHaveTables(b.contents, x.target);
    StoredHolds(x.next, b.contents);
  }

  lemma FailedOnDisk(codec: RowCodec, a: Machine, x: Attempt, b: Machine, clock: string -> string)
    requires codec.Lossless() && OnDisk(codec, a) && Commits(codec, a, x, b, clock) && !Completes(codec, x)
    ensures OnDisk(codec, b)
  {
    CrashAtomicity(codec, a.root, x.names, x.next, x.steps, b.root);
  }

  lemma AttemptKeepsInvariant(codec: RowCodec, a: Machine, x: Attempt, b: Machine, clock: string -> string)
    requires codec.Lossless() && Invariant(codec, a) && Commits(codec, a, x, b, clock)
    ensures Invariant(codec, b)
  {
    if Completes(codec, x) {
      CommitPersists(a, x);
      CompletedOnDisk(codec, a, x, b, clock);
    } else {
      FailedOnDisk(codec, a, x, b, clock);
    }
    if !GoesOn(codec, a, x, b) { RestartedInStep(codec, b, clock); }
  }

  // ---------------------------------------------------------------- every run

  // A new directory: no CURRENT, nothing committed, and an engine with nothing to store.
  ghost predicate Starts(m: Machine) {
    && m.root.current.None? && m.memory == CsvState(None, map[], map[])
    && m.committed.None? && m.contents == NO_CONTENTS && IsEmpty(m.engine)
  }

  ghost predicate IsRun(codec: RowCodec, ms: seq<Machine>, xs: seq<Attempt>, clock: string -> string) {
    && |ms| == |xs| + 1 && Starts(ms[0])
    && forall i :: 0 <= i < |xs| ==> Commits(codec, ms[i], xs[i], ms[i + 1], clock)
  }

  lemma StepOf(codec: RowCodec, ms: seq<Machine>, xs: seq<Attempt>, clock: string -> string, i: nat)
    requires IsRun(codec, ms, xs, clock) && i < |xs|
    ensures Commits(codec, ms[i], xs[i], ms[i + 1], clock)
  {
  }

  lemma StartsWell(codec: RowCodec, m: Machine)
    requires Starts(m)
    ensures Invariant(codec, m)
  {
    NothingPersists(m.engine);
  }

  lemma {:induction false} RunKeepsInvariant(codec: RowCodec, ms: seq<Machine>, xs: seq<Attempt>,
      clock: string -> string, n: nat)
    requires codec.Lossless() && IsRun(codec, ms, xs, clock) && n < |ms|
    ensures Invariant(codec, ms[n])
  {
    if n == 0 {
      StartsWell(codec, ms[0]);
    } else {
      var i := n - 1;
      RunKeepsInvariant(codec, ms, xs, clock, i);
      StepOf(codec, ms, xs, clock, i);
      AttemptKeepsInvariant(codec, ms[i], xs[i], ms[n], clock);
    }
  }

  // What a process that opens the root loads.
  ghost predicate Recovers(codec: RowCodec, root: Root, c: Contents, r: Result<Option<EngineState>, D.LoadError>,
      now: string -> string)
  {
    Load(codec, root).Some? && Holds(Load(codec, root).value, c) && Reload(c, now) == r
  }

  // After any number of commits, each of them cut off at any file step or carried through, opening
  // the root gives the state that was last committed, in full; nothing if nothing was.
  lemma RunIsDurable(
    codec: RowCodec, ms: seq<Machine>, xs: seq<Attempt>, clock: string -> string, n: nat, now: string -> string)
    requires codec.Lossless() && IsRun(codec, ms, xs, clock) && n < |ms|
    ensures var committed := ms[n].committed;
            Recovers(codec, ms[n].root, ms[n].contents,
                     Ok(if committed.Some? then Some(D.Restored(committed.value, now)) else None), now)
  {
    RunKeepsInvariant(codec, ms, xs, clock, n);
    if ms[n].committed.Some? { ReloadRestores(ms[n].contents, ms[n].committed.value, now); }
  }
}
