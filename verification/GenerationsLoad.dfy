/** Which directories load, and as what: `load_current_generation` reads a generation that is complete
    and readable, and refuses every other one. */
module GenerationsLoad {
  import opened Characters
  import opened Wrappers
  import opened Ordering
  import opened Batches
  import opened Csv
  import opened FileNames
  import opened Generations

  // The row file of a table is there and holds these rows.
  ghost predicate FileHolds(codec: RowCodec, dir: Directory, d: string, t: string, rows: map<string, StoredRow>) {
    && RowFileName(d, t) in dir.rows && dir.rows[RowFileName(d, t)].TextFile?
    && ReadRows(codec, dir.rows[RowFileName(d, t)].text) == Some(rows)
  }

  // A manifest in JSON, and behind it a readable row file for each table it lists; files of other
  // tables do not matter.
  ghost predicate IsDirectoryOf(codec: RowCodec, dir: Directory, state: CsvState) {
    && dir.manifest == Some(ManifestFile(Manifest(state.catalog, state.tables)))
    && state.rows.Keys == state.tables.Keys
    && (forall d :: d in state.tables ==> state.rows[d].Keys == state.tables[d].Keys)
    && (forall d, t :: d in state.tables && t in state.tables[d] ==> FileHolds(codec, dir, d, t, state.rows[d][t]))
  }

  lemma FileIsRead(codec: RowCodec, dir: Directory, d: string, t: string, rows: map<string, StoredRow>)
    ensures ReadFileRows(codec, dir, d, t) == Some(rows) <==> FileHolds(codec, dir, d, t, rows)
  {
  }

  lemma DirectoryIsRead(codec: RowCodec, dir: Directory, state: CsvState)
    requires IsDirectoryOf(codec, dir, state)
    ensures LoadDirectory(codec, dir) == Some(state)
  {
    forall d, t | d in state.tables && t in state.tables[d]
      ensures ReadFileRows(codec, dir, d, t) == Some(state.rows[d][t])
    {
      FileIsRead(codec, dir, d, t, state.rows[d][t]);
    }
    forall d | d in state.tables ensures LoadedTables(codec, dir, d, state.tables[d]) == state.rows[d] {
    }
    assert state.rows == map d | d in state.tables :: LoadedTables(codec, dir, d, state.tables[d]);
  }

  lemma ReadIsDirectory(codec: RowCodec, dir: Directory, state: CsvState)
    requires LoadDirectory(codec, dir) == Some(state)
    ensures IsDirectoryOf(codec, dir, state)
  {
    forall d, t | d in state.tables && t in state.tables[d] ensures FileHolds(codec, dir, d, t, state.rows[d][t]) {
      FileIsRead(codec, dir, d, t, state.rows[d][t]);
    }
  }

  lemma LoadedIsDirectory(codec: RowCodec, dir: Directory, state: CsvState)
    ensures LoadDirectory(codec, dir) == Some(state) <==> IsDirectoryOf(codec, dir, state)
  {
    if IsDirectoryOf(codec, dir, state) { DirectoryIsRead(codec, dir, state); }
    if LoadDirectory(codec, dir) == Some(state) { ReadIsDirectory(codec, dir, state); }
  }

  // CURRENT names a generation: one path component, perhaps between white space.
  ghost predicate PointsTo(current: string, name: string) {
    && name == Trim(current)
    && name != "" && name != "." && name != ".." && forall i :: 0 <= i < |name| ==> name[i] != '/'
  }

  // A backend without CURRENT is empty. Otherwise it loads exactly when CURRENT points to a directory that
  // is there, is complete and is readable, and then it loads what that directory holds.
  lemma LoadIsExact(codec: RowCodec, root: Root, state: CsvState)
    ensures Load(codec, root) == Some(state) <==>
      || (root.current.None? && state == CsvState(None, map[], map[]))
      || (root.current.Some? && exists name ::
            PointsTo(root.current.value, name) && name in root.generations
            && IsDirectoryOf(codec, root.generations[name], state))
  {
    if root.current.Some? {
      var name := Trim(root.current.value);
      assert PointsTo(root.current.value, name) <==> IsComponent(name);
      if name in root.generations { LoadedIsDirectory(codec, root.generations[name], state); }
    }
  }

  // ---------------------------------------------------------------- what a commit leaves on disk

  // One row file for each table of the state, with its rows, and no other file.
  ghost predicate AreRowFiles(codec: RowCodec, state: CsvState, files: map<string, File>) {
    && (forall d, t :: d in state.tables && t in state.tables[d] ==>
          RowFileName(d, t) in files && files[RowFileName(d, t)] == TextFile(RowsText(codec, RowsOf(state, d, t))))
    && (forall name :: name in files ==>
          exists d, t :: d in state.tables && t in state.tables[d] && name == RowFileName(d, t))
  }

  predicate NamesRowFile(state: CsvState, name: string) {
    exists d, t :: d in state.tables && t in state.tables[d] && name == RowFileName(d, t)
  }

  lemma {:induction false} TableFilesNamed(codec: RowCodec, state: CsvState, d: string, tables: seq<string>)
    requires d in state.tables && forall t :: t in tables ==> t in state.tables[d]
    ensures forall name :: name in Written(TableSteps(codec, state, d, tables)) ==> NamesRowFile(state, name)
  {
    if tables != [] {
      var init, t := tables[..|tables| - 1], tables[|tables| - 1];
      var steps := TableSteps(codec, state, d, tables);
      assert steps[..|steps| - 1] == TableSteps(codec, state, d, init);
      TableFilesNamed(codec, state, d, init);
      assert t in tables && NamesRowFile(state, RowFileName(d, t));
    }
  }

  lemma {:induction false} FilesNamed(codec: RowCodec, state: CsvState, databases: seq<string>)
    requires forall d :: d in databases ==> d in state.tables
    ensures forall name :: name in Written(RowSteps(codec, state, databases)) ==> NamesRowFile(state, name)
  {
    if databases != [] {
      var init, d := databases[..|databases| - 1], databases[|databases| - 1];
      var tables := SortedKeys(state.tables[d].Keys);
      FilesNamed(codec, state, init);
      TableFilesNamed(codec, state, d, tables);
      WrittenAppend(RowSteps(codec, state, init), TableSteps(codec, state, d, tables));
    }
  }

  lemma RowFilesOfState(codec: RowCodec, state: CsvState)
    ensures AreRowFiles(codec, state, NewDirectory(codec, state).rows)
  {
    var databases := SortedKeys(state.tables.Keys);
    forall d, t | d in state.tables && t in state.tables[d]
      ensures Get(Written(RowSteps(codec, state, databases)), RowFileName(d, t)) == Some(RowFile(codec, state, d, t))
    {
      RowStepsWrite(codec, state, databases, d, t);
    }
    FilesNamed(codec, state, databases);
  }

  lemma Published(root: Root, n: Names, dir: Directory)
    requires Fresh(root, n)
    ensures Take(Take(Take(WithStaging(root, n, dir), n, PublishDirectory), n, WritePointer), n, SwitchCurrent)
         == Root(Some(n.name + "\n"), root.pointers - {n.pointer}, root.generations[n.name := dir])
  {
    var g := root.generations;
    assert g[n.Staging() := dir] - {n.Staging()} == g;
    assert root.pointers[n.pointer := n.name + "\n"] - {n.pointer} == root.pointers - {n.pointer};
  }

  // A commit adds one generation, points CURRENT at it, and cleans up behind itself: no staging directory
  // and no pointer file stays, and no other generation changes.
  lemma CommitIsExact(codec: RowCodec, root: Root, n: Names, state: CsvState)
    requires Fresh(root, n)
    ensures var dir := NewDirectory(codec, state);
      && TakeAll(root, n, CommitSteps(codec, state))
         == Root(Some(n.name + "\n"), root.pointers - {n.pointer}, root.generations[n.name := dir])
      && dir.manifest == Some(ManifestFile(Manifest(state.catalog, state.tables)))
      && AreRowFiles(codec, state, dir.rows)
  {
    CommitTakes(codec, root, n, state);
    PreparationBuilds(codec, root, n, state);
    Published(root, n, NewDirectory(codec, state));
    RowFilesOfState(codec, state);
  }
}
