/** The commit protocol of the CSV backend: a new generation directory, then one rename of CURRENT
    (`write_generation_atomically`, `load_current_generation`), with a crash possible at any step. */
module Generations {
  import opened Characters
  import opened Wrappers
  import opened Ordering
  import opened Batches
  import opened Csv
  import opened FileNames

  datatype Manifest = Manifest(catalog: Option<StorageCatalog>, tables: map<string, map<string, TableState>>)

  datatype CsvState = CsvState(
    catalog: Option<StorageCatalog>,
    tables: map<string, map<string, TableState>>,
    rows: map<string, map<string, map<string, StoredRow>>>)

  // What a file holds: a manifest in JSON, or any other text.
  datatype File = ManifestFile(manifest: Manifest) | TextFile(text: string)

  datatype Directory = Directory(manifest: Option<File>, rows: map<string, File>)

  // The backend's root: CURRENT, temporary pointer files, and the generation directories.
  datatype Root = Root(current: Option<string>, pointers: map<string, string>, generations: map<string, Directory>)

  // The fresh names of one commit.
  datatype Names = Names(name: string, pointer: string) {
    function Staging(): string {
      "." + name + ".tmp"
    }
  }

  // ---------------------------------------------------------------- loading

  // One normal path component.
  predicate IsComponent(name: string) {
    name != "" && name != "." && name != ".." && '/' !in name
  }

  function ReadFileRows(codec: RowCodec, dir: Directory, d: string, t: string): Option<map<string, StoredRow>> {
    var file :- Get(dir.rows, RowFileName(d, t));
    if file.TextFile? then ReadRows(codec, file.text) else None
  }

  predicate RowsReadable(codec: RowCodec, dir: Directory, tables: map<string, map<string, TableState>>) {
    forall d, t :: d in tables && t in tables[d] ==> ReadFileRows(codec, dir, d, t).Some?
  }

  function LoadDirectory(codec: RowCodec, dir: Directory): Option<CsvState> {
    if dir.manifest.None? || !dir.manifest.value.ManifestFile? then None else
      var m := dir.manifest.value.manifest;
      if !RowsReadable(codec, dir, m.tables) then None
      else Some(CsvState(m.catalog, m.tables, map d | d in m.tables :: LoadedTables(codec, dir, d, m.tables[d])))
  }

  function LoadedTables(codec: RowCodec, dir: Directory, d: string, tables: map<string,
      TableState>): map<string, map<string, StoredRow>>
    requires forall t :: t in tables ==> ReadFileRows(codec, dir, d, t).Some?
  {
    map t | t in tables :: ReadFileRows(codec, dir, d, t).value
  }

  // None stands for every error; no CURRENT file means an empty backend.
  function Load(codec: RowCodec, root: Root): Option<CsvState> {
    match root.current
    case None => Some(CsvState(None, map[], map[]))
    case Some(text) =>
      var name := Trim(text);
      if !IsComponent(name) || name !in root.generations then None else LoadDirectory(codec, root.generations[name])
  }

  // ---------------------------------------------------------------- the file steps of a commit

  datatype Step =
    | MakeStaging
    | WriteManifest(manifest: Manifest)
    | WriteRowFile(file: string, text: string)
    | PublishDirectory
    | WritePointer
    | SwitchCurrent

  function OnStaging(root: Root, n: Names, f: Directory -> Directory): Root {
    if n.Staging() in root.generations
    then root.(generations := root.generations[n.Staging() := f(root.generations[n.Staging()])])
    else root
  }

  function Take(root: Root, n: Names, step: Step): Root {
    match step
    case MakeStaging => root.(generations := root.generations[n.Staging() := Directory(None, map[])])
    case WriteManifest(m) => OnStaging(root, n, (dir: Directory) => dir.(manifest := Some(ManifestFile(m))))
    case WriteRowFile(file, text) => OnStaging(root, n,
        (dir: Directory) => dir.(rows := dir.rows[file := TextFile(text)]))
    case PublishDirectory =>
      if n.Staging() in root.generations
      then root.(generations := (root.generations - {n.Staging()})[n.name := root.generations[n.Staging()]])
      else root
    case WritePointer => root.(pointers := root.pointers[n.pointer := n.name + "\n"])
    case SwitchCurrent =>
      if n.pointer in root.pointers
      then root.(current := Some(root.pointers[n.pointer]), pointers := root.pointers - {n.pointer})
      else root
  }

  // A crash in the middle of writing a file leaves anything in that file; directory creation and
  // renames are atomic.
  function Tear(root: Root, n: Names, step: Step, junk: File, junkText: string): Root {
    match step
    case WriteManifest(_) => OnStaging(root, n, (dir: Directory) => dir.(manifest := Some(junk)))
    case WriteRowFile(file, _) => OnStaging(root, n, (dir: Directory) => dir.(rows := dir.rows[file := junk]))
    case WritePointer => root.(pointers := root.pointers[n.pointer := junkText])
    case _ => root
  }

  function TakeAll(root: Root, n: Names, steps: seq<Step>): Root {
    if steps == [] then root else Take(TakeAll(root, n, steps[..|steps| - 1]), n, steps[|steps| - 1])
  }

  function RowsOf(state: CsvState, d: string, t: string): map<string, StoredRow> {
    if d in state.rows && t in state.rows[d] then state.rows[d][t] else map[]
  }

  function TableSteps(codec: RowCodec, state: CsvState, d: string, tables: seq<string>): seq<Step> {
    if tables == [] then [] else
      var t := tables[|tables| - 1];
      TableSteps(codec, state, d, tables[..|tables| - 1])
          + [WriteRowFile(RowFileName(d, t), RowsText(codec, RowsOf(state, d, t)))]
  }

  function RowSteps(codec: RowCodec, state: CsvState, databases: seq<string>): seq<Step>
    requires forall d :: d in databases ==> d in state.tables
  {
    if databases == [] then [] else
      var d := databases[|databases| - 1];
      RowSteps(codec, state, databases[..|databases| - 1])
          + TableSteps(codec, state, d, SortedKeys(state.tables[d].Keys))
  }

  // Program order: the manifest and every row file in the staging directory, then the directory's
  // rename, then the pointer file, then the rename onto CURRENT.
  function CommitSteps(codec: RowCodec, state: CsvState): seq<Step> {
    [MakeStaging, WriteManifest(Manifest(state.catalog, state.tables))]
    + RowSteps(codec, state, SortedKeys(state.tables.Keys))
    + [PublishDirectory, WritePointer, SwitchCurrent]
  }

  // Nothing on disk uses the fresh names, and CURRENT does not point at them.
  predicate Fresh(root: Root, n: Names) {
    && n.name !in root.generations && n.Staging() !in root.generations
    && (root.current.Some? ==> Trim(root.current.value) != n.name && Trim(root.current.value) != n.Staging())
    && IsComponent(n.name) && Trim(n.name + "\n") == n.name
  }

  // ---------------------------------------------------------------- before the switch

  // Everything the loader can reach is as it was.
  ghost predicate Untouched(root: Root, n: Names, later: Root) {
    && later.current == root.current
    && forall g :: g != n.name && g != n.Staging() ==> Get(later.generations, g) == Get(root.generations, g)
  }

  lemma StepLeavesUntouched(root: Root, n: Names, later: Root, step: Step)
    requires Untouched(root, n, later) && !step.SwitchCurrent?
    ensures Untouched(root, n, Take(later, n, step))
  {
  }

  lemma TearLeavesUntouched(root: Root, n: Names, later: Root, step: Step, junk: File, junkText: string)
    requires Untouched(root, n, later)
    ensures Untouched(root, n, Tear(later, n, step, junk, junkText))
  {
  }

  lemma UntouchedLoads(codec: RowCodec, root: Root, n: Names, later: Root)
    requires Fresh(root, n) && Untouched(root, n, later)
    ensures Load(codec, later) == Load(codec, root)
  {
    if root.current.Some? {
      var name := Trim(root.current.value);
      assert Get(later.generations, name) == Get(root.generations, name);
    }
  }

  lemma {:induction false} StepsLeaveUntouched(root: Root, n: Names, steps: seq<Step>)
    requires forall i :: 0 <= i < |steps| ==> !steps[i].SwitchCurrent?
    ensures Untouched(root, n, TakeAll(root, n, steps))
  {
    if steps != [] {
      StepsLeaveUntouched(root, n, steps[..|steps| - 1]);
      StepLeavesUntouched(root, n, TakeAll(root, n, steps[..|steps| - 1]), steps[|steps| - 1]);
    }
  }

  // ---------------------------------------------------------------- after the switch

  // The row files a run of steps has written.
  function Written(steps: seq<Step>): map<string, File> {
    if steps == [] then map[]
    else
      var last := steps[|steps| - 1];
      if last.WriteRowFile? then Written(steps[..|steps| - 1])[last.file := TextFile(last.text)]
      else Written(steps[..|steps| - 1])
  }

  lemma {:induction false} WrittenAppend(a: seq<Step>, b: seq<Step>)
    ensures Written(a + b) == Written(a) + Written(b)
  {
    if b == [] {
      assert a + b == a;
    } else {
      assert (a + b)[..|a + b| - 1] == a + b[..|b| - 1];
      WrittenAppend(a, b[..|b| - 1]);
    }
  }

  lemma {:induction false} TakeAllAppend(root: Root, n: Names, a: seq<Step>, b: seq<Step>)
    ensures TakeAll(root, n, a + b) == TakeAll(TakeAll(root, n, a), n, b)
  {
    if b == [] {
      assert a + b == a;
    } else {
      assert (a + b)[..|a + b| - 1] == a + b[..|b| - 1];
      TakeAllAppend(root, n, a, b[..|b| - 1]);
    }
  }

  // The root with this directory in the staging place.
  function WithStaging(root: Root, n: Names, dir: Directory): Root {
    root.(generations := root.generations[n.Staging() := dir])
  }

  predicate OnlyRowFiles(steps: seq<Step>) {
    forall i :: 0 <= i < |steps| ==> steps[i].WriteRowFile?
  }

  lemma OneRowFile(root: Root, n: Names, dir: Directory, step: Step)
    requires step.WriteRowFile?
    ensures Take(WithStaging(root, n, dir), n, step)
         == WithStaging(root, n, dir.(rows := dir.rows[step.file := TextFile(step.text)]))
  {
    var g := root.generations;
    var next := dir.(rows := dir.rows[step.file := TextFile(step.text)]);
    assert g[n.Staging() := dir][n.Staging() := next] == g[n.Staging() := next];
  }

  lemma {:induction false} RowFilesLand(root: Root, n: Names, dir: Directory, steps: seq<Step>)
    requires OnlyRowFiles(steps)
    ensures TakeAll(WithStaging(root, n, dir), n, steps)
         == WithStaging(root, n, dir.(rows := dir.rows + Written(steps)))
  {
    if steps == [] {
      assert dir.rows + map[] == dir.rows;
    } else {
      var init, last := steps[..|steps| - 1], steps[|steps| - 1];
      RowFilesLand(root, n, dir, init);
      OneRowFile(root, n, dir.(rows := dir.rows + Written(init)), last);
      UpdateAppended(dir.rows, Written(init), last.file, TextFile(last.text));
    }
  }

  function RowFile(codec: RowCodec, state: CsvState, d: string, t: string): File {
    TextFile(RowsText(codec, RowsOf(state, d, t)))
  }

  lemma SameRowFile(d: string, t: string, e: string, u: string)
    ensures RowFileName(d, t) == RowFileName(e, u) <==> d == e && t == u
  {
    if RowFileName(d, t) == RowFileName(e, u) { RowFilesDiffer(d, t, e, u); }
  }

  // Row files are named apart, so the steps of one table never overwrite another table's file.
  lemma {:induction false} TableStepsWrite(codec: RowCodec, state: CsvState, d: string, tables: seq<string>,
      e: string, t: string)
    ensures Get(Written(TableSteps(codec, state, d, tables)), RowFileName(e, t))
         == if d == e && t in tables then Some(RowFile(codec, state, d, t)) else None
  {
    if tables != [] {
      var init, last := tables[..|tables| - 1], tables[|tables| - 1];
      var steps := TableSteps(codec, state, d, tables);
      assert steps[..|steps| - 1] == TableSteps(codec, state, d, init);
      TableStepsWrite(codec, state, d, init, e, t);
      SameRowFile(e, t, d, last);
      assert t in tables <==> t in init || t == last;
    }
  }

  lemma {:induction false} RowStepsWrite(codec: RowCodec, state: CsvState, databases: seq<string>, e: string, t: string)
    requires forall d :: d in databases ==> d in state.tables
    ensures Get(Written(RowSteps(codec, state, databases)), RowFileName(e, t))
         == if e in databases && t in state.tables[e] then Some(RowFile(codec, state, e, t)) else None
  {
    if databases != [] {
      var init, last := databases[..|databases| - 1], databases[|databases| - 1];
      var tables := SortedKeys(state.tables[last].Keys);
      RowStepsWrite(codec, state, init, e, t);
      TableStepsWrite(codec, state, last, tables, e, t);
      WrittenAppend(RowSteps(codec, state, init), TableSteps(codec, state, last, tables));
      assert e in databases <==> e in init || e == last;
    }
  }

  lemma {:induction false} TableStepsAreRowFiles(codec: RowCodec, state: CsvState, d: string, tables: seq<string>)
    ensures OnlyRowFiles(TableSteps(codec, state, d, tables))
  {
    if tables != [] { TableStepsAreRowFiles(codec, state, d, tables[..|tables| - 1]); }
  }

  lemma {:induction false} RowStepsAreRowFiles(codec: RowCodec, state: CsvState, databases: seq<string>)
    requires forall d :: d in databases ==> d in state.tables
    ensures OnlyRowFiles(RowSteps(codec, state, databases))
  {
    if databases != [] {
      var d := databases[|databases| - 1];
      RowStepsAreRowFiles(codec, state, databases[..|databases| - 1]);
      TableStepsAreRowFiles(codec, state, d, SortedKeys(state.tables[d].Keys));
    }
  }

  // ---------------------------------------------------------------- the new generation

  // What a load returns of a state: a row map for every table, and no rows of unknown tables.
  function Stored(state: CsvState): CsvState {
    CsvState(state.catalog, state.tables,
      map d | d in state.tables :: StoredTables(state, d, state.tables[d]))
  }

  function StoredTables(state: CsvState, d: string, tables: map<string,
      TableState>): map<string, map<string, StoredRow>>
  {
    map t | t in tables :: RowsOf(state, d, t)
  }

  function NewDirectory(codec: RowCodec, state: CsvState): Directory {
    Directory(Some(ManifestFile(Manifest(state.catalog, state.tables))),
              Written(RowSteps(codec, state, SortedKeys(state.tables.Keys))))
  }

  lemma NewFileReads(codec: RowCodec, state: CsvState, d: string, t: string)
    requires codec.Lossless() && d in state.tables && t in state.tables[d]
    ensures ReadFileRows(codec, NewDirectory(codec, state), d, t) == Some(RowsOf(state, d, t))
  {
    RowStepsWrite(codec, state, SortedKeys(state.tables.Keys), d, t);
    RowsRoundTrip(codec, RowsOf(state, d, t));
  }

  lemma NewDatabaseReads(codec: RowCodec, state: CsvState, dir: Directory, d: string)
    requires codec.Lossless() && d in state.tables && dir == NewDirectory(codec, state)
    ensures forall t :: t in state.tables[d] ==> ReadFileRows(codec, dir, d, t).Some?
    ensures LoadedTables(codec, dir, d, state.tables[d]) == StoredTables(state, d, state.tables[d])
  {
    forall t | t in state.tables[d] ensures ReadFileRows(codec, dir, d, t) == Some(RowsOf(state, d, t)) {
      NewFileReads(codec, state, d, t);
    }
  }

  lemma NewRowsReadable(codec: RowCodec, state: CsvState, dir: Directory)
    requires codec.Lossless() && dir == NewDirectory(codec, state)
    ensures RowsReadable(codec, dir, state.tables)
  {
    forall d, t | d in state.tables && t in state.tables[d] ensures ReadFileRows(codec, dir, d, t).Some? {
      NewFileReads(codec, state, d, t);
    }
  }

  lemma NewRowsAre(codec: RowCodec, state: CsvState, dir: Directory)
    requires codec.Lossless() && dir == NewDirectory(codec, state) && RowsReadable(codec, dir, state.tables)
    ensures (map d | d in state.tables :: LoadedTables(codec, dir, d, state.tables[d])) == Stored(state).rows
  {
    var loaded := map d | d in state.tables :: LoadedTables(codec, dir, d, state.tables[d]);
    forall d | d in state.tables ensures loaded[d] == Stored(state).rows[d] {
      NewDatabaseReads(codec, state, dir, d);
    }
  }

  lemma NewDirectoryLoads(codec: RowCodec, state: CsvState)
    requires codec.Lossless()
    ensures LoadDirectory(codec, NewDirectory(codec, state)) == Some(Stored(state))
  {
    NewRowsReadable(codec, state, NewDirectory(codec, state));
    NewRowsAre(codec, state, NewDirectory(codec, state));
  }

  function Preparation(codec: RowCodec, state: CsvState): seq<Step> {
    [MakeStaging, WriteManifest(Manifest(state.catalog, state.tables))]
    + RowSteps(codec, state, SortedKeys(state.tables.Keys))
  }

  lemma TakeTwo(root: Root, n: Names, a: Step, b: Step)
    ensures TakeAll(root, n, [a, b]) == Take(Take(root, n, a), n, b)
  {
    assert [a, b][..1] == [a] && [a][..0] == [];
    assert TakeAll(root, n, [a]) == Take(root, n, a);
  }

  lemma StagingStarts(root: Root, n: Names, m: Manifest)
    ensures TakeAll(root, n, [MakeStaging, WriteManifest(m)])
         == WithStaging(root, n, Directory(Some(ManifestFile(m)), map[]))
  {
    TakeTwo(root, n, MakeStaging, WriteManifest(m));
    var g := root.generations;
    var empty, full := Directory(None, map[]), Directory(Some(ManifestFile(m)), map[]);
    assert g[n.Staging() := empty][n.Staging() := full] == g[n.Staging() := full];
  }

  lemma EmptyPlus<K, V>(m: map<K, V>)
    ensures map[] + m == m
  {
  }

  lemma NewDirectoryBuilt(codec: RowCodec, state: CsvState)
    ensures NewDirectory(codec, state)
         == Directory(Some(ManifestFile(Manifest(state.catalog, state.tables))),
                      map[] + Written(RowSteps(codec, state, SortedKeys(state.tables.Keys))))
  {
    EmptyPlus(Written(RowSteps(codec, state, SortedKeys(state.tables.Keys))));
  }

  lemma RowFilesAfter(root: Root, n: Names, m: Manifest, rowSteps: seq<Step>)
    requires OnlyRowFiles(rowSteps)
    ensures TakeAll(root, n, [MakeStaging, WriteManifest(m)] + rowSteps)
         == WithStaging(root, n, Directory(Some(ManifestFile(m)), map[] + Written(rowSteps)))
  {
    TakeAllAppend(root, n, [MakeStaging, WriteManifest(m)], rowSteps);
    StagingStarts(root, n, m);
    RowFilesLand(root, n, Directory(Some(ManifestFile(m)), map[]), rowSteps);
  }

  lemma PreparationBuilds(codec: RowCodec, root: Root, n: Names, state: CsvState)
    ensures TakeAll(root, n, Preparation(codec, state)) == WithStaging(root, n, NewDirectory(codec, state))
  {
    RowStepsAreRowFiles(codec, state, SortedKeys(state.tables.Keys));
    RowFilesAfter(root, n, Manifest(state.catalog, state.tables),
      RowSteps(codec, state, SortedKeys(state.tables.Keys)));
    NewDirectoryBuilt(codec, state);
  }

  lemma CommitTakes(codec: RowCodec, root: Root, n: Names, state: CsvState)
    ensures TakeAll(root, n, CommitSteps(codec, state))
         == Take(Take(Take(TakeAll(root, n, Preparation(codec, state)), n, PublishDirectory), n, WritePointer), n,
             SwitchCurrent)
  {
    var prepared := TakeAll(root, n, Preparation(codec, state));
    TakeAllAppend(root, n, Preparation(codec, state), [PublishDirectory, WritePointer, SwitchCurrent]);
    var last := [PublishDirectory, WritePointer, SwitchCurrent];
    assert last[..2] == [PublishDirectory, WritePointer];
    TakeTwo(prepared, n, PublishDirectory, WritePointer);
  }

  // After all the steps a load returns the committed state.
  lemma CommittedLoads(codec: RowCodec, root: Root, n: Names, state: CsvState)
    requires codec.Lossless() && Fresh(root, n)
    ensures Load(codec, TakeAll(root, n, CommitSteps(codec, state))) == Some(Stored(state))
  {
    CommitTakes(codec, root, n, state);
    PreparationBuilds(codec, root, n, state);
    NewDirectoryLoads(codec, state);
    var done := TakeAll(root, n, CommitSteps(codec, state));
    assert done.current == Some(n.name + "\n");
    assert n.Staging() != n.name by { assert |n.Staging()| > |n.name|; }
    assert done.generations[n.name] == NewDirectory(codec, state);
  }

  // ---------------------------------------------------------------- crashes

  // What is on disk after a crash: the first k steps, and perhaps a torn piece of the next one.
  ghost predicate AfterCrash(codec: RowCodec, root: Root, n: Names, state: CsvState, k: nat, found: Root) {
    var steps := CommitSteps(codec, state);
    && k <= |steps|
    && (|| found == TakeAll(root, n, steps[..k])
        || (k < |steps| && exists junk, text :: found == Tear(TakeAll(root, n, steps[..k]), n, steps[k], junk, text)))
  }

  lemma NoneSwitches(a: seq<Step>, b: seq<Step>, c: seq<Step>, i: nat)
    requires i < |a + b + c|
    requires forall s :: s in a || s in b || s in c ==> !s.SwitchCurrent?
    ensures !(a + b + c)[i].SwitchCurrent?
  {
  }

  lemma OnlyLastSwitches(codec: RowCodec, state: CsvState, i: nat)
    requires i < |CommitSteps(codec, state)| - 1
    ensures !CommitSteps(codec, state)[i].SwitchCurrent?
  {
    var rowSteps := RowSteps(codec, state, SortedKeys(state.tables.Keys));
    var head, steps := [MakeStaging, WriteManifest(Manifest(state.catalog, state.tables))], CommitSteps(codec, state);
    RowStepsAreRowFiles(codec, state, SortedKeys(state.tables.Keys));
    assert steps == head + rowSteps + [PublishDirectory, WritePointer] + [SwitchCurrent];
    NoneSwitches(head, rowSteps, [PublishDirectory, WritePointer], i);
  }

  // Whatever step the crash hits, and whatever it leaves of a half-written file, a load returns
  // the old state in full or the new state in full; the new one exactly when CURRENT was renamed.
  lemma CrashAtomicity(codec: RowCodec, root: Root, n: Names, state: CsvState, k: nat, found: Root)
    requires codec.Lossless() && Fresh(root, n) && AfterCrash(codec, root, n, state, k, found)
    ensures Load(codec, found)
         == if k == |CommitSteps(codec, state)| then Some(Stored(state)) else Load(codec, root)
  {
    var steps := CommitSteps(codec, state);
    if k == |steps| {
      assert steps[..k] == steps;
      CommittedLoads(codec, root, n, state);
    } else {
      forall i | 0 <= i < k ensures !steps[..k][i].SwitchCurrent? { OnlyLastSwitches(codec, state, i); }
      StepsLeaveUntouched(root, n, steps[..k]);
      UntouchedLoads(codec, root, n, TakeAll(root, n, steps[..k]));
      if found != TakeAll(root, n, steps[..k]) {
        var junk, text :| found == Tear(TakeAll(root, n, steps[..k]), n, steps[k], junk, text);
        TearLeavesUntouched(root, n, TakeAll(root, n, steps[..k]), steps[k], junk, text);
        UntouchedLoads(codec, root, n, found);
      }
    }
  }
}
