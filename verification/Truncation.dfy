/** States that a load does not bring back: the condition of the durability theorem is met by
    tables of every page size, and by well-formed states at the page size in use. */
module Truncation {
  import opened Wrappers
  import opened Ordering
  import opened Digits
  import opened Batches
  import opened Delta
  import opened Paging
  import opened Durability

  predicate IsNegative(k: string, n: nat) {
    k != "" && k[0] == '-' && AllDigits(k[1..]) && 1 <= Value(k[1..]) <= n
  }

  function NegativeKey(n: nat): (k: string)
    requires n >= 1
    ensures IsNegative(k, n) && !IsNegative(k, n - 1)
  {
    assert (['-'] + Decimal(n))[1..] == Decimal(n);
    ['-'] + Decimal(n)
  }

  // The keys of rows with the ids -1, ..., -n.
  function NegativeKeys(n: nat): (r: set<string>)
    ensures |r| == n && forall k :: k in r ==> IsNegative(k, n)
  {
    if n == 0 then {} else NegativeKeys(n - 1) + {NegativeKey(n)}
  }

  // Such tables exist for every page size: one page of rows with negative ids and the id 0 at
  // its end, and one more row.
  function UnluckyKeys(limit: nat): set<string>
    requires limit >= 1
  {
    NegativeKeys(limit - 1) + {"0", "1"}
  }

  lemma NegativeIsLess(k: string, n: nat)
    requires IsNegative(k, n)
    ensures Less(k, "0") && k != "0" && k != "1"
  {
    assert "0"[0] == '0' && "1"[0] == '1';
  }

  lemma UnluckyBelow(n: nat)
    ensures Below(NegativeKeys(n) + {"0", "1"}, "0") == NegativeKeys(n)
    ensures |NegativeKeys(n) + {"0", "1"}| == n + 2
  {
    var negative := NegativeKeys(n);
    forall k | k in negative ensures Less(k, "0") && k != "0" && k != "1" { NegativeIsLess(k, n); }
    LessIrreflexive("0");
    assert "0"[0] == '0' && "1"[0] == '1' && !Less("1", "0");
    assert negative !! {"0", "1"} && |{"0", "1"}| == 2;
  }

  lemma SentinelLosesRows(limit: nat)
    requires limit >= 1
    ensures SentinelClosesPage(UnluckyKeys(limit), limit)
  {
    UnluckyBelow(limit - 1);
    assert END_SENTINEL == "0";
    assert limit % limit == 0;
  }

  predicate IsUnlucky(state: EngineState, d: string, t: string) {
    && d in state.databases && t in state.databases[d].rows
    && state.databases[d].rows[t].Keys == UnluckyKeys(STORAGE_PAGE_SIZE)
  }

  // A load misses rows of any state with such a table.
  lemma LoadMissesRows(c: Contents, state: EngineState, d: string, t: string, clock: string -> string)
    requires Persists(c, state) && WellFormed(state) && IsUnlucky(state, d, t)
    ensures Truncates(state) && Reload(c, clock) != Ok(Some(Restored(state, clock)))
  {
    SentinelLosesRows(STORAGE_PAGE_SIZE);
    ReloadRestores(c, state, clock);
  }

  function UnluckyRows(row: StoredRow): map<string, StoredRow> {
    map k | k in UnluckyKeys(STORAGE_PAGE_SIZE) :: row
  }

  function OneTable(schema: TableSchemaHint, rows: map<string, StoredRow>): Snapshot {
    Snapshot(1, "", map["t" := schema], map["t" := rows], map[], map[], map[])
  }

  function UnluckyState(schema: TableSchemaHint, row: StoredRow, metadata: Json): EngineState {
    EngineState(1, metadata, map["app" := OneTable(schema, UnluckyRows(row))])
  }

  lemma OneTableWellFormed(state: EngineState, schema: TableSchemaHint, rows: map<string, StoredRow>)
    requires state.databases == map["app" := OneTable(schema, rows)]
    ensures WellFormed(state) && "app" in state.databases && "t" in state.databases["app"].rows
    ensures state.databases["app"].rows["t"] == rows
  {
  }

  lemma UnluckyStateIsWellFormed(schema: TableSchemaHint, row: StoredRow, metadata: Json, state: EngineState)
    requires state == UnluckyState(schema, row, metadata)
    ensures WellFormed(state) && IsUnlucky(state, "app", "t")
  {
    OneTableWellFormed(state, schema, UnluckyRows(row));
    assert UnluckyRows(row).Keys == UnluckyKeys(STORAGE_PAGE_SIZE);
  }

  // The condition is met by real states: this one is well-formed, and no load brings it back.
  lemma UnluckyStateIsLost(
    c: Contents, schema: TableSchemaHint, row: StoredRow, metadata: Json, state: EngineState, clock: string -> string)
    requires Persists(c, state) && state == UnluckyState(schema, row, metadata)
    ensures WellFormed(state) && Reload(c, clock) != Ok(Some(Restored(state, clock)))
  {
    UnluckyStateIsWellFormed(schema, row, metadata, state);
    LoadMissesRows(c, state, "app", "t", clock);
  }
}
