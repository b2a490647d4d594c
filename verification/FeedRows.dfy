/** What the change feed holds, said of the two sets of engines alone: which rows it shows under which
    keys, which events a commit has, and in which order they come. */
module FeedRows {
  import opened Wrappers
  import opened Ordering
  import opened ChangeFeed

  // ---------------------------------------------------------------- one row

  predicate HasColumns(e: Engine, t: string) {
    t in e.schemas && e.schemas[t].columns != map[]
  }

  // The stored data as the evaluator completes it; data of a table without columns is shown as it is.
  predicate IsCurrent(w: World, e: Engine, t: string, data: Row, current: Row) {
    if HasColumns(e, t) then w.evaluate(e, t, data) == Ok(current) else current == data
  }

  // The row without what is no column.
  ghost predicate IsTrimmed(e: Engine, t: string, current: Row, row: Row) {
    forall c :: Get(row, c) == if HasColumns(e, t) && c !in e.schemas[t].columns then None else Get(current, c)
  }

  // The values of the primary-key columns, null for a column the row does not have; the stored id for
  // a table without a primary key.
  ghost predicate HasKey(e: Engine, t: string, id: string, h: HookRow) {
    if t in e.schemas && e.schemas[t].primaryKey != [] then
      && h.key.Primary?
      && (forall c :: c in h.key.values <==> c in e.schemas[t].primaryKey)
      && (forall c :: c in h.key.values ==> h.key.values[c] == if c in h.row then h.row[c] else Null)
    else h.key == Opaque(id)
  }

  ghost predicate Shows(w: World, e: Engine, t: string, id: string, data: Row, h: HookRow) {
    HasKey(e, t, id, h) && exists current :: IsCurrent(w, e, t, data, current) && IsTrimmed(e, t, current, h.row)
  }

  lemma RetainedIsTrimmed(e: Engine, t: string, current: Row, row: Row)
    ensures IsTrimmed(e, t, current, row) <==> row == Retained(e, t, current)
  {
    var kept := Retained(e, t, current);
    forall c ensures Get(kept, c) == if HasColumns(e, t) && c !in e.schemas[t].columns then None else Get(current, c) {
    }
    if IsTrimmed(e, t, current, row) { SameMap(row, kept); }
  }

  lemma KeyIsKey(e: Engine, t: string, id: string, h: HookRow)
    ensures HasKey(e, t, id, h) <==> h.key == KeyOf(e, t, id, h.row)
  {
    var key := KeyOf(e, t, id, h.row);
    if key.Primary? && h.key.Primary? && HasKey(e, t, id, h) {
      forall c ensures Get(h.key.values, c) == Get(key.values, c) { }
      SameMap(h.key.values, key.values);
    }
  }

  // The feed shows a stored row in exactly this form.
  lemma ShownIsHookRow(w: World, e: Engine, t: string, id: string, data: Row, h: HookRow)
    ensures Shows(w, e, t, id, data, h) <==> HookRowOf(w, e, t, id, data) == Ok(h)
  {
    KeyIsKey(e, t, id, h);
    match CurrentRow(w, e, t, data)
    case Err(_) =>
    case Ok(current) =>
      RetainedIsTrimmed(e, t, current, h.row);
      forall other | IsCurrent(w, e, t, data, other) ensures other == current { }
      assert IsCurrent(w, e, t, data, current);
  }

  // ---------------------------------------------------------------- the rows of a table

  ghost predicate IsShown(w: World, e: Engine, t: string, stored: map<string, Row>, id: string, h: HookRow) {
    id in stored && Shows(w, e, t, id, stored[id], h)
  }

  // A row of the table; of several with one key only the last counts.
  ghost predicate IsLast(w: World, e: Engine, t: string, stored: map<string, Row>, id: string, h: HookRow) {
    && IsShown(w, e, t, stored, id, h)
    && forall other, g ::
      IsShown(w, e, t, stored, other, g) && w.identity(g.key) == w.identity(h.key) ==> AtMost(other, id)
  }

  ghost predicate IsListed(w: World, engines: Engines, d: string, t: string, h: HookRow) {
    StoredIn(engines, d, t).Some? && exists id :: IsLast(w, engines[d], t, engines[d].rows[t], id, h)
  }

  // The last of some ids with a shown row of this identity.
  ghost predicate IsLastOf(w: World, e: Engine, t: string, stored: map<string, Row>, ids: seq<string>, n: nat,
      h: HookRow)
  {
    && n < |ids| && IsShown(w, e, t, stored, ids[n], h)
    && forall k, g :: n < k < |ids| && IsShown(w, e, t, stored, ids[k], g) ==> w.identity(g.key) != w.identity(h.key)
  }

  ghost predicate FilesLast(
    w: World, e: Engine, t: string, stored: map<string, Row>, ids: seq<string>, rows: map<string, HookRow>, h: HookRow)
  {
    Get(rows, w.identity(h.key)) == Some(h) <==> exists n: nat :: IsLastOf(w, e, t, stored, ids, n, h)
  }

  lemma OneRowShown(w: World, e: Engine, t: string, stored: map<string, Row>, id: string, h: HookRow, g: HookRow)
    requires IsShown(w, e, t, stored, id, h) && IsShown(w, e, t, stored, id, g)
    ensures g == h
  {
    ShownIsHookRow(w, e, t, id, stored[id], h);
    ShownIsHookRow(w, e, t, id, stored[id], g);
  }

  lemma OneMoreLast(
    w: World, e: Engine, t: string, stored: map<string, Row>, init: seq<string>, id: string, row: HookRow, h: HookRow)
    requires IsShown(w, e, t, stored, id, row)
    ensures (exists n: nat :: IsLastOf(w, e, t, stored, init + [id], n, h)) <==>
      h == row || (w.identity(h.key) != w.identity(row.key) && exists n: nat :: IsLastOf(w, e, t, stored, init, n, h))
  {
    var ids := init + [id];
    if n: nat :| IsLastOf(w, e, t, stored, ids, n, h) {
      if n < |init| {
        assert IsLastOf(w, e, t, stored, init, n, h) by {
          forall k, g | n < k < |init| && IsShown(w, e, t, stored, init[k], g)
            ensures w.identity(g.key) != w.identity(h.key)
          {
            assert ids[k] == init[k];
          }
        }
        assert ids[|init|] == id;
      } else {
        OneRowShown(w, e, t, stored, id, row, h);
      }
    }
    if h == row { assert IsLastOf(w, e, t, stored, ids, |init|, h); }
    if n: nat :| w.identity(h.key) != w.identity(row.key) && IsLastOf(w, e, t, stored, init, n, h) {
      forall k, g | n < k < |ids| && IsShown(w, e, t, stored, ids[k], g)
        ensures w.identity(g.key) != w.identity(h.key)
      {
        if k < |init| { assert ids[k] == init[k]; } else { OneRowShown(w, e, t, stored, id, row, g); }
      }
      assert IsLastOf(w, e, t, stored, ids, n, h);
    }
  }

  lemma {:induction false} RowsFromFiles(
    w: World, e: Engine, t: string, stored: map<string, Row>, ids: seq<string>, h: HookRow)
    requires (forall id :: id in ids ==> id in stored) && RowsFrom(w, e, t, stored, ids).Ok?
    ensures FilesLast(w, e, t, stored, ids, RowsFrom(w, e, t, stored, ids).value, h)
  {
    if ids != [] {
      var init, id := ids[..|ids| - 1], ids[|ids| - 1];
      var row := HookRowOf(w, e, t, id, stored[id]).value;
      InitAndLast(ids);
      RowsFromFiles(w, e, t, stored, init, h);
      ShownIsHookRow(w, e, t, id, stored[id], row);
      OneMoreLast(w, e, t, stored, init, id, row, h);
    }
  }

  lemma LastInOrder(w: World, e: Engine, t: string, stored: map<string, Row>, ids: seq<string>, h: HookRow)
    requires StrictlySorted(ids) && forall id :: id in ids <==> id in stored
    ensures (exists n: nat :: IsLastOf(w, e, t, stored, ids, n, h)) <==> exists id :: IsLast(w, e, t, stored, id, h)
  {
    if n: nat :| IsLastOf(w, e, t, stored, ids, n, h) {
      forall other, g | IsShown(w, e, t, stored, other, g) && w.identity(g.key) == w.identity(h.key)
        ensures AtMost(other, ids[n])
      {
        var k :| 0 <= k < |ids| && ids[k] == other;
        assert k <= n;
      }
      assert IsLast(w, e, t, stored, ids[n], h);
    }
    if id :| IsLast(w, e, t, stored, id, h) {
      var n: nat :| n < |ids| && ids[n] == id;
      forall k, g | n < k < |ids| && IsShown(w, e, t, stored, ids[k], g)
        ensures w.identity(g.key) != w.identity(h.key)
      {
        if w.identity(g.key) == w.identity(h.key) {
          LessNotAtMost(id, ids[k]);
          assert false;
        }
      }
      assert IsLastOf(w, e, t, stored, ids, n, h);
    }
  }

  lemma LessNotAtMost(a: string, b: string)
    requires Less(a, b)
    ensures !AtMost(b, a)
  {
    LessIrreflexive(a);
    if Less(b, a) { LessTransitive(a, b, a); }
  }

  // The rows the feed compares are exactly the listed ones, each under the identity of its key.
  lemma HookRowsAreListed(w: World, engines: Engines, d: string, t: string, h: HookRow)
    requires HookRows(w, engines, d, t).Ok?
    ensures Get(HookRows(w, engines, d, t).value, w.identity(h.key)) == Some(h) <==> IsListed(w, engines, d, t, h)
  {
    if StoredIn(engines, d, t).Some? {
      var e, stored := engines[d], engines[d].rows[t];
      var ids := SortedKeys(stored.Keys);
      SortedKeysSorted(stored.Keys);
      RowsFromFiles(w, e, t, stored, ids, h);
      LastInOrder(w, e, t, stored, ids, h);
    }
  }

  lemma {:induction false} AllAreShown(w: World, e: Engine, t: string, stored: map<string, Row>, ids: seq<string>)
    requires (forall id :: id in ids ==> id in stored) && RowsFrom(w, e, t, stored, ids).Ok?
    ensures forall id :: id in ids ==> HookRowOf(w, e, t, id, stored[id]).Ok?
  {
    if ids != [] {
      AllAreShown(w, e, t, stored, ids[..|ids| - 1]);
      InitAndLast(ids);
    }
  }

  lemma EveryRowIsShown(w: World, engines: Engines, d: string, t: string, id: string) returns (h: HookRow)
    requires HookRows(w, engines, d, t).Ok? && StoredIn(engines, d, t).Some? && id in engines[d].rows[t]
    ensures IsShown(w, engines[d], t, engines[d].rows[t], id, h)
  {
    var e, stored := engines[d], engines[d].rows[t];
    SortedKeysSorted(stored.Keys);
    AllAreShown(w, e, t, stored, SortedKeys(stored.Keys));
    h := HookRowOf(w, e, t, id, stored[id]).value;
    ShownIsHookRow(w, e, t, id, stored[id], h);
  }

  ghost predicate TellsKeysApart(w: World) {
    forall a, b :: w.identity(a) == w.identity(b) ==> a == b
  }

  ghost predicate HasOwnKeys(w: World, e: Engine, t: string, stored: map<string, Row>) {
    forall a, b, g, f | IsShown(w, e, t, stored, a, g) && IsShown(w, e, t, stored, b, f) && a != b :: g.key != f.key
  }

  // Every row of a table whose keys are pairwise different appears, under its own key.
  lemma DifferentKeysAllAppear(w: World, engines: Engines, d: string, t: string, id: string) returns (h: HookRow)
    requires HookRows(w, engines, d, t).Ok? && StoredIn(engines, d, t).Some? && id in engines[d].rows[t]
    requires TellsKeysApart(w) && HasOwnKeys(w, engines[d], t, engines[d].rows[t])
    ensures IsShown(w, engines[d], t, engines[d].rows[t], id, h)
    ensures Get(HookRows(w, engines, d, t).value, w.identity(h.key)) == Some(h)
  {
    h := EveryRowIsShown(w, engines, d, t, id);
    assert IsLast(w, engines[d], t, engines[d].rows[t], id, h);
    HookRowsAreListed(w, engines, d, t, h);
  }
}
