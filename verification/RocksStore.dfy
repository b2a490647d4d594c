/** The key-value store behind the built-in backend: RocksDB as a byte-ordered map with ordered
    iteration and atomic ordered batches. A hash field lives under `namespace NUL field`. */
module RocksStore {
  import opened Ordering
  import opened Wrappers
  import opened TableKeys

  datatype StorageWrite<+V> =
    | HSet(key: string, field: string, value: V)
    | HDel(key: string, field: string)
    | Del(key: string)

  // The two operations of a RocksDB write batch.
  datatype BatchOp<+V> = PutKey(key: string, value: V) | DeleteKey(key: string)

  function NamespacePrefix(key: string): string {
    key + [NUL]
  }

  function FieldKey(key: string, field: string): string {
    NamespacePrefix(key) + field
  }

  // ---------------------------------------------------------------- what a namespace holds

  function KeysUnder<V>(db: map<string, V>, prefix: string): set<string> {
    set k | k in db && prefix <= k
  }

  function Fields<V>(db: map<string, V>, key: string): set<string> {
    set k | k in KeysUnder(db, NamespacePrefix(key)) :: k[|NamespacePrefix(key)|..]
  }

  lemma FieldsAreKeys<V>(db: map<string, V>, key: string, field: string)
    ensures field in Fields(db, key) <==> FieldKey(key, field) in db
    ensures NamespacePrefix(key) <= FieldKey(key, field)
    ensures FieldKey(key, field)[|NamespacePrefix(key)|..] == field
  {
    if field in Fields(db, key) {
      var k :| k in KeysUnder(db, NamespacePrefix(key)) && k[|NamespacePrefix(key)|..] == field;
      assert k == FieldKey(key, field);
    }
    if FieldKey(key, field) in db {
      assert FieldKey(key, field) in KeysUnder(db, NamespacePrefix(key));
    }
  }

  // The hash stored at a namespace.
  function HashAt<V>(db: map<string, V>, key: string): (h: map<string, V>)
    ensures h.Keys == Fields(db, key)
    ensures forall f :: f in h ==> FieldKey(key, f) in db && h[f] == db[FieldKey(key, f)]
  {
    assert forall f | f in Fields(db, key) :: FieldKey(key, f) in db by {
      forall f | f in Fields(db, key) ensures FieldKey(key, f) in db { FieldsAreKeys(db, key, f); }
    }
    map f | f in Fields(db, key) :: db[FieldKey(key, f)]
  }

  // A NUL-free namespace never captures the keys of another one.
  lemma NamespacesAreDisjoint(n1: string, n2: string, field: string)
    requires NulFree(n1) && NulFree(n2)
    ensures NamespacePrefix(n2) <= FieldKey(n1, field) <==> n1 == n2
  {
    if NamespacePrefix(n2) <= FieldKey(n1, field) {
      var k := FieldKey(n1, field);
      assert k[|n1|] == NUL && k[|n2|] == NUL;
      assert forall i :: 0 <= i < |n1| ==> k[i] == n1[i];
      assert forall i :: 0 <= i < |n2| ==> k[i] == n2[i];
      assert n1 == k[..|n1|] && n2 == k[..|n2|];
    }
  }

  lemma HashPoint<V>(db: map<string, V>, key: string, f: string)
    ensures Get(HashAt(db, key), f) == Get(db, FieldKey(key, f))
  {
    FieldsAreKeys(db, key, f);
  }

  // Writing the key of a field writes the field, ...
  lemma HashAfterSet<V>(db: map<string, V>, key: string, field: string, value: V)
    ensures HashAt(db[FieldKey(key, field) := value], key) == HashAt(db, key)[field := value]
  {
    var after := db[FieldKey(key, field) := value];
    forall f ensures Get(HashAt(after, key), f) == Get(HashAt(db, key)[field := value], f) {
      HashPoint(db, key, f);
      HashPoint(after, key, f);
      FieldsAreKeys(db, key, f);
      FieldsAreKeys(db, key, field);
    }
    SameMap(HashAt(after, key), HashAt(db, key)[field := value]);
  }

  lemma HashAfterDel<V>(db: map<string, V>, key: string, field: string)
    ensures HashAt(db - {FieldKey(key, field)}, key) == HashAt(db, key) - {field}
  {
    var after := db - {FieldKey(key, field)};
    forall f ensures Get(HashAt(after, key), f) == Get(HashAt(db, key) - {field}, f) {
      HashPoint(db, key, f);
      HashPoint(after, key, f);
      FieldsAreKeys(db, key, f);
      FieldsAreKeys(db, key, field);
    }
    SameMap(HashAt(after, key), HashAt(db, key) - {field});
  }

  // Nothing outside the namespace changed.
  ghost predicate SameOutside<V>(before: map<string, V>, after: map<string, V>, key: string) {
    forall k :: !(NamespacePrefix(key) <= k) ==> Get(after, k) == Get(before, k)
  }

  // ... and no field of another namespace.
  lemma OtherHashes<V>(before: map<string, V>, after: map<string, V>, key: string, other: string)
    requires SameOutside(before, after, key) && NulFree(key) && NulFree(other) && other != key
    ensures HashAt(after, other) == HashAt(before, other)
  {
    forall f ensures Get(HashAt(after, other), f) == Get(HashAt(before, other), f) {
      HashPoint(before, other, f);
      HashPoint(after, other, f);
      NamespacesAreDisjoint(other, key, f);
    }
    SameMap(HashAt(after, other), HashAt(before, other));
  }

  // ---------------------------------------------------------------- ordered scans

  function AtLeastOne(n: nat): nat {
    if n == 0 then 1 else n
  }

  function Take<T>(s: seq<T>, n: nat): seq<T> {
    s[..Min(n, |s|)]
  }

  lemma TakeCons<T>(x: T, s: seq<T>, n: nat)
    requires n > 0
    ensures Take([x] + s, n) == [x] + Take(s, n - 1)
  {
  }

  function After(keys: set<string>, cursor: Option<string>): set<string> {
    set k | k in keys && (cursor.Some? ==> Less(cursor.value, k))
  }

  // Iteration from a start key: stop outside the prefix, skip up to the cursor, stop when full.
  function ScanRest(keys: seq<string>, i: nat, prefix: string, cursor: Option<string>, room: nat): seq<string>
    requires i <= |keys|
    decreases |keys| - i
  {
    if i == |keys| || room == 0 || !(prefix <= keys[i]) then []
    else if cursor.Some? && AtMost(keys[i], cursor.value) then ScanRest(keys, i + 1, prefix, cursor, room)
    else [keys[i]] + ScanRest(keys, i + 1, prefix, cursor, room - 1)
  }

  // The first n keys have the prefix and the others do not.
  predicate PrefixFirst(keys: seq<string>, prefix: string, n: nat) {
    n <= |keys| && forall i :: 0 <= i < |keys| ==> (prefix <= keys[i] <==> i < n)
  }

  predicate Wanted(k: string, prefix: string, cursor: Option<string>) {
    prefix <= k && (cursor.Some? ==> !AtMost(k, cursor.value))
  }

  function Select(keys: seq<string>, i: nat, prefix: string, cursor: Option<string>): (r: seq<string>)
    requires i <= |keys|
    ensures forall k :: k in r <==> k in keys[i..] && Wanted(k, prefix, cursor)
    decreases |keys| - i
  {
    if i == |keys| then []
    else
      var rest := Select(keys, i + 1, prefix, cursor);
      assert keys[i..] == [keys[i]] + keys[i + 1..];
      if Wanted(keys[i], prefix, cursor) then [keys[i]] + rest else rest
  }

  lemma {:induction false} SelectSorted(keys: seq<string>, i: nat, prefix: string, cursor: Option<string>)
    requires i <= |keys| && StrictlySorted(keys)
    ensures StrictlySorted(Select(keys, i, prefix, cursor))
    decreases |keys| - i
  {
    if i < |keys| {
      var rest := Select(keys, i + 1, prefix, cursor);
      SelectSorted(keys, i + 1, prefix, cursor);
      forall j | 0 <= j < |rest| ensures Less(keys[i], rest[j]) {
        assert rest[j] in keys[i + 1..];
      }
    }
  }

  lemma {:induction false} SelectNothing(keys: seq<string>, i: nat, prefix: string, cursor: Option<string>)
    requires i <= |keys| && forall j :: i <= j < |keys| ==> !(prefix <= keys[j])
    ensures Select(keys, i, prefix, cursor) == []
    decreases |keys| - i
  {
    if i < |keys| { SelectNothing(keys, i + 1, prefix, cursor); }
  }

  // When the keys with the prefix come first, the scan selects them all until it is full.
  lemma {:induction false} ScanSelects(keys: seq<string>, i: nat, prefix: string, n: nat, cursor: Option<string>,
      room: nat)
    requires i <= |keys| && PrefixFirst(keys, prefix, n)
    ensures ScanRest(keys, i, prefix, cursor, room) == Take(Select(keys, i, prefix, cursor), room)
    decreases |keys| - i
  {
    if i >= n {
      SelectNothing(keys, i, prefix, cursor);
    } else if room > 0 {
      if cursor.Some? && AtMost(keys[i], cursor.value) {
        ScanSelects(keys, i + 1, prefix, n, cursor, room);
      } else {
        ScanSelects(keys, i + 1, prefix, n, cursor, room - 1);
        TakeCons(keys[i], Select(keys, i + 1, prefix, cursor), room);
      }
    }
  }

  // A foreign key between the seek position and the namespace ends the scan at once.
  predicate Blocked<V>(db: map<string, V>, prefix: string, start: string) {
    exists k :: k in db && AtMost(start, k) && Less(k, prefix)
  }

  function Start(prefix: string, cursor: Option<string>): string {
    if cursor.Some? then cursor.value else prefix
  }

  // The keys a page scan answers.
  function PageKeys<V>(db: map<string, V>, prefix: string, cursor: Option<string>, count: nat): seq<string> {
    if Blocked(db, prefix, Start(prefix, cursor)) then []
    else Take(SortedKeys(After(KeysUnder(db, prefix), cursor)), AtLeastOne(count))
  }

  function SeekKeys<V>(db: map<string, V>, start: string): seq<string> {
    SortedKeys(set k | k in db && AtMost(start, k))
  }

  // Above the prefix, sorted keys leave the namespace once and for all.
  lemma PrefixRun(keys: seq<string>, prefix: string) returns (n: nat)
    requires StrictlySorted(keys)
    requires forall i :: 0 <= i < |keys| ==> AtMost(prefix, keys[i])
    ensures PrefixFirst(keys, prefix, n)
  {
    n := 0;
    while n < |keys| && prefix <= keys[n]
      invariant n <= |keys| && forall i :: 0 <= i < n ==> prefix <= keys[i]
    {
      n := n + 1;
    }
    forall i | n <= i < |keys| ensures !(prefix <= keys[i]) {
      if prefix <= keys[i] { PrefixIsConvex(prefix, prefix, keys[n], keys[i]); }
    }
  }

  lemma SeekIsSorted<V>(db: map<string, V>, start: string)
    ensures StrictlySorted(SeekKeys(db, start))
    ensures forall k :: k in SeekKeys(db, start) <==> k in db && AtMost(start, k)
  {
    SortedKeysSorted(set k | k in db && AtMost(start, k));
  }

  lemma ScanBlocked<V>(db: map<string, V>, prefix: string, start: string, cursor: Option<string>, room: nat)
    requires Blocked(db, prefix, start)
    ensures ScanRest(SeekKeys(db, start), 0, prefix, cursor, room) == []
  {
    var keys := SeekKeys(db, start);
    SeekIsSorted(db, start);
    var k :| k in db && AtMost(start, k) && Less(k, prefix);
    assert k in keys;
    if prefix <= keys[0] {
      PrefixAtMost(prefix, keys[0]);
      assert AtMost(keys[0], k);
      AtMostLess(keys[0], k, prefix);
      NotBetween(prefix, keys[0]);
      assert false;
    }
  }

  lemma AtMostLess(a: string, b: string, c: string)
    requires AtMost(a, b) && Less(b, c)
    ensures Less(a, c)
  {
    if a != b { LessTransitive(a, b, c); }
  }

  lemma SelectIsSorted<V>(db: map<string, V>, keys: seq<string>, prefix: string, start: string, cursor: Option<string>)
    requires start == if cursor.Some? then cursor.value else prefix
    requires StrictlySorted(keys) && forall k :: k in keys <==> k in db && AtMost(start, k)
    ensures Select(keys, 0, prefix, cursor) == SortedKeys(After(KeysUnder(db, prefix), cursor))
  {
    var chosen := Select(keys, 0, prefix, cursor);
    var wanted := After(KeysUnder(db, prefix), cursor);
    SelectSorted(keys, 0, prefix, cursor);
    SortedKeysSorted(wanted);
    forall k ensures k in chosen <==> k in wanted {
      if prefix <= k { PrefixAtMost(prefix, k); }
      if cursor.Some? {
        LessTotal(cursor.value, k);
        if AtMost(k, cursor.value) { NotBetween(k, cursor.value); }
      }
    }
    SortedIsUnique(chosen, SortedKeys(wanted));
  }

  lemma ScanFromSeek<V>(db: map<string, V>, prefix: string, cursor: Option<string>, count: nat)
    ensures ScanRest(SeekKeys(db, Start(prefix, cursor)), 0, prefix, cursor, AtLeastOne(count))
         == PageKeys(db, prefix, cursor, count)
  {
    var start := Start(prefix, cursor);
    if Blocked(db, prefix, start) {
      ScanBlocked(db, prefix, start, cursor, AtLeastOne(count));
    } else {
      var keys := SeekKeys(db, start);
      SeekIsSorted(db, start);
      forall i | 0 <= i < |keys| ensures AtMost(prefix, keys[i]) {
        assert keys[i] in keys;
        LessTotal(keys[i], prefix);
      }
      var n := PrefixRun(keys, prefix);
      ScanSelects(keys, 0, prefix, n, cursor, AtLeastOne(count));
      SelectIsSorted(db, keys, prefix, start, cursor);
    }
  }

  // ---------------------------------------------------------------- paging one hash

  // The fields after a cursor, in order; the cursor "0" starts over.
  function FieldsAfter<V>(db: map<string, V>, key: string, cursor: Option<string>): seq<string> {
    SortedKeys(After(Fields(db, key), if cursor == Some("0") then None else cursor))
  }

  function Prefixed(prefix: string, fields: seq<string>): (r: seq<string>)
    ensures |r| == |fields| && forall i :: 0 <= i < |r| ==> r[i] == prefix + fields[i]
  {
    seq(|fields|, i requires 0 <= i < |fields| => prefix + fields[i])
  }

  lemma PrefixedSorted(prefix: string, fields: seq<string>)
    requires StrictlySorted(fields)
    ensures StrictlySorted(Prefixed(prefix, fields))
  {
    var full := Prefixed(prefix, fields);
    forall i, j | 0 <= i < j < |full| ensures Less(full[i], full[j]) {
      PrefixPreservesOrder(prefix, fields[i], fields[j]);
    }
  }

  lemma PrefixedHas(prefix: string, fields: seq<string>, f: string)
    ensures prefix + f in Prefixed(prefix, fields) <==> f in fields
  {
    var full := Prefixed(prefix, fields);
    if f in fields {
      var i :| 0 <= i < |fields| && fields[i] == f;
      assert full[i] == prefix + f;
    }
    if prefix + f in full {
      var i :| 0 <= i < |full| && full[i] == prefix + f;
      assert f == (prefix + f)[|prefix|..] == fields[i];
    }
  }

  // The cursor of a hash scan, as a full key.
  function FullCursor(key: string, cursor: Option<string>): Option<string> {
    if cursor.Some? then Some(FieldKey(key, cursor.value)) else None
  }

  lemma AfterFullKey<V>(db: map<string, V>, key: string, cursor: Option<string>, k: string)
    requires NamespacePrefix(key) <= k
    ensures k in After(KeysUnder(db, NamespacePrefix(key)), FullCursor(key, cursor))
       <==> k[|NamespacePrefix(key)|..] in After(Fields(db, key), cursor)
  {
    var f := k[|NamespacePrefix(key)|..];
    assert k == FieldKey(key, f);
    FieldsAreKeys(db, key, f);
    if cursor.Some? { PrefixPreservesOrder(NamespacePrefix(key), cursor.value, f); }
  }

  lemma FullKeysSortAsFields<V>(db: map<string, V>, key: string, cursor: Option<string>)
    ensures SortedKeys(After(KeysUnder(db, NamespacePrefix(key)), FullCursor(key, cursor)))
         == Prefixed(NamespacePrefix(key), SortedKeys(After(Fields(db, key), cursor)))
  {
    var prefix := NamespacePrefix(key);
    var wanted := After(KeysUnder(db, prefix), FullCursor(key, cursor));
    var fields := SortedKeys(After(Fields(db, key), cursor));
    SortedKeysSorted(wanted);
    SortedKeysSorted(After(Fields(db, key), cursor));
    PrefixedSorted(prefix, fields);
    forall k ensures k in SortedKeys(wanted) <==> k in Prefixed(prefix, fields) {
      if prefix <= k {
        AfterFullKey(db, key, cursor, k);
        PrefixedHas(prefix, fields, k[|prefix|..]);
        assert prefix + k[|prefix|..] == k;
      }
    }
    SortedIsUnique(SortedKeys(wanted), Prefixed(prefix, fields));
  }

  // What hscan answers: the page and the next cursor.
  function NextCursor(fields: seq<string>, count: nat): string {
    if count >= 1 && |fields| > count then fields[count - 1] else "0"
  }

  // ---------------------------------------------------------------- batches

  function ApplyOps<V>(db: map<string, V>, ops: seq<BatchOp<V>>): map<string, V> {
    if ops == [] then db else
      var before := ApplyOps(db, ops[..|ops| - 1]);
      match ops[|ops| - 1]
      case PutKey(k, v) => before[k := v]
      case DeleteKey(k) => before - {k}
  }

  // One write on the store so far; Del takes its keys from the store as it was before the batch.
  function ApplyWrite<V>(stored: map<string, V>, db: map<string, V>, write: StorageWrite<V>): map<string, V> {
    match write
    case HSet(key, field, value) => db[FieldKey(key, field) := value]
    case HDel(key, field) => db - {FieldKey(key, field)}
    case Del(key) => db - KeysUnder(stored, NamespacePrefix(key))
  }

  function ApplyWritesFrom<V>(stored: map<string, V>, db: map<string, V>,
      writes: seq<StorageWrite<V>>): map<string, V>
  {
    if writes == [] then db
    else ApplyWrite(stored, ApplyWritesFrom(stored, db, writes[..|writes| - 1]), writes[|writes| - 1])
  }

  function ApplyWrites<V>(stored: map<string, V>, writes: seq<StorageWrite<V>>): map<string, V> {
    ApplyWritesFrom(stored, stored, writes)
  }

  lemma {:induction false} ApplyWritesAppend<V>(stored: map<string, V>, db: map<string, V>,
                                                a: seq<StorageWrite<V>>, b: seq<StorageWrite<V>>)
    ensures ApplyWritesFrom(stored, db, a + b) == ApplyWritesFrom(stored, ApplyWritesFrom(stored, db, a), b)
  {
    if b == [] {
      assert a + b == a;
    } else {
      assert (a + b)[..|a + b| - 1] == a + b[..|b| - 1];
      ApplyWritesAppend(stored, db, a, b[..|b| - 1]);
    }
  }

  // Does a write delete this key?
  predicate Deletes<V>(stored: map<string, V>, write: StorageWrite<V>, k: string) {
    match write
    case HSet(_, _, _) => false
    case HDel(key, field) => k == FieldKey(key, field)
    case Del(key) => k in stored && NamespacePrefix(key) <= k
  }

  // A run of deletions removes exactly the keys one of them names.
  lemma {:induction false} DeletionsRemove<V>(stored: map<string, V>, db: map<string, V>,
      writes: seq<StorageWrite<V>>, k: string)
    requires forall w :: w in writes ==> !w.HSet?
    ensures Get(ApplyWritesFrom(stored, db, writes), k)
         == if exists w :: w in writes && Deletes(stored, w, k) then None else Get(db, k)
  {
    if writes != [] {
      var init, last := writes[..|writes| - 1], writes[|writes| - 1];
      assert forall w :: w in writes <==> w in init || w == last;
      DeletionsRemove(stored, db, init, k);
      assert Get(ApplyWrite(stored, ApplyWritesFrom(stored, db, init), last), k)
          == if Deletes(stored, last, k) then None else Get(ApplyWritesFrom(stored, db, init), k);
    }
  }

  lemma {:induction false} ApplyOpsAppend<V>(db: map<string, V>, a: seq<BatchOp<V>>, b: seq<BatchOp<V>>)
    ensures ApplyOps(db, a + b) == ApplyOps(ApplyOps(db, a), b)
  {
    if b == [] {
      assert a + b == a;
    } else {
      assert (a + b)[..|a + b| - 1] == a + b[..|b| - 1];
      ApplyOpsAppend(db, a, b[..|b| - 1]);
    }
  }

  // The rows are those keys with their stored values, in that order.
  ghost predicate Reads<V>(db: map<string, V>, rows: seq<(string, V)>, keys: seq<string>) {
    && |rows| == |keys|
    && forall i :: 0 <= i < |rows| ==> rows[i].0 == keys[i] && keys[i] in db && rows[i].1 == db[keys[i]]
  }

  lemma ReadsAppend<V>(db: map<string, V>, rows: seq<(string, V)>, keys: seq<string>, key: string)
    requires Reads(db, rows, keys) && key in db
    ensures Reads(db, rows + [(key, db[key])], keys + [key])
  {
  }

  function Strip<V>(rows: seq<(string, V)>, n: nat): (r: seq<(string, V)>)
    requires forall i :: 0 <= i < |rows| ==> n <= |rows[i].0|
    ensures |r| == |rows| && forall i :: 0 <= i < |r| ==> r[i] == (rows[i].0[n..], rows[i].1)
  {
    seq(|rows|, i requires 0 <= i < |rows| => (rows[i].0[n..], rows[i].1))
  }

  lemma ReadsFields<V>(db: map<string, V>, key: string, rows: seq<(string, V)>, fields: seq<string>, n: nat)
    requires Reads(db, rows, Take(Prefixed(NamespacePrefix(key), fields), n))
    ensures forall i :: 0 <= i < |rows| ==> |NamespacePrefix(key)| <= |rows[i].0|
    ensures Reads(HashAt(db, key), Strip(rows, |NamespacePrefix(key)|), Take(fields, n))
  {
    forall i | 0 <= i < |rows| ensures rows[i].0 == FieldKey(key, fields[i]) && fields[i] in Fields(db, key) {
      FieldsAreKeys(db, key, fields[i]);
    }
    forall i | 0 <= i < |rows| ensures rows[i].0[|NamespacePrefix(key)|..] == fields[i] {
      FieldsAreKeys(db, key, fields[i]);
    }
  }

  lemma ReadsTake<V>(db: map<string, V>, rows: seq<(string, V)>, keys: seq<string>, n: nat, m: nat)
    requires m <= n && Reads(db, rows, Take(keys, n))
    ensures Reads(db, Take(rows, m), Take(keys, m))
  {
  }

  lemma LastField<V>(db: map<string, V>, rows: seq<(string, V)>, fields: seq<string>, count: nat)
    requires Reads(db, rows, Take(fields, AtLeastOne(count)))
    ensures count >= 1 && |fields| > count ==> |rows| == count && rows[count - 1].0 == fields[count - 1]
  {
  }

  lemma ScanAsFields<V>(db: map<string, V>, key: string, cursor: Option<string>, from: Option<string>, n: nat)
    requires n > 0 && from == if cursor == Some("0") then None else cursor
    ensures PageKeys(db, NamespacePrefix(key), FullCursor(key, from), n)
         == Take(Prefixed(NamespacePrefix(key), FieldsAfter(db, key, cursor)), n)
  {
    NotBlocked(db, key, FullCursor(key, from));
    FullKeysSortAsFields(db, key, from);
  }

  // One row too many was asked for, so a longer answer means there is a next page.
  lemma HashPage<V>(db: map<string, V>, key: string, found: seq<(string, V)>, fields: seq<string>, count: nat)
    requires Reads(db, found, Take(Prefixed(NamespacePrefix(key), fields), count + 1))
    ensures var page := Take(found, AtLeastOne(count));
      && (forall i :: 0 <= i < |page| ==> |NamespacePrefix(key)| <= |page[i].0|)
      && var rows := Strip(page, |NamespacePrefix(key)|);
      && Reads(HashAt(db, key), rows, Take(fields, AtLeastOne(count)))
      && (|found| > AtLeastOne(count) ==> rows != [])
      && NextCursor(fields, count) == if |found| > AtLeastOne(count) then rows[|rows| - 1].0 else "0"
  {
    ReadsTake(db, found, Prefixed(NamespacePrefix(key), fields), count + 1, AtLeastOne(count));
    var page := Take(found, AtLeastOne(count));
    ReadsFields(db, key, page, fields, AtLeastOne(count));
    LastField(HashAt(db, key), Strip(page, |NamespacePrefix(key)|), fields, count);
    assert |found| == Min(count + 1, |fields|);
  }

  lemma PushKeeps<T>(done: seq<T>, x: T, found: seq<T>, rest: seq<T>, page: seq<T>)
    requires done + found == page && found == [x] + rest
    ensures (done + [x]) + rest == page
  {
  }

  lemma AppendNothing<T>(a: seq<T>)
    ensures a + [] == a
  {
  }

  // One key more of a scan.
  lemma ScanTakes<V>(db: map<string, V>, keys: seq<string>, i: nat, prefix: string, cursor: Option<string>, room: nat,
                     rows: seq<(string, V)>, done: seq<string>, page: seq<string>)
    requires i < |keys| && keys[i] in db && room > 0
    requires prefix <= keys[i] && !(cursor.Some? && AtMost(keys[i], cursor.value))
    requires Reads(db, rows, done) && done + ScanRest(keys, i, prefix, cursor, room) == page
    ensures Reads(db, rows + [(keys[i], db[keys[i]])], done + [keys[i]])
    ensures done + [keys[i]] + ScanRest(keys, i + 1, prefix, cursor, room - 1) == page
  {
    ReadsAppend(db, rows, done, keys[i]);
    Shift(done, [keys[i]], ScanRest(keys, i + 1, prefix, cursor, room - 1));
  }

  class RocksDbStore<V> {
    var db: map<string, V>

    constructor ()
      ensures db == map[]
    {
      db := map[];
    }

    method ScanPrefixPage(prefix: string, cursor: Option<string>, count: nat) returns (rows: seq<(string, V)>)
      ensures Reads(db, rows, PageKeys(db, prefix, cursor, count))
    {
      var keys := SeekKeys(db, Start(prefix, cursor));
      var room := AtLeastOne(count);
      ScanFromSeek(db, prefix, cursor, count);
      ghost var page := PageKeys(db, prefix, cursor, count);
      ghost var done: seq<string> := [];
      rows := [];
      var i := 0;
      while i < |keys|
        invariant 0 <= i <= |keys| && |rows| < AtLeastOne(count) && room == AtLeastOne(count) - |rows|
        invariant Reads(db, rows, done)
        invariant done + ScanRest(keys, i, prefix, cursor, room) == page
      {
        var key := keys[i];
        assert key in keys;
        if !(prefix <= key) {
          break;
        }
        if cursor.Some? && AtMost(key, cursor.value) {
          i := i + 1;
          continue;
        }
        ScanTakes(db, keys, i, prefix, cursor, room, rows, done, page);
        rows, room := rows + [(key, db[key])], room - 1;
        done := done + [key];
        i := i + 1;
        if |rows| >= AtLeastOne(count) {
          break;
        }
      }
      AppendNothing(done);
    }

    // No store holds as many keys as the source's `usize::MAX` page.
    method ScanPrefix(prefix: string) returns (rows: seq<(string, V)>)
      ensures Reads(db, rows, SortedKeys(KeysUnder(db, prefix)))
    {
      rows := ScanPrefixPage(prefix, None, |db|);
      assert After(KeysUnder(db, prefix), None) == KeysUnder(db, prefix);
      SubsetSize(KeysUnder(db, prefix), db.Keys);
      if Blocked(db, prefix, prefix) {
        var k :| k in db && AtMost(prefix, k) && Less(k, prefix);
        NotBetween(prefix, k);
      }
    }

    method HGetAll(key: string) returns (hash: map<string, V>)
      ensures hash == HashAt(db, key)
    {
      var prefix := NamespacePrefix(key);
      var rows := ScanPrefix(prefix);
      hash := map[];
      ghost var keys := SortedKeys(KeysUnder(db, prefix));
      for i := 0 to |rows|
        invariant forall f :: f in hash ==> FieldKey(key, f) in db && hash[f] == db[FieldKey(key, f)]
        invariant forall f :: f in hash <==> FieldKey(key, f) in keys[..i]
      {
        assert keys[i] in keys;
        var field := rows[i].0[|prefix|..];
        assert keys[i] == FieldKey(key, field);
        assert forall f :: FieldKey(key, f)[|prefix|..] == f;
        assert keys[..i + 1] == keys[..i] + [keys[i]];
        hash := hash[field := rows[i].1];
      }
      assert keys[..|rows|] == keys;
      forall f ensures f in hash <==> f in Fields(db, key) {
        FieldsAreKeys(db, key, f);
      }
      assert hash == HashAt(db, key);
    }

    method HScan(key: string, cursor: Option<string>, count: nat)
      returns (next: string, rows: seq<(string, V)>)
      ensures next == NextCursor(FieldsAfter(db, key, cursor), count)
      ensures Reads(HashAt(db, key), rows, Take(FieldsAfter(db, key, cursor), AtLeastOne(count)))
    {
      var prefix := NamespacePrefix(key);
      var from := if cursor == Some("0") then None else cursor;
      var found := ScanPrefixPage(prefix, FullCursor(key, from), count + 1);
      ScanAsFields(db, key, cursor, from, count + 1);
      HashPage(db, key, found, FieldsAfter(db, key, cursor), count);
      var hasMore := |found| > AtLeastOne(count);
      rows := Strip(Take(found, AtLeastOne(count)), |prefix|);
      next := if hasMore then rows[|rows| - 1].0 else "0";
    }

    // The hash gains the field, and nothing outside its namespace changes.
    method HSetField(key: string, field: string, value: V)
      modifies this
      ensures HashAt(db, key) == old(HashAt(db, key))[field := value] && SameOutside(old(db), db, key)
      ensures forall other ::
        NulFree(key) && NulFree(other) && other != key ==> HashAt(db, other) == old(HashAt(db, other))
    {
      HashAfterSet(db, key, field, value);
      ghost var before := db;
      db := db[FieldKey(key, field) := value];
      assert NamespacePrefix(key) <= FieldKey(key, field);
      forall other | NulFree(key) && NulFree(other) && other != key ensures HashAt(db, other) == HashAt(before, other) {
        OtherHashes(before, db, key, other);
      }
    }

    // The hash loses the field, and nothing outside its namespace changes.
    method HDelField(key: string, field: string)
      modifies this
      ensures HashAt(db, key) == old(HashAt(db, key)) - {field} && SameOutside(old(db), db, key)
      ensures forall other ::
        NulFree(key) && NulFree(other) && other != key ==> HashAt(db, other) == old(HashAt(db, other))
    {
      HashAfterDel(db, key, field);
      ghost var before := db;
      db := db - {FieldKey(key, field)};
      assert NamespacePrefix(key) <= FieldKey(key, field);
      forall other | NulFree(key) && NulFree(other) && other != key ensures HashAt(db, other) == HashAt(before, other) {
        OtherHashes(before, db, key, other);
      }
    }

    // One deletion for every key the store holds in a namespace.
    method DeleteAll(batch: seq<BatchOp<V>>, key: string) returns (extended: seq<BatchOp<V>>)
      ensures ApplyOps(db, extended) == ApplyOps(db, batch) - KeysUnder(db, NamespacePrefix(key))
    {
      extended := batch;
      var rows := ScanPrefix(NamespacePrefix(key));
      ghost var keys := SortedKeys(KeysUnder(db, NamespacePrefix(key)));
      for j := 0 to |rows|
        invariant ApplyOps(db, extended) == ApplyOps(db, batch) - Elements(keys[..j])
      {
        assert keys[..j + 1] == keys[..j] + [keys[j]];
        ApplyOpsAppend(db, extended, [DeleteKey(rows[j].0)]);
        extended := extended + [DeleteKey(rows[j].0)];
      }
      assert keys[..|rows|] == keys;
      assert Elements(keys) == KeysUnder(db, NamespacePrefix(key));
    }

    // The batch is assembled against the unchanged store and then lands in one step.
    method WriteBatch(writes: seq<StorageWrite<V>>)
      modifies this
      ensures db == ApplyWrites(old(db), writes)
    {
      var batch: seq<BatchOp<V>> := [];
      for i := 0 to |writes|
        invariant db == old(db)
        invariant ApplyOps(db, batch) == ApplyWrites(db, writes[..i])
      {
        assert writes[..i + 1][..i] == writes[..i];
        match writes[i]
        case HSet(key, field, value) =>
          ApplyOpsAppend(db, batch, [PutKey(FieldKey(key, field), value)]);
          batch := batch + [PutKey(FieldKey(key, field), value)];
        case HDel(key, field) =>
          ApplyOpsAppend(db, batch, [DeleteKey(FieldKey(key, field))]);
          batch := batch + [DeleteKey(FieldKey(key, field))];
        case Del(key) =>
          batch := DeleteAll(batch, key);
      }
      assert writes[..|writes|] == writes;
      db := ApplyOps(db, batch);
    }
  }

  function Elements(s: seq<string>): set<string> {
    set k | k in s
  }

  lemma SubsetSize<T>(a: set<T>, b: set<T>)
    requires a <= b
    ensures |a| <= |b|
  {
    if a != {} {
      var x :| x in a;
      SubsetSize(a - {x}, b - {x});
    }
  }

  lemma NotBetween(a: string, b: string)
    requires AtMost(a, b)
    ensures !Less(b, a)
  {
    if a == b { LessIrreflexive(a); } else { LessAsymmetric(a, b); }
  }

  lemma NotBlocked<V>(db: map<string, V>, key: string, cursor: Option<string>)
    requires cursor.Some? ==> NamespacePrefix(key) <= cursor.value
    ensures !Blocked(db, NamespacePrefix(key), if cursor.Some? then cursor.value else NamespacePrefix(key))
  {
    var prefix := NamespacePrefix(key);
    var start := if cursor.Some? then cursor.value else prefix;
    PrefixAtMost(prefix, start);
    forall k | k in db && AtMost(start, k) ensures !Less(k, prefix) {
      if prefix != start && start != k { LessTransitive(prefix, start, k); }
      NotBetween(prefix, k);
    }
  }
}
