/** Reading a table page by page: how far the reload loop gets (`hscan` behind `load_state`,
    and `page_rows` of the file backends). */
module Paging {
  import opened Wrappers
  import opened Ordering
  import opened RocksStore

  const END_SENTINEL := "0"

  // Where the loop over hscan stops: at the end, or after a page whose last field is taken for
  // the end marker.
  function PagesEnd(fields: seq<string>, from: nat, limit: nat): (end: nat)
    requires limit >= 1 && from <= |fields|
    ensures from <= end <= |fields|
    decreases |fields| - from
  {
    if |fields| - from <= limit then |fields|
    else if fields[from + limit - 1] == END_SENTINEL then from + limit
    else PagesEnd(fields, from + limit, limit)
  }

  function Below(keys: set<string>, bound: string): set<string> {
    set k | k in keys && Less(k, bound)
  }

  // The field "0" closes a full page and is not the last field.
  predicate SentinelClosesPage(keys: set<string>, limit: nat)
    requires limit >= 1
  {
    && END_SENTINEL in keys
    && var position := |Below(keys, END_SENTINEL)| + 1;
       position % limit == 0 && position < |keys|
  }

  lemma ElementsCount(fields: seq<string>)
    requires StrictlySorted(fields)
    ensures |Elements(fields)| == |fields|
  {
    SortedKeysSorted(Elements(fields));
    SortedIsUnique(SortedKeys(Elements(fields)), fields);
  }

  // A field's position is the number of fields below it.
  lemma PositionCounts(fields: seq<string>, i: nat)
    requires StrictlySorted(fields) && i < |fields|
    ensures Below(Elements(fields), fields[i]) == Elements(fields[..i])
    ensures |Elements(fields[..i])| == i
  {
    ElementsCount(fields[..i]);
    forall k | k in fields ensures Less(k, fields[i]) <==> k in fields[..i] {
      var j :| 0 <= j < |fields| && fields[j] == k;
      SameElement(fields, k, j);
      LessIrreflexive(k);
      if j < i {
        assert fields[..i][j] == k;
      } else if j > i {
        LessAsymmetric(fields[i], k);
      }
    }
  }

  // A sorted sequence holds an element at one index only.
  lemma SameElement(fields: seq<string>, k: string, j: nat)
    requires StrictlySorted(fields) && j < |fields| && fields[j] == k
    ensures forall h :: 0 <= h < |fields| && fields[h] == k ==> h == j
  {
    LessIrreflexive(k);
  }

  // A page boundary falls right behind this index.
  predicate ClosesPage(i: nat, limit: nat)
    requires limit >= 1
  {
    (i + 1) % limit == 0
  }

  lemma ModulusUnique(n: nat, m: nat, q: nat, r: nat)
    requires r < m && n == m * q + r
    ensures n % m == r
  {
    var q', r' := n / m, n % m;
    assert n == m * q' + r';
    if q < q' { ProductGrows(m, q, q'); }
    if q' < q { ProductGrows(m, q', q); }
  }

  lemma {:induction false} ProductGrows(m: nat, a: nat, b: nat)
    requires a < b
    ensures m * a + m <= m * b
  {
    if a + 1 < b { ProductGrows(m, a, b - 1); }
    assert m * b == m * (b - 1) + m;
  }

  // Page boundaries are one limit apart.
  lemma NextBoundary(from: nat, i: nat, limit: nat)
    requires limit >= 1 && from % limit == 0 && from <= i < from + limit
    ensures ClosesPage(i, limit) <==> i == from + limit - 1
    ensures (from + limit) % limit == 0
  {
    var q := from / limit;
    assert limit * q + limit == limit * (q + 1);
    ModulusUnique(from + limit, limit, q + 1, 0);
    if i < from + limit - 1 { ModulusUnique(i + 1, limit, q, i + 1 - from); }
  }

  lemma {:induction false} PagesEndAtBoundary(fields: seq<string>, from: nat, limit: nat)
    requires limit >= 1 && from <= |fields| && from % limit == 0
    ensures PagesEnd(fields, from, limit) == |fields|
       <==> !exists i :: from <= i < |fields| - 1 && fields[i] == END_SENTINEL && ClosesPage(i, limit)
    decreases |fields| - from
  {
    forall i | from <= i < |fields| && i < from + limit
      ensures ClosesPage(i, limit) <==> i == from + limit - 1
    {
      NextBoundary(from, i, limit);
    }
    NextBoundary(from, from, limit);
    if |fields| - from > limit && fields[from + limit - 1] != END_SENTINEL {
      PagesEndAtBoundary(fields, from + limit, limit);
    }
  }

  lemma SentinelPosition(keys: set<string>, fields: seq<string>, i: nat)
    requires fields == SortedKeys(keys) && i < |fields| && fields[i] == END_SENTINEL
    ensures |Below(keys, END_SENTINEL)| == i
  {
    SortedKeysSorted(keys);
    PositionCounts(fields, i);
    assert Elements(fields) == keys;
    assert Below(keys, fields[i]) == Below(keys, END_SENTINEL);
  }

  // The paged reload reads every field exactly when no page ends on the field "0" too early.
  lemma PagesAreComplete(keys: set<string>, limit: nat)
    requires limit >= 1
    ensures PagesEnd(SortedKeys(keys), 0, limit) == |keys| <==> !SentinelClosesPage(keys, limit)
  {
    var fields := SortedKeys(keys);
    assert 0 % limit == 0;
    PagesEndAtBoundary(fields, 0, limit);
    if END_SENTINEL in keys {
      assert END_SENTINEL in fields;
      var i :| 0 <= i < |fields| && fields[i] == END_SENTINEL;
      SortedKeysSorted(keys);
      SameElement(fields, END_SENTINEL, i);
      SentinelPosition(keys, fields, i);
      assert SentinelClosesPage(keys, limit) <==> ClosesPage(i, limit) && i < |fields| - 1;
    }
  }

  // ---------------------------------------------------------------- the cursor

  // The cursor after the first `from` fields.
  function CursorAt(fields: seq<string>, from: nat): Option<string>
    requires from <= |fields|
  {
    if from == 0 then None else Some(fields[from - 1])
  }

  // Behind a field, what is left is the rest of the sequence.
  lemma FieldsBehind<V>(db: map<string, V>, key: string, from: nat)
    requires from <= |SortedKeys(Fields(db, key))|
    requires from > 0 ==> SortedKeys(Fields(db, key))[from - 1] != END_SENTINEL
    ensures FieldsAfter(db, key, CursorAt(SortedKeys(Fields(db, key)), from)) == SortedKeys(Fields(db, key))[from..]
  {
    var all := Fields(db, key);
    var fields := SortedKeys(all);
    SortedKeysSorted(all);
    if from == 0 {
      assert RocksStore.After(all, None) == all;
    } else {
      var wanted := RocksStore.After(all, Some(fields[from - 1]));
      SortedKeysSorted(wanted);
      forall k ensures k in SortedKeys(wanted) <==> k in fields[from..] { BehindMeans(fields, from, k); }
      SortedIsUnique(SortedKeys(wanted), fields[from..]);
    }
  }

  lemma BehindMeans(fields: seq<string>, from: nat, k: string)
    requires StrictlySorted(fields) && 0 < from <= |fields|
    ensures k in fields && Less(fields[from - 1], k) <==> k in fields[from..]
  {
    if k in fields {
      var j :| 0 <= j < |fields| && fields[j] == k;
      SameElement(fields, k, j);
      LessIrreflexive(k);
      if j >= from {
        assert fields[from..][j - from] == k;
      } else if j < from - 1 {
        LessAsymmetric(k, fields[from - 1]);
      }
    }
  }

  // ---------------------------------------------------------------- the pager of the file backends

  // The keys behind the cursor, in order; here no key is special.
  function KeysBehind<V>(rows: map<string, V>, cursor: Option<string>): seq<string> {
    SortedKeys(RocksStore.After(rows.Keys, cursor))
  }

  lemma SelectAll<V>(rows: map<string, V>, keys: seq<string>, cursor: Option<string>)
    requires StrictlySorted(keys) && forall k :: k in keys <==> k in rows
    ensures Select(keys, 0, "", cursor) == KeysBehind(rows, cursor)
  {
    var chosen := Select(keys, 0, "", cursor);
    SelectSorted(keys, 0, "", cursor);
    SortedKeysSorted(RocksStore.After(rows.Keys, cursor));
    assert keys[0..] == keys;
    forall k ensures k in chosen <==> k in RocksStore.After(rows.Keys, cursor) {
      if cursor.Some? {
        LessTotal(cursor.value, k);
        if AtMost(k, cursor.value) { NotBetween(k, cursor.value); }
      }
    }
    SortedIsUnique(chosen, KeysBehind(rows, cursor));
  }

  // The greatest key of a page is the last one put into it.
  lemma LastKey<V>(rows: map<string, V>, page: map<string, V>, done: seq<string>)
    requires StrictlySorted(done) && page == Only(rows, done) && forall k :: k in done ==> k in rows
    ensures SortedKeys(page.Keys) == done
  {
    SortedKeysSorted(page.Keys);
    SortedIsUnique(SortedKeys(page.Keys), done);
  }

  // What page_rows answers.
  ghost predicate IsFilePage<V>(rows: map<string, V>, behind: seq<string>, limit: nat,
                                page: map<string, V>, next: Option<string>)
  {
    && page == Only(rows, Take(behind, AtLeastOne(limit)))
    && next == if |behind| > AtLeastOne(limit) then Some(behind[AtLeastOne(limit) - 1]) else None
  }

  // The page so far holds the keys `done`; the selection from index i on is still to come.
  ghost predicate PageState<V>(rows: map<string, V>, keys: seq<string>, i: nat, cursor: Option<string>, limit: nat,
                               page: map<string, V>, done: seq<string>)
  {
    && i <= |keys| && keys == SortedKeys(rows.Keys)
    && done + Select(keys, i, "", cursor) == KeysBehind(rows, cursor)
    && |page| == |done| <= AtLeastOne(limit)
    && page == Only(rows, done)
  }

  lemma PageStart<V>(rows: map<string, V>, keys: seq<string>, cursor: Option<string>, limit: nat)
    requires keys == SortedKeys(rows.Keys)
    ensures PageState(rows, keys, 0, cursor, limit, map[], [])
  {
    SortedKeysSorted(rows.Keys);
    SelectAll(rows, keys, cursor);
  }

  lemma PagePush<V>(rows: map<string, V>, keys: seq<string>, i: nat, cursor: Option<string>, limit: nat,
                    page: map<string, V>, done: seq<string>)
    requires PageState(rows, keys, i, cursor, limit, page, done)
    requires i < |keys| && Wanted(keys[i], "", cursor) && |page| < AtLeastOne(limit)
    ensures keys[i] in rows
    ensures PageState(rows, keys, i + 1, cursor, limit, page[keys[i] := rows[keys[i]]], done + [keys[i]])
  {
    var key := keys[i];
    assert key in keys;
    FreshKey(rows, cursor, done, Select(keys, i, "", cursor), key);
    PushKeeps(done, key, Select(keys, i, "", cursor), Select(keys, i + 1, "", cursor), KeysBehind(rows, cursor));
    OnlyGrows(rows, done, key);
  }

  lemma PageEnd<V>(rows: map<string, V>, keys: seq<string>, i: nat, cursor: Option<string>, limit: nat,
                   page: map<string, V>, done: seq<string>)
    requires PageState(rows, keys, i, cursor, limit, page, done)
    requires i == |keys| || (|page| == AtLeastOne(limit) && Wanted(keys[i], "", cursor))
    ensures i < |keys| ==> |SortedKeys(page.Keys)| == |page| > 0
    ensures IsFilePage(rows, KeysBehind(rows, cursor), limit, page,
                       if i < |keys| then Some(SortedKeys(page.Keys)[|page| - 1]) else None)
  {
    SortedKeysSorted(RocksStore.After(rows.Keys, cursor));
    SortedFront(KeysBehind(rows, cursor), done, Select(keys, i, "", cursor));
    LastKey(rows, page, done);
  }

  lemma SortedFront(all: seq<string>, front: seq<string>, rest: seq<string>)
    requires StrictlySorted(all) && all == front + rest
    ensures StrictlySorted(front) && front == all[..|front|]
    ensures forall k :: k in front ==> k in all
  {
    assert forall i :: 0 <= i < |front| ==> front[i] == all[i];
  }

  method PageRows<V>(stored: Option<map<string, V>>, cursor: Option<string>, limit: nat)
    returns (page: map<string, V>, next: Option<string>)
    ensures var rows := if stored.Some? then stored.value else map[];
            IsFilePage(rows, KeysBehind(rows, cursor), limit, page, next)
  {
    var rows := if stored.Some? then stored.value else map[];
    var keys := SortedKeys(rows.Keys);
    ghost var done: seq<string> := [];
    PageStart(rows, keys, cursor, limit);
    page := map[];
    var more := false;
    var i := 0;
    while i < |keys|
      invariant i <= |keys| && !more
      invariant PageState(rows, keys, i, cursor, limit, page, done)
    {
      if cursor.Some? && AtMost(keys[i], cursor.value) {
        i := i + 1;
        continue;
      }
      if |page| == AtLeastOne(limit) {
        more := true;
        break;
      }
      PagePush(rows, keys, i, cursor, limit, page, done);
      page := page[keys[i] := rows[keys[i]]];
      done := done + [keys[i]];
      i := i + 1;
    }
    PageEnd(rows, keys, i, cursor, limit, page, done);
    next := if more then Some(SortedKeys(page.Keys)[|page| - 1]) else None;
  }

  lemma FreshKey<V>(rows: map<string, V>, cursor: Option<string>, done: seq<string>, rest: seq<string>, key: string)
    requires done + rest == KeysBehind(rows, cursor) && rest != [] && rest[0] == key
    ensures key in rows && key !in done
  {
    var all := KeysBehind(rows, cursor);
    SortedKeysSorted(RocksStore.After(rows.Keys, cursor));
    assert all[|done|] == key;
    SameElement(all, key, |done|);
    assert forall i :: 0 <= i < |done| ==> done[i] == all[i];
    assert key in all;
  }

  // The rows under the first `from` keys.
  ghost function Front<V>(rows: map<string, V>, from: nat): map<string, V>
    requires from <= |rows|
  {
    Only(rows, SortedKeys(rows.Keys)[..from])
  }

  // The loop has read the first `from` keys and its cursor stands on the last of them.
  ghost predicate ReadState<V>(rows: map<string, V>, from: nat, cursor: Option<string>, all: map<string, V>) {
    from <= |rows| && cursor == CursorAt(SortedKeys(rows.Keys), from) && all == Front(rows, from)
  }

  lemma ReadStart<V>(rows: map<string, V>)
    ensures ReadState(rows, 0, None, map[])
  {
    assert SortedKeys(rows.Keys)[..0] == [];
  }

  lemma PageJoin(keys: seq<string>, from: nat, size: nat)
    requires from <= |keys|
    ensures keys[..from] + Take(keys[from..], size) == keys[..Min(from + size, |keys|)]
  {
  }

  lemma FilePageLast<V>(rows: map<string, V>, from: nat, cursor: Option<string>, all: map<string, V>, limit: nat,
                        page: map<string, V>, more: map<string, V>)
    requires ReadState(rows, from, cursor, all) && IsFilePage(rows, KeysBehind(rows, cursor), limit, page, None)
    requires more == all + page
    ensures more == rows
  {
    var keys, size := SortedKeys(rows.Keys), AtLeastOne(limit);
    KeysBehindFrom(rows, from);
    OnlyAppend(rows, keys[..from], Take(keys[from..], size));
    PageJoin(keys, from, size);
    WholePrefix(keys);
    OnlyAll(rows, keys);
  }

  lemma NextKeys(keys: seq<string>, from: nat, size: nat, to: nat, behind: seq<string>)
    requires from <= |keys| && behind == keys[from..] && 0 < size < |behind| && to == from + size
    ensures to < |keys| && keys[..from] + Take(behind, size) == keys[..to]
    ensures CursorAt(keys, to) == Some(behind[size - 1])
  {
  }

  lemma FilePageNext<V>(rows: map<string, V>, from: nat, cursor: Option<string>, all: map<string, V>, limit: nat,
                        page: map<string, V>, next: Option<string>, to: nat, more: map<string, V>)
    requires ReadState(rows, from, cursor, all) && IsFilePage(rows, KeysBehind(rows, cursor), limit, page, next)
    requires next.Some? && to == from + AtLeastOne(limit) && more == all + page
    ensures ReadState(rows, to, next, more)
  {
    var keys, size, behind := SortedKeys(rows.Keys), AtLeastOne(limit), KeysBehind(rows, cursor);
    KeysBehindFrom(rows, from);
    NextKeys(keys, from, size, to, behind);
    OnlyAppend(rows, keys[..from], Take(behind, size));
  }

  // Cursors at different places differ.
  lemma CursorsDiffer<V>(rows: map<string, V>, from: nat, cursor: Option<string>, all: map<string, V>,
                         to: nat, next: Option<string>, more: map<string, V>)
    requires ReadState(rows, from, cursor, all) && ReadState(rows, to, next, more) && from < to
    ensures cursor != next
  {
    var keys := SortedKeys(rows.Keys);
    SortedKeysSorted(rows.Keys);
    SameElement(keys, keys[to - 1], to - 1);
  }

  lemma KeysBehindFrom<V>(rows: map<string, V>, from: nat)
    requires from <= |rows|
    ensures KeysBehind(rows, CursorAt(SortedKeys(rows.Keys), from)) == SortedKeys(rows.Keys)[from..]
  {
    var keys := SortedKeys(rows.Keys);
    var wanted := RocksStore.After(rows.Keys, CursorAt(keys, from));
    SortedKeysSorted(rows.Keys);
    SortedKeysSorted(wanted);
    if from > 0 {
      forall k ensures k in wanted <==> k in keys[from..] { BehindMeans(keys, from, k); }
    }
    SortedIsUnique(SortedKeys(wanted), keys[from..]);
  }

  // Over page_rows the reload loop always terminates with all the rows, whatever their keys and
  // for every limit, zero included; the check for a standing cursor never fires.
  method ReadAllPages<V>(rows: map<string, V>, limit: nat) returns (all: map<string, V>, advanced: bool)
    ensures advanced && all == rows
  {
    ghost var from := 0;
    var cursor: Option<string> := None;
    all := map[];
    ReadStart(rows);
    while true
      invariant ReadState(rows, from, cursor, all)
      decreases |rows| - from
    {
      var page, next := PageRows(Some(rows), cursor, limit);
      ghost var to, more := from + AtLeastOne(limit), all + page;
      if next.None? {
        FilePageLast(rows, from, cursor, all, limit, page, more);
        return all + page, true;
      }
      FilePageNext(rows, from, cursor, all, limit, page, next, to, more);
      CursorsDiffer(rows, from, cursor, all, to, next, more);
      all := all + page;
      if cursor == next {
        return all, false;
      }
      cursor, from := next, to;
    }
  }
}
