/** Highlighting of search hits: scanning for terms, merging the ranges found, and inserting the
    tags (`match_ranges`, `highlight_text`). Texts are UTF-8, so offsets count bytes. */
module Highlight {
  import opened Characters
  import opened Wrappers

  type Bytes = seq<Byte>
  type Range = (nat, nat)

  // ---------------------------------------------------------------- UTF-8 character boundaries

  predicate Continuation(b: Byte) {
    0x80 <= b < 0xC0
  }

  // Bytes of the character that starts with this byte; 0 when none does.
  function Width(b: Byte): nat {
    if b < 0x80 then 1 else if b < 0xC0 then 0 else if b < 0xE0 then 2 else if b < 0xF0 then 3 else if b < 0xF8 then 4
        else 0
  }

  // A text of whole characters. Every `&str` is one.
  predicate Whole(s: Bytes)
    decreases |s|
  {
    s == [] ||
    (var n := Width(s[0]);
     0 < n <= |s| && (forall i :: 1 <= i < n ==> Continuation(s[i])) && Whole(s[n..]))
  }

  predicate Boundary(s: Bytes, i: nat) {
    i == 0 || i == |s| || (i < |s| && !Continuation(s[i]))
  }

  lemma {:induction false} WholeFromBoundary(s: Bytes, i: nat)
    requires Whole(s) && i <= |s| && Boundary(s, i)
    ensures Whole(s[i..])
    decreases |s|
  {
    if i == 0 {
      assert s[0..] == s;
    } else if i == |s| {
      assert s[i..] == [];
    } else {
      var n := Width(s[0]);
      assert i >= n;
      assert s[n..][i - n..] == s[i..];
      WholeFromBoundary(s[n..], i - n);
    }
  }

  lemma {:induction false} WholeAfterPrefix(s: Bytes, t: Bytes, rest: Bytes)
    requires Whole(s) && Whole(t) && |t| <= |s| && SameShape(s[..|t|], t) && rest == s[|t|..]
    ensures Whole(rest)
    decreases |t|
  {
    if t == [] {
      assert s[0..] == s;
    } else {
      var n := Width(t[0]);
      assert Width(s[0]) == n;
      assert s[n..][..|t| - n] == s[..|t|][n..];
      assert s[n..][|t| - n..] == s[|t|..];
      WholeAfterPrefix(s[n..], t[n..], rest);
    }
  }

  // Equal up to ASCII case: same length, and the same bytes outside ASCII.
  predicate SameShape(a: Bytes, b: Bytes) {
    |a| == |b| && forall i :: 0 <= i < |a| ==> a[i] == b[i] || (a[i] < 0x80 && b[i] < 0x80)
  }

  // ---------------------------------------------------------------- scanning

  function Lower(b: Byte): Byte {
    if 0x41 <= b <= 0x5A then b + 0x20 else b
  }

  function LowerCase(s: Bytes): (r: Bytes)
    ensures |r| == |s| && forall i :: 0 <= i < |r| ==> r[i] == Lower(s[i])
  {
    seq(|s|, i requires 0 <= i < |s| => Lower(s[i]))
  }

  predicate OccursAt(hay: Bytes, term: Bytes, i: nat) {
    i + |term| <= |hay| && hay[i..i + |term|] == term
  }

  // The first occurrence at or behind an offset.
  function Find(hay: Bytes, term: Bytes, from: nat): (r: Option<nat>)
    requires from <= |hay|
    ensures r.Some? ==> from <= r.value && OccursAt(hay, term, r.value)
    ensures forall i :: from <= i < (if r.Some? then r.value else |hay| + 1) ==> !OccursAt(hay, term, i)
    decreases |hay| - from
  {
    if OccursAt(hay, term, from) then Some(from)
    else if from == |hay| then None
    else Find(hay, term, from + 1)
  }

  // The scan of one term: from left to right, behind the previous occurrence.
  function Scan(hay: Bytes, term: Bytes, from: nat): (r: seq<Range>)
    requires from <= |hay| && term != []
    ensures forall k ::
      0 <= k < |r| ==> from <= r[k].0 && r[k].1 == r[k].0 + |term| <= |hay| && OccursAt(hay, term, r[k].0)
    decreases |hay| - from
  {
    match Find(hay, term, from)
    case None => []
    case Some(start) => [(start, start + |term|)] + Scan(hay, term, start + |term|)
  }

  // Overlapping occurrences are skipped, but every occurrence meets a scanned one.
  lemma {:induction false} EveryOccurrenceIsMet(hay: Bytes, term: Bytes, from: nat, i: nat)
    requires from <= i && term != [] && OccursAt(hay, term, i)
    ensures exists k :: 0 <= k < |Scan(hay, term, from)| && Covers(Scan(hay, term, from)[k], i)
    decreases |hay| - from
  {
    var found := Find(hay, term, from);
    var scan := Scan(hay, term, from);
    var end := found.value + |term|;
    var rest := Scan(hay, term, end);
    assert scan == [(found.value, end)] + rest;
    if i < end {
      assert Covers(scan[0], i);
    } else {
      EveryOccurrenceIsMet(hay, term, end, i);
      var k :| 0 <= k < |rest| && Covers(rest[k], i);
      assert scan[k + 1] == rest[k];
    }
  }

  predicate Covers(r: Range, p: nat) {
    r.0 <= p < r.1
  }

  predicate Aligned(text: Bytes, r: Range) {
    Boundary(text, r.0) && Boundary(text, r.1)
  }

  lemma OccurrenceShape(text: Bytes, term: Bytes, i: nat)
    requires OccursAt(LowerCase(text), term, i)
    ensures i + |term| <= |text| && SameShape(text[i..][..|term|], term)
  {
    var hay := LowerCase(text);
    forall j | 0 <= j < |term| ensures term[j] == Lower(text[i + j]) {
      assert hay[i..i + |term|][j] == hay[i + j];
    }
  }

  // Whole text starts with the first byte of a character.
  lemma WholeStartsCharacter(s: Bytes, i: nat, rest: Bytes)
    requires i <= |s| && rest == s[i..] && Whole(rest)
    ensures Boundary(s, i)
  {
    if i < |s| { assert rest[0] == s[i] && Width(s[i]) > 0; }
  }

  lemma OccurrenceStarts(text: Bytes, term: Bytes, i: nat)
    requires Whole(term) && term != [] && OccursAt(LowerCase(text), term, i)
    ensures Boundary(text, i)
  {
    OccurrenceShape(text, term, i);
    assert text[i..][..|term|][0] == text[i];
  }

  lemma DropTwice(text: Bytes, i: nat, n: nat)
    requires i + n <= |text|
    ensures text[i..][n..] == text[i + n..]
  {
  }

  lemma WholeBehind(text: Bytes, term: Bytes, i: nat, rest: Bytes)
    requires Whole(text) && Whole(term) && i + |term| <= |text| && Boundary(text, i)
    requires SameShape(text[i..][..|term|], term) && rest == text[i + |term|..]
    ensures Whole(rest)
  {
    WholeFromBoundary(text, i);
    DropTwice(text, i, |term|);
    WholeAfterPrefix(text[i..], term, rest);
  }

  lemma OccurrenceEnds(text: Bytes, term: Bytes, i: nat)
    requires Whole(text) && Whole(term) && term != [] && OccursAt(LowerCase(text), term, i) && Boundary(text, i)
    ensures i + |term| <= |text| && Boundary(text, i + |term|)
  {
    OccurrenceShape(text, term, i);
    var rest := text[i + |term|..];
    WholeBehind(text, term, i, rest);
    WholeStartsCharacter(text, i + |term|, rest);
  }

  // A term is a whole text, so wherever it occurs it starts and ends between characters: the
  // boundary checks never drop a range, and the scan never resumes inside a character.
  lemma OccurrencesAreAligned(text: Bytes, term: Bytes, i: nat)
    requires Whole(text) && Whole(term) && term != [] && OccursAt(LowerCase(text), term, i)
    ensures Aligned(text, (i, i + |term|))
  {
    OccurrenceStarts(text, term, i);
    OccurrenceEnds(text, term, i);
  }

  // ---------------------------------------------------------------- merging

  predicate Covered(ranges: seq<Range>, p: nat) {
    exists k :: 0 <= k < |ranges| && Covers(ranges[k], p)
  }

  // Sorted, non-empty, and never touching.
  predicate Separated(ranges: seq<Range>) {
    && (forall k :: 0 <= k < |ranges| ==> ranges[k].0 < ranges[k].1)
    && (forall j, k :: 0 <= j < k < |ranges| ==> ranges[j].1 < ranges[k].0)
  }

  // Separated ranges that cover the same positions, with ends taken from the originals.
  ghost predicate IsMerge(ranges: seq<Range>, merged: seq<Range>) {
    && Separated(merged)
    && (forall p :: Covered(merged, p) <==> Covered(ranges, p))
    && (forall k :: 0 <= k < |merged| ==> exists r :: r in ranges && r.0 == merged[k].0)
    && (forall k :: 0 <= k < |merged| ==> exists r :: r in ranges && r.1 == merged[k].1)
  }

  predicate Precedes(a: Range, b: Range) {
    a.0 < b.0 || (a.0 == b.0 && a.1 >= b.1)
  }

  predicate SortedRanges(s: seq<Range>) {
    forall i, j :: 0 <= i < j < |s| ==> Precedes(s[i], s[j])
  }

  function InsertRange(r: Range, s: seq<Range>): (t: seq<Range>)
    requires SortedRanges(s)
    ensures SortedRanges(t) && forall x :: x in t <==> x == r || x in s
  {
    if s == [] then [r]
    else if Precedes(r, s[0]) then [r] + s
    else
      var rest := InsertRange(r, s[1..]);
      assert forall x :: x in s[1..] ==> Precedes(s[0], x);
      assert forall x :: x in rest ==> Precedes(s[0], x);
      assert forall i :: 0 <= i < |rest| ==> rest[i] in rest;
      [s[0]] + rest
  }

  // The library's sort, by start and then by descending end.
  function SortRanges(s: seq<Range>): (t: seq<Range>)
    ensures SortedRanges(t) && forall x :: x in t <==> x in s
  {
    if s == [] then [] else InsertRange(s[|s| - 1], SortRanges(s[..|s| - 1]))
  }

  lemma CoveredByMembers(a: seq<Range>, b: seq<Range>, p: nat)
    requires forall x :: x in a <==> x in b
    ensures Covered(a, p) <==> Covered(b, p)
  {
    if k :| 0 <= k < |a| && Covers(a[k], p) { assert a[k] in b; }
    if k :| 0 <= k < |b| && Covers(b[k], p) { assert b[k] in a; }
  }

  lemma CoveredAppend(a: seq<Range>, r: Range, p: nat)
    ensures Covered(a + [r], p) <==> Covered(a, p) || Covers(r, p)
  {
    if k :| 0 <= k < |a| && Covers(a[k], p) { assert (a + [r])[k] == a[k]; }
    assert (a + [r])[|a|] == r;
  }

  // Extending the last range by a range that reaches it.
  lemma ExtendLast(merged: seq<Range>, r: Range, p: nat)
    requires merged != []
    ensures var last := merged[|merged| - 1];
            last.0 <= r.0 <= last.1 && last.0 < last.1 ==>
            (Covered(merged[..|merged| - 1] + [(last.0, if last.1 < r.1 then r.1 else last.1)], p)
             <==> Covered(merged, p) || Covers(r, p))
  {
    var init, last := merged[..|merged| - 1], merged[|merged| - 1];
    assert merged == init + [last];
    CoveredAppend(init, last, p);
    CoveredAppend(init, (last.0, if last.1 < r.1 then r.1 else last.1), p);
  }

  ghost predicate MergeState(sorted: seq<Range>, i: nat, merged: seq<Range>) {
    && i <= |sorted| && Separated(merged)
    && (forall p :: Covered(merged, p) <==> Covered(sorted[..i], p))
    && (forall k :: 0 <= k < |merged| ==> exists r :: r in sorted && r.0 == merged[k].0)
    && (forall k :: 0 <= k < |merged| ==> exists r :: r in sorted && r.1 == merged[k].1)
    && (forall j, k :: 0 <= k < |merged| && i <= j < |sorted| ==> merged[k].0 <= sorted[j].0)
  }

  lemma MergeExtends(sorted: seq<Range>, i: nat, merged: seq<Range>, next: seq<Range>)
    requires MergeState(sorted, i, merged) && i < |sorted| && merged != []
    requires sorted[i].0 <= merged[|merged| - 1].1
    requires var last := merged[|merged| - 1];
             next == merged[..|merged| - 1] + [(last.0, if last.1 < sorted[i].1 then sorted[i].1 else last.1)]
    ensures MergeState(sorted, i + 1, next)
  {
    PrefixGrows(sorted, i);
    forall p ensures Covered(next, p) <==> Covered(sorted[..i + 1], p) {
      ExtendLast(merged, sorted[i], p);
      CoveredAppend(sorted[..i], sorted[i], p);
    }
    forall k | 0 <= k < |next| ensures exists r :: r in sorted && r.1 == next[k].1 {
      if next[k].1 == sorted[i].1 { assert sorted[i] in sorted; } else { assert next[k].1 == merged[k].1; }
    }
    forall k | 0 <= k < |next| ensures exists r :: r in sorted && r.0 == next[k].0 { assert next[k].0 == merged[k].0; }
  }

  lemma PushCovers(sorted: seq<Range>, i: nat, merged: seq<Range>)
    requires i < |sorted| && forall p :: Covered(merged, p) <==> Covered(sorted[..i], p)
    ensures forall p :: Covered(merged + [sorted[i]], p) <==> Covered(sorted[..i + 1], p)
  {
    PrefixGrows(sorted, i);
    forall p ensures Covered(merged + [sorted[i]], p) <==> Covered(sorted[..i + 1], p) {
      CoveredAppend(merged, sorted[i], p);
      CoveredAppend(sorted[..i], sorted[i], p);
    }
  }

  lemma PushSeparates(merged: seq<Range>, r: Range)
    requires Separated(merged) && r.0 < r.1 && (merged != [] ==> merged[|merged| - 1].1 < r.0)
    ensures Separated(merged + [r])
  {
    var next := merged + [r];
    forall j, k | 0 <= j < k < |next| ensures next[j].1 < next[k].0 {
      if k == |merged| && j < |merged| - 1 { assert merged[j].1 < merged[|merged| - 1].0; }
    }
  }

  lemma MergePushes(sorted: seq<Range>, i: nat, merged: seq<Range>)
    requires MergeState(sorted, i, merged) && i < |sorted| && sorted[i].0 < sorted[i].1 && SortedRanges(sorted)
    requires merged != [] ==> merged[|merged| - 1].1 < sorted[i].0
    ensures MergeState(sorted, i + 1, merged + [sorted[i]])
  {
    var next := merged + [sorted[i]];
    PushCovers(sorted, i, merged);
    PushSeparates(merged, sorted[i]);
    assert sorted[i] in sorted;
    forall k | 0 <= k < |next| ensures exists r :: r in sorted && r.0 == next[k].0 {
      if k < |merged| { assert next[k] == merged[k]; }
    }
    forall k | 0 <= k < |next| ensures exists r :: r in sorted && r.1 == next[k].1 {
      if k < |merged| { assert next[k] == merged[k]; }
    }
  }

  method MergeRanges(ranges: seq<Range>) returns (merged: seq<Range>)
    requires forall r :: r in ranges ==> r.0 < r.1
    ensures IsMerge(ranges, merged)
  {
    var sorted := SortRanges(ranges);
    merged := [];
    for i := 0 to |sorted|
      invariant MergeState(sorted, i, merged)
    {
      var range := sorted[i];
      assert range in sorted;
      if merged != [] && range.0 <= merged[|merged| - 1].1 {
        var last := merged[|merged| - 1];
        var next := merged[..|merged| - 1] + [(last.0, if last.1 < range.1 then range.1 else last.1)];
        MergeExtends(sorted, i, merged, next);
        merged := next;
        continue;
      }
      MergePushes(sorted, i, merged);
      merged := merged + [range];
    }
    assert sorted[..|sorted|] == sorted;
    forall p ensures Covered(merged, p) <==> Covered(ranges, p) { CoveredByMembers(sorted, ranges, p); }
  }

  // ---------------------------------------------------------------- match_ranges

  // The scanned occurrences of all terms, term by term.
  function Occurrences(hay: Bytes, terms: seq<Bytes>): (r: seq<Range>)
    ensures forall x :: x in r ==> x.0 < x.1 <= |hay|
  {
    if terms == [] then [] else
      var term := terms[|terms| - 1];
      Occurrences(hay, terms[..|terms| - 1]) + (if term == [] then [] else Scan(hay, term, 0))
  }

  // The ranges found so far and those still to come make the whole scan.
  ghost predicate ScanState(lower: Bytes, term: Bytes, offset: nat, ranges: seq<Range>) {
    term != [] && offset <= |lower| && ranges + Scan(lower, term, offset) == Scan(lower, term, 0)
  }

  lemma ScanStep(lower: Bytes, term: Bytes, offset: nat, ranges: seq<Range>, start: nat)
    requires ScanState(lower, term, offset, ranges) && Find(lower, term, offset) == Some(start)
    ensures ScanState(lower, term, start + |term|, ranges + [(start, start + |term|)])
  {
    var found: Range := (start, start + |term|);
    var rest := Scan(lower, term, start + |term|);
    assert Scan(lower, term, offset) == [found] + rest;
    Shift(ranges, [found], rest);
  }

  lemma ScanEnds(lower: Bytes, term: Bytes, offset: nat, ranges: seq<Range>)
    requires ScanState(lower, term, offset, ranges)
    requires Find(lower, term, offset).None? || offset == |lower|
    ensures ranges == Scan(lower, term, 0)
  {
    assert Scan(lower, term, offset) == [];
    assert ranges + [] == ranges;
  }

  ghost predicate OccursAligned(text: Bytes, lower: Bytes, term: Bytes) {
    |text| == |lower| && forall start: nat :: OccursAt(lower, term, start) ==> Aligned(text, (start, start + |term|))
  }

  lemma TermsOccurAligned(text: Bytes, term: Bytes)
    requires Whole(text) && Whole(term) && term != []
    ensures OccursAligned(text, LowerCase(text), term)
  {
    forall start: nat | OccursAt(LowerCase(text), term, start) ensures Aligned(text, (start, start + |term|)) {
      OccurrencesAreAligned(text, term, start);
    }
  }

  ghost predicate ScanLoop(text: Bytes, lower: Bytes, term: Bytes, offset: nat, ranges: seq<Range>) {
    && offset <= |text| == |lower| && Boundary(text, offset) && ScanState(lower, term, offset, ranges)
    && forall r :: r in ranges ==> Aligned(text, r)
  }

  lemma ScanLoopStep(text: Bytes, lower: Bytes, term: Bytes, offset: nat, ranges: seq<Range>, start: nat)
    requires ScanLoop(text, lower, term, offset, ranges) && OccursAligned(text, lower, term)
    requires Find(lower, term, offset) == Some(start)
    ensures offset < start + |term| && Boundary(text, start) && Boundary(text, start + |term|)
    ensures ScanLoop(text, lower, term, start + |term|, ranges + [(start, start + |term|)])
  {
    assert Aligned(text, (start, start + |term|));
    ScanStep(lower, term, offset, ranges, start);
  }

  lemma ScanStarts(text: Bytes, lower: Bytes, term: Bytes)
    requires term != [] && |text| == |lower|
    ensures ScanLoop(text, lower, term, 0, [])
  {
    assert [] + Scan(lower, term, 0) == Scan(lower, term, 0);
  }

  method ScanTerm(text: Bytes, lower: Bytes, term: Bytes) returns (ranges: seq<Range>)
    requires term != [] && OccursAligned(text, lower, term)
    ensures ranges == Scan(lower, term, 0)
    ensures forall r :: r in ranges ==> Aligned(text, r)
  {
    ranges := [];
    var offset := 0;
    ScanStarts(text, lower, term);
    while true
      invariant ScanLoop(text, lower, term, offset, ranges)
      decreases |lower| - offset
    {
      var found := Find(lower, term, offset);
      if found.None? {
        break;
      }
      var start := found.value;
      ScanLoopStep(text, lower, term, offset, ranges, start);
      if Boundary(text, start) && Boundary(text, start + |term|) {
        ranges := ranges + [(start, start + |term|)];
      }
      offset := start + |term|;
      if offset >= |lower| {
        break;
      }
    }
    ScanEnds(lower, term, offset, ranges);
  }

  // The merged ranges: in bounds, between characters, and covering the scanned occurrences.
  method MatchRanges(text: Bytes, terms: seq<Bytes>) returns (merged: seq<Range>)
    requires Whole(text) && forall t :: t in terms ==> Whole(t)
    ensures IsMerge(Occurrences(LowerCase(text), terms), merged)
    ensures forall r :: r in merged ==> r.1 <= |text| && Aligned(text, r)
  {
    var lower := LowerCase(text);
    var ranges: seq<Range> := [];
    for i := 0 to |terms|
      invariant ranges == Occurrences(lower, terms[..i])
      invariant forall r :: r in ranges ==> Aligned(text, r)
    {
      PrefixGrows(terms, i);
      if terms[i] == [] {
        continue;
      }
      TermsOccurAligned(text, terms[i]);
      var found := ScanTerm(text, lower, terms[i]);
      ranges := ranges + found;
    }
    assert terms[..|terms|] == terms;
    merged := MergeRanges(ranges);
    forall r | r in merged ensures r.1 <= |text| && Aligned(text, r) {
      var k :| 0 <= k < |merged| && merged[k] == r;
      var a :| a in ranges && a.0 == merged[k].0;
      var b :| b in ranges && b.1 == merged[k].1;
    }
  }

  // ---------------------------------------------------------------- highlight_text

  datatype Piece = Plain(text: Bytes) | Marked(text: Bytes)

  // The text cut at the range ends.
  function Pieces(text: Bytes, ranges: seq<Range>, cursor: nat): seq<Piece>
    requires Separated(ranges) && cursor <= |text| && forall r :: r in ranges ==> cursor <= r.0 && r.1 <= |text|
  {
    if ranges == [] then [Plain(text[cursor..])]
    else
      var (start, end) := ranges[0];
      assert forall k :: 1 <= k < |ranges| ==> ranges[0].1 < ranges[k].0;
      [Plain(text[cursor..start]), Marked(text[start..end])] + Pieces(text, ranges[1..], end)
  }

  function Print(pieces: seq<Piece>, pre: Bytes, post: Bytes): Bytes {
    if pieces == [] then []
    else (if pieces[0].Plain? then pieces[0].text else pre + pieces[0].text + post) + Print(pieces[1..], pre, post)
  }

  // The text without the tags.
  function Erase(pieces: seq<Piece>): Bytes {
    if pieces == [] then [] else pieces[0].text + Erase(pieces[1..])
  }

  // Is the p-th byte of the erased text between tags?
  predicate IsMarked(pieces: seq<Piece>, p: nat) {
    pieces != [] &&
    if p < |pieces[0].text| then pieces[0].Marked? else IsMarked(pieces[1..], p - |pieces[0].text|)
  }

  lemma PrintTwo(a: Piece, b: Piece, rest: seq<Piece>, pre: Bytes, post: Bytes)
    requires a.Plain? && b.Marked?
    ensures Print([a, b] + rest, pre, post) == a.text + (pre + b.text + post + Print(rest, pre, post))
    ensures Erase([a, b] + rest) == a.text + (b.text + Erase(rest))
    ensures forall p: nat :: IsMarked([a, b] + rest, p) <==>
      p >= |a.text| && (p < |a.text| + |b.text| || IsMarked(rest, p - |a.text| - |b.text|))
  {
    var all := [a, b] + rest;
    assert all[1..] == [b] + rest && ([b] + rest)[1..] == rest;
  }

  // Erasing the inserted tags gives the text back.
  lemma ThreeParts(text: Bytes, i: nat, j: nat, k: nat)
    requires i <= j <= k <= |text|
    ensures text[i..j] + (text[j..k] + text[k..]) == text[i..]
  {
  }

  lemma NextRanges(text: Bytes, ranges: seq<Range>, cursor: nat)
    requires Separated(ranges) && ranges != [] && (forall r :: r in ranges ==> cursor <= r.0 && r.1 <= |text|)
    ensures cursor <= ranges[0].0 <= ranges[0].1 <= |text| && Separated(ranges[1..])
    ensures forall r :: r in ranges[1..] ==> ranges[0].1 <= r.0 && r.1 <= |text|
  {
    assert ranges[0] in ranges;
    assert forall k :: 1 <= k < |ranges| ==> ranges[0].1 < ranges[k].0;
  }

  lemma {:induction false} ErasingRestores(text: Bytes, ranges: seq<Range>, cursor: nat)
    requires Separated(ranges) && cursor <= |text| && forall r :: r in ranges ==> cursor <= r.0 && r.1 <= |text|
    ensures Erase(Pieces(text, ranges, cursor)) == text[cursor..]
    decreases |ranges|
  {
    if ranges == [] {
      assert [Plain(text[cursor..])][1..] == [];
    } else {
      var (start, end) := ranges[0];
      NextRanges(text, ranges, cursor);
      ErasingRestores(text, ranges[1..], end);
      PrintTwo(Plain(text[cursor..start]), Marked(text[start..end]), Pieces(text, ranges[1..], end), [], []);
      ThreeParts(text, cursor, start, end);
    }
  }

  lemma CoveredHead(ranges: seq<Range>, p: nat)
    requires ranges != []
    ensures Covered(ranges, p) <==> Covers(ranges[0], p) || Covered(ranges[1..], p)
  {
    if k :| 0 <= k < |ranges| && Covers(ranges[k], p) {
      if k > 0 { assert Covers(ranges[1..][k - 1], p); }
    }
    if k :| 0 <= k < |ranges[1..]| && Covers(ranges[1..][k], p) { assert Covers(ranges[k + 1], p); }
  }

  lemma OnlyHeadCovers(ranges: seq<Range>, p: nat)
    requires Separated(ranges) && ranges != [] && p < ranges[0].1
    ensures Covered(ranges, p) <==> Covers(ranges[0], p)
  {
    CoveredHead(ranges, p);
    assert forall k :: 1 <= k < |ranges| ==> ranges[0].1 < ranges[k].0;
  }

  // The bytes between tags are exactly the covered ones.
  lemma {:induction false} MarksAreCovered(text: Bytes, ranges: seq<Range>, cursor: nat, p: nat)
    requires Separated(ranges) && cursor <= |text| && forall r :: r in ranges ==> cursor <= r.0 && r.1 <= |text|
    requires cursor <= p < |text|
    ensures IsMarked(Pieces(text, ranges, cursor), p - cursor) <==> Covered(ranges, p)
    decreases |ranges|
  {
    if ranges == [] {
      assert [Plain(text[cursor..])][1..] == [];
    } else {
      var (start, end) := ranges[0];
      NextRanges(text, ranges, cursor);
      PrintTwo(Plain(text[cursor..start]), Marked(text[start..end]), Pieces(text, ranges[1..], end), [], []);
      if p >= end {
        MarksAreCovered(text, ranges[1..], end, p);
        CoveredHead(ranges, p);
      } else {
        OnlyHeadCovers(ranges, p);
      }
    }
  }

  // What one range adds: the text before it, and its own text between tags.
  function Chunk(text: Bytes, cursor: nat, r: Range, pre: Bytes, post: Bytes): Bytes
    requires cursor <= r.0 <= r.1 <= |text|
  {
    text[cursor..r.0] + (pre + text[r.0..r.1] + post)
  }

  lemma RangesBehind(text: Bytes, ranges: seq<Range>, i: nat, cursor: nat)
    requires Separated(ranges) && i < |ranges| && (forall r :: r in ranges ==> r.1 <= |text|) && cursor <= ranges[i].0
    ensures ranges[i].0 <= ranges[i].1 <= |text| && ranges[i..] == [ranges[i]] + ranges[i + 1..]
    ensures Separated(ranges[i..]) && Separated(ranges[i + 1..])
    ensures forall r :: r in ranges[i..] ==> cursor <= r.0 && r.1 <= |text|
    ensures forall r :: r in ranges[i + 1..] ==> ranges[i].1 <= r.0 && r.1 <= |text|
  {
    assert ranges[i] in ranges;
    assert forall k :: i < k < |ranges| ==> ranges[i].1 < ranges[k].0;
  }

  lemma PrintAppend(text: Bytes, ranges: seq<Range>, i: nat, cursor: nat, pre: Bytes, post: Bytes)
    requires Separated(ranges) && i < |ranges| && (forall r :: r in ranges ==> r.1 <= |text|)
    requires cursor <= ranges[i].0
    ensures forall r :: r in ranges[i..] ==> cursor <= r.0
    ensures forall r :: r in ranges[i + 1..] ==> ranges[i].1 <= r.0
    ensures Print(Pieces(text, ranges[i..], cursor), pre, post)
         == Chunk(text, cursor, ranges[i], pre, post) + Print(Pieces(text, ranges[i + 1..], ranges[i].1), pre, post)
  {
    RangesBehind(text, ranges, i, cursor);
    assert ranges[i..][1..] == ranges[i + 1..];
    var rest := Pieces(text, ranges[i + 1..], ranges[i].1);
    PrintTwo(Plain(text[cursor..ranges[i].0]), Marked(text[ranges[i].0..ranges[i].1]), rest, pre, post);
    Shift(text[cursor..ranges[i].0], pre + text[ranges[i].0..ranges[i].1] + post, Print(rest, pre, post));
  }

  ghost predicate IsHighlight(text: Bytes, terms: seq<Bytes>, pre: Bytes, post: Bytes, ranges: seq<Range>,
      output: Bytes)
  {
    && IsMerge(Occurrences(LowerCase(text), terms), ranges)
    && (forall r :: r in ranges ==> r.1 <= |text|)
    && output == Print(Pieces(text, ranges, 0), pre, post)
  }

  // What has been written, and what the ranges from i on still add.
  ghost predicate WriteState(text: Bytes, ranges: seq<Range>, i: nat, cursor: nat, pre: Bytes, post: Bytes,
      output: Bytes)
    requires Separated(ranges) && forall r :: r in ranges ==> r.1 <= |text|
  {
    && i <= |ranges| && cursor <= |text| && (forall r :: r in ranges[i..] ==> cursor <= r.0)
    && output + Print(Pieces(text, ranges[i..], cursor), pre, post) == Print(Pieces(text, ranges, 0), pre, post)
  }

  lemma WriteStep(text: Bytes, ranges: seq<Range>, i: nat, cursor: nat, pre: Bytes, post: Bytes, output: Bytes)
    requires Separated(ranges) && (forall r :: r in ranges ==> r.1 <= |text|)
    requires i < |ranges| && WriteState(text, ranges, i, cursor, pre, post, output)
    ensures cursor <= ranges[i].0 <= ranges[i].1 <= |text|
    ensures WriteState(text, ranges, i + 1, ranges[i].1, pre, post, output + Chunk(text, cursor, ranges[i], pre, post))
  {
    assert ranges[i] in ranges && ranges[i..][0] == ranges[i];
    PrintAppend(text, ranges, i, cursor, pre, post);
    Shift(output, Chunk(text, cursor, ranges[i], pre, post),
        Print(Pieces(text, ranges[i + 1..], ranges[i].1), pre, post));
  }

  lemma WriteEnd(text: Bytes, ranges: seq<Range>, cursor: nat, pre: Bytes, post: Bytes, output: Bytes)
    requires Separated(ranges) && (forall r :: r in ranges ==> r.1 <= |text|)
    requires WriteState(text, ranges, |ranges|, cursor, pre, post, output)
    ensures output + text[cursor..] == Print(Pieces(text, ranges, 0), pre, post)
  {
    assert ranges[|ranges|..] == [];
    assert [Plain(text[cursor..])][1..] == [];
    assert Print([Plain(text[cursor..])], pre, post) == text[cursor..];
  }

  // Tags around the merged ranges and nothing else changed; no range is ever skipped.
  method HighlightText(text: Bytes, terms: seq<Bytes>, pre: Bytes, post: Bytes) returns (output: Bytes)
    requires Whole(text) && forall t :: t in terms ==> Whole(t)
    ensures exists ranges :: IsHighlight(text, terms, pre, post, ranges, output)
  {
    var ranges := MatchRanges(text, terms);
    assert ranges[0..] == ranges;
    assert WriteState(text, ranges, 0, 0, pre, post, []);
    if ranges == [] {
      WriteEnd(text, ranges, 0, pre, post, []);
      assert text[0..] == text;
      assert IsHighlight(text, terms, pre, post, ranges, text);
      return text;
    }
    output := [];
    var cursor := 0;
    for i := 0 to |ranges|
      invariant WriteState(text, ranges, i, cursor, pre, post, output)
    {
      var (start, end) := ranges[i];
      WriteStep(text, ranges, i, cursor, pre, post, output);
      if start < cursor {
        continue;
      }
      output := output + (text[cursor..start] + (pre + text[start..end] + post));
      cursor := end;
    }
    WriteEnd(text, ranges, cursor, pre, post, output);
    output := output + text[cursor..];
    assert IsHighlight(text, terms, pre, post, ranges, output);
  }
}
