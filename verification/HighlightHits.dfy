/** Which bytes of a text are highlighted, said of the text itself: the bytes of the scanned hits of
    the terms, where a hit ignores the case of ASCII letters in the text. */
module HighlightHits {
  import opened Characters
  import opened Wrappers
  import opened Highlight

  // A byte of the text for a byte of a term: a capital stands for its small letter, 0x20 above it,
  // every other byte for itself.
  predicate StandsFor(b: Byte, t: Byte) {
    if 65 <= b <= 90 then t == b + 32 else t == b
  }

  predicate StandsAt(text: Bytes, term: Bytes, i: nat) {
    i + |term| <= |text| && forall j :: 0 <= j < |term| ==> StandsFor(text[i + j], term[j])
  }

  // Each at least so far behind the one before it.
  predicate Apart(starts: seq<nat>, n: nat) {
    forall j, k :: 0 <= j < k < |starts| ==> starts[k] >= starts[j] + n
  }

  predicate Reaches(starts: seq<nat>, n: nat, p: nat, k: nat) {
    k < |starts| && starts[k] <= p < starts[k] + n
  }

  ghost predicate IsReached(starts: seq<nat>, n: nat, p: nat) {
    exists k: nat :: Reaches(starts, n, p, k)
  }

  // The hits of one term: each is one, they do not overlap, and every place where the term stands
  // lies in one of them.
  ghost predicate AreHits(text: Bytes, term: Bytes, starts: seq<nat>) {
    && (forall k :: 0 <= k < |starts| ==> StandsAt(text, term, starts[k]))
    && Apart(starts, |term|)
    && (forall i: nat :: StandsAt(text, term, i) ==> IsReached(starts, |term|, i))
  }

  lemma StandsIsOccurs(text: Bytes, term: Bytes, i: nat)
    ensures StandsAt(text, term, i) <==> OccursAt(LowerCase(text), term, i)
  {
    if i + |term| <= |text| {
      var part := LowerCase(text)[i..i + |term|];
      assert forall j :: 0 <= j < |term| ==> part[j] == Highlight.Lower(text[i + j]);
    }
  }

  function Starts(ranges: seq<Range>): (r: seq<nat>)
    ensures |r| == |ranges| && forall k :: 0 <= k < |r| ==> r[k] == ranges[k].0
  {
    seq(|ranges|, k requires 0 <= k < |ranges| => ranges[k].0)
  }

  ghost predicate InOrder(ranges: seq<Range>) {
    forall j, k :: 0 <= j < k < |ranges| ==> ranges[j].1 <= ranges[k].0
  }

  lemma InOrderCons(r: Range, rest: seq<Range>)
    requires InOrder(rest) && forall k :: 0 <= k < |rest| ==> r.1 <= rest[k].0
    ensures InOrder([r] + rest)
  {
  }

  lemma ScanCons(hay: Bytes, term: Bytes, from: nat, x: nat)
    requires from <= |hay| && term != [] && Find(hay, term, from) == Some(x)
    ensures x + |term| <= |hay| && Scan(hay, term, from) == [(x, x + |term|)] + Scan(hay, term, x + |term|)
  {
  }

  lemma ScanStartsBehind(hay: Bytes, term: Bytes, from: nat)
    requires from <= |hay| && term != []
    ensures forall k :: 0 <= k < |Scan(hay, term, from)| ==> from <= Scan(hay, term, from)[k].0
  {
  }

  lemma {:induction false} ScanInOrder(hay: Bytes, term: Bytes, from: nat)
    requires from <= |hay| && term != []
    ensures InOrder(Scan(hay, term, from))
    decreases |hay| - from
  {
    var found := Find(hay, term, from);
    if found.Some? {
      var end := found.value + |term|;
      ScanCons(hay, term, from, found.value);
      ScanInOrder(hay, term, end);
      ScanStartsBehind(hay, term, end);
      InOrderCons((found.value, end), Scan(hay, term, end));
    }
  }

  lemma OrderedIsApart(r: seq<Range>, n: nat)
    requires InOrder(r) && forall k :: 0 <= k < |r| ==> r[k].1 == r[k].0 + n
    ensures Apart(Starts(r), n)
  {
  }

  lemma ScanApart(hay: Bytes, term: Bytes)
    requires term != []
    ensures Apart(Starts(Scan(hay, term, 0)), |term|)
  {
    ScanInOrder(hay, term, 0);
    OrderedIsApart(Scan(hay, term, 0), |term|);
  }

  lemma OccurrenceIsReached(text: Bytes, term: Bytes, i: nat, r: seq<Range>)
    requires term != [] && r == Scan(LowerCase(text), term, 0) && StandsAt(text, term, i)
    ensures IsReached(Starts(r), |term|, i)
  {
    StandsIsOccurs(text, term, i);
    EveryOccurrenceIsMet(LowerCase(text), term, 0, i);
    var k :| 0 <= k < |r| && Covers(r[k], i);
    assert Reaches(Starts(r), |term|, i, k);
  }

  // The scan finds hits in this sense, ...
  lemma ScanFindsHits(text: Bytes, term: Bytes)
    requires term != []
    ensures AreHits(text, term, Starts(Scan(LowerCase(text), term, 0)))
  {
    var r := Scan(LowerCase(text), term, 0);
    ScanApart(LowerCase(text), term);
    forall k | 0 <= k < |r| ensures StandsAt(text, term, Starts(r)[k]) { StandsIsOccurs(text, term, r[k].0); }
    forall i: nat | StandsAt(text, term, i) ensures IsReached(Starts(r), |term|, i) {
      OccurrenceIsReached(text, term, i, r);
    }
  }

  // The hit that reaches the next hit of another list.
  lemma HitBehind(text: Bytes, term: Bytes, a: seq<nat>, b: seq<nat>, n: nat)
    requires AreHits(text, term, a) && AreHits(text, term, b) && n < |a|
    requires n <= |b| && a[..n] == b[..n]
    ensures n < |b| && b[n] <= a[n]
  {
    assert StandsAt(text, term, a[n]);
    var k: nat :| Reaches(b, |term|, a[n], k);
    AllBefore(a, b, |term|, n);
    if n < k { assert b[k] >= b[n] + |term|; }
  }

  lemma AllBefore(a: seq<nat>, b: seq<nat>, size: nat, n: nat)
    requires Apart(a, size) && n < |a| && n <= |b| && a[..n] == b[..n]
    ensures forall k :: 0 <= k < n ==> b[k] + size <= a[n]
  {
    forall k | 0 <= k < n ensures b[k] + size <= a[n] { assert a[..n][k] == b[..n][k]; }
  }

  // ... and there is only one list of them.
  lemma {:induction false} HitsAgree(text: Bytes, term: Bytes, a: seq<nat>, b: seq<nat>, n: nat)
    requires AreHits(text, term, a) && AreHits(text, term, b) && term != [] && n <= |a|
    ensures n <= |b| && a[..n] == b[..n]
  {
    if n > 0 {
      var m := n - 1;
      HitsAgree(text, term, a, b, m);
      HitBehind(text, term, a, b, m);
      HitBehind(text, term, b, a, m);
      PrefixGrows(a, m);
      PrefixGrows(b, m);
    }
  }

  lemma HitsAreUnique(text: Bytes, term: Bytes, a: seq<nat>, b: seq<nat>)
    requires AreHits(text, term, a) && AreHits(text, term, b) && term != []
    ensures a == b
  {
    HitsAgree(text, term, a, b, |a|);
    HitsAgree(text, term, b, a, |b|);
    WholePrefix(a);
    WholePrefix(b);
  }

  // ---------------------------------------------------------------- the highlighted bytes

  // The byte belongs to a hit of one of the terms.
  ghost predicate IsHit(text: Bytes, terms: seq<Bytes>, p: nat) {
    exists term, starts, k: nat :: IsHitOf(text, terms, p, term, starts, k)
  }

  ghost predicate IsHitOf(text: Bytes, terms: seq<Bytes>, p: nat, term: Bytes, starts: seq<nat>, k: nat) {
    term in terms && term != [] && AreHits(text, term, starts) && Reaches(starts, |term|, p, k)
  }

  lemma {:induction false} CoveredIsHit(text: Bytes, terms: seq<Bytes>, p: nat)
    ensures Covered(Occurrences(LowerCase(text), terms), p) <==> IsHit(text, terms, p)
    decreases |terms|
  {
    if terms != [] {
      var init, term := terms[..|terms| - 1], terms[|terms| - 1];
      var scan := if term == [] then [] else Scan(LowerCase(text), term, 0);
      CoveredIsHit(text, init, p);
      CoveredJoin(Occurrences(LowerCase(text), init), scan, p);
      LastTermHits(text, terms, p, init, term);
      if term != [] { ScanCovers(text, term, p, scan); }
    }
  }

  lemma CoveredJoin(a: seq<Range>, b: seq<Range>, p: nat)
    ensures Covered(a + b, p) <==> Covered(a, p) || Covered(b, p)
  {
    if k :| 0 <= k < |a| && Covers(a[k], p) { assert (a + b)[k] == a[k]; }
    if k :| 0 <= k < |b| && Covers(b[k], p) { assert (a + b)[|a| + k] == b[k]; }
    if k :| 0 <= k < |a + b| && Covers((a + b)[k], p) {
      if k < |a| { assert Covers(a[k], p); } else { assert Covers(b[k - |a|], p); }
    }
  }

  // The byte belongs to a hit of this term.
  ghost predicate HitBy(text: Bytes, term: Bytes, p: nat) {
    term != [] && exists starts :: AreHits(text, term, starts) && IsReached(starts, |term|, p)
  }

  lemma LastTermHits(text: Bytes, terms: seq<Bytes>, p: nat, init: seq<Bytes>, term: Bytes)
    requires terms != [] && init == terms[..|terms| - 1] && term == terms[|terms| - 1]
    ensures IsHit(text, terms, p) <==> IsHit(text, init, p) || HitBy(text, term, p)
  {
    assert forall x :: x in terms <==> x in init || x == term;
    if x, starts, k: nat :| IsHitOf(text, terms, p, x, starts, k) {
      if x in init { assert IsHitOf(text, init, p, x, starts, k); }
    }
    if x, starts, k: nat :| IsHitOf(text, init, p, x, starts, k) { assert IsHitOf(text, terms, p, x, starts, k); }
    if HitBy(text, term, p) {
      var starts :| AreHits(text, term, starts) && IsReached(starts, |term|, p);
      var k: nat :| Reaches(starts, |term|, p, k);
      assert IsHitOf(text, terms, p, term, starts, k);
    }
  }

  lemma CoversIsReach(scan: seq<Range>, n: nat, p: nat)
    requires forall k :: 0 <= k < |scan| ==> scan[k].1 == scan[k].0 + n
    ensures Covered(scan, p) <==> IsReached(Starts(scan), n, p)
  {
    if k :| 0 <= k < |scan| && Covers(scan[k], p) { assert Reaches(Starts(scan), n, p, k); }
    if k: nat :| Reaches(Starts(scan), n, p, k) { assert Covers(scan[k], p); }
  }

  lemma ScanCovers(text: Bytes, term: Bytes, p: nat, scan: seq<Range>)
    requires term != [] && scan == Scan(LowerCase(text), term, 0)
    ensures Covered(scan, p) <==> HitBy(text, term, p)
  {
    ScanFindsHits(text, term);
    CoversIsReach(scan, |term|, p);
    if HitBy(text, term, p) {
      var starts :| AreHits(text, term, starts) && IsReached(starts, |term|, p);
      HitsAreUnique(text, term, starts, Starts(scan));
    }
  }

  // The output of the highlighter is the text in pieces, the pieces erase to the text, and a byte of
  // the text is between tags exactly when it belongs to a hit.
  lemma HighlightMarksHits(text: Bytes, terms: seq<Bytes>, pre: Bytes, post: Bytes, ranges: seq<Range>, output: Bytes)
    requires IsHighlight(text, terms, pre, post, ranges, output)
    ensures output == Print(Pieces(text, ranges, 0), pre, post) && Erase(Pieces(text, ranges, 0)) == text
    ensures forall p: nat :: p < |text| ==> (IsMarked(Pieces(text, ranges, 0), p) <==> IsHit(text, terms, p))
  {
    ErasingRestores(text, ranges, 0);
    assert text[0..] == text;
    forall p: nat | p < |text| ensures IsMarked(Pieces(text, ranges, 0), p) <==> IsHit(text, terms, p) {
      MarksAreCovered(text, ranges, 0, p);
      CoveredIsHit(text, terms, p);
    }
  }

  // ---------------------------------------------------------------- terms in small letters

  // The same byte, or the same ASCII letter in the other case.
  predicate SameLetter(b: Byte, t: Byte) {
    b == t || (65 <= b <= 90 && t == b + 32) || (65 <= t <= 90 && b == t + 32)
  }

  predicate IsLowerCase(term: Bytes) {
    forall j :: 0 <= j < |term| ==> !(65 <= term[j] <= 90)
  }

  // Wherever a term in small letters stands in any spelling, its first byte is highlighted.
  lemma EverySpellingIsHit(text: Bytes, terms: seq<Bytes>, term: Bytes, i: nat)
    requires term in terms && term != [] && IsLowerCase(term) && i + |term| <= |text|
    requires forall j :: 0 <= j < |term| ==> SameLetter(text[i + j], term[j])
    ensures IsHit(text, terms, i)
  {
    var starts := Starts(Scan(LowerCase(text), term, 0));
    ScanFindsHits(text, term);
    assert StandsAt(text, term, i);
    var k: nat :| Reaches(starts, |term|, i, k);
    assert IsHitOf(text, terms, i, term, starts, k);
  }
}
