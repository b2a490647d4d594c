/** Typo tolerance in search: bounded edit distance by a two-row table with two early exits
    (`levenshtein_at_most`). */
module Levenshtein {
  import opened Wrappers

  // ---------------------------------------------------------------- edits

  datatype Edit = Insert(at: nat, c: char) | Delete(at: nat) | Substitute(at: nat, c: char) {
    predicate Fits(s: string) {
      if Insert? then at <= |s| else at < |s|
    }

    function Apply(s: string): string
      requires Fits(s)
    {
      match this
      case Insert(at, c) => s[..at] + [c] + s[at..]
      case Delete(at) => s[..at] + s[at + 1..]
      case Substitute(at, c) => s[..at] + [c] + s[at + 1..]
    }
  }

  // The edits, one after the other, turn `from` into `to`.
  predicate Transforms(edits: seq<Edit>, from: string, to: string)
    decreases |edits|
  {
    if edits == [] then from == to
    else edits[0].Fits(from) && Transforms(edits[1..], edits[0].Apply(from), to)
  }

  ghost predicate WithinEdits(from: string, to: string, k: nat) {
    exists edits :: |edits| <= k && Transforms(edits, from, to)
  }

  // ---------------------------------------------------------------- the distance

  function Init(s: string): string
    requires s != []
  {
    s[..|s| - 1]
  }

  function Last(s: string): char
    requires s != []
  {
    s[|s| - 1]
  }

  function Cost(a: char, b: char): nat {
    if a != b then 1 else 0
  }

  function Distance(l: string, r: string): nat
    decreases |l| + |r|
  {
    if l == [] then |r|
    else if r == [] then |l|
    else Min(Min(Distance(Init(l), r) + 1, Distance(l, Init(r)) + 1),
        Distance(Init(l), Init(r)) + Cost(Last(l), Last(r)))
  }

  // ---------------------------------------------------------------- one edit moves it by one

  lemma {:induction false} DropLast(a: string, r: string)
    requires a != []
    ensures Distance(Init(a), r) <= Distance(a, r) + 1
    decreases |a| + |r|
  {
    if r != [] {
      DropLast(a, Init(r));
    }
  }

  // Removing a character in the middle.
  lemma {:induction false} DropOne(a: string, c: char, b: string, r: string)
    ensures Distance(a + b, r) <= Distance(a + [c] + b, r) + 1
    decreases |b| + |r|
  {
    if b == [] {
      assert a + b == a && a + [c] + b == a + [c] && Init(a + [c]) == a;
      DropLast(a + [c], r);
    } else {
      EndsWith(a, b);
      EndsWith(a + [c], b);
      if r != [] {
        DropOne(a, c, Init(b), r);
        DropOne(a, c, b, Init(r));
        DropOne(a, c, Init(b), Init(r));
      }
    }
  }

  // Adding a character in the middle.
  lemma {:induction false} AddOne(a: string, c: char, b: string, r: string)
    ensures Distance(a + [c] + b, r) <= Distance(a + b, r) + 1
    decreases |b| + |r|
  {
    if b == [] {
      assert a + b == a && a + [c] + b == a + [c] && Init(a + [c]) == a;
    } else {
      EndsWith(a, b);
      EndsWith(a + [c], b);
      if r != [] {
        AddOne(a, c, Init(b), r);
        AddOne(a, c, b, Init(r));
        AddOne(a, c, Init(b), Init(r));
      }
    }
  }

  // Replacing a character in the middle.
  lemma {:induction false} ReplaceOne(a: string, c: char, d: char, b: string, r: string)
    ensures Distance(a + [c] + b, r) <= Distance(a + [d] + b, r) + 1
    decreases |b| + |r|
  {
    if r != [] {
      if b == [] {
        assert a + [c] + b == a + [c] && a + [d] + b == a + [d] && Init(a + [c]) == a == Init(a + [d]);
        ReplaceOne(a, c, d, b, Init(r));
      } else {
        EndsWith(a + [c], b);
        EndsWith(a + [d], b);
        ReplaceOne(a, c, d, Init(b), r);
        ReplaceOne(a, c, d, b, Init(r));
        ReplaceOne(a, c, d, Init(b), Init(r));
      }
    }
  }

  lemma EndsWith(a: string, b: string)
    requires b != []
    ensures a + b != [] && Init(a + b) == a + Init(b) && Last(a + b) == Last(b)
  {
  }

  lemma OneEdit(e: Edit, l: string, r: string)
    requires e.Fits(l)
    ensures Distance(l, r) <= Distance(e.Apply(l), r) + 1
  {
    match e
    case Insert(at, c) =>
      assert l == l[..at] + l[at..];
      DropOne(l[..at], c, l[at..], r);
    case Delete(at) =>
      assert l == l[..at] + [l[at]] + l[at + 1..];
      AddOne(l[..at], l[at], l[at + 1..], r);
    case Substitute(at, c) =>
      assert l == l[..at] + [l[at]] + l[at + 1..];
      ReplaceOne(l[..at], l[at], c, l[at + 1..], r);
  }

  lemma {:induction false} DistanceToItself(s: string)
    ensures Distance(s, s) == 0
  {
    if s != [] { DistanceToItself(Init(s)); }
  }

  lemma {:induction false} NoShorterScript(edits: seq<Edit>, l: string, r: string)
    requires Transforms(edits, l, r)
    ensures Distance(l, r) <= |edits|
    decreases |edits|
  {
    if edits == [] {
      DistanceToItself(l);
    } else {
      NoShorterScript(edits[1..], edits[0].Apply(l), r);
      OneEdit(edits[0], l, r);
    }
  }

  // ---------------------------------------------------------------- a script of that length

  // An edit script works the same with untouched text behind it.
  lemma ApplyWithTail(e: Edit, s: string, tail: string)
    requires e.Fits(s)
    ensures e.Fits(s + tail) && e.Apply(s + tail) == e.Apply(s) + tail
  {
    assert (s + tail)[..e.at] == s[..e.at];
    if e.Insert? {
      assert (s + tail)[e.at..] == s[e.at..] + tail;
    } else {
      assert (s + tail)[e.at + 1..] == s[e.at + 1..] + tail;
    }
  }

  lemma {:induction false} WithTail(edits: seq<Edit>, l: string, r: string, tail: string)
    requires Transforms(edits, l, r)
    ensures Transforms(edits, l + tail, r + tail)
    decreases |edits|
  {
    if edits != [] {
      WithTail(edits[1..], edits[0].Apply(l), r, tail);
      ApplyWithTail(edits[0], l, tail);
    }
  }

  lemma {:induction false} ThenEdit(edits: seq<Edit>, l: string, m: string, e: Edit)
    requires Transforms(edits, l, m) && e.Fits(m)
    ensures Transforms(edits + [e], l, e.Apply(m))
    decreases |edits|
  {
    if edits != [] {
      ThenEdit(edits[1..], edits[0].Apply(l), m, e);
      assert (edits + [e])[1..] == edits[1..] + [e];
    } else {
      assert [e][1..] == [] && edits + [e] == [e];
    }
  }

  // The three ways to treat the last characters.
  lemma DeletesLast(l: string, r: string)
    requires l != []
    ensures Delete(|r|).Fits(r + [Last(l)]) && Delete(|r|).Apply(r + [Last(l)]) == r && l == Init(l) + [Last(l)]
  {
  }

  lemma DeleteLast(edits: seq<Edit>, l: string, r: string)
    requires l != [] && Transforms(edits, Init(l), r)
    ensures Transforms(edits + [Delete(|r|)], l, r)
  {
    WithTail(edits, Init(l), r, [Last(l)]);
    DeletesLast(l, r);
    ThenEdit(edits, l, r + [Last(l)], Delete(|r|));
  }

  lemma InsertsLast(r: string)
    requires r != []
    ensures Insert(|r| - 1, Last(r)).Fits(Init(r)) && Insert(|r| - 1, Last(r)).Apply(Init(r)) == r
  {
  }

  lemma InsertLast(edits: seq<Edit>, l: string, r: string)
    requires r != [] && Transforms(edits, l, Init(r))
    ensures Transforms(edits + [Insert(|r| - 1, Last(r))], l, r)
  {
    InsertsLast(r);
    ThenEdit(edits, l, Init(r), Insert(|r| - 1, Last(r)));
  }

  lemma ReplacesLast(l: string, r: string)
    requires l != [] && r != []
    ensures Substitute(|r| - 1, Last(r)).Fits(Init(r) + [Last(l)])
    ensures Substitute(|r| - 1, Last(r)).Apply(Init(r) + [Last(l)]) == r
    ensures l == Init(l) + [Last(l)] && r == Init(r) + [Last(r)]
  {
  }

  lemma ReplaceLast(edits: seq<Edit>, l: string, r: string) returns (all: seq<Edit>)
    requires l != [] && r != [] && Transforms(edits, Init(l), Init(r))
    ensures Transforms(all, l, r) && |all| == |edits| + Cost(Last(l), Last(r))
  {
    WithTail(edits, Init(l), Init(r), [Last(l)]);
    ReplacesLast(l, r);
    all := edits;
    if Last(l) != Last(r) {
      ThenEdit(edits, l, Init(r) + [Last(l)], Substitute(|r| - 1, Last(r)));
      all := edits + [Substitute(|r| - 1, Last(r))];
    }
  }

  lemma {:induction false} Script(l: string, r: string) returns (edits: seq<Edit>)
    ensures Transforms(edits, l, r) && |edits| == Distance(l, r)
    decreases |l| + |r|
  {
    if l == [] && r == [] {
      edits := [];
    } else if r == [] || (l != [] && Distance(l, r) == Distance(Init(l), r) + 1) {
      var shorter := Script(Init(l), r);
      DeleteLast(shorter, l, r);
      edits := shorter + [Delete(|r|)];
    } else if l == [] || Distance(l, r) == Distance(l, Init(r)) + 1 {
      var shorter := Script(l, Init(r));
      InsertLast(shorter, l, r);
      edits := shorter + [Insert(|r| - 1, Last(r))];
    } else {
      var shorter := Script(Init(l), Init(r));
      edits := ReplaceLast(shorter, l, r);
    }
  }

  lemma EmptyRight(l: string)
    ensures Distance(l, []) == |l|
  {
  }

  // The recursive distance is the least number of edits.
  lemma DistanceIsLeast(l: string, r: string, k: nat)
    ensures WithinEdits(l, r, k) <==> Distance(l, r) <= k
  {
    if WithinEdits(l, r, k) {
      var edits :| |edits| <= k && Transforms(edits, l, r);
      NoShorterScript(edits, l, r);
    }
    var edits := Script(l, r);
  }

  // ---------------------------------------------------------------- the early exits

  lemma {:induction false} LengthBound(l: string, r: string)
    ensures |l| <= Distance(l, r) + |r| && |r| <= Distance(l, r) + |l|
    decreases |l| + |r|
  {
    if l != [] && r != [] {
      LengthBound(Init(l), r);
      LengthBound(l, Init(r));
      LengthBound(Init(l), Init(r));
    }
  }

  // The table: the distance between two prefixes.
  function Cell(l: string, r: string, i: nat, j: nat): nat
    requires i <= |l| && j <= |r|
  {
    Distance(l[..i], r[..j])
  }

  lemma EdgeCells(l: string, r: string, i: nat, j: nat)
    requires i <= |l| && j <= |r|
    ensures Cell(l, r, i, 0) == i && Cell(l, r, 0, j) == j
  {
    assert r[..0] == [] && l[..0] == [];
    EmptyRight(l[..i]);
  }

  // A cell from its three neighbours.
  lemma InnerCell(l: string, r: string, i: nat, j: nat)
    requires i < |l| && j < |r|
    ensures Cell(l, r, i + 1, j + 1)
         == Min(Min(Cell(l, r, i, j + 1) + 1, Cell(l, r, i + 1, j) + 1), Cell(l, r, i, j) + Cost(l[i], r[j]))
  {
    assert Init(l[..i + 1]) == l[..i] && Init(r[..j + 1]) == r[..j];
  }

  ghost predicate RowAbove(l: string, r: string, i: nat, k: nat)
    requires i <= |l|
  {
    forall j :: 0 <= j <= |r| ==> Cell(l, r, i, j) > k
  }

  lemma {:induction false} NextRowAbove(l: string, r: string, i: nat, j: nat, k: nat)
    requires i < |l| && j <= |r| && RowAbove(l, r, i, k)
    ensures Cell(l, r, i + 1, j) > k
  {
    if j == 0 {
      assert Cell(l, r, i, 0) > k;
      EdgeCells(l, r, i, 0);
      EdgeCells(l, r, i + 1, 0);
    } else {
      NextRowAbove(l, r, i, j - 1, k);
      InnerCell(l, r, i, j - 1);
      assert Cell(l, r, i, j) > k && Cell(l, r, i, j - 1) > k;
    }
  }

  // Once a whole row exceeds the bound, so does the distance.
  lemma {:induction false} RowAboveIsFinal(l: string, r: string, i: nat, k: nat)
    requires i <= |l| && RowAbove(l, r, i, k)
    ensures Distance(l, r) > k
    decreases |l| - i
  {
    if i == |l| {
      assert l[..i] == l && r[..|r|] == r;
      assert Cell(l, r, i, |r|) > k;
    } else {
      var next := i + 1;
      forall j | 0 <= j <= |r| ensures Cell(l, r, next, j) > k {
        NextRowAbove(l, r, i, j, k);
      }
      RowAboveIsFinal(l, r, i + 1, k);
    }
  }

  // ---------------------------------------------------------------- the table

  // The cells of row i, up to column n.
  ghost predicate Holds(row: array<nat>, l: string, r: string, i: nat, n: nat)
    reads row
  {
    && i <= |l| && n <= |r| < row.Length
    && forall j :: 0 <= j <= n ==> row[j] == Cell(l, r, i, j)
  }

  method FillRow(l: string, r: string, i: nat, previous: array<nat>, current: array<nat>) returns (rowMin: nat)
    requires i < |l| && previous != current && current.Length == |r| + 1 && Holds(previous, l, r, i, |r|)
    modifies current
    ensures Holds(current, l, r, i + 1, |r|)
    ensures forall j :: 0 <= j <= |r| ==> rowMin <= current[j]
    ensures exists j :: 0 <= j <= |r| && rowMin == current[j]
  {
    current[0] := i + 1;
    EdgeCells(l, r, i + 1, 0);
    rowMin := current[0];
    ghost var least := 0;
    for j := 0 to |r|
      invariant Holds(previous, l, r, i, |r|) && Holds(current, l, r, i + 1, j)
      invariant forall h :: 0 <= h <= j ==> rowMin <= current[h]
      invariant 0 <= least <= j && rowMin == current[least]
    {
      InnerCell(l, r, i, j);
      var cost := Cost(l[i], r[j]);
      current[j + 1] := Min(Min(previous[j + 1] + 1, current[j] + 1), previous[j] + cost);
      if current[j + 1] < rowMin {
        least := j + 1;
      }
      rowMin := Min(rowMin, current[j + 1]);
    }
  }

  // Both exits are sound: the answer is exactly whether `maxDistance` edits are enough.
  method LevenshteinAtMost(left: string, right: string, maxDistance: nat) returns (within: bool)
    ensures within <==> WithinEdits(left, right, maxDistance)
  {
    DistanceIsLeast(left, right, maxDistance);
    LengthBound(left, right);
    var gap := if |left| < |right| then |right| - |left| else |left| - |right|;
    if gap > maxDistance {
      return false;
    }
    var previous := new nat[|right| + 1](j => j);
    var current := new nat[|right| + 1](_ => 0);
    forall j | 0 <= j <= |right| ensures Cell(left, right, 0, j) == j { EdgeCells(left, right, 0, j); }
    for i := 0 to |left|
      invariant previous != current && current.Length == previous.Length == |right| + 1
      invariant fresh(previous) && fresh(current)
      invariant Holds(previous, left, right, i, |right|)
    {
      var rowMin := FillRow(left, right, i, previous, current);
      if rowMin > maxDistance {
        RowAboveIsFinal(left, right, i + 1, maxDistance);
        return false;
      }
      previous, current := current, previous;
    }
    assert left[..|left|] == left && right[..|right|] == right;
    return previous[|right|] <= maxDistance;
  }
}
