/** Strings as Rust orders them, and the ordered iteration that `BTreeMap` and RocksDB share.

    A string is a sequence of Unicode scalar values. UTF-8 preserves code-point order and
    prefixes, so comparing scalar values is comparing the encoded bytes. */
module Ordering {

  // Strict lexicographic order.
  predicate Less(a: string, b: string) {
    b != [] && (a == [] || a[0] < b[0] || (a[0] == b[0] && Less(a[1..], b[1..])))
  }

  predicate AtMost(a: string, b: string) {
    a == b || Less(a, b)
  }

  ghost predicate StrictlySorted(s: seq<string>) {
    forall i, j :: 0 <= i < j < |s| ==> Less(s[i], s[j])
  }

  // The first difference decides; a proper prefix comes first.
  ghost predicate DifferAt(a: string, b: string, i: nat) {
    && i < |b| && i <= |a| && a[..i] == b[..i] && (i == |a| || a[i] as int < b[i] as int)
  }

  ghost predicate Differ(a: string, b: string) {
    exists i: nat :: DifferAt(a, b, i)
  }

  lemma DifferStep(a: string, b: string)
    requires a != [] && b != []
    ensures Differ(a, b) <==> a[0] < b[0] || (a[0] == b[0] && Differ(a[1..], b[1..]))
  {
    if a[0] < b[0] { assert DifferAt(a, b, 0); }
    if a[0] == b[0] && Differ(a[1..], b[1..]) {
      var i: nat :| DifferAt(a[1..], b[1..], i);
      DifferBehind(a, b, i);
    }
    if Differ(a, b) {
      var i: nat :| DifferAt(a, b, i);
      if i > 0 { DifferBehind(a, b, i - 1); }
    }
  }

  lemma {:induction false} LessAtDifference(a: string, b: string)
    ensures Less(a, b) <==> Differ(a, b)
    decreases |a|
  {
    if a != [] && b != [] {
      LessAtDifference(a[1..], b[1..]);
      DifferStep(a, b);
    } else if b != [] {
      assert DifferAt(a, b, 0);
    }
  }

  lemma DifferBehind(a: string, b: string, i: nat)
    requires a != [] && b != []
    ensures DifferAt(a, b, i + 1) <==> a[0] == b[0] && DifferAt(a[1..], b[1..], i)
  {
    if i < |b| - 1 && i <= |a| - 1 {
      assert a[..i + 1] == [a[0]] + a[1..][..i] && b[..i + 1] == [b[0]] + b[1..][..i];
    }
  }

  lemma {:induction false} LessIrreflexive(a: string)
    ensures !Less(a, a)
  {
    if a != [] { LessIrreflexive(a[1..]); }
  }

  lemma {:induction false} LessTransitive(a: string, b: string, c: string)
    requires Less(a, b) && Less(b, c)
    ensures Less(a, c)
  {
    if a != [] && a[0] == b[0] && b[0] == c[0] { LessTransitive(a[1..], b[1..], c[1..]); }
  }

  lemma {:induction false} LessTotal(a: string, b: string)
    ensures Less(a, b) || a == b || Less(b, a)
  {
    if a != [] && b != [] && a[0] == b[0] {
      LessTotal(a[1..], b[1..]);
      assert a == [a[0]] + a[1..] && b == [b[0]] + b[1..];
    }
  }

  lemma LessAsymmetric(a: string, b: string)
    requires Less(a, b)
    ensures !Less(b, a) && a != b
  {
    if Less(b, a) { LessTransitive(a, b, a); }
    LessIrreflexive(a);
  }

  lemma LessGoesOneWay(a: string, b: string)
    ensures Less(a, b) ==> a != b && !Less(b, a)
  {
    if Less(a, b) { LessAsymmetric(a, b); }
  }

  // A common prefix does not change the order: fields sort as their full keys do.
  lemma {:induction false} PrefixPreservesOrder(p: string, a: string, b: string)
    ensures Less(p + a, p + b) <==> Less(a, b)
  {
    if p == [] {
      assert p + a == a && p + b == b;
    } else {
      assert (p + a)[1..] == p[1..] + a && (p + b)[1..] == p[1..] + b;
      PrefixPreservesOrder(p[1..], a, b);
    }
  }

  // The strings with a given prefix are contiguous in the order.
  lemma {:induction false} PrefixIsConvex(p: string, a: string, b: string, c: string)
    requires p <= a && p <= c && AtMost(a, b) && AtMost(b, c)
    ensures p <= b
  {
    if p != [] && b != a && b != c {
      LessAsymmetric(a, b);
      assert b != [] && a[0] == c[0] == p[0];
      assert b[0] == p[0];
      PrefixIsConvex(p[1..], a[1..], b[1..], c[1..]);
      assert p == [p[0]] + p[1..] && b == [b[0]] + b[1..];
    }
  }

  lemma PrefixAtMost(p: string, a: string)
    requires p <= a
    ensures AtMost(p, a)
  {
    if p != [] {
      assert p[1..] <= a[1..];
      PrefixAtMost(p[1..], a[1..]);
      assert p == [p[0]] + p[1..] && a == [a[0]] + a[1..];
    }
  }

  predicate IsLeast(m: string, s: set<string>) {
    m in s && forall k :: k in s ==> AtMost(m, k)
  }

  lemma {:induction false} LeastExists(s: set<string>)
    requires s != {}
    ensures exists m :: IsLeast(m, s)
  {
    var k :| k in s;
    if s == {k} {
      assert IsLeast(k, s);
    } else {
      LeastExists(s - {k});
      var m :| IsLeast(m, s - {k});
      LessTotal(k, m);
      if Less(k, m) {
        forall j | j in s ensures AtMost(k, j) {
          if j != k {
            assert j in s - {k};
            if j != m { LessTransitive(k, m, j); }
          }
        }
        assert IsLeast(k, s);
      } else {
        assert IsLeast(m, s);
      }
    }
  }

  lemma LeastIsUnique(a: string, b: string, s: set<string>)
    requires IsLeast(a, s) && IsLeast(b, s)
    ensures a == b
  {
    if a != b { LessAsymmetric(a, b); }
  }

  function Least(s: set<string>): (m: string)
    requires s != {}
    ensures IsLeast(m, s)
  {
    LeastExists(s);
    assert forall a, b | IsLeast(a, s) && IsLeast(b, s) :: a == b by {
      forall a, b | IsLeast(a, s) && IsLeast(b, s) ensures a == b { LeastIsUnique(a, b, s); }
    }
    var m :| m in s && IsLeast(m, s);
    m
  }

  // The keys of a map in iteration order.
  function SortedKeys(s: set<string>): (r: seq<string>)
    ensures forall k :: k in r <==> k in s
    ensures |r| == |s|
  {
    if s == {} then [] else
      var m := Least(s);
      [m] + SortedKeys(s - {m})
  }

  lemma {:induction false} SortedKeysSorted(s: set<string>)
    ensures StrictlySorted(SortedKeys(s))
  {
    if s != {} {
      var m := Least(s);
      var rest := SortedKeys(s - {m});
      SortedKeysSorted(s - {m});
      assert forall k :: k in rest ==> k in s && k != m && Less(m, k);
      assert forall i :: 0 <= i < |rest| ==> rest[i] in rest;
    }
  }

  lemma HeadIsMember(s: seq<string>)
    requires s != []
    ensures s[0] in s
  {
  }

  lemma NothingIn(s: seq<string>)
    requires forall k :: k !in s
    ensures s == []
  {
    if s != [] {
      HeadIsMember(s);
      assert false;
    }
  }

  // Strictly sorted sequences are determined by their elements.
  lemma {:induction false} SortedIsUnique(a: seq<string>, b: seq<string>)
    requires StrictlySorted(a) && StrictlySorted(b)
    requires forall k :: k in a <==> k in b
    ensures a == b
  {
    if a == [] {
      if b != [] {
        HeadIsMember(b);
        assert false;
      }
    } else {
      assert a[0] in b;
      assert b[0] in a;
      if a[0] != b[0] { LessAsymmetric(a[0], b[0]); }
      forall k ensures k in a[1..] <==> k in b[1..] {
        if k == a[0] {
          LessIrreflexive(k);
        } else {
          assert k in a ==> k in a[1..];
          assert k in b ==> k in b[1..];
        }
      }
      SortedIsUnique(a[1..], b[1..]);
      assert a == [a[0]] + a[1..] && b == [b[0]] + b[1..];
    }
  }
}
