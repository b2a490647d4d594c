/** UTF-8: the bytes of a text, the digits that file names write them in, and the byte offsets at which
    a text may be cut. */
module Utf8 {
  import opened Characters
  import opened Wrappers
  import opened FileNames
  import Highlight

  // ---------------------------------------------------------------- whole characters

  // The number in the payload bits, six for each byte behind the first.
  function Payload(b: seq<Byte>): int {
    if b == [] then 0
    else if |b| == 1 then b[0] - (if b[0] < 0x80 then 0 else if b[0] < 0xE0 then 0xC0 else if b[0] < 0xF0 then 0xE0
                                  else 0xF0)
    else Payload(b[..|b| - 1]) * 64 + (b[|b| - 1] as int - 0x80)
  }

  // Section 3 of RFC 3629: the fewest bytes that have room for the code point.
  lemma CharBytesSpell(c: char)
    ensures Payload(CharBytes(c)) == c as int
    ensures |CharBytes(c)| == if c as int <= 0x7F then 1 else if c as int <= 0x7FF then 2
                              else if c as int <= 0xFFFF then 3 else 4
  {
    var n, b := c as int, CharBytes(c);
    if |b| == 2 {
      PayloadGrows([b[0]], b[1]);
      assert b == [b[0]] + [b[1]];
    } else if |b| == 3 {
      PayloadOfThree(n / 0x1000, n / 0x40 % 0x40, n % 0x40);
      ThreeDigits(n);
    } else if |b| == 4 {
      PayloadOfFour(n / 0x4_0000, n / 0x1000 % 0x40, n / 0x40 % 0x40, n % 0x40);
      FourDigits(n);
    }
  }

  lemma ThreeDigits(n: nat)
    ensures n == (n / 0x1000 * 64 + n / 0x40 % 0x40) * 64 + n % 0x40
  {
    assert n / 0x1000 == n / 0x40 / 0x40;
  }

  lemma FourDigits(n: nat)
    ensures n == ((n / 0x4_0000 * 64 + n / 0x1000 % 0x40) * 64 + n / 0x40 % 0x40) * 64 + n % 0x40
  {
    ThreeDigits(n);
    assert n / 0x4_0000 == n / 0x1000 / 0x40;
  }

  lemma PayloadOfThree(x: nat, y: nat, z: nat)
    requires x < 16 && y < 64 && z < 64
    ensures Payload([0xE0 + x, 0x80 + y, 0x80 + z]) == (x * 64 + y) * 64 + z
  {
    PayloadGrows([0xE0 + x], 0x80 + y);
    PayloadGrows([0xE0 + x] + [0x80 + y], 0x80 + z);
    assert [0xE0 + x, 0x80 + y, 0x80 + z] == [0xE0 + x] + [0x80 + y] + [0x80 + z];
  }

  lemma PayloadOfFour(w: nat, x: nat, y: nat, z: nat)
    requires w < 8 && x < 64 && y < 64 && z < 64
    ensures Payload([0xF0 + w, 0x80 + x, 0x80 + y, 0x80 + z]) == ((w * 64 + x) * 64 + y) * 64 + z
  {
    PayloadGrows([0xF0 + w], 0x80 + x);
    PayloadGrows([0xF0 + w] + [0x80 + x], 0x80 + y);
    PayloadGrows([0xF0 + w] + [0x80 + x] + [0x80 + y], 0x80 + z);
    assert [0xF0 + w, 0x80 + x, 0x80 + y, 0x80 + z] == [0xF0 + w] + [0x80 + x] + [0x80 + y] + [0x80 + z];
  }

  lemma PayloadGrows(b: seq<Byte>, last: Byte)
    requires b != []
    ensures Payload(b + [last]) == Payload(b) * 64 + (last as int - 0x80)
  {
    assert (b + [last])[..|b|] == b;
  }

  lemma CharIsWhole(c: char)
    ensures var b := CharBytes(c); |b| == Highlight.Width(b[0]) && !Highlight.Continuation(b[0])
    ensures forall i :: 1 <= i < |CharBytes(c)| ==> Highlight.Continuation(CharBytes(c)[i])
  {
  }

  // The bytes of a text are whole characters, so highlighting's offsets are offsets into a text.
  lemma {:induction false} TextIsWhole(s: string)
    ensures Highlight.Whole(Bytes(s))
  {
    if s != [] {
      CharIsWhole(s[0]);
      TextIsWhole(s[1..]);
      var b := CharBytes(s[0]);
      assert (b + Bytes(s[1..]))[|b|..] == Bytes(s[1..]);
      assert forall i :: 0 <= i < |b| ==> (b + Bytes(s[1..]))[i] == b[i];
    }
  }

  lemma {:induction false} BytesAppend(a: string, b: string)
    ensures Bytes(a + b) == Bytes(a) + Bytes(b)
  {
    if a == [] {
      assert a + b == b;
    } else {
      assert (a + b)[1..] == a[1..] + b;
      BytesAppend(a[1..], b);
      Shift(CharBytes(a[0]), Bytes(a[1..]), Bytes(b));
    }
  }

  ghost predicate BetweenCharacters(s: string, i: nat) {
    exists k: nat :: k <= |s| && |Bytes(s[..k])| == i
  }

  lemma CutBehindFirst(s: string, i: nat)
    requires s != [] && i >= |CharBytes(s[0])|
    ensures BetweenCharacters(s, i) <==> BetweenCharacters(s[1..], i - |CharBytes(s[0])|)
  {
    var n := |CharBytes(s[0])|;
    forall k: nat | k < |s| ensures |Bytes(s[..k + 1])| == n + |Bytes(s[1..][..k])| {
      assert s[..k + 1][1..] == s[1..][..k];
    }
    if BetweenCharacters(s, i) {
      var k: nat :| k <= |s| && |Bytes(s[..k])| == i;
      assert k != 0;
      assert |Bytes(s[1..][..k - 1])| == i - n by { assert s[..k - 1 + 1] == s[..k]; }
    }
    if BetweenCharacters(s[1..], i - n) {
      var k: nat :| k <= |s[1..]| && |Bytes(s[1..][..k])| == i - n;
      assert |Bytes(s[..k + 1])| == i;
    }
  }

  lemma CutInFirst(s: string, i: nat)
    requires s != [] && 0 < i < |CharBytes(s[0])|
    ensures !BetweenCharacters(s, i)
  {
    forall k: nat | k <= |s| ensures |Bytes(s[..k])| != i {
      if k > 0 { assert s[..k][0] == s[0]; }
    }
  }

  // A boundary is an offset between two characters, and every such offset is one.
  lemma {:induction false} BoundaryIsBetween(s: string, i: nat)
    requires i <= |Bytes(s)|
    ensures Highlight.Boundary(Bytes(s), i) <==> BetweenCharacters(s, i)
  {
    if i == 0 || s == [] {
      assert |Bytes(s[..0])| == 0;
    } else {
      var b, rest := CharBytes(s[0]), Bytes(s[1..]);
      CharIsWhole(s[0]);
      if i < |b| {
        CutInFirst(s, i);
        assert Bytes(s)[i] == b[i];
      } else {
        CutBehindFirst(s, i);
        BoundaryIsBetween(s[1..], i - |b|);
        FirstIsNoContinuation(s[1..]);
        assert i < |Bytes(s)| ==> Bytes(s)[i] == rest[i - |b|];
      }
    }
  }

  lemma FirstIsNoContinuation(s: string)
    ensures Bytes(s) != [] ==> !Highlight.Continuation(Bytes(s)[0])
  {
    if s != [] { CharIsWhole(s[0]); }
  }

  // ---------------------------------------------------------------- hexadecimal names

  const DIGITS: string := "0123456789abcdef"

  // Two digits a byte, the high one first.
  lemma {:induction false} HexSpellsBytes(b: seq<Byte>, i: nat)
    requires i < |b|
    ensures |Hex(b)| == 2 * |b|
    ensures exists high: nat, low: nat | high < 16 && low < 16 && b[i] == 16 * high + low ::
      Hex(b)[2 * i] == DIGITS[high] && Hex(b)[2 * i + 1] == DIGITS[low]
  {
    HexLength(b);
    if i == 0 {
      var high: nat, low: nat := b[0] / 16, b[0] % 16;
      assert b[i] == 16 * high + low && Hex(b)[0] == DIGITS[high] && Hex(b)[1] == DIGITS[low];
    } else {
      HexSpellsBytes(b[1..], i - 1);
      HexLength(b[1..]);
      var rest := Hex(b[1..]);
      assert Hex(b) == Hex(b)[..2] + rest;
      assert Hex(b)[2 * i] == rest[2 * (i - 1)] && Hex(b)[2 * i + 1] == rest[2 * (i - 1) + 1];
    }
  }

  lemma {:induction false} HexLength(b: seq<Byte>)
    ensures |Hex(b)| == 2 * |b|
  {
    if b != [] { HexLength(b[1..]); }
  }

  // The row file of table "b" in database "é".
  lemma SampleName()
    ensures RowFileName("\U{e9}", "b") == "c3a9--62.csv"
  {
    OneCharacter('\U{e9}');
    OneCharacter('b');
    SampleHex([0xC3, 0xA9]);
    assert Hex([0x62]) == "62";
  }

  lemma OneCharacter(c: char)
    ensures Bytes([c]) == CharBytes(c)
  {
    assert [c][1..] == [];
  }

  lemma SampleHex(b: seq<Byte>)
    requires b == [0xC3, 0xA9]
    ensures Hex(b) == "c3a9"
  {
    assert b[1..] == [0xA9] && b[1..][1..] == [];
    assert Hex(b[1..]) == "a9";
  }
}
