/** The names of row files: hexadecimal bytes, so that no two tables share a file (`hex_name`,
    `row_file_name`). */
module FileNames {
  import opened Characters
  import opened TableKeys


  // The UTF-8 bytes of a character.
  function CharBytes(c: char): (b: seq<Byte>)
    ensures b != []
  {
    var n := c as int;
    if n < 0x80 then [n]
    else if n < 0x800 then [0xC0 + n / 0x40, 0x80 + n % 0x40]
    else if n < 0x1_0000 then [0xE0 + n / 0x1000, 0x80 + n / 0x40 % 0x40, 0x80 + n % 0x40]
    else [0xF0 + n / 0x4_0000, 0x80 + n / 0x1000 % 0x40, 0x80 + n / 0x40 % 0x40, 0x80 + n % 0x40]
  }

  function Bytes(s: string): seq<Byte> {
    if s == [] then [] else CharBytes(s[0]) + Bytes(s[1..])
  }

  // The code point that the first bytes spell.
  function FirstCode(b: seq<Byte>): int {
    if b == [] then -1
    else if b[0] < 0x80 then b[0]
    else if b[0] < 0xE0 then if |b| < 2 then -1 else (b[0] as int - 0xC0) * 0x40 + (b[1] as int - 0x80)
    else if b[0] < 0xF0 then
      if |b| < 3 then -1 else (b[0] as int - 0xE0) * 0x1000 + (b[1] as int - 0x80) * 0x40 + (b[2] as int - 0x80)
    else
      if |b| < 4 then -1
      else
        var high := (b[0] as int - 0xF0) * 0x4_0000 + (b[1] as int - 0x80) * 0x1000;
        high + (b[2] as int - 0x80) * 0x40 + (b[3] as int - 0x80)
  }

  lemma FirstCodeOfChar(c: char, rest: seq<Byte>)
    ensures FirstCode(CharBytes(c) + rest) == c as int
  {
    var n := c as int;
    var b := CharBytes(c) + rest;
    var h := n / 0x40;
    assert n == h * 0x40 + n % 0x40;
    assert n / 0x1000 == h / 0x40 && h == h / 0x40 * 0x40 + h % 0x40;
    var k := h / 0x40;
    assert n / 0x4_0000 == k / 0x40 && k == k / 0x40 * 0x40 + k % 0x40;
    if n < 0x80 {
      assert b[0] == n;
    } else if n < 0x800 {
      assert b[0] == 0xC0 + h && b[1] == 0x80 + n % 0x40;
    } else if n < 0x1_0000 {
      assert b[0] == 0xE0 + k && b[1] == 0x80 + h % 0x40 && b[2] == 0x80 + n % 0x40;
    } else {
      assert b[0] == 0xF0 + k / 0x40 && b[1] == 0x80 + k % 0x40 && b[2] == 0x80 + h % 0x40 && b[3] == 0x80 + n % 0x40;
    }
  }

  lemma {:induction false} BytesAreInjective(a: string, b: string)
    requires Bytes(a) == Bytes(b)
    ensures a == b
  {
    if a != [] && b != [] {
      FirstCodeOfChar(a[0], Bytes(a[1..]));
      FirstCodeOfChar(b[0], Bytes(b[1..]));
      assert a[0] == b[0];
      var n := |CharBytes(a[0])|;
      assert Bytes(a[1..]) == Bytes(a)[n..] == Bytes(b)[n..] == Bytes(b[1..]);
      BytesAreInjective(a[1..], b[1..]);
      assert a == [a[0]] + a[1..] && b == [b[0]] + b[1..];
    }
  }

  function Hex(b: seq<Byte>): string {
    if b == [] then [] else [HexDigit(b[0] / 16), HexDigit(b[0] % 16)] + Hex(b[1..])
  }

  function HexName(value: string): string {
    Hex(Bytes(value))
  }

  lemma HexDigitsDiffer(a: nat, b: nat)
    requires a < 16 && b < 16 && HexDigit(a) == HexDigit(b)
    ensures a == b
  {
    assert TableKeys.HexValue(HexDigit(a)).value == a && TableKeys.HexValue(HexDigit(b)).value == b;
  }

  lemma {:induction false} HexIsInjective(a: seq<Byte>, b: seq<Byte>)
    requires Hex(a) == Hex(b)
    ensures a == b
  {
    if a != [] && b != [] {
      assert Hex(a)[0] == Hex(b)[0] && Hex(a)[1] == Hex(b)[1];
      HexDigitsDiffer(a[0] / 16, b[0] / 16);
      HexDigitsDiffer(a[0] % 16, b[0] % 16);
      assert Hex(a[1..]) == Hex(a)[2..] == Hex(b)[2..] == Hex(b[1..]);
      HexIsInjective(a[1..], b[1..]);
      assert a == [a[0]] + a[1..] && b == [b[0]] + b[1..];
    }
  }

  lemma {:induction false} HexHasNoDash(b: seq<Byte>)
    ensures '-' !in Hex(b)
  {
    if b != [] { HexHasNoDash(b[1..]); }
  }

  function RowFileName(database: string, table: string): string {
    HexName(database) + ("--" + (HexName(table) + ".csv"))
  }

  lemma SameFront(a: string, x: string, b: string, y: string)
    requires '-' !in a && '-' !in b && a + ("--" + x) == b + ("--" + y)
    ensures a == b && x == y
  {
    var s := a + ("--" + x);
    assert s[|a|] == '-' && s[|b|] == '-';
    assert forall i :: 0 <= i < |a| ==> s[i] == a[i];
    assert forall i :: 0 <= i < |b| ==> s[i] == b[i];
    assert a == s[..|a|] && b == s[..|b|];
    assert "--" + x == s[|a|..] && "--" + y == s[|b|..];
    assert ("--" + x)[2..] == x && ("--" + y)[2..] == y;
  }

  // Two tables never share a row file, whatever characters their names hold.
  lemma RowFilesDiffer(d1: string, t1: string, d2: string, t2: string)
    requires RowFileName(d1, t1) == RowFileName(d2, t2)
    ensures d1 == d2 && t1 == t2
  {
    HexHasNoDash(Bytes(d1));
    HexHasNoDash(Bytes(d2));
    SameFront(HexName(d1), HexName(t1) + ".csv", HexName(d2), HexName(t2) + ".csv");
    var x, y := HexName(t1), HexName(t2);
    assert (x + ".csv")[..|x|] == x && (y + ".csv")[..|y|] == y;
    HexIsInjective(Bytes(d1), Bytes(d2));
    HexIsInjective(Bytes(t1), Bytes(t2));
    BytesAreInjective(d1, d2);
    BytesAreInjective(t1, t2);
  }
}
