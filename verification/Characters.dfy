/** Bytes, quotes and white space, as the text modules see them. */
module Characters {
  type Byte = n: int | 0 <= n < 256

  predicate IsQuote(c: char) {
    c == '\'' || c == '"' || c == '`'
  }

  // Unicode white space, as `trim` removes it.
  predicate IsSpace(c: char) {
    var n := c as int;
    9 <= n <= 13 || n in {0x20, 0x85, 0xA0, 0x1680, 0x2028, 0x2029, 0x202F, 0x205F, 0x3000} || 0x2000 <= n <= 0x200A
  }

  function TrimStart(s: string): string {
    if s != [] && IsSpace(s[0]) then TrimStart(s[1..]) else s
  }

  function TrimEnd(s: string): string {
    if s != [] && IsSpace(s[|s| - 1]) then TrimEnd(s[..|s| - 1]) else s
  }

  function Trim(s: string): string {
    TrimEnd(TrimStart(s))
  }

  // The code points of the Unicode property White_Space.
  const WHITE_SPACE: set<int> := {
    0x09, 0x0A, 0x0B, 0x0C, 0x0D, 0x20, 0x85, 0xA0, 0x1680, 0x2000, 0x2001, 0x2002, 0x2003, 0x2004, 0x2005, 0x2006,
    0x2007, 0x2008, 0x2009, 0x200A, 0x2028, 0x2029, 0x202F, 0x205F, 0x3000
  }

  lemma SpaceIsWhite(c: char)
    ensures IsSpace(c) <==> c as int in WHITE_SPACE
  {
  }

  lemma {:induction false} StartTrimmed(s: string) returns (left: string)
    ensures s == left + TrimStart(s) && forall c :: c in left ==> c as int in WHITE_SPACE
    ensures TrimStart(s) != [] ==> TrimStart(s)[0] as int !in WHITE_SPACE
    decreases |s|
  {
    if s != [] && IsSpace(s[0]) {
      var more := StartTrimmed(s[1..]);
      left := [s[0]] + more;
      assert s == [s[0]] + s[1..];
    } else {
      left := [];
      assert s == [] + s;
    }
  }

  lemma {:induction false} EndTrimmed(s: string) returns (right: string)
    ensures s == TrimEnd(s) + right && forall c :: c in right ==> c as int in WHITE_SPACE
    ensures TrimEnd(s) != [] ==> TrimEnd(s)[0] == s[0] && TrimEnd(s)[|TrimEnd(s)| - 1] as int !in WHITE_SPACE
    decreases |s|
  {
    if s != [] && IsSpace(s[|s| - 1]) {
      var init := s[..|s| - 1];
      var more := EndTrimmed(init);
      right := more + [s[|s| - 1]];
      assert s == init + [s[|s| - 1]];
    } else {
      right := [];
      assert s == s + [];
    }
  }

  // Trimming takes white space away on both sides, and all of it.
  lemma TrimIsMiddle(s: string) returns (left: string, right: string)
    ensures s == left + Trim(s) + right
    ensures forall c :: c in left || c in right ==> c as int in WHITE_SPACE
    ensures var t := Trim(s); t != [] ==> t[0] as int !in WHITE_SPACE && t[|t| - 1] as int !in WHITE_SPACE
  {
    left := StartTrimmed(s);
    right := EndTrimmed(TrimStart(s));
  }
}
