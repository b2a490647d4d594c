/** The masker, part by part: what becomes of a quoted literal, a comment, an executable comment with
    its version number, and a line comment, wherever it stands in front of any text. */
module SqlParts {
  import opened Characters
  import opened Wrappers
  import opened Rewriters
  import SqlMask

  // ---------------------------------------------------------------- blanks and lines

  // A blank for every character, and the line ends where they were.
  predicate AreBlanks(b: string, s: string) {
    |b| == |s| && forall i :: 0 <= i < |s| ==> b[i] == if s[i] == '\n' then '\n' else ' '
  }

  lemma BlankedIsBlank(s: string)
    ensures AreBlanks(SqlMask.Blanked(s), s)
    ensures '\n' !in s ==> SqlMask.Spaces(|s|) == SqlMask.Blanked(s)
  {
  }

  // The line of an offset is one more than the line ends before it.
  lemma {:induction false} LinesAreLineEnds(s: string)
    ensures SqlMask.Lines(s) == multiset(s)['\n']
  {
    if s != "" {
      LinesAreLineEnds(s[..|s| - 1]);
      InitAndLast(s);
    }
  }

  // ---------------------------------------------------------------- quoted literals

  // In quotes of any kind a backslash protects the next character, and the quote is doubled.
  predicate InLiteral(q: char, x: Unit) {
    x.Plain? ==> x.c != q && x.c != '\\'
  }

  lemma UnitLength(q: char, x: Unit, t: string)
    requires IsQuote(q) && InLiteral(q, x)
    ensures SqlMask.QuoteLength(q, false, UnitText(q, x) + t) == |UnitText(q, x)| + SqlMask.QuoteLength(q, false, t)
  {
    var all := UnitText(q, x) + t;
    assert all[|UnitText(q, x)|..] == t;
    if x.Escaped? { assert all[1..][1..] == t; }
  }

  lemma {:induction false} UnitsLength(q: char, units: seq<Unit>, t: string)
    requires IsQuote(q) && forall i :: 0 <= i < |units| ==> InLiteral(q, units[i])
    ensures SqlMask.QuoteLength(q, false, UnitsText(q, units) + t)
         == |UnitsText(q, units)| + SqlMask.QuoteLength(q, false, t)
    decreases |units|
  {
    if units == [] {
      assert "" + t == t;
    } else {
      Shift(UnitText(q, units[0]), UnitsText(q, units[1..]), t);
      UnitLength(q, units[0], UnitsText(q, units[1..]) + t);
      UnitsLength(q, units[1..], t);
    }
  }

  lemma CutBehind(a: string, b: string)
    ensures (a + b)[..|a|] == a && (a + b)[|a|..] == b
  {
  }

  // A literal is blanked up to its closing quote, or to the end of the text.
  lemma LiteralIsBlanked(u: SqlMask.Classes, q: char, units: seq<Unit>, closed: bool, rest: string)
    requires IsQuote(q) && forall i :: 0 <= i < |units| ==> InLiteral(q, units[i])
    requires if closed then rest == "" || rest[0] != q else rest == ""
    ensures var literal := [q] + (UnitsText(q, units) + Closing(q, closed));
            SqlMask.Masked(u, literal + rest) == SqlMask.Blanked(literal) + SqlMask.Masked(u, rest)
  {
    var inner, close := UnitsText(q, units), Closing(q, closed);
    var literal := [q] + (inner + close);
    Shift(inner, close, rest);
    Shift([q], inner + close, rest);
    UnitsLength(q, units, close + rest);
    CloseLength(q, closed, rest);
    assert (literal + rest)[0] == q && (literal + rest)[1..] == inner + (close + rest);
    CutBehind(literal, rest);
    MaskedQuote(u, literal + rest, literal, rest);
  }

  lemma CloseLength(q: char, closed: bool, rest: string)
    requires IsQuote(q) && if closed then rest == "" || rest[0] != q else rest == ""
    ensures SqlMask.QuoteLength(q, false, Closing(q, closed) + rest) == |Closing(q, closed)|
  {
    if closed && rest != "" { assert ([q] + rest)[1] == rest[0]; }
  }

  lemma MaskedQuote(u: SqlMask.Classes, t: string, literal: string, rest: string)
    requires t != "" && IsQuote(t[0]) && |literal| == 1 + SqlMask.QuoteLength(t[0], false, t[1..])
    requires t[..|literal|] == literal && t[|literal|..] == rest
    ensures SqlMask.Masked(u, t) == SqlMask.Blanked(literal) + SqlMask.Masked(u, rest)
  {
  }

  // ---------------------------------------------------------------- comments

  predicate ClosesAt(s: string, i: nat) {
    i + 1 < |s| && s[i] == '*' && s[i + 1] == '/'
  }

  // The end of a comment is the first one, counted from behind its opening.
  lemma {:induction false} CloseIsFirst(t: string, from: nat, n: nat)
    requires from <= n <= |t| && (ClosesAt(t, n) || n == |t|) && forall i: nat | from <= i < n :: !ClosesAt(t, i)
    ensures SqlMask.FindClose(t, from) == n
    decreases |t| - from
  {
    if from < n {
      assert !ClosesAt(t, from);
      CloseIsFirst(t, from + 1, n);
    }
  }

  // A comment up to its end: nothing in it ends it earlier.
  predicate IsBody(intro: string, body: string, closed: bool, rest: string) {
    && (forall i: nat | 2 <= i < |intro + body| :: !ClosesAt(intro + (body + (Ending(closed) + rest)), i))
    && (!closed ==> rest == "")
  }

  function Ending(closed: bool): string {
    if closed then "*/" else ""
  }

  lemma EndIsThere(intro: string, body: string, closed: bool, rest: string)
    requires |intro| >= 2 && IsBody(intro, body, closed, rest)
    ensures var t, n := intro + (body + (Ending(closed) + rest)), |intro| + |body|;
            SqlMask.FindClose(t, 2) == n <= |t| && t[..|intro|] == intro && t[|intro|..n] == body
            && t[n..] == Ending(closed) + rest
  {
    var t, n := intro + (body + (Ending(closed) + rest)), |intro| + |body|;
    assert |intro + body| == n;
    if closed { assert ClosesAt(t, n); }
    CloseIsFirst(t, 2, n);
  }

  // Not for the server to execute.
  predicate IsRemark(s: string) {
    && !(s != "" && s[0] == '!')
    && !(|s| > 1 && (s[0] == 'M' || s[0] == 'm') && s[1] == '!')
  }

  lemma EndLength(t: string, n: nat, closed: bool, rest: string)
    requires SqlMask.OpensComment(t) && SqlMask.FindClose(t, 2) == n <= |t| && t[n..] == Ending(closed) + rest
    requires !closed ==> rest == ""
    ensures SqlMask.CommentEnd(t) == n + |Ending(closed)| && t[SqlMask.CommentEnd(t)..] == rest
  {
    assert t[n..][|Ending(closed)|..] == rest;
  }

  // A comment is blanked up to its end, or to the end of the text.
  lemma CommentIsBlanked(u: SqlMask.Classes, body: string, closed: bool, rest: string)
    requires IsBody("/*", body, closed, rest) && IsRemark(body + (Ending(closed) + rest))
    ensures var comment := "/*" + (body + Ending(closed));
            SqlMask.Masked(u, comment + rest) == SqlMask.Blanked(comment) + SqlMask.Masked(u, rest)
  {
    var t, n := "/*" + (body + (Ending(closed) + rest)), 2 + |body|;
    var comment := "/*" + (body + Ending(closed));
    Shift(body, Ending(closed), rest);
    Shift("/*", body + Ending(closed), rest);
    EndIsThere("/*", body, closed, rest);
    EndLength(t, n, closed, rest);
    CutBehind(comment, rest);
    RemarkHasNoMarker(t, body + (Ending(closed) + rest));
    MaskedRemark(u, t);
  }

  lemma RemarkHasNoMarker(t: string, s: string)
    requires t == "/*" + s && IsRemark(s)
    ensures SqlMask.OpensComment(t) && SqlMask.Marker(t).None?
  {
    if s != "" { assert t[2] == s[0]; }
    if |s| > 1 { assert t[3] == s[1]; }
  }

  lemma MaskedRemark(u: SqlMask.Classes, t: string)
    requires SqlMask.OpensComment(t) && SqlMask.Marker(t).None?
    ensures SqlMask.Masked(u, t)
         == SqlMask.Blanked(t[..SqlMask.CommentEnd(t)]) + SqlMask.Masked(u, t[SqlMask.CommentEnd(t)..])
  {
  }

  // ---------------------------------------------------------------- executable comments

  predicate IsIntro(intro: string) {
    intro == "/*!" || intro == "/*M!" || intro == "/*m!"
  }

  // Five or six digits, no seventh part of them: the version a body may start with.
  predicate IsVersion(u: SqlMask.Classes, version: string, code: string) {
    && (forall i :: 0 <= i < |version| ==> u.isDigit(version[i]))
    && (|version| == 6 || (|version| == 5 && (code == "" || !u.isDigit(code[0]))))
  }

  // A body that starts with fewer than five digits.
  predicate HasNoVersion(u: SqlMask.Classes, body: string) {
    exists i :: 0 <= i < 5 && (|body| <= i || !u.isDigit(body[i]))
  }

  lemma {:induction false} DigitsCount(u: SqlMask.Classes, t: string, most: nat, n: nat)
    requires n <= most && n <= |t| && (forall i :: 0 <= i < n ==> u.isDigit(t[i]))
    requires n == most || n == |t| || !u.isDigit(t[n])
    ensures SqlMask.DigitsUpTo(u, t, most) == n
    decreases n
  {
    if n > 0 { DigitsCount(u, t[1..], most - 1, n - 1); }
  }

  lemma VersionIsBlanked(u: SqlMask.Classes, version: string, code: string)
    requires IsVersion(u, version, code)
    ensures SqlMask.WithoutVersion(u, version + code) == SqlMask.Spaces(|version|) + code
  {
    var t := version + code;
    if |version| < |t| { assert t[|version|] == code[0]; }
    DigitsCount(u, t, 6, |version|);
    CutBehind(version, code);
  }

  lemma OtherBodyIsKept(u: SqlMask.Classes, body: string)
    requires HasNoVersion(u, body)
    ensures SqlMask.WithoutVersion(u, body) == body
  {
  }

  lemma IntroIsMarker(intro: string, s: string)
    requires IsIntro(intro)
    ensures SqlMask.OpensComment(intro + s) && SqlMask.Marker(intro + s) == Some(|intro|)
  {
  }

  lemma MaskedExecutable(u: SqlMask.Classes, t: string, start: nat, n: nat)
    requires SqlMask.OpensComment(t) && SqlMask.Marker(t) == Some(start) && n == SqlMask.FindClose(t, 2)
    ensures SqlMask.Masked(u, t)
         == SqlMask.Spaces(start) + SqlMask.Masked(u, SqlMask.WithoutVersion(u, t[start..n]))
            + SqlMask.Spaces(SqlMask.CommentEnd(t) - n) + SqlMask.Masked(u, t[SqlMask.CommentEnd(t)..])
  {
  }

  lemma ExecutableText(t: string, intro: string, body: string, closed: bool, rest: string)
    requires t == intro + (body + (Ending(closed) + rest)) && IsIntro(intro) && IsBody(intro, body, closed, rest)
    ensures SqlMask.OpensComment(t) && SqlMask.Marker(t) == Some(|intro|)
    ensures var n := SqlMask.FindClose(t, 2);
      && |intro| <= n <= |t| && t[|intro|..n] == body && SqlMask.CommentEnd(t) == n + |Ending(closed)|
      && t[SqlMask.CommentEnd(t)..] == rest
  {
    EndIsThere(intro, body, closed, rest);
    IntroIsMarker(intro, body + (Ending(closed) + rest));
    EndLength(t, |intro| + |body|, closed, rest);
  }

  // The body of an executable comment, in either spelling of the marker, is masked as code.
  lemma ExecutableIsCode(u: SqlMask.Classes, t: string, intro: string, body: string, closed: bool, rest: string)
    requires t == intro + (body + (Ending(closed) + rest)) && IsIntro(intro) && IsBody(intro, body, closed, rest)
    ensures SqlMask.Masked(u, t)
         == SqlMask.Spaces(|intro|) + SqlMask.Masked(u, SqlMask.WithoutVersion(u, body))
            + SqlMask.Spaces(|Ending(closed)|) + SqlMask.Masked(u, rest)
  {
    ExecutableText(t, intro, body, closed, rest);
    MaskedExecutable(u, t, |intro|, SqlMask.FindClose(t, 2));
  }

  // ---------------------------------------------------------------- line comments and code

  // A number sign, or two dashes in front of white space or the end of the text.
  predicate IsLine(u: SqlMask.Classes, line: string, rest: string) {
    && line != "" && (forall i :: 0 <= i < |line| ==> line[i] != '\n') && (rest == "" || rest[0] == '\n')
    && (line[0] == '#' || IsDashes(u, line, line + rest))
  }

  predicate IsDashes(u: SqlMask.Classes, line: string, t: string) {
    && |line| > 1 && line[0] == '-' && line[1] == '-'
    && (t == "--" || (|t| > 2 && u.isSpace(t[2])))
  }

  lemma {:induction false} LineEnds(line: string, rest: string)
    requires (forall i :: 0 <= i < |line| ==> line[i] != '\n') && (rest == "" || rest[0] == '\n')
    ensures SqlMask.LineEnd(line + rest) == |line|
  {
    if line == "" {
      assert line + rest == rest;
    } else {
      assert (line + rest)[1..] == line[1..] + rest;
      LineEnds(line[1..], rest);
    }
  }

  // A line comment is blanked up to the line end, which stays.
  lemma LineIsBlanked(u: SqlMask.Classes, line: string, rest: string)
    requires IsLine(u, line, rest)
    ensures SqlMask.Masked(u, line + rest) == SqlMask.Spaces(|line|) + SqlMask.Masked(u, rest)
  {
    var t := line + rest;
    LineEnds(line, rest);
    CutBehind(line, rest);
    assert t[0] == line[0] && (|line| > 1 ==> t[1] == line[1]);
  }

  // Where nothing opens: no quote, no number sign, no slash in front of a star, and no two dashes in
  // front of white space or the end.
  predicate IsCode(u: SqlMask.Classes, c: char, rest: string) {
    && c !in "'\"`#" && !(c == '/' && rest != "" && rest[0] == '*')
    && !(c == '-' && rest != "" && rest[0] == '-' && (|rest| == 1 || u.isSpace(rest[1])))
  }

  // Such a character stays where it is.
  lemma CodeIsKept(u: SqlMask.Classes, c: char, rest: string)
    requires IsCode(u, c, rest)
    ensures SqlMask.Masked(u, [c] + rest) == [c] + SqlMask.Masked(u, rest)
  {
    var t := [c] + rest;
    assert t[1..] == rest && (|t| > 1 ==> t[1] == rest[0]) && (|t| > 2 ==> t[2] == rest[1]);
  }
}
