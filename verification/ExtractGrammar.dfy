/** The texts the EXTRACT rewriter replaces, as a grammar: which bytes are blank, which words they are,
    and what a balanced expression is made of. */
module ExtractGrammar {
  import opened Characters
  import opened Wrappers
  import opened Rewriters
  import opened ExtractRewriter
  import opened ExtractPasses
  import opened Spellings

  // ---------------------------------------------------------------- balanced expressions

  // Bytes outside quotes and brackets, quoted segments, bracketed expressions, one after the other.
  datatype Shape =
    | End
    | Byte(c: char, rest: Shape)
    | Segment(quote: char, units: seq<Unit>, rest: Shape)
    | Group(inner: Shape, rest: Shape)

  function ShapeText(x: Shape): string {
    match x
    case End => ""
    case Byte(c, rest) => [c] + ShapeText(rest)
    case Segment(q, units, rest) => [q] + (UnitsText(q, units) + ([q] + ShapeText(rest)))
    case Group(inner, rest) => "(" + (ShapeText(inner) + (")" + ShapeText(rest)))
  }

  // A byte in quotes: not the quote; a backslash only with the byte behind it, or between backticks.
  predicate QuotedUnit(q: char, u: Unit) {
    match u
    case Plain(c) => c != q && (q == '`' || c != '\\')
    case Escaped(_) => q != '`'
    case Doubled => false
  }

  predicate IsShape(x: Shape) {
    match x
    case End => true
    case Byte(c, rest) => c !in "'\"`()" && IsShape(rest)
    case Segment(q, units, rest) =>
      q in "'\"`" && (forall i :: 0 <= i < |units| ==> QuotedUnit(q, units[i])) && IsShape(rest)
    case Group(inner, rest) => IsShape(inner) && IsShape(rest)
  }

  function Depth(d: nat): Reading {
    At(Place(d, None))
  }

  function InSegment(d: nat, q: char): Reading {
    At(Place(d, Some(q)))
  }

  lemma ReadOne(r: Reading, c: char, t: string)
    ensures ReadOn(r, [c] + t) == ReadOn(Reads(r, c), t)
  {
    assert ([c] + t)[1..] == t;
  }

  lemma ReadUnit(d: nat, q: char, u: Unit, t: string)
    requires IsQuote(q) && QuotedUnit(q, u)
    ensures ReadOn(InSegment(d, q), UnitText(q, u) + t) == ReadOn(InSegment(d, q), t)
  {
    match u
    case Plain(c) => ReadOne(InSegment(d, q), c, t);
    case Escaped(c) =>
      assert ['\\', c] + t == ['\\'] + ([c] + t);
      ReadOne(InSegment(d, q), '\\', [c] + t);
      ReadOne(Protected(Place(d, Some(q))), c, t);
  }

  lemma {:induction false} ReadUnits(d: nat, q: char, units: seq<Unit>, t: string)
    requires IsQuote(q) && forall i :: 0 <= i < |units| ==> QuotedUnit(q, units[i])
    ensures ReadOn(InSegment(d, q), UnitsText(q, units) + t) == ReadOn(InSegment(d, q), t)
    decreases |units|
  {
    if units == [] {
      assert "" + t == t;
    } else {
      Shift(UnitText(q, units[0]), UnitsText(q, units[1..]), t);
      ReadUnit(d, q, units[0], UnitsText(q, units[1..]) + t);
      ReadUnits(d, q, units[1..], t);
    }
  }

  lemma ReadSegment(d: nat, q: char, units: seq<Unit>, t: string)
    requires IsQuote(q) && forall i :: 0 <= i < |units| ==> QuotedUnit(q, units[i])
    ensures ReadOn(Depth(d), [q] + (UnitsText(q, units) + ([q] + t))) == ReadOn(Depth(d), t)
  {
    ReadOne(Depth(d), q, UnitsText(q, units) + ([q] + t));
    ReadUnits(d, q, units, [q] + t);
    ReadOne(InSegment(d, q), q, t);
  }

  lemma ThreeParts(a: string, b: string, c: string, tail: string, t: string)
    ensures (a + (b + (c + tail))) + t == a + (b + (c + (tail + t)))
  {
    Shift(c, tail, t);
    Shift(b, c + tail, t);
    Shift(a, b + (c + tail), t);
  }

  lemma ReadGroup(d: nat, inner: string, t: string)
    requires ReadOn(Depth(d + 1), inner + (")" + t)) == ReadOn(Depth(d + 1), ")" + t)
    ensures ReadOn(Depth(d), "(" + (inner + (")" + t))) == ReadOn(Depth(d), t)
  {
    ReadOne(Depth(d), '(', inner + (")" + t));
    ReadOne(Depth(d + 1), ')', t);
  }

  // A shape is read from a depth back to that depth.
  lemma {:induction false} ReadShape(d: nat, x: Shape, t: string)
    requires IsShape(x)
    ensures ReadOn(Depth(d), ShapeText(x) + t) == ReadOn(Depth(d), t)
    decreases x
  {
    match x
    case End => assert "" + t == t;
    case Byte(c, rest) =>
      Shift([c], ShapeText(rest), t);
      ReadOne(Depth(d), c, ShapeText(rest) + t);
      ReadShape(d, rest, t);
    case Segment(q, units, rest) =>
      ThreeParts([q], UnitsText(q, units), [q], ShapeText(rest), t);
      ReadSegment(d, q, units, ShapeText(rest) + t);
      ReadShape(d, rest, t);
    case Group(inner, rest) =>
      ThreeParts("(", ShapeText(inner), ")", ShapeText(rest), t);
      ReadShape(d + 1, inner, ")" + (ShapeText(rest) + t));
      ReadGroup(d, ShapeText(inner), ShapeText(rest) + t);
      ReadShape(d, rest, t);
  }

  lemma HeadAndTail(t: string)
    requires t != ""
    ensures t == [t[0]] + t[1..]
  {
  }

  // Quoted text that is closed: its units, and what follows.
  lemma {:induction false} ParseSegment(d: nat, q: char, t: string) returns (units: seq<Unit>, rest: string)
    requires IsQuote(q) && ReadOn(InSegment(d, q), t) == Depth(0)
    ensures (forall i :: 0 <= i < |units| ==> QuotedUnit(q, units[i])) && t == UnitsText(q, units) + ([q] + rest)
    ensures |rest| < |t| && ReadOn(Depth(d), rest) == Depth(0)
    decreases |t|
  {
    HeadAndTail(t);
    ReadOne(InSegment(d, q), t[0], t[1..]);
    if t[0] == q {
      units, rest := [], t[1..];
      assert "" + ([q] + rest) == t;
    } else if q != '`' && t[0] == '\\' {
      HeadAndTail(t[1..]);
      ReadOne(Protected(Place(d, Some(q))), t[1], t[2..]);
      units, rest := ParseSegment(d, q, t[2..]);
      units := UnitFirst(q, Escaped(t[1]), units, [q] + rest);
    } else {
      units, rest := ParseSegment(d, q, t[1..]);
      units := UnitFirst(q, Plain(t[0]), units, [q] + rest);
    }
  }

  lemma UnitFirst(q: char, u: Unit, units: seq<Unit>, t: string) returns (all: seq<Unit>)
    requires QuotedUnit(q, u) && forall i :: 0 <= i < |units| ==> QuotedUnit(q, units[i])
    ensures (forall i :: 0 <= i < |all| ==> QuotedUnit(q, all[i]))
    ensures UnitsText(q, all) + t == UnitText(q, u) + (UnitsText(q, units) + t)
  {
    all := [u] + units;
    assert all[1..] == units;
    Shift(UnitText(q, u), UnitsText(q, units), t);
  }

  // What is read from a depth to the end: a shape, and with brackets still open the first that closes.
  ghost predicate Parses(d: nat, t: string, x: Shape, rest: string) {
    && IsShape(x)
    && if d == 0 then t == ShapeText(x) else t == ShapeText(x) + (")" + rest) && ReadOn(Depth(d - 1), rest) == Depth(0)
  }

  lemma ParseFrom(d: nat, t: string, head: string, more: Shape -> Shape, x: Shape, tail: string, rest: string)
    requires Parses(d, tail, x, rest) && t == head + tail
    requires IsShape(more(x)) && ShapeText(more(x)) == head + ShapeText(x)
    ensures Parses(d, t, more(x), rest)
  {
    Shift(head, ShapeText(x), ")" + rest);
  }

  lemma {:induction false} ParseShape(d: nat, t: string) returns (x: Shape, rest: string)
    requires ReadOn(Depth(d), t) == Depth(0)
    ensures Parses(d, t, x, rest) && (d > 0 ==> |rest| < |t|)
    decreases |t|
  {
    if t == "" { return End, ""; }
    HeadAndTail(t);
    ReadOne(Depth(d), t[0], t[1..]);
    if IsQuote(t[0]) {
      var units, behind := ParseSegment(d, t[0], t[1..]);
      x, rest := ParseShape(d, behind);
      x := SegmentFirst(d, t, units, behind, x, rest);
    } else if t[0] == '(' {
      var inner, behind := ParseShape(d + 1, t[1..]);
      x, rest := ParseShape(d, behind);
      x := GroupFirst(d, t, inner, behind, x, rest);
    } else if t[0] == ')' {
      if d == 0 { ClosedStays(t[1..]); }
      x, rest := End, t[1..];
      assert "" + (")" + rest) == t;
    } else {
      x, rest := ParseShape(d, t[1..]);
      var c := t[0];
      ParseFrom(d, t, [c], y => Byte(c, y), x, t[1..], rest);
      x := Byte(c, x);
    }
  }

  lemma SegmentFirst(d: nat, t: string, units: seq<Unit>, tail: string, x: Shape, rest: string) returns (all: Shape)
    requires t != "" && IsQuote(t[0]) && t[1..] == UnitsText(t[0], units) + ([t[0]] + tail)
    requires (forall i :: 0 <= i < |units| ==> QuotedUnit(t[0], units[i])) && Parses(d, tail, x, rest)
    ensures Parses(d, t, all, rest)
  {
    var q := t[0];
    var head := [q] + (UnitsText(q, units) + [q]);
    all := Segment(q, units, x);
    Shift(UnitsText(q, units), [q], tail);
    Shift([q], UnitsText(q, units) + [q], tail);
    Shift(UnitsText(q, units), [q], ShapeText(x));
    Shift([q], UnitsText(q, units) + [q], ShapeText(x));
    HeadAndTail(t);
    ParseFrom(d, t, head, y => Segment(q, units, y), x, tail, rest);
  }

  lemma GroupFirst(d: nat, t: string, inner: Shape, tail: string, x: Shape, rest: string) returns (all: Shape)
    requires t != "" && t[0] == '(' && t[1..] == ShapeText(inner) + (")" + tail) && IsShape(inner)
    requires Parses(d, tail, x, rest)
    ensures Parses(d, t, all, rest)
  {
    var head := "(" + (ShapeText(inner) + ")");
    all := Group(inner, x);
    Shift(ShapeText(inner), ")", tail);
    Shift("(", ShapeText(inner) + ")", tail);
    Shift(ShapeText(inner), ")", ShapeText(x));
    Shift("(", ShapeText(inner) + ")", ShapeText(x));
    HeadAndTail(t);
    ParseFrom(d, t, head, y => Group(inner, y), x, tail, rest);
  }

  ghost predicate HasShape(e: string) {
    exists x :: IsShape(x) && ShapeText(x) == e
  }

  // An expression is balanced exactly when it is made of plain bytes, closed quotes and closed brackets.
  lemma BalancedIsShape(e: string)
    ensures Balanced(e) <==> HasShape(e)
  {
    LeadsIffReads(START, e, START);
    if Balanced(e) {
      var x, _ := ParseShape(0, e);
      assert IsShape(x) && ShapeText(x) == e;
    }
    forall x | IsShape(x) && ShapeText(x) == e ensures Balanced(e) {
      ReadShape(0, x, "");
      assert e + "" == e;
    }
  }

  // ---------------------------------------------------------------- the whole match

  // Space, tab, line feed, form feed, carriage return.
  predicate IsWhite(s: string) {
    forall i :: 0 <= i < |s| ==> s[i] as int in {32, 9, 10, 12, 13}
  }

  // EXTRACT ( YEAR_MONTH FROM e ) in any spelling: whole words, blanks, and a balanced expression.
  ghost predicate IsWritten(m: Match) {
    && m.tail.Keyword? && m.tail.rest.Keyword? && m.tail.rest.rest.Expr?
    && var field, from, expr := m.tail, m.tail.rest, m.tail.rest.rest;
    && Spells(m.extract, "EXTRACT") && Spells(field.word, "YEAR_MONTH") && Spells(from.word, "FROM")
    && IsWhite(m.blanks) && IsWhite(field.blanks) && IsWhite(from.blanks) && IsWhite(expr.blanks)
    && from.blanks != "" && (expr.blanks == "" ==> expr.e == "" || !IsNameLetter(expr.e[0] as int))
    && HasShape(expr.e) && (expr.e != "" ==> !IsWhite(expr.e[..1]))
  }

  lemma BlankIsWhite(s: string)
    ensures Blank(s) <==> IsWhite(s)
  {
  }

  lemma ExprIsWritten(x: Tail)
    ensures TailFits(Bracketed, x) <==>
      && x.Expr? && IsWhite(x.blanks) && HasShape(x.e) && (x.e != "" ==> !IsWhite(x.e[..1]))
  {
    if x.Expr? {
      BlankIsWhite(x.blanks);
      BalancedIsShape(x.e);
    }
  }

  lemma KeywordIsWritten(p: Class, word: string, next: Grammar, x: Tail)
    ensures TailFits(Needs(p, word, next), x) <==>
      && x.Keyword? && IsWhite(x.blanks) && Spells(x.word, word) && TailFits(next, x.rest)
      && !In(p, TailText(x.rest, "")[0])
  {
    if x.Keyword? {
      BlankIsWhite(x.blanks);
      SameWordIsSpelling(x.word, word);
    }
  }

  lemma FirstOfExpr(x: Tail)
    requires x.Expr? && IsWhite(x.blanks)
    ensures In(Letter, TailText(x, "")[0]) <==> x.blanks == "" && x.e != "" && IsNameLetter(x.e[0] as int)
  {
    assert TailText(x, "")[0] == (if x.blanks != "" then x.blanks[0] else if x.e != "" then x.e[0] else ')');
  }

  lemma FirstOfFrom(x: Tail)
    requires x.Keyword? && IsWhite(x.blanks) && Spells(x.word, "FROM")
    ensures In(WordByte, TailText(x, "")[0]) <==> x.blanks == ""
  {
    assert TailText(x, "")[0] == if x.blanks != "" then x.blanks[0] else x.word[0];
    if x.blanks == "" { assert IgnoresCase(x.word[0], 'F'); }
  }

  lemma FromIsWritten(x: Tail)
    ensures TailFits(Needs(Letter, "FROM", Bracketed), x) <==>
      && x.Keyword? && x.rest.Expr? && IsWhite(x.blanks) && Spells(x.word, "FROM") && IsWhite(x.rest.blanks)
      && (x.rest.blanks == "" ==> x.rest.e == "" || !IsNameLetter(x.rest.e[0] as int))
      && HasShape(x.rest.e) && (x.rest.e != "" ==> !IsWhite(x.rest.e[..1]))
  {
    KeywordIsWritten(Letter, "FROM", Bracketed, x);
    if x.Keyword? {
      ExprIsWritten(x.rest);
      if x.rest.Expr? && IsWhite(x.rest.blanks) { FirstOfExpr(x.rest); }
    }
  }

  lemma FieldIsWritten(x: Tail)
    ensures TailFits(GRAMMAR, x) <==>
      && x.Keyword? && IsWhite(x.blanks) && Spells(x.word, "YEAR_MONTH")
      && TailFits(Needs(Letter, "FROM", Bracketed), x.rest) && x.rest.blanks != ""
  {
    var next := Needs(Letter, "FROM", Bracketed);
    assert GRAMMAR == Needs(WordByte, "YEAR_MONTH", next);
    KeywordIsWritten(WordByte, "YEAR_MONTH", next, x);
    if x.Keyword? {
      FromIsWritten(x.rest);
      if TailFits(next, x.rest) { FirstOfFrom(x.rest); }
    }
  }

  // What the rewriter takes for a match is exactly what is written like this.
  lemma FitsIsWritten(m: Match)
    ensures Fits(EXTRACT, GRAMMAR, m) <==> IsWritten(m)
  {
    SameWordIsSpelling(m.extract, "EXTRACT");
    BlankIsWhite(m.blanks);
    FieldIsWritten(m.tail);
    if m.tail.Keyword? { FromIsWritten(m.tail.rest); }
  }

  // The match as text, with what stands behind it.
  function Whole(m: Match, behind: string): string
    requires m.tail.Keyword? && m.tail.rest.Keyword? && m.tail.rest.rest.Expr?
  {
    var field, from, expr := m.tail, m.tail.rest, m.tail.rest.rest;
    m.extract + (m.blanks + ("(" + (field.blanks + (field.word + (from.blanks + (from.word
    + (expr.blanks + (expr.e + (")" + behind)))))))))
  }

  lemma WholeIsMatchText(m: Match, behind: string)
    requires m.tail.Keyword? && m.tail.rest.Keyword? && m.tail.rest.rest.Expr?
    ensures MatchText(m, behind) == Whole(m, behind)
  {
    var from, expr := m.tail.rest, m.tail.rest.rest;
    assert TailText(expr, behind) == expr.blanks + (expr.e + (")" + behind));
    assert TailText(from, behind) == from.blanks + (from.word + TailText(expr, behind));
  }

  lemma ReplacementIs(m: Match)
    requires m.tail.Keyword? && m.tail.rest.Keyword? && m.tail.rest.rest.Expr?
    ensures Replacement(m) == "EXTRACT_YEAR_MONTH(" + (m.tail.rest.rest.e + ")")
  {
    assert ExprOf(m.tail.rest) == m.tail.rest.rest.e;
  }

  // What is written like this, at the start of a text, becomes a call on its expression; the rest is
  // rewritten in the same way.
  lemma WrittenIsRenamed(m: Match, behind: string)
    requires IsWritten(m)
    ensures Extracted(Whole(m, behind))
         == "EXTRACT_YEAR_MONTH(" + (m.tail.rest.rest.e + ")") + Extracted(behind)
  {
    FitsIsWritten(m);
    MatchRenamed(m, behind);
    WholeIsMatchText(m, behind);
    ReplacementIs(m);
  }

  lemma MatchRenamed(m: Match, behind: string)
    requires Fits(EXTRACT, GRAMMAR, m)
    ensures Extracted(MatchText(m, behind)) == Replacement(m) + Extracted(behind)
  {
    MatchThenRest(EXTRACT, GRAMMAR, m, behind);
  }

  // ---------------------------------------------------------------- where matches are replaced

  // No letter, digit or underscore stands right before this place of a text.
  predicate StartsWord(before: string, afterWord: bool) {
    if before == "" then !afterWord else !IsNameByte(before[|before| - 1] as int)
  }

  lemma SourcesFirst(p: Piece, ps: seq<Piece>, i: nat)
    requires i < |ps|
    ensures Sources(([p] + ps)[..i + 1]) == Source(p) + Sources(ps[..i])
  {
    assert ([p] + ps)[..i + 1] == [p] + ps[..i];
    SourcesCons(p, ps[..i]);
  }

  lemma LastOf(a: string, b: string)
    requires a != ""
    ensures (a + b)[|a + b| - 1] == if b == "" then a[|a| - 1] else b[|b| - 1]
  {
  }

  lemma WordByteIsNameByte(c: char)
    ensures IsWordByte(c) <==> IsNameByte(c as int)
  {
  }

  // The pieces behind a first one, seen from the first one.
  lemma StartBehind(p: Piece, ps: seq<Piece>, i: nat, afterWord: bool)
    requires i < |ps| && Source(p) != ""
    requires StartsWord(Sources(ps[..i]), IsWordByte(Source(p)[|Source(p)| - 1]))
    ensures StartsWord(Sources(([p] + ps)[..i + 1]), afterWord)
  {
    SourcesFirst(p, ps, i);
    LastOf(Source(p), Sources(ps[..i]));
    WordByteIsNameByte(Source(p)[|Source(p)| - 1]);
  }

  lemma SeenIsNoTail(k: string, g: Grammar, afterWord: bool, t: string, m: Match)
    requires LookAt(k, g, afterWord, t) == Seen(m)
    ensures !afterWord
  {
  }

  // Each replaced piece of these starts a word, where they stand behind such a byte.
  ghost predicate AllStart(ps: seq<Piece>, afterWord: bool) {
    forall i: nat :: i < |ps| && ps[i].Replaced? ==> StartsWord(Sources(ps[..i]), afterWord)
  }

  lemma AllStartGrows(p: Piece, ps: seq<Piece>, afterWord: bool)
    requires Source(p) != "" && (p.Replaced? ==> !afterWord)
    requires AllStart(ps, IsWordByte(Source(p)[|Source(p)| - 1]))
    ensures AllStart([p] + ps, afterWord)
  {
    var all := [p] + ps;
    forall i: nat | i < |all| && all[i].Replaced? ensures StartsWord(Sources(all[..i]), afterWord) {
      if i > 0 {
        assert ps[i - 1] == all[i];
        StartBehind(p, ps, i - 1, afterWord);
      }
    }
  }

  lemma CopiedStart(k: string, g: Grammar, afterWord: bool, t: string, n: nat)
    requires t != "" && LookAt(k, g, afterWord, t) == Skip(n) && 1 <= n <= |t|
    requires AllStart(Pieces(k, g, IsWordByte(t[n - 1]), t[n..]), IsWordByte(t[n - 1]))
    ensures AllStart(Pieces(k, g, afterWord, t), afterWord)
  {
    SkipPieces(k, g, afterWord, t, n);
    AllStartGrows(Copied(t[..n]), Pieces(k, g, IsWordByte(t[n - 1]), t[n..]), afterWord);
  }

  lemma ReplacedStart(k: string, g: Grammar, afterWord: bool, t: string, m: Match, rest: string)
    requires t != "" && LookAt(k, g, afterWord, t) == Seen(m) && t == MatchText(m, "") + rest
    requires AllStart(Pieces(k, g, false, rest), false)
    ensures AllStart(Pieces(k, g, afterWord, t), afterWord)
  {
    SeenPieces(k, g, afterWord, t, m);
    SeenIsNoTail(k, g, afterWord, t, m);
    MatchEnds(m);
    assert t[|MatchText(m, "")|..] == rest;
    AllStartGrows(Replaced(m), Pieces(k, g, false, rest), afterWord);
  }

  // A replaced match is never the tail of a longer word.
  lemma {:induction false} ReplacedStartsWord(k: string, g: Grammar, afterWord: bool, t: string)
    ensures AllStart(Pieces(k, g, afterWord, t), afterWord)
    decreases |t|
  {
    if t != "" {
      match LookAt(k, g, afterWord, t)
      case Skip(n) =>
        SkipWithin(k, g, afterWord, t);
        ReplacedStartsWord(k, g, IsWordByte(t[n - 1]), t[n..]);
        CopiedStart(k, g, afterWord, t, n);
      case Seen(m) =>
        SeenWithin(k, g, afterWord, t, m);
        ReplacedStartsWord(k, g, false, t[|MatchText(m, "")|..]);
        ReplacedStart(k, g, afterWord, t, m, t[|MatchText(m, "")|..]);
    }
  }
}
