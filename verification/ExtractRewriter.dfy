/** EXTRACT(YEAR_MONTH FROM e) becomes EXTRACT_YEAR_MONTH(e). */
module ExtractRewriter {
  import opened Characters
  import opened Wrappers
  import opened Rewriters

  predicate IsBlank(c: char) {
    c == ' ' || c == '\t' || c == '\n' || c == '\r' || c == 12 as char
  }

  predicate IsLetter(c: char) {
    'a' <= c <= 'z' || 'A' <= c <= 'Z'
  }

  // The length of the longest prefix of such bytes.
  function Span(p: char -> bool, t: string): (n: nat)
    ensures n <= |t|
    ensures forall i :: 0 <= i < n ==> p(t[i])
    ensures n < |t| ==> !p(t[n])
  {
    if t != "" && p(t[0]) then 1 + Span(p, t[1..]) else 0
  }

  // ---------------------------------------------------------------- the bracketed expression

  // Depth of open brackets, and the quotes the scan is in.
  datatype Place = Place(depth: nat, quote: Option<char>)

  const START := Place(0, None)

  predicate Escapes(p: Place, c: char) {
    p.quote.Some? && p.quote.value != '`' && c == '\\'
  }

  predicate Closes(p: Place, c: char) {
    p.quote.None? && p.depth == 0 && c == ')'
  }

  function Step(p: Place, c: char): Place
    requires !Closes(p, c)
  {
    match p.quote
    case Some(q) => if c == q then p.(quote := None) else p
    case None =>
      if IsQuote(c) then p.(quote := Some(c))
      else if c == '(' then p.(depth := p.depth + 1)
      else if c == ')' then p.(depth := p.depth - 1)
      else p
  }

  // The offset of the bracket that closes the expression, or the length of the text.
  function ExprEnd(p: Place, t: string): (n: nat)
    ensures n <= |t|
    decreases |t|
  {
    if t == "" then 0
    else if Escapes(p, t[0]) then (if |t| == 1 then 1 else 2 + ExprEnd(p, t[2..]))
    else if Closes(p, t[0]) then 0
    else 1 + ExprEnd(Step(p, t[0]), t[1..])
  }

  // An expression that reads from one place to the other: a closing bracket at depth zero, or a
  // backslash with nothing behind it, does not.
  predicate Leads(p: Place, e: string, to: Place)
    decreases |e|
  {
    if e == "" then p == to
    else if Escapes(p, e[0]) then |e| > 1 && Leads(p, e[2..], to)
    else !Closes(p, e[0]) && Leads(Step(p, e[0]), e[1..], to)
  }

  predicate Balanced(e: string) {
    Leads(START, e, START)
  }

  lemma {:induction false} ExprEndIsBalanced(p: Place, t: string)
    requires ExprEnd(p, t) < |t|
    ensures Leads(p, t[..ExprEnd(p, t)], START) && t[ExprEnd(p, t)] == ')'
    decreases |t|
  {
    var n := ExprEnd(p, t);
    if Escapes(p, t[0]) {
      ExprEndIsBalanced(p, t[2..]);
      assert t[..n][2..] == t[2..][..n - 2];
    } else if !Closes(p, t[0]) {
      ExprEndIsBalanced(Step(p, t[0]), t[1..]);
      assert t[..n][1..] == t[1..][..n - 1];
    }
  }

  lemma {:induction false} BalancedEndsThere(p: Place, e: string, rest: string)
    requires Leads(p, e, START)
    ensures ExprEnd(p, e + (")" + rest)) == |e|
    decreases |e|
  {
    var t := e + (")" + rest);
    if e == "" {
      assert t[0] == ')';
    } else if Escapes(p, e[0]) {
      BalancedEndsThere(p, e[2..], rest);
      assert t[2..] == e[2..] + (")" + rest);
    } else {
      BalancedEndsThere(Step(p, e[0]), e[1..], rest);
      assert t[1..] == e[1..] + (")" + rest);
    }
  }

  // ---------------------------------------------------------------- what is replaced

  datatype Class = Letter | WordByte

  predicate In(p: Class, c: char) {
    if p == Letter then IsLetter(c) else IsWordByte(c)
  }

  // What has to stand in the bracket: words of some class of bytes, then an expression to its end.
  datatype Grammar = Bracketed | Needs(p: Class, word: string, next: Grammar)

  // What stands there: the blanks before each part, and the part.
  datatype Tail = Expr(blanks: string, e: string) | Keyword(blanks: string, word: string, rest: Tail)

  datatype Match = Match(extract: string, blanks: string, tail: Tail)

  function TailText(x: Tail, behind: string): (r: string)
    ensures r != ""
  {
    match x
    case Expr(blanks, e) => blanks + (e + (")" + behind))
    case Keyword(blanks, word, rest) => blanks + (word + TailText(rest, behind))
  }

  // The text of a match with what follows it.
  function MatchText(m: Match, behind: string): string {
    m.extract + (m.blanks + ("(" + TailText(m.tail, behind)))
  }

  function ExprOf(x: Tail): string {
    match x
    case Expr(_, e) => e
    case Keyword(_, _, rest) => ExprOf(rest)
  }

  predicate Blank(s: string) {
    forall i :: 0 <= i < |s| ==> IsBlank(s[i])
  }

  // Words are whole, blanks are whole, and the expression is balanced.
  predicate TailFits(g: Grammar, x: Tail) {
    match (g, x)
    case (Bracketed, Expr(blanks, e)) => Blank(blanks) && Balanced(e) && (e != "" ==> !IsBlank(e[0]))
    case (Needs(p, word, next), Keyword(blanks, w, rest)) =>
      Blank(blanks) && SameWord(w, word) && TailFits(next, rest) && !In(p, TailText(rest, "")[0])
    case _ => false
  }

  predicate Fits(k: string, g: Grammar, m: Match) {
    SameWord(m.extract, k) && Blank(m.blanks) && TailFits(g, m.tail)
  }

  // Keywords are words of their class, in any spelling.
  ghost predicate Proper(g: Grammar) {
    match g
    case Bracketed => true
    case Needs(p, word, next) =>
      word != "" && (forall w, i :: SameWord(w, word) && 0 <= i < |w| ==> In(p, w[i])) && Proper(next)
  }

  lemma TailHead(x: Tail, behind: string)
    ensures TailText(x, behind)[0] == TailText(x, "")[0]
  {
    if x.Keyword? { TailHead(x.rest, behind); }
  }

  // ---------------------------------------------------------------- what the rewriter sees

  // So many bytes to copy, or what it found.
  datatype Look = Copy(n: nat) | Found(tail: Tail)

  function LookFor(g: Grammar, t: string): Look {
    var b := Span(IsBlank, t);
    match g
    case Bracketed =>
      var e := ExprEnd(START, t[b..]);
      if b + e == |t| then Copy(|t|) else Found(Expr(t[..b], t[b..][..e]))
    case Needs(p, word, next) =>
      var n := Span((c: char) => In(p, c), t[b..]);
      if !SameWord(t[b..][..n], word) then Copy(b + n)
      else
        match LookFor(next, t[b..][n..])
        case Copy(more) => Copy(b + n + more)
        case Found(tail) => Found(Keyword(t[..b], t[b..][..n], tail))
  }

  predicate IsExtract(k: string, afterWord: bool, t: string) {
    |k| <= |t| && SameWord(t[..|k|], k) && !afterWord && (|t| == |k| || !IsWordByte(t[|k|]))
  }

  // The offset behind the bracket that follows the word, if it follows.
  function BracketAt(k: string, afterWord: bool, t: string): (r: Option<nat>)
    ensures r.Some? ==> |k| < r.value <= |t|
  {
    if !IsExtract(k, afterWord, t) then None else
      var n := |k| + Span(IsBlank, t[|k|..]);
      if n == |t| || t[n] != '(' then None else Some(n + 1)
  }

  datatype Sight = Skip(n: nat) | Seen(m: Match)

  function Sighted(look: Look, n: nat, extract: string, blanks: string): Sight {
    match look
    case Copy(more) => Skip(n + more)
    case Found(tail) => Seen(Match(extract, blanks, tail))
  }

  // Where the text does not match, the bytes read so far are copied; in front of the bracket it
  // is only the first.
  function LookAt(k: string, g: Grammar, afterWord: bool, t: string): Sight {
    match BracketAt(k, afterWord, t)
    case None => Skip(1)
    case Some(n) => Sighted(LookFor(g, t[n..]), n, t[..|k|], t[|k|..n - 1])
  }

  lemma {:induction false} CopyWithin(g: Grammar, t: string)
    ensures LookFor(g, t).Copy? ==> LookFor(g, t).n <= |t|
  {
    if g.Needs? {
      var b := Span(IsBlank, t);
      var n := Span((c: char) => In(g.p, c), t[b..]);
      CopyWithin(g.next, t[b..][n..]);
    }
  }

  lemma SkipWithin(k: string, g: Grammar, afterWord: bool, t: string)
    requires t != "" && LookAt(k, g, afterWord, t).Skip?
    ensures 1 <= LookAt(k, g, afterWord, t).n <= |t|
  {
    var n := BracketAt(k, afterWord, t);
    if n.Some? { CopyWithin(g, t[n.value..]); }
  }

  // ---------------------------------------------------------------- it sees exactly the matches

  lemma {:induction false} SpanOf(p: char -> bool, x: string, rest: string)
    requires (forall i :: 0 <= i < |x| ==> p(x[i])) && (rest != "" ==> !p(rest[0]))
    ensures Span(p, x + rest) == |x|
    ensures (x + rest)[..|x|] == x && (x + rest)[|x|..] == rest
  {
    if x == "" {
      assert x + rest == rest;
    } else {
      assert (x + rest)[1..] == x[1..] + rest;
      SpanOf(p, x[1..], rest);
    }
  }

  lemma ExprIsFound(blanks: string, e: string, behind: string)
    requires Blank(blanks) && Balanced(e) && (e != "" ==> !IsBlank(e[0]))
    ensures LookFor(Bracketed, blanks + (e + (")" + behind))) == Found(Expr(blanks, e))
  {
    var t := e + (")" + behind);
    SpanOf(IsBlank, blanks, t);
    BalancedEndsThere(START, e, behind);
    assert t[..|e|] == e;
  }

  lemma ClassBytes(p: Class, w: string, word: string)
    requires SameWord(w, word) && forall v, i :: SameWord(v, word) && 0 <= i < |v| ==> In(p, v[i])
    ensures forall i :: 0 <= i < |w| ==> In(p, w[i])
  {
  }

  lemma NotBlank(p: Class, c: char)
    requires In(p, c)
    ensures !IsBlank(c)
  {
  }

  lemma {:induction false} TailIsFound(g: Grammar, x: Tail, behind: string)
    requires Proper(g) && TailFits(g, x)
    ensures LookFor(g, TailText(x, behind)) == Found(x)
  {
    match x
    case Expr(blanks, e) => ExprIsFound(blanks, e, behind);
    case Keyword(blanks, w, rest) =>
      var p := (c: char) => In(g.p, c);
      TailIsFound(g.next, rest, behind);
      TailHead(rest, behind);
      ClassBytes(g.p, w, g.word);
      NotBlank(g.p, w[0]);
      SpanOf(IsBlank, blanks, w + TailText(rest, behind));
      SpanOf(p, w, TailText(rest, behind));
  }

  lemma HeadOfText(k: string, m: Match, t: string)
    requires SameWord(m.extract, k) && Blank(m.blanks)
    ensures var u := m.extract + (m.blanks + ("(" + t));
            IsExtract(k, false, u) && u[..|k|] == m.extract && u[|k|..] == m.blanks + ("(" + t)
  {
  }

  lemma HeadParts(extract: string, blanks: string, t: string, u: string, n: nat)
    requires u == extract + (blanks + ("(" + t)) && n == |extract| + |blanks|
    ensures n < |u| && u[n] == '(' && u[n + 1..] == t && u[|extract|..n] == blanks
  {
  }

  lemma BracketIsSeen(k: string, m: Match, behind: string, u: string, n: nat)
    requires SameWord(m.extract, k) && Blank(m.blanks) && u == MatchText(m, behind) && n == |k| + |m.blanks| + 1
    ensures BracketAt(k, false, u) == Some(n)
    ensures u[..|k|] == m.extract && u[|k|..n - 1] == m.blanks && u[n..] == TailText(m.tail, behind)
  {
    var t := TailText(m.tail, behind);
    HeadOfText(k, m, t);
    HeadParts(m.extract, m.blanks, t, u, n - 1);
    SpanOf(IsBlank, m.blanks, "(" + t);
    BracketIn(k, Bracketed, false, u, n - 1);
  }

  lemma SeenBehindBracket(k: string, g: Grammar, t: string, n: nat, m: Match)
    requires BracketAt(k, false, t) == Some(n) && t[..|k|] == m.extract && t[|k|..n - 1] == m.blanks
    requires LookFor(g, t[n..]) == Found(m.tail)
    ensures LookAt(k, g, false, t) == Seen(m)
  {
  }

  // A match that does not follow a word is seen, whatever comes after it.
  lemma MatchIsSeen(k: string, g: Grammar, m: Match, behind: string)
    requires Proper(g) && Fits(k, g, m)
    ensures LookAt(k, g, false, MatchText(m, behind)) == Seen(m)
  {
    var u, n := MatchText(m, behind), |k| + |m.blanks| + 1;
    BracketIsSeen(k, m, behind, u, n);
    TailIsFound(g, m.tail, behind);
    SeenBehindBracket(k, g, u, n, m);
  }

  // ---------------------------------------------------------------- and nothing else

  lemma ExprFits(blanks: string, e: string)
    requires Blank(blanks) && Balanced(e) && (e != "" ==> !IsBlank(e[0]))
    ensures TailFits(Bracketed, Expr(blanks, e))
  {
  }

  lemma CutAtBracket(t: string, b: nat, e: nat)
    requires b + e < |t| && t[b + e] == ')'
    ensures t == t[..b] + (t[b..][..e] + (")" + t[b..][e + 1..]))
  {
    Cut(t, b);
    Cut(t[b..], e);
    assert t[b..][e..] == ")" + t[b..][e + 1..];
  }

  lemma FoundExpr(t: string) returns (behind: string)
    requires LookFor(Bracketed, t).Found?
    ensures TailFits(Bracketed, LookFor(Bracketed, t).tail) && t == TailText(LookFor(Bracketed, t).tail, behind)
  {
    var b := Span(IsBlank, t);
    var e := ExprEnd(START, t[b..]);
    ExprEndIsBalanced(START, t[b..]);
    ExprFits(t[..b], t[b..][..e]);
    CutAtBracket(t, b, e);
    behind := t[b..][e + 1..];
  }

  lemma KeywordFits(p: Class, word: string, next: Grammar, blanks: string, w: string, rest: Tail, behind: string)
    requires Blank(blanks) && SameWord(w, word) && TailFits(next, rest) && !In(p, TailText(rest, behind)[0])
    ensures TailFits(Needs(p, word, next), Keyword(blanks, w, rest))
  {
    TailHead(rest, behind);
  }

  lemma {:induction false} FoundFits(g: Grammar, t: string) returns (behind: string)
    requires LookFor(g, t).Found?
    ensures TailFits(g, LookFor(g, t).tail) && t == TailText(LookFor(g, t).tail, behind)
  {
    match g
    case Bracketed => behind := FoundExpr(t);
    case Needs(p, word, next) =>
      var b := Span(IsBlank, t);
      var n := Span((c: char) => In(p, c), t[b..]);
      behind := FoundFits(next, t[b..][n..]);
      KeywordFits(p, word, next, t[..b], t[b..][..n], LookFor(next, t[b..][n..]).tail, behind);
      Cut(t, b);
      Cut(t[b..], n);
  }

  lemma BracketIsThere(k: string, afterWord: bool, t: string, n: nat)
    requires BracketAt(k, afterWord, t) == Some(n)
    ensures !afterWord && SameWord(t[..|k|], k) && Blank(t[|k|..n - 1])
    ensures t == t[..|k|] + (t[|k|..n - 1] + ("(" + t[n..]))
  {
    assert t[|k|..n - 1] == t[|k|..][..n - 1 - |k|];
  }

  lemma MatchFits(k: string, g: Grammar, m: Match, behind: string)
    requires SameWord(m.extract, k) && Blank(m.blanks) && TailFits(g, m.tail)
    ensures Fits(k, g, m)
    ensures MatchText(m, behind) == m.extract + (m.blanks + ("(" + TailText(m.tail, behind)))
  {
  }

  lemma SightIs(k: string, g: Grammar, afterWord: bool, t: string, n: nat)
    requires BracketAt(k, afterWord, t) == Some(n) && LookFor(g, t[n..]).Found?
    ensures LookAt(k, g, afterWord, t) == Seen(Match(t[..|k|], t[|k|..n - 1], LookFor(g, t[n..]).tail))
  {
  }

  lemma SeenIsFound(k: string, g: Grammar, afterWord: bool, t: string) returns (n: nat)
    requires LookAt(k, g, afterWord, t).Seen?
    ensures BracketAt(k, afterWord, t) == Some(n) && LookFor(g, t[n..]).Found?
  {
    n := BracketAt(k, afterWord, t).value;
  }

  lemma SeenFits(k: string, g: Grammar, afterWord: bool, t: string, m: Match) returns (behind: string)
    requires LookAt(k, g, afterWord, t) == Seen(m)
    ensures !afterWord && Fits(k, g, m) && t == MatchText(m, behind)
  {
    var n := SeenIsFound(k, g, afterWord, t);
    SightIs(k, g, afterWord, t, n);
    BracketIsThere(k, afterWord, t, n);
    behind := FoundFits(g, t[n..]);
    MatchFits(k, g, m, behind);
  }

  // The rewriter sees a match exactly where one stands and no word byte is before it.
  lemma SeenIffMatch(k: string, g: Grammar, afterWord: bool, t: string, m: Match)
    requires Proper(g)
    ensures LookAt(k, g, afterWord, t) == Seen(m) <==>
            !afterWord && Fits(k, g, m) && exists behind :: t == MatchText(m, behind)
  {
    if LookAt(k, g, afterWord, t) == Seen(m) {
      var behind := SeenFits(k, g, afterWord, t, m);
      assert t == MatchText(m, behind);
    } else if !afterWord && Fits(k, g, m) && exists behind :: t == MatchText(m, behind) {
      var behind :| t == MatchText(m, behind);
      MatchIsSeen(k, g, m, behind);
      assert false;
    }
  }

  // ---------------------------------------------------------------- the pieces of a text

  datatype Piece = Copied(text: string) | Replaced(m: Match)

  function Replacement(m: Match): string {
    "EXTRACT_YEAR_MONTH(" + (ExprOf(m.tail) + ")")
  }

  function Sources(ps: seq<Piece>): string {
    if ps == [] then ""
    else (match ps[0] case Copied(text) => text case Replaced(m) => MatchText(m, "")) + Sources(ps[1..])
  }

  function Results(ps: seq<Piece>): string {
    if ps == [] then ""
    else (match ps[0] case Copied(text) => text case Replaced(m) => Replacement(m)) + Results(ps[1..])
  }

  lemma {:induction false} TailTextAppend(x: Tail, behind: string)
    ensures TailText(x, behind) == TailText(x, "") + behind
  {
    match x
    case Expr(blanks, e) =>
      Shift(blanks, e + (")" + ""), behind);
      Shift(e, ")" + "", behind);
      Shift(")", "", behind);
    case Keyword(blanks, word, rest) =>
      TailTextAppend(rest, behind);
      Shift(blanks, word + TailText(rest, ""), behind);
      Shift(word, TailText(rest, ""), behind);
  }

  lemma MatchTextAppend(m: Match, behind: string)
    ensures MatchText(m, behind) == MatchText(m, "") + behind
  {
    TailTextAppend(m.tail, behind);
    var t := TailText(m.tail, "");
    Shift("(", t, behind);
    Shift(m.blanks, "(" + t, behind);
    Shift(m.extract, m.blanks + ("(" + t), behind);
  }

  lemma SeenWithin(k: string, g: Grammar, afterWord: bool, t: string, m: Match)
    requires LookAt(k, g, afterWord, t) == Seen(m)
    ensures 0 < |MatchText(m, "")| <= |t| && t == MatchText(m, "") + t[|MatchText(m, "")|..]
  {
    var behind := SeenFits(k, g, afterWord, t, m);
    MatchTextAppend(m, behind);
  }

  // A sight that lies within the text.
  ghost predicate IsWithin(sight: Sight, t: string) {
    match sight
    case Skip(n) => 1 <= n <= |t|
    case Seen(m) => 0 < |MatchText(m, "")| <= |t|
  }

  lemma SightIsWithin(k: string, g: Grammar, afterWord: bool, t: string)
    requires t != ""
    ensures IsWithin(LookAt(k, g, afterWord, t), t)
  {
    match LookAt(k, g, afterWord, t)
    case Skip(n) => SkipWithin(k, g, afterWord, t);
    case Seen(m) => SeenWithin(k, g, afterWord, t, m);
  }

  function Pieces(k: string, g: Grammar, afterWord: bool, t: string): seq<Piece>
    decreases |t|, 1
  {
    if t == "" then [] else
      SightIsWithin(k, g, afterWord, t);
      PiecesBehind(k, g, LookAt(k, g, afterWord, t), t)
  }

  function PiecesBehind(k: string, g: Grammar, sight: Sight, t: string): seq<Piece>
    requires IsWithin(sight, t)
    decreases |t|, 0
  {
    match sight
    case Skip(n) => [Copied(t[..n])] + Pieces(k, g, IsWordByte(t[n - 1]), t[n..])
    case Seen(m) => [Replaced(m)] + Pieces(k, g, false, t[|MatchText(m, "")|..])
  }

  const EXTRACT := "EXTRACT"
  const GRAMMAR := Needs(WordByte, "YEAR_MONTH", Needs(Letter, "FROM", Bracketed))

  function Extracted(sql: string): string {
    Results(Pieces(EXTRACT, GRAMMAR, false, sql))
  }

  ghost predicate AllFit(k: string, g: Grammar, ps: seq<Piece>) {
    forall i :: 0 <= i < |ps| && ps[i].Replaced? ==> Fits(k, g, ps[i].m)
  }

  function Source(p: Piece): string {
    match p
    case Copied(text) => text
    case Replaced(m) => MatchText(m, "")
  }

  lemma SourcesCons(p: Piece, ps: seq<Piece>)
    ensures Sources([p] + ps) == Source(p) + Sources(ps)
  {
    assert ([p] + ps)[1..] == ps;
  }

  lemma PiecesSkip(k: string, g: Grammar, afterWord: bool, t: string, n: nat)
    requires t != "" && LookAt(k, g, afterWord, t) == Skip(n) && 1 <= n <= |t|
    ensures Pieces(k, g, afterWord, t) == [Copied(t[..n])] + Pieces(k, g, IsWordByte(t[n - 1]), t[n..])
  {
  }

  lemma SkipPieces(k: string, g: Grammar, afterWord: bool, t: string, n: nat)
    requires t != "" && LookAt(k, g, afterWord, t) == Skip(n)
    ensures 1 <= n <= |t| && Pieces(k, g, afterWord, t) == [Copied(t[..n])] + Pieces(k, g, IsWordByte(t[n - 1]), t[n..])
  {
    SkipWithin(k, g, afterWord, t);
    PiecesSkip(k, g, afterWord, t, n);
  }

  lemma SeenPieces(k: string, g: Grammar, afterWord: bool, t: string, m: Match)
    requires t != "" && LookAt(k, g, afterWord, t) == Seen(m)
    ensures 0 < |MatchText(m, "")| <= |t| && t == MatchText(m, "") + t[|MatchText(m, "")|..]
    ensures Pieces(k, g, afterWord, t) == [Replaced(m)] + Pieces(k, g, false, t[|MatchText(m, "")|..])
  {
    SeenWithin(k, g, afterWord, t, m);
  }

  // The pieces make up the text, ...
  lemma {:induction false} PiecesCover(k: string, g: Grammar, afterWord: bool, t: string)
    ensures Sources(Pieces(k, g, afterWord, t)) == t
    decreases |t|
  {
    if t != "" {
      match LookAt(k, g, afterWord, t)
      case Skip(n) =>
        SkipPieces(k, g, afterWord, t, n);
        PiecesCover(k, g, IsWordByte(t[n - 1]), t[n..]);
        SourcesCons(Copied(t[..n]), Pieces(k, g, IsWordByte(t[n - 1]), t[n..]));
        Cut(t, n);
      case Seen(m) =>
        SeenPieces(k, g, afterWord, t, m);
        PiecesCover(k, g, false, t[|MatchText(m, "")|..]);
        SourcesCons(Replaced(m), Pieces(k, g, false, t[|MatchText(m, "")|..]));
    }
  }

  lemma AllFitCons(k: string, g: Grammar, p: Piece, ps: seq<Piece>)
    requires AllFit(k, g, ps) && (p.Replaced? ==> Fits(k, g, p.m))
    ensures AllFit(k, g, [p] + ps)
  {
  }

  // ... and only matches are replaced: every byte outside a match is copied.
  lemma {:induction false} PiecesFit(k: string, g: Grammar, afterWord: bool, t: string)
    ensures AllFit(k, g, Pieces(k, g, afterWord, t))
    decreases |t|
  {
    if t != "" {
      match LookAt(k, g, afterWord, t)
      case Skip(n) =>
        SkipPieces(k, g, afterWord, t, n);
        PiecesFit(k, g, IsWordByte(t[n - 1]), t[n..]);
        AllFitCons(k, g, Copied(t[..n]), Pieces(k, g, IsWordByte(t[n - 1]), t[n..]));
      case Seen(m) =>
        SeenPieces(k, g, afterWord, t, m);
        var behind := SeenFits(k, g, afterWord, t, m);
        PiecesFit(k, g, false, t[|MatchText(m, "")|..]);
        AllFitCons(k, g, Replaced(m), Pieces(k, g, false, t[|MatchText(m, "")|..]));
    }
  }

  lemma ResultsCons(p: Piece, ps: seq<Piece>)
    ensures Results([p] + ps) == (match p case Copied(text) => text case Replaced(m) => Replacement(m)) + Results(ps)
  {
    assert ([p] + ps)[1..] == ps;
  }

  lemma FirstIsCopied(k: string, g: Grammar, afterWord: bool, t: string, n: nat)
    requires t != "" && LookAt(k, g, afterWord, t) == Skip(n)
    ensures 1 <= n <= |t|
    ensures Results(Pieces(k, g, afterWord, t)) == t[..n] + Results(Pieces(k, g, IsWordByte(t[n - 1]), t[n..]))
  {
    SkipPieces(k, g, afterWord, t, n);
    ResultsCons(Copied(t[..n]), Pieces(k, g, IsWordByte(t[n - 1]), t[n..]));
  }

  lemma FirstIsReplaced(k: string, g: Grammar, t: string, m: Match)
    requires t != "" && LookAt(k, g, false, t) == Seen(m)
    ensures 0 < |MatchText(m, "")| <= |t|
    ensures Results(Pieces(k, g, false, t)) == Replacement(m) + Results(Pieces(k, g, false, t[|MatchText(m, "")|..]))
  {
    SeenPieces(k, g, false, t, m);
    ResultsCons(Replaced(m), Pieces(k, g, false, t[|MatchText(m, "")|..]));
  }

  // ---------------------------------------------------------------- texts in front of a match

  lemma ByteIsCopied(k: string, g: Grammar, afterWord: bool, c: char, t: string)
    requires !IsExtract(k, afterWord, [c] + t)
    ensures Results(Pieces(k, g, afterWord, [c] + t)) == [c] + Results(Pieces(k, g, IsWordByte(c), t))
  {
    FirstIsCopied(k, g, afterWord, [c] + t, 1);
    assert ([c] + t)[..1] == [c] && ([c] + t)[1..] == t;
  }

  lemma MatchThenRest(k: string, g: Grammar, m: Match, behind: string)
    requires Proper(g) && Fits(k, g, m)
    ensures Results(Pieces(k, g, false, MatchText(m, behind))) == Replacement(m) + Results(Pieces(k, g, false, behind))
  {
    MatchIsSeen(k, g, m, behind);
    assert MatchText(m, behind) != "";
    FirstIsReplaced(k, g, MatchText(m, behind), m);
    MatchTextAppend(m, behind);
    assert MatchText(m, behind)[|MatchText(m, "")|..] == behind;
  }

  lemma {:induction false} WordIsCopied(k: string, g: Grammar, w: string, t: string)
    requires WordBytes(w)
    ensures Results(Pieces(k, g, true, w + t)) == w + Results(Pieces(k, g, true, t))
  {
    if w == "" {
      assert w + t == t;
    } else {
      assert w + t == [w[0]] + (w[1..] + t);
      ByteIsCopied(k, g, true, w[0], w[1..] + t);
      WordIsCopied(k, g, w[1..], t);
      Shift([w[0]], w[1..], Results(Pieces(k, g, true, t)));
      assert [w[0]] + w[1..] == w;
    }
  }

  // ---------------------------------------------------------------- the words themselves

  lemma SpelledWord(w: string, v: string)
    requires SameWord(w, v) && WordBytes(v)
    ensures WordBytes(w)
  {
    forall i | 0 <= i < |w| ensures IsWordByte(w[i]) { LowerIsWordByte(w[i], v[i]); }
  }

  lemma FieldIsProper()
    ensures WordBytes("YEAR_MONTH")
    ensures forall w, i :: SameWord(w, "YEAR_MONTH") && 0 <= i < |w| ==> In(WordByte, w[i])
  {
    FewBytes("YEAR");
    FewBytes("_MON");
    FewBytes("TH");
    BytesAppend("YEAR", "_MON");
    BytesAppend("YEAR" + "_MON", "TH");
    assert "YEAR" + "_MON" + "TH" == "YEAR_MONTH";
    forall w, i | SameWord(w, "YEAR_MONTH") && 0 <= i < |w| ensures In(WordByte, w[i]) { SpelledWord(w, "YEAR_MONTH"); }
  }

  lemma FromIsProper()
    ensures forall w, i :: SameWord(w, "FROM") && 0 <= i < |w| ==> In(Letter, w[i])
  {
    forall w, i | SameWord(w, "FROM") && 0 <= i < |w| ensures In(Letter, w[i]) {
      assert Lower(w[i]) == Lower("FROM"[i]);
      assert i == 0 || i == 1 || i == 2 || i == 3;
    }
  }

  lemma GrammarIsProper()
    ensures Proper(GRAMMAR)
  {
    FieldIsProper();
    FromIsProper();
    assert Proper(Needs(Letter, "FROM", Bracketed));
  }

  lemma RestIsWord()
    ensures WordBytes("XTRACT_YEAR_MONTH")
  {
    FewBytes("XTR");
    FewBytes("ACT_");
    FieldIsProper();
    BytesAppend("XTR", "ACT_");
    BytesAppend("XTR" + "ACT_", "YEAR_MONTH");
    assert "XTR" + "ACT_" + "YEAR_MONTH" == "XTRACT_YEAR_MONTH";
  }

  lemma CopiedUpTo(k: string, g: Grammar, c: char, w: string, bracket: char, t: string)
    requires IsWordByte(c) && WordBytes(w) && !IsWordByte(bracket) && !IsExtract(k, false, [c] + (w + ([bracket] + t)))
    ensures Results(Pieces(k, g, false, [c] + (w + ([bracket] + t))))
         == [c] + (w + ([bracket] + Results(Pieces(k, g, false, t))))
  {
    ByteIsCopied(k, g, false, c, w + ([bracket] + t));
    WordIsCopied(k, g, w, [bracket] + t);
    ByteIsCopied(k, g, true, bracket, t);
  }

  lemma NameText(t: string)
    ensures "EXTRACT_YEAR_MONTH(" + t == ['E'] + ("XTRACT_YEAR_MONTH" + (['('] + t))
  {
    assert "EXTRACT_YEAR_MONTH(" == ['E'] + ("XTRACT_YEAR_MONTH" + ['(']);
    Shift(['E'], "XTRACT_YEAR_MONTH" + ['('], t);
    Shift("XTRACT_YEAR_MONTH", ['('], t);
  }

  lemma NameIsLonger(t: string)
    ensures !IsExtract(EXTRACT, false, "EXTRACT_YEAR_MONTH(" + t)
  {
    assert ("EXTRACT_YEAR_MONTH(" + t)[7] == '_';
  }

  // The function's own name is not taken for EXTRACT.
  lemma NameIsCopied(t: string)
    ensures Extracted("EXTRACT_YEAR_MONTH(" + t) == "EXTRACT_YEAR_MONTH(" + Extracted(t)
  {
    RestIsWord();
    NameText(t);
    NameIsLonger(t);
    CopiedUpTo(EXTRACT, GRAMMAR, 'E', "XTRACT_YEAR_MONTH", '(', t);
    NameText(Extracted(t));
  }

  // ---------------------------------------------------------------- the loops

  lemma SpanStep(p: char -> bool, s: string, from: nat, i: nat)
    requires from <= i < |s| && i + Span(p, s[i..]) == from + Span(p, s[from..]) && p(s[i])
    ensures i + 1 + Span(p, s[i + 1..]) == from + Span(p, s[from..])
  {
    assert s[i..][1..] == s[i + 1..];
  }

  method SkipWhile(p: char -> bool, s: string, from: nat) returns (i: nat)
    requires from <= |s|
    ensures i == from + Span(p, s[from..])
  {
    i := from;
    while i < |s| && p(s[i])
      invariant from <= i <= |s| && i + Span(p, s[i..]) == from + Span(p, s[from..])
    {
      SpanStep(p, s, from, i);
      i := i + 1;
    }
  }

  lemma EndStep(s: string, p: Place, i: nat)
    requires i < |s|
    ensures Escapes(p, s[i]) && i + 1 == |s| ==> i + ExprEnd(p, s[i..]) == |s|
    ensures Escapes(p, s[i]) && i + 1 < |s| ==> i + ExprEnd(p, s[i..]) == i + 2 + ExprEnd(p, s[i + 2..])
    ensures !Escapes(p, s[i]) && Closes(p, s[i]) ==> ExprEnd(p, s[i..]) == 0
    ensures !Escapes(p, s[i]) && !Closes(p, s[i])
        ==> i + ExprEnd(p, s[i..]) == i + 1 + ExprEnd(Step(p, s[i]), s[i + 1..])
  {
    var t := s[i..];
    assert t[1..] == s[i + 1..];
    if i + 1 < |s| { assert t[2..] == s[i + 2..]; }
  }

  // The closing bracket of the expression that starts here, or the end of the text.
  method FindClose(s: string, from: nat) returns (i: nat)
    requires from <= |s|
    ensures i == from + ExprEnd(START, s[from..])
  {
    i := from;
    var p := START;
    while i < |s|
      invariant from <= i <= |s| && i + ExprEnd(p, s[i..]) == from + ExprEnd(START, s[from..])
    {
      EndStep(s, p, i);
      if Escapes(p, s[i]) {
        i := if i + 2 <= |s| then i + 2 else |s|;
      } else if Closes(p, s[i]) {
        return;
      } else {
        p := Step(p, s[i]);
        i := i + 1;
      }
    }
  }

  // The offset at which the scan stops.
  function LookEnd(look: Look, from: nat): nat {
    match look
    case Copy(n) => from + n
    case Found(tail) => from + |TailText(tail, "")|
  }

  lemma Slices(s: string, from: nat, i: nat, j: nat)
    requires from <= i <= j <= |s|
    ensures s[from..][i - from..] == s[i..] && s[from..][..i - from] == s[from..i]
    ensures s[i..][j - i..] == s[j..] && s[i..][..j - i] == s[i..j]
  {
  }

  lemma ExprLook(s: string, from: nat, i: nat, j: nat)
    requires from <= |s| && i == from + Span(IsBlank, s[from..]) && j == i + ExprEnd(START, s[i..])
    ensures j == |s| ==> LookFor(Bracketed, s[from..]) == Copy(|s| - from)
    ensures j < |s| ==> LookFor(Bracketed, s[from..]) == Found(Expr(s[from..i], s[i..j]))
    ensures LookEnd(LookFor(Bracketed, s[from..]), from) == if j < |s| then j + 1 else j
  {
    Slices(s, from, i, j);
  }

  function WithWord(more: Look, blanks: string, w: string): Look {
    match more
    case Copy(n) => Copy(|blanks| + |w| + n)
    case Found(tail) => Found(Keyword(blanks, w, tail))
  }

  lemma WordLookIn(g: Grammar, t: string, b: nat, blanks: string, w: string, rest: string)
    requires g.Needs? && b == Span(IsBlank, t) && blanks == t[..b] && |w| == Span((c: char) => In(g.p, c), t[b..])
    requires w == t[b..][..|w|] && rest == t[b..][|w|..]
    ensures !SameWord(w, g.word) ==> LookFor(g, t) == Copy(b + |w|)
    ensures SameWord(w, g.word) ==> LookFor(g, t) == WithWord(LookFor(g.next, rest), blanks, w)
  {
  }

  lemma WordLook(g: Grammar, s: string, from: nat, i: nat, j: nat)
    requires g.Needs? && from <= |s| && i == from + Span(IsBlank, s[from..])
    requires j == i + Span((c: char) => In(g.p, c), s[i..])
    ensures LookFor(g, s[from..]) ==
      if SameWord(s[i..j], g.word) then WithWord(LookFor(g.next, s[j..]), s[from..i], s[i..j]) else Copy(j - from)
  {
    var t, b, y, n := s[from..], i - from, s[i..], j - i;
    Parts(s, from, i, t, b);
    Parts(s, i, j, y, n);
    WordLookIn(g, t, b, s[from..i], s[i..j], s[j..]);
  }

  lemma Parts(s: string, from: nat, i: nat, t: string, b: nat)
    requires from <= i <= |s| && t == s[from..] && b == i - from
    ensures t[..b] == s[from..i] && t[b..] == s[i..]
  {
  }

  // Behind the bracket: the words one after the other, then the expression.
  lemma WithWordEnds(look: Look, blanks: string, w: string, from: nat, j: nat)
    requires j == from + |blanks| + |w|
    ensures LookEnd(WithWord(look, blanks, w), from) == LookEnd(look, j)
  {
  }

  method LookInBracket(g: Grammar, s: string, from: nat) returns (look: Look, next: nat)
    requires from <= |s|
    ensures look == LookFor(g, s[from..]) && next == LookEnd(look, from)
    decreases g
  {
    var i := SkipWhile(IsBlank, s, from);
    if g.Bracketed? {
      var j := FindClose(s, i);
      ExprLook(s, from, i, j);
      if j == |s| { return Copy(|s| - from), j; }
      return Found(Expr(s[from..i], s[i..j])), j + 1;
    }
    var j := SkipWhile((c: char) => In(g.p, c), s, i);
    WordLook(g, s, from, i, j);
    if !SameWord(s[i..j], g.word) { return Copy(j - from), j; }
    var more;
    more, next := LookInBracket(g.next, s, j);
    WithWordEnds(more, s[from..i], s[i..j], from, j);
    look := WithWord(more, s[from..i], s[i..j]);
  }

  predicate AfterWord(s: string, index: nat)
    requires index <= |s|
  {
    index > 0 && IsWordByte(s[index - 1])
  }

  // What is still to be put out from here on.
  function Rest(k: string, g: Grammar, s: string, index: nat): string
    requires index <= |s|
  {
    Results(Pieces(k, g, AfterWord(s, index), s[index..]))
  }

  function SightFrom(k: string, g: Grammar, s: string, index: nat): Sight
    requires index <= |s|
  {
    LookAt(k, g, AfterWord(s, index), s[index..])
  }

  // One round: so much is put out, and the next one starts there.
  ghost predicate IsRound(k: string, g: Grammar, s: string, index: nat, text: string, next: nat) {
    index < next <= |s| && Rest(k, g, s, index) == text + Rest(k, g, s, next)
  }

  lemma Ahead(s: string, index: nat, t: string, n: nat)
    requires index <= |s| && t == s[index..] && 1 <= n <= |t|
    ensures t[..n] == s[index..index + n] && t[n..] == s[index + n..]
    ensures AfterWord(s, index + n) == IsWordByte(t[n - 1])
  {
  }

  lemma RestSkips(k: string, g: Grammar, s: string, index: nat, t: string, n: nat)
    requires index < |s| && t == s[index..] && SightFrom(k, g, s, index) == Skip(n)
    ensures 1 <= n <= |t| && Rest(k, g, s, index) == t[..n] + Results(Pieces(k, g, IsWordByte(t[n - 1]), t[n..]))
  {
    FirstIsCopied(k, g, AfterWord(s, index), t, n);
  }

  lemma RestIs(k: string, g: Grammar, s: string, end: nat, afterWord: bool, t: string)
    requires end <= |s| && afterWord == AfterWord(s, end) && t == s[end..]
    ensures Rest(k, g, s, end) == Results(Pieces(k, g, afterWord, t))
  {
  }

  lemma {:induction false} TailEnds(x: Tail)
    ensures TailText(x, "")[|TailText(x, "")| - 1] == ')'
  {
    if x.Keyword? { TailEnds(x.rest); }
  }

  lemma MatchEnds(m: Match)
    ensures MatchText(m, "")[|MatchText(m, "")| - 1] == ')'
  {
    TailEnds(m.tail);
  }

  lemma NotAfterWord(s: string, index: nat, x: string, end: nat)
    requires x != "" && x[|x| - 1] == ')' && end == index + |x| && end <= |s| && s[index..] == x + s[index..][|x|..]
    ensures !AfterWord(s, end) && s[index..][|x|..] == s[end..]
  {
    assert s[end - 1] == s[index..][|x| - 1] == x[|x| - 1];
  }

  lemma ReplaceStep(k: string, g: Grammar, s: string, index: nat, m: Match, end: nat)
    requires index < |s| && SightFrom(k, g, s, index) == Seen(m) && end == index + |MatchText(m, "")|
    ensures IsRound(k, g, s, index, Replacement(m), end)
  {
    var behind := SeenFits(k, g, AfterWord(s, index), s[index..], m);
    FirstIsReplaced(k, g, s[index..], m);
    SeenWithin(k, g, false, s[index..], m);
    MatchEnds(m);
    NotAfterWord(s, index, MatchText(m, ""), end);
  }

  lemma SightIsSighted(k: string, g: Grammar, afterWord: bool, t: string, n: nat, u: string)
    requires BracketAt(k, afterWord, t) == Some(n) && t[n..] == u
    ensures LookAt(k, g, afterWord, t) == Sighted(LookFor(g, u), n, t[..|k|], t[|k|..n - 1])
  {
  }

  lemma SightedEnds(look: Look, n: nat, extract: string, blanks: string)
    requires n == |extract| + |blanks| + 1
    ensures look.Copy? ==> Sighted(look, n, extract, blanks) == Skip(LookEnd(look, n))
    ensures look.Found? ==>
      && Sighted(look, n, extract, blanks) == Seen(Match(extract, blanks, look.tail))
      && |MatchText(Match(extract, blanks, look.tail), "")| == LookEnd(look, n)
  {
  }

  // The sight at an offset, from what stands behind the bracket.
  ghost predicate IsSight(sight: Sight, look: Look, index: nat, next: nat) {
    && (look.Copy? ==> LookEnd(look, next) >= index && sight == Skip(LookEnd(look, next) - index))
    && (look.Found? ==> sight.Seen? && sight.m.tail == look.tail)
    && (look.Found? ==> index + |MatchText(sight.m, "")| == LookEnd(look, next))
  }

  lemma SightedIs(k: string, g: Grammar, afterWord: bool, t: string, n: nat, index: nat, rest: string)
    requires BracketAt(k, afterWord, t) == Some(n) && rest == t[n..]
    ensures IsSight(LookAt(k, g, afterWord, t), LookFor(g, rest), index, index + n)
  {
    SightIsSighted(k, g, afterWord, t, n, rest);
    SightedEnds(LookFor(g, rest), n, t[..|k|], t[|k|..n - 1]);
  }

  lemma SightBehind(k: string, g: Grammar, s: string, index: nat, next: nat, look: Look)
    requires index <= next <= |s| && BracketAt(k, AfterWord(s, index), s[index..]) == Some(next - index)
    requires look == LookFor(g, s[next..])
    ensures IsSight(SightFrom(k, g, s, index), look, index, next)
  {
    Slices(s, index, next, next);
    SightedIs(k, g, AfterWord(s, index), s[index..], next - index, index, s[next..]);
  }

  lemma BracketIn(k: string, g: Grammar, afterWord: bool, t: string, n: nat)
    requires IsExtract(k, afterWord, t) && n == |k| + Span(IsBlank, t[|k|..])
    ensures n == |t| || t[n] != '(' ==> LookAt(k, g, afterWord, t) == Skip(1)
    ensures n < |t| && t[n] == '(' ==> BracketAt(k, afterWord, t) == Some(n + 1)
  {
  }

  lemma ByteAt(s: string, index: nat, i: nat, t: string, n: nat)
    requires index <= i <= |s| && t == s[index..] && n == i - index
    ensures (n == |t| <==> i == |s|) && (i < |s| ==> t[n] == s[i])
  {
  }

  lemma BracketBehind(k: string, g: Grammar, s: string, index: nat, i: nat)
    requires index <= |s| && IsExtract(k, AfterWord(s, index), s[index..])
    requires index + |k| <= |s| && i == index + |k| + Span(IsBlank, s[index + |k|..])
    ensures i == |s| || s[i] != '(' ==> SightFrom(k, g, s, index) == Skip(1)
    ensures i < |s| && s[i] == '(' ==> BracketAt(k, AfterWord(s, index), s[index..]) == Some(i + 1 - index)
  {
    var t, n := s[index..], i - index;
    Parts(s, index, index + |k|, t, |k|);
    ByteAt(s, index, i, t, n);
    BracketIn(k, g, AfterWord(s, index), t, n);
  }

  lemma NoExtract(k: string, g: Grammar, s: string, index: nat)
    requires index < |s| && !IsExtract(k, AfterWord(s, index), s[index..])
    ensures SightFrom(k, g, s, index) == Skip(1)
  {
  }

  lemma RestBehind(k: string, g: Grammar, s: string, index: nat, t: string, n: nat)
    requires index <= |s| && t == s[index..] && 1 <= n <= |t|
    ensures Rest(k, g, s, index + n) == Results(Pieces(k, g, IsWordByte(t[n - 1]), t[n..]))
  {
    Ahead(s, index, t, n);
    RestIs(k, g, s, index + n, IsWordByte(t[n - 1]), t[n..]);
  }

  lemma CopiedIsRound(k: string, g: Grammar, s: string, index: nat, end: nat, t: string, n: nat)
    requires index < |s| && t == s[index..] && end == index + n && SightFrom(k, g, s, index) == Skip(n)
    ensures end <= |s| && IsRound(k, g, s, index, s[index..end], end)
  {
    RestSkips(k, g, s, index, t, n);
    RestBehind(k, g, s, index, t, n);
    assert t[..n] == s[index..end];
  }

  // The round that copies.
  method CopyRound(k: string, g: Grammar, sql: string, index: nat, end: nat) returns (text: string)
    requires index < |sql| && index <= end && SightFrom(k, g, sql, index) == Skip(end - index)
    ensures IsRound(k, g, sql, index, text, end)
  {
    CopiedIsRound(k, g, sql, index, end, sql[index..], end - index);
    text := sql[index..end];
  }

  // The round behind "EXTRACT (".
  method RoundInBracket(k: string, g: Grammar, sql: string, index: nat, start: nat) returns (text: string, next: nat)
    requires index < start <= |sql| && BracketAt(k, AfterWord(sql, index), sql[index..]) == Some(start - index)
    ensures IsRound(k, g, sql, index, text, next)
  {
    var look;
    look, next := LookInBracket(g, sql, start);
    SightBehind(k, g, sql, index, start, look);
    match look
    case Copy(_) =>
      text := CopyRound(k, g, sql, index, next);
    case Found(tail) =>
      ReplaceStep(k, g, sql, index, SightFrom(k, g, sql, index).m, next);
      text := "EXTRACT_YEAR_MONTH(" + (ExprOf(tail) + ")");
  }

  // What one round puts out, and where the next one starts.
  method Round(k: string, g: Grammar, sql: string, index: nat) returns (text: string, next: nat)
    requires index < |sql|
    ensures IsRound(k, g, sql, index, text, next)
  {
    if IsExtract(k, AfterWord(sql, index), sql[index..]) {
      var i := SkipWhile(IsBlank, sql, index + |k|);
      BracketBehind(k, g, sql, index, i);
      if i < |sql| && sql[i] == '(' {
        text, next := RoundInBracket(k, g, sql, index, i + 1);
        return;
      }
    } else {
      NoExtract(k, g, sql, index);
    }
    text := CopyRound(k, g, sql, index, index + 1);
    next := index + 1;
  }

  lemma RoundDone(k: string, g: Grammar, s: string, index: nat, text: string, next: nat, output: string)
    requires IsRound(k, g, s, index, text, next) && output + Rest(k, g, s, index) == Rest(k, g, s, 0)
    ensures output + text + Rest(k, g, s, next) == Rest(k, g, s, 0)
  {
    Shift(output, text, Rest(k, g, s, next));
  }

  method Rewrite(k: string, g: Grammar, sql: string) returns (output: string)
    ensures output == Results(Pieces(k, g, false, sql))
  {
    output := "";
    var index := 0;
    assert sql[0..] == sql && "" + Rest(k, g, sql, 0) == Rest(k, g, sql, 0);
    while index < |sql|
      invariant index <= |sql| && output + Rest(k, g, sql, index) == Rest(k, g, sql, 0)
      decreases |sql| - index
    {
      var text, next := Round(k, g, sql, index);
      RoundDone(k, g, sql, index, text, next, output);
      output, index := output + text, next;
    }
    assert output + "" == output;
  }

  method RewriteExtractYearMonth(sql: string) returns (output: string)
    ensures output == Extracted(sql)
  {
    output := Rewrite(EXTRACT, GRAMMAR, sql);
  }
}
