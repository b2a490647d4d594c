/** When the EXTRACT rewriter leaves quoted text alone: it does not know quotes. */
module ExtractQuotes {
  import opened Characters
  import opened Wrappers
  import opened Rewriters
  import opened ExtractRewriter
  import opened ExtractPasses

  // ---------------------------------------------------------------- quotes, byte by byte

  type Quote = c: char | IsQuote(c) witness '\''

  // Outside quotes, in quotes, or right behind a backslash in quotes.
  datatype Quoting = Outside | Inside(quote: Quote) | Held(quote: Quote)

  function After(st: Quoting, c: char): Quoting {
    match st
    case Outside => if IsQuote(c) then Inside(c) else Outside
    case Inside(q) => if q != '`' && c == '\\' then Held(q) else if c == q then Outside else st
    case Held(q) => Inside(q)
  }

  function Then(st: Quoting, t: string): Quoting
    decreases |t|
  {
    if t == "" then st else Then(After(st, t[0]), t[1..])
  }

  // The byte belongs to quoted text, the quotes themselves included.
  function Kept(st: Quoting, c: char): string {
    if st.Outside? && !IsQuote(c) then "" else [c]
  }

  function InQuotes(st: Quoting, t: string): string
    decreases |t|
  {
    if t == "" then "" else Kept(st, t[0]) + InQuotes(After(st, t[0]), t[1..])
  }

  lemma {:induction false} InQuotesAppend(st: Quoting, a: string, b: string)
    ensures Then(st, a + b) == Then(Then(st, a), b)
    ensures InQuotes(st, a + b) == InQuotes(st, a) + InQuotes(Then(st, a), b)
    decreases |a|
  {
    if a == "" {
      assert a + b == b;
    } else {
      assert (a + b)[1..] == a[1..] + b;
      InQuotesAppend(After(st, a[0]), a[1..], b);
    }
  }

  lemma OneByte(st: Quoting, c: char)
    ensures InQuotes(st, [c]) == Kept(st, c) && Then(st, [c]) == After(st, c)
  {
    assert [c][1..] == "";
  }

  lemma UnitInQuotes(q: Quote, u: Unit)
    requires UnitFits(q, u, false, true)
    ensures InQuotes(Inside(q), UnitText(q, u)) == UnitText(q, u) && Then(Inside(q), UnitText(q, u)) == Inside(q)
  {
    match u
    case Plain(c) => OneByte(Inside(q), c);
    case Escaped(c) =>
      InQuotesAppend(Inside(q), ['\\'], [c]);
      OneByte(Inside(q), '\\');
      OneByte(Held(q), c);
      assert ['\\'] + [c] == ['\\', c];
    case Doubled =>
      InQuotesAppend(Inside(q), [q], [q]);
      OneByte(Inside(q), q);
      OneByte(Outside, q);
      assert [q] + [q] == [q, q];
  }

  // Read behind an opening quote, the text is quoted up to the closing quote.
  ghost predicate QuotedUpTo(q: Quote, s: string, scan: Scan) {
    InQuotes(Inside(q), s) == UnitsText(q, scan.units) + Closing(q, scan.closed) + InQuotes(Outside, scan.rest)
  }

  lemma UnitMoves(q: Quote, u: Unit, s: string, rest: string, scan: Scan)
    requires UnitFits(q, u, false, true) && s == UnitText(q, u) + rest && QuotedUpTo(q, rest, scan)
    ensures QuotedUpTo(q, s, scan.After(u))
  {
    UnitInQuotes(q, u);
    InQuotesAppend(Inside(q), UnitText(q, u), rest);
    assert ([u] + scan.units)[1..] == scan.units;
    Shift(UnitText(q, u), UnitsText(q, scan.units), Closing(q, scan.closed));
    Shift(UnitText(q, u), UnitsText(q, scan.units) + Closing(q, scan.closed), InQuotes(Outside, scan.rest));
  }

  lemma QuotedEnds(q: Quote, s: string)
    ensures s == "" ==> QuotedUpTo(q, s, ScanQuote(q, s))
    ensures s == "\\" ==> QuotedUpTo(q, s, ScanQuote(q, s))
    ensures s != "" && s[0] == q && (|s| == 1 || s[1] != q) ==> QuotedUpTo(q, s, ScanQuote(q, s))
  {
    if s == "\\" { assert s[1..] == ""; }
  }

  lemma {:induction false} ScanInQuotes(q: Quote, s: string)
    ensures QuotedUpTo(q, s, ScanQuote(q, s))
    decreases |s|
  {
    if s != "" && q != '`' && s[0] == '\\' && |s| > 1 {
      ScanInQuotes(q, s[2..]);
      UnitMoves(q, Escaped(s[1]), s, s[2..], ScanQuote(q, s[2..]));
    } else if s != "" && s[0] != q && !(s[0] == '\\' && |s| == 1) {
      ScanInQuotes(q, s[1..]);
      UnitMoves(q, Plain(s[0]), s, s[1..], ScanQuote(q, s[1..]));
    } else if |s| > 1 && s[0] == q && s[1] == q {
      ScanInQuotes(q, s[2..]);
      UnitMoves(q, Doubled, s, s[2..], ScanQuote(q, s[2..]));
    } else {
      QuotedEnds(q, s);
    }
  }

  // Bytes that no quote machine reacts to.
  predicate Calm(s: string) {
    forall i :: 0 <= i < |s| ==> !IsQuote(s[i]) && s[i] != '\\'
  }

  lemma CalmStep(st: Quoting, c: char)
    requires Calm([c])
    ensures Kept(st, c) == if st.Outside? then "" else [c]
    ensures After(st, c) == if st.Outside? then st else Inside(st.quote)
  {
    assert [c][0] == c;
  }

  lemma {:induction false} CalmInQuotes(st: Quoting, s: string)
    requires Calm(s)
    ensures InQuotes(st, s) == if st.Outside? then "" else s
    ensures Then(st, s) == if st.Outside? || s == "" then st else Inside(st.quote)
    decreases |s|
  {
    if s != "" {
      assert Calm([s[0]]) && Calm(s[1..]);
      CalmStep(st, s[0]);
      CalmInQuotes(if st.Outside? then st else Inside(st.quote), s[1..]);
      assert s == [s[0]] + s[1..];
    }
  }

  lemma {:induction false} StaysOutside(s: string)
    requires forall i :: 0 <= i < |s| ==> !IsQuote(s[i])
    ensures InQuotes(Outside, s) == "" && Then(Outside, s) == Outside
  {
    if s != "" { StaysOutside(s[1..]); }
  }

  // It is the quoted text of the tokens.
  lemma {:induction false} QuotedTextByByte(t: string)
    ensures InQuotes(Outside, t) == QuotedText(Lex(t))
    decreases |t|
  {
    if t != "" {
      var ts := Lex(t);
      if IsQuote(t[0]) {
        var scan := ScanQuote(t[0], t[1..]);
        ScanInQuotes(t[0], t[1..]);
        QuotedTextByByte(scan.rest);
        assert ts[1..] == Lex(scan.rest);
        Shift([t[0]], UnitsText(t[0], scan.units) + Closing(t[0], scan.closed), InQuotes(Outside, scan.rest));
      } else {
        var n := if IsWordByte(t[0]) then WordLength(t) else 1;
        QuotedTextByByte(t[n..]);
        assert ts[1..] == Lex(t[n..]);
        StaysOutside(t[..n]);
        InQuotesAppend(Outside, t[..n], t[n..]);
        Cut(t, n);
      }
    }
  }

  // ---------------------------------------------------------------- what a replacement does to quoted text

  // No match is replaced inside quotes.
  predicate NoneQuoted(st: Quoting, ps: seq<Piece>)
    decreases |ps|
  {
    ps == [] || ((ps[0].Replaced? ==> st.Outside?) && NoneQuoted(Then(st, Source(ps[0])), ps[1..]))
  }

  // The same quotes stay open, and nothing quoted gets lost outside quotes, but always inside.
  ghost predicate Respects(st: Quoting, quoted: bool, a: string, b: string) {
    && Then(st, b) == Then(st, a)
    && (if quoted then |InQuotes(st, b)| < |InQuotes(st, a)| else InQuotes(st, b) == InQuotes(st, a))
  }

  lemma PlainIsCalm(s: string)
    requires PlainBytes(s)
    ensures Calm(s)
  {
  }

  lemma HeaderIsCalm(m: Match)
    requires Fits(EXTRACT, GRAMMAR, m)
    ensures Calm((m.extract + m.blanks) + ("(" + Words(m.tail)))
    ensures Calm(NAME + ("(" + ""))
  {
    GrammarIsProper();
    ExtractIsWord();
    SpelledWord(m.extract, EXTRACT);
    BlankIsPlain(m.blanks);
    WordsArePlain(GRAMMAR, m.tail);
    NameIsWord();
    PlainIsCalm(m.extract);
    PlainIsCalm(m.blanks);
    PlainIsCalm(Words(m.tail));
    PlainIsCalm(NAME);
  }

  lemma CalmRespects(st: Quoting, a: string, b: string, e: string)
    requires Calm(a) && Calm(b) && 0 < |b| < |a|
    ensures Respects(st, !st.Outside?, a + e, b + e)
  {
    CalmInQuotes(st, a);
    CalmInQuotes(st, b);
    InQuotesAppend(st, a, e);
    InQuotesAppend(st, b, e);
  }

  lemma MatchRespects(st: Quoting, m: Match)
    requires Fits(EXTRACT, GRAMMAR, m)
    ensures Respects(st, !st.Outside?, MatchText(m, ""), Replacement(m))
  {
    HeaderIsCalm(m);
    MatchParts(m);
    ReplacementParts(m);
    ReplacementIsShorter(m);
    CalmRespects(st, (m.extract + m.blanks) + ("(" + Words(m.tail)), NAME + ("(" + ""), ExprOf(m.tail) + ")");
  }

  function Put(p: Piece): string {
    match p
    case Copied(text) => text
    case Replaced(m) => Replacement(m)
  }

  lemma RespectsAppend(st: Quoting, p: bool, q: bool, a: string, b: string, c: string, d: string)
    requires Respects(st, p, a, b) && Respects(Then(st, a), q, c, d)
    ensures Respects(st, p || q, a + c, b + d)
  {
    InQuotesAppend(st, a, c);
    InQuotesAppend(st, b, d);
  }

  lemma {:induction false} PiecesRespect(st: Quoting, ps: seq<Piece>)
    requires AllFit(EXTRACT, GRAMMAR, ps)
    ensures Respects(st, !NoneQuoted(st, ps), Sources(ps), Results(ps))
    decreases |ps|
  {
    if ps != [] {
      var p, next := ps[0], Then(st, Source(ps[0]));
      PiecesRespect(next, ps[1..]);
      if p.Replaced? { MatchRespects(st, p.m); }
      RespectsAppend(st, p.Replaced? && !st.Outside?, !NoneQuoted(next, ps[1..]),
                     Source(p), Put(p), Sources(ps[1..]), Results(ps[1..]));
    }
  }

  // Quoted text passes through exactly when no match is replaced inside quotes.
  lemma QuotesPassIff(s: string)
    ensures QuotedText(Lex(Extracted(s))) == QuotedText(Lex(s))
       <==> NoneQuoted(Outside, Pieces(EXTRACT, GRAMMAR, false, s))
  {
    var ps := Pieces(EXTRACT, GRAMMAR, false, s);
    PiecesCover(EXTRACT, GRAMMAR, false, s);
    PiecesFit(EXTRACT, GRAMMAR, false, s);
    PiecesRespect(Outside, ps);
    QuotedTextByByte(s);
    QuotedTextByByte(Extracted(s));
  }

  // A match in quotes is replaced there, whatever the match and the quotes.
  lemma QuotesAreNotRespected(q: Quote, m: Match)
    requires Fits(EXTRACT, GRAMMAR, m)
    ensures Extracted([q] + MatchText(m, [q])) == [q] + (Replacement(m) + [q])
    ensures QuotedText(Lex(Extracted([q] + MatchText(m, [q])))) != QuotedText(Lex([q] + MatchText(m, [q])))
  {
    GrammarIsProper();
    ExtractIsWord();
    MatchInQuotes(EXTRACT, GRAMMAR, q, m);
    QuotesPassIff([q] + MatchText(m, [q]));
  }

  lemma MatchInQuotes(k: string, g: Grammar, q: Quote, m: Match)
    requires Proper(g) && Fits(k, g, m) && k != "" && WordBytes(k)
    ensures Results(Pieces(k, g, false, [q] + MatchText(m, [q]))) == [q] + (Replacement(m) + [q])
    ensures !NoneQuoted(Outside, Pieces(k, g, false, [q] + MatchText(m, [q])))
  {
    var t := MatchText(m, [q]);
    NotAWord(k, false, q, t);
    ExtractRewriter.ByteIsCopied(k, g, false, q, t);
    MatchThenRest(k, g, m, [q]);
    LastQuote(k, g, q);
    SkipPieces(k, g, false, [q] + t, 1);
    MatchIsSeen(k, g, m, [q]);
    SeenPieces(k, g, false, t, m);
    assert ([q] + t)[1..] == t && ([q] + t)[..1] == [q];
    QuotedFirst(q, m, Pieces(k, g, false, t)[1..]);
  }

  lemma LastQuote(k: string, g: Grammar, q: Quote)
    requires k != "" && WordBytes(k)
    ensures Results(Pieces(k, g, false, [q])) == [q]
  {
    assert [q] + "" == [q];
    NotAWord(k, false, q, "");
    ExtractRewriter.ByteIsCopied(k, g, false, q, "");
  }

  lemma QuotedFirst(q: Quote, m: Match, ps: seq<Piece>)
    ensures !NoneQuoted(Outside, [Copied([q])] + ([Replaced(m)] + ps))
  {
    var all := [Copied([q])] + ([Replaced(m)] + ps);
    assert all[1..] == [Replaced(m)] + ps;
    assert Then(Outside, [q]) == Inside(q);
  }

  // Such a text.
  lemma QuotedDate(s: string)
    requires s == "'" + ("EXTRACT(YEAR_MONTH FROM d)" + "'")
    ensures QuotedText(Lex(Extracted(s))) != QuotedText(Lex(s))
  {
    DateFits();
    OneDate();
    MatchTextAppend(Extracting("d"), "'");
    QuotesAreNotRespected('\'', Extracting("d"));
  }
}
