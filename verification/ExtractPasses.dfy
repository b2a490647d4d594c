/** When the EXTRACT rewriter leaves a text alone, when a second pass changes nothing, and when quoted
    text passes through. */
module ExtractPasses {
  import opened Characters
  import opened Wrappers
  import opened Rewriters
  import opened ExtractRewriter

  predicate AllCopied(ps: seq<Piece>) {
    ps == [] || (ps[0].Copied? && AllCopied(ps[1..]))
  }

  lemma CopiedCons(p: Piece, ps: seq<Piece>)
    ensures AllCopied([p] + ps) <==> p.Copied? && AllCopied(ps)
  {
    assert ([p] + ps)[1..] == ps;
  }

  // ---------------------------------------------------------------- which texts are left alone

  // Every replacement is shorter than what it replaces.
  ghost predicate Shrinks(p: Piece) {
    p.Replaced? ==> |Replacement(p.m)| < |MatchText(p.m, "")|
  }

  function WordsLength(g: Grammar): nat {
    if g.Needs? then |g.word| + WordsLength(g.next) else 0
  }

  lemma {:induction false} TailLength(g: Grammar, x: Tail)
    requires TailFits(g, x)
    ensures |TailText(x, "")| >= WordsLength(g) + |ExprOf(x)| + 1
  {
    if x.Keyword? { TailLength(g.next, x.rest); }
  }

  lemma ReplacementIsShorter(m: Match)
    requires Fits(EXTRACT, GRAMMAR, m)
    ensures |Replacement(m)| < |MatchText(m, "")|
  {
    TailLength(GRAMMAR, m.tail);
    assert WordsLength(GRAMMAR) == 10 + WordsLength(Needs(Letter, "FROM", Bracketed)) == 14;
    assert |m.extract| == 7 && |Replacement(m)| == 20 + |ExprOf(m.tail)|;
  }

  lemma {:induction false} Lengths(ps: seq<Piece>)
    requires forall i :: 0 <= i < |ps| ==> Shrinks(ps[i])
    ensures AllCopied(ps) ==> Results(ps) == Sources(ps)
    ensures !AllCopied(ps) ==> |Results(ps)| < |Sources(ps)|
  {
    if ps != [] {
      assert Shrinks(ps[0]);
      Lengths(ps[1..]);
    }
  }

  // The rewriter changes nothing exactly when it replaces nothing.
  lemma UnchangedIffCopied(s: string)
    ensures Extracted(s) == s <==> AllCopied(Pieces(EXTRACT, GRAMMAR, false, s))
  {
    var ps := Pieces(EXTRACT, GRAMMAR, false, s);
    PiecesCover(EXTRACT, GRAMMAR, false, s);
    PiecesFit(EXTRACT, GRAMMAR, false, s);
    forall i | 0 <= i < |ps| ensures Shrinks(ps[i]) {
      if ps[i].Replaced? { ReplacementIsShorter(ps[i].m); }
    }
    Lengths(ps);
  }

  // ---------------------------------------------------------------- reading for the closing bracket

  // The scan of FindClose, byte by byte.
  datatype Reading = At(place: Place) | Protected(place: Place) | Closed

  function Reads(r: Reading, c: char): Reading {
    match r
    case At(p) => if Escapes(p, c) then Protected(p) else if Closes(p, c) then Closed else At(Step(p, c))
    case Protected(p) => At(p)
    case Closed => Closed
  }

  function ReadOn(r: Reading, t: string): Reading
    decreases |t|
  {
    if t == "" then r else ReadOn(Reads(r, t[0]), t[1..])
  }

  lemma {:induction false} ReadOnAppend(r: Reading, a: string, b: string)
    ensures ReadOn(r, a + b) == ReadOn(ReadOn(r, a), b)
    decreases |a|
  {
    if a == "" {
      assert a + b == b;
    } else {
      assert (a + b)[1..] == a[1..] + b;
      ReadOnAppend(Reads(r, a[0]), a[1..], b);
    }
  }

  lemma {:induction false} ClosedStays(t: string)
    ensures ReadOn(Closed, t) == Closed
  {
    if t != "" { ClosedStays(t[1..]); }
  }

  lemma {:induction false} EndsIffClosed(p: Place, t: string)
    ensures ExprEnd(p, t) < |t| <==> ReadOn(At(p), t) == Closed
    decreases |t|
  {
    if t != "" {
      if Escapes(p, t[0]) {
        if |t| > 1 {
          assert t[1..][1..] == t[2..];
          EndsIffClosed(p, t[2..]);
        }
      } else if Closes(p, t[0]) {
        ClosedStays(t[1..]);
      } else {
        EndsIffClosed(Step(p, t[0]), t[1..]);
      }
    }
  }

  // Bytes that are neither quotes, brackets nor backslashes.
  predicate IsPlain(c: char) {
    IsWordByte(c) || IsBlank(c)
  }

  predicate PlainBytes(s: string) {
    forall i :: 0 <= i < |s| ==> IsPlain(s[i])
  }

  // What is left of a reading once a plain byte was read.
  function Settled(r: Reading): Reading {
    match r
    case Protected(p) => At(p)
    case _ => r
  }

  // The only quotes it is in are quotes.
  predicate Sound(r: Reading) {
    r == Closed || (r.place.quote.Some? ==> IsQuote(r.place.quote.value))
  }

  lemma {:induction false} ReadPlain(r: Reading, s: string)
    requires PlainBytes(s) && Sound(r)
    ensures ReadOn(r, s) == if s == "" then r else Settled(r)
    decreases |s|
  {
    if s != "" { ReadPlain(Reads(r, s[0]), s[1..]); }
  }

  // A word and plain bytes, one bracket, plain bytes again.
  lemma ReadHeader(r: Reading, word: string, more: string)
    requires Sound(r) && word != "" && PlainBytes(word) && PlainBytes(more)
    ensures ReadOn(r, word + ("(" + more)) == Reads(Settled(r), '(')
  {
    ReadOnAppend(r, word, "(" + more);
    ReadOnAppend(Settled(r), "(", more);
    ReadPlain(r, word);
    ReadPlain(Reads(Settled(r), '('), more);
    assert "("[1..] == "";
  }

  // What stands between the bracket and the expression.
  function Words(x: Tail): string {
    match x
    case Expr(blanks, _) => blanks
    case Keyword(blanks, word, rest) => blanks + (word + Words(rest))
  }

  lemma {:induction false} WordsThenExpr(x: Tail, behind: string)
    ensures TailText(x, behind) == Words(x) + (ExprOf(x) + (")" + behind))
  {
    if x.Keyword? {
      WordsThenExpr(x.rest, behind);
      Shift(x.word, Words(x.rest), ExprOf(x) + (")" + behind));
      Shift(x.blanks, x.word + Words(x.rest), ExprOf(x) + (")" + behind));
    }
  }

  lemma PlainAppend(a: string, b: string)
    requires PlainBytes(a) && PlainBytes(b)
    ensures PlainBytes(a + b)
  {
  }

  lemma BlankIsPlain(s: string)
    requires Blank(s)
    ensures PlainBytes(s)
  {
  }

  lemma WordIsPlain(p: Class, w: string, word: string)
    requires SameWord(w, word) && forall v, i :: SameWord(v, word) && 0 <= i < |v| ==> In(p, v[i])
    ensures PlainBytes(w)
  {
    ClassBytes(p, w, word);
  }

  lemma {:induction false} WordsArePlain(g: Grammar, x: Tail)
    requires Proper(g) && TailFits(g, x)
    ensures PlainBytes(Words(x))
  {
    BlankIsPlain(x.blanks);
    if x.Keyword? {
      WordIsPlain(g.p, x.word, g.word);
      WordsArePlain(g.next, x.rest);
      PlainAppend(x.word, Words(x.rest));
      PlainAppend(x.blanks, x.word + Words(x.rest));
    }
  }

  const NAME := "EXTRACT_YEAR_MONTH"

  lemma NameIsWord()
    ensures WordBytes(NAME)
  {
    RestIsWord();
    FewBytes("E");
    BytesAppend("E", "XTRACT_YEAR_MONTH");
    assert "E" + "XTRACT_YEAR_MONTH" == NAME;
  }

  lemma ReplacementParts(m: Match)
    ensures Replacement(m) == (NAME + ("(" + "")) + (ExprOf(m.tail) + ")")
  {
    assert NAME + ("(" + "") == "EXTRACT_YEAR_MONTH(";
  }

  lemma MatchParts(m: Match)
    ensures MatchText(m, "") == ((m.extract + m.blanks) + ("(" + Words(m.tail))) + (ExprOf(m.tail) + ")")
  {
    var e := ExprOf(m.tail) + (")" + "");
    WordsThenExpr(m.tail, "");
    assert ")" + "" == ")";
    Shift("(", Words(m.tail), e);
    Shift(m.blanks, "(" + Words(m.tail), e);
    Shift(m.extract, m.blanks + ("(" + Words(m.tail)), e);
    Shift(m.extract, m.blanks, "(" + Words(m.tail));
  }

  lemma {:induction false} StaysSound(r: Reading, t: string)
    requires Sound(r)
    ensures Sound(ReadOn(r, t))
    decreases |t|
  {
    if t != "" { StaysSound(Reads(r, t[0]), t[1..]); }
  }

  ghost predicate ReadAlike(a: string, b: string) {
    forall r :: Sound(r) ==> ReadOn(r, a) == ReadOn(r, b)
  }

  lemma HeadersAreAlike(r: Reading, k: string, g: Grammar, m: Match)
    requires Sound(r) && k != "" && WordBytes(k) && Proper(g) && Fits(k, g, m)
    ensures ReadOn(r, (m.extract + m.blanks) + ("(" + Words(m.tail))) == ReadOn(r, NAME + ("(" + ""))
  {
    SpelledWord(m.extract, k);
    BlankIsPlain(m.blanks);
    PlainAppend(m.extract, m.blanks);
    WordsArePlain(g, m.tail);
    ReadHeader(r, m.extract + m.blanks, Words(m.tail));
    NameIsWord();
    ReadHeader(r, NAME, "");
  }

  // A match and its replacement read alike.
  lemma MatchReads(k: string, g: Grammar, m: Match)
    requires k != "" && WordBytes(k) && Proper(g) && Fits(k, g, m)
    ensures ReadAlike(MatchText(m, ""), Replacement(m))
  {
    MatchParts(m);
    ReplacementParts(m);
    forall r | Sound(r) ensures ReadOn(r, MatchText(m, "")) == ReadOn(r, Replacement(m)) {
      HeadersAreAlike(r, k, g, m);
      ReadOnAppend(r, (m.extract + m.blanks) + ("(" + Words(m.tail)), ExprOf(m.tail) + ")");
      ReadOnAppend(r, NAME + ("(" + ""), ExprOf(m.tail) + ")");
    }
  }

  lemma ReadAlikeAppend(a: string, b: string, c: string, d: string)
    requires ReadAlike(a, b) && ReadAlike(c, d)
    ensures ReadAlike(a + c, b + d)
  {
    forall r | Sound(r) ensures ReadOn(r, a + c) == ReadOn(r, b + d) {
      ReadOnAppend(r, a, c);
      ReadOnAppend(r, b, d);
      StaysSound(r, a);
    }
  }

  function Out(k: string, g: Grammar, afterWord: bool, t: string): string {
    Results(Pieces(k, g, afterWord, t))
  }

  lemma SeenSplits(k: string, g: Grammar, afterWord: bool, t: string, m: Match, behind: string)
    requires t != "" && LookAt(k, g, afterWord, t) == Seen(m)
    requires |MatchText(m, "")| <= |t| ==> behind == t[|MatchText(m, "")|..]
    ensures |behind| < |t| && t == MatchText(m, "") + behind && Fits(k, g, m) && !afterWord
    ensures Out(k, g, afterWord, t) == Replacement(m) + Out(k, g, false, behind)
  {
    SeenPieces(k, g, afterWord, t, m);
    ResultsCons(Replaced(m), Pieces(k, g, false, behind));
    var x := SeenFits(k, g, afterWord, t, m);
  }

  // A text and its rewritten form read alike.
  lemma {:induction false} RewrittenReadsAlike(k: string, g: Grammar, afterWord: bool, t: string)
    requires k != "" && WordBytes(k) && Proper(g)
    ensures ReadAlike(t, Out(k, g, afterWord, t))
    decreases |t|
  {
    if t != "" {
      match LookAt(k, g, afterWord, t)
      case Skip(n) =>
        FirstIsCopied(k, g, afterWord, t, n);
        RewrittenReadsAlike(k, g, IsWordByte(t[n - 1]), t[n..]);
        ReadAlikeAppend(t[..n], t[..n], t[n..], Out(k, g, IsWordByte(t[n - 1]), t[n..]));
        Cut(t, n);
      case Seen(m) =>
        SeenWithin(k, g, afterWord, t, m);
        var behind := t[|MatchText(m, "")|..];
        SeenSplits(k, g, afterWord, t, m, behind);
        MatchReads(k, g, m);
        RewrittenReadsAlike(k, g, false, behind);
        ReadAlikeAppend(MatchText(m, ""), Replacement(m), behind, Out(k, g, false, behind));
    }
  }

  // ---------------------------------------------------------------- what lies behind a barrier is not looked at

  lemma {:induction false} SpanWithin(p: char -> bool, z: string, rest: string)
    requires Span(p, z) < |z|
    ensures Span(p, z + rest) == Span(p, z)
  {
    assert (z + rest)[1..] == z[1..] + rest;
    if p(z[0]) { SpanWithin(p, z[1..], rest); }
  }

  predicate EndsWord(z: string) {
    z != "" && !IsWordByte(z[|z| - 1])
  }

  predicate StartsWord(t: string) {
    t != "" && IsLetter(t[0])
  }

  // What is put behind a text so that nothing before it runs on.
  predicate Barrier(z: string, u: string) {
    EndsWord(z) && (z[|z| - 1] == ')' || StartsWord(u))
  }

  lemma BarrierTail(z: string, u: string, n: nat)
    requires Barrier(z, u) && n < |z|
    ensures Barrier(z[n..], u) && (z + u)[n..] == z[n..] + u
  {
  }

  lemma BlanksStop(z: string, u: string)
    requires Barrier(z, u)
    ensures Span(IsBlank, z + u) == Span(IsBlank, z) < |z + u|
    ensures z[|z| - 1] == ')' ==> Span(IsBlank, z) < |z|
  {
    if Span(IsBlank, z) < |z| {
      SpanWithin(IsBlank, z, u);
    } else {
      SpanOf(IsBlank, z, u);
    }
  }

  lemma WordStops(p: Class, z: string, u: string)
    requires EndsWord(z)
    ensures Span((c: char) => In(p, c), z + u) == Span((c: char) => In(p, c), z) < |z|
  {
    var f := (c: char) => In(p, c);
    SpanWithin(f, z, u);
  }

  lemma ExtractStops(k: string, afterWord: bool, z: string, u: string)
    requires k != "" && WordBytes(k) && EndsWord(z)
    ensures IsExtract(k, afterWord, z + u) <==> |k| < |z| && IsExtract(k, afterWord, z)
    ensures IsExtract(k, afterWord, z + u) ==> (z + u)[|k|..] == z[|k|..] + u
  {
    var t := z + u;
    if IsExtract(k, afterWord, t) && |z| <= |k| {
      LowerIsWordByte(t[..|k|][|z| - 1], k[|z| - 1]);
      assert false;
    }
    if |k| < |z| { assert t[..|k|] == z[..|k|]; }
  }

  // The bracket behind the word does not depend on what stands behind the barrier.
  lemma BracketStops(k: string, afterWord: bool, z: string, u: string)
    requires k != "" && WordBytes(k) && Barrier(z, u)
    ensures BracketAt(k, afterWord, z + u) == BracketAt(k, afterWord, z)
    ensures BracketAt(k, afterWord, z).Some? ==> z[BracketAt(k, afterWord, z).value - 1] == '('
  {
    ExtractStops(k, afterWord, z, u);
    if IsExtract(k, afterWord, z + u) {
      BarrierTail(z, u, |k|);
      BlanksStop(z[|k|..], u);
    }
  }

  // ---------------------------------------------------------------- copied bytes are copied again

  lemma Behind(z: string, u: string, i: nat)
    requires i <= |z|
    ensures (z + u)[..i] == z[..i] && (z + u)[i..] == z[i..] + u
    ensures EndsWord(z) && i < |z| ==> EndsWord(z[i..])
  {
  }

  function BehindWord(same: bool, more: Look, blanks: string, w: string): Look {
    if same then WithWord(more, blanks, w) else Copy(|blanks| + |w|)
  }

  lemma WordsStop(g: Grammar, z: string, u: string, b: nat, y: string, n: nat)
    requires g.Needs? && Barrier(z, u) && b == Span(IsBlank, z) < |z| && y == z[b..]
    requires n == Span((c: char) => In(g.p, c), y)
    ensures n < |y| && EndsWord(y[n..])
    ensures LookFor(g, z + u) == BehindWord(SameWord(y[..n], g.word), LookFor(g.next, y[n..] + u), z[..b], y[..n])
  {
    BlanksStop(z, u);
    BarrierTail(z, u, b);
    WordStops(g.p, y, u);
    Behind(z, u, b);
    Behind(y, u, n);
    WordLookIn(g, z + u, b, z[..b], y[..n], y[n..] + u);
  }

  // In front of a word that is not blank: the words before it, or it reads into that word.
  lemma ReadsInto(g: Grammar, z: string, u: string)
    requires Span(IsBlank, z) == |z| && StartsWord(u)
    ensures LookFor(g, z + u).Copy? ==> LookFor(g, z + u).n > |z|
  {
    SpanOf(IsBlank, z, u);
    if g.Needs? {
      var n := Span((c: char) => In(g.p, c), u);
      assert n > 0;
    }
  }

  lemma CopyBehindWord(more: Look, blanks: string, w: string, look: Look)
    requires look == WithWord(more, blanks, w) && look.Copy?
    ensures more.Copy? && look.n == |blanks| + |w| + more.n
  {
  }

  // A copy that ends in front of a word does not depend on which word that is.
  lemma {:induction false} LookEndsBefore(g: Grammar, z: string, u: string, v: string)
    requires (z == "" || EndsWord(z)) && StartsWord(u) && StartsWord(v)
    requires LookFor(g, z + u).Copy? && LookFor(g, z + u).n <= |z|
    ensures LookFor(g, z + v) == LookFor(g, z + u)
  {
    var b := Span(IsBlank, z);
    if b == |z| {
      ReadsInto(g, z, u);
      assert false;
    } else if g.Needs? {
      var y := z[b..];
      var n := Span((c: char) => In(g.p, c), y);
      WordsStop(g, z, u, b, y, n);
      WordsStop(g, z, v, b, y, n);
      if SameWord(y[..n], g.word) {
        CopyBehindWord(LookFor(g.next, y[n..] + u), z[..b], y[..n], LookFor(g, z + u));
        LookEndsBefore(g.next, y[n..], u, v);
      }
    }
  }

  lemma SkipBehind(k: string, g: Grammar, afterWord: bool, t: string, i: nat)
    requires BracketAt(k, afterWord, t) == Some(i)
    ensures forall n: nat :: LookAt(k, g, afterWord, t) == Skip(n) <==>
              LookFor(g, t[i..]).Copy? && n == i + LookFor(g, t[i..]).n
  {
  }

  lemma SkipWithoutBracket(k: string, g: Grammar, afterWord: bool, t: string)
    requires BracketAt(k, afterWord, t).None?
    ensures LookAt(k, g, afterWord, t) == Skip(1)
  {
  }

  lemma SkipEndsBefore(k: string, g: Grammar, afterWord: bool, z: string, u: string, v: string, n: nat)
    requires k != "" && WordBytes(k) && EndsWord(z) && StartsWord(u) && StartsWord(v)
    requires LookAt(k, g, afterWord, z + u) == Skip(n) && n <= |z|
    ensures LookAt(k, g, afterWord, z + v) == Skip(n)
  {
    BracketStops(k, afterWord, z, u);
    BracketStops(k, afterWord, z, v);
    var at := BracketAt(k, afterWord, z);
    if at.None? {
      SkipWithoutBracket(k, g, afterWord, z + u);
      SkipWithoutBracket(k, g, afterWord, z + v);
    } else {
      var i := at.value;
      SkipBehind(k, g, afterWord, z + u, i);
      SkipBehind(k, g, afterWord, z + v, i);
      Behind(z, u, i);
      Behind(z, v, i);
      LookEndsBefore(g, z[i..], u, v);
    }
  }

  // A text up to its next match, what follows in it, and what follows in the rewritten text.
  ghost predicate IsStretch(k: string, g: Grammar, afterWord: bool, t: string, z: string, u: string, v: string) {
    && t == z + u && Out(k, g, afterWord, t) == z + v
    && ((u == "" && v == "") || (StartsWord(u) && StartsWord(v) && if z == "" then !afterWord else EndsWord(z)))
    && (t != "" && LookAt(k, g, afterWord, t).Skip? ==> LookAt(k, g, afterWord, t).n <= |z|)
  }

  lemma MatchHead(k: string, m: Match, rest: string)
    requires k != "" && IsLetter(k[0]) && SameWord(m.extract, k)
    ensures StartsWord(MatchText(m, "") + rest)
  {
    assert MatchText(m, "")[0] == m.extract[0];
  }

  lemma ReplacementHead(m: Match, rest: string)
    ensures StartsWord(Replacement(m) + rest)
  {
    ReplacementParts(m);
    assert NAME[0] == 'E';
  }

  lemma LonelyStretch(k: string, g: Grammar, t: string)
    requires StartsWord(t) && StartsWord(Out(k, g, false, t)) && LookAt(k, g, false, t).Seen?
    ensures IsStretch(k, g, false, t, "", t, Out(k, g, false, t))
  {
    assert "" + t == t && "" + Out(k, g, false, t) == Out(k, g, false, t);
  }

  lemma LongerStretch(k: string, g: Grammar, afterWord: bool, t: string, n: nat, z: string, u: string, v: string)
    requires 1 <= n <= |t| && LookAt(k, g, afterWord, t) == Skip(n)
    requires IsStretch(k, g, IsWordByte(t[n - 1]), t[n..], z, u, v)
    requires Out(k, g, afterWord, t) == t[..n] + Out(k, g, IsWordByte(t[n - 1]), t[n..])
    ensures IsStretch(k, g, afterWord, t, t[..n] + z, u, v)
  {
    Cut(t, n);
    Shift(t[..n], z, u);
    Shift(t[..n], z, v);
    assert z != "" ==> (t[..n] + z)[|t[..n] + z| - 1] == z[|z| - 1];
    assert z == "" ==> (t[..n] + z)[|t[..n] + z| - 1] == t[n - 1];
  }

  lemma {:induction false} StretchOf(k: string, g: Grammar, afterWord: bool, t: string) returns (z: string, u: string,
      v: string)
    requires k != "" && IsLetter(k[0])
    ensures IsStretch(k, g, afterWord, t, z, u, v)
    decreases |t|
  {
    if t == "" { return "", "", ""; }
    match LookAt(k, g, afterWord, t)
    case Skip(n) =>
      FirstIsCopied(k, g, afterWord, t, n);
      z, u, v := StretchOf(k, g, IsWordByte(t[n - 1]), t[n..]);
      LongerStretch(k, g, afterWord, t, n, z, u, v);
      z := t[..n] + z;
    case Seen(m) =>
      SeenWithin(k, g, afterWord, t, m);
      var behind := t[|MatchText(m, "")|..];
      SeenSplits(k, g, afterWord, t, m, behind);
      MatchHead(k, m, behind);
      ReplacementHead(m, Out(k, g, false, behind));
      LonelyStretch(k, g, t);
      return "", t, Out(k, g, afterWord, t);
  }

  // What the first pass skips, the second one skips.
  lemma SkippedAgain(k: string, g: Grammar, afterWord: bool, t: string, n: nat)
    requires k != "" && WordBytes(k) && IsLetter(k[0]) && t != "" && LookAt(k, g, afterWord, t) == Skip(n)
    ensures LookAt(k, g, afterWord, Out(k, g, afterWord, t)) == Skip(n)
  {
    var z, u, v := StretchOf(k, g, afterWord, t);
    SkipWithin(k, g, afterWord, t);
    if u == "" {
      assert z + u == z + v;
    } else {
      SkipEndsBefore(k, g, afterWord, z, u, v, n);
    }
  }

  // ---------------------------------------------------------------- inside a replaced expression

  // The same sight of two texts that are alike up to the barrier: found in both, or copied as far,
  // or copied to the end.
  predicate SameLook(a: Look, b: Look, n: nat, endA: nat, endB: nat) {
    match a
    case Found(_) => b.Found?
    case Copy(i) => if i < n then b == Copy(i) else i == endA && b == Copy(endB)
  }

  lemma ExprAlike(z: string, u: string, v: string)
    requires z != "" && z[|z| - 1] == ')' && ReadAlike(u, v)
    ensures SameLook(LookFor(Bracketed, z + u), LookFor(Bracketed, z + v), |z|, |z + u|, |z + v|)
  {
    var b := Span(IsBlank, z);
    BlanksStop(z, u);
    BlanksStop(z, v);
    BarrierTail(z, u, b);
    BarrierTail(z, v, b);
    EndsIffClosed(START, z[b..] + u);
    EndsIffClosed(START, z[b..] + v);
    ReadOnAppend(At(START), z[b..], u);
    ReadOnAppend(At(START), z[b..], v);
    StaysSound(At(START), z[b..]);
  }

  lemma BehindWordAlike(same: bool, a: Look, b: Look, n: nat, endA: nat, endB: nat, blanks: string, w: string)
    requires n > 0 && (same ==> SameLook(a, b, n, endA, endB))
    ensures var i := |blanks| + |w|;
            SameLook(BehindWord(same, a, blanks, w), BehindWord(same, b, blanks, w), i + n, i + endA, i + endB)
  {
  }

  lemma SameLast(z: string, y: string, x: string, b: nat, n: nat)
    requires b < |z| && y == z[b..] && n < |y| && x == y[n..]
    ensures x != "" && x[|x| - 1] == z[|z| - 1]
  {
  }

  // The words in front of the barrier, and what is looked at behind them.
  lemma WordsAlike(g: Grammar, z: string, u: string, v: string) returns (x: string, same: bool, blanks: string,
      w: string)
    requires g.Needs? && z != "" && z[|z| - 1] == ')'
    ensures x != "" && x[|x| - 1] == ')' && |z| == |blanks| + |w| + |x|
    ensures LookFor(g, z + u) == BehindWord(same, LookFor(g.next, x + u), blanks, w)
    ensures LookFor(g, z + v) == BehindWord(same, LookFor(g.next, x + v), blanks, w)
  {
    var b := Span(IsBlank, z);
    BlanksStop(z, u);
    var y := z[b..];
    var n := Span((c: char) => In(g.p, c), y);
    WordsStop(g, z, u, b, y, n);
    WordsStop(g, z, v, b, y, n);
    SameLast(z, y, y[n..], b, n);
    x, same, blanks, w := y[n..], SameWord(y[..n], g.word), z[..b], y[..n];
  }

  lemma {:induction false} LookAlike(g: Grammar, z: string, u: string, v: string)
    requires z != "" && z[|z| - 1] == ')' && ReadAlike(u, v)
    ensures SameLook(LookFor(g, z + u), LookFor(g, z + v), |z|, |z + u|, |z + v|)
    decreases g
  {
    if g.Bracketed? {
      ExprAlike(z, u, v);
    } else {
      var x, same, blanks, w := WordsAlike(g, z, u, v);
      LookAlike(g.next, x, u, v);
      BehindWordAlike(same, LookFor(g.next, x + u), LookFor(g.next, x + v), |x|, |x + u|, |x + v|, blanks, w);
    }
  }

  ghost predicate SameSight(a: Sight, b: Sight, n: nat, end: nat) {
    match a
    case Seen(_) => b.Seen?
    case Skip(i) => if i < n then b == Skip(i) else b == Skip(end)
  }

  lemma SightedAlike(a: Look, b: Look, at: nat, n: nat, endA: nat, endB: nat, extract: string, blanks: string)
    requires SameLook(a, b, n, endA, endB)
    ensures SameSight(Sighted(a, at, extract, blanks), Sighted(b, at, extract, blanks), at + n, at + endB)
  {
  }

  lemma SightAlike(k: string, g: Grammar, afterWord: bool, z: string, u: string, v: string)
    requires k != "" && WordBytes(k) && |z| > 1 && z[|z| - 1] == ')' && ReadAlike(u, v)
    ensures SameSight(LookAt(k, g, afterWord, z + u), LookAt(k, g, afterWord, z + v), |z|, |z + v|)
  {
    BracketStops(k, afterWord, z, u);
    BracketStops(k, afterWord, z, v);
    var at := BracketAt(k, afterWord, z);
    if at.Some? {
      SightBehindBracket(k, g, afterWord, z, u, v, at.value);
    }
  }

  lemma BehindBracket(z: string, u: string, n: nat, i: nat)
    requires n < i <= |z|
    ensures (z + u)[i..] == z[i..] + u && (z + u)[..n] == z[..n] && (z + u)[n..i - 1] == z[n..i - 1]
  {
  }

  lemma SightBehindBracket(k: string, g: Grammar, afterWord: bool, z: string, u: string, v: string, i: nat)
    requires i < |z| && z[|z| - 1] == ')' && ReadAlike(u, v)
    requires BracketAt(k, afterWord, z + u) == Some(i) && BracketAt(k, afterWord, z + v) == Some(i)
    ensures SameSight(LookAt(k, g, afterWord, z + u), LookAt(k, g, afterWord, z + v), |z|, |z + v|)
  {
    var x := z[i..];
    var extract, blanks := z[..|k|], z[|k|..i - 1];
    BehindBracket(z, u, |k|, i);
    BehindBracket(z, v, |k|, i);
    SightIsSighted(k, g, afterWord, z + u, i, x + u);
    SightIsSighted(k, g, afterWord, z + v, i, x + v);
    LookAlike(g, x, u, v);
    SightedAlike(LookFor(g, x + u), LookFor(g, x + v), i, |x|, |x + u|, |x + v|, extract, blanks);
  }

  // ---------------------------------------------------------------- when a second pass changes nothing

  // Looking inside an expression as the rewriter looks at a text: it meets no match before the end,
  // it runs out of the text behind an open bracket, or it sees a match.
  datatype Outcome = Clear | RunsOut | Hit

  function Within(k: string, g: Grammar, afterWord: bool, e: string, rest: string): Outcome
    decreases |e|
  {
    if e == "" then Clear else
      match LookAt(k, g, afterWord, e + rest)
      case Seen(_) => Hit
      case Skip(n) =>
        SkipWithin(k, g, afterWord, e + rest);
        if n > |e| then RunsOut else Within(k, g, IsWordByte(e[n - 1]), e[n..], rest)
  }

  // Inside a replaced expression stands another match, and the rewriter would not run out before it.
  predicate Nested(k: string, g: Grammar, afterWord: bool, t: string)
    decreases |t|
  {
    if t == "" then false else
      match LookAt(k, g, afterWord, t)
      case Skip(n) =>
        SkipWithin(k, g, afterWord, t);
        Nested(k, g, IsWordByte(t[n - 1]), t[n..])
      case Seen(m) =>
        SeenWithin(k, g, afterWord, t, m);
        var behind := t[|MatchText(m, "")|..];
        var inside := Within(k, g, false, ExprOf(m.tail), ")" + behind);
        inside == Hit || (inside == Clear && Nested(k, g, false, behind))
  }

  lemma SkipCopied(k: string, g: Grammar, afterWord: bool, t: string, n: nat)
    requires t != "" && LookAt(k, g, afterWord, t) == Skip(n)
    ensures 1 <= n <= |t|
    ensures AllCopied(Pieces(k, g, afterWord, t)) <==> AllCopied(Pieces(k, g, IsWordByte(t[n - 1]), t[n..]))
  {
    SkipPieces(k, g, afterWord, t, n);
    CopiedCons(Copied(t[..n]), Pieces(k, g, IsWordByte(t[n - 1]), t[n..]));
  }

  lemma SeenNotCopied(k: string, g: Grammar, afterWord: bool, t: string)
    requires t != "" && LookAt(k, g, afterWord, t).Seen?
    ensures !AllCopied(Pieces(k, g, afterWord, t))
  {
    SeenPieces(k, g, afterWord, t, LookAt(k, g, afterWord, t).m);
  }

  lemma ByteCopied(k: string, g: Grammar, afterWord: bool, c: char, t: string)
    requires !IsExtract(k, afterWord, [c] + t)
    ensures AllCopied(Pieces(k, g, afterWord, [c] + t)) <==> AllCopied(Pieces(k, g, IsWordByte(c), t))
  {
    SkipCopied(k, g, afterWord, [c] + t, 1);
    assert ([c] + t)[1..] == t;
  }

  lemma {:induction false} WordCopied(k: string, g: Grammar, w: string, t: string)
    requires WordBytes(w)
    ensures AllCopied(Pieces(k, g, true, w + t)) <==> AllCopied(Pieces(k, g, true, t))
  {
    if w == "" {
      assert w + t == t;
    } else {
      assert w + t == [w[0]] + (w[1..] + t);
      ByteCopied(k, g, true, w[0], w[1..] + t);
      WordCopied(k, g, w[1..], t);
    }
  }

  lemma NotAWord(k: string, afterWord: bool, c: char, t: string)
    requires k != "" && WordBytes(k) && !IsWordByte(c)
    ensures !IsExtract(k, afterWord, [c] + t)
  {
    if IsExtract(k, afterWord, [c] + t) {
      LowerIsWordByte(c, k[0]);
      assert false;
    }
  }

  // A name that is longer than the word, then a bracket.
  lemma NameCopied(k: string, g: Grammar, name: string, c: char, w: string, t: string)
    requires name == [c] + w && k != "" && WordBytes(k) && IsWordByte(c) && WordBytes(w) && |w| >= |k|
    ensures AllCopied(Pieces(k, g, false, name + ("(" + t))) <==> AllCopied(Pieces(k, g, false, t))
  {
    Shift([c], w, "(" + t);
    assert ([c] + (w + ("(" + t)))[|k|] == w[|k| - 1];
    ByteCopied(k, g, false, c, w + ("(" + t));
    WordCopied(k, g, w, "(" + t);
    NotAWord(k, true, '(', t);
    ByteCopied(k, g, true, '(', t);
  }

  lemma SightsInside(k: string, g: Grammar, afterWord: bool, e: string, u: string, v: string)
    requires k != "" && WordBytes(k) && ReadAlike(u, v) && e != ""
    ensures SameSight(LookAt(k, g, afterWord, e + (")" + u)), LookAt(k, g, afterWord, e + (")" + v)), |e| + 1,
        |e| + 1 + |v|)
  {
    Shift(e, ")", u);
    Shift(e, ")", v);
    assert (e + ")")[|e|] == ')';
    SightAlike(k, g, afterWord, e + ")", u, v);
  }

  lemma CopiedInside(k: string, g: Grammar, afterWord: bool, e: string, rest: string, n: nat)
    requires e != "" && LookAt(k, g, afterWord, e + rest) == Skip(n)
    ensures n == |e + rest| ==> AllCopied(Pieces(k, g, afterWord, e + rest))
    ensures 0 < n <= |e| ==>
      (AllCopied(Pieces(k, g, afterWord, e + rest)) <==> AllCopied(Pieces(k, g, IsWordByte(e[n - 1]), e[n..] + rest)))
  {
    SkipCopied(k, g, afterWord, e + rest, n);
    if n <= |e| { Behind(e, rest, n); }
  }

  // What the rewriter does inside an expression that it has put out.
  ghost predicate SeesSame(k: string, g: Grammar, afterWord: bool, e: string, u: string, v: string) {
    AllCopied(Pieces(k, g, afterWord, e + (")" + v))) <==>
    var inside := Within(k, g, afterWord, e, ")" + u);
    inside == RunsOut || (inside == Clear && AllCopied(Pieces(k, g, false, v)))
  }

  lemma EndSeesSame(k: string, g: Grammar, afterWord: bool, u: string, v: string)
    requires k != "" && WordBytes(k)
    ensures SeesSame(k, g, afterWord, "", u, v)
  {
    assert "" + (")" + v) == ")" + v;
    NotAWord(k, afterWord, ')', v);
    ByteCopied(k, g, afterWord, ')', v);
  }

  lemma HitSeesSame(k: string, g: Grammar, afterWord: bool, e: string, u: string, v: string)
    requires e != "" && LookAt(k, g, afterWord, e + (")" + u)).Seen? && LookAt(k, g, afterWord, e + (")" + v)).Seen?
    ensures SeesSame(k, g, afterWord, e, u, v)
  {
    SeenNotCopied(k, g, afterWord, e + (")" + v));
  }

  lemma SkipSeesSame(k: string, g: Grammar, afterWord: bool, e: string, u: string, v: string, n: nat)
    requires 0 < n <= |e| && SeesSame(k, g, IsWordByte(e[n - 1]), e[n..], u, v)
    requires LookAt(k, g, afterWord, e + (")" + u)) == Skip(n) && LookAt(k, g, afterWord, e + (")" + v)) == Skip(n)
    ensures SeesSame(k, g, afterWord, e, u, v)
  {
    CopiedInside(k, g, afterWord, e, ")" + v, n);
  }

  lemma RunsOutSeesSame(k: string, g: Grammar, afterWord: bool, e: string, u: string, v: string, n: nat)
    requires n > |e| > 0 && LookAt(k, g, afterWord, e + (")" + u)) == Skip(n)
    requires LookAt(k, g, afterWord, e + (")" + v)) == Skip(|e| + 1 + |v|)
    ensures SeesSame(k, g, afterWord, e, u, v)
  {
    CopiedInside(k, g, afterWord, e, ")" + v, |e| + 1 + |v|);
  }

  lemma {:induction false} SeesInside(k: string, g: Grammar, afterWord: bool, e: string, u: string, v: string)
    requires k != "" && WordBytes(k) && ReadAlike(u, v)
    ensures SeesSame(k, g, afterWord, e, u, v)
    decreases |e|
  {
    if e == "" {
      EndSeesSame(k, g, afterWord, u, v);
    } else {
      SightsInside(k, g, afterWord, e, u, v);
      match LookAt(k, g, afterWord, e + (")" + u))
      case Seen(_) => HitSeesSame(k, g, afterWord, e, u, v);
      case Skip(n) =>
        SkipWithin(k, g, afterWord, e + (")" + u));
        if n > |e| {
          RunsOutSeesSame(k, g, afterWord, e, u, v, n);
        } else {
          SeesInside(k, g, IsWordByte(e[n - 1]), e[n..], u, v);
          SkipSeesSame(k, g, afterWord, e, u, v, n);
        }
    }
  }

  lemma NameSplits()
    ensures NAME == ['E'] + "XTRACT_YEAR_MONTH"
  {
  }

  lemma NameAgain(t: string)
    ensures AllCopied(Pieces(EXTRACT, GRAMMAR, false, NAME + ("(" + t)))
       <==> AllCopied(Pieces(EXTRACT, GRAMMAR, false, t))
  {
    ExtractIsWord();
    RestIsWord();
    NameSplits();
    NameCopied(EXTRACT, GRAMMAR, NAME, 'E', "XTRACT_YEAR_MONTH", t);
  }

  lemma ExtractIsWord()
    ensures WordBytes(EXTRACT) && EXTRACT != "" && IsLetter(EXTRACT[0])
  {
    FewBytes("EXTR");
    FewBytes("ACT");
    BytesAppend("EXTR", "ACT");
    assert "EXTR" + "ACT" == EXTRACT;
  }

  lemma ReplacementThen(m: Match, v: string)
    ensures Replacement(m) + v == NAME + ("(" + (ExprOf(m.tail) + (")" + v)))
  {
    var e := ExprOf(m.tail);
    ReplacementParts(m);
    assert NAME + ("(" + "") == NAME + "(";
    Shift(NAME + "(", e + ")", v);
    Shift(e, ")", v);
    Shift(NAME, "(", e + (")" + v));
  }

  lemma NestedSkips(k: string, g: Grammar, afterWord: bool, t: string, n: nat)
    requires t != "" && LookAt(k, g, afterWord, t) == Skip(n) && 0 < n <= |t|
    ensures Nested(k, g, afterWord, t) <==> Nested(k, g, IsWordByte(t[n - 1]), t[n..])
  {
  }

  lemma SkipAgain(k: string, g: Grammar, afterWord: bool, t: string, n: nat)
    requires k != "" && WordBytes(k) && IsLetter(k[0]) && t != "" && LookAt(k, g, afterWord, t) == Skip(n)
    ensures 0 < n <= |t|
    ensures AllCopied(Pieces(k, g, afterWord, Out(k, g, afterWord, t))) <==>
      AllCopied(Pieces(k, g, IsWordByte(t[n - 1]), Out(k, g, IsWordByte(t[n - 1]), t[n..])))
  {
    var out := Out(k, g, afterWord, t);
    FirstIsCopied(k, g, afterWord, t, n);
    SkippedAgain(k, g, afterWord, t, n);
    SkipCopied(k, g, afterWord, out, n);
    assert out[n..] == Out(k, g, IsWordByte(t[n - 1]), t[n..]) && out[n - 1] == t[n - 1];
  }

  lemma SeenAgain(k: string, g: Grammar, m: Match, behind: string, v: string)
    requires k == EXTRACT && g == GRAMMAR && ReadAlike(behind, v)
    ensures AllCopied(Pieces(k, g, false, Replacement(m) + v)) <==>
      var inside := Within(k, g, false, ExprOf(m.tail), ")" + behind);
      inside == RunsOut || (inside == Clear && AllCopied(Pieces(k, g, false, v)))
  {
    ExtractIsWord();
    ReplacementThen(m, v);
    NameAgain(ExprOf(m.tail) + (")" + v));
    SeesInside(k, g, false, ExprOf(m.tail), behind, v);
  }

  lemma NestedBehind(k: string, g: Grammar, afterWord: bool, t: string, m: Match, behind: string)
    requires t != "" && LookAt(k, g, afterWord, t) == Seen(m)
    requires |MatchText(m, "")| <= |t| ==> behind == t[|MatchText(m, "")|..]
    ensures Nested(k, g, afterWord, t) <==>
      var inside := Within(k, g, false, ExprOf(m.tail), ")" + behind);
      inside == Hit || (inside == Clear && Nested(k, g, false, behind))
  {
    SeenWithin(k, g, afterWord, t, m);
  }

  lemma {:induction false} SecondPassSees(k: string, g: Grammar, afterWord: bool, t: string)
    requires k == EXTRACT && g == GRAMMAR
    ensures AllCopied(Pieces(k, g, afterWord, Out(k, g, afterWord, t))) <==> !Nested(k, g, afterWord, t)
    decreases |t|
  {
    ExtractIsWord();
    if t != "" {
      match LookAt(k, g, afterWord, t)
      case Skip(n) =>
        SkipAgain(k, g, afterWord, t, n);
        NestedSkips(k, g, afterWord, t, n);
        SecondPassSees(k, g, IsWordByte(t[n - 1]), t[n..]);
      case Seen(m) =>
        SeenWithin(k, g, afterWord, t, m);
        var behind := t[|MatchText(m, "")|..];
        SeenSplits(k, g, afterWord, t, m, behind);
        NestedBehind(k, g, afterWord, t, m, behind);
        GrammarIsProper();
        RewrittenReadsAlike(k, g, false, behind);
        SeenAgain(k, g, m, behind, Out(k, g, false, behind));
        SecondPassSees(k, g, false, behind);
    }
  }

  // A second pass changes nothing exactly when no match is nested in a replaced one.
  lemma SecondPassIsIdle(s: string)
    ensures Extracted(Extracted(s)) == Extracted(s) <==> !Nested(EXTRACT, GRAMMAR, false, s)
  {
    SecondPassSees(EXTRACT, GRAMMAR, false, s);
    UnchangedIffCopied(Extracted(s));
  }

  // ---------------------------------------------------------------- one pass is enough

  // Nowhere in the expression does the word stand as a whole word.
  predicate WordFree(k: string, afterWord: bool, e: string)
    decreases |e|
  {
    e == "" || (!IsExtract(k, afterWord, e) && WordFree(k, IsWordByte(e[0]), e[1..]))
  }

  lemma NoExtractInside(k: string, afterWord: bool, e: string, rest: string)
    requires k != "" && WordBytes(k) && e != "" && !IsExtract(k, afterWord, e)
    ensures !IsExtract(k, afterWord, e + (")" + rest))
  {
    var z := e + ")";
    Shift(e, ")", rest);
    assert EndsWord(z);
    ExtractStops(k, afterWord, z, rest);
    if |k| < |z| { assert z[..|k|] == e[..|k|]; }
  }

  lemma SkipOneInside(k: string, g: Grammar, afterWord: bool, e: string, rest: string)
    requires e != "" && !IsExtract(k, afterWord, e + rest)
    ensures Within(k, g, afterWord, e, rest) == Within(k, g, IsWordByte(e[0]), e[1..], rest)
  {
    assert LookAt(k, g, afterWord, e + rest) == Skip(1);
  }

  lemma {:induction false} FreeIsClear(k: string, g: Grammar, afterWord: bool, e: string, rest: string)
    requires k != "" && WordBytes(k) && WordFree(k, afterWord, e)
    ensures Within(k, g, afterWord, e, ")" + rest) == Clear
    decreases |e|
  {
    if e != "" {
      NoExtractInside(k, afterWord, e, rest);
      SkipOneInside(k, g, afterWord, e, ")" + rest);
      FreeIsClear(k, g, IsWordByte(e[0]), e[1..], rest);
    }
  }

  // No replaced expression holds the word.
  predicate AllFree(k: string, ps: seq<Piece>) {
    forall i :: 0 <= i < |ps| && ps[i].Replaced? ==> WordFree(k, false, ExprOf(ps[i].m.tail))
  }

  lemma AllFreeTail(k: string, p: Piece, ps: seq<Piece>)
    requires AllFree(k, [p] + ps)
    ensures AllFree(k, ps) && (p.Replaced? ==> WordFree(k, false, ExprOf(p.m.tail)))
  {
    assert ([p] + ps)[0] == p;
    forall i | 0 <= i < |ps| && ps[i].Replaced? ensures WordFree(k, false, ExprOf(ps[i].m.tail)) {
      assert ([p] + ps)[i + 1] == ps[i];
    }
  }

  lemma {:induction false} FreeIsNotNested(k: string, g: Grammar, afterWord: bool, t: string)
    requires k != "" && WordBytes(k) && AllFree(k, Pieces(k, g, afterWord, t))
    ensures !Nested(k, g, afterWord, t)
    decreases |t|
  {
    if t != "" {
      match LookAt(k, g, afterWord, t)
      case Skip(n) =>
        SkipPieces(k, g, afterWord, t, n);
        AllFreeTail(k, Copied(t[..n]), Pieces(k, g, IsWordByte(t[n - 1]), t[n..]));
        FreeIsNotNested(k, g, IsWordByte(t[n - 1]), t[n..]);
        NestedSkips(k, g, afterWord, t, n);
      case Seen(m) =>
        SeenPieces(k, g, afterWord, t, m);
        var behind := t[|MatchText(m, "")|..];
        AllFreeTail(k, Replaced(m), Pieces(k, g, false, behind));
        FreeIsClear(k, g, false, ExprOf(m.tail), behind);
        FreeIsNotNested(k, g, false, behind);
        NestedBehind(k, g, afterWord, t, m, behind);
    }
  }

  // One pass is enough wherever no replaced expression holds the word itself.
  lemma OnePassIsEnough(s: string)
    requires AllFree(EXTRACT, Pieces(EXTRACT, GRAMMAR, false, s))
    ensures Extracted(Extracted(s)) == Extracted(s)
  {
    ExtractIsWord();
    FreeIsNotNested(EXTRACT, GRAMMAR, false, s);
    SecondPassIsIdle(s);
  }

  // ---------------------------------------------------------------- two passes are needed

  // Of two nested matches one pass replaces the outer one, the next the inner.
  lemma NestedTakesTwoPasses(outer: Match, inner: Match)
    requires Fits(EXTRACT, GRAMMAR, outer) && Fits(EXTRACT, GRAMMAR, inner)
    requires ExprOf(outer.tail) == MatchText(inner, "")
    ensures Extracted(MatchText(outer, "")) == "EXTRACT_YEAR_MONTH(" + (MatchText(inner, "") + ")")
    ensures Extracted(Extracted(MatchText(outer, ""))) == "EXTRACT_YEAR_MONTH(" + (Replacement(inner) + ")")
    ensures Extracted(Extracted(MatchText(outer, ""))) != Extracted(MatchText(outer, ""))
  {
    GrammarIsProper();
    MatchThenRest(EXTRACT, GRAMMAR, outer, "");
    assert Replacement(outer) + "" == Replacement(outer);
    NameIsCopied(MatchText(inner, "") + ")");
    MatchTextAppend(inner, ")");
    MatchThenRest(EXTRACT, GRAMMAR, inner, ")");
    ExtractRewriter.ByteIsCopied(EXTRACT, GRAMMAR, false, ')', "");
    assert [')'] + "" == ")";
    ReplacementIsShorter(inner);
  }

  lemma {:induction false} LeadsIffReads(p: Place, e: string, to: Place)
    ensures Leads(p, e, to) <==> ReadOn(At(p), e) == At(to)
    decreases |e|
  {
    if e != "" {
      if Escapes(p, e[0]) {
        if |e| > 1 {
          assert e[1..][1..] == e[2..];
          LeadsIffReads(p, e[2..], to);
        }
      } else if Closes(p, e[0]) {
        ClosedStays(e[1..]);
      } else {
        LeadsIffReads(Step(p, e[0]), e[1..], to);
      }
    }
  }

  function Deeper(p: Place): Place {
    p.(depth := p.depth + 1)
  }

  lemma {:induction false} LeadsDeeper(p: Place, e: string, to: Place)
    requires Leads(p, e, to)
    ensures Leads(Deeper(p), e, Deeper(to))
    decreases |e|
  {
    if e != "" {
      if Escapes(p, e[0]) {
        LeadsDeeper(p, e[2..], to);
      } else {
        LeadsDeeper(Step(p, e[0]), e[1..], to);
      }
    }
  }

  lemma {:induction false} ExprIsBalanced(g: Grammar, x: Tail)
    requires TailFits(g, x)
    ensures Balanced(ExprOf(x))
  {
    if x.Keyword? { ExprIsBalanced(g.next, x.rest); }
  }

  lemma NameOpens()
    ensures ReadOn(At(START), NAME + ("(" + "")) == At(Deeper(START))
  {
    NameIsWord();
    ReadHeader(At(START), NAME, "");
  }

  lemma ExprThenBracket(e: string)
    requires Balanced(e)
    ensures ReadOn(At(Deeper(START)), e + ")") == At(START)
  {
    LeadsDeeper(START, e, START);
    LeadsIffReads(Deeper(START), e, Deeper(START));
    ReadOnAppend(At(Deeper(START)), e, ")");
    assert ReadOn(At(Deeper(START)), ")") == At(START);
  }

  // A match can itself stand in a bracket.
  lemma MatchIsBalanced(m: Match)
    requires Fits(EXTRACT, GRAMMAR, m)
    ensures Balanced(MatchText(m, ""))
  {
    GrammarIsProper();
    ExtractIsWord();
    MatchReads(EXTRACT, GRAMMAR, m);
    ReplacementParts(m);
    NameOpens();
    ReadOnAppend(At(START), NAME + ("(" + ""), ExprOf(m.tail) + ")");
    ExprIsBalanced(GRAMMAR, m.tail);
    ExprThenBracket(ExprOf(m.tail));
    LeadsIffReads(START, MatchText(m, ""), START);
  }

  // EXTRACT(YEAR_MONTH FROM e)
  function Extracting(e: string): Match {
    Match(EXTRACT, "", Keyword("", "YEAR_MONTH", Keyword(" ", "FROM", Expr(" ", e))))
  }

  lemma ExtractingFits(e: string)
    requires Balanced(e) && (e != "" ==> !IsBlank(e[0]))
    ensures Fits(EXTRACT, GRAMMAR, Extracting(e)) && ExprOf(Extracting(e).tail) == e
  {
    var x := Expr(" ", e);
    var from := Keyword(" ", "FROM", x);
    assert TailText(x, "")[0] == ' ' && TailText(from, "")[0] == ' ' && ExprOf(from) == e;
    KeywordFits(Letter, "FROM", Bracketed, " ", "FROM", x, "");
    KeywordFits(WordByte, "YEAR_MONTH", Needs(Letter, "FROM", Bracketed), "", "YEAR_MONTH", from, "");
  }

  // Every match can be nested in another one, and then one pass is not enough.
  lemma EveryMatchNests(inner: Match)
    requires Fits(EXTRACT, GRAMMAR, inner)
    ensures var s := MatchText(Extracting(MatchText(inner, "")), "");
            Extracted(Extracted(s)) != Extracted(s)
  {
    var e := MatchText(inner, "");
    MatchIsBalanced(inner);
    ExtractIsWord();
    MatchHead(EXTRACT, inner, "");
    assert e + "" == e;
    ExtractingFits(e);
    NestedTakesTwoPasses(Extracting(e), inner);
  }

  lemma Glue(a: string, b: string, c: string, y: string)
    requires a + b == c
    ensures a + (b + y) == c + y
  {
    Shift(a, b, y);
  }

  lemma FromText(from: Tail, e: string)
    requires from == Keyword(" ", "FROM", Expr(" ", e))
    ensures TailText(from, "") == " FROM " + (e + ")")
  {
    var y := e + ")";
    assert ")" + "" == ")";
    Glue("FROM", " ", "FROM ", y);
    Glue(" ", "FROM ", " FROM ", y);
    assert TailText(Expr(" ", e), "") == " " + y;
  }

  lemma FieldText(field: Tail, y: string)
    requires field.Keyword? && field.blanks == "" && field.word == "YEAR_MONTH"
    requires TailText(field.rest, "") == " FROM " + y
    ensures TailText(field, "") == "YEAR_MONTH FROM " + y
  {
    Glue("YEAR_MONTH", " FROM ", "YEAR_MONTH FROM ", y);
    Glue("", "YEAR_MONTH FROM ", "YEAR_MONTH FROM ", y);
  }

  lemma HeadWord()
    ensures "EXTRACT" + "(YEAR_MONTH FROM " == "EXTRACT(YEAR_MONTH FROM "
  {
  }

  lemma HeadText(m: Match, k: string, head: string, y: string)
    requires m.extract == k && m.blanks == "" && TailText(m.tail, "") == "YEAR_MONTH FROM " + y
    requires k + "(YEAR_MONTH FROM " == head
    ensures MatchText(m, "") == head + y
  {
    Glue("(", "YEAR_MONTH FROM ", "(YEAR_MONTH FROM ", y);
    Glue("", "(YEAR_MONTH FROM ", "(YEAR_MONTH FROM ", y);
    Glue(k, "(YEAR_MONTH FROM ", head, y);
  }

  lemma ExtractingText(e: string)
    ensures MatchText(Extracting(e), "") == "EXTRACT(YEAR_MONTH FROM " + (e + ")")
  {
    var field := Extracting(e).tail;
    FromText(field.rest, e);
    FieldText(field, e + ")");
    HeadWord();
    HeadText(Extracting(e), EXTRACT, "EXTRACT(YEAR_MONTH FROM ", e + ")");
  }

  lemma OneDate()
    ensures MatchText(Extracting("d"), "") == "EXTRACT(YEAR_MONTH FROM d)"
  {
    ExtractingText("d");
    assert "d" + ")" == "d)";
    assert "EXTRACT(YEAR_MONTH FROM " + "d)" == "EXTRACT(YEAR_MONTH FROM d)";
  }

  lemma DateFits()
    ensures Fits(EXTRACT, GRAMMAR, Extracting("d"))
  {
    assert Balanced("d");
    ExtractingFits("d");
  }

  // Such a text.
  lemma TwoPasses(s: string)
    requires s == "EXTRACT(YEAR_MONTH FROM " + ("EXTRACT(YEAR_MONTH FROM d)" + ")")
    ensures Extracted(Extracted(s)) != Extracted(s)
  {
    DateFits();
    EveryMatchNests(Extracting("d"));
    OneDate();
    ExtractingText(MatchText(Extracting("d"), ""));
  }
}
