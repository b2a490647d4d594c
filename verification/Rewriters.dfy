/** The keyword rewriters that run before the SQL parser: HOUR_MINUTE becomes HOUR TO MINUTE,
    DISTINCTROW becomes DISTINCT and SQL_BIG_RESULT goes away, outside quotes and only as whole words.
    A char stands for one byte; every byte that matters here is ASCII. */
module Rewriters {
  import opened Characters
  import opened Wrappers

  // ---------------------------------------------------------------- quoted segments, words, the rest

  // A piece of quoted text: a byte, a backslash with the byte it protects, or a doubled quote.
  datatype Unit = Plain(c: char) | Escaped(c: char) | Doubled

  datatype Token = Quoted(quote: char, units: seq<Unit>, closed: bool) | Word(text: string) | Other(c: char)

  predicate IsWordByte(c: char) {
    'a' <= c <= 'z' || 'A' <= c <= 'Z' || '0' <= c <= '9' || c == '_'
  }

  function Lower(c: char): char {
    if 'A' <= c <= 'Z' then c - 'A' + 'a' else c
  }

  predicate SameWord(a: string, b: string) {
    |a| == |b| && forall i :: 0 <= i < |a| ==> Lower(a[i]) == Lower(b[i])
  }

  // What follows an opening quote: its units, whether it closes, and the text after it.
  datatype Scan = Scan(units: seq<Unit>, closed: bool, rest: string) {
    function After(u: Unit): Scan {
      Scan([u] + units, closed, rest)
    }
  }

  function ScanQuote(q: char, s: string): (r: Scan)
    ensures |r.rest| <= |s|
  {
    if s == "" then Scan([], false, "")
    else if q != '`' && s[0] == '\\' && |s| > 1 then ScanQuote(q, s[2..]).After(Escaped(s[1]))
    else if s[0] != q then ScanQuote(q, s[1..]).After(Plain(s[0]))
    else if |s| > 1 && s[1] == q then ScanQuote(q, s[2..]).After(Doubled)
    else Scan([], true, s[1..])
  }

  function WordLength(s: string): (n: nat)
    ensures n <= |s|
    ensures forall i :: 0 <= i < n ==> IsWordByte(s[i])
    ensures n < |s| ==> !IsWordByte(s[n])
  {
    if s != "" && IsWordByte(s[0]) then 1 + WordLength(s[1..]) else 0
  }

  function Lex(s: string): seq<Token>
    decreases |s|
  {
    if s == "" then []
    else if IsQuote(s[0]) then
      var scan := ScanQuote(s[0], s[1..]);
      [Quoted(s[0], scan.units, scan.closed)] + Lex(scan.rest)
    else if IsWordByte(s[0]) then [Word(s[..WordLength(s)])] + Lex(s[WordLength(s)..])
    else [Other(s[0])] + Lex(s[1..])
  }

  function UnitText(q: char, u: Unit): string {
    match u
    case Plain(c) => [c]
    case Escaped(c) => ['\\', c]
    case Doubled => [q, q]
  }

  function UnitsText(q: char, units: seq<Unit>): string {
    if units == [] then "" else UnitText(q, units[0]) + UnitsText(q, units[1..])
  }

  function Closing(q: char, closed: bool): string {
    if closed then [q] else ""
  }

  function TokenText(t: Token): string {
    match t
    case Quoted(q, units, closed) => [q] + (UnitsText(q, units) + Closing(q, closed))
    case Word(text) => text
    case Other(c) => [c]
  }

  function Print(ts: seq<Token>): string {
    if ts == [] then "" else TokenText(ts[0]) + Print(ts[1..])
  }

  // ---------------------------------------------------------------- which token lists are a reading of a text

  predicate UnitFits(q: char, u: Unit, last: bool, closed: bool) {
    match u
    case Plain(c) => c != q && (q == '`' || c != '\\' || (last && !closed))
    case Escaped(_) => q != '`'
    case Doubled => true
  }

  predicate UnitsFit(q: char, units: seq<Unit>, closed: bool) {
    forall i :: 0 <= i < |units| ==> UnitFits(q, units[i], i == |units| - 1, closed)
  }

  predicate TokenFits(t: Token) {
    match t
    case Quoted(q, units, closed) => IsQuote(q) && UnitsFit(q, units, closed)
    case Word(text) => text != "" && forall i :: 0 <= i < |text| ==> IsWordByte(text[i])
    case Other(c) => !IsQuote(c) && !IsWordByte(c)
  }

  // Words are whole, and only the end of the text ends an open quote.
  predicate Follows(t: Token, rest: seq<Token>) {
    match t
    case Quoted(_, _, closed) => closed || rest == []
    case Word(_) => rest == [] || !rest[0].Word?
    case Other(_) => true
  }

  predicate Loose(ts: seq<Token>) {
    ts != [] ==> TokenFits(ts[0]) && Follows(ts[0], ts[1..]) && Loose(ts[1..])
  }

  // Two segments in the same quotes never touch: they would read as one with a doubled quote.
  predicate Touches(t: Token, rest: seq<Token>) {
    t.Quoted? && rest != [] && rest[0].Quoted? && rest[0].quote == t.quote
  }

  predicate Separated(ts: seq<Token>) {
    ts != [] ==> TokenFits(ts[0]) && Follows(ts[0], ts[1..]) && !Touches(ts[0], ts[1..]) && Separated(ts[1..])
  }

  lemma {:induction false} ScanFits(q: char, s: string)
    ensures UnitsFit(q, ScanQuote(q, s).units, ScanQuote(q, s).closed)
    ensures ScanQuote(q, s).closed ==> ScanQuote(q, s).rest == "" || ScanQuote(q, s).rest[0] != q
    ensures !ScanQuote(q, s).closed ==> ScanQuote(q, s).rest == ""
    decreases |s|
  {
    if s != "" {
      if q != '`' && s[0] == '\\' && |s| > 1 {
        ScanFits(q, s[2..]);
      } else if s[0] != q {
        ScanFits(q, s[1..]);
        if s[0] == '\\' && q != '`' { assert s[1..] == ""; }
      } else if |s| > 1 && s[1] == q {
        ScanFits(q, s[2..]);
      }
    }
  }

  lemma {:induction false} ScanPrints(q: char, s: string)
    ensures UnitsText(q, ScanQuote(q, s).units) + Closing(q, ScanQuote(q, s).closed) + ScanQuote(q, s).rest == s
    decreases |s|
  {
    var scan := ScanQuote(q, s);
    if s != "" {
      if q != '`' && s[0] == '\\' && |s| > 1 {
        ScanPrints(q, s[2..]);
        PrependUnit(q, Escaped(s[1]), ScanQuote(q, s[2..]), s[2..]);
        assert s == ['\\', s[1]] + s[2..];
      } else if s[0] != q {
        ScanPrints(q, s[1..]);
        PrependUnit(q, Plain(s[0]), ScanQuote(q, s[1..]), s[1..]);
        assert s == [s[0]] + s[1..];
      } else if |s| > 1 && s[1] == q {
        ScanPrints(q, s[2..]);
        PrependUnit(q, Doubled, ScanQuote(q, s[2..]), s[2..]);
        assert s == [q, q] + s[2..];
      }
    }
  }

  lemma PrependUnit(q: char, u: Unit, scan: Scan, t: string)
    requires UnitsText(q, scan.units) + Closing(q, scan.closed) + scan.rest == t
    ensures UnitsText(q, scan.After(u).units) + Closing(q, scan.closed) + scan.rest == UnitText(q, u) + t
  {
    assert ([u] + scan.units)[1..] == scan.units;
    Shift(UnitText(q, u), UnitsText(q, scan.units), Closing(q, scan.closed));
    Shift(UnitText(q, u), UnitsText(q, scan.units) + Closing(q, scan.closed), scan.rest);
  }

  // The tokens of a text print to that text ...
  lemma {:induction false} LexPrints(s: string)
    ensures Print(Lex(s)) == s
    decreases |s|
  {
    if s != "" {
      var ts := Lex(s);
      if IsQuote(s[0]) {
        var scan := ScanQuote(s[0], s[1..]);
        LexPrints(scan.rest);
        ScanPrints(s[0], s[1..]);
        assert ts[1..] == Lex(scan.rest);
        Shift([s[0]], UnitsText(s[0], scan.units) + Closing(s[0], scan.closed), scan.rest);
        Cut(s, 1);
      } else if IsWordByte(s[0]) {
        LexPrints(s[WordLength(s)..]);
        assert ts[1..] == Lex(s[WordLength(s)..]);
        Cut(s, WordLength(s));
      } else {
        LexPrints(s[1..]);
        assert ts[1..] == Lex(s[1..]);
        Cut(s, 1);
      }
    }
  }

  lemma LexHead(s: string)
    requires s != ""
    ensures Lex(s) != []
    ensures Lex(s)[0].Word? <==> IsWordByte(s[0])
    ensures Lex(s)[0].Quoted? <==> IsQuote(s[0])
    ensures Lex(s)[0].Quoted? ==> Lex(s)[0].quote == s[0]
  {
  }

  // ... and they are separated: ...
  lemma {:induction false} LexSeparated(s: string)
    ensures Separated(Lex(s))
    decreases |s|
  {
    if s != "" {
      var ts := Lex(s);
      if IsQuote(s[0]) {
        var scan := ScanQuote(s[0], s[1..]);
        ScanFits(s[0], s[1..]);
        LexSeparated(scan.rest);
        if scan.rest != "" { LexHead(scan.rest); }
        assert ts[1..] == Lex(scan.rest);
      } else if IsWordByte(s[0]) {
        var rest := s[WordLength(s)..];
        LexSeparated(rest);
        if rest != "" { LexHead(rest); }
        assert ts[1..] == Lex(rest);
      } else {
        LexSeparated(s[1..]);
        assert ts[1..] == Lex(s[1..]);
      }
    }
  }

  lemma ScanUnit(q: char, u: Unit, t: string, open: bool)
    requires IsQuote(q) && UnitFits(q, u, t == "", !open) && (open || t != "")
    ensures ScanQuote(q, UnitText(q, u) + t) == ScanQuote(q, t).After(u)
  {
    var s := UnitText(q, u) + t;
    assert s[|UnitText(q, u)|..] == t;
  }

  lemma {:induction false} ScanUnits(q: char, units: seq<Unit>, closed: bool, rest: string)
    requires IsQuote(q) && UnitsFit(q, units, closed)
    requires if closed then rest == "" || rest[0] != q else rest == ""
    ensures ScanQuote(q, UnitsText(q, units) + Closing(q, closed) + rest) == Scan(units, closed, rest)
    decreases |units|
  {
    if units == [] {
      if closed { assert ("" + [q] + rest)[1..] == rest; }
    } else {
      var t := UnitsText(q, units[1..]) + Closing(q, closed) + rest;
      Shift(UnitText(q, units[0]), UnitsText(q, units[1..]), Closing(q, closed));
      Shift(UnitText(q, units[0]), UnitsText(q, units[1..]) + Closing(q, closed), rest);
      ScanUnits(q, units[1..], closed, rest);
      NothingLeft(q, units, closed, rest);
      ScanUnit(q, units[0], t, !closed);
      assert units == [units[0]] + units[1..];
    }
  }

  lemma NothingLeft(q: char, units: seq<Unit>, closed: bool, rest: string)
    requires units != [] && (closed || rest == "")
    ensures var t := UnitsText(q, units[1..]) + Closing(q, closed) + rest;
            (closed ==> t != "") && (!closed ==> (t == "" <==> |units| == 1))
  {
    if |units| > 1 { assert units[1..][0] == units[1]; }
  }

  lemma PrintHead(ts: seq<Token>)
    requires ts != [] && TokenFits(ts[0])
    ensures Print(ts) != ""
    ensures IsWordByte(Print(ts)[0]) <==> ts[0].Word?
    ensures IsQuote(Print(ts)[0]) <==> ts[0].Quoted?
    ensures ts[0].Quoted? ==> Print(ts)[0] == ts[0].quote
  {
  }

  lemma {:induction false} WordLengthOf(text: string, rest: string)
    requires forall i :: 0 <= i < |text| ==> IsWordByte(text[i])
    requires rest == "" || !IsWordByte(rest[0])
    ensures WordLength(text + rest) == |text|
    ensures (text + rest)[..|text|] == text && (text + rest)[|text|..] == rest
  {
    if text != "" {
      assert (text + rest)[1..] == text[1..] + rest;
      WordLengthOf(text[1..], rest);
    }
  }

  // A text that can stand after a token without joining it.
  predicate EndsBefore(t: Token, rest: string) {
    match t
    case Quoted(q, _, closed) => if closed then rest == "" || rest[0] != q else rest == ""
    case Word(_) => rest == "" || !IsWordByte(rest[0])
    case Other(_) => true
  }

  lemma LexQuoted(t: Token, rest: string)
    requires t.Quoted? && TokenFits(t) && EndsBefore(t, rest)
    ensures Lex(TokenText(t) + rest) == [t] + Lex(rest)
  {
    var inner := UnitsText(t.quote, t.units) + Closing(t.quote, t.closed);
    ScanUnits(t.quote, t.units, t.closed, rest);
    Shift([t.quote], inner, rest);
    assert (TokenText(t) + rest)[1..] == inner + rest;
  }

  lemma LexWord(t: Token, rest: string)
    requires t.Word? && TokenFits(t) && EndsBefore(t, rest)
    ensures Lex(TokenText(t) + rest) == [t] + Lex(rest)
  {
    WordLengthOf(t.text, rest);
  }

  lemma LexOther(t: Token, rest: string)
    requires t.Other? && TokenFits(t)
    ensures Lex(TokenText(t) + rest) == [t] + Lex(rest)
  {
    assert (TokenText(t) + rest)[1..] == rest;
  }

  lemma PrintEndsBefore(t: Token, ts: seq<Token>)
    requires Separated([t] + ts)
    ensures EndsBefore(t, Print(ts))
  {
    assert ([t] + ts)[1..] == ts;
    if ts != [] { PrintHead(ts); }
  }

  // ... they are the only separated tokens that print to it.
  lemma {:induction false} LexIsUnique(ts: seq<Token>)
    requires Separated(ts)
    ensures Lex(Print(ts)) == ts
  {
    if ts != [] {
      LexIsUnique(ts[1..]);
      assert ts == [ts[0]] + ts[1..];
      PrintEndsBefore(ts[0], ts[1..]);
      match ts[0]
      case Quoted(_, _, _) => LexQuoted(ts[0], Print(ts[1..]));
      case Word(_) => LexWord(ts[0], Print(ts[1..]));
      case Other(_) => LexOther(ts[0], Print(ts[1..]));
    }
  }

  // ---------------------------------------------------------------- replacing words

  datatype Rules = CompoundIntervals | DistinctRow {
    predicate IsKeyword(w: string) {
      match this
      case CompoundIntervals => SameWord(w, "HOUR_MINUTE")
      case DistinctRow => SameWord(w, "DISTINCTROW") || SameWord(w, "SQL_BIG_RESULT")
    }

    function Replacement(w: string): seq<Token> {
      match this
      case CompoundIntervals =>
        if SameWord(w, "HOUR_MINUTE") then [Word("HOUR"), Other(' '), Word("TO"), Other(' '), Word("MINUTE")]
            else [Word(w)]
      case DistinctRow =>
        if SameWord(w, "DISTINCTROW") then [Word("DISTINCT")]
        else if SameWord(w, "SQL_BIG_RESULT") then []
        else [Word(w)]
    }
  }

  function Replace(r: Rules, ts: seq<Token>): seq<Token> {
    if ts == [] then []
    else (if ts[0].Word? then r.Replacement(ts[0].text) else [ts[0]]) + Replace(r, ts[1..])
  }

  // Split into quoted segments and words, replace the keywords among the words, print.
  function Rewritten(r: Rules, s: string): string {
    Print(Replace(r, Lex(s)))
  }

  ghost predicate KeywordFree(r: Rules, ts: seq<Token>) {
    forall i :: 0 <= i < |ts| && ts[i].Word? ==> !r.IsKeyword(ts[i].text)
  }

  function Joined(a: Token, b: Token): Token
    requires a.Quoted? && b.Quoted?
  {
    Quoted(a.quote, a.units + [Doubled] + b.units, b.closed)
  }

  // Deleting a word can bring two segments in the same quotes together; they then read as one.
  function Merge(ts: seq<Token>): seq<Token> {
    if ts == [] then [] else
      var rest := Merge(ts[1..]);
      if Touches(ts[0], rest)
      then [Joined(ts[0], rest[0])] + rest[1..]
      else [ts[0]] + rest
  }

  lemma ReplacementWords(r: Rules, w: string)
    requires TokenFits(Word(w))
    ensures Loose(r.Replacement(w)) && KeywordFree(r, r.Replacement(w))
    ensures |r.Replacement(w)| <= 1
        || (r.Replacement(w) == [Word("HOUR"), Other(' '), Word("TO"), Other(' '), Word("MINUTE")])
  {
    var five := [Word("HOUR"), Other(' '), Word("TO"), Other(' '), Word("MINUTE")];
    assert five[1..] == [Other(' '), Word("TO"), Other(' '), Word("MINUTE")];
    assert five[1..][1..] == [Word("TO"), Other(' '), Word("MINUTE")];
    assert five[1..][1..][1..] == [Other(' '), Word("MINUTE")];
    assert five[1..][1..][1..][1..] == [Word("MINUTE")];
  }

  predicate NoWordFirst(ts: seq<Token>) {
    ts == [] || !ts[0].Word?
  }

  lemma {:induction false} LooseAppend(a: seq<Token>, b: seq<Token>)
    requires Loose(a) && Loose(b) && NoWordFirst(b) && forall i :: 0 <= i < |a| ==> !a[i].Quoted?
    ensures Loose(a + b)
  {
    if a == [] {
      assert a + b == b;
    } else {
      LooseAppend(a[1..], b);
      assert (a + b)[1..] == a[1..] + b;
    }
  }

  lemma {:induction false} ReplaceLoose(r: Rules, ts: seq<Token>)
    requires Separated(ts)
    ensures Loose(Replace(r, ts))
    ensures NoWordFirst(ts) ==> NoWordFirst(Replace(r, ts))
  {
    if ts != [] {
      var rest := Replace(r, ts[1..]);
      ReplaceLoose(r, ts[1..]);
      if ts[0].Word? {
        ReplacementWords(r, ts[0].text);
        LooseAppend(r.Replacement(ts[0].text), rest);
      } else {
        assert ([ts[0]] + rest)[1..] == rest;
      }
    }
  }

  lemma {:induction false} ReplaceKeywordFree(r: Rules, ts: seq<Token>)
    requires Separated(ts)
    ensures KeywordFree(r, Replace(r, ts))
  {
    if ts != [] {
      ReplaceKeywordFree(r, ts[1..]);
      if ts[0].Word? { ReplacementWords(r, ts[0].text); }
    }
  }

  // Where there is no keyword nothing is replaced.
  lemma {:induction false} ReplaceNothing(r: Rules, ts: seq<Token>)
    requires KeywordFree(r, ts)
    ensures Replace(r, ts) == ts
  {
    if ts != [] {
      assert KeywordFree(r, ts[1..]) by { assert forall i :: 0 <= i < |ts[1..]| ==> ts[1..][i] == ts[i + 1]; }
      ReplaceNothing(r, ts[1..]);
      assert ts[0].Word? ==> !r.IsKeyword(ts[0].text);
      assert ts == [ts[0]] + ts[1..];
    }
  }

  lemma {:induction false} UnitsTextAppend(q: char, a: seq<Unit>, b: seq<Unit>)
    ensures UnitsText(q, a + b) == UnitsText(q, a) + UnitsText(q, b)
  {
    if a == [] {
      assert a + b == b;
    } else {
      assert (a + b)[1..] == a[1..] + b;
      UnitsTextAppend(q, a[1..], b);
    }
  }

  lemma JoinedFits(a: Token, b: Token)
    requires a.Quoted? && b.Quoted? && a.quote == b.quote && a.closed && TokenFits(a) && TokenFits(b)
    ensures TokenFits(Joined(a, b))
  {
    var n, units := |a.units|, Joined(a, b).units;
    forall i | 0 <= i < |units| ensures UnitFits(a.quote, units[i], i == |units| - 1, b.closed) {
      if i < n {
        assert UnitFits(a.quote, a.units[i], i == n - 1, true);
      } else if i > n {
        assert units[i] == b.units[i - n - 1];
        assert UnitFits(b.quote, b.units[i - n - 1], i - n - 1 == |b.units| - 1, b.closed);
      }
    }
  }

  lemma JoinedText(a: Token, b: Token)
    requires a.Quoted? && b.Quoted? && a.quote == b.quote && a.closed
    ensures TokenText(Joined(a, b)) == TokenText(a) + TokenText(b)
  {
    var q := a.quote;
    UnitsTextAppend(q, a.units + [Doubled], b.units);
    UnitsTextAppend(q, a.units, [Doubled]);
    assert UnitsText(q, [Doubled]) == [q, q];
    Regroup([q], UnitsText(q, a.units), UnitsText(q, b.units), Closing(q, b.closed));
    assert [q] + [q] == [q, q];
  }

  lemma Regroup(q: string, x: string, y: string, z: string)
    ensures q + (((x + (q + q)) + y) + z) == (q + (x + q)) + (q + (y + z))
  {
  }

  predicate SameHead(a: seq<Token>, b: seq<Token>) {
    && (a == [] <==> b == [])
    && (a != [] ==> (a[0].Word? <==> b[0].Word?) && (a[0].Quoted? <==> b[0].Quoted?)
                    && (a[0].Quoted? ==> a[0].quote == b[0].quote))
  }

  lemma {:induction false} MergeSeparated(ts: seq<Token>)
    requires Loose(ts)
    ensures Separated(Merge(ts)) && SameHead(ts, Merge(ts)) && Print(Merge(ts)) == Print(ts)
  {
    if ts != [] {
      var rest := Merge(ts[1..]);
      MergeSeparated(ts[1..]);
      if Touches(ts[0], rest) {
        MergeTouching(ts[0], rest);
      } else {
        assert ([ts[0]] + rest)[1..] == rest;
      }
    }
  }

  lemma MergeTouching(t: Token, rest: seq<Token>)
    requires Touches(t, rest) && TokenFits(t) && t.closed && Separated(rest)
    ensures Separated([Joined(t, rest[0])] + rest[1..])
    ensures Print([Joined(t, rest[0])] + rest[1..]) == TokenText(t) + Print(rest)
  {
    JoinedFits(t, rest[0]);
    JoinedText(t, rest[0]);
    assert ([Joined(t, rest[0])] + rest[1..])[1..] == rest[1..];
    Shift(TokenText(t), TokenText(rest[0]), Print(rest[1..]));
  }

  lemma {:induction false} MergeKeywordFree(r: Rules, ts: seq<Token>)
    requires KeywordFree(r, ts)
    ensures KeywordFree(r, Merge(ts))
  {
    if ts != [] {
      assert KeywordFree(r, ts[1..]) by { assert forall i :: 0 <= i < |ts[1..]| ==> ts[1..][i] == ts[i + 1]; }
      MergeKeywordFree(r, ts[1..]);
      var rest := Merge(ts[1..]);
      assert ts[0].Word? ==> !r.IsKeyword(ts[0].text);
      if Touches(ts[0], rest) {
        assert forall i :: 0 <= i < |rest[1..]| ==> rest[1..][i] == rest[i + 1];
      }
    }
  }

  // The reading of a rewritten text: the input's, with keywords replaced and touching quotes joined.
  lemma RewrittenReads(r: Rules, s: string)
    ensures Lex(Rewritten(r, s)) == Merge(Replace(r, Lex(s)))
  {
    LexSeparated(s);
    ReplaceLoose(r, Lex(s));
    MergeSeparated(Replace(r, Lex(s)));
    LexIsUnique(Merge(Replace(r, Lex(s))));
  }

  lemma KeywordsAreGone(r: Rules, s: string)
    ensures KeywordFree(r, Lex(Rewritten(r, s)))
  {
    LexSeparated(s);
    RewrittenReads(r, s);
    ReplaceKeywordFree(r, Lex(s));
    MergeKeywordFree(r, Replace(r, Lex(s)));
  }

  // Rewriting once is enough.
  lemma RewritingIsIdempotent(r: Rules, s: string)
    ensures Rewritten(r, Rewritten(r, s)) == Rewritten(r, s)
  {
    KeywordsAreGone(r, s);
    ReplaceNothing(r, Lex(Rewritten(r, s)));
    LexPrints(Rewritten(r, s));
  }

  // A text without keywords is left as it is, and only such a text.
  lemma KeywordFreeIsUntouched(r: Rules, s: string)
    ensures KeywordFree(r, Lex(s)) <==> Rewritten(r, s) == s
  {
    if KeywordFree(r, Lex(s)) {
      ReplaceNothing(r, Lex(s));
      LexPrints(s);
    }
    if Rewritten(r, s) == s { KeywordsAreGone(r, s); }
  }

  // The text of the quoted segments, one after the other.
  function QuotedText(ts: seq<Token>): string {
    if ts == [] then "" else (if ts[0].Quoted? then TokenText(ts[0]) else "") + QuotedText(ts[1..])
  }

  lemma {:induction false} QuotedTextAppend(a: seq<Token>, b: seq<Token>)
    ensures QuotedText(a + b) == QuotedText(a) + QuotedText(b)
  {
    if a == [] {
      assert a + b == b;
    } else {
      assert (a + b)[1..] == a[1..] + b;
      QuotedTextAppend(a[1..], b);
    }
  }

  lemma {:induction false} NoQuotedText(ts: seq<Token>)
    requires forall i :: 0 <= i < |ts| ==> !ts[i].Quoted?
    ensures QuotedText(ts) == ""
  {
    if ts != [] { NoQuotedText(ts[1..]); }
  }

  lemma {:induction false} ReplaceKeepsQuotes(r: Rules, ts: seq<Token>)
    ensures QuotedText(Replace(r, ts)) == QuotedText(ts)
  {
    if ts != [] {
      var head := if ts[0].Word? then r.Replacement(ts[0].text) else [ts[0]];
      ReplaceKeepsQuotes(r, ts[1..]);
      QuotedTextAppend(head, Replace(r, ts[1..]));
      if ts[0].Word? { NoQuotedText(head); }
    }
  }

  lemma {:induction false} MergeKeepsQuotes(ts: seq<Token>)
    requires Loose(ts)
    ensures QuotedText(Merge(ts)) == QuotedText(ts)
  {
    if ts != [] {
      var rest := Merge(ts[1..]);
      MergeKeepsQuotes(ts[1..]);
      MergeSeparated(ts[1..]);
      if Touches(ts[0], rest) {
        JoinedText(ts[0], rest[0]);
        Shift(TokenText(ts[0]), TokenText(rest[0]), QuotedText(rest[1..]));
      }
    }
  }

  // Quoted bytes pass through unchanged.
  lemma QuotesPassThrough(r: Rules, s: string)
    ensures QuotedText(Lex(Rewritten(r, s))) == QuotedText(Lex(s))
  {
    LexSeparated(s);
    RewrittenReads(r, s);
    ReplaceLoose(r, Lex(s));
    ReplaceKeepsQuotes(r, Lex(s));
    MergeKeepsQuotes(Replace(r, Lex(s)));
  }

  // ---------------------------------------------------------------- the byte loops

  // Where a loop stands: outside with no word before it, right behind a word byte, or in quotes.
  datatype Mode = Fresh | InWord | InQuote(quote: char)

  function ScanText(q: char, scan: Scan): string {
    UnitsText(q, scan.units) + Closing(q, scan.closed)
  }

  // What is still to be put out for the rest of the text.
  function Tail(r: Rules, mode: Mode, t: string): string {
    match mode
    case Fresh => Rewritten(r, t)
    case InWord => t[..WordLength(t)] + Rewritten(r, t[WordLength(t)..])
    case InQuote(q) => ScanText(q, ScanQuote(q, t)) + Rewritten(r, ScanQuote(q, t).rest)
  }

  function ModeAfter(c: char): Mode {
    if IsQuote(c) then InQuote(c) else if IsWordByte(c) then InWord else Fresh
  }

  lemma PrintCons(r: Rules, t: Token, ts: seq<Token>)
    ensures Print(Replace(r, [t] + ts))
         == (if t.Word? then Print(r.Replacement(t.text) + Replace(r, ts)) else TokenText(t) + Print(Replace(r, ts)))
  {
    assert ([t] + ts)[1..] == ts;
    if !t.Word? { assert ([t] + Replace(r, ts))[1..] == Replace(r, ts); }
  }

  lemma {:induction false} PrintAppend(a: seq<Token>, b: seq<Token>)
    ensures Print(a + b) == Print(a) + Print(b)
  {
    if a == [] {
      assert a + b == b;
    } else {
      assert (a + b)[1..] == a[1..] + b;
      PrintAppend(a[1..], b);
    }
  }

  lemma QuoteOpens(r: Rules, t: string)
    requires t != "" && IsQuote(t[0])
    ensures Rewritten(r, t) == [t[0]] + Tail(r, InQuote(t[0]), t[1..])
  {
    var scan := ScanQuote(t[0], t[1..]);
    PrintCons(r, Quoted(t[0], scan.units, scan.closed), Lex(scan.rest));
    Shift([t[0]], ScanText(t[0], scan), Rewritten(r, scan.rest));
  }

  lemma OtherByte(r: Rules, t: string)
    requires t != "" && !IsQuote(t[0]) && !IsWordByte(t[0])
    ensures Rewritten(r, t) == [t[0]] + Rewritten(r, t[1..])
  {
    PrintCons(r, Other(t[0]), Lex(t[1..]));
  }

  lemma WordStarts(r: Rules, t: string)
    requires t != "" && IsWordByte(t[0])
    ensures Rewritten(r, t) == Print(r.Replacement(t[..WordLength(t)])) + Rewritten(r, t[WordLength(t)..])
  {
    var n := WordLength(t);
    PrintCons(r, Word(t[..n]), Lex(t[n..]));
    PrintAppend(r.Replacement(t[..n]), Replace(r, Lex(t[n..])));
  }

  lemma WordGoesOn(r: Rules, t: string)
    requires t != "" && IsWordByte(t[0])
    ensures Tail(r, InWord, t) == [t[0]] + Tail(r, InWord, t[1..])
  {
    var n := WordLength(t[1..]);
    assert t[..n + 1] == [t[0]] + t[1..][..n];
    assert t[n + 1..] == t[1..][n..];
    Shift([t[0]], t[1..][..n], Rewritten(r, t[n + 1..]));
  }

  lemma WordEnds(r: Rules, t: string)
    requires t == "" || !IsWordByte(t[0])
    ensures Tail(r, InWord, t) == Rewritten(r, t)
  {
    assert t[..0] + Rewritten(r, t) == Rewritten(r, t);
    assert t[0..] == t;
  }

  lemma PlainWord(r: Rules, t: string)
    requires t != "" && IsWordByte(t[0]) && !r.IsKeyword(t[..WordLength(t)])
    ensures Rewritten(r, t) == Tail(r, InWord, t)
  {
    var n := WordLength(t);
    WordStarts(r, t);
    assert Print([Word(t[..n])]) == t[..n];
  }

  // A byte outside quotes at which no keyword starts is copied.
  lemma ByteIsCopied(r: Rules, mode: Mode, t: string)
    requires t != "" && !mode.InQuote?
    requires mode.Fresh? && IsWordByte(t[0]) ==> !r.IsKeyword(t[..WordLength(t)])
    ensures Tail(r, mode, t) == [t[0]] + Tail(r, ModeAfter(t[0]), t[1..])
  {
    if IsWordByte(t[0]) {
      if mode.Fresh? { PlainWord(r, t); }
      WordGoesOn(r, t);
    } else {
      if mode.InWord? { WordEnds(r, t); }
      if IsQuote(t[0]) { QuoteOpens(r, t); } else { OtherByte(r, t); }
    }
  }

  // A keyword is replaced, and the loop stands right behind its last byte.
  lemma KeywordIsReplaced(r: Rules, t: string)
    requires t != "" && IsWordByte(t[0])
    ensures Tail(r, Fresh, t) == Print(r.Replacement(t[..WordLength(t)])) + Tail(r, InWord, t[WordLength(t)..])
  {
    WordStarts(r, t);
    WordEnds(r, t[WordLength(t)..]);
  }

  lemma QuotedPair(r: Rules, q: char, t: string)
    requires |t| > 1 && IsQuote(q) && IsPair(q, t[0], t[1])
    ensures Tail(r, InQuote(q), t) == t[..2] + Tail(r, InQuote(q), t[2..])
  {
    var scan := ScanQuote(q, t[2..]);
    var u := if t[0] == '\\' then Escaped(t[1]) else Doubled;
    assert ([u] + scan.units)[1..] == scan.units;
    assert UnitText(q, u) == t[..2];
    Shift(t[..2], UnitsText(q, scan.units), Closing(q, scan.closed));
    Shift(t[..2], ScanText(q, scan), Rewritten(r, scan.rest));
  }

  lemma QuoteCloses(r: Rules, q: char, t: string)
    requires t != "" && IsQuote(q) && t[0] == q && (|t| == 1 || t[1] != q)
    ensures Tail(r, InQuote(q), t) == [t[0]] + Tail(r, Fresh, t[1..])
  {
    assert ScanQuote(q, t) == Scan([], true, t[1..]);
    assert "" + [q] == [q];
  }

  lemma QuotedByte(r: Rules, q: char, t: string)
    requires t != "" && IsQuote(q) && t[0] != q && !(q != '`' && t[0] == '\\' && |t| > 1)
    ensures Tail(r, InQuote(q), t) == [t[0]] + Tail(r, InQuote(q), t[1..])
  {
    var scan := ScanQuote(q, t[1..]);
    assert ([Plain(t[0])] + scan.units)[1..] == scan.units;
    Shift([t[0]], UnitsText(q, scan.units), Closing(q, scan.closed));
    Shift([t[0]], ScanText(q, scan), Rewritten(r, scan.rest));
  }

  predicate WordBytes(w: string) {
    forall i :: 0 <= i < |w| ==> IsWordByte(w[i])
  }

  // The loops' test for a keyword: the bytes match, and no word byte is on either side.
  predicate KeywordAt(s: string, index: nat, needle: string) {
    && index + |needle| <= |s| && SameWord(s[index..index + |needle|], needle)
    && !(index > 0 && index - 1 < |s| && IsWordByte(s[index - 1]))
    && !(index + |needle| < |s| && IsWordByte(s[index + |needle|]))
  }

  lemma LowerIsWordByte(c: char, d: char)
    requires Lower(c) == Lower(d) && IsWordByte(d)
    ensures IsWordByte(c)
  {
  }

  lemma WordLengthIs(t: string, n: nat)
    requires n <= |t| && (forall i :: 0 <= i < n ==> IsWordByte(t[i])) && (n == |t| || !IsWordByte(t[n]))
    ensures WordLength(t) == n
  {
  }

  // It finds exactly the whole words.
  lemma KeywordIsWord(s: string, index: nat, needle: string)
    requires index < |s| && needle != "" && WordBytes(needle)
    ensures KeywordAt(s, index, needle) <==>
            !(index > 0 && IsWordByte(s[index - 1])) && SameWord(s[index..][..WordLength(s[index..])], needle)
  {
    var t, n := s[index..], |needle|;
    if KeywordAt(s, index, needle) {
      assert t[..n] == s[index..index + n];
      forall i | 0 <= i < n ensures IsWordByte(t[i]) { LowerIsWordByte(t[..n][i], needle[i]); }
      WordLengthIs(t, n);
    } else if SameWord(t[..WordLength(t)], needle) {
      assert t[..n] == s[index..index + n];
    }
  }

  datatype Flags = Flags(single: bool, double: bool, backtick: bool) {
    predicate Outside() {
      !single && !double && !backtick
    }

    function Quote(): char {
      if single then '\'' else if double then '"' else '`'
    }

    predicate AtMostOne() {
      !(single && double) && !(single && backtick) && !(double && backtick)
    }
  }

  const OUTSIDE := Flags(false, false, false)

  function FlagsAfter(c: char): Flags {
    Flags(c == '\'', c == '"', c == '`')
  }

  function ModeAt(f: Flags, s: string, index: nat): Mode
    requires index <= |s|
  {
    if !f.Outside() then InQuote(f.Quote())
    else if index > 0 && IsWordByte(s[index - 1]) then InWord
    else Fresh
  }

  // Done so far, and still to do, make the whole.
  predicate OnTrack(r: Rules, s: string, f: Flags, index: nat, output: string) {
    index <= |s| && f.AtMostOne() && output + Tail(r, ModeAt(f, s, index), s[index..]) == Rewritten(r, s)
  }

  lemma Moves(r: Rules, s: string, f: Flags, index: nat, output: string, n: nat, g: Flags, text: string)
    requires OnTrack(r, s, f, index, output) && index + n <= |s| && g.AtMostOne()
    requires Tail(r, ModeAt(f, s, index), s[index..]) == text + Tail(r, ModeAt(g, s, index + n), s[index..][n..])
    ensures OnTrack(r, s, g, index + n, output + text)
  {
    assert s[index..][n..] == s[index + n..];
    Shift(output, text, Tail(r, ModeAt(g, s, index + n), s[index + n..]));
  }

  lemma StartsOnTrack(r: Rules, s: string)
    ensures OnTrack(r, s, OUTSIDE, 0, "")
  {
    assert s[0..] == s;
    assert "" + Rewritten(r, s) == Rewritten(r, s);
  }

  lemma EndsOnTrack(r: Rules, s: string, f: Flags, output: string)
    requires OnTrack(r, s, f, |s|, output)
    ensures output == Rewritten(r, s)
  {
    assert s[|s|..] == "";
    WordEnds(r, "");
    assert Tail(r, ModeAt(f, s, |s|), "") == "" by { assert "" + ("" + "") == ""; }
  }

  lemma FirstTwo(s: string, index: nat)
    requires index + 1 < |s|
    ensures s[index..][..2] == [s[index], s[index + 1]] && s[index..][0] == s[index] && s[index..][1] == s[index + 1]
  {
  }

  predicate IsPair(q: char, a: char, b: char) {
    (a == '\\' && q != '`') || (a == q && b == q)
  }

  lemma PairStep(r: Rules, s: string, f: Flags, index: nat, output: string)
    requires OnTrack(r, s, f, index, output) && index + 1 < |s| && !f.Outside()
    requires IsPair(f.Quote(), s[index], s[index + 1])
    ensures OnTrack(r, s, f, index + 2, output + [s[index], s[index + 1]])
  {
    FirstTwo(s, index);
    QuotedPair(r, f.Quote(), s[index..]);
    Moves(r, s, f, index, output, 2, f, [s[index], s[index + 1]]);
  }

  lemma CloseStep(r: Rules, s: string, f: Flags, index: nat, output: string)
    requires OnTrack(r, s, f, index, output) && index < |s| && !f.Outside()
    requires s[index] == f.Quote() && !(index + 1 < |s| && s[index + 1] == f.Quote())
    ensures OnTrack(r, s, OUTSIDE, index + 1, output + [s[index]])
  {
    var t := s[index..];
    QuoteCloses(r, f.Quote(), t);
    assert t[0] == s[index] && ModeAt(OUTSIDE, s, index + 1) == Fresh;
    Moves(r, s, f, index, output, 1, OUTSIDE, [s[index]]);
  }

  lemma InsideStep(r: Rules, s: string, f: Flags, index: nat, output: string)
    requires OnTrack(r, s, f, index, output) && index < |s| && !f.Outside()
    requires s[index] != f.Quote() && !(f.Quote() != '`' && s[index] == '\\' && index + 1 < |s|)
    ensures OnTrack(r, s, f, index + 1, output + [s[index]])
  {
    QuotedByte(r, f.Quote(), s[index..]);
    Moves(r, s, f, index, output, 1, f, [s[index]]);
  }

  lemma OutsideStep(r: Rules, s: string, index: nat, output: string)
    requires OnTrack(r, s, OUTSIDE, index, output) && index < |s|
    requires !(index > 0 && IsWordByte(s[index - 1])) && IsWordByte(s[index])
        ==> !r.IsKeyword(s[index..][..WordLength(s[index..])])
    ensures OnTrack(r, s, FlagsAfter(s[index]), index + 1, output + [s[index]])
  {
    ByteIsCopied(r, ModeAt(OUTSIDE, s, index), s[index..]);
    Moves(r, s, OUTSIDE, index, output, 1, FlagsAfter(s[index]), [s[index]]);
  }

  lemma KeywordSpan(s: string, index: nat, needle: string)
    requires index < |s| && KeywordAt(s, index, needle) && needle != "" && WordBytes(needle)
    ensures WordLength(s[index..]) == |needle| && SameWord(s[index..][..WordLength(s[index..])], needle)
    ensures IsWordByte(s[index..][0]) && IsWordByte(s[index + |needle| - 1])
    ensures ModeAt(OUTSIDE, s, index) == Fresh && ModeAt(OUTSIDE, s, index + |needle|) == InWord
  {
    var t := s[index..];
    KeywordIsWord(s, index, needle);
    assert t[|needle| - 1] == s[index + |needle| - 1];
  }

  lemma KeywordStep(r: Rules, s: string, index: nat, output: string, needle: string)
    requires OnTrack(r, s, OUTSIDE, index, output) && index < |s| && KeywordAt(s, index, needle)
    requires needle != "" && WordBytes(needle)
    ensures SameWord(s[index..][..WordLength(s[index..])], needle)
    ensures OnTrack(r, s, OUTSIDE, index + |needle|,
        output + Print(r.Replacement(s[index..][..WordLength(s[index..])])))
  {
    KeywordSpan(s, index, needle);
    KeywordIsReplaced(r, s[index..]);
    Moves(r, s, OUTSIDE, index, output, |needle|, OUTSIDE, Print(r.Replacement(s[index..][..WordLength(s[index..])])));
  }

  lemma PrintFirst(t: Token, ts: seq<Token>)
    ensures Print([t] + ts) == TokenText(t) + Print(ts)
  {
    assert ([t] + ts)[1..] == ts;
  }

  lemma PrintFive(a: Token, b: Token, c: Token, d: Token, e: Token)
    ensures Print([a, b, c, d, e])
         == TokenText(a) + (TokenText(b) + (TokenText(c) + (TokenText(d) + (TokenText(e) + ""))))
  {
    PrintFirst(e, []);
    PrintFirst(d, [e]);
    PrintFirst(c, [d, e]);
    PrintFirst(b, [c, d, e]);
    PrintFirst(a, [b, c, d, e]);
    assert [e] + [] == [e] && [d] + [e] == [d, e] && [c] + [d, e] == [c, d, e];
    assert [b] + [c, d, e] == [b, c, d, e] && [a] + [b, c, d, e] == [a, b, c, d, e];
  }

  lemma CompoundText(w: string)
    requires SameWord(w, "HOUR_MINUTE")
    ensures Print(CompoundIntervals.Replacement(w)) == "HOUR TO MINUTE"
  {
    PrintFive(Word("HOUR"), Other(' '), Word("TO"), Other(' '), Word("MINUTE"));
    assert "HOUR" + (" " + ("TO" + (" " + ("MINUTE" + "")))) == "HOUR TO MINUTE";
  }

  lemma DistinctText(w: string)
    ensures SameWord(w, "DISTINCTROW") ==> Print(DistinctRow.Replacement(w)) == "DISTINCT"
    ensures SameWord(w, "SQL_BIG_RESULT") ==> Print(DistinctRow.Replacement(w)) == ""
  {
    assert Print([Word("DISTINCT")]) == "DISTINCT" + "";
    if SameWord(w, "SQL_BIG_RESULT") { assert |w| == 14 && |"DISTINCTROW"| == 11; }
  }

  lemma FewBytes(w: string)
    requires |w| <= 4
    requires |w| > 0 ==> IsWordByte(w[0])
    requires |w| > 1 ==> IsWordByte(w[1])
    requires |w| > 2 ==> IsWordByte(w[2])
    requires |w| > 3 ==> IsWordByte(w[3])
    ensures WordBytes(w)
  {
  }

  lemma BytesAppend(a: string, b: string)
    requires WordBytes(a) && WordBytes(b)
    ensures WordBytes(a + b)
  {
  }

  lemma HourMinuteIsWord()
    ensures WordBytes("HOUR_MINUTE")
  {
    FewBytes("HOUR");
    FewBytes("_MIN");
    FewBytes("UTE");
    BytesAppend("HOUR", "_MIN");
    BytesAppend("HOUR" + "_MIN", "UTE");
    assert "HOUR" + "_MIN" + "UTE" == "HOUR_MINUTE";
  }

  lemma DistinctRowIsWord()
    ensures WordBytes("DISTINCTROW")
  {
    FewBytes("DIST");
    FewBytes("INCT");
    FewBytes("ROW");
    BytesAppend("DIST", "INCT");
    BytesAppend("DIST" + "INCT", "ROW");
    assert "DIST" + "INCT" + "ROW" == "DISTINCTROW";
  }

  lemma BigResultIsWord()
    ensures WordBytes("SQL_BIG_RESULT")
  {
    FewBytes("SQL_");
    FewBytes("BIG_");
    FewBytes("RESU");
    FewBytes("LT");
    BytesAppend("SQL_", "BIG_");
    BytesAppend("SQL_" + "BIG_", "RESU");
    BytesAppend("SQL_" + "BIG_" + "RESU", "LT");
    assert "SQL_" + "BIG_" + "RESU" + "LT" == "SQL_BIG_RESULT";
  }

  predicate HourMinuteAt(s: string, index: nat) {
    KeywordAt(s, index, "HOUR_MINUTE")
  }

  predicate DistinctRowAt(s: string, index: nat) {
    KeywordAt(s, index, "DISTINCTROW")
  }

  predicate BigResultAt(s: string, index: nat) {
    KeywordAt(s, index, "SQL_BIG_RESULT")
  }

  lemma HourMinuteStep(s: string, index: nat, output: string)
    requires OnTrack(CompoundIntervals, s, OUTSIDE, index, output) && index < |s| && HourMinuteAt(s, index)
    ensures OnTrack(CompoundIntervals, s, OUTSIDE, index + 11, output + "HOUR TO MINUTE")
  {
    HourMinuteIsWord();
    KeywordStep(CompoundIntervals, s, index, output, "HOUR_MINUTE");
    CompoundText(s[index..][..WordLength(s[index..])]);
  }

  lemma NoHourMinuteStep(s: string, index: nat, output: string)
    requires OnTrack(CompoundIntervals, s, OUTSIDE, index, output) && index < |s| && !HourMinuteAt(s, index)
    ensures OnTrack(CompoundIntervals, s, FlagsAfter(s[index]), index + 1, output + [s[index]])
  {
    HourMinuteIsWord();
    KeywordIsWord(s, index, "HOUR_MINUTE");
    OutsideStep(CompoundIntervals, s, index, output);
  }

  lemma DistinctRowStep(s: string, index: nat, output: string)
    requires OnTrack(DistinctRow, s, OUTSIDE, index, output) && index < |s| && DistinctRowAt(s, index)
    ensures OnTrack(DistinctRow, s, OUTSIDE, index + 11, output + "DISTINCT")
  {
    DistinctRowIsWord();
    KeywordStep(DistinctRow, s, index, output, "DISTINCTROW");
    DistinctText(s[index..][..WordLength(s[index..])]);
  }

  lemma BigResultStep(s: string, index: nat, output: string)
    requires OnTrack(DistinctRow, s, OUTSIDE, index, output) && index < |s| && BigResultAt(s, index)
    ensures OnTrack(DistinctRow, s, OUTSIDE, index + 14, output)
  {
    BigResultIsWord();
    KeywordStep(DistinctRow, s, index, output, "SQL_BIG_RESULT");
    DistinctText(s[index..][..WordLength(s[index..])]);
    assert output + "" == output;
  }

  lemma NoDistinctStep(s: string, index: nat, output: string)
    requires OnTrack(DistinctRow, s, OUTSIDE, index, output) && index < |s| && !DistinctRowAt(s, index)
    requires !BigResultAt(s, index)
    ensures OnTrack(DistinctRow, s, FlagsAfter(s[index]), index + 1, output + [s[index]])
  {
    DistinctRowIsWord();
    BigResultIsWord();
    KeywordIsWord(s, index, "DISTINCTROW");
    KeywordIsWord(s, index, "SQL_BIG_RESULT");
    OutsideStep(DistinctRow, s, index, output);
  }

  // One round of either loop inside quotes: a pair or a single byte is copied, or the quote closes.
  method CopyQuoted(ghost r: Rules, sql: string, f: Flags, index: nat, output: string)
    returns (g: Flags, next: nat, copied: string)
    requires OnTrack(r, sql, f, index, output) && index < |sql| && !f.Outside()
    ensures OnTrack(r, sql, g, next, copied) && index < next <= |sql|
  {
    var byte := sql[index];
    if (f.single || f.double) && byte == '\\' && index + 1 < |sql| {
      PairStep(r, sql, f, index, output);
      return f, index + 2, output + [byte, sql[index + 1]];
    }
    if byte == f.Quote() {
      if index + 1 < |sql| && sql[index + 1] == f.Quote() {
        PairStep(r, sql, f, index, output);
        return f, index + 2, output + [byte, sql[index + 1]];
      }
      CloseStep(r, sql, f, index, output);
      return OUTSIDE, index + 1, output + [byte];
    }
    InsideStep(r, sql, f, index, output);
    return f, index + 1, output + [byte];
  }

  method RewriteCompoundIntervals(sql: string) returns (output: string)
    ensures output == Rewritten(CompoundIntervals, sql)
  {
    output := "";
    var index, f := 0, OUTSIDE;
    StartsOnTrack(CompoundIntervals, sql);
    while index < |sql|
      invariant OnTrack(CompoundIntervals, sql, f, index, output)
    {
      if !f.Outside() {
        f, index, output := CopyQuoted(CompoundIntervals, sql, f, index, output);
      } else {
        if HourMinuteAt(sql, index) {
          HourMinuteStep(sql, index, output);
          output := output + "HOUR TO MINUTE";
          index := index + 11;
        } else {
          NoHourMinuteStep(sql, index, output);
          output, f := output + [sql[index]], FlagsAfter(sql[index]);
          index := index + 1;
        }
      }
    }
    EndsOnTrack(CompoundIntervals, sql, f, output);
  }

  method RewriteDistinctRow(sql: string) returns (output: string)
    ensures output == Rewritten(DistinctRow, sql)
  {
    output := "";
    var index, f := 0, OUTSIDE;
    StartsOnTrack(DistinctRow, sql);
    while index < |sql|
      invariant OnTrack(DistinctRow, sql, f, index, output)
    {
      if !f.Outside() {
        f, index, output := CopyQuoted(DistinctRow, sql, f, index, output);
      } else if DistinctRowAt(sql, index) {
        DistinctRowStep(sql, index, output);
        output := output + "DISTINCT";
        index := index + 11;
      } else if BigResultAt(sql, index) {
        BigResultStep(sql, index, output);
        index := index + 14;
      } else {
        NoDistinctStep(sql, index, output);
        output, f := output + [sql[index]], FlagsAfter(sql[index]);
        index := index + 1;
      }
    }
    EndsOnTrack(DistinctRow, sql, f, output);
  }
}
