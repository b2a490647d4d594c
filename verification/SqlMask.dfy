/** Masking comments and quoted text in SQL without moving anything (`sql_code`), and the line
    numbers computed from the masked text (`_statements`). */
module SqlMask {
  import opened Characters
  import opened Wrappers

  // Python's `\d` and `str.isspace`, which know all of Unicode.
  datatype Classes = Classes(isDigit: char -> bool, isSpace: char -> bool) {
    predicate Valid() {
      !isDigit('\n') && isSpace(' ') && !isSpace('-') && !isSpace('\'')
    }
  }

  function Spaces(n: nat): (r: string)
    ensures |r| == n
  {
    seq(n, _ => ' ')
  }

  // Spaces, but line ends stay.
  function Blanked(s: string): (r: string)
    ensures |r| == |s|
  {
    seq(|s|, i requires 0 <= i < |s| => if s[i] == '\n' then '\n' else ' ')
  }

  // ---------------------------------------------------------------- the masked text

  // How far quoted text reaches, its closing quote included.
  function QuoteLength(q: char, escaped: bool, t: string): (n: nat)
    ensures n <= |t|
    decreases |t|
  {
    if t == "" then 0
    else if escaped then 1 + QuoteLength(q, false, t[1..])
    else if t[0] == '\\' then 1 + QuoteLength(q, true, t[1..])
    else if t[0] != q then 1 + QuoteLength(q, false, t[1..])
    else if |t| > 1 && t[1] == q then 2 + QuoteLength(q, false, t[2..])
    else 1
  }

  // The first "*/" from here on, or the end of the text.
  function FindClose(t: string, from: nat): (n: nat)
    requires from <= |t|
    ensures from <= n <= |t|
    ensures n < |t| ==> n + 1 < |t| && t[n] == '*' && t[n + 1] == '/'
    ensures forall i :: from <= i < n && i + 1 < |t| ==> !(t[i] == '*' && t[i + 1] == '/')
    decreases |t| - from
  {
    if from + 1 >= |t| then |t|
    else if t[from] == '*' && t[from + 1] == '/' then from
    else FindClose(t, from + 1)
  }

  // The first line end, or the end of the text.
  function LineEnd(t: string): (n: nat)
    ensures n <= |t| && (n < |t| ==> t[n] == '\n')
    ensures forall i :: 0 <= i < n ==> t[i] != '\n'
  {
    if t == "" || t[0] == '\n' then 0 else 1 + LineEnd(t[1..])
  }

  predicate OpensComment(t: string) {
    |t| > 1 && t[0] == '/' && t[1] == '*'
  }

  // "/*!" or "/*M!": the length of the marker, if there is one.
  function Marker(t: string): (n: Option<nat>)
    requires OpensComment(t)
    ensures n.Some? ==> 3 <= n.value <= FindClose(t, 2) && n.value <= |t|
  {
    if |t| > 2 && t[2] == '!' then Some(3)
    else if |t| > 3 && (t[2] == 'm' || t[2] == 'M') && t[3] == '!' then
      assert FindClose(t, 2) != 2 && FindClose(t, 2) != 3;
      Some(4)
    else None
  }

  predicate OpensLine(u: Classes, t: string) {
    t != "" && (t[0] == '#' || (|t| > 1 && t[0] == '-' && t[1] == '-' && (|t| == 2 || u.isSpace(t[2]))))
  }

  function DigitsUpTo(u: Classes, t: string, most: nat): (n: nat)
    ensures n <= most && n <= |t| && forall i :: 0 <= i < n ==> u.isDigit(t[i])
  {
    if t == "" || most == 0 || !u.isDigit(t[0]) then 0 else 1 + DigitsUpTo(u, t[1..], most - 1)
  }

  // A version number of five or six digits at the start is blanked out.
  function WithoutVersion(u: Classes, body: string): (r: string)
    ensures |r| == |body|
  {
    var n := DigitsUpTo(u, body, 6);
    if n < 5 then body else Spaces(n) + body[n..]
  }

  function CommentEnd(t: string): (n: nat)
    requires OpensComment(t)
    ensures 2 <= n <= |t|
  {
    Min(|t|, FindClose(t, 2) + 2)
  }

  function Masked(u: Classes, t: string): string
    decreases |t|
  {
    if t == "" then ""
    else if IsQuote(t[0]) then
      var n := 1 + QuoteLength(t[0], false, t[1..]);
      Blanked(t[..n]) + Masked(u, t[n..])
    else if OpensComment(t) then MaskedComment(u, t) + Masked(u, t[CommentEnd(t)..])
    else if OpensLine(u, t) then Spaces(LineEnd(t)) + Masked(u, t[LineEnd(t)..])
    else [t[0]] + Masked(u, t[1..])
  }

  // Comments are blanked, except the body of an executable one, which is masked as code.
  function MaskedComment(u: Classes, t: string): string
    requires OpensComment(t)
    decreases |t|, 0
  {
    var end := FindClose(t, 2);
    match Marker(t)
    case Some(start) => Spaces(start) + Masked(u, WithoutVersion(u, t[start..end])) + Spaces(CommentEnd(t) - end)
    case None => Blanked(t[..CommentEnd(t)])
  }

  // ---------------------------------------------------------------- nothing moves

  predicate IsClean(c: char) {
    !IsQuote(c) && c != '#'
  }

  // The same places, the same lines, and nothing but characters of the text or spaces.
  ghost predicate Masks(m: string, t: string) {
    && |m| == |t|
    && forall i :: 0 <= i < |t| ==> (m[i] == t[i] || m[i] == ' ') && (t[i] == '\n' ==> m[i] == '\n') && IsClean(m[i])
  }

  lemma MasksAppend(a: string, s: string, b: string, t: string)
    requires Masks(a, s) && Masks(b, t)
    ensures Masks(a + b, s + t)
  {
  }

  lemma BlankedMasks(s: string)
    ensures Masks(Blanked(s), s)
  {
  }

  lemma SpacesMask(s: string)
    requires forall i :: 0 <= i < |s| ==> s[i] != '\n'
    ensures Masks(Spaces(|s|), s)
  {
  }

  lemma VersionMasks(u: Classes, m: string, body: string)
    requires u.Valid() && Masks(m, WithoutVersion(u, body))
    ensures Masks(m, body)
  {
    var v, n := WithoutVersion(u, body), DigitsUpTo(u, body, 6);
    forall i | 0 <= i < |body| ensures (v[i] == body[i] || v[i] == ' ') && (body[i] == '\n' ==> v[i] == '\n') {
      if n >= 5 && i >= n { assert v[i] == body[n..][i - n]; }
    }
  }

  lemma {:induction false} MaskedMasks(u: Classes, t: string)
    requires u.Valid()
    ensures Masks(Masked(u, t), t)
    decreases |t|, 1
  {
    if t == "" {
    } else if IsQuote(t[0]) {
      var n := 1 + QuoteLength(t[0], false, t[1..]);
      BlankedMasks(t[..n]);
      MaskedMasks(u, t[n..]);
      MasksAppend(Blanked(t[..n]), t[..n], Masked(u, t[n..]), t[n..]);
      Cut(t, n);
    } else if OpensComment(t) {
      var n := CommentEnd(t);
      CommentMasks(u, t);
      MaskedMasks(u, t[n..]);
      MasksAppend(MaskedComment(u, t), t[..n], Masked(u, t[n..]), t[n..]);
      Cut(t, n);
    } else if OpensLine(u, t) {
      var n := LineEnd(t);
      SpacesMask(t[..n]);
      MaskedMasks(u, t[n..]);
      MasksAppend(Spaces(n), t[..n], Masked(u, t[n..]), t[n..]);
      Cut(t, n);
    } else {
      MaskedMasks(u, t[1..]);
      MasksAppend([t[0]], t[..1], Masked(u, t[1..]), t[1..]);
      Cut(t, 1);
    }
  }

  lemma {:induction false} CommentMasks(u: Classes, t: string)
    requires u.Valid() && OpensComment(t)
    ensures Masks(MaskedComment(u, t), t[..CommentEnd(t)])
    decreases |t|, 0
  {
    var end, n := FindClose(t, 2), CommentEnd(t);
    match Marker(t)
    case None => BlankedMasks(t[..n]);
    case Some(start) =>
      var body := t[start..end];
      MaskedMasks(u, WithoutVersion(u, body));
      VersionMasks(u, Masked(u, WithoutVersion(u, body)), body);
      EndsAreNotLines(t);
      SpacesMask(t[..start]);
      SpacesMask(t[end..n]);
      MasksThree(Spaces(start), t[..start], Masked(u, WithoutVersion(u, body)), body, Spaces(n - end), t[end..n]);
      CutThree(t, start, end, n);
  }

  lemma EndsAreNotLines(t: string)
    requires OpensComment(t) && Marker(t).Some?
    ensures forall i :: 0 <= i < Marker(t).value ==> t[i] != '\n'
    ensures forall i :: FindClose(t, 2) <= i < CommentEnd(t) ==> t[i] != '\n'
  {
  }

  lemma MasksThree(a: string, s: string, b: string, t: string, c: string, v: string)
    requires Masks(a, s) && Masks(b, t) && Masks(c, v)
    ensures Masks(a + b + c, s + t + v)
  {
    MasksAppend(a, s, b, t);
    MasksAppend(a + b, s + t, c, v);
  }

  lemma CutThree(t: string, i: nat, j: nat, n: nat)
    requires i <= j <= n <= |t|
    ensures t[..i] + t[i..j] + t[j..n] == t[..n]
  {
  }

  // ---------------------------------------------------------------- which texts are left alone

  ghost predicate IsPlain(u: Classes, t: string) {
    forall i :: 0 <= i < |t| ==> !IsQuote(t[i]) && !OpensComment(t[i..]) && !OpensLine(u, t[i..])
  }

  lemma PlainTail(u: Classes, t: string)
    requires t != ""
    ensures IsPlain(u, t) <==> !IsQuote(t[0]) && !OpensComment(t) && !OpensLine(u, t) && IsPlain(u, t[1..])
  {
    assert t[0..] == t;
    forall i: nat | i < |t| - 1 ensures t[1..][i] == t[i + 1] && t[1..][i..] == t[i + 1..] {
    }
    if IsPlain(u, t[1..]) {
      forall i | 1 <= i < |t| ensures !IsQuote(t[i]) && !OpensComment(t[i..]) && !OpensLine(u, t[i..]) {
        assert t[1..][i - 1] == t[i] && t[1..][i - 1..] == t[i..];
      }
    }
  }

  lemma MaskedHead(u: Classes, t: string)
    requires t != ""
    ensures IsQuote(t[0]) || OpensComment(t) || OpensLine(u, t) ==> Masked(u, t) != "" && Masked(u, t)[0] == ' '
    ensures !IsQuote(t[0]) && !OpensComment(t) && !OpensLine(u, t) ==> Masked(u, t) == [t[0]] + Masked(u, t[1..])
  {
  }

  // Masking changes nothing exactly when no quote, comment or line comment starts anywhere.
  lemma {:induction false} UnchangedIffPlain(u: Classes, t: string)
    ensures Masked(u, t) == t <==> IsPlain(u, t)
  {
    if t != "" {
      PlainTail(u, t);
      MaskedHead(u, t);
      UnchangedIffPlain(u, t[1..]);
      Cut(t, 1);
      if !IsQuote(t[0]) && !OpensComment(t) && !OpensLine(u, t) {
        assert ([t[0]] + Masked(u, t[1..]))[1..] == Masked(u, t[1..]);
      }
    }
  }

  // ---------------------------------------------------------------- when masking twice is masking once

  predicate Opens(u: Classes, t: string) {
    t != "" && (IsQuote(t[0]) || OpensComment(t) || OpensLine(u, t))
  }

  // Two dashes right in front of something that is masked: no comment here, but one behind spaces.
  predicate DashesBefore(u: Classes, t: string) {
    |t| > 2 && t[0] == '-' && t[1] == '-' && Opens(u, t[2..])
  }

  // Such dashes stand in the code, the bodies of executable comments included.
  predicate Uncovers(u: Classes, t: string)
    decreases |t|
  {
    if t == "" then false
    else if IsQuote(t[0]) then Uncovers(u, t[1 + QuoteLength(t[0], false, t[1..])..])
    else if OpensComment(t) then UncoversComment(u, t) || Uncovers(u, t[CommentEnd(t)..])
    else if OpensLine(u, t) then Uncovers(u, t[LineEnd(t)..])
    else DashesBefore(u, t) || Uncovers(u, t[1..])
  }

  predicate UncoversComment(u: Classes, t: string)
    requires OpensComment(t)
    decreases |t|, 0
  {
    match Marker(t)
    case Some(start) => Uncovers(u, WithoutVersion(u, t[start..FindClose(t, 2)]))
    case None => false
  }

  lemma PlainHead(u: Classes, t: string)
    ensures IsPlain(u, t) <==> t == "" || (!Opens(u, t) && IsPlain(u, t[1..]))
  {
    if t != "" { PlainTail(u, t); }
  }

  // In front of a space nothing is joined.
  lemma {:induction false} PlainAppend(u: Classes, a: string, b: string)
    requires u.Valid() && (b != "" ==> b[0] == ' ')
    ensures IsPlain(u, a + b) <==> IsPlain(u, a) && IsPlain(u, b)
  {
    if a == "" {
      assert a + b == b;
    } else {
      assert (a + b)[1..] == a[1..] + b;
      PlainHead(u, a);
      PlainHead(u, a + b);
      PlainAppend(u, a[1..], b);
    }
  }

  predicate IsWhite(s: string) {
    forall i :: 0 <= i < |s| ==> s[i] == ' ' || s[i] == '\n'
  }

  lemma {:induction false} WhiteIsPlain(u: Classes, a: string, b: string)
    requires IsWhite(a)
    ensures IsPlain(u, a + b) <==> IsPlain(u, b)
  {
    if a == "" {
      assert a + b == b;
    } else {
      assert (a + b)[1..] == a[1..] + b;
      PlainHead(u, a + b);
      WhiteIsPlain(u, a[1..], b);
    }
  }

  lemma CodeHead(u: Classes, t: string, m: string)
    requires u.Valid() && t != "" && !Opens(u, t) && m == Masked(u, t[1..])
    ensures Opens(u, [t[0]] + m) <==> DashesBefore(u, t)
  {
    if |t| > 1 { MaskedHead(u, t[1..]); }
    if |t| > 2 {
      assert t[1..][1..] == t[2..];
      MaskedHead(u, t[2..]);
    }
  }

  lemma BodyIsPlain(u: Classes, a: string, body: string, b: string, rest: string)
    requires u.Valid() && IsWhite(a) && IsWhite(b) && (b != "" ==> b[0] == ' ') && (b == "" ==> rest == "")
    ensures IsPlain(u, a + body + b + rest) <==> IsPlain(u, body) && IsPlain(u, rest)
  {
    Shift(a + body, b, rest);
    Shift(a, body, b + rest);
    WhiteIsPlain(u, a, body + (b + rest));
    PlainAppend(u, body, b + rest);
    WhiteIsPlain(u, b, rest);
  }

  lemma BodyParts(u: Classes, t: string)
    requires OpensComment(t) && Marker(t).Some?
    ensures var end := FindClose(t, 2);
            var body := WithoutVersion(u, t[Marker(t).value..end]);
            && MaskedComment(u, t) == Spaces(Marker(t).value) + Masked(u, body) + Spaces(CommentEnd(t) - end)
            && (UncoversComment(u, t) <==> Uncovers(u, body))
  {
  }

  lemma CommentIsPlain(u: Classes, t: string, rest: string)
    requires u.Valid() && OpensComment(t) && (CommentEnd(t) == |t| ==> rest == "")
    requires Marker(t).Some? ==>
      var body := WithoutVersion(u, t[Marker(t).value..FindClose(t, 2)]);
      IsPlain(u, Masked(u, body)) <==> !Uncovers(u, body)
    ensures IsPlain(u, MaskedComment(u, t) + rest) <==> !UncoversComment(u, t) && IsPlain(u, rest)
  {
    var end, n := FindClose(t, 2), CommentEnd(t);
    match Marker(t)
    case None => WhiteIsPlain(u, Blanked(t[..n]), rest);
    case Some(start) =>
      BodyParts(u, t);
      BodyIsPlain(u, Spaces(start), Masked(u, WithoutVersion(u, t[start..end])), Spaces(n - end), rest);
  }

  lemma {:induction false} MaskedIsPlain(u: Classes, t: string)
    requires u.Valid()
    ensures IsPlain(u, Masked(u, t)) <==> !Uncovers(u, t)
    decreases |t|
  {
    if t == "" {
    } else if IsQuote(t[0]) {
      var n := 1 + QuoteLength(t[0], false, t[1..]);
      MaskedIsPlain(u, t[n..]);
      WhiteIsPlain(u, Blanked(t[..n]), Masked(u, t[n..]));
    } else if OpensComment(t) {
      MaskedIsPlain(u, t[CommentEnd(t)..]);
      if Marker(t).Some? { MaskedIsPlain(u, WithoutVersion(u, t[Marker(t).value..FindClose(t, 2)])); }
      CommentIsPlain(u, t, Masked(u, t[CommentEnd(t)..]));
    } else if OpensLine(u, t) {
      MaskedIsPlain(u, t[LineEnd(t)..]);
      WhiteIsPlain(u, Spaces(LineEnd(t)), Masked(u, t[LineEnd(t)..]));
    } else {
      var m := Masked(u, t[1..]);
      MaskedIsPlain(u, t[1..]);
      CodeHead(u, t, m);
      PlainHead(u, [t[0]] + m);
      assert ([t[0]] + m)[1..] == m;
    }
  }

  // A second pass changes nothing exactly when no dashes are uncovered by the first.
  lemma SecondPassIsIdle(u: Classes, t: string)
    requires u.Valid()
    ensures Masked(u, Masked(u, t)) == Masked(u, t) <==> !Uncovers(u, t)
  {
    MaskedIsPlain(u, t);
    UnchangedIffPlain(u, Masked(u, t));
  }

  // Two dashes in front of a literal are not a comment, but once the literal is masked they are.
  lemma SecondPassMasksMore(u: Classes, t: string, v: string)
    requires u.Valid() && t == ['-', '-', '\'', '\''] && v == ['-', '-', ' ', ' ']
    ensures Masked(u, t) == v && Masked(u, v) != v
  {
    var dash, literal := t[1..], t[2..];
    assert dash[1..] == literal && literal[1..] == ['\''] && literal[1..][1..] == "";
    MaskedHead(u, t);
    MaskedHead(u, dash);
    EmptyLiteral(u, literal);
    MaskedHead(u, v);
  }

  lemma EmptyLiteral(u: Classes, t: string)
    requires t == ['\'', '\'']
    ensures Masked(u, t) == [' ', ' ']
  {
    assert t[1..] == ['\''] && t[..2] == t && t[2..] == "";
    assert QuoteLength('\'', false, t[1..]) == 1;
    assert Masked(u, t[2..]) == "";
  }

  // ---------------------------------------------------------------- the loop

  datatype Mode = Code | Quoted(quote: char, escaped: bool)

  // What is still to be put out.
  function Tail(u: Classes, mode: Mode, t: string): string {
    match mode
    case Code => Masked(u, t)
    case Quoted(q, escaped) => Blanked(t[..QuoteLength(q, escaped, t)]) + Masked(u, t[QuoteLength(q, escaped, t)..])
  }

  ghost predicate OnTrack(u: Classes, t: string, mode: Mode, index: nat, output: string) {
    index <= |t| && (mode.Quoted? ==> IsQuote(mode.quote)) && output + Tail(u, mode, t[index..]) == Masked(u, t)
  }

  lemma Moves(u: Classes, t: string, mode: Mode, index: nat, output: string, n: nat, next: Mode, text: string)
    requires OnTrack(u, t, mode, index, output) && index + n <= |t| && (next.Quoted? ==> IsQuote(next.quote))
    requires Tail(u, mode, t[index..]) == text + Tail(u, next, t[index..][n..])
    ensures OnTrack(u, t, next, index + n, output + text)
  {
    assert t[index..][n..] == t[index + n..];
    Shift(output, text, Tail(u, next, t[index + n..]));
  }

  lemma BlankedCut(s: string, n: nat)
    requires n <= |s|
    ensures Blanked(s) == Blanked(s[..n]) + Blanked(s[n..])
  {
  }

  // The quoted text goes on behind its first bytes.
  lemma QuotedMoves(u: Classes, q: char, escaped: bool, t: string, n: nat, next: bool)
    requires n <= |t| && QuoteLength(q, escaped, t) == n + QuoteLength(q, next, t[n..])
    ensures Tail(u, Quoted(q, escaped), t) == Blanked(t[..n]) + Tail(u, Quoted(q, next), t[n..])
  {
    var m := QuoteLength(q, escaped, t);
    BlankedCut(t[..m], n);
    assert t[..m][..n] == t[..n] && t[..m][n..] == t[n..][..m - n] && t[m..] == t[n..][m - n..];
    Shift(Blanked(t[..n]), Blanked(t[n..][..m - n]), Masked(u, t[m..]));
  }

  lemma QuotedOne(u: Classes, q: char, escaped: bool, t: string)
    requires t != ""
    requires escaped || t[0] != q || t[0] == '\\'
    ensures Tail(u, Quoted(q, escaped), t) == Blanked(t[..1]) + Tail(u, Quoted(q, !escaped && t[0] == '\\'), t[1..])
  {
    QuotedMoves(u, q, escaped, t, 1, !escaped && t[0] == '\\');
  }

  lemma QuotedDouble(u: Classes, q: char, t: string)
    requires |t| > 1 && IsQuote(q) && t[0] == q && t[1] == q
    ensures Tail(u, Quoted(q, false), t) == "  " + Tail(u, Quoted(q, false), t[2..])
  {
    QuotedMoves(u, q, false, t, 2, false);
    assert Blanked(t[..2]) == "  ";
  }

  lemma QuotedEnd(u: Classes, q: char, t: string)
    requires t != "" && IsQuote(q) && t[0] == q && (|t| == 1 || t[1] != q)
    ensures Tail(u, Quoted(q, false), t) == " " + Tail(u, Code, t[1..])
  {
    assert Blanked(t[..1]) == " ";
  }

  lemma QuoteStarts(u: Classes, t: string)
    requires t != "" && IsQuote(t[0])
    ensures Tail(u, Code, t) == " " + Tail(u, Quoted(t[0], false), t[1..])
  {
    var n := QuoteLength(t[0], false, t[1..]);
    BlankedCut(t[..1 + n], 1);
    assert t[..1 + n][..1] == t[..1] && t[..1 + n][1..] == t[1..][..n] && t[1 + n..] == t[1..][n..];
    assert Blanked(t[..1]) == " ";
    Shift(" ", Blanked(t[1..][..n]), Masked(u, t[1 + n..]));
  }

  lemma OneBlank(c: char)
    ensures Blanked([c]) == [if c == '\n' then '\n' else ' ']
  {
  }

  lemma Slices(t: string, index: nat, i: nat, j: nat)
    requires index <= i <= j <= |t|
    ensures t[index..][i - index..j - index] == t[i..j]
  {
  }

  // One round in quotes.
  method InQuotes(ghost u: Classes, text: string, quote: char, escaped: bool, index: nat, output: string)
    returns (mode: Mode, next: nat, masked: string)
    requires OnTrack(u, text, Quoted(quote, escaped), index, output) && index < |text|
    ensures OnTrack(u, text, mode, next, masked) && index < next
  {
    var c := text[index];
    if !escaped && c != '\\' && c == quote {
      if index + 1 < |text| && text[index + 1] == quote {
        QuotedDouble(u, quote, text[index..]);
        Moves(u, text, Quoted(quote, false), index, output, 2, Quoted(quote, false), "  ");
        return Quoted(quote, false), index + 2, output + "  ";
      }
      QuotedEnd(u, quote, text[index..]);
      Moves(u, text, Quoted(quote, false), index, output, 1, Code, " ");
      return Code, index + 1, output + " ";
    }
    QuotedOne(u, quote, escaped, text[index..]);
    OneBlank(c);
    assert text[index..][..1] == [c];
    Moves(u, text, Quoted(quote, escaped), index, output, 1, Quoted(quote, !escaped && c == '\\'), Blanked([c]));
    return Quoted(quote, !escaped && c == '\\'), index + 1, output + (if c == '\n' then "\n" else " ");
  }

  lemma CommentMoves(u: Classes, text: string, index: nat, output: string, rest: string, n: nat, comment: string,
                     next: nat, masked: string)
    requires next == index + n && masked == output + comment
    requires OnTrack(u, text, Code, index, output) && index < |text| && rest == text[index..]
    requires !IsQuote(rest[0]) && OpensComment(rest) && n == CommentEnd(rest) && comment == MaskedComment(u, rest)
    ensures OnTrack(u, text, Code, next, masked)
  {
    Moves(u, text, Code, index, output, n, Code, comment);
  }

  lemma LineIsBlanked(u: Classes, t: string)
    requires t != "" && !IsQuote(t[0]) && !OpensComment(t) && OpensLine(u, t)
    ensures LineEnd(t) > 0 && Masked(u, t) == Spaces(LineEnd(t)) + Masked(u, t[LineEnd(t)..])
  {
  }

  lemma LineMovesOn(u: Classes, text: string, index: nat, output: string, rest: string, n: nat)
    requires OnTrack(u, text, Code, index, output) && index < |text| && rest == text[index..] && n == LineEnd(rest)
    requires Masked(u, rest) == Spaces(n) + Masked(u, rest[n..])
    ensures OnTrack(u, text, Code, index + n, output + Spaces(n))
  {
    Moves(u, text, Code, index, output, n, Code, Spaces(n));
  }

  lemma CodeMoves(u: Classes, text: string, index: nat, output: string, rest: string)
    requires OnTrack(u, text, Code, index, output) && index < |text| && rest == text[index..]
    requires !IsQuote(rest[0]) && !OpensComment(rest) && !OpensLine(u, rest)
    ensures OnTrack(u, text, Code, index + 1, output + [rest[0]])
  {
    Moves(u, text, Code, index, output, 1, Code, [rest[0]]);
  }

  lemma QuoteMoves(u: Classes, text: string, index: nat, output: string, rest: string)
    requires OnTrack(u, text, Code, index, output) && index < |text| && rest == text[index..] && IsQuote(rest[0])
    ensures OnTrack(u, text, Quoted(rest[0], false), index + 1, output + " ")
  {
    QuoteStarts(u, rest);
    Moves(u, text, Code, index, output, 1, Quoted(rest[0], false), " ");
  }

  method MaskComment(u: Classes, comment: string) returns (masked: string)
    requires OpensComment(comment)
    ensures masked == MaskedComment(u, comment)
    decreases |comment|, 0
  {
    var end := FindClose(comment, 2);
    match Marker(comment)
    case Some(start) =>
      var body := SqlCode(u, WithoutVersion(u, comment[start..end]));
      return Spaces(start) + body + Spaces(CommentEnd(comment) - end);
    case None =>
      return Blanked(comment[..CommentEnd(comment)]);
  }

  method InComment(u: Classes, text: string, index: nat, output: string, rest: string)
    returns (next: nat, masked: string)
    requires OnTrack(u, text, Code, index, output) && index < |text| && rest == text[index..]
    requires !IsQuote(rest[0]) && OpensComment(rest)
    ensures OnTrack(u, text, Code, next, masked) && index < next
    decreases |text|, 1
  {
    var n := CommentEnd(rest);
    var comment := MaskComment(u, rest);
    next, masked := index + n, output + comment;
    CommentMoves(u, text, index, output, rest, n, comment, next, masked);
  }

  // One round outside quotes.
  method InCode(u: Classes, text: string, index: nat, output: string) returns (mode: Mode, next: nat, masked: string)
    requires OnTrack(u, text, Code, index, output) && index < |text|
    ensures OnTrack(u, text, mode, next, masked) && index < next
    decreases |text|, 2
  {
    var rest := text[index..];
    if IsQuote(rest[0]) {
      QuoteMoves(u, text, index, output, rest);
      mode, next, masked := Quoted(rest[0], false), index + 1, output + " ";
    } else if OpensComment(rest) {
      next, masked := InComment(u, text, index, output, rest);
      mode := Code;
    } else if OpensLine(u, rest) {
      var n := LineEnd(rest);
      LineIsBlanked(u, rest);
      LineMovesOn(u, text, index, output, rest, n);
      mode, next, masked := Code, index + n, output + Spaces(n);
    } else {
      CodeMoves(u, text, index, output, rest);
      mode, next, masked := Code, index + 1, output + [rest[0]];
    }
  }

  lemma StartsOnTrack(u: Classes, text: string)
    ensures OnTrack(u, text, Code, 0, "")
  {
    assert text[0..] == text && "" + Masked(u, text) == Masked(u, text);
  }

  lemma EndsOnTrack(u: Classes, text: string, mode: Mode, output: string)
    requires OnTrack(u, text, mode, |text|, output)
    ensures output == Masked(u, text)
  {
    assert text[|text|..] == "" && output + "" == output;
  }

  method SqlCode(u: Classes, text: string) returns (output: string)
    ensures output == Masked(u, text)
    decreases |text|, 3
  {
    output := "";
    var index := 0;
    var mode := Code;
    StartsOnTrack(u, text);
    while index < |text|
      invariant OnTrack(u, text, mode, index, output)
      decreases |text| - index
    {
      if mode.Quoted? {
        mode, index, output := InQuotes(u, text, mode.quote, mode.escaped, index, output);
      } else {
        mode, index, output := InCode(u, text, index, output);
      }
    }
    EndsOnTrack(u, text, mode, output);
  }

  // ---------------------------------------------------------------- statements and their lines

  function Lines(s: string): nat {
    if s == "" then 0 else Lines(s[..|s| - 1]) + (if s[|s| - 1] == '\n' then 1 else 0)
  }

  // The line of an offset, counted from one.
  function LineAt(s: string, offset: nat): nat
    requires offset <= |s|
  {
    1 + Lines(s[..offset])
  }

  lemma {:induction false} SameLines(m: string, t: string)
    requires |m| == |t| && forall i :: 0 <= i < |t| ==> (m[i] == '\n' <==> t[i] == '\n')
    ensures Lines(m) == Lines(t)
  {
    if t != "" { SameLines(m[..|m| - 1], t[..|t| - 1]); }
  }

  // A line computed from the masked text is the line in the text itself.
  lemma LinesAreKept(u: Classes, t: string, offset: nat)
    requires u.Valid() && offset <= |t|
    ensures |Masked(u, t)| == |t| && LineAt(Masked(u, t), offset) == LineAt(t, offset)
  {
    MaskedMasks(u, t);
    SameLines(Masked(u, t)[..offset], t[..offset]);
  }

  lemma {:induction false} LinesAppend(a: string, b: string)
    ensures Lines(a + b) == Lines(a) + Lines(b)
  {
    if b == "" {
      assert a + b == a;
    } else {
      assert (a + b)[..|a + b| - 1] == a + b[..|b| - 1];
      LinesAppend(a, b[..|b| - 1]);
    }
  }

  // Where the statements start: at the beginning and behind every semicolon.
  function Starts(s: string): (r: seq<nat>)
    ensures r != [] && forall k :: 0 <= k < |r| ==> r[k] <= |s|
  {
    if s == "" then [0]
    else if s[|s| - 1] == ';' then Starts(s[..|s| - 1]) + [|s|]
    else Starts(s[..|s| - 1])
  }

  // The next semicolon, or the end of the text.
  function NextSemicolon(s: string, from: nat): (n: nat)
    requires from <= |s|
    ensures from <= n <= |s| && (n < |s| ==> s[n] == ';')
    ensures forall i :: from <= i < n ==> s[i] != ';'
    decreases |s| - from
  {
    if from == |s| || s[from] == ';' then from else NextSemicolon(s, from + 1)
  }

  lemma {:induction false} StartsUpTo(s: string, from: nat, to: nat)
    requires from <= to <= |s| && forall i :: from <= i < to ==> s[i] != ';'
    ensures Starts(s[..to]) == Starts(s[..from])
  {
    if from < to {
      assert s[..to][..to - 1] == s[..to - 1];
      StartsUpTo(s, from, to - 1);
    }
  }

  lemma OneMoreStart(s: string, start: nat, end: nat)
    requires start <= end < |s| && s[end] == ';' && forall i :: start <= i < end ==> s[i] != ';'
    ensures Starts(s[..end + 1]) == Starts(s[..start]) + [end + 1]
  {
    StartsUpTo(s, start, end);
    assert s[..end + 1][..end] == s[..end];
  }

  lemma LineMoves(s: string, start: nat, end: nat)
    requires start <= end < |s| && s[end] == ';'
    ensures LineAt(s, end + 1) == LineAt(s, start) + Lines(s[start..end])
  {
    assert s[..end] == s[..start] + s[start..end];
    LinesAppend(s[..start], s[start..end]);
    assert s[..end + 1][..end] == s[..end];
  }

  // One statement: up to the next semicolon, with the line it starts on.
  function StatementFrom(s: string, start: nat): (string, nat)
    requires start <= |s|
  {
    (s[start..NextSemicolon(s, start)], LineAt(s, start))
  }

  // The statements that start at all but the last of these offsets are done.
  ghost predicate IsDone(s: string, starts: seq<nat>, start: nat, r: seq<(string, nat)>) {
    && |starts| == |r| + 1 && starts[|r|] == start <= |s|
    && forall k :: 0 <= k < |r| ==> starts[k] <= |s| && r[k] == StatementFrom(s, starts[k])
  }

  lemma OneMoreDone(s: string, starts: seq<nat>, start: nat, r: seq<(string, nat)>, next: nat)
    requires IsDone(s, starts, start, r) && next <= |s|
    ensures IsDone(s, starts + [next], next, r + [StatementFrom(s, start)])
  {
  }

  // A statement for each start: its text up to the next semicolon, and the line it starts on.
  method Statements(masked: string) returns (r: seq<(string, nat)>)
    ensures |r| == |Starts(masked)|
    ensures forall k :: 0 <= k < |r| ==> r[k] == StatementFrom(masked, Starts(masked)[k])
  {
    r := [];
    var start, line := 0, 1;
    var end := NextSemicolon(masked, 0);
    while end < |masked|
      invariant start <= |masked| && end == NextSemicolon(masked, start) && line == LineAt(masked, start)
      invariant IsDone(masked, Starts(masked[..start]), start, r)
      decreases |masked| - start
    {
      OneMoreStart(masked, start, end);
      LineMoves(masked, start, end);
      OneMoreDone(masked, Starts(masked[..start]), start, r, end + 1);
      r := r + [(masked[start..end], line)];
      line := line + Lines(masked[start..end]);
      start := end + 1;
      end := NextSemicolon(masked, start);
    }
    StartsUpTo(masked, start, |masked|);
    assert masked[..|masked|] == masked;
    OneMoreDone(masked, Starts(masked), start, r, start);
    r := r + [(masked[start..], line)];
  }
}
