/** The table keys as JSON: the texts that are read are exactly the arrays of two strings of RFC 8259
    (sections 2, 5 and 7), and the text that is written is the shortest of them. */
module JsonStrings {
  import opened Wrappers
  import opened TableKeys

  // ---------------------------------------------------------------- how a character can be written

  // As it is, behind a backslash, as a code of four hex digits, or as two such codes.
  datatype Piece = Raw(c: char) | Short(letter: char) | Code(digits: string) | TwoCodes(high: string, low: string)

  predicate IsHex(c: char) {
    c in "0123456789abcdefABCDEF"
  }

  function HexOf(c: char): nat
    requires IsHex(c)
  {
    if c in "0123456789" then c as int - 48 else if c in "abcdef" then c as int - 87 else c as int - 55
  }

  predicate FourHex(s: string) {
    |s| == 4 && IsHex(s[0]) && IsHex(s[1]) && IsHex(s[2]) && IsHex(s[3])
  }

  function CodeOf(s: string): nat
    requires FourHex(s)
  {
    HexOf(s[0]) * 4096 + HexOf(s[1]) * 256 + HexOf(s[2]) * 16 + HexOf(s[3])
  }

  predicate IsHigh(n: nat) {
    0xD800 <= n <= 0xDBFF
  }

  predicate IsLow(n: nat) {
    0xDC00 <= n <= 0xDFFF
  }

  predicate IsPiece(p: Piece) {
    match p
    case Raw(c) => c as int >= 32 && c != '"' && c != '\\'
    case Short(letter) => letter in "\"\\/bfnrt"
    case Code(digits) =>
      FourHex(digits) && !IsHigh(CodeOf(digits)) && !IsLow(CodeOf(digits)) && CodeOf(digits) <= 0xFFFF
    case TwoCodes(high, low) => FourHex(high) && FourHex(low) && IsHigh(CodeOf(high)) && IsLow(CodeOf(low))
  }

  function PieceText(p: Piece): string {
    match p
    case Raw(c) => [c]
    case Short(letter) => ['\\', letter]
    case Code(digits) => ['\\', 'u'] + digits
    case TwoCodes(high, low) => ['\\', 'u'] + (high + (['\\', 'u'] + low))
  }

  // What it stands for; two codes are a surrogate pair.
  function PieceChar(p: Piece): char
    requires IsPiece(p)
  {
    match p
    case Raw(c) => c
    case Short(letter) =>
      if letter == 'b' then 8 as char
      else if letter == 't' then 9 as char
      else if letter == 'n' then 10 as char
      else if letter == 'f' then 12 as char
      else if letter == 'r' then 13 as char
      else letter
    case Code(digits) => CodeOf(digits) as char
    case TwoCodes(high, low) => (0x10000 + (CodeOf(high) - 0xD800) * 0x400 + (CodeOf(low) - 0xDC00)) as char
  }

  predicate ArePieces(ps: seq<Piece>) {
    forall i :: 0 <= i < |ps| ==> IsPiece(ps[i])
  }

  function PiecesText(ps: seq<Piece>): string {
    if ps == [] then "" else PieceText(ps[0]) + PiecesText(ps[1..])
  }

  function PiecesChars(ps: seq<Piece>): string
    requires ArePieces(ps)
  {
    if ps == [] then "" else [PieceChar(ps[0])] + PiecesChars(ps[1..])
  }

  // ---------------------------------------------------------------- reading

  lemma HexIsRead(c: char)
    ensures HexValue(c).Some? <==> IsHex(c)
    ensures HexValue(c).Some? ==> HexValue(c).value == HexOf(c)
  {
  }

  lemma CodeIsRead(s: string)
    ensures HexFour(s).Some? <==> |s| >= 4 && FourHex(s[..4])
    ensures HexFour(s).Some? ==> HexFour(s).value == CodeOf(s[..4])
  {
    if |s| >= 4 {
      HexIsRead(s[0]);
      HexIsRead(s[1]);
      HexIsRead(s[2]);
      HexIsRead(s[3]);
    }
  }

  // Behind a backslash: the piece that is read there, if it is one.
  ghost predicate IsEscape(s: string, p: Piece) {
    IsPiece(p) && !p.Raw? && PieceText(p)[1..] <= s
  }

  lemma ShortIsRead(s: string, p: Piece)
    requires p.Short? && IsEscape(s, p)
    ensures ReadEscape(s) == Some((PieceChar(p), |PieceText(p)| - 1))
  {
    assert s[0] == p.letter;
  }

  // What stands behind "\u": one code, or two.
  ghost predicate IsCode(s: string, p: Piece) {
    && IsPiece(p)
    && match p
       case Code(digits) => digits <= s
       case TwoCodes(high, low) => high + (['\\', 'u'] + low) <= s
       case _ => false
  }

  lemma OneCodeIsRead(s: string, p: Piece)
    requires p.Code? && IsCode(s, p)
    ensures ReadCode(s) == Some((PieceChar(p), 5))
  {
    assert s[..4] == p.digits;
    CodeIsRead(s);
  }

  lemma PairSplits(s: string, high: string, low: string)
    requires |high| == 4 && |low| == 4 && high + (['\\', 'u'] + low) <= s
    ensures |s| >= 10 && s[..4] == high && s[4] == '\\' && s[5] == 'u' && s[6..][..4] == low
  {
    var t := high + (['\\', 'u'] + low);
    assert t[..4] == high && t[4] == '\\' && t[5] == 'u' && t[6..] == low;
    assert s[6..][..4] == s[..10][6..];
  }

  lemma PairJoins(s: string)
    requires |s| >= 10 && s[4] == '\\' && s[5] == 'u'
    ensures s[..4] + (['\\', 'u'] + s[6..][..4]) <= s
  {
    assert s[..10] == s[..4] + ([s[4], s[5]] + s[6..][..4]);
  }

  lemma PairResult(s: string, high: nat, low: nat)
    requires |s| >= 10 && s[4] == '\\' && s[5] == 'u' && HexFour(s) == Some(high) && HexFour(s[6..]) == Some(low)
    requires IsHigh(high) && IsLow(low)
    ensures ReadCode(s) == Some(((0x10000 + (high - 0xD800) * 0x400 + (low - 0xDC00)) as char, 11))
  {
  }

  lemma CodesAreRead(s: string)
    requires |s| >= 10 && FourHex(s[..4]) && s[4] == '\\' && s[5] == 'u' && FourHex(s[6..][..4])
    requires IsHigh(CodeOf(s[..4])) && IsLow(CodeOf(s[6..][..4]))
    ensures ReadCode(s) == Some((PieceChar(TwoCodes(s[..4], s[6..][..4])), 11))
  {
    CodeIsRead(s);
    CodeIsRead(s[6..]);
    PairResult(s, CodeOf(s[..4]), CodeOf(s[6..][..4]));
  }

  lemma TwoCodesAreRead(s: string, p: Piece)
    requires p.TwoCodes? && IsCode(s, p)
    ensures ReadCode(s) == Some((PieceChar(p), 11))
  {
    PairSplits(s, p.high, p.low);
    CodesAreRead(s);
  }

  lemma CodeInFront(s: string) returns (p: Piece)
    requires ReadCode(s).Some?
    ensures IsCode(s, p)
  {
    CodeIsRead(s);
    if IsHigh(CodeOf(s[..4])) {
      CodeIsRead(s[6..]);
      p := TwoCodes(s[..4], s[6..][..4]);
      PairJoins(s);
    } else {
      p := Code(s[..4]);
    }
  }

  // An escape that is a code is a "u" in front of it.
  lemma EscapeIsCode(s: string, p: Piece)
    requires p.Code? || p.TwoCodes?
    ensures IsEscape(s, p) <==> s != "" && s[0] == 'u' && IsCode(s[1..], p)
  {
    var t := PieceText(p)[1..];
    var rest := if p.Code? then p.digits else p.high + (['\\', 'u'] + p.low);
    assert t == ['u'] + rest;
    if s != "" { PrefixBehind(s, 'u', rest); }
  }

  lemma PrefixBehind(s: string, c: char, rest: string)
    requires s != ""
    ensures [c] + rest <= s <==> s[0] == c && rest <= s[1..]
  {
    if [c] + rest <= s { assert s[1..][..|rest|] == s[..1 + |rest|][1..] == rest; }
    if s[0] == c && rest <= s[1..] { assert s[..1 + |rest|] == [c] + s[1..][..|rest|]; }
  }

  lemma UIsRead(s: string)
    requires s != "" && s[0] == 'u'
    ensures ReadEscape(s) == ReadCode(s[1..])
  {
  }

  lemma EscapeIsRead(s: string, p: Piece)
    requires IsEscape(s, p)
    ensures ReadEscape(s) == Some((PieceChar(p), |PieceText(p)| - 1))
  {
    if p.Short? {
      ShortIsRead(s, p);
    } else {
      EscapeIsCode(s, p);
      UIsRead(s);
      if p.Code? { OneCodeIsRead(s[1..], p); } else { TwoCodesAreRead(s[1..], p); }
    }
  }

  lemma EscapeInFront(s: string) returns (p: Piece)
    requires ReadEscape(s).Some?
    ensures IsEscape(s, p)
  {
    if s[0] == 'u' {
      p := CodeInFront(s[1..]);
      EscapeIsCode(s, p);
    } else {
      p := Short(s[0]);
      assert PieceText(p)[1..] == [s[0]];
    }
  }

  // Reading goes on behind a piece.
  ghost predicate GoesOn(s: string, c: char, t: string) {
    && (ReadString(s).Some? <==> ReadString(t).Some?)
    && (ReadString(s).Some? ==> ReadString(s).value == ([c] + ReadString(t).value.0, ReadString(t).value.1))
  }

  lemma RawGoesOn(s: string, c: char, t: string)
    requires s == [c] + t && IsPiece(Raw(c))
    ensures GoesOn(s, c, t)
  {
    assert s[1..] == t;
  }

  lemma EscapeGoesOn(s: string, c: char, n: nat, t: string)
    requires s != "" && s[0] == '\\' && ReadEscape(s[1..]) == Some((c, n)) && n < |s| && t == s[1 + n..]
    ensures GoesOn(s, c, t)
  {
  }

  lemma NextPiece(s: string, p: Piece, t: string)
    requires IsPiece(p) && s == PieceText(p) + t
    ensures GoesOn(s, PieceChar(p), t)
  {
    if p.Raw? {
      RawGoesOn(s, p.c, t);
    } else {
      assert s[0] == '\\' && s[1..] == PieceText(p)[1..] + t && s[|PieceText(p)|..] == t;
      EscapeIsRead(s[1..], p);
      EscapeGoesOn(s, PieceChar(p), |PieceText(p)| - 1, t);
    }
  }

  lemma {:induction false} PiecesAreRead(ps: seq<Piece>, rest: string)
    requires ArePieces(ps)
    ensures ReadString(PiecesText(ps) + ("\"" + rest)) == Some((PiecesChars(ps), rest))
    decreases |ps|
  {
    var t := PiecesText(ps) + ("\"" + rest);
    if ps == [] {
      assert t == "\"" + rest && t[1..] == rest;
    } else {
      Shift(PieceText(ps[0]), PiecesText(ps[1..]), "\"" + rest);
      PiecesAreRead(ps[1..], rest);
      NextPiece(t, ps[0], PiecesText(ps[1..]) + ("\"" + rest));
    }
  }

  // The first piece of a text that is read, and what follows.
  lemma FirstPiece(s: string) returns (p: Piece, t: string)
    requires ReadString(s).Some? && s[0] != '"'
    ensures IsPiece(p) && s == PieceText(p) + t
  {
    if s[0] == '\\' {
      p := EscapeInFront(s[1..]);
      EscapeIsRead(s[1..], p);
      assert s[1..][..|PieceText(p)| - 1] == PieceText(p)[1..];
    } else {
      p := Raw(s[0]);
    }
    t := s[|PieceText(p)|..];
    assert s[..|PieceText(p)|] == PieceText(p);
    Cut(s, |PieceText(p)|);
  }

  lemma PieceFirst(p: Piece, ps: seq<Piece>, end: string)
    requires IsPiece(p) && ArePieces(ps)
    ensures ArePieces([p] + ps) && PiecesText([p] + ps) + end == PieceText(p) + (PiecesText(ps) + end)
    ensures PiecesChars([p] + ps) == [PieceChar(p)] + PiecesChars(ps)
  {
    assert ([p] + ps)[1..] == ps;
    Shift(PieceText(p), PiecesText(ps), end);
  }

  lemma {:induction false} ReadPieces(s: string) returns (ps: seq<Piece>)
    requires ReadString(s).Some?
    ensures ArePieces(ps) && s == PiecesText(ps) + ("\"" + ReadString(s).value.1)
    ensures PiecesChars(ps) == ReadString(s).value.0
    decreases |s|
  {
    if s[0] == '"' {
      ps := [];
      assert s == "" + ("\"" + s[1..]);
    } else {
      var p, t := FirstPiece(s);
      NextPiece(s, p, t);
      ps := ReadPieces(t);
      PieceFirst(p, ps, "\"" + ReadString(s).value.1);
      ps := [p] + ps;
    }
  }

  ghost predicate IsWriting(ps: seq<Piece>, s: string, chars: string, rest: string) {
    ArePieces(ps) && s == PiecesText(ps) + ("\"" + rest) && PiecesChars(ps) == chars
  }

  // A string is read exactly when it is written in some such way, and as what is written.
  lemma ReadIsWriting(s: string, chars: string, rest: string)
    ensures ReadString(s) == Some((chars, rest)) <==> exists ps :: IsWriting(ps, s, chars, rest)
  {
    if ReadString(s) == Some((chars, rest)) {
      var ps := ReadPieces(s);
      assert IsWriting(ps, s, chars, rest);
    }
    forall ps | IsWriting(ps, s, chars, rest) ensures ReadString(s) == Some((chars, rest)) {
      PiecesAreRead(ps, rest);
    }
  }

  // ---------------------------------------------------------------- writing

  lemma EscapeForms(c: char)
    ensures c as int >= 32 && c != '"' && c != '\\' ==> EscapeChar(c) == [c]
    ensures c == '"' || c == '\\' || c as int in {8, 9, 10, 12, 13} ==> |EscapeChar(c)| == 2
    ensures |EscapeChar(c)| <= 6
  {
  }

  // No piece is shorter than the escape that is written, ...
  lemma EscapeIsShortest(p: Piece)
    requires IsPiece(p)
    ensures |EscapeChar(PieceChar(p))| <= |PieceText(p)|
  {
    EscapeForms(PieceChar(p));
  }

  // ... which has no capital hex digit.
  lemma EscapeIsSmall(c: char)
    ensures EscapeChar(c) == [c] || forall i :: 0 <= i < |EscapeChar(c)| ==> EscapeChar(c)[i] !in "ABCDEF"
  {
    if c as int < 32 {
      HexDigitIsSmall(c as int / 16);
      HexDigitIsSmall(c as int % 16);
    }
  }

  lemma HexDigitIsSmall(n: nat)
    requires n < 16
    ensures HexDigit(n) !in "ABCDEF"
  {
  }

  // Of all the ways to write a text as a JSON string the written one is the shortest.
  lemma {:induction false} WritingIsShortest(ps: seq<Piece>)
    requires ArePieces(ps)
    ensures |EscapeString(PiecesChars(ps))| <= |PiecesText(ps)|
    decreases |ps|
  {
    if ps != [] {
      EscapeIsShortest(ps[0]);
      WritingIsShortest(ps[1..]);
      assert PiecesChars(ps)[1..] == PiecesChars(ps[1..]);
    }
  }

  // ---------------------------------------------------------------- the array

  // Space, tab, line feed, carriage return.
  predicate IsWhite(c: char) {
    c as int in {32, 9, 10, 13}
  }

  predicate AreSpaces(s: string) {
    forall i :: 0 <= i < |s| ==> IsWhite(s[i])
  }

  lemma {:induction false} SpacesAreSkipped(blanks: string, rest: string)
    requires AreSpaces(blanks) && (rest == "" || !IsWhite(rest[0]))
    ensures SkipSpaces(blanks + rest) == rest
  {
    if blanks == "" {
      assert blanks + rest == rest;
    } else {
      assert (blanks + rest)[1..] == blanks[1..] + rest;
      SpacesAreSkipped(blanks[1..], rest);
    }
  }

  lemma {:induction false} SkippedAreSpaces(s: string) returns (blanks: string)
    ensures AreSpaces(blanks) && s == blanks + SkipSpaces(s)
    ensures SkipSpaces(s) == "" || !IsWhite(SkipSpaces(s)[0])
  {
    if s != "" && s[0] in " \t\n\r" {
      blanks := SkippedAreSpaces(s[1..]);
      Shift([s[0]], blanks, SkipSpaces(s));
      blanks := [s[0]] + blanks;
      assert s == [s[0]] + s[1..];
    } else {
      blanks := "";
      assert s == "" + s;
    }
  }

  // Spaces, a given character, and what follows.
  ghost predicate Leads(s: string, blanks: string, c: char, rest: string) {
    AreSpaces(blanks) && s == blanks + ([c] + rest)
  }

  lemma ExpectIsLead(s: string, c: char, rest: string)
    requires !IsWhite(c)
    ensures Expect(s, c) == Some(rest) <==> exists blanks :: Leads(s, blanks, c, rest)
  {
    if Expect(s, c) == Some(rest) {
      var blanks := SkippedAreSpaces(s);
      var t := SkipSpaces(s);
      assert t == [c] + t[1..];
      assert Leads(s, blanks, c, rest);
    }
    forall blanks | Leads(s, blanks, c, rest) ensures Expect(s, c) == Some(rest) {
      assert ([c] + rest)[1..] == rest;
      SpacesAreSkipped(blanks, [c] + rest);
    }
  }

  // Spaces, the lead, spaces, and a string in quotes.
  ghost predicate IsItem(s: string, lead: char, chars: string, rest: string) {
    exists t, u, a, b, ps :: Leads(s, a, lead, t) && Leads(t, b, '"', u) && IsWriting(ps, u, chars, rest)
  }

  lemma ItemIsRead(s: string, lead: char, chars: string, rest: string)
    requires !IsWhite(lead)
    ensures ReadItem(s, lead) == Some((chars, rest)) <==> IsItem(s, lead, chars, rest)
  {
    if ReadItem(s, lead) == Some((chars, rest)) {
      var t := Expect(s, lead).value;
      var u := Expect(t, '"').value;
      ExpectIsLead(s, lead, t);
      ExpectIsLead(t, '"', u);
      ReadIsWriting(u, chars, rest);
      var a :| Leads(s, a, lead, t);
      var b :| Leads(t, b, '"', u);
      var ps :| IsWriting(ps, u, chars, rest);
      assert Leads(s, a, lead, t) && Leads(t, b, '"', u) && IsWriting(ps, u, chars, rest);
    }
    if t, u, a, b, ps :| Leads(s, a, lead, t) && Leads(t, b, '"', u) && IsWriting(ps, u, chars, rest) {
      ExpectIsLead(s, lead, t);
      ExpectIsLead(t, '"', u);
      ReadIsWriting(u, chars, rest);
    }
  }

  // An array of two strings and nothing else.
  ghost predicate IsArray(s: string, database: string, table: string) {
    exists t, u, v, a :: IsItem(s, '[', database, t) && IsItem(t, ',', table, u) && Leads(u, a, ']', v) && AreSpaces(v)
  }

  lemma OnlySpaces(s: string)
    ensures SkipSpaces(s) == [] <==> AreSpaces(s)
  {
    if SkipSpaces(s) == [] {
      var blanks := SkippedAreSpaces(s);
      assert blanks + [] == blanks;
    }
    if AreSpaces(s) {
      SpacesAreSkipped(s, "");
      assert s + "" == s;
    }
  }

  lemma DecodedHasParts(s: string, database: string, table: string)
    requires DecodeTableKey(s) == Some((database, table))
    ensures IsArray(s, database, table)
  {
    var t := ReadItem(s, '[').value.1;
    var u := ReadItem(t, ',').value.1;
    var v := Expect(u, ']').value;
    ItemIsRead(s, '[', database, t);
    ItemIsRead(t, ',', table, u);
    ExpectIsLead(u, ']', v);
    OnlySpaces(v);
    var a :| Leads(u, a, ']', v);
    assert IsItem(s, '[', database, t) && IsItem(t, ',', table, u) && Leads(u, a, ']', v) && AreSpaces(v);
  }

  lemma PartsAreDecoded(s: string, database: string, table: string, t: string, u: string, v: string)
    requires IsItem(s, '[', database, t) && IsItem(t, ',', table, u)
    requires (exists a :: Leads(u, a, ']', v)) && AreSpaces(v)
    ensures DecodeTableKey(s) == Some((database, table))
  {
    ItemIsRead(s, '[', database, t);
    ItemIsRead(t, ',', table, u);
    ExpectIsLead(u, ']', v);
    OnlySpaces(v);
  }

  // A field name is read as a table exactly when it is a JSON array of its two names.
  lemma DecodedIsArray(s: string, database: string, table: string)
    ensures DecodeTableKey(s) == Some((database, table)) <==> IsArray(s, database, table)
  {
    if DecodeTableKey(s) == Some((database, table)) { DecodedHasParts(s, database, table); }
    if t, u, v, a :| IsItem(s, '[', database, t) && IsItem(t, ',', table, u) && Leads(u, a, ']', v) && AreSpaces(v) {
      PartsAreDecoded(s, database, table, t, u, v);
    }
  }
}
