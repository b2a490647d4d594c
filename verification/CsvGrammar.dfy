/** What a CSV file is: the grammar that the character-by-character parser accepts, and the row files
    that load. */
module CsvGrammar {
  import opened Wrappers
  import opened Batches
  import opened Csv

  // ---------------------------------------------------------------- the grammar

  // A file is a list of tokens. `Quoted` holds the text between the quotes, with its doubled quotes read.
  datatype Token = Comma | LineEnd | Return | Plain(c: char) | Quoted(body: string)

  function Spelled(token: Token): (s: string)
    ensures s != []
  {
    match token
    case Comma => ","
    case LineEnd => "\n"
    case Return => "\r"
    case Plain(c) => [c]
    case Quoted(body) => "\"" + (DoubleQuotes(body) + "\"")
  }

  function Text(tokens: seq<Token>): string {
    if tokens == [] then [] else Spelled(tokens[0]) + Text(tokens[1..])
  }

  // Quotes open only where the field is still empty; a quote behind some text stands for itself. A
  // closing quote is not followed by another one.
  predicate Proper(tokens: seq<Token>, empty: bool) {
    tokens == [] ||
    match tokens[0]
    case Comma => Proper(tokens[1..], true)
    case LineEnd => Proper(tokens[1..], true)
    case Return => Proper(tokens[1..], empty)
    case Plain(c) => c !in ",\n\r" && (c == '"' ==> !empty) && Proper(tokens[1..], false)
    case Quoted(body) => empty && !("\"" <= Text(tokens[1..])) && Proper(tokens[1..], body == "")
  }

  // The tokens split at line ends, then at commas; the last line is the one that is still open.
  function Lines(tokens: seq<Token>): (r: seq<Record>)
    ensures r != [] && r[0] != []
  {
    if tokens == [] then [[""]] else
      var rest := Lines(tokens[1..]);
      match tokens[0]
      case Comma => [[""] + rest[0]] + rest[1..]
      case LineEnd => [[""]] + rest
      case Return => rest
      case Plain(c) => InFront([c], rest)
      case Quoted(body) => InFront(body, rest)
  }

  // Lines with some text before their first field.
  function InFront(text: string, lines: seq<Record>): (r: seq<Record>)
    requires lines != [] && lines[0] != []
    ensures r != [] && r[0] != []
  {
    [[text + lines[0][0]] + lines[0][1..]] + lines[1..]
  }

  // An open last line of one empty field is no record.
  function Closed(lines: seq<Record>): seq<Record>
    requires lines != []
  {
    if lines[|lines| - 1] == [""] then lines[..|lines| - 1] else lines
  }

  ghost predicate IsFile(tokens: seq<Token>, text: string, records: seq<Record>) {
    Proper(tokens, true) && Text(tokens) == text && Closed(Lines(tokens)) == records
  }

  // ---------------------------------------------------------------- the parser reads the grammar

  // Lines behind what a state has read.
  function Behind(state: State, lines: seq<Record>): (r: seq<Record>)
    requires lines != [] && lines[0] != []
    ensures r != []
  {
    state.records + [state.record + [state.field + lines[0][0]] + lines[0][1..]] + lines[1..]
  }

  // One token read by the parser.
  function After(state: State, token: Token): State {
    match token
    case Comma => State(state.records, state.record + [state.field], [], state.quoted)
    case LineEnd => State(state.records + [state.record + [state.field]], [], [], false)
    case Return => state
    case Plain(c) => state.(field := state.field + [c])
    case Quoted(body) => state.(field := state.field + body)
  }

  predicate Allowed(token: Token, rest: string, empty: bool) {
    match token
    case Comma => true
    case LineEnd => true
    case Return => true
    case Plain(c) => c !in ",\n\r" && (c == '"' ==> !empty)
    case Quoted(_) => empty && !("\"" <= rest)
  }

  function EmptyAfter(token: Token, empty: bool): bool {
    match token
    case Comma => true
    case LineEnd => true
    case Return => empty
    case Plain(_) => false
    case Quoted(body) => body == ""
  }

  lemma ProperStep(tokens: seq<Token>, empty: bool)
    requires tokens != []
    ensures Proper(tokens, empty)
         <==> Allowed(tokens[0], Text(tokens[1..]), empty) && Proper(tokens[1..], EmptyAfter(tokens[0], empty))
  {
  }

  lemma RunQuotedToken(body: string, rest: string, state: State)
    requires !state.quoted && state.field == [] && !("\"" <= rest)
    ensures Run(Spelled(Quoted(body)) + rest, state) == Run(rest, state.(field := state.field + body))
  {
    var tail := DoubleQuotes(body) + ("\"" + rest);
    assert Spelled(Quoted(body)) + rest == "\"" + tail;
    assert ("\"" + tail)[1..] == tail;
    assert rest != [] ==> (rest[0] == '"' ==> "\"" <= rest);
    RunQuoted(body, rest, state.(quoted := true));
  }

  lemma RunToken(token: Token, rest: string, state: State)
    requires !state.quoted && Allowed(token, rest, state.field == [])
    ensures Run(Spelled(token) + rest, state) == Run(rest, After(state, token))
    ensures !After(state, token).quoted && (After(state, token).field == []) == EmptyAfter(token, state.field == [])
  {
    if token.Quoted? {
      RunQuotedToken(token.body, rest, state);
    } else {
      var c := Spelled(token)[0];
      assert Spelled(token) == [c];
      assert ([c] + rest)[1..] == rest;
    }
  }

  lemma BehindComma(state: State, lines: seq<Record>)
    requires lines != [] && lines[0] != []
    ensures Behind(After(state, Comma), lines) == Behind(state, [[""] + lines[0]] + lines[1..])
  {
    var first, more := lines[0], [[""] + lines[0]] + lines[1..];
    assert more[0][0] == "" && more[0][1..] == first && more[1..] == lines[1..];
    assert first == [first[0]] + first[1..];
    assert state.field + "" == state.field && [] + first[0] == first[0];
    assert (state.record + [state.field]) + [first[0]] + first[1..] == state.record + [state.field] + first;
  }

  lemma BehindLineEnd(state: State, lines: seq<Record>)
    requires lines != [] && lines[0] != []
    ensures Behind(After(state, LineEnd), lines) == Behind(state, [[""]] + lines)
  {
    var first, more := lines[0], [[""]] + lines;
    assert more[0][0] == "" && more[0][1..] == [] && more[1..] == lines;
    assert first == [first[0]] + first[1..] && lines == [first] + lines[1..];
    assert state.field + "" == state.field && [] + first[0] == first[0];
    assert [] + [first[0]] + first[1..] == first;
    var record := state.record + [state.field];
    assert record + [] == record;
    assert state.records + [record] + [first] + lines[1..] == state.records + [record] + lines;
  }

  lemma BehindToken(state: State, token: Token, rest: seq<Token>)
    ensures Behind(After(state, token), Lines(rest)) == Behind(state, Lines([token] + rest))
  {
    assert ([token] + rest)[1..] == rest;
    var lines := Lines(rest);
    match token
    case Comma => BehindComma(state, lines);
    case LineEnd => BehindLineEnd(state, lines);
    case Return =>
    case Plain(c) => assert state.field + [c] + lines[0][0] == state.field + ([c] + lines[0][0]);
    case Quoted(body) => assert state.field + body + lines[0][0] == state.field + (body + lines[0][0]);
  }

  lemma BehindEnd(state: State)
    requires !state.quoted
    ensures Run([], state) == Some(Closed(Behind(state, Lines([]))))
  {
    assert state.field + "" == state.field;
    var open, lines := state.record + [state.field], Lines([]);
    assert lines == [[""]] && lines[0][1..] == [] && lines[1..] == [];
    assert open + [] == open && state.records + [open] + [] == state.records + [open];
    assert Behind(state, Lines([])) == state.records + [open];
    assert open == [""] <==> state.record == [] && state.field == [];
  }

  lemma {:induction false} TokensRead(tokens: seq<Token>, state: State)
    requires !state.quoted && Proper(tokens, state.field == [])
    ensures Run(Text(tokens), state) == Some(Closed(Behind(state, Lines(tokens))))
    decreases |tokens|
  {
    if tokens == [] {
      BehindEnd(state);
    } else {
      var token, rest := tokens[0], tokens[1..];
      ProperStep(tokens, state.field == []);
      RunToken(token, Text(rest), state);
      TokensRead(rest, After(state, token));
      BehindToken(state, token, rest);
      assert tokens == [token] + rest;
    }
  }

  // ---------------------------------------------------------------- and nothing else

  // What a quoted field holds up to its closing quote, and the text behind it.
  lemma {:induction false} QuoteCloses(s: string, state: State) returns (body: string, rest: string)
    requires state.quoted && Run(s, state).Some?
    ensures s == DoubleQuotes(body) + ("\"" + rest) && !("\"" <= rest)
    decreases |s|
  {
    if s[0] == '"' && !(|s| > 1 && s[1] == '"') {
      body, rest := [], s[1..];
      assert s == [] + ("\"" + rest);
    } else {
      var n := if s[0] == '"' then 2 else 1;
      var after, end := QuoteCloses(s[n..], state.(field := state.field + [s[0]]));
      body, rest := [s[0]] + after, end;
      assert body[1..] == after;
      assert s == s[..n] + s[n..];
      assert DoubleQuotes(body) == s[..n] + DoubleQuotes(after);
    }
  }

  // The first token of a text that parses.
  lemma FirstToken(s: string, state: State) returns (token: Token, rest: string)
    requires s != [] && !state.quoted && Run(s, state).Some?
    ensures s == Spelled(token) + rest && |rest| < |s| && Allowed(token, rest, state.field == [])
  {
    if s[0] == '"' && state.field == [] {
      var body, tail := QuoteCloses(s[1..], state.(quoted := true));
      token, rest := Quoted(body), tail;
      assert s == "\"" + s[1..] == Spelled(token) + rest;
    } else {
      rest := s[1..];
      token := if s[0] == ',' then Comma else if s[0] == '\n' then LineEnd else if s[0] == '\r' then Return
               else Plain(s[0]);
      assert s == [s[0]] + rest;
    }
  }

  lemma {:induction false} ReadIsTokens(s: string, state: State) returns (tokens: seq<Token>)
    requires !state.quoted && Run(s, state).Some?
    ensures Proper(tokens, state.field == []) && Text(tokens) == s
    decreases |s|
  {
    if s == [] {
      tokens := [];
    } else {
      var token, rest := FirstToken(s, state);
      RunToken(token, rest, state);
      var more := ReadIsTokens(rest, After(state, token));
      tokens := [token] + more;
      assert tokens[1..] == more;
      ProperStep(tokens, state.field == []);
    }
  }

  lemma BehindStart(lines: seq<Record>)
    requires lines != [] && lines[0] != []
    ensures Behind(START, lines) == lines
  {
    assert [] + lines[0][0] == lines[0][0];
    assert [] + [lines[0][0]] + lines[0][1..] == lines[0];
    assert [] + [lines[0]] + lines[1..] == lines;
  }

  // The parser reads exactly the files of the grammar, and from each of them its records; it
  // refuses every other text.
  lemma ParsedIsFile(text: string, records: seq<Record>)
    ensures ParseCsv(text) == Some(records) <==> exists tokens :: IsFile(tokens, text, records)
  {
    forall tokens | IsFile(tokens, text, records) ensures ParseCsv(text) == Some(records) {
      TokensRead(tokens, START);
      BehindStart(Lines(tokens));
    }
    if ParseCsv(text) == Some(records) {
      var tokens := ReadIsTokens(text, START);
      TokensRead(tokens, START);
      BehindStart(Lines(tokens));
      assert IsFile(tokens, text, records);
    }
  }

  // ---------------------------------------------------------------- doubled quotes

  // A quoted text has twice its quotes and every other character once.
  lemma {:induction false} QuotesAreDoubled(value: string, c: char)
    ensures multiset(DoubleQuotes(value))[c] == (if c == '"' then 2 else 1) * multiset(value)[c]
  {
    if value != [] {
      QuotesAreDoubled(value[1..], c);
      assert value == [value[0]] + value[1..];
      if value[0] == '"' {
        assert DoubleQuotes(value) == ['"', '"'] + DoubleQuotes(value[1..]);
      } else {
        assert DoubleQuotes(value) == [value[0]] + DoubleQuotes(value[1..]);
      }
    }
  }

  // ---------------------------------------------------------------- the row files that load

  // A row record: a key and the text of a row.
  predicate IsRow(codec: RowCodec, record: Record) {
    |record| == 2 && codec.decode(record[1]).Some?
  }

  predicate HasKey(record: Record, key: string) {
    record != [] && record[0] == key
  }

  // The last record of a key is the one that counts.
  ghost predicate LastOf(records: seq<Record>, key: string, i: nat) {
    i < |records| && HasKey(records[i], key) && forall j :: i < j < |records| ==> !HasKey(records[j], key)
  }

  ghost predicate IsValue(codec: RowCodec, record: Record, row: StoredRow) {
    |record| == 2 && codec.decode(record[1]) == Some(row)
  }

  ghost predicate Holds(codec: RowCodec, records: seq<Record>, rows: map<string, StoredRow>) {
    && (forall i: nat :: i < |records| ==> IsRow(codec, records[i]) && records[i][0] in rows)
    && (forall key ::
          key in rows ==> exists i: nat :: LastOf(records, key, i) && IsValue(codec, records[i], rows[key]))
  }

  lemma LastGrows(records: seq<Record>, record: Record, key: string, i: nat)
    requires i < |records| && record != []
    ensures LastOf(records + [record], key, i) <==> LastOf(records, key, i) && record[0] != key
  {
    var all := records + [record];
    assert all[|records|] == record && forall j :: 0 <= j < |records| ==> all[j] == records[j];
  }

  lemma HoldsGrows(codec: RowCodec, records: seq<Record>, rows: map<string, StoredRow>, record: Record,
      row: StoredRow)
    requires Holds(codec, records, rows) && IsValue(codec, record, row)
    ensures Holds(codec, records + [record], rows[record[0] := row])
  {
    var all, more := records + [record], rows[record[0] := row];
    forall i: nat | i < |all| ensures IsRow(codec, all[i]) && all[i][0] in more {
      if i < |records| { assert all[i] == records[i]; }
    }
    forall key | key in more
      ensures exists i: nat :: LastOf(all, key, i) && IsValue(codec, all[i], more[key])
    {
      if key == record[0] {
        assert LastOf(all, key, |records|) && IsValue(codec, all[|records|], more[key]);
      } else {
        var i: nat :| LastOf(records, key, i) && IsValue(codec, records[i], rows[key]);
        LastGrows(records, record, key, i);
        assert all[i] == records[i];
      }
    }
  }

  lemma {:induction false} CollectedHolds(codec: RowCodec, records: seq<Record>)
    ensures CollectRows(codec, records).Some? <==> forall i: nat :: i < |records| ==> IsRow(codec, records[i])
    ensures CollectRows(codec, records).Some? ==> Holds(codec, records, CollectRows(codec, records).value)
    decreases |records|
  {
    if records == [] {
    } else {
      var init, last := records[..|records| - 1], records[|records| - 1];
      InitAndLast(records);
      CollectedHolds(codec, init);
      assert forall i: nat :: i < |init| ==> init[i] == records[i];
      if CollectRows(codec, init).Some? && IsRow(codec, last) {
        HoldsGrows(codec, init, CollectRows(codec, init).value, last, codec.decode(last[1]).value);
      }
    }
  }

  lemma HoldsOnce(codec: RowCodec, records: seq<Record>, a: map<string, StoredRow>, b: map<string, StoredRow>,
      key: string)
    requires Holds(codec, records, a) && Holds(codec, records, b) && key in a
    ensures key in b && a[key] == b[key]
  {
    var i: nat :| LastOf(records, key, i) && IsValue(codec, records[i], a[key]);
    assert records[i][0] in b;
    var j: nat :| LastOf(records, key, j) && IsValue(codec, records[j], b[key]);
    assert i == j;
  }

  lemma HoldsIsUnique(codec: RowCodec, records: seq<Record>, a: map<string, StoredRow>, b: map<string, StoredRow>)
    requires Holds(codec, records, a) && Holds(codec, records, b)
    ensures a == b
  {
    forall key ensures Get(a, key) == Get(b, key) {
      if key in a { HoldsOnce(codec, records, a, b, key); }
      if key in b { HoldsOnce(codec, records, b, a, key); }
    }
    SameMap(a, b);
  }

  // A row file loads exactly when it is a file of the grammar with the header line and, behind it, lines
  // of a key and a readable row; each key gets the row of its last line.
  ghost predicate IsRowFile(codec: RowCodec, text: string, rows: map<string, StoredRow>, records: seq<Record>) {
    ParseCsv(text) == Some([["key", "row_json"]] + records) && Holds(codec, records, rows)
  }

  lemma ReadIsRowFile(codec: RowCodec, text: string, rows: map<string, StoredRow>)
    ensures ReadRows(codec, text) == Some(rows) <==> exists records :: IsRowFile(codec, text, rows, records)
  {
    forall records | IsRowFile(codec, text, rows, records) ensures ReadRows(codec, text) == Some(rows) {
      assert ([["key", "row_json"]] + records)[1..] == records;
      CollectedHolds(codec, records);
      HoldsIsUnique(codec, records, rows, CollectRows(codec, records).value);
    }
    if ReadRows(codec, text) == Some(rows) {
      var all := ParseCsv(text).value;
      CollectedHolds(codec, all[1..]);
      assert all == [["key", "row_json"]] + all[1..];
      assert IsRowFile(codec, text, rows, all[1..]);
    }
  }
}
