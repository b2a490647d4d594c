/** The CSV files of the CSV backend: printing, the character-by-character parser, and the rows of
    one table (`escape_csv`, `parse_csv`, `write_rows_csv`, `read_rows_csv`). */
module Csv {
  import opened Ordering
  import opened Wrappers
  import opened Batches

  type Record = seq<string>

  // ---------------------------------------------------------------- printing

  predicate NeedsQuotes(value: string) {
    ',' in value || '"' in value || '\n' in value || '\r' in value
  }

  function DoubleQuotes(value: string): string {
    if value == [] then []
    else (if value[0] == '"' then "\"\"" else [value[0]]) + DoubleQuotes(value[1..])
  }

  function EscapeCsv(value: string): string {
    if NeedsQuotes(value) then "\"" + (DoubleQuotes(value) + "\"") else value
  }

  // The fields, separated by commas and ended by a line feed.
  function PrintFields(record: Record): string
    requires record != []
  {
    if |record| == 1 then EscapeCsv(record[0]) + "\n"
    else EscapeCsv(record[0]) + ("," + PrintFields(record[1..]))
  }

  predicate Full(records: seq<Record>) {
    forall i :: 0 <= i < |records| ==> records[i] != []
  }

  function PrintRecords(records: seq<Record>): string
    requires Full(records)
  {
    if records == [] then [] else PrintRecords(records[..|records| - 1]) + PrintFields(records[|records| - 1])
  }

  // ---------------------------------------------------------------- the parser's states

  datatype State = State(records: seq<Record>, record: Record, field: string, quoted: bool) {
    function EndField(): State {
      this.(record := record + [field], field := [])
    }

    function EndRecord(): State {
      State(records + [record + [field]], [], [], false)
    }
  }

  // The parse of the remaining input from a state; None for an unterminated quoted field.
  function Run(s: string, state: State): Option<seq<Record>>
    decreases |s|
  {
    if s == [] then
      if state.quoted then None
      else if state.field != [] || state.record != [] then Some(state.records + [state.record + [state.field]])
      else Some(state.records)
    else if state.quoted then
      if s[0] != '"' then Run(s[1..], state.(field := state.field + [s[0]]))
      else if |s| > 1 && s[1] == '"' then Run(s[2..], state.(field := state.field + ['"']))
      else Run(s[1..], state.(quoted := false))
    else if s[0] == '"' && state.field == [] then Run(s[1..], state.(quoted := true))
    else if s[0] == ',' then Run(s[1..], state.EndField())
    else if s[0] == '\n' then Run(s[1..], state.EndRecord())
    else if s[0] == '\r' then Run(s[1..], state)
    else Run(s[1..], state.(field := state.field + [s[0]]))
  }

  const START := State([], [], [], false)

  function ParseCsv(input: string): Option<seq<Record>> {
    Run(input, START)
  }

  method Parse(input: string) returns (parsed: Option<seq<Record>>)
    ensures parsed == ParseCsv(input)
  {
    var records: seq<Record>, record: Record, field, quoted := [], [], "", false;
    var i := 0;
    assert input[0..] == input;
    while i < |input|
      invariant 0 <= i <= |input|
      invariant Run(input[i..], State(records, record, field, quoted)) == ParseCsv(input)
    {
      var character := input[i];
      Rest(input, i);
      i := i + 1;
      if quoted {
        if character == '"' {
          if i < |input| && input[i] == '"' {
            i := i + 1;
            field := field + ['"'];
          } else {
            quoted := false;
          }
        } else {
          field := field + [character];
        }
        continue;
      }
      if character == '"' && field == "" {
        quoted := true;
      } else if character == ',' {
        record, field := record + [field], "";
      } else if character == '\n' {
        record, field := record + [field], "";
        records, record := records + [record], [];
      } else if character == '\r' {
      } else {
        field := field + [character];
      }
    }
    assert input[|input|..] == [];
    if quoted {
      return None;
    }
    if field != "" || record != [] {
      record := record + [field];
      records := records + [record];
    }
    return Some(records);
  }

  lemma Rest(s: string, i: nat)
    requires i < |s|
    ensures s[i..] != [] && s[i..][0] == s[i] && s[i..][1..] == s[i + 1..]
    ensures i + 1 < |s| ==> s[i..][1] == s[i + 1] && s[i..][2..] == s[i + 2..]
  {
  }

  // ---------------------------------------------------------------- round trip

  lemma {:induction false} RunPlain(value: string, rest: string, state: State)
    requires !NeedsQuotes(value) && !state.quoted
    ensures Run(value + rest, state) == Run(rest, state.(field := state.field + value))
    decreases |value|
  {
    if value == [] {
      assert value + rest == rest && state.field + value == state.field;
    } else {
      var all := value + rest;
      assert all[0] == value[0] && all[1..] == value[1..] + rest;
      assert value[0] in value && forall c :: c in value[1..] ==> c in value;
      RunPlain(value[1..], rest, state.(field := state.field + [value[0]]));
      JoinField(state.field, value);
    }
  }

  lemma JoinField(field: string, value: string)
    requires value != []
    ensures field + [value[0]] + value[1..] == field + value
  {
  }

  lemma QuotedStep(c: char, tail: string, state: State)
    requires state.quoted
    ensures Run((if c == '"' then "\"\"" else [c]) + tail, state) == Run(tail, state.(field := state.field + [c]))
  {
    var all := (if c == '"' then "\"\"" else [c]) + tail;
    if c == '"' {
      assert all[0] == '"' && all[1] == '"' && all[2..] == tail;
    } else {
      assert all[0] == c && all[1..] == tail;
    }
  }

  lemma {:induction false} RunQuoted(value: string, rest: string, state: State)
    requires state.quoted && (rest == [] || rest[0] != '"')
    ensures Run(DoubleQuotes(value) + ("\"" + rest), state)
         == Run(rest, state.(field := state.field + value, quoted := false))
    decreases |value|
  {
    var end := "\"" + rest;
    if value == [] {
      assert [] + end == end && end[1..] == rest && state.field + value == state.field;
    } else {
      var c := value[0];
      var tail := DoubleQuotes(value[1..]) + end;
      assert DoubleQuotes(value) + end == (if c == '"' then "\"\"" else [c]) + tail;
      QuotedStep(c, tail, state);
      RunQuoted(value[1..], rest, state.(field := state.field + [c]));
      JoinField(state.field, value);
    }
  }

  // A printed field, followed by its separator, is read as one field.
  lemma RunField(value: string, rest: string, state: State)
    requires !state.quoted && state.field == [] && rest != [] && rest[0] in ",\n"
    ensures Run(EscapeCsv(value) + rest, state) == Run(rest, state.(field := value))
  {
    if NeedsQuotes(value) {
      var body := DoubleQuotes(value) + ("\"" + rest);
      assert EscapeCsv(value) + rest == "\"" + body;
      assert ("\"" + body)[1..] == body;
      RunQuoted(value, rest, state.(quoted := true));
      assert [] + value == value;
    } else {
      RunPlain(value, rest, state);
      assert [] + value == value;
    }
  }

  lemma RunLastField(value: string, rest: string, state: State)
    requires !state.quoted && state.field == []
    ensures Run(EscapeCsv(value) + "\n" + rest, state)
         == Run(rest, State(state.records + [state.record + [value]], [], [], false))
  {
    var end := "\n" + rest;
    assert EscapeCsv(value) + "\n" + rest == EscapeCsv(value) + end;
    RunField(value, end, state);
    assert end[1..] == rest;
  }

  lemma RunNextField(value: string, tail: string, state: State)
    requires !state.quoted && state.field == []
    ensures Run(EscapeCsv(value) + ("," + tail), state)
         == Run(tail, State(state.records, state.record + [value], [], false))
  {
    RunField(value, "," + tail, state);
    assert ("," + tail)[1..] == tail;
  }

  lemma {:induction false} RunFields(record: Record, rest: string, state: State)
    requires record != [] && !state.quoted && state.field == []
    ensures Run(PrintFields(record) + rest, state)
         == Run(rest, State(state.records + [state.record + record], [], [], false))
    decreases |record|
  {
    if |record| == 1 {
      assert record == [record[0]];
      RunLastField(record[0], rest, state);
    } else {
      var tail := PrintFields(record[1..]) + rest;
      assert PrintFields(record) + rest == EscapeCsv(record[0]) + ("," + tail);
      RunNextField(record[0], tail, state);
      RunFields(record[1..], rest, State(state.records, state.record + [record[0]], [], false));
      assert state.record + [record[0]] + record[1..] == state.record + record;
    }
  }

  lemma {:induction false} RunRecords(records: seq<Record>, rest: string)
    requires Full(records)
    ensures Run(PrintRecords(records) + rest, START) == Run(rest, State(records, [], [], false))
    decreases |records|
  {
    if records == [] {
      assert [] + rest == rest;
    } else {
      var init, last := records[..|records| - 1], records[|records| - 1];
      assert PrintRecords(records) + rest == PrintRecords(init) + (PrintFields(last) + rest);
      RunRecords(init, PrintFields(last) + rest);
      RunFields(last, rest, State(init, [], [], false));
      assert [] + last == last && init + [last] == records;
    }
  }

  // Reading back what was printed, whatever commas, quotes and line ends the fields hold.
  lemma PrintParses(records: seq<Record>)
    requires Full(records)
    ensures ParseCsv(PrintRecords(records)) == Some(records)
  {
    RunRecords(records, []);
    assert PrintRecords(records) + [] == PrintRecords(records);
  }

  // ---------------------------------------------------------------- the rows of a table

  // The JSON text of a row; serde_json reads back what it writes.
  datatype RowCodec = RowCodec(encode: StoredRow -> string, decode: string -> Option<StoredRow>) {
    ghost predicate Lossless() {
      forall row :: decode(encode(row)) == Some(row)
    }
  }

  const HEADER: Record := ["key", "row_json"]

  function RowRecord(codec: RowCodec, key: string, row: StoredRow): Record {
    [key, codec.encode(row)]
  }

  function RowRecords(codec: RowCodec, rows: map<string, StoredRow>, keys: seq<string>): (r: seq<Record>)
    requires forall k :: k in keys ==> k in rows
    ensures Full(r)
  {
    if keys == [] then []
    else
      var last := keys[|keys| - 1];
      RowRecords(codec, rows, keys[..|keys| - 1]) + [RowRecord(codec, last, rows[last])]
  }

  function RowsText(codec: RowCodec, rows: map<string, StoredRow>): string {
    PrintRecords([HEADER] + RowRecords(codec, rows, SortedKeys(rows.Keys)))
  }

  lemma LettersStayPlain(s: string)
    requires forall i :: 0 <= i < |s| ==> '_' <= s[i] <= 'z'
    ensures EscapeCsv(s) == s
  {
  }

  lemma PlainWords()
    ensures EscapeCsv("key") == "key" && EscapeCsv("row_json") == "row_json"
  {
    LettersStayPlain("key");
    LettersStayPlain("row_json");
  }

  lemma HeaderLine()
    ensures PrintFields(HEADER) == "key,row_json\n"
  {
    PrintTwoFields(HEADER);
    assert HEADER[0] == "key" && HEADER[1] == "row_json";
    PlainWords();
    assert "key" + "," + "row_json" + "\n" == "key,row_json\n";
  }

  lemma PrintOneMore(records: seq<Record>, r: Record)
    requires Full(records) && r != []
    ensures Full(records + [r]) && PrintRecords(records + [r]) == PrintRecords(records) + PrintFields(r)
  {
    assert (records + [r])[..|records|] == records;
  }

  // write_rows_csv: the header and one line for each row.
  method WriteRows(codec: RowCodec, rows: map<string, StoredRow>) returns (output: string)
    ensures output == RowsText(codec, rows)
  {
    output := "key,row_json\n";
    var keys := SortedKeys(rows.Keys);
    HeaderStarts(codec, rows);
    for i := 0 to |keys|
      invariant output == PrintRecords([HEADER] + RowRecords(codec, rows, keys[..i]))
    {
      assert keys[i] in keys;
      LineAdds(codec, rows, keys, i);
      output := output + (EscapeCsv(keys[i]) + "," + EscapeCsv(codec.encode(rows[keys[i]])) + "\n");
    }
    assert keys[..|keys|] == keys;
  }

  lemma HeaderStarts(codec: RowCodec, rows: map<string, StoredRow>)
    ensures PrintRecords([HEADER] + RowRecords(codec, rows, [])) == "key,row_json\n"
  {
    HeaderLine();
    PrintOneMore([], HEADER);
    assert [] + [HEADER] == [HEADER] + RowRecords(codec, rows, []);
  }

  lemma LineAdds(codec: RowCodec, rows: map<string, StoredRow>, keys: seq<string>, i: nat)
    requires i < |keys| && forall k :: k in keys ==> k in rows
    ensures PrintRecords([HEADER] + RowRecords(codec, rows, keys[..i + 1]))
         == PrintRecords([HEADER] + RowRecords(codec, rows, keys[..i]))
            + (EscapeCsv(keys[i]) + "," + EscapeCsv(codec.encode(rows[keys[i]])) + "\n")
  {
    PrefixGrows(keys, i);
    var before := [HEADER] + RowRecords(codec, rows, keys[..i]);
    var record := RowRecord(codec, keys[i], rows[keys[i]]);
    assert [HEADER] + RowRecords(codec, rows, keys[..i + 1]) == before + [record];
    PrintOneMore(before, record);
    PrintTwoFields(record);
  }

  lemma PrintTwoFields(r: Record)
    requires |r| == 2
    ensures PrintFields(r) == EscapeCsv(r[0]) + "," + EscapeCsv(r[1]) + "\n"
  {
    assert r[1..] == [r[1]];
    assert PrintFields(r[1..]) == EscapeCsv(r[1]) + "\n";
  }

  // A later record for the same key replaces an earlier one.
  function CollectRows(codec: RowCodec, records: seq<Record>): Option<map<string, StoredRow>> {
    if records == [] then Some(map[])
    else
      var earlier :- CollectRows(codec, records[..|records| - 1]);
      var last := records[|records| - 1];
      if |last| != 2 then None else
        var row :- codec.decode(last[1]);
        Some(earlier[last[0] := row])
  }

  function ReadRows(codec: RowCodec, text: string): Option<map<string, StoredRow>> {
    var records :- ParseCsv(text);
    if records == [] || records[0] != HEADER then None else CollectRows(codec, records[1..])
  }

  lemma CollectOneMore(codec: RowCodec, records: seq<Record>, key: string, row: StoredRow)
    requires codec.Lossless() && CollectRows(codec, records).Some?
    ensures CollectRows(codec, records + [RowRecord(codec, key, row)])
         == Some(CollectRows(codec, records).value[key := row])
  {
    assert (records + [RowRecord(codec, key, row)])[..|records|] == records;
    assert codec.decode(codec.encode(row)) == Some(row);
  }

  lemma {:induction false} CollectRestores(codec: RowCodec, rows: map<string, StoredRow>, keys: seq<string>)
    requires codec.Lossless() && forall k :: k in keys ==> k in rows
    ensures CollectRows(codec, RowRecords(codec, rows, keys)) == Some(Only(rows, keys))
  {
    if keys != [] {
      var init, last := keys[..|keys| - 1], keys[|keys| - 1];
      InitAndLast(keys);
      assert last in keys;
      CollectRestores(codec, rows, init);
      CollectOneMore(codec, RowRecords(codec, rows, init), last, rows[last]);
      OnlyGrows(rows, init, last);
    }
  }

  // The row file of a table restores exactly its rows.
  lemma RowsRoundTrip(codec: RowCodec, rows: map<string, StoredRow>)
    requires codec.Lossless()
    ensures ReadRows(codec, RowsText(codec, rows)) == Some(rows)
  {
    var keys := SortedKeys(rows.Keys);
    var records := RowRecords(codec, rows, keys);
    PrintParses([HEADER] + records);
    assert ([HEADER] + records)[1..] == records;
    CollectRestores(codec, rows, keys);
    OnlyAll(rows, keys);
  }
}
