/** The text that names a table inside the RocksDB store: a two-element JSON array of strings
    (`encode_table_key`, `decode_table_key`, `rows_key`), with the escapes of section 7 of
    RFC 8259 as serde_json writes and reads them. */
module TableKeys {
  import opened Wrappers

  const CATALOG_KEY := "sqweel:async:v2:catalog"
  const TABLES_KEY := "sqweel:async:v2:tables"
  const ROWS_PREFIX := "sqweel:async:v2:rows:"
  const NUL: char := '\0'

  function HexDigit(n: nat): char
    requires n < 16
  {
    "0123456789abcdef"[n]
  }

  function HexValue(c: char): Option<nat> {
    if '0' <= c <= '9' then Some((c - '0') as nat)
    else if 'a' <= c <= 'f' then Some(10 + (c - 'a') as nat)
    else if 'A' <= c <= 'F' then Some(10 + (c - 'A') as nat)
    else None
  }

  function EscapeChar(c: char): string {
    if c == '"' then "\\\""
    else if c == '\\' then "\\\\"
    else if c as int == 8 then "\\b"
    else if c as int == 9 then "\\t"
    else if c as int == 10 then "\\n"
    else if c as int == 12 then "\\f"
    else if c as int == 13 then "\\r"
    else if c as int < 32 then "\\u00" + [HexDigit(c as int / 16), HexDigit(c as int % 16)]
    else [c]
  }

  function EscapeString(s: string): string {
    if s == [] then [] else EscapeChar(s[0]) + EscapeString(s[1..])
  }

  function EncodeTableKey(database: string, table: string): string {
    "[\"" + EscapeString(database) + "\",\"" + EscapeString(table) + "\"]"
  }

  function RowsKey(database: string, table: string): string {
    ROWS_PREFIX + EncodeTableKey(database, table)
  }

  // ---------------------------------------------------------------- the reader

  function HexFour(s: string): Option<nat> {
    if |s| < 4 then None else
      var a :- HexValue(s[0]);
      var b :- HexValue(s[1]);
      var c :- HexValue(s[2]);
      var d :- HexValue(s[3]);
      Some(((a * 16 + b) * 16 + c) * 16 + d)
  }

  // The code behind "\u", and the second one of a surrogate pair.
  function ReadCode(s: string): Option<(char, nat)> {
    var high :- HexFour(s);
    if 0xD800 <= high < 0xDC00 then
      if |s| < 10 || s[4] != '\\' || s[5] != 'u' then None else
        var low :- HexFour(s[6..]);
        if 0xDC00 <= low < 0xE000
        then Some(((0x10000 + (high - 0xD800) * 0x400 + (low - 0xDC00)) as char, 11))
        else None
    else if 0xDC00 <= high < 0xE000 || high > 0xFFFF then None
    else Some((high as char, 5))
  }

  // The escape after a backslash: its character and how many characters it took.
  function ReadEscape(s: string): Option<(char, nat)> {
    if s == [] then None
    else if s[0] == '"' || s[0] == '\\' || s[0] == '/' then Some((s[0], 1))
    else if s[0] == 'b' then Some((8 as char, 1))
    else if s[0] == 't' then Some((9 as char, 1))
    else if s[0] == 'n' then Some((10 as char, 1))
    else if s[0] == 'f' then Some((12 as char, 1))
    else if s[0] == 'r' then Some((13 as char, 1))
    else if s[0] == 'u' then ReadCode(s[1..])
    else None
  }

  // Reads up to and including the closing quote; returns the text and the rest of the input.
  function ReadString(s: string): Option<(string, string)>
    decreases |s|
  {
    if s == [] then None
    else if s[0] == '"' then Some(([], s[1..]))
    else if s[0] == '\\' then
      var escape :- ReadEscape(s[1..]);
      if |s| < 1 + escape.1 then None else
        var tail :- ReadString(s[1 + escape.1..]);
        Some(([escape.0] + tail.0, tail.1))
    else if s[0] as int < 32 then None
    else
      var tail :- ReadString(s[1..]);
      Some(([s[0]] + tail.0, tail.1))
  }

  function SkipSpaces(s: string): (r: string)
    ensures |r| <= |s|
  {
    if s != [] && s[0] in " \t\n\r" then SkipSpaces(s[1..]) else s
  }

  function Expect(s: string, c: char): Option<string> {
    var t := SkipSpaces(s);
    if t != [] && t[0] == c then Some(t[1..]) else None
  }

  // A separator and then a string literal.
  function ReadItem(s: string, lead: char): Option<(string, string)> {
    var s1 :- Expect(s, lead);
    var s2 :- Expect(s1, '"');
    ReadString(s2)
  }

  function DecodeTableKey(s: string): Option<(string, string)> {
    var database :- ReadItem(s, '[');
    var table :- ReadItem(database.1, ',');
    var end :- Expect(table.1, ']');
    if SkipSpaces(end) == [] then Some((database.0, table.0)) else None
  }

  // ---------------------------------------------------------------- round trip

  lemma ReadEscapedChar(c: char, rest: string)
    requires |EscapeChar(c)| > 1
    ensures EscapeChar(c)[0] == '\\'
    ensures ReadEscape(EscapeChar(c)[1..] + rest) == Some((c, |EscapeChar(c)| - 1))
  {
    if c as int < 32 && c as int !in {8, 9, 10, 12, 13} {
      var hi, lo := c as int / 16, c as int % 16;
      var t := EscapeChar(c)[1..] + rest;
      assert t[0] == 'u' && t[1] == '0' && t[2] == '0' && t[3] == HexDigit(hi) && t[4] == HexDigit(lo);
      assert HexValue(HexDigit(hi)) == Some(hi) && HexValue(HexDigit(lo)) == Some(lo);
      assert HexFour(t[1..]) == Some(hi * 16 + lo);
    }
  }

  // One written character is read back, and reading goes on behind it.
  lemma ReadOneChar(c: char, tail: string)
    requires ReadString(tail).Some?
    ensures ReadString(EscapeChar(c) + tail)
         == Some(([c] + ReadString(tail).value.0, ReadString(tail).value.1))
  {
    var e := EscapeChar(c);
    var all := e + tail;
    if |e| > 1 {
      ReadEscapedChar(c, tail);
      assert all[1..] == e[1..] + tail;
      assert all[1 + (|e| - 1)..] == tail;
    } else {
      assert all[1..] == tail;
    }
  }

  lemma EscapeFirst(s: string, end: string)
    requires s != []
    ensures EscapeString(s) + end == EscapeChar(s[0]) + (EscapeString(s[1..]) + end)
    ensures s == [s[0]] + s[1..]
  {
    Shift(EscapeChar(s[0]), EscapeString(s[1..]), end);
    Cut(s, 1);
  }

  lemma {:induction false} ReadEscapedString(s: string, rest: string)
    ensures ReadString(EscapeString(s) + ("\"" + rest)) == Some((s, rest))
  {
    var end := "\"" + rest;
    if s == [] {
      assert EscapeString(s) + end == end;
      assert end[1..] == rest;
    } else {
      ReadEscapedString(s[1..], rest);
      EscapeFirst(s, end);
      ReadOneChar(s[0], EscapeString(s[1..]) + end);
    }
  }

  lemma ExpectHead(s: string, c: char, rest: string)
    requires s == [c] + rest && c !in " \t\n\r"
    ensures Expect(s, c) == Some(rest)
  {
  }

  function Item(lead: char, value: string): string {
    [lead] + ("\"" + (EscapeString(value) + "\""))
  }

  lemma ReadWrittenItem(lead: char, value: string, rest: string)
    requires lead !in " \t\n\r"
    ensures ReadItem(Item(lead, value) + rest, lead) == Some((value, rest))
  {
    var body := EscapeString(value) + ("\"" + rest);
    assert Item(lead, value) + rest == [lead] + ("\"" + body);
    ExpectHead(Item(lead, value) + rest, lead, "\"" + body);
    ExpectHead("\"" + body, '"', body);
    ReadEscapedString(value, rest);
  }

  // decode_table_key undoes encode_table_key, whatever quotes, controls or NULs the names hold.
  lemma DecodeEncode(database: string, table: string)
    ensures DecodeTableKey(EncodeTableKey(database, table)) == Some((database, table))
  {
    var rest := Item(',', table) + "]";
    EncodedItems(database, table);
    ReadWrittenItem('[', database, rest);
    ReadWrittenItem(',', table, "]");
    ExpectHead("]", ']', []);
  }

  lemma EncodedItems(database: string, table: string)
    ensures EncodeTableKey(database, table) == Item('[', database) + (Item(',', table) + "]")
  {
  }

  lemma EncodeIsInjective(d1: string, t1: string, d2: string, t2: string)
    requires EncodeTableKey(d1, t1) == EncodeTableKey(d2, t2)
    ensures d1 == d2 && t1 == t2
  {
    DecodeEncode(d1, t1);
    DecodeEncode(d2, t2);
  }

  // ---------------------------------------------------------------- namespaces

  predicate NulFree(s: string) {
    forall i :: 0 <= i < |s| ==> s[i] != NUL
  }

  lemma {:induction false} EscapedIsNulFree(s: string)
    ensures NulFree(EscapeString(s))
  {
    if s != [] { EscapedIsNulFree(s[1..]); }
  }

  // Names may hold NUL, but the namespace text never does.
  lemma RowsKeyIsNulFree(database: string, table: string)
    ensures NulFree(EncodeTableKey(database, table)) && NulFree(RowsKey(database, table))
  {
    EscapedIsNulFree(database);
    EscapedIsNulFree(table);
  }

  lemma FixedKeysAreNulFree()
    ensures NulFree(CATALOG_KEY) && NulFree(TABLES_KEY)
  {
  }

  lemma NamespacesDiffer(database: string, table: string)
    ensures RowsKey(database, table) != CATALOG_KEY
    ensures RowsKey(database, table) != TABLES_KEY
    ensures CATALOG_KEY != TABLES_KEY
  {
    assert RowsKey(database, table)[16] == 'r';
    assert CATALOG_KEY[16] == 'c' && TABLES_KEY[16] == 't';
  }

  lemma RowsKeyIsInjective(d1: string, t1: string, d2: string, t2: string)
    requires RowsKey(d1, t1) == RowsKey(d2, t2)
    ensures d1 == d2 && t1 == t2
  {
    assert RowsKey(d1, t1)[|ROWS_PREFIX|..] == EncodeTableKey(d1, t1);
    assert RowsKey(d2, t2)[|ROWS_PREFIX|..] == EncodeTableKey(d2, t2);
    EncodeIsInjective(d1, t1, d2, t2);
  }
}
