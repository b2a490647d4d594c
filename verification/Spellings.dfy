/** What the rewriters do to the words of a text, letter by letter: which spellings are keywords, what
    stands for them, and which bytes end a word. */
module Spellings {
  import opened Characters
  import opened Wrappers
  import opened Rewriters

  // The same letter of the ASCII alphabet in either case, or the same byte.
  predicate IgnoresCase(c: char, d: char) {
    || c == d
    || (65 <= c as int <= 90 && d as int == c as int + 32)
    || (65 <= d as int <= 90 && c as int == d as int + 32)
  }

  predicate Spells(w: string, word: string) {
    |w| == |word| && forall i :: 0 <= i < |w| ==> IgnoresCase(w[i], word[i])
  }

  lemma LowerAgrees(c: char, d: char)
    ensures Rewriters.Lower(c) == Rewriters.Lower(d) <==> IgnoresCase(c, d)
  {
  }

  // Words are compared without regard to the case of ASCII letters, and to nothing else.
  lemma SameWordIsSpelling(w: string, word: string)
    ensures SameWord(w, word) <==> Spells(w, word)
  {
    if |w| == |word| {
      forall i | 0 <= i < |w|
        ensures Rewriters.Lower(w[i]) == Rewriters.Lower(word[i]) <==> IgnoresCase(w[i], word[i])
      {
        LowerAgrees(w[i], word[i]);
      }
    }
  }

  // ---------------------------------------------------------------- the two keyword rewriters

  function Respelled(r: Rules, w: string): string {
    match r
    case CompoundIntervals => if Spells(w, "HOUR_MINUTE") then "HOUR TO MINUTE" else w
    case DistinctRow => if Spells(w, "DISTINCTROW") then "DISTINCT" else if Spells(w, "SQL_BIG_RESULT") then "" else w
  }

  function PrintRespelled(r: Rules, ts: seq<Token>): string {
    if ts == [] then ""
    else (if ts[0].Word? then Respelled(r, ts[0].text) else TokenText(ts[0])) + PrintRespelled(r, ts[1..])
  }

  lemma WordAlone(w: string)
    ensures Print([Word(w)]) == w
  {
    assert Print([]) == "" && w + "" == w;
    PrintFirst(Word(w), []);
    assert [Word(w)] + [] == [Word(w)];
  }

  lemma CompoundRespelled(w: string)
    ensures Print(CompoundIntervals.Replacement(w)) == Respelled(CompoundIntervals, w)
  {
    SameWordIsSpelling(w, "HOUR_MINUTE");
    if SameWord(w, "HOUR_MINUTE") { CompoundText(w); } else { WordAlone(w); }
  }

  lemma DistinctRespelled(w: string)
    ensures Print(DistinctRow.Replacement(w)) == Respelled(DistinctRow, w)
  {
    SameWordIsSpelling(w, "DISTINCTROW");
    SameWordIsSpelling(w, "SQL_BIG_RESULT");
    DistinctText(w);
    WordAlone(w);
  }

  lemma {:induction false} TokensRespelled(r: Rules, ts: seq<Token>)
    ensures Print(Replace(r, ts)) == PrintRespelled(r, ts)
  {
    if ts != [] {
      var t, rest := ts[0], ts[1..];
      assert ts == [t] + rest;
      TokensRespelled(r, rest);
      PrintCons(r, t, rest);
      if t.Word? {
        PrintAppend(r.Replacement(t.text), Replace(r, rest));
        if r.CompoundIntervals? { CompoundRespelled(t.text); } else { DistinctRespelled(t.text); }
      }
    }
  }

  // The output, word by word: every spelling of a keyword becomes its fixed text, everything else
  // stays as it is written.
  lemma RewrittenIsRespelled(r: Rules, s: string)
    ensures Rewritten(r, s) == PrintRespelled(r, Lex(s))
  {
    TokensRespelled(r, Lex(s));
  }

  // A word and nothing else.
  lemma OneWord(r: Rules, w: string)
    requires w != "" && WordBytes(w)
    ensures Rewritten(r, w) == Respelled(r, w)
  {
    assert w + "" == w;
    LexWord(Word(w), "");
    assert Lex("") == [];
    RewrittenIsRespelled(r, w);
    assert PrintRespelled(r, []) == "";
    assert ([Word(w)] + [])[1..] == [];
  }

  // ---------------------------------------------------------------- where a word ends

  predicate IsNameLetter(n: int) {
    65 <= n <= 90 || 97 <= n <= 122
  }

  // Letters, digits and the underscore of ASCII.
  predicate IsNameByte(n: int) {
    IsNameLetter(n) || 48 <= n <= 57 || n == 95
  }

  // The loops find a keyword where it is spelled with nothing of a name on either side.
  lemma KeywordIsSpelled(s: string, index: nat, needle: string)
    ensures KeywordAt(s, index, needle) <==>
      && index + |needle| <= |s| && Spells(s[index..index + |needle|], needle)
      && (0 < index ==> !IsNameByte(s[index - 1] as int))
      && (index + |needle| < |s| ==> !IsNameByte(s[index + |needle|] as int))
  {
    if index + |needle| <= |s| { SameWordIsSpelling(s[index..index + |needle|], needle); }
  }
}
