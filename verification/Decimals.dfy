/** Decimal columns on the wire: rounding a number written in decimal to a fixed scale, digit by
    digit (`format_decimal_text`, `increment_decimal_digits`). */
module Decimals {
  import opened Characters
  import opened Digits
  import opened Wrappers

  // ---------------------------------------------------------------- the next digit string

  function NextDigits(s: string): (r: string)
    requires AllDigits(s)
    ensures AllDigits(r)
    ensures |s| <= |r| <= |s| + 1
  {
    if s == [] then "1"
    else if s[|s| - 1] != '9' then s[..|s| - 1] + [DigitChar(DigitValue(s[|s| - 1]) + 1)]
    else NextDigits(s[..|s| - 1]) + "0"
  }

  lemma {:induction false} NextIsSuccessor(s: string)
    requires AllDigits(s)
    ensures Value(NextDigits(s)) == Value(s) + 1
  {
    var next := NextDigits(s);
    if s == [] {
      assert "1"[..0] == [];
    } else if s[|s| - 1] != '9' {
      assert next[..|next| - 1] == s[..|s| - 1];
    } else {
      NextIsSuccessor(s[..|s| - 1]);
      assert next[..|next| - 1] == NextDigits(s[..|s| - 1]);
    }
  }

  // The carry grows the number only when every digit is a nine.
  lemma {:induction false} NextGrows(s: string)
    requires AllDigits(s)
    ensures |NextDigits(s)| == |s| + 1 <==> forall i :: 0 <= i < |s| ==> s[i] == '9'
  {
    if s != [] {
      var init := s[..|s| - 1];
      NextGrows(init);
      assert forall i :: 0 <= i < |init| ==> init[i] == s[i];
      if forall i :: 0 <= i < |s| ==> s[i] == '9' { assert s[|s| - 1] == '9'; }
    }
  }

  // A leading zero stays or turns into a one; another leading digit never becomes zero.
  lemma {:induction false} NextLeads(s: string)
    requires AllDigits(s) && s != []
    ensures NextDigits(s) != []
    ensures s[0] == '0' ==> |NextDigits(s)| == |s| && NextDigits(s)[0] in "01"
    ensures s[0] != '0' ==> NextDigits(s)[0] != '0'
  {
    if |s| > 1 {
      NextLeads(s[..|s| - 1]);
    } else if s[0] == '9' {
      assert s[..0] == [];
    }
  }

  // From the last digit to the front: nines become zeros until one digit takes the carry.
  method IncrementDigits(digits: string) returns (r: string)
    requires AllDigits(digits)
    ensures r == NextDigits(digits)
  {
    var bytes := digits;
    var i := |digits|;
    assert digits[..|digits|] == digits;
    while i > 0
      invariant 0 <= i <= |digits|
      invariant bytes == digits[..i] + Zeros(|digits| - i)
      invariant NextDigits(digits) == NextDigits(digits[..i]) + Zeros(|digits| - i)
    {
      i := i - 1;
      var front := digits[..i + 1];
      assert front[..i] == digits[..i];
      if bytes[i] == '9' {
        bytes := bytes[i := '0'];
        CarryStep(digits, i);
      } else {
        bytes := bytes[i := DigitChar(DigitValue(bytes[i]) + 1)];
        assert bytes == NextDigits(front) + Zeros(|digits| - i - 1);
        return bytes;
      }
    }
    assert digits[..0] == [];
    return "1" + bytes;
  }

  lemma CarryStep(digits: string, i: nat)
    requires AllDigits(digits) && i < |digits| && digits[i] == '9'
    ensures (digits[..i + 1] + Zeros(|digits| - i - 1))[i := '0'] == digits[..i] + Zeros(|digits| - i)
    ensures NextDigits(digits[..i + 1]) + Zeros(|digits| - i - 1) == NextDigits(digits[..i]) + Zeros(|digits| - i)
  {
    assert digits[..i + 1][..i] == digits[..i];
    assert Zeros(|digits| - i) == "0" + Zeros(|digits| - i - 1);
  }

  // ---------------------------------------------------------------- reading the input

  function StripPrefix(s: string, c: char): Option<string> {
    if s != [] && s[0] == c then Some(s[1..]) else None
  }

  function IndexOf(s: string, c: char): (i: nat)
    ensures i <= |s| && (i < |s| ==> s[i] == c) && forall j :: 0 <= j < i ==> s[j] != c
  {
    if s == [] || s[0] == c then 0 else 1 + IndexOf(s[1..], c)
  }

  // A decimal as it is written: blanks, signs, digits, and perhaps a point with more digits.
  datatype Written = Written(lead: string, negative: bool, plus: bool, integer: string, point: bool, fraction: string,
      trail: string) {
    predicate Valid() {
      && (forall i :: 0 <= i < |lead| ==> IsSpace(lead[i]))
      && (forall i :: 0 <= i < |trail| ==> IsSpace(trail[i]))
      && AllDigits(integer) && AllDigits(fraction) && (!point ==> fraction == [])
    }

    function Unsigned(): string {
      integer + (if point then "." + fraction else "")
    }

    function Trimmed(): string {
      (if negative then "-" else "") + ((if plus then "+" else "") + Unsigned())
    }

    function Text(): string {
      lead + (Trimmed() + trail)
    }

    // The integer digits, a missing integer part counting as zero.
    function Whole(): string {
      if integer == [] then "0" else integer
    }
  }

  lemma {:induction false} TrimStartBlanks(lead: string, s: string)
    requires forall i :: 0 <= i < |lead| ==> IsSpace(lead[i])
    ensures TrimStart(lead + s) == TrimStart(s)
  {
    if lead == [] {
      assert lead + s == s;
    } else {
      assert (lead + s)[1..] == lead[1..] + s;
      TrimStartBlanks(lead[1..], s);
    }
  }

  lemma {:induction false} TrimEndBlanks(s: string, trail: string)
    requires forall i :: 0 <= i < |trail| ==> IsSpace(trail[i])
    ensures TrimEnd(s + trail) == TrimEnd(s)
  {
    if trail == [] {
      assert s + trail == s;
    } else {
      assert (s + trail)[..|s + trail| - 1] == s + trail[..|trail| - 1];
      TrimEndBlanks(s, trail[..|trail| - 1]);
    }
  }

  predicate NoSpaces(s: string) {
    forall i :: 0 <= i < |s| ==> !IsSpace(s[i])
  }

  lemma TrimmedHasNoSpaces(w: Written)
    requires w.Valid()
    ensures NoSpaces(w.Trimmed())
  {
    assert forall c :: IsDigit(c) ==> !IsSpace(c);
    assert NoSpaces(w.Unsigned());
  }

  lemma AllBlank(lead: string, trail: string)
    requires forall i :: 0 <= i < |lead| ==> IsSpace(lead[i])
    requires forall i :: 0 <= i < |trail| ==> IsSpace(trail[i])
    ensures TrimEnd(TrimStart(lead + ([] + trail))) == []
  {
    assert [] + trail == trail && trail + [] == trail;
    TrimStartBlanks(lead, trail);
    TrimStartBlanks(trail, []);
  }

  // Trimming leaves the signed digits.
  lemma TrimLeavesNumber(w: Written)
    requires w.Valid()
    ensures TrimEnd(TrimStart(w.Text())) == w.Trimmed()
  {
    var s := w.Trimmed();
    TrimmedHasNoSpaces(w);
    if s == [] {
      AllBlank(w.lead, w.trail);
    } else {
      TrimStartBlanks(w.lead, s + w.trail);
      assert (s + w.trail)[0] == s[0];
      TrimEndBlanks(s, w.trail);
    }
  }

  // ---------------------------------------------------------------- rounding

  // n, with `scale` fraction digits, is m, with `f` of them, rounded half away from zero: in the
  // finer of the two units, m lies within half a unit of n, and a tie goes up.
  predicate IsRounding(m: nat, f: nat, n: nat, scale: nat) {
    var x := if f >= scale then m else m * Pow10(scale - f);
    var unit := if f >= scale then Pow10(f - scale) else 1;
    2 * (n * unit) <= 2 * x + unit < 2 * (n * unit) + 2 * unit
  }

  // No other number is the rounding.
  lemma RoundingIsUnique(m: nat, f: nat, a: nat, b: nat, scale: nat)
    requires IsRounding(m, f, a, scale) && IsRounding(m, f, b, scale)
    ensures a == b
  {
    var unit := if f >= scale then Pow10(f - scale) else 1;
    OneUnitApart(a, b, unit);
    OneUnitApart(b, a, unit);
  }

  lemma OneUnitApart(a: nat, b: nat, unit: nat)
    ensures a < b ==> a * unit + unit <= b * unit
  {
    if a < b {
      Scale(a + 1, b, unit);
      assert (a + 1) * unit == a * unit + unit;
    }
  }

  // The integer and fraction digits of the result, before they are printed.
  datatype Rounded = Rounded(integer: string, fraction: string)

  function RoundsUp(fraction: string, scale: nat): bool {
    |fraction| > scale && fraction[scale] >= '5'
  }

  function Kept(fraction: string, scale: nat): string {
    if |fraction| > scale then fraction[..scale] else fraction
  }

  function RoundDigits(integer: string, fraction: string, scale: nat): (r: Rounded)
    requires AllDigits(integer) && AllDigits(fraction) && integer != []
    ensures AllDigits(r.integer) && AllDigits(r.fraction) && r.integer != [] && |r.fraction| == scale
  {
    if RoundsUp(fraction, scale) then
      var digits := NextDigits(integer + Kept(fraction, scale));
      Rounded(digits[..|digits| - scale], digits[|digits| - scale..])
    else
      Rounded(integer, Kept(fraction, scale) + Zeros(scale - |Kept(fraction, scale)|))
  }

  lemma PadRounds(integer: string, fraction: string, scale: nat)
    requires AllDigits(integer) && AllDigits(fraction) && |fraction| <= scale
    ensures IsRounding(Value(integer + fraction), |fraction|, Value(integer + (fraction + Zeros(scale - |fraction|))),
        scale)
  {
    var zeros := Zeros(scale - |fraction|);
    assert integer + (fraction + zeros) == (integer + fraction) + zeros;
    ValueConcat(integer + fraction, zeros);
    ValueOfZeros(scale - |fraction|);
  }

  lemma CutRounds(front: string, rest: string, n: nat)
    requires AllDigits(front) && AllDigits(rest) && rest != []
    requires n == Value(front) + if rest[0] >= '5' then 1 else 0
    ensures IsCut(Value(front + rest), Pow10(|rest|), n)
  {
    ValueConcat(front, rest);
    ValueBound(rest);
    HalfByFirstDigit(rest);
    CutArithmetic(Value(front), Value(rest), Pow10(|rest|), n);
  }

  predicate IsCut(m: nat, unit: nat, n: nat) {
    2 * (n * unit) <= 2 * m + unit < 2 * (n * unit) + 2 * unit
  }

  lemma CutArithmetic(v: nat, w: nat, unit: nat, n: nat)
    requires w < unit && n == v + if 2 * w >= unit then 1 else 0
    ensures IsCut(v * unit + w, unit, n)
  {
    assert (v + 1) * unit == v * unit + unit;
  }

  // Rounding up or not, the digits are those of the kept part or of its successor.
  lemma RoundedDigits(integer: string, fraction: string, scale: nat)
    requires AllDigits(integer) && AllDigits(fraction) && integer != [] && |fraction| > scale
    ensures var r, front := RoundDigits(integer, fraction, scale), integer + fraction[..scale];
            r.integer + r.fraction == if fraction[scale] >= '5' then NextDigits(front) else front
  {
    var r := RoundDigits(integer, fraction, scale);
    if !RoundsUp(fraction, scale) {
      assert Zeros(0) == [];
      assert r.fraction == fraction[..scale];
    }
  }

  lemma CutDigitsRound(integer: string, fraction: string, scale: nat)
    requires AllDigits(integer) && AllDigits(fraction) && integer != [] && |fraction| > scale
    ensures var r := RoundDigits(integer, fraction, scale);
            IsCut(Value(integer + fraction), Pow10(|fraction| - scale), Value(r.integer + r.fraction))
  {
    var front, rest := integer + fraction[..scale], fraction[scale..];
    assert integer + fraction == front + rest;
    RoundedDigits(integer, fraction, scale);
    NextIsSuccessor(front);
    var r := RoundDigits(integer, fraction, scale);
    CutRounds(front, rest, Value(r.integer + r.fraction));
  }

  // The digits of the result write the rounded number.
  lemma PaddedDigits(integer: string, fraction: string, scale: nat)
    requires AllDigits(integer) && AllDigits(fraction) && integer != [] && |fraction| <= scale
    ensures RoundDigits(integer, fraction, scale) == Rounded(integer, fraction + Zeros(scale - |fraction|))
  {
  }

  lemma CutIsRounding(m: nat, f: nat, n: nat, scale: nat)
    requires f > scale && IsCut(m, Pow10(f - scale), n)
    ensures IsRounding(m, f, n, scale)
  {
  }

  lemma DigitsRound(integer: string, fraction: string, scale: nat)
    requires AllDigits(integer) && AllDigits(fraction) && integer != []
    ensures var r := RoundDigits(integer, fraction, scale);
            IsRounding(Value(integer + fraction), |fraction|, Value(r.integer + r.fraction), scale)
  {
    if |fraction| <= scale {
      PaddedDigits(integer, fraction, scale);
      PadRounds(integer, fraction, scale);
    } else {
      var r := RoundDigits(integer, fraction, scale);
      CutDigitsRound(integer, fraction, scale);
      CutIsRounding(Value(integer + fraction), |fraction|, Value(r.integer + r.fraction), scale);
    }
  }

  // ---------------------------------------------------------------- no spurious zeros

  predicate Canonical(integer: string) {
    integer == "0" || (integer != [] && integer[0] != '0')
  }

  // The carry never makes a canonical integer part start with a needless zero.
  lemma StaysCanonical(integer: string, fraction: string, scale: nat)
    requires AllDigits(integer) && AllDigits(fraction) && Canonical(integer)
    ensures Canonical(RoundDigits(integer, fraction, scale).integer)
  {
    if RoundsUp(fraction, scale) {
      var front := integer + Kept(fraction, scale);
      NextLeads(front);
      assert front[0] == integer[0];
      var r := RoundDigits(integer, fraction, scale);
      assert r.integer[0] == NextDigits(front)[0];
      if integer == "0" { assert |r.integer| == 1; }
    }
  }

  // The sign is dropped only from an integer part written as a single zero.
  predicate PrintsMinus(negative: bool, r: Rounded) {
    negative && (r.integer != "0" || exists i :: 0 <= i < |r.fraction| && r.fraction[i] != '0')
  }

  function PrintDecimal(negative: bool, r: Rounded): string {
    (if PrintsMinus(negative, r) then "-" else "") + (r.integer + (if r.fraction == [] then "" else "." + r.fraction))
  }

  lemma PartsAreZero(a: string, b: string)
    requires AllDigits(a) && AllDigits(b)
    ensures Value(a + b) == 0 <==>
      (forall i :: 0 <= i < |a| ==> a[i] == '0') && (forall i :: 0 <= i < |b| ==> b[i] == '0')
  {
    ZeroMeansZeros(a + b);
    assert forall i :: 0 <= i < |a| ==> (a + b)[i] == a[i];
    assert forall i :: 0 <= i < |b| ==> (a + b)[|a| + i] == b[i];
  }

  // A number that rounds to zero was not rounded up, so its integer part is printed as written.
  lemma ZeroKeepsInteger(integer: string, fraction: string, scale: nat)
    requires AllDigits(integer) && AllDigits(fraction) && integer != []
    requires var r := RoundDigits(integer, fraction, scale); Value(r.integer + r.fraction) == 0
    ensures RoundDigits(integer, fraction, scale).integer == integer
  {
    if |fraction| > scale {
      RoundedDigits(integer, fraction, scale);
      NextIsSuccessor(integer + fraction[..scale]);
    }
  }

  // A minus sign before zero: exactly for a negative number that rounds to zero and whose integer
  // part was written with needless zeros. A canonical number never prints negative zero.
  lemma NegativeZero(w: Written, scale: nat)
    requires w.Valid()
    ensures var r := RoundDigits(w.Whole(), w.fraction, scale);
      && (PrintsMinus(w.negative, r) && Value(r.integer + r.fraction) == 0
          <==> w.negative && Value(r.integer + r.fraction) == 0 && |w.Whole()| > 1)
  {
    var r := RoundDigits(w.Whole(), w.fraction, scale);
    PartsAreZero(r.integer, r.fraction);
    if Value(r.integer + r.fraction) == 0 {
      ZeroKeepsInteger(w.Whole(), w.fraction, scale);
      assert |r.integer| == 1 ==> r.integer == "0";
    }
  }

  // ---------------------------------------------------------------- format_decimal_text

  lemma SplitUnsigned(w: Written)
    requires w.Valid()
    ensures var u := w.Unsigned();
            && IndexOf(u, '.') == |w.integer|
            && u[..|w.integer|] == w.integer
            && (w.point ==> |w.integer| < |u| && u[|w.integer| + 1..] == w.fraction)
            && (!w.point ==> |u| == |w.integer|)
  {
    var u := w.Unsigned();
    assert forall i :: 0 <= i < |w.integer| ==> u[i] == w.integer[i] && u[i] != '.';
    assert w.point ==> u[|w.integer|] == '.';
  }

  lemma StripSigns(w: Written)
    requires w.Valid()
    ensures StripPrefix(w.Trimmed(), '-').Some? <==> w.negative
    ensures var rest := if w.negative then StripPrefix(w.Trimmed(), '-').value else w.Trimmed();
            (match StripPrefix(rest, '+') case Some(u) => u case None => rest) == w.Unsigned()
  {
    var tail := (if w.plus then "+" else "") + w.Unsigned();
    assert w.negative ==> w.Trimmed()[1..] == tail;
    assert !w.negative ==> w.Trimmed() == tail;
    assert w.Unsigned() != [] ==> w.Unsigned()[0] == '.' || IsDigit(w.Unsigned()[0]);
    assert w.plus ==> tail[1..] == w.Unsigned();
    assert !w.plus ==> tail == w.Unsigned();
  }

  method FormatDecimalText(value: string, scale: nat, ghost w: Written) returns (output: string)
    requires w.Valid() && value == w.Text()
    ensures output == PrintDecimal(w.negative, RoundDigits(w.Whole(), w.fraction, scale))
  {
    var trimmed := TrimEnd(TrimStart(value));
    TrimLeavesNumber(w);
    StripSigns(w);
    SplitUnsigned(w);
    var minus := StripPrefix(trimmed, '-');
    var negative := minus.Some?;
    var unsigned := if negative then minus.value else trimmed;
    var plus := StripPrefix(unsigned, '+');
    unsigned := if plus.Some? then plus.value else unsigned;
    var point := IndexOf(unsigned, '.');
    var integer := unsigned[..point];
    var fraction := if point < |unsigned| then unsigned[point + 1..] else "";
    integer := if integer == [] then "0" else integer;
    assert integer == w.Whole() && fraction == w.fraction && negative == w.negative;
    output := RoundAndPrint(negative, integer, fraction, scale);
  }

  method PadZeros(fraction: string, scale: nat) returns (padded: string)
    requires |fraction| <= scale
    ensures padded == fraction + Zeros(scale - |fraction|)
  {
    padded := fraction;
    while |padded| < scale
      invariant |fraction| <= |padded| <= scale
      invariant padded == fraction + Zeros(|padded| - |fraction|)
    {
      padded := padded + ['0'];
    }
  }

  method Round(whole: string, decimals: string, scale: nat) returns (integer: string, fraction: string)
    requires AllDigits(whole) && AllDigits(decimals) && whole != []
    ensures Rounded(integer, fraction) == RoundDigits(whole, decimals, scale)
  {
    integer, fraction := whole, decimals;
    var roundUp := |fraction| > scale && fraction[scale] >= '5';
    fraction := if |fraction| > scale then fraction[..scale] else fraction;
    if roundUp {
      var digits := IncrementDigits(integer + fraction);
      var split := if |digits| > scale then |digits| - scale else 0;
      integer := if split == 0 then "0" else digits[..split];
      fraction := digits[split..];
    }
    fraction := PadZeros(fraction, scale);
    assert Zeros(0) == [];
  }

  lemma PrintParts(negative: bool, r: Rounded, scale: nat)
    requires |r.fraction| == scale
    ensures PrintDecimal(negative, r)
         == (if PrintsMinus(negative, r) then "-" else "") + (r.integer + (if scale > 0 then "." + r.fraction else ""))
  {
  }

  method RoundAndPrint(negative: bool, whole: string, decimals: string, scale: nat) returns (output: string)
    requires AllDigits(whole) && AllDigits(decimals) && whole != []
    ensures output == PrintDecimal(negative, RoundDigits(whole, decimals, scale))
  {
    var integer, fraction := Round(whole, decimals, scale);
    PrintParts(negative, Rounded(integer, fraction), scale);
    var sign := "";
    if negative && (integer != "0" || exists i :: 0 <= i < |fraction| && fraction[i] != '0') {
      sign := "-";
    }
    var tail := "";
    if scale > 0 {
      tail := "." + fraction;
    }
    output := sign + (integer + tail);
  }

  // The printed text of every decimal: the rounded number, with `scale` fraction digits.
  lemma FormattedIsRounded(w: Written, scale: nat)
    requires w.Valid()
    ensures var r := RoundDigits(w.Whole(), w.fraction, scale);
      && |r.fraction| == scale
      && IsRounding(Value(w.integer + w.fraction), |w.fraction|, Value(r.integer + r.fraction), scale)
      && (Canonical(w.Whole()) ==> Canonical(r.integer))
      && (Canonical(w.Whole()) ==> (PrintsMinus(w.negative, r) <==> w.negative && Value(r.integer + r.fraction) != 0))
  {
    DigitsRound(w.Whole(), w.fraction, scale);
    if w.integer == [] {
      assert "0" == Zeros(1);
      ValueOfZeros(1);
      ValueConcat("0", w.fraction);
      assert [] + w.fraction == w.fraction;
    }
    if Canonical(w.Whole()) {
      StaysCanonical(w.Whole(), w.fraction, scale);
      MinusMeansNonZero(w, scale);
    }
  }

  lemma MinusMeansNonZero(w: Written, scale: nat)
    requires w.Valid() && Canonical(w.Whole())
    ensures var r := RoundDigits(w.Whole(), w.fraction, scale);
            PrintsMinus(w.negative, r) <==> w.negative && Value(r.integer + r.fraction) != 0
  {
    var r := RoundDigits(w.Whole(), w.fraction, scale);
    PartsAreZero(r.integer, r.fraction);
    StaysCanonical(w.Whole(), w.fraction, scale);
  }

  // Such texts exist: "-00.0" keeps its minus at scale one.
  lemma MinusZeroIsPrinted()
    ensures var w := Written("", true, false, "00", true, "0", "");
            w.Valid() && w.Text() == "-00.0" && PrintDecimal(w.negative, RoundDigits(w.Whole(), w.fraction, 1))
                == "-00.0"
    ensures Value("000") == 0
  {
    var w := Written("", true, false, "00", true, "0", "");
    assert "000"[..2] == "00" && "00"[..1] == "0" && "0"[..0] == "";
    assert Zeros(0) == "";
    assert RoundDigits("00", "0", 1) == Rounded("00", "0");
    assert w.Text() == "" + (("-" + ("" + ("00" + ("." + "0")))) + "");
  }
}
