/** TIME values between SQL text and the MySQL wire (`parse_mysql_time_value`, `MysqlTimeValue`,
    `decode_mysql_time_parameter`). */
module TimeValues {
  import opened Characters
  import opened Digits
  import opened Wrappers

  datatype MysqlTimeValue = MysqlTimeValue(
    negative: bool, days: nat, hours: nat, minutes: nat, seconds: nat, micros: nat, forceFraction: bool)
  {
    predicate IsZero() {
      days == 0 && hours == 0 && minutes == 0 && seconds == 0 && micros == 0
    }
  }

  const MAX_U8: nat := 255
  const MAX_U64: nat := 0xFFFF_FFFF_FFFF_FFFF

  // ---------------------------------------------------------------- text to numbers

  // Rust's unsigned `parse`: an optional plus sign and at least one digit, within the type.
  function ParseUnsigned(s: string, max: nat): Option<nat> {
    var digits := if s != [] && s[0] == '+' then s[1..] else s;
    if digits != [] && AllDigits(digits) && Value(digits) <= max then Some(Value(digits)) else None
  }

  function Split(s: string, c: char): (parts: seq<string>)
    ensures parts != []
  {
    if s == [] then [[]]
    else
      var rest := Split(s[1..], c);
      if s[0] == c then [[]] + rest else [[s[0]] + rest[0]] + rest[1..]
  }

  // The text before the first point and, if there is one, the text behind it.
  function SplitPoint(s: string): (string, string) {
    if s == [] then ([], [])
    else if s[0] == '.' then ([], s[1..])
    else
      var rest := SplitPoint(s[1..]);
      ([s[0]] + rest.0, rest.1)
  }

  function ParseMicros(fraction: string): Option<nat> {
    if fraction == [] then Some(0)
    else if |fraction| <= 6 && AllDigits(fraction) then Some(Value(fraction + Zeros(6 - |fraction|)))
    else None
  }

  // The parts between the colons.
  function ParseClock(negative: bool, parts: seq<string>, forceFraction: bool): Option<MysqlTimeValue>
    requires parts != []
  {
    if |parts| > 3 then None else
      var hours :- ParseUnsigned(parts[0], MAX_U64);
      var minutes :- ParseUnsigned(if |parts| > 1 then parts[1] else [], MAX_U8);
      var last := SplitPoint(if |parts| > 2 then parts[2] else []);
      var seconds :- ParseUnsigned(last.0, MAX_U8);
      var micros :- ParseMicros(last.1);
      if hours > 838 || minutes > 59 || seconds > 59 then None
      else Some(MysqlTimeValue(negative, hours / 24, hours % 24, minutes, seconds, micros, forceFraction))
  }

  function Unsigned(value: string): string {
    if value != [] && (value[0] == '-' || value[0] == '+') then value[1..] else value
  }

  function ParseTime(value: string): Option<MysqlTimeValue> {
    var rest := Unsigned(value);
    ParseClock(value != [] && value[0] == '-', Split(rest, ':'), '.' in rest)
  }

  // ---------------------------------------------------------------- numbers to text

  // Left-padded with zeros to a width.
  function Padded(n: nat, width: nat): string {
    var s := Decimal(n);
    if |s| < width then Zeros(width - |s|) + s else s
  }

  function Clock(v: MysqlTimeValue): string {
    Padded(v.days * 24 + v.hours, 2) + (":" + (Padded(v.minutes, 2) + (":" + (Padded(v.seconds, 2) + Tail(v)))))
  }

  function Display(v: MysqlTimeValue): string {
    if v.negative then "-" + Clock(v) else Clock(v)
  }

  function Tail(v: MysqlTimeValue): string {
    if v.micros == 0 && !v.forceFraction then [] else "." + Padded(v.micros, 6)
  }

  // ---------------------------------------------------------------- what parsing produces

  predicate Valid(v: MysqlTimeValue) {
    && v.hours < 24 && v.days * 24 + v.hours <= 838 && v.minutes <= 59 && v.seconds <= 59
    && v.micros < 1_000_000 && (v.micros != 0 ==> v.forceFraction)
  }

  lemma PowSix()
    ensures Pow10(6) == 1_000_000
  {
    assert Pow10(3) == 1000;
  }

  lemma {:induction false} PointIsThere(s: string)
    ensures SplitPoint(s).1 != [] ==> '.' in s
  {
    if s != [] && s[0] != '.' { PointIsThere(s[1..]); }
  }

  lemma {:induction false} PartsAreInside(s: string, c: char, k: nat, x: char)
    requires k < |Split(s, c)| && x in Split(s, c)[k]
    ensures x in s
  {
    if s != [] {
      var rest := Split(s[1..], c);
      if s[0] == c {
        if k > 0 { PartsAreInside(s[1..], c, k - 1, x); }
      } else if k > 0 {
        assert Split(s, c)[k] == rest[k];
        PartsAreInside(s[1..], c, k, x);
      } else if x != s[0] {
        PartsAreInside(s[1..], c, 0, x);
      }
    }
  }

  lemma MicrosBound(fraction: string)
    requires ParseMicros(fraction).Some?
    ensures ParseMicros(fraction).value < 1_000_000
    ensures ParseMicros(fraction).value != 0 ==> fraction != []
  {
    if fraction != [] {
      ValueBound(fraction + Zeros(6 - |fraction|));
      PowSix();
    }
  }

  lemma ParsedIsValid(value: string)
    requires ParseTime(value).Some?
    ensures Valid(ParseTime(value).value)
  {
    var rest := Unsigned(value);
    var parts := Split(rest, ':');
    var fraction := SplitPoint(if |parts| > 2 then parts[2] else []).1;
    MicrosBound(fraction);
    if fraction != [] {
      PointIsThere(parts[2]);
      PartsAreInside(rest, ':', 2, '.');
    }
  }

  // ---------------------------------------------------------------- reading back what was printed

  lemma PaddedIsNumber(n: nat, width: nat)
    ensures AllDigits(Padded(n, width)) && Padded(n, width) != [] && Value(Padded(n, width)) == n
  {
    var s := Decimal(n);
    if |s| < width {
      ValueConcat(Zeros(width - |s|), s);
      ValueOfZeros(width - |s|);
    }
  }

  lemma ParsePadded(n: nat, width: nat, max: nat)
    requires n <= max
    ensures ParseUnsigned(Padded(n, width), max) == Some(n)
  {
    PaddedIsNumber(n, width);
    assert IsDigit(Padded(n, width)[0]);
  }

  lemma {:induction false} DecimalLength(n: nat, k: nat)
    requires n < Pow10(k) && k > 0
    ensures |Decimal(n)| <= k
  {
    if n >= 10 { DecimalLength(n / 10, k - 1); }
  }

  lemma {:induction false} SplitAt(a: string, c: char, b: string)
    requires c !in a
    ensures Split(a + [c] + b, c) == [a] + Split(b, c)
  {
    var s := a + [c] + b;
    if a == [] {
      assert s[1..] == b;
    } else {
      assert s[1..] == a[1..] + [c] + b;
      SplitAt(a[1..], c, b);
      assert a == [a[0]] + a[1..];
    }
  }

  lemma {:induction false} SplitNothing(a: string, c: char)
    requires c !in a
    ensures Split(a, c) == [a]
  {
    if a != [] {
      SplitNothing(a[1..], c);
      assert a == [a[0]] + a[1..];
    }
  }

  lemma {:induction false} SplitPointAt(a: string, b: string)
    requires '.' !in a
    ensures SplitPoint(a + ("." + b)) == (a, b)
  {
    var s := a + ("." + b);
    if a == [] {
      assert s[1..] == b;
    } else {
      assert s[1..] == a[1..] + ("." + b);
      SplitPointAt(a[1..], b);
      assert a == [a[0]] + a[1..];
    }
  }

  lemma {:induction false} NoPoint(a: string)
    requires '.' !in a
    ensures SplitPoint(a) == (a, [])
  {
    if a != [] {
      NoPoint(a[1..]);
      assert a == [a[0]] + a[1..];
    }
  }

  lemma DigitsOnly(s: string)
    requires AllDigits(s)
    ensures ':' !in s && '.' !in s && '-' !in s && '+' !in s
  {
  }

  // The seconds part with its fraction.
  lemma SecondsReadBack(v: MysqlTimeValue)
    requires Valid(v)
    ensures var s := Padded(v.seconds, 2) + Tail(v);
      && ':' !in s && ('.' in s <==> v.forceFraction)
      && SplitPoint(s).0 == Padded(v.seconds, 2) && ParseMicros(SplitPoint(s).1) == Some(v.micros)
  {
    var seconds := Padded(v.seconds, 2);
    PaddedIsNumber(v.seconds, 2);
    DigitsOnly(seconds);
    if Tail(v) == [] {
      assert seconds + [] == seconds;
      NoPoint(seconds);
    } else {
      var micros := Padded(v.micros, 6);
      PaddedIsNumber(v.micros, 6);
      DigitsOnly(micros);
      SplitPointAt(seconds, micros);
      PowSix();
      DecimalLength(v.micros, 6);
      assert |micros| == 6 && micros + Zeros(0) == micros;
      assert (seconds + Tail(v))[|seconds|] == '.';
    }
  }

  lemma SplitThree(h: string, m: string, s: string)
    requires ':' !in h && ':' !in m && ':' !in s
    ensures Split(h + (":" + (m + (":" + s))), ':') == [h, m, s]
  {
    assert h + (":" + (m + (":" + s))) == h + ":" + (m + (":" + s));
    SplitAt(h, ':', m + (":" + s));
    assert m + (":" + s) == m + ":" + s;
    SplitAt(m, ':', s);
    SplitNothing(s, ':');
  }

  lemma PointInLast(h: string, m: string, s: string)
    requires '.' !in h && '.' !in m
    ensures '.' in h + (":" + (m + (":" + s))) <==> '.' in s
  {
    var clock := h + (":" + (m + (":" + s)));
    assert clock == (h + ":" + m + ":") + s;
  }

  lemma ClockReadBack(v: MysqlTimeValue)
    requires Valid(v)
    ensures var clock := Clock(v);
      && Split(clock, ':') == [Padded(v.days * 24 + v.hours, 2), Padded(v.minutes, 2), Padded(v.seconds, 2) + Tail(v)]
      && ('.' in clock <==> v.forceFraction) && clock != [] && IsDigit(clock[0])
  {
    var h, m, s := Padded(v.days * 24 + v.hours, 2), Padded(v.minutes, 2), Padded(v.seconds, 2) + Tail(v);
    PaddedIsNumber(v.days * 24 + v.hours, 2);
    PaddedIsNumber(v.minutes, 2);
    DigitsOnly(h);
    DigitsOnly(m);
    SecondsReadBack(v);
    SplitThree(h, m, s);
    PointInLast(h, m, s);
    assert Clock(v)[0] == h[0];
  }

  lemma ParseClockIs(negative: bool, h: string, m: string, s: string, force: bool,
                     hours: nat, minutes: nat, seconds: nat, micros: nat)
    requires ParseUnsigned(h, MAX_U64) == Some(hours) && ParseUnsigned(m, MAX_U8) == Some(minutes)
    requires ParseUnsigned(SplitPoint(s).0, MAX_U8) == Some(seconds) && ParseMicros(SplitPoint(s).1) == Some(micros)
    requires hours <= 838 && minutes <= 59 && seconds <= 59
    ensures ParseClock(negative, [h, m, s], force)
         == Some(MysqlTimeValue(negative, hours / 24, hours % 24, minutes, seconds, micros, force))
  {
  }

  lemma PartsParse(v: MysqlTimeValue)
    requires Valid(v)
    ensures ParseClock(v.negative,
        [Padded(v.days * 24 + v.hours, 2), Padded(v.minutes, 2), Padded(v.seconds, 2) + Tail(v)],
                       v.forceFraction) == Some(v)
  {
    var hours := v.days * 24 + v.hours;
    ParsePadded(hours, 2, MAX_U64);
    ParsePadded(v.minutes, 2, MAX_U8);
    SecondsReadBack(v);
    ParsePadded(v.seconds, 2, MAX_U8);
    assert hours / 24 == v.days && hours % 24 == v.hours;
    ParseClockIs(v.negative, Padded(hours, 2), Padded(v.minutes, 2), Padded(v.seconds, 2) + Tail(v), v.forceFraction,
                 hours, v.minutes, v.seconds, v.micros);
  }

  // Printing a parsed value and parsing the text again gives the value back.
  lemma DisplayParses(v: MysqlTimeValue)
    requires Valid(v)
    ensures ParseTime(Display(v)) == Some(v)
  {
    ClockReadBack(v);
    assert ("-" + Clock(v))[1..] == Clock(v);
    assert Unsigned(Display(v)) == Clock(v);
    PartsParse(v);
  }

  lemma ParseDisplayParse(value: string)
    requires ParseTime(value).Some?
    ensures ParseTime(Display(ParseTime(value).value)) == ParseTime(value)
  {
    ParsedIsValid(value);
    DisplayParses(ParseTime(value).value);
  }

  // ---------------------------------------------------------------- what is printed

  lemma {:induction false} DecimalStart(n: nat)
    ensures |Decimal(n)| > 1 ==> Decimal(n)[0] != '0'
  {
    if n >= 10 {
      DecimalStart(n / 10);
      if n < 100 { assert Decimal(n / 10) == [DigitChar(n / 10)]; }
    }
  }

  // The digits of a number, with leading zeros only to reach the width.
  predicate IsPadded(s: string, n: nat, width: nat) {
    && AllDigits(s) && Value(s) == n && |s| >= width && (|s| > width ==> s[0] != '0')
  }

  lemma PaddedIs(n: nat, width: nat)
    requires width > 0
    ensures IsPadded(Padded(n, width), n, width)
    ensures n < Pow10(width) ==> |Padded(n, width)| == width
  {
    PaddedIsNumber(n, width);
    DecimalStart(n);
    if n < Pow10(width) { DecimalLength(n, width); }
  }

  lemma PowTwo()
    ensures Pow10(2) == 100
  {
    assert Pow10(1) == 10;
  }

  // A printed time: a minus sign for negative values, the hours in at least two digits, minutes and
  // seconds in two, and six digits of microseconds unless there are none to show.
  lemma DisplayIsPadded(v: MysqlTimeValue) returns (h: string, m: string, s: string, f: string)
    requires Valid(v)
    ensures Display(v) == (if v.negative then "-" else "") + (h + (":" + (m + (":" + (s + f)))))
    ensures IsPadded(h, v.days * 24 + v.hours, 2)
    ensures IsPadded(m, v.minutes, 2) && |m| == 2 && IsPadded(s, v.seconds, 2) && |s| == 2
    ensures f == "" <==> v.micros == 0 && !v.forceFraction
    ensures f != "" ==> f[0] == '.' && IsPadded(f[1..], v.micros, 6) && |f| == 7
  {
    h, m, s, f := Padded(v.days * 24 + v.hours, 2), Padded(v.minutes, 2), Padded(v.seconds, 2), Tail(v);
    PaddedIs(v.days * 24 + v.hours, 2);
    PaddedIs(v.minutes, 2);
    PaddedIs(v.seconds, 2);
    PaddedIs(v.micros, 6);
    PowTwo();
    PowSix();
    assert "" + Clock(v) == Clock(v);
    assert f != "" ==> f[1..] == Padded(v.micros, 6);
  }

  // ---------------------------------------------------------------- what a text writes

  // A number as Rust reads it: perhaps a plus sign, then digits.
  function Unplussed(s: string): string {
    if s != [] && s[0] == '+' then s[1..] else s
  }

  predicate IsNumber(s: string) {
    Unplussed(s) != [] && AllDigits(Unplussed(s))
  }

  // A time as it is written: perhaps a sign, three numbers, and perhaps a point with more digits.
  datatype Written = Written(
    sign: Option<char>, hours: string, minutes: string, seconds: string, point: bool, fraction: string)
  {
    function Seconds(): string {
      seconds + if point then "." + fraction else ""
    }

    function Clock(): string {
      hours + (":" + (minutes + (":" + Seconds())))
    }

    function Text(): string {
      if sign.Some? then [sign.value] + Clock() else Clock()
    }

    predicate Valid() {
      && (sign.Some? ==> sign.value == '-' || sign.value == '+')
      && IsNumber(hours) && Value(Unplussed(hours)) <= 838
      && IsNumber(minutes) && Value(Unplussed(minutes)) <= 59
      && IsNumber(seconds) && Value(Unplussed(seconds)) <= 59
      && AllDigits(fraction) && |fraction| <= 6 && (fraction != [] ==> point)
    }

    // The value is the number that is written: the fraction stands for its digits over a power of ten.
    predicate Denotes(v: MysqlTimeValue)
      requires Valid()
    {
      && (v.negative <==> sign == Some('-')) && (v.forceFraction <==> point)
      && v.days * 24 + v.hours == Value(Unplussed(hours)) && v.hours < 24
      && v.minutes == Value(Unplussed(minutes)) && v.seconds == Value(Unplussed(seconds))
      && v.micros * Pow10(|fraction|) == Value(fraction) * 1_000_000
    }
  }

  ghost predicate Writes(w: Written, value: string, v: MysqlTimeValue) {
    w.Valid() && value == w.Text() && w.Denotes(v)
  }

  lemma NumberParses(s: string, max: nat)
    ensures ParseUnsigned(s, max).Some? <==> IsNumber(s) && Value(Unplussed(s)) <= max
    ensures ParseUnsigned(s, max).Some? ==> ParseUnsigned(s, max).value == Value(Unplussed(s))
  {
  }

  lemma NumberIsPlain(s: string)
    requires IsNumber(s)
    ensures ':' !in s && '.' !in s && s != [] && s[0] != '-'
  {
    assert s == Unplussed(s) || s == ['+'] + Unplussed(s);
    DigitsOnly(Unplussed(s));
  }

  lemma {:induction false} PowSplits(a: nat, b: nat)
    ensures Pow10(a + b) == Pow10(a) * Pow10(b)
  {
    if a > 0 {
      PowSplits(a - 1, b);
      TimesRegroup(Pow10(a - 1), Pow10(b));
    }
  }

  lemma TimesRegroup(p: nat, q: nat)
    ensures 10 * (p * q) == (10 * p) * q
  {
  }

  lemma ScaledTo(v: nat, a: nat, p: nat, q: nat, m: nat)
    requires v == a * p && m == q * p
    ensures v * q == a * m
  {
    assert (a * p) * q == a * (q * p);
  }

  lemma PaddedValue(fraction: string, n: nat)
    requires AllDigits(fraction)
    ensures Value(fraction + Zeros(n)) == Value(fraction) * Pow10(n)
  {
    ValueConcat(fraction, Zeros(n));
    ValueOfZeros(n);
  }

  // Padding on the right scales the digits to millionths.
  lemma FractionScales(fraction: string)
    requires AllDigits(fraction) && |fraction| <= 6
    ensures Value(fraction + Zeros(6 - |fraction|)) * Pow10(|fraction|) == Value(fraction) * 1_000_000
  {
    var n, v := 6 - |fraction|, Value(fraction + Zeros(6 - |fraction|));
    PaddedValue(fraction, n);
    PowSplits(|fraction|, n);
    PowSix();
    ScaledTo(v, Value(fraction), Pow10(n), Pow10(|fraction|), 1_000_000);
  }

  lemma MicrosParse(fraction: string)
    ensures ParseMicros(fraction).Some? <==> AllDigits(fraction) && |fraction| <= 6
    ensures ParseMicros(fraction).Some? ==>
      ParseMicros(fraction).value * Pow10(|fraction|) == Value(fraction) * 1_000_000
  {
    if AllDigits(fraction) && |fraction| <= 6 { FractionScales(fraction); }
  }

  lemma SameFactor(a: nat, b: nat, p: nat)
    requires a * p == b * p && p > 0
    ensures a == b
  {
    if a < b {
      StrictlyScales(a, b, p);
    } else if b < a {
      StrictlyScales(b, a, p);
    }
  }

  lemma StrictlyScales(a: nat, b: nat, p: nat)
    requires a < b && p > 0
    ensures a * p < b * p
  {
  }

  lemma {:induction false} SplitPointIs(s: string)
    ensures var (a, b) := SplitPoint(s);
            '.' !in a && s == a + if '.' in s then "." + b else ""
    ensures '.' !in s ==> SplitPoint(s).1 == []
  {
    if s != [] && s[0] != '.' {
      SplitPointIs(s[1..]);
      assert s == [s[0]] + s[1..];
      assert '.' in s <==> '.' in s[1..];
    }
  }

  function Joined(parts: seq<string>): string {
    if parts == [] then "" else if |parts| == 1 then parts[0] else parts[0] + (":" + Joined(parts[1..]))
  }

  lemma {:induction false} SplitJoins(s: string)
    ensures Joined(Split(s, ':')) == s
    ensures forall k :: 0 <= k < |Split(s, ':')| ==> ':' !in Split(s, ':')[k]
  {
    if s != [] {
      var rest := Split(s[1..], ':');
      SplitJoins(s[1..]);
      assert s == [s[0]] + s[1..];
      if s[0] == ':' {
        assert ([[]] + rest)[1..] == rest;
      } else if |rest| > 1 {
        assert ([[s[0]] + rest[0]] + rest[1..])[1..] == rest[1..];
      }
    }
  }

  lemma JoinedThree(parts: seq<string>)
    requires |parts| == 3
    ensures Joined(parts) == parts[0] + (":" + (parts[1] + (":" + parts[2])))
  {
    assert parts[1..] == [parts[1], parts[2]] && [parts[1], parts[2]][1..] == [parts[2]];
    assert Joined([parts[2]]) == parts[2];
    assert Joined([parts[1], parts[2]]) == parts[1] + (":" + parts[2]);
  }

  lemma SecondsSplit(w: Written)
    requires w.Valid()
    ensures SplitPoint(w.Seconds()) == (w.seconds, w.fraction) && ('.' in w.Seconds() <==> w.point)
    ensures ':' !in w.Seconds()
  {
    NumberIsPlain(w.seconds);
    DigitsOnly(w.fraction);
    if w.point {
      SplitPointAt(w.seconds, w.fraction);
      assert w.Seconds()[|w.seconds|] == '.';
    } else {
      assert w.Seconds() == w.seconds;
      NoPoint(w.seconds);
    }
  }

  lemma ClockIsRead(w: Written, v: MysqlTimeValue)
    requires w.Valid() && w.Denotes(v)
    ensures ParseClock(v.negative, [w.hours, w.minutes, w.Seconds()], v.forceFraction) == Some(v)
  {
    var hours := v.days * 24 + v.hours;
    NumberParses(w.hours, MAX_U64);
    NumberParses(w.minutes, MAX_U8);
    NumberParses(w.seconds, MAX_U8);
    MicrosParse(w.fraction);
    SecondsSplit(w);
    SameFactor(ParseMicros(w.fraction).value, v.micros, Pow10(|w.fraction|));
    assert hours / 24 == v.days && hours % 24 == v.hours;
    ParseClockIs(v.negative, w.hours, w.minutes, w.Seconds(), v.forceFraction, hours, v.minutes, v.seconds, v.micros);
  }

  // Without a sign in front, a plus sign of the hours is read as the sign; it denotes the same.
  predicate IsCanonical(w: Written) {
    w.Valid() && (w.sign.None? ==> w.hours[0] != '+')
  }

  lemma SignIsRead(w: Written)
    requires IsCanonical(w)
    ensures w.Text() != [] && (w.Text()[0] == '-' <==> w.sign == Some('-')) && Unsigned(w.Text()) == w.Clock()
  {
    NumberIsPlain(w.hours);
    assert w.Clock()[0] == w.hours[0];
    if w.sign.Some? { assert w.Text()[1..] == w.Clock(); }
  }

  lemma ClockSplits(w: Written)
    requires w.Valid()
    ensures Split(w.Clock(), ':') == [w.hours, w.minutes, w.Seconds()] && ('.' in w.Clock() <==> w.point)
  {
    NumberIsPlain(w.hours);
    NumberIsPlain(w.minutes);
    SecondsSplit(w);
    SplitThree(w.hours, w.minutes, w.Seconds());
    PointInLast(w.hours, w.minutes, w.Seconds());
  }

  lemma CanonicalIsRead(w: Written, value: string, v: MysqlTimeValue)
    requires IsCanonical(w) && Writes(w, value, v)
    ensures ParseTime(value) == Some(v)
  {
    SignIsRead(w);
    ClockSplits(w);
    ClockIsRead(w, v);
  }

  lemma MakeCanonical(w: Written, value: string, v: MysqlTimeValue) returns (c: Written)
    requires Writes(w, value, v)
    ensures IsCanonical(c) && Writes(c, value, v)
  {
    c := w;
    if w.sign.None? && w.hours[0] == '+' {
      c := w.(sign := Some('+'), hours := Unplussed(w.hours));
      assert w.hours == ['+'] + Unplussed(w.hours);
      assert Unplussed(Unplussed(w.hours)) == Unplussed(w.hours);
      Shift(['+'], c.hours, ":" + (w.minutes + (":" + w.Seconds())));
    }
  }

  lemma WrittenIsRead(w: Written, value: string, v: MysqlTimeValue)
    requires Writes(w, value, v)
    ensures ParseTime(value) == Some(v)
  {
    var c := MakeCanonical(w, value, v);
    CanonicalIsRead(c, value, v);
  }

  function SignOf(value: string): Option<char> {
    if value != [] && (value[0] == '-' || value[0] == '+') then Some(value[0]) else None
  }

  lemma ReadClock(negative: bool, parts: seq<string>, force: bool, v: MysqlTimeValue)
    requires parts != [] && ParseClock(negative, parts, force) == Some(v)
    ensures |parts| == 3 && IsNumber(parts[0]) && IsNumber(parts[1]) && IsNumber(SplitPoint(parts[2]).0)
    ensures v.days * 24 + v.hours == Value(Unplussed(parts[0])) <= 838 && v.hours < 24
    ensures v.minutes == Value(Unplussed(parts[1])) <= 59 && v.seconds == Value(Unplussed(SplitPoint(parts[2]).0)) <= 59
    ensures ParseMicros(SplitPoint(parts[2]).1) == Some(v.micros)
    ensures v.negative == negative && v.forceFraction == force
  {
    NumberParses(parts[0], MAX_U64);
    NumberParses(if |parts| > 1 then parts[1] else [], MAX_U8);
    NumberParses(SplitPoint(if |parts| > 2 then parts[2] else []).0, MAX_U8);
  }

  // An accepted seconds part is seconds, and perhaps a point with a fraction.
  lemma ReadSeconds(last: string, w: Written)
    requires w.seconds == SplitPoint(last).0 && w.fraction == SplitPoint(last).1 && w.point == ('.' in last)
    ensures last == w.Seconds() && (w.fraction != [] ==> w.point)
  {
    SplitPointIs(last);
  }

  lemma SignSplits(value: string)
    ensures value == (if SignOf(value).Some? then [SignOf(value).value] + Unsigned(value) else Unsigned(value))
    ensures value != [] && value[0] == '-' <==> SignOf(value) == Some('-')
  {
  }

  // The parts of an accepted text, put together again.
  lemma PartsAreText(rest: string, parts: seq<string>)
    requires parts == Split(rest, ':') && |parts| == 3
    requires IsNumber(parts[0]) && IsNumber(parts[1])
    ensures rest == parts[0] + (":" + (parts[1] + (":" + parts[2]))) && ('.' in rest <==> '.' in parts[2])
  {
    SplitJoins(rest);
    JoinedThree(parts);
    NumberIsPlain(parts[0]);
    NumberIsPlain(parts[1]);
    PointInLast(parts[0], parts[1], parts[2]);
  }

  lemma ReadDenotes(w: Written, last: string, v: MysqlTimeValue)
    requires ParseClock(v.negative, [w.hours, w.minutes, last], v.forceFraction) == Some(v)
    requires w.seconds == SplitPoint(last).0 && w.fraction == SplitPoint(last).1 && (w.fraction != [] ==> w.point)
    requires (w.sign.Some? ==> w.sign.value == '-' || w.sign.value == '+')
    requires (v.negative <==> w.sign == Some('-')) && w.point == v.forceFraction
    ensures w.Valid() && w.Denotes(v)
  {
    ReadClock(v.negative, [w.hours, w.minutes, last], v.forceFraction, v);
    MicrosParse(w.fraction);
  }

  lemma ReadIsWritten(value: string, v: MysqlTimeValue) returns (w: Written)
    requires ParseTime(value) == Some(v)
    ensures Writes(w, value, v)
  {
    var rest := Unsigned(value);
    var parts := Split(rest, ':');
    ReadClock(value != [] && value[0] == '-', parts, '.' in rest, v);
    PartsAreText(rest, parts);
    SignSplits(value);
    var last := parts[2];
    w := Written(SignOf(value), parts[0], parts[1], SplitPoint(last).0, '.' in last, SplitPoint(last).1);
    ReadSeconds(last, w);
    assert parts == [w.hours, w.minutes, last];
    ReadDenotes(w, last, v);
  }

  // A text is read as a value exactly when it writes that value: a sign, three numbers in range and
  // a fraction, and the value is the number they stand for.
  lemma ParsedIsWritten(value: string, v: MysqlTimeValue)
    ensures ParseTime(value) == Some(v) <==> exists w :: Writes(w, value, v)
  {
    if ParseTime(value) == Some(v) {
      var w := ReadIsWritten(value, v);
    } else if exists w :: Writes(w, value, v) {
      var w :| Writes(w, value, v);
      WrittenIsRead(w, value, v);
      assert false;
    }
  }

  // ---------------------------------------------------------------- the binary protocol

  function LittleEndian(n: nat): (b: seq<Byte>)
    requires n < 0x1_0000_0000
    ensures |b| == 4
  {
    [n % 0x100, n / 0x100 % 0x100, n / 0x1_0000 % 0x100, n / 0x100_0000]
  }

  function FromLittleEndian(b: seq<Byte>): nat
    requires |b| == 4
  {
    b[0] as int + 0x100 * (b[1] as int) + 0x1_0000 * (b[2] as int) + 0x100_0000 * (b[3] as int)
  }

  lemma LittleEndianRoundTrip(n: nat)
    requires n < 0x1_0000_0000
    ensures FromLittleEndian(LittleEndian(n)) == n
  {
    var a := n / 0x100;
    var b := n / 0x1_0000;
    assert b == a / 0x100 && n / 0x100_0000 == b / 0x100;
  }

  function Payload(v: MysqlTimeValue): seq<Byte>
    requires Valid(v)
  {
    [if v.negative then 1 else 0] + LittleEndian(v.days) + [v.hours, v.minutes, v.seconds]
    + (if v.micros == 0 then [] else LittleEndian(v.micros))
  }

  // A length byte and the payload, as to_mysql_bin writes them for a TIME column.
  function ToBinary(v: MysqlTimeValue): seq<Byte>
    requires Valid(v)
  {
    if v.IsZero() then [0] else [if v.micros == 0 then 8 else 12] + Payload(v)
  }

  function DecodeParameter(bytes: seq<Byte>): Option<string> {
    if bytes == [] then Some("00:00:00")
    else if |bytes| != 8 && |bytes| != 12 then None
    else
      var hours := FromLittleEndian(bytes[1..5]) * 24 + bytes[5] as int;
      var base := Padded(hours, 2) + (":" + (Padded(bytes[6], 2) + (":" + (Padded(bytes[7], 2)
                  + (if |bytes| == 12 then "." + Padded(FromLittleEndian(bytes[8..12]), 6) else [])))));
      Some(if bytes[0] != 0 then "-" + base else base)
  }

  // What the binary form keeps: a fraction only when it is not zero, and no sign of zero.
  function Transmitted(v: MysqlTimeValue): MysqlTimeValue {
    v.(forceFraction := v.micros != 0, negative := v.negative && !v.IsZero())
  }

  lemma BinaryLength(v: MysqlTimeValue)
    requires Valid(v)
    ensures ToBinary(v)[0] == |ToBinary(v)| - 1
  {
  }

  lemma PayloadFields(v: MysqlTimeValue)
    requires Valid(v)
    ensures var p := Payload(v);
      && |p| == (if v.micros == 0 then 8 else 12) && p[0] == (if v.negative then 1 else 0)
      && FromLittleEndian(p[1..5]) == v.days && p[5] == v.hours && p[6] == v.minutes && p[7] == v.seconds
      && (v.micros != 0 ==> FromLittleEndian(p[8..12]) == v.micros)
  {
    var p := Payload(v);
    assert p[1..5] == LittleEndian(v.days);
    LittleEndianRoundTrip(v.days);
    if v.micros != 0 {
      assert p[8..12] == LittleEndian(v.micros);
      LittleEndianRoundTrip(v.micros);
    }
  }

  // Four bytes, the lowest first.
  predicate IsNumberAt(b: seq<Byte>, i: nat, n: nat) {
    && i + 4 <= |b|
    && n == b[i] as int + 256 * b[i + 1] as int + 65536 * b[i + 2] as int + 16777216 * b[i + 3] as int
  }

  // The binary form of the protocol: its length, the sign, the days, hours, minutes and seconds, and the
  // microseconds if there are any; zero is one byte.
  lemma BinaryLayout(v: MysqlTimeValue)
    requires Valid(v)
    ensures v.IsZero() ==> ToBinary(v) == [0]
    ensures !v.IsZero() ==> var b := ToBinary(v);
      && |b| == (if v.micros == 0 then 9 else 13) && b[0] == |b| - 1 && b[1] == (if v.negative then 1 else 0)
      && IsNumberAt(b, 2, v.days) && b[6] == v.hours && b[7] == v.minutes && b[8] == v.seconds
      && (v.micros != 0 ==> IsNumberAt(b, 9, v.micros))
  {
    var p := Payload(v);
    PayloadFields(v);
    NumberStands(p, 1, v.days);
    if v.micros != 0 { NumberStands(p, 8, v.micros); }
    assert !v.IsZero() ==> ToBinary(v)[1..] == p;
  }

  lemma NumberStands(p: seq<Byte>, i: nat, n: nat)
    requires i + 4 <= |p| && FromLittleEndian(p[i..i + 4]) == n
    ensures forall head: Byte :: IsNumberAt([head] + p, i + 1, n)
  {
  }

  lemma ZeroDisplay(v: MysqlTimeValue)
    requires v.IsZero() && !v.negative && !v.forceFraction
    ensures Display(v) == "00:00:00"
  {
    assert Decimal(0) == "0" && Zeros(1) == "0";
    assert Padded(0, 2) == "00" && Tail(v) == [];
    assert "00" + [] == "00";
    assert "00" + (":" + ("00" + (":" + "00"))) == "00:00:00";
  }

  lemma PayloadDecodes(v: MysqlTimeValue, p: seq<Byte>)
    requires Valid(v) && !v.IsZero() && p == Payload(v)
    ensures DecodeParameter(p) == Some(Display(Transmitted(v)))
  {
    PayloadFields(v);
  }

  // Decoding the payload gives the printed value, without a forced zero fraction and without the
  // sign of a negative zero.
  lemma BinaryDecodes(v: MysqlTimeValue)
    requires Valid(v)
    ensures DecodeParameter(ToBinary(v)[1..]) == Some(Display(Transmitted(v)))
  {
    if v.IsZero() {
      ZeroDisplay(Transmitted(v));
      assert [0][1..] == [];
    } else {
      var p := ToBinary(v)[1..];
      assert p == Payload(v);
      PayloadDecodes(v, p);
    }
  }

  // The whole way round: the value that was sent is received, exactly when it was not a negative
  // zero and had no forced zero fraction.
  lemma WireRoundTrip(v: MysqlTimeValue)
    requires Valid(v)
    ensures DecodeParameter(ToBinary(v)[1..]).Some?
    ensures ParseTime(DecodeParameter(ToBinary(v)[1..]).value) == Some(v)
       <==> !(v.negative && v.IsZero()) && !(v.forceFraction && v.micros == 0)
  {
    BinaryDecodes(v);
    DisplayParses(Transmitted(v));
  }

  lemma TwoDigits(n: nat)
    requires n < 10
    ensures Padded(n, 2) == ['0', DigitChar(n)]
  {
    assert Decimal(n) == [DigitChar(n)] && Zeros(1) == ['0'];
  }

  // A parsed value on the failing side: minus zero comes back without its sign.
  lemma MinusZeroIsLost()
    ensures var v := MysqlTimeValue(true, 0, 0, 0, 0, 0, false);
            && Display(v) == "-" + ("00" + (":" + ("00" + (":" + ("00" + "")))))
            && ParseTime(Display(v)) == Some(v)
            && DecodeParameter(ToBinary(v)[1..]).Some?
            && ParseTime(DecodeParameter(ToBinary(v)[1..]).value) != Some(v)
  {
    var v := MysqlTimeValue(true, 0, 0, 0, 0, 0, false);
    TwoDigits(0);
    DisplayParses(v);
    WireRoundTrip(v);
  }

  // Another: an hour written with a fraction of zeros comes back without it.
  lemma ZeroFractionIsLost()
    ensures var v := MysqlTimeValue(false, 0, 1, 0, 0, 0, true);
            && Display(v) == "01" + (":" + ("00" + (":" + ("00" + ("." + Zeros(6))))))
            && ParseTime(Display(v)) == Some(v)
            && DecodeParameter(ToBinary(v)[1..]).Some?
            && ParseTime(DecodeParameter(ToBinary(v)[1..]).value) != Some(v)
  {
    var v := MysqlTimeValue(false, 0, 1, 0, 0, 0, true);
    TwoDigits(0);
    TwoDigits(1);
    assert Decimal(0) == ['0'] && Zeros(5) + ['0'] == Zeros(6);
    DisplayParses(v);
    WireRoundTrip(v);
  }
}
