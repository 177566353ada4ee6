/** Timestamps as text: microseconds since 1970-01-01 00:00:00 UTC, parsed and printed. */
module Timestamp {
  import opened Base
  import opened Calendar

  const MICROS_PER_SECOND: int := 1_000_000
  const MICROS_PER_DAY: int := 86_400_000_000

  // ---------------------------------------------------------------- digits

  predicate Digit(c: char) { '0' <= c <= '9' }

  predicate AllDigits(s: string) { forall i :: 0 <= i < |s| ==> Digit(s[i]) }

  function DigitValue(c: char): nat
    requires Digit(c)
  {
    (c as int) - ('0' as int)
  }

  function DigitOf(n: nat): (c: char)
    requires n < 10
    ensures Digit(c) && DigitValue(c) == n
  {
    (('0' as int) + n) as char
  }

  function Number(s: string): nat
    requires AllDigits(s)
  {
    if s == [] then 0 else 10 * Number(Base.Init(s)) + DigitValue(Last(s))
  }

  function Pow10(n: nat): nat { if n == 0 then 1 else 10 * Pow10(n - 1) }

  /** The last `width` decimal digits of `n`. */
  function Digits(n: nat, width: nat): (s: string)
    ensures |s| == width && AllDigits(s)
  {
    if width == 0 then "" else Digits(n / 10, width - 1) + [DigitOf(n % 10)]
  }

  lemma {:induction false} DigitsNumber(n: nat, width: nat)
    requires n < Pow10(width)
    ensures Number(Digits(n, width)) == n
  {
    if width > 0 {
      DigitsNumber(n / 10, width - 1);
      var s := Digits(n, width);
      assert Base.Init(s) == Digits(n / 10, width - 1) && Last(s) == DigitOf(n % 10);
    }
  }

  /** Exactly `len` digits. */
  function FixedDigits(s: string, len: nat): Option<int> {
    if |s| == len && AllDigits(s) then Some(Number(s)) else None
  }

  // ---------------------------------------------------------------- splitting

  predicate Space(c: char) {
    || '\t' <= c <= '\r' || c == ' ' || c as int in {0x85, 0xA0, 0x1680, 0x2028, 0x2029, 0x202F, 0x205F, 0x3000}
    || 0x2000 <= c as int <= 0x200A
  }

  function TrimStart(s: string): string { if s != "" && Space(s[0]) then TrimStart(s[1..]) else s }

  function TrimEnd(s: string): string { if s != "" && Space(Last(s)) then TrimEnd(Base.Init(s)) else s }

  /** What is before and after the first character of `seps`. */
  function SplitOnce(s: string, seps: string): Option<(string, string)> {
    if s == "" then None
    else if s[0] in seps then Some(("", s[1..]))
    else match SplitOnce(s[1..], seps)
      case None => None
      case Some((a, b)) => Some(([s[0]] + a, b))
  }

  function Split(s: string, sep: char): (parts: seq<string>)
    ensures parts != []
    decreases |s|
  {
    match SplitOnce(s, [sep])
    case None => [s]
    case Some((a, b)) => SplitShrinks(s, [sep]); [a] + Split(b, sep)
  }

  lemma {:induction false} SplitShrinks(s: string, seps: string)
    ensures SplitOnce(s, seps).Some? ==> |SplitOnce(s, seps).value.1| < |s|
  {
    if s != "" && s[0] !in seps { SplitShrinks(s[1..], seps); }
  }

  lemma {:induction false} SplitAt(a: string, c: char, b: string, seps: string)
    requires c in seps && forall i :: 0 <= i < |a| ==> a[i] !in seps
    ensures SplitOnce(a + [c] + b, seps) == Some((a, b))
  {
    var s := a + [c] + b;
    if a == "" {
      assert s == [c] + b && s[1..] == b;
    } else {
      assert s[0] == a[0] && s[1..] == a[1..] + [c] + b;
      SplitAt(a[1..], c, b, seps);
      assert [a[0]] + a[1..] == a;
    }
  }

  lemma {:induction false} NoSplit(s: string, seps: string)
    requires forall i :: 0 <= i < |s| ==> s[i] !in seps
    ensures SplitOnce(s, seps) == None
  {
    if s != "" { NoSplit(s[1..], seps); }
  }

  /** Digits contain no separator and no space. */
  lemma DigitsPlain(s: string, seps: string)
    requires AllDigits(s) && forall i :: 0 <= i < |seps| ==> !Digit(seps[i])
    ensures forall i :: 0 <= i < |s| ==> s[i] !in seps
  {}

  lemma ThreeParts(a: string, b: string, c: string, sep: char)
    requires AllDigits(a) && AllDigits(b) && AllDigits(c) && !Digit(sep)
    ensures Split(a + [sep] + (b + [sep] + c), sep) == [a, b, c]
  {
    DigitsPlain(a, [sep]);
    DigitsPlain(b, [sep]);
    DigitsPlain(c, [sep]);
    SplitAt(a, sep, b + [sep] + c, [sep]);
    SplitAt(b, sep, c, [sep]);
    NoSplit(c, [sep]);
    assert Split(c, sep) == [c];
    assert Split(b + [sep] + c, sep) == [b] + Split(c, sep) == [b, c];
  }

  // ---------------------------------------------------------------- parsing

  predicate FitsI64(n: int) { -0x8000_0000_0000_0000 <= n < 0x8000_0000_0000_0000 }

  function Checked(n: int): Option<int> { if FitsI64(n) then Some(n) else None }

  function ParseDate(s: string): Option<int> {
    var parts := Split(s, '-');
    if |parts| < 3 then None
    else
      var year, month, day := FixedDigits(parts[0], 4), FixedDigits(parts[1], 2), FixedDigits(parts[2], 2);
      if year.None? || month.None? || day.None? || |parts| > 3 || !(1 <= month.value <= 12) then None
      else if day.value < 1 || day.value > DaysInMonth(year.value, month.value) then None
      else Some(DaysFromCivil(Date(year.value, month.value, day.value)))
  }

  function PadRight(s: string, width: nat): string
    decreases width - |s|
  {
    if |s| < width then PadRight(s + "0", width) else s
  }

  lemma {:induction false} PadRightDigits(s: string, width: nat)
    requires AllDigits(s)
    ensures AllDigits(PadRight(s, width))
    decreases width - |s|
  {
    if |s| < width { PadRightDigits(s + "0", width); }
  }

  /** The digits of a fraction of a second as microseconds. */
  function ParseFraction(s: string): Option<int> {
    if s == "" || |s| > 6 || !AllDigits(s) then None else PadRightDigits(s, 6); Some(Number(PadRight(s, 6)))
  }

  function ParseTime(s: string): Option<int> {
    var split := SplitOnce(s, ".");
    var hms, micros := if split.Some? then split.value.0 else s, if split.Some? then ParseFraction(split.value.1)
        else Some(0);
    var parts := Split(hms, ':');
    if |parts| < 3 then None
    else
      var hour, minute, second := FixedDigits(parts[0], 2), FixedDigits(parts[1], 2), FixedDigits(parts[2], 2);
      if hour.None? || minute.None? || second.None? || |parts| > 3 || hour.value > 23
         || minute.value > 59 || second.value > 59 || micros.None?
      then None
      else Some(((hour.value * 60 + minute.value) * 60 + second.value) * MICROS_PER_SECOND + micros.value)
  }

  function Parse(literal: string): Option<int> { ParseParts(TrimEnd(TrimStart(literal))) }

  function ParseParts(s: string): Option<int> {
    var split := SplitOnce(s, " T");
    if split.None? then Combined(ParseDate(s), Some(0))
    else Combined(ParseDate(split.value.0), ParseTime(TrimStart(split.value.1)))
  }

  /** Days and microseconds of a day as one count, unless 64 bits are too few. */
  function Combined(days: Option<int>, micros: Option<int>): Option<int> {
    if days.None? || micros.None? || Checked(days.value * MICROS_PER_DAY).None? then None
    else Checked(days.value * MICROS_PER_DAY + micros.value)
  }

  // ---------------------------------------------------------------- printing

  /** A number with at least `width` characters, zeros in front and a sign before them. */
  function Padded(n: int, width: nat): string {
    if n < 0 then "-" + Positive(-n, if width > 0 then width - 1 else 0) else Positive(n, width)
  }

  function Positive(n: nat, width: nat): string { Digits(n, if Length(n) < width then width else Length(n)) }

  /** How many decimal digits a number has. */
  function Length(n: nat): nat { if n < 10 then 1 else 1 + Length(n / 10) }

  function TrimZeros(s: string): string { if s != "" && Last(s) == '0' then TrimZeros(Base.Init(s)) else s }

  function Format(micros: int): string {
    var days, rest := micros / MICROS_PER_DAY, micros % MICROS_PER_DAY;
    var d := CivilFromDays(days);
    var seconds, fraction := rest / MICROS_PER_SECOND, rest % MICROS_PER_SECOND;
    var out := Padded(d.year, 4) + "-" + (Padded(d.month, 2) + "-" + Padded(d.day, 2)) + " "
               + (Padded(seconds / 3600, 2) + ":" + (Padded(seconds / 60 % 60, 2) + ":" + Padded(seconds % 60, 2)));
    if fraction != 0 then out + "." + TrimZeros(Padded(fraction, 6)) else out
  }

  // ---------------------------------------------------------------- parsing what was printed

  lemma {:induction false} LengthFits(n: nat, width: nat)
    requires width > 0 && n < Pow10(width)
    ensures Length(n) <= width
  {
    if n >= 10 {
      assert Pow10(1) == 10;
      LengthFits(n / 10, width - 1);
    }
  }

  lemma PaddedDigits(n: nat, width: nat)
    requires width > 0 && n < Pow10(width)
    ensures Padded(n, width) == Digits(n, width) && FixedDigits(Padded(n, width), width) == Some(n)
            && AllDigits(Padded(n, width))
  {
    LengthFits(n, width);
    DigitsNumber(n, width);
  }

  lemma Powers()
    ensures Pow10(2) == 100 && Pow10(4) == 10_000 && Pow10(6) == 1_000_000
  {
    assert Pow10(1) == 10 && Pow10(3) == 1000 && Pow10(5) == 100_000;
  }

  function DateText(d: Date): string { Padded(d.year, 4) + "-" + (Padded(d.month, 2) + "-" + Padded(d.day, 2)) }

  function TimeText(seconds: int): string
    requires seconds >= 0
  {
    Padded(seconds / 3600, 2) + ":" + (Padded(seconds / 60 % 60, 2) + ":" + Padded(seconds % 60, 2))
  }

  lemma DateParses(d: Date)
    requires ValidDate(d) && 0 <= d.year <= 9999
    ensures ParseDate(DateText(d)) == Some(DaysFromCivil(d))
    ensures forall i :: 0 <= i < |DateText(d)| ==> DateText(d)[i] !in " T"
    ensures DateText(d) != "" && Digit(DateText(d)[0])
  {
    Powers();
    PaddedDigits(d.year, 4);
    PaddedDigits(d.month, 2);
    PaddedDigits(d.day, 2);
    ThreeParts(Padded(d.year, 4), Padded(d.month, 2), Padded(d.day, 2), '-');
  }

  lemma TimeParts(seconds: int)
    requires 0 <= seconds < 86400
    ensures Split(TimeText(seconds), ':') == [Padded(seconds / 3600, 2), Padded(seconds / 60 % 60, 2),
            Padded(seconds % 60, 2)]
    ensures FixedDigits(Padded(seconds / 3600, 2), 2) == Some(seconds / 3600)
            && FixedDigits(Padded(seconds / 60 % 60, 2), 2) == Some(seconds / 60 % 60)
    ensures FixedDigits(Padded(seconds % 60, 2), 2) == Some(seconds % 60)
    ensures |TimeText(seconds)| > 0 && Digit(TimeText(seconds)[0]) && Digit(Last(TimeText(seconds)))
    ensures forall i :: 0 <= i < |TimeText(seconds)| ==> TimeText(seconds)[i] !in "."
  {
    Powers();
    PaddedDigits(seconds / 3600, 2);
    PaddedDigits(seconds / 60 % 60, 2);
    PaddedDigits(seconds % 60, 2);
    ThreeParts(Padded(seconds / 3600, 2), Padded(seconds / 60 % 60, 2), Padded(seconds % 60, 2), ':');
  }

  lemma HourMinuteSecond(seconds: int)
    requires 0 <= seconds < 86400
    ensures (seconds / 3600 * 60 + seconds / 60 % 60) * 60 + seconds % 60 == seconds && seconds / 3600 <= 23
  {}

  lemma TimeParses(seconds: int)
    requires 0 <= seconds < 86400
    ensures ParseTime(TimeText(seconds)) == Some(seconds * MICROS_PER_SECOND)
  {
    TimeParts(seconds);
    NoSplit(TimeText(seconds), ".");
    HourMinuteSecond(seconds);
  }

  lemma FractionTimeParses(seconds: int, fraction: string)
    requires 0 <= seconds < 86400 && ParseFraction(fraction).Some?
    ensures ParseTime(TimeText(seconds) + "." + fraction) ==
            Some(seconds * MICROS_PER_SECOND + ParseFraction(fraction).value)
  {
    TimeParts(seconds);
    SplitAt(TimeText(seconds), '.', fraction, ".");
    HourMinuteSecond(seconds);
  }

  lemma {:induction false} ZerosBack(s: string, width: nat)
    requires |s| <= width
    ensures |TrimZeros(s)| <= |s| && PadRight(TrimZeros(s), width) == PadRight(s, width)
    decreases |s|
  {
    if s != "" && Last(s) == '0' {
      ZerosBack(Base.Init(s), width);
      assert Base.Init(s) + "0" == s;
    }
  }

  lemma {:induction false} TrimmedDigits(s: string)
    requires AllDigits(s)
    ensures AllDigits(TrimZeros(s)) && (TrimZeros(s) == "" ==> Number(s) == 0)
    decreases |s|
  {
    if s != "" && Last(s) == '0' { TrimmedDigits(Base.Init(s)); }
  }

  /** A fraction printed without its trailing zeros reads as the same microseconds. */
  lemma FractionParses(fraction: int)
    requires 0 < fraction < MICROS_PER_SECOND
    ensures var s := TrimZeros(Padded(fraction, 6)); s != "" && ParseFraction(s) == Some(fraction) && Digit(Last(s))
  {
    Powers();
    PaddedDigits(fraction, 6);
    var p := Padded(fraction, 6);
    TrimmedDigits(p);
    ZerosBack(p, 6);
    assert PadRight(p, 6) == p;
  }

  lemma TrimPlain(s: string)
    requires s != "" && !Space(s[0]) && !Space(Last(s))
    ensures TrimEnd(TrimStart(s)) == s && TrimStart(s) == s
  {}

  /** What the parser takes a printed date and time apart into. */
  lemma PartsAre(date: string, time: string)
    requires date != "" && !Space(date[0]) && time != "" && Digit(time[0]) && Digit(Last(time))
    requires forall i :: 0 <= i < |date| ==> date[i] !in " T"
    ensures Parse(date + " " + time) == Combined(ParseDate(date), ParseTime(time))
  {
    var s := date + " " + time;
    assert s[0] == date[0] && Last(s) == Last(time);
    TrimPlain(s);
    TrimPlain(time);
    SplitAt(date, ' ', time, " T");
  }

  lemma PartsParse(date: string, time: string, days: int, micros: int)
    requires date != "" && !Space(date[0]) && time != "" && Digit(time[0]) && Digit(Last(time))
    requires (forall i :: 0 <= i < |date| ==> date[i] !in " T") && ParseDate(date) == Some(days)
             && ParseTime(time) == Some(micros)
    requires FitsI64(days * MICROS_PER_DAY) && FitsI64(days * MICROS_PER_DAY + micros)
    ensures Parse(date + " " + time) == Some(days * MICROS_PER_DAY + micros)
  {
    PartsAre(date, time);
  }

  lemma NoDateNoParse(date: string, time: string)
    requires date != "" && !Space(date[0]) && time != "" && Digit(time[0]) && Digit(Last(time))
    requires (forall i :: 0 <= i < |date| ==> date[i] !in " T") && ParseDate(date) == None
    ensures Parse(date + " " + time) == None
  {
    PartsAre(date, time);
  }

  // ---------------------------------------------------------------- years of other lengths

  lemma {:induction false} LengthAtLeast(n: nat, width: nat)
    requires n >= Pow10(width)
    ensures Length(n) > width
  {
    if width > 0 { LengthAtLeast(n / 10, width - 1); }
  }

  /** A year outside 0000 to 9999 is not printed as four digits. */
  lemma YearNotFour(year: int)
    requires !(0 <= year <= 9999)
    ensures year < 0 ==> Padded(year, 4)[0] == '-'
    ensures year > 9999 ==> AllDigits(Padded(year, 4)) && |Padded(year, 4)| > 4
  {
    if year > 9999 {
      Powers();
      LengthAtLeast(year, 4);
    }
  }

  lemma FirstPart(a: string, rest: string)
    requires AllDigits(a)
    ensures Split(a + "-" + rest, '-')[0] == a
  {
    DigitsPlain(a, "-");
    SplitAt(a, '-', rest, "-");
  }

  lemma {:induction false} PositiveIsPlain(n: nat, width: nat)
    ensures AllDigits(Positive(n, width)) && Positive(n, width) != ""
  {}

  /** So the date of such a year is not read back, though it has no space that would cut it short. */
  lemma YearRefused(d: Date)
    requires !(0 <= d.year <= 9999) && ValidDate(d)
    ensures ParseDate(DateText(d)) == None && DateText(d) != "" && !Space(DateText(d)[0])
  {
    var year, rest := Padded(d.year, 4), Padded(d.month, 2) + "-" + Padded(d.day, 2);
    YearNotFour(d.year);
    PositiveIsPlain(if d.year < 0 then -d.year else d.year, if d.year < 0 then 3 else 4);
    if d.year < 0 {
      assert year + "-" + rest == "" + "-" + (year[1..] + "-" + rest);
      FirstPart("", year[1..] + "-" + rest);
    } else {
      FirstPart(year, rest);
    }
  }

  lemma DateTextPlain(d: Date)
    requires ValidDate(d)
    ensures forall i :: 0 <= i < |DateText(d)| ==> DateText(d)[i] !in " T"
  {
    PositiveIsPlain(if d.year < 0 then -d.year else d.year, if d.year < 0 then 3 else 4);
    PositiveIsPlain(d.month, 2);
    PositiveIsPlain(d.day, 2);
  }

  /** The year of a timestamp. */
  function YearOf(micros: int): int { CivilFromDays(micros / MICROS_PER_DAY).year }

  lemma DaysInRange(days: int)
    requires 0 <= CivilFromDays(days).year <= 9999
    ensures -719_528 <= days <= 2_932_896
  {
    var d := CivilFromDays(days);
    DaysRoundTrip(days);
    FirstAndLast();
    NotOutside(d);
    DateOrder(d, Date(0, 1, 1));
    DateOrder(Date(9999, 12, 31), d);
  }

  lemma FirstAndLast()
    ensures DaysFromCivil(Date(0, 1, 1)) == -719_528 && DaysFromCivil(Date(9999, 12, 31)) == 2_932_896
  {
    DaysOf(-1, 399, 10, 1);
    DaysOf(24, 399, 9, 31);
    assert DateAt(-1, 399, 10, 1) == Date(0, 1, 1) && DateAt(24, 399, 9, 31) == Date(9999, 12, 31);
  }

  lemma NotOutside(d: Date)
    requires ValidDate(d) && 0 <= d.year <= 9999
    ensures !DateLess(d, Date(0, 1, 1)) && !DateLess(Date(9999, 12, 31), d) && ValidDate(Date(0, 1, 1))
            && ValidDate(Date(9999, 12, 31))
  {}

  /** The time of day, with its fraction unless that is zero. */
  function Clock(rest: int): string
    requires rest >= 0
  {
    var fraction := rest % MICROS_PER_SECOND;
    if fraction != 0 then TimeText(rest / MICROS_PER_SECOND) + "." + TrimZeros(Padded(fraction, 6))
        else TimeText(rest / MICROS_PER_SECOND)
  }

  lemma EndsKept(a: string, b: string)
    requires a != "" && b != ""
    ensures (a + "." + b)[0] == a[0] && Last(a + "." + b) == Last(b)
  {}

  lemma ClockParses(rest: int)
    requires 0 <= rest < MICROS_PER_DAY
    ensures ParseTime(Clock(rest)) == Some(rest) && Clock(rest) != "" && Digit(Clock(rest)[0])
            && Digit(Last(Clock(rest)))
  {
    var seconds, fraction := rest / MICROS_PER_SECOND, rest % MICROS_PER_SECOND;
    TimeParts(seconds);
    if fraction == 0 {
      TimeParses(seconds);
    } else {
      FractionParses(fraction);
      FractionTimeParses(seconds, TrimZeros(Padded(fraction, 6)));
      EndsKept(TimeText(seconds), TrimZeros(Padded(fraction, 6)));
    }
  }

  lemma FormatIs(micros: int)
    ensures Format(micros) == DateText(CivilFromDays(micros / MICROS_PER_DAY)) + " " + Clock(micros % MICROS_PER_DAY)
  {
    var date, time := DateText(CivilFromDays(micros / MICROS_PER_DAY)),
        TimeText(micros % MICROS_PER_DAY / MICROS_PER_SECOND);
    var f := TrimZeros(Padded(micros % MICROS_PER_DAY % MICROS_PER_SECOND, 6));
    assert (date + " " + time) + "." + f == date + " " + (time + "." + f);
  }

  lemma YearRefusesAll(micros: int)
    requires !(0 <= YearOf(micros) <= 9999)
    ensures Parse(Format(micros)) == None
  {
    var days, rest := micros / MICROS_PER_DAY, micros % MICROS_PER_DAY;
    DaysRoundTrip(days);
    YearRefused(CivilFromDays(days));
    DateTextPlain(CivilFromDays(days));
    ClockParses(rest);
    FormatIs(micros);
    NoDateNoParse(DateText(CivilFromDays(days)), Clock(rest));
  }

  lemma YearParses(micros: int)
    requires 0 <= YearOf(micros) <= 9999
    ensures Parse(Format(micros)) == Some(micros)
  {
    var days, rest := micros / MICROS_PER_DAY, micros % MICROS_PER_DAY;
    DaysRoundTrip(days);
    DaysInRange(days);
    DateParses(CivilFromDays(days));
    ClockParses(rest);
    FormatIs(micros);
    PartsParse(DateText(CivilFromDays(days)), Clock(rest), days, rest);
  }

  /** Parsing undoes printing, to the microsecond, exactly in years 0000 to 9999; what is printed for
      any other year is refused. */
  lemma ParseUndoesFormat(micros: int)
    ensures Parse(Format(micros)) == if 0 <= YearOf(micros) <= 9999 then Some(micros) else None
  {
    if 0 <= YearOf(micros) <= 9999 { YearParses(micros); } else { YearRefusesAll(micros); }
  }
}
