/** Which texts are timestamps, and what each of them means: the parser against the shape of a literal,
    stated by positions. */
module TimestampText {
  import opened Base
  import opened Calendar
  import opened Timestamp

  // ---------------------------------------------------------------- what splitting and trimming do

  lemma {:induction false} SplitOnceIs(s: string, seps: string)
    ensures SplitOnce(s, seps).None? ==> forall i :: 0 <= i < |s| ==> s[i] !in seps
    ensures SplitOnce(s, seps).Some? ==>
            var (a, b) := SplitOnce(s, seps).value;
            && |a| < |s| && s[|a|] in seps && a == s[..|a|] && b == s[|a| + 1..]
            && forall i :: 0 <= i < |a| ==> s[i] !in seps
  {
    if s != "" && s[0] !in seps {
      SplitOnceIs(s[1..], seps);
      assert forall i :: 0 < i < |s| ==> s[i] == s[1..][i - 1];
    }
  }

  lemma SplitIsThree(s: string, sep: char)
    requires |Split(s, sep)| == 3
    ensures var p := Split(s, sep); s == p[0] + [sep] + (p[1] + [sep] + p[2])
  {
    var p := Split(s, sep);
    SplitOnceIs(s, [sep]);
    var b := SplitOnce(s, [sep]).value.1;
    assert Split(b, sep) == p[1..];
    SplitOnceIs(b, [sep]);
    var c := SplitOnce(b, [sep]).value.1;
    assert Split(c, sep) == p[2..];
    assert SplitOnce(c, [sep]).None?;
  }

  /** The literal without the spaces around it. */
  lemma {:induction false} TrimmedStart(s: string) returns (a: string)
    ensures s == a + TrimStart(s) && (forall i :: 0 <= i < |a| ==> Space(a[i]))
    ensures TrimStart(s) != "" ==> !Space(TrimStart(s)[0])
  {
    a := "";
    if s != "" && Space(s[0]) {
      a := TrimmedStart(s[1..]);
      a := [s[0]] + a;
    }
  }

  lemma {:induction false} TrimmedEnd(s: string) returns (b: string)
    ensures s == TrimEnd(s) + b && (forall i :: 0 <= i < |b| ==> Space(b[i]))
    ensures TrimEnd(s) != "" ==> !Space(Last(TrimEnd(s)))
  {
    b := "";
    if s != "" && Space(Last(s)) {
      b := TrimmedEnd(Base.Init(s));
      assert s == Base.Init(s) + [Last(s)];
      b := b + [Last(s)];
    }
  }

  // ---------------------------------------------------------------- dates

  /** `YYYY-MM-DD`, all digits. */
  predicate DateShape(s: string) {
    |s| == 10 && s[4] == '-' && s[7] == '-' && AllDigits(s[..4]) && AllDigits(s[5..7]) && AllDigits(s[8..])
  }

  function DateIn(s: string): Date
    requires DateShape(s)
  {
    Date(Number(s[..4]), Number(s[5..7]), Number(s[8..]))
  }

  /** A day of the calendar. */
  predicate IsDate(s: string) { DateShape(s) && ValidDate(DateIn(s)) }

  lemma DateSplits(s: string)
    requires DateShape(s)
    ensures Split(s, '-') == [s[..4], s[5..7], s[8..]]
  {
    assert s == s[..4] + ['-'] + (s[5..7] + ['-'] + s[8..]);
    ThreeParts(s[..4], s[5..7], s[8..], '-');
  }

  lemma DateShaped(s: string)
    requires ParseDate(s).Some?
    ensures DateShape(s)
  {
    SplitIsThree(s, '-');
    var p := Split(s, '-');
    assert s[..4] == p[0] && s[5..7] == p[1] && s[8..] == p[2];
  }

  /** Every text of that shape that names a day is a date, and no other text is: 2023-02-29 is not. */
  lemma DateExact(s: string)
    ensures ParseDate(s) == if IsDate(s) then Some(DaysFromCivil(DateIn(s))) else None
  {
    if ParseDate(s).Some? { DateShaped(s); }
    if DateShape(s) { DateSplits(s); }
  }

  // ---------------------------------------------------------------- times of day

  /** `HH:MM:SS`, all digits, and then nothing or a point and one to six digits. */
  predicate TimeShape(s: string) {
    && |s| >= 8 && s[2] == ':' && s[5] == ':' && AllDigits(s[..2]) && AllDigits(s[3..5]) && AllDigits(s[6..8])
    && (|s| == 8 || (s[8] == '.' && 10 <= |s| <= 15 && AllDigits(s[9..])))
  }

  predicate IsTime(s: string) {
    TimeShape(s) && Number(s[..2]) <= 23 && Number(s[3..5]) <= 59 && Number(s[6..8]) <= 59
  }

  /** The microseconds a fraction of a second stands for. */
  function FractionIn(s: string): nat
    requires TimeShape(s)
  {
    if |s| == 8 then 0 else Number(s[9..]) * Pow10(15 - |s|)
  }

  function TimeIn(s: string): nat
    requires TimeShape(s)
  {
    ((Number(s[..2]) * 60 + Number(s[3..5])) * 60 + Number(s[6..8])) * MICROS_PER_SECOND + FractionIn(s)
  }

  lemma TenTimes(n: nat, p: nat)
    ensures (10 * n) * p == n * (10 * p)
  {}

  lemma {:induction false} PaddedNumber(s: string, width: nat)
    requires AllDigits(s) && |s| <= width
    ensures AllDigits(PadRight(s, width)) && Number(PadRight(s, width)) == Number(s) * Pow10(width - |s|)
    decreases width - |s|
  {
    if |s| < width {
      var t := s + "0";
      assert Base.Init(t) == s && Last(t) == '0' && Number(t) == 10 * Number(s);
      PaddedNumber(t, width);
      TenTimes(Number(s), Pow10(width - |t|));
    }
  }

  lemma ClockSplits(s: string)
    requires TimeShape(s)
    ensures Split(s[..8], ':') == [s[..2], s[3..5], s[6..8]] && forall i :: 0 <= i < 8 ==> s[i] != '.'
  {
    var t := s[..8];
    assert t == s[..2] + [':'] + (s[3..5] + [':'] + s[6..8]);
    ThreeParts(s[..2], s[3..5], s[6..8], ':');
    assert s[0] == s[..2][0] && s[1] == s[..2][1] && s[3] == s[3..5][0] && s[4] == s[3..5][1];
    assert s[6] == s[6..8][0] && s[7] == s[6..8][1];
  }

  lemma PointSplits(s: string)
    requires TimeShape(s)
    ensures SplitOnce(s, ".") == if |s| == 8 then None else Some((s[..8], s[9..]))
  {
    ClockSplits(s);
    if |s| == 8 {
      NoSplit(s, ".");
    } else {
      assert s == s[..8] + ['.'] + s[9..];
      SplitAt(s[..8], '.', s[9..], ".");
    }
  }

  lemma SliceOfSlice(s: string, n: nat, a: nat, b: nat)
    requires a <= b <= n <= |s|
    ensures s[..n][a..b] == s[a..b]
  {}

  lemma TimeShaped(s: string)
    requires ParseTime(s).Some?
    ensures TimeShape(s)
  {
    var split := SplitOnce(s, ".");
    SplitOnceIs(s, ".");
    var hms := if split.Some? then split.value.0 else s;
    SplitIsThree(hms, ':');
    var p := Split(hms, ':');
    assert |hms| == 8 && hms == s[..8];
    assert hms[..2] == p[0] && hms[3..5] == p[1] && hms[6..8] == p[2] && hms[2] == ':' && hms[5] == ':';
    SliceOfSlice(s, 8, 0, 2);
    SliceOfSlice(s, 8, 3, 5);
    SliceOfSlice(s, 8, 6, 8);
  }

  lemma ShapedTime(s: string)
    requires TimeShape(s)
    ensures ParseTime(s) == if IsTime(s) then Some(TimeIn(s)) else None
  {
    ClockSplits(s);
    PointSplits(s);
    assert |s| == 8 ==> s[..8] == s;
    if |s| > 8 { PaddedNumber(s[9..], 6); }
  }

  lemma TimeExact(s: string)
    ensures ParseTime(s) == if IsTime(s) then Some(TimeIn(s)) else None
  {
    if ParseTime(s).Some? { TimeShaped(s); }
    if TimeShape(s) { ShapedTime(s); }
  }

  // ---------------------------------------------------------------- timestamps

  /** A date alone, or a date, a space or `T`, any more spaces, and a time of day. */
  predicate IsTimestamp(s: string) {
    IsDate(s) || (|s| > 10 && IsDate(s[..10]) && s[10] in " T" && IsTime(TrimStart(s[11..])))
  }

  function TimestampIn(s: string): int
    requires IsTimestamp(s)
  {
    if |s| == 10 then DaysFromCivil(DateIn(s)) * MICROS_PER_DAY
    else DaysFromCivil(DateIn(s[..10])) * MICROS_PER_DAY + TimeIn(TrimStart(s[11..]))
  }

  lemma DatePlain(s: string)
    requires DateShape(s)
    ensures forall i :: 0 <= i < 10 ==> s[i] !in " T"
  {
    assert forall i :: 0 <= i < 4 ==> s[i] == s[..4][i];
    assert forall i :: 5 <= i < 7 ==> s[i] == s[5..7][i - 5];
    assert forall i :: 8 <= i < 10 ==> s[i] == s[8..][i - 8];
  }

  lemma {:induction false} NumberBelow(s: string)
    requires AllDigits(s)
    ensures Number(s) < Pow10(|s|)
  {
    if s != "" { NumberBelow(Base.Init(s)); }
  }

  /** Four digits of a year and six of a fraction keep the count far inside 64 bits. */
  lemma DateFits(s: string)
    requires IsDate(s)
    ensures -719_528 <= DaysFromCivil(DateIn(s)) <= 2_932_896
  {
    var d := DateIn(s);
    NumberBelow(s[..4]);
    Powers();
    FirstAndLast();
    NotOutside(d);
    DateOrder(d, Date(0, 1, 1));
    DateOrder(Date(9999, 12, 31), d);
  }

  lemma TimeFits(s: string)
    requires IsTime(s)
    ensures 0 <= TimeIn(s) < MICROS_PER_DAY
  {
    if |s| > 8 { FractionFits(s[9..]); }
  }

  lemma {:induction false} FractionFits(s: string)
    requires AllDigits(s) && |s| <= 6
    ensures Number(s) * Pow10(6 - |s|) < MICROS_PER_SECOND
  {
    PaddedNumber(s, 6);
    PaddedLength(s, 6);
    NumberBelow(PadRight(s, 6));
    Powers();
  }

  lemma {:induction false} PaddedLength(s: string, width: nat)
    requires |s| <= width
    ensures |PadRight(s, width)| == width
    decreases width - |s|
  {
    if |s| < width { PaddedLength(s + "0", width); }
  }

  /** The date is what comes before the first space or `T`. */
  lemma WhereDateEnds(s: string)
    ensures IsTimestamp(s) && |s| > 10 ==> SplitOnce(s, " T") == Some((s[..10], s[11..]))
    ensures IsTimestamp(s) && |s| == 10 ==> SplitOnce(s, " T") == None
    ensures IsTimestamp(s) ==> |s| >= 10
  {
    if IsTimestamp(s) && |s| > 10 {
      DatePlain(s[..10]);
      assert s == s[..10] + [s[10]] + s[11..];
      SplitAt(s[..10], s[10], s[11..], " T");
    }
    if IsTimestamp(s) && |s| == 10 {
      DatePlain(s);
      NoSplit(s, " T");
    }
  }

  lemma PartsExact(s: string)
    ensures ParseParts(s) == if IsTimestamp(s) then Some(TimestampIn(s)) else None
  {
    var split := SplitOnce(s, " T");
    SplitOnceIs(s, " T");
    WhereDateEnds(s);
    if split.None? {
      DateExact(s);
      if IsDate(s) { DateFits(s); }
    } else {
      var (a, b) := split.value;
      DateExact(a);
      TimeExact(TrimStart(b));
      if IsDate(a) { DateFits(a); }
      if IsTime(TrimStart(b)) { TimeFits(TrimStart(b)); }
    }
  }

  /** A text is read as a timestamp exactly when it is one, spaces around it apart, and as the microseconds it
      says. */
  lemma ParseExact(literal: string) returns (before: string, after: string)
    ensures var s := TrimEnd(TrimStart(literal));
            && literal == before + s + after && (s != "" ==> !Space(s[0]) && !Space(Last(s)))
            && (forall i :: 0 <= i < |before| ==> Space(before[i]))
            && (forall i :: 0 <= i < |after| ==> Space(after[i]))
            && Parse(literal) == if IsTimestamp(s) then Some(TimestampIn(s)) else None
  {
    before := TrimmedStart(literal);
    after := TrimmedEnd(TrimStart(literal));
    PartsExact(TrimEnd(TrimStart(literal)));
  }

  // ---------------------------------------------------------------- the text that is printed

  /** A date, one space, a time of day, and a fraction only where it ends in something other than a zero. */
  predicate Canonical(s: string) {
    && |s| >= 19 && IsDate(s[..10]) && s[10] == ' ' && IsTime(s[11..]) && (|s| == 19 || Last(s) != '0')
  }

  lemma TimeStarts(s: string)
    requires TimeShape(s)
    ensures Digit(s[0]) && Digit(Last(s)) && TrimStart(s) == s
  {
    assert s[0] == s[..2][0];
    assert |s| == 8 ==> Last(s) == s[6..8][1];
    assert |s| > 8 ==> Last(s) == Last(s[9..]);
  }

  lemma CanonicalIs(s: string)
    requires Canonical(s)
    ensures IsTimestamp(s) && TimestampIn(s) == DaysFromCivil(DateIn(s[..10])) * MICROS_PER_DAY + TimeIn(s[11..])
  {
    TimeStarts(s[11..]);
  }

  lemma {:induction false} TrimmedZeros(s: string)
    ensures |TrimZeros(s)| <= |s| && (TrimZeros(s) != "" ==> Last(TrimZeros(s)) != '0')
  {
    if s != "" && Last(s) == '0' { TrimmedZeros(Base.Init(s)); }
  }

  lemma DateTextIs(d: Date)
    requires ValidDate(d) && 0 <= d.year <= 9999
    ensures DateShape(DateText(d)) && DateIn(DateText(d)) == d
  {
    Powers();
    PaddedDigits(d.year, 4);
    PaddedDigits(d.month, 2);
    PaddedDigits(d.day, 2);
    var s := DateText(d);
    assert s[..4] == Padded(d.year, 4);
    assert s[5..7] == Padded(d.month, 2);
    assert s[8..] == Padded(d.day, 2);
  }

  lemma TimeTextLength(seconds: int)
    requires 0 <= seconds < 86400
    ensures |TimeText(seconds)| == 8
  {
    Powers();
    PaddedDigits(seconds / 3600, 2);
    PaddedDigits(seconds / 60 % 60, 2);
    PaddedDigits(seconds % 60, 2);
  }

  lemma ClockIs(rest: int)
    requires 0 <= rest < MICROS_PER_DAY
    ensures IsTime(Clock(rest)) && TimeIn(Clock(rest)) == rest && (|Clock(rest)| == 8 || Last(Clock(rest)) != '0')
  {
    ClockParses(rest);
    TimeExact(Clock(rest));
    var fraction := rest % MICROS_PER_SECOND;
    TimeTextLength(rest / MICROS_PER_SECOND);
    if fraction != 0 {
      FractionParses(fraction);
      TrimmedZeros(Padded(fraction, 6));
      EndsKept(TimeText(rest / MICROS_PER_SECOND), TrimZeros(Padded(fraction, 6)));
    }
  }

  /** Every timestamp of the years 0000 to 9999 is printed as the canonical text of it. */
  lemma FormatCanonical(micros: int)
    requires 0 <= YearOf(micros) <= 9999
    ensures Canonical(Format(micros)) && IsTimestamp(Format(micros)) && TimestampIn(Format(micros)) == micros
  {
    var days, rest := micros / MICROS_PER_DAY, micros % MICROS_PER_DAY;
    var date, time := DateText(CivilFromDays(days)), Clock(rest);
    DaysRoundTrip(days);
    DateTextIs(CivilFromDays(days));
    ClockIs(rest);
    FormatIs(micros);
    var s := Format(micros);
    assert s[..10] == date && s[11..] == time && s[10] == ' ' && Last(s) == Last(time);
    CanonicalIs(s);
  }

  lemma {:induction false} DigitsBack(s: string)
    requires AllDigits(s)
    ensures Digits(Number(s), |s|) == s
  {
    if s != "" {
      DigitsBack(Base.Init(s));
      assert Number(s) / 10 == Number(Base.Init(s)) && Number(s) % 10 == DigitValue(Last(s));
      assert s == Base.Init(s) + [Last(s)];
    }
  }

  lemma PaddedBack(s: string)
    requires AllDigits(s) && s != ""
    ensures Padded(Number(s), |s|) == s
  {
    NumberBelow(s);
    PaddedDigits(Number(s), |s|);
    DigitsBack(s);
  }

  lemma {:induction false} ZerosAway(s: string, width: nat)
    requires s != "" && Last(s) != '0' && |s| <= width
    ensures TrimZeros(PadRight(s, width)) == s
  {
    PaddedWithZeros(s, width, width - |s|);
  }

  lemma {:induction false} PaddedWithZeros(s: string, width: nat, n: nat)
    requires s != "" && |s| + n == width
    ensures TrimZeros(PadRight(s, width)) == TrimZeros(s)
    decreases n
  {
    if n > 0 {
      PaddedWithZeros(s + "0", width, n - 1);
      assert Base.Init(s + "0") == s;
    }
  }

  lemma PaddedFraction(s: string)
    requires AllDigits(s) && s != "" && |s| <= 6 && Last(s) != '0'
    ensures AllDigits(PadRight(s, 6)) && TrimZeros(Padded(Number(PadRight(s, 6)), 6)) == s
  {
    PadRightDigits(s, 6);
    PaddedLength(s, 6);
    PaddedBack(PadRight(s, 6));
    ZerosAway(s, 6);
  }

  lemma PositiveProduct(a: nat, b: nat)
    requires a > 0 && b > 0
    ensures a * b > 0
  {}

  /** A fraction that does not end in a zero is printed as it was. */
  lemma FractionBack(s: string)
    requires AllDigits(s) && s != "" && |s| <= 6 && Last(s) != '0'
    ensures TrimZeros(Padded(Number(s) * Pow10(6 - |s|), 6)) == s && Number(s) * Pow10(6 - |s|) > 0
  {
    assert Number(s) * Pow10(6 - |s|) > 0 by {
      NotZero(s);
      Positive10(6 - |s|);
      PositiveProduct(Number(s), Pow10(6 - |s|));
    }
    PaddedNumber(s, 6);
    PaddedFraction(s);
  }

  lemma NotZero(s: string)
    requires AllDigits(s) && s != "" && Last(s) != '0'
    ensures Number(s) > 0
  {}

  lemma {:induction false} Positive10(n: nat)
    ensures Pow10(n) > 0
  {
    if n > 0 { Positive10(n - 1); }
  }

  lemma DateBack(s: string)
    requires IsDate(s)
    ensures DateText(DateIn(s)) == s
  {
    PaddedBack(s[..4]);
    PaddedBack(s[5..7]);
    PaddedBack(s[8..]);
    assert s == s[..4] + "-" + (s[5..7] + "-" + s[8..]);
  }

  lemma SecondsBack(h: nat, m: nat, sec: nat)
    requires h <= 23 && m <= 59 && sec <= 59
    ensures var n := (h * 60 + m) * 60 + sec; n / 3600 == h && n / 60 % 60 == m && n % 60 == sec && n < 86400
  {}

  lemma SecondsAndFraction(seconds: nat, fraction: nat)
    requires fraction < MICROS_PER_SECOND
    ensures (seconds * MICROS_PER_SECOND + fraction) / MICROS_PER_SECOND == seconds
            && (seconds * MICROS_PER_SECOND + fraction) % MICROS_PER_SECOND == fraction
  {}

  lemma ClockOf(seconds: nat, fraction: nat)
    requires fraction < MICROS_PER_SECOND
    ensures Clock(seconds * MICROS_PER_SECOND + fraction) ==
            if fraction == 0 then TimeText(seconds) else TimeText(seconds) + "." + TrimZeros(Padded(fraction, 6))
  {
    SecondsAndFraction(seconds, fraction);
  }

  function SecondsIn(s: string): nat
    requires TimeShape(s)
  {
    (Number(s[..2]) * 60 + Number(s[3..5])) * 60 + Number(s[6..8])
  }

  lemma TimeTextBack(s: string)
    requires IsTime(s)
    ensures TimeText(SecondsIn(s)) == s[..8]
  {
    SecondsBack(Number(s[..2]), Number(s[3..5]), Number(s[6..8]));
    PaddedBack(s[..2]);
    PaddedBack(s[3..5]);
    PaddedBack(s[6..8]);
    assert s[..8] == s[..2] + ":" + (s[3..5] + ":" + s[6..8]);
  }

  lemma FractionInBack(s: string)
    requires TimeShape(s) && |s| > 8 && Last(s) != '0'
    ensures 0 < FractionIn(s) < MICROS_PER_SECOND && TrimZeros(Padded(FractionIn(s), 6)) == s[9..]
  {
    FractionFits(s[9..]);
    FractionBack(s[9..]);
  }

  lemma TimeParted(s: string) returns (seconds: nat, fraction: nat)
    requires IsTime(s) && (|s| == 8 || Last(s) != '0')
    ensures TimeIn(s) == seconds * MICROS_PER_SECOND + fraction && fraction < MICROS_PER_SECOND
    ensures TimeText(seconds) == s[..8]
    ensures if |s| == 8 then fraction == 0 else fraction > 0 && TrimZeros(Padded(fraction, 6)) == s[9..]
  {
    seconds, fraction := SecondsIn(s), FractionIn(s);
    TimeTextBack(s);
    if |s| > 8 { FractionInBack(s); }
  }

  lemma ClockJoined(s: string, seconds: nat, fraction: nat)
    requires |s| == 8 || (|s| > 8 && s[8] == '.')
    requires fraction < MICROS_PER_SECOND && TimeText(seconds) == s[..8]
    requires if |s| == 8 then fraction == 0 else fraction > 0 && TrimZeros(Padded(fraction, 6)) == s[9..]
    ensures Clock(seconds * MICROS_PER_SECOND + fraction) == s
  {
    ClockOf(seconds, fraction);
    assert if |s| == 8 then s == s[..8] else s == s[..8] + "." + s[9..];
  }

  lemma ClockBack(s: string)
    requires IsTime(s) && (|s| == 8 || Last(s) != '0')
    ensures Clock(TimeIn(s)) == s
  {
    var seconds, fraction := TimeParted(s);
    ClockJoined(s, seconds, fraction);
  }

  lemma DaysAndRest(days: int, rest: int)
    requires 0 <= rest < MICROS_PER_DAY
    ensures (days * MICROS_PER_DAY + rest) / MICROS_PER_DAY == days
            && (days * MICROS_PER_DAY + rest) % MICROS_PER_DAY == rest
  {}

  lemma DateOf(d: Date, rest: int, micros: int)
    requires ValidDate(d) && 0 <= rest < MICROS_PER_DAY && micros == DaysFromCivil(d) * MICROS_PER_DAY + rest
    ensures CivilFromDays(micros / MICROS_PER_DAY) == d && micros % MICROS_PER_DAY == rest
  {
    DaysAndRest(DaysFromCivil(d), rest);
    DateRoundTrip(d);
  }

  lemma FormatOf(d: Date, rest: int, micros: int, s: string)
    requires ValidDate(d) && 0 <= rest < MICROS_PER_DAY && micros == DaysFromCivil(d) * MICROS_PER_DAY + rest
    requires s == DateText(d) + " " + Clock(rest)
    ensures Format(micros) == s
  {
    DateOf(d, rest, micros);
    FormatIs(micros);
  }

  lemma CanonicalParses(s: string)
    requires Canonical(s)
    ensures IsTimestamp(s) && Parse(s) == Some(TimestampIn(s))
  {
    CanonicalIs(s);
    PartsExact(s);
    TimeStarts(s[11..]);
    assert s[0] == s[..10][..4][0] && Last(s) == Last(s[11..]);
    TrimPlain(s);
  }

  lemma Joined(s: string, a: string, b: string)
    requires |s| > 10 && s[10] == ' ' && a == s[..10] && b == s[11..]
    ensures s == a + " " + b
  {}

  lemma CanonicalParted(s: string) returns (d: Date, rest: int, micros: int)
    requires Canonical(s)
    ensures ValidDate(d) && 0 <= rest < MICROS_PER_DAY && s == DateText(d) + " " + Clock(rest)
    ensures micros == DaysFromCivil(d) * MICROS_PER_DAY + rest && Parse(s) == Some(micros)
  {
    d, rest := DateIn(s[..10]), TimeIn(s[11..]);
    CanonicalIs(s);
    CanonicalParses(s);
    micros := TimestampIn(s);
    TimeFits(s[11..]);
    DateBack(s[..10]);
    ClockBack(s[11..]);
    Joined(s, DateText(d), Clock(rest));
  }

  /** Printing undoes parsing: every canonical text is the one printed for the timestamp it says, so no timestamp
      has two. */
  lemma FormatUndoesParse(s: string) returns (micros: int)
    requires Canonical(s)
    ensures Parse(s) == Some(micros) && Format(micros) == s
  {
    var d, rest;
    d, rest, micros := CanonicalParted(s);
    FormatOf(d, rest, micros, s);
  }
}
