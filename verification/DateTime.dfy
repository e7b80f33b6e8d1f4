/**
 Dates and times as text (soprano/datetime.cpp; XML Schema Part 2, Second Edition, sections 3.2.7 to 3.2.9).
 A time is a number of milliseconds of the day, or none.
 */
module DateTimes {
  import opened Wrappers
  import opened QtText

  const MSECS_PER_DAY := 86_400_000

  type Millis = t: int | 0 <= t < MSECS_PER_DAY

  // A QTime, which can be null.
  type Time = Option<Millis>

  // QTime( h, m, s, ms ): null if a part is out of range.
  function MakeTime(h: int, m: int, s: int, ms: int): Time {
    if 0 <= h < 24 && 0 <= m < 60 && 0 <= s < 60 && 0 <= ms < 1000
    then Some(3_600_000 * h + 60_000 * m + 1000 * s + ms) else None
  }

  // QTime::addSecs wraps around at midnight, and starts from midnight for a null time.
  function AddSecs(t: Time, secs: int): Time {
    Some(((if t.Some? then t.value else 0) + 1000 * secs) % MSECS_PER_DAY)
  }

  // ----- Printing times -----

  function Hour(t: Millis): nat { t / 3_600_000 }

  function Minute(t: Millis): nat { t / 60_000 % 60 }

  function Second(t: Millis): nat { t / 1000 % 60 }

  function Msec(t: Millis): nat { t % 1000 }

  // "HH:mm:ss"
  function Clock(t: Millis): string {
    Padded(Hour(t), 2) + ":" + Padded(Minute(t), 2) + ":" + Padded(Second(t), 2)
  }

  function TrimZeros(s: string): string {
    if s != "" && s[|s| - 1] == '0' then TrimZeros(s[..|s| - 1]) else s
  }

  function Fraction(ms: nat): string {
    if ms > 0 then TrimZeros("." + Padded(ms, 3)) else ""
  }

  function PrintedTime(t: Millis): string {
    Clock(t) + Fraction(Msec(t)) + "Z"
  }

  method TimeToString(t: Millis) returns (s: string)
    ensures s == PrintedTime(t)
  {
    var frac := "";
    if Msec(t) > 0 {
      frac := "." + Padded(Msec(t), 3);
      while frac != "" && frac[|frac| - 1] == '0'
        invariant TrimZeros(frac) == Fraction(Msec(t))
        decreases |frac|
      {
        frac := frac[..|frac| - 1];
      }
    }
    s := Clock(t) + frac + "Z";
  }

  // ----- Parsing times -----

  // The first position that holds no digit.
  function DigitsEnd(s: string, pos: nat): (end: nat)
    requires pos <= |s|
    ensures pos <= end <= |s|
    decreases |s| - pos
  {
    if pos < |s| && IsDigit(s[pos]) then DigitsEnd(s, pos + 1) else pos
  }

  // QString::leftJustified( 3, '0' )
  function Justified(s: string): string {
    if |s| >= 3 then s else s + Zeros(3 - |s|)
  }

  predicate HasFraction(s: string) {
    |s| > 8 && (s[8] == '.' || s[8] == ',')
  }

  function FractionEnd(s: string): nat
    requires |s| >= 8
    ensures 8 <= FractionEnd(s) <= |s|
  {
    if HasFraction(s) then DigitsEnd(s, 9) else 8
  }

  // The digits of the fraction as a number of milliseconds.
  function FractionOf(s: string): Option<int>
    requires |s| >= 8
  {
    if HasFraction(s) then ToInt(Justified(s[9..DigitsEnd(s, 9)])) else Some(0)
  }

  // The time zone after the time: none, "Z" and anything, or an offset of six characters.
  function Shifted(t: Time, zone: string): Time {
    if zone == "" || zone[0] == 'Z' then t
    else if |zone| != 6 || (zone[0] != '+' && zone[0] != '-') then None
    else match ToInt(zone[1..3])
      case None => None
      case Some(hh) => match ToInt(zone[4..6])
        case None => None
        case Some(mm) =>
          var secs := 60 * (60 * hh + mm);
          AddSecs(t, if zone[0] == '+' then -secs else secs)
  }

  function ParsedTime(s: string): Time {
    if |s| < 8 || s[2] != ':' || s[5] != ':' then None
    else match ToInt(s[0..2])
      case None => None
      case Some(hh) => match ToInt(s[3..5])
        case None => None
        case Some(mm) => match ToInt(s[6..8])
          case None => None
          case Some(ss) => match FractionOf(s)
            case None => None
            case Some(z) => Shifted(MakeTime(hh, mm, ss, z), s[FractionEnd(s)..])
  }

  // The characters of an offset, in the string and in its zone.
  lemma ZoneSlices(s: string, pos: nat)
    requires pos + 6 == |s|
    ensures s[pos + 1..pos + 3] == s[pos..][1..3] && s[pos + 4..pos + 6] == s[pos..][4..6]
  {
  }

  method TimeFromString(s: string) returns (t: Time)
    ensures t == ParsedTime(s)
  {
    hide ToInt, Justified, MakeTime, AddSecs;
    if |s| < 8 || s[2] != ':' || s[5] != ':' { return None; }
    var hh := ToInt(s[0..2]);
    if hh.None? { return None; }
    var mm := ToInt(s[3..5]);
    if mm.None? { return None; }
    var ss := ToInt(s[6..8]);
    if ss.None? { return None; }
    var pos := 8;
    var z := Some(0);
    if |s| > 8 {
      if s[8] == '.' || s[8] == ',' {
        pos := pos + 1;
        while |s| > pos && IsDigit(s[pos])
          invariant 9 <= pos <= |s| && DigitsEnd(s, pos) == DigitsEnd(s, 9)
        {
          pos := pos + 1;
        }
        z := ToInt(Justified(s[9..pos]));
        if z.None? { return None; }
      }
    }
    t := MakeTime(hh.value, mm.value, ss.value, z.value);
    ghost var zone := s[pos..];
    assert pos == FractionEnd(s);
    if pos == |s| || s[pos] == 'Z' { return; }
    if |s| != pos + 6 { return None; }
    ZoneSlices(s, pos);
    var add := true;
    if s[pos] == '+' {
      add := true;
    } else if s[pos] == '-' {
      add := false;
    } else {
      return None;
    }
    pos := pos + 1;
    hh := ToInt(s[pos..pos + 2]);
    if hh.None? { return None; }
    pos := pos + 3;
    mm := ToInt(s[pos..pos + 2]);
    if mm.None? { return None; }
    var secs := 60 * (60 * hh.value + mm.value);
    t := AddSecs(t, if add then -secs else secs);
  }

  // ----- Times read back -----

  lemma ClockParts(t: Millis)
    ensures Hour(t) < 24 && Minute(t) < 60 && Second(t) < 60 && Msec(t) < 1000
    ensures MakeTime(Hour(t), Minute(t), Second(t), Msec(t)) == Some(t)
  {
    assert t / 60_000 / 60 == t / 3_600_000 && t / 1000 / 60 == t / 60_000;
  }

  lemma ThreeDigitValue(p: string)
    requires |p| == 3 && AllDigits(p)
    ensures Value(p) == 100 * (p[0] - '0') as int + 10 * (p[1] - '0') as int + (p[2] - '0') as int
  {
    var q := p[..2];
    assert Value(p) == 10 * Value(q) + (p[2] - '0') as nat;
    assert Value(q) == 10 * Value(q[..1]) + (p[1] - '0') as nat;
    assert Value(q[..1]) == 10 * Value(q[..1][..0]) + (p[0] - '0') as nat;
  }

  lemma DigitsLength(n: nat)
    requires n < 1000
    ensures |Digits(n)| <= 3
  {
    if n >= 10 { assert |Digits(n)| == |Digits(n / 10)| + 1 && |Digits(n / 10)| <= 2; }
  }

  // The three digits of a number of milliseconds.
  lemma ThreeDigits(ms: nat)
    requires 0 < ms < 1000
    ensures var p := Padded(ms, 3);
            |p| == 3 && AllDigits(p) && ToInt(p) == Some(ms) && !(p[0] == p[1] == p[2] == '0')
  {
    hide Value, ToInt, Digits;
    PaddedValue(ms, 3);
    PrintedReads(ms, 3, false);
    DigitsLength(ms);
    var p := Padded(ms, 3);
    assert "" + p == p;
    ThreeDigitValue(p);
  }

  // Trimming zeros and filling them in again.
  lemma FractionIsTrimmed(ms: nat)
    requires 0 < ms < 1000
    ensures var f := Fraction(ms);
            2 <= |f| <= 4 && f[0] == '.' && AllDigits(f[1..]) && Justified(f[1..]) == Padded(ms, 3)
  {
    hide Padded, Value, ToInt;
    ThreeDigits(ms);
    var p := Padded(ms, 3);
    var f3 := "." + p;
    var f2, f1 := "." + p[..2], "." + p[..1];
    assert f3[..3] == f2 && f2[..2] == f1 && Zeros(1) == "0" && Zeros(2) == "00";
    assert f3[1..] == p && f2[1..] == p[..2] && f1[1..] == p[..1];
    if p[2] != '0' {
      assert TrimZeros(f3) == f3;
    } else if p[1] != '0' {
      assert TrimZeros(f3) == TrimZeros(f2) == f2;
      assert p[..2] + "0" == p;
    } else {
      assert TrimZeros(f3) == TrimZeros(f2) && TrimZeros(f2) == TrimZeros(f1) && TrimZeros(f1) == f1;
      assert p[..1] + "00" == p;
    }
  }

  lemma {:induction false} DigitsStop(s: string, pos: nat, end: nat)
    requires pos <= end <= |s| && (forall i | pos <= i < end :: IsDigit(s[i])) && (end == |s| || !IsDigit(s[end]))
    ensures DigitsEnd(s, pos) == end
    decreases end - pos
  {
    if pos < end { DigitsStop(s, pos + 1, end); }
  }

  // A zone that cannot be taken for more of the fraction.
  predicate ZoneStart(zone: string) {
    zone == "" || (!IsDigit(zone[0]) && zone[0] != '.' && zone[0] != ',')
  }

  // A fraction of any digits, after eight characters of time.
  lemma DigitsRead(clock: string, d: string, zone: string)
    requires |clock| == 8 && AllDigits(d) && ZoneStart(zone)
    ensures var s := clock + ("." + d) + zone;
            FractionOf(s) == ToInt(Justified(d)) && s[FractionEnd(s)..] == zone
  {
    hide ToInt, Justified;
    var s := clock + ("." + d) + zone;
    var end := 9 + |d|;
    assert s[8] == '.' && s[9..end] == d && s[end..] == zone;
    forall i | 9 <= i < end ensures IsDigit(s[i]) { assert s[i] == d[i - 9]; }
    assert end < |s| ==> s[end] == zone[0];
    DigitsStop(s, 9, end);
  }

  lemma FractionReads(clock: string, ms: nat, zone: string)
    requires |clock| == 8 && ms < 1000 && ZoneStart(zone)
    ensures var s := clock + Fraction(ms) + zone;
            FractionOf(s) == Some(ms) && s[FractionEnd(s)..] == zone
  {
    var f := Fraction(ms);
    if ms > 0 {
      hide Fraction, Padded, ToInt, FractionOf, FractionEnd, Justified;
      FractionIsTrimmed(ms);
      ThreeDigits(ms);
      DigitsRead(clock, f[1..], zone);
      assert "." + f[1..] == f;
    } else {
      assert clock + f + zone == clock + zone && (clock + zone)[8..] == zone;
    }
  }

  lemma ClockReads(t: Millis)
    ensures var c := Clock(t);
            && |c| == 8 && c[2] == ':' && c[5] == ':'
            && ToInt(c[0..2]) == Some(Hour(t)) && ToInt(c[3..5]) == Some(Minute(t)) && ToInt(c[6..8]) == Some(Second(t))
  {
    hide Padded, ToInt, Hour, Minute, Second;
    ClockParts(t);
    TwoDigits(Hour(t));
    TwoDigits(Minute(t));
    TwoDigits(Second(t));
    var c := Clock(t);
    assert c[0..2] == Padded(Hour(t), 2) && c[3..5] == Padded(Minute(t), 2) && c[6..8] == Padded(Second(t), 2);
  }

  // A time of day with any fraction of a second, and any zone.
  lemma ClockAndFraction(t: Millis, fraction: string, zone: string)
    ensures var s := Clock(t) + fraction + zone;
            ParsedTime(s) == match FractionOf(s)
                             case None => None
                             case Some(z) => Shifted(MakeTime(Hour(t), Minute(t), Second(t), z), s[FractionEnd(s)..])
  {
    hide Clock, ToInt, Hour, Minute, Second, MakeTime, FractionOf, FractionEnd, Shifted;
    var c, s := Clock(t), Clock(t) + fraction + zone;
    ClockReads(t);
    assert s[0..2] == c[0..2] && s[3..5] == c[3..5] && s[6..8] == c[6..8];
  }

  /** A printed time followed by any time zone is parsed as the time, shifted by the zone. */
  lemma TimeReads(t: Millis, zone: string)
    requires ZoneStart(zone)
    ensures ParsedTime(Clock(t) + Fraction(Msec(t)) + zone) == Shifted(Some(t), zone)
  {
    hide Clock, Fraction, ToInt, Hour, Minute, Second, Msec, MakeTime, FractionOf, FractionEnd, Shifted, ParsedTime;
    ClockParts(t);
    ClockReads(t);
    FractionReads(Clock(t), Msec(t), zone);
    ClockAndFraction(t, Fraction(Msec(t)), zone);
  }

  /**
   Up to three digits of a fraction are milliseconds with zeros filled in.  Longer fractions are taken for a
   number of milliseconds as they stand: ".0005" is five milliseconds, and ".5000" is no time.
   */
  lemma LongFractionsAreMisread(t: Millis, d: string)
    requires |d| >= 3 && AllDigits(d)
    ensures ParsedTime(Clock(t) + ("." + d) + "Z") ==
            if Value(d) < 1000 then Some(t - Msec(t) + Value(d)) else None
  {
    hide Clock, ToInt, Hour, Minute, Second, Msec, FractionOf, FractionEnd, ParsedTime, Value;
    ClockParts(t);
    ClockReads(t);
    DigitsRead(Clock(t), d, "Z");
    ClockAndFraction(t, "." + d, "Z");
    ReadsAs(d);
  }

  lemma {:induction false} ValueOfPrefix(d: string, n: nat)
    requires n <= |d| && AllDigits(d)
    ensures Value(d) >= Value(d[..n])
    ensures n < |d| ==> Value(d) >= 10 * Value(d[..n])
    decreases |d|
  {
    if n < |d| {
      ValueOfPrefix(d[..|d| - 1], n);
      assert d[..|d| - 1][..n] == d[..n];
    } else {
      assert d[..n] == d;
    }
  }

  lemma {:induction false} ValueIsZero(d: string)
    requires AllDigits(d)
    ensures Value(d) == 0 <==> forall i | 0 <= i < |d| :: d[i] == '0'
    decreases |d|
  {
    if d != "" {
      var front := d[..|d| - 1];
      ValueIsZero(front);
      assert forall i | 0 <= i < |front| :: front[i] == d[i];
    }
  }

  /** A fraction of more than three digits is read as the milliseconds it denotes if and only if it is all zeros. */
  lemma LongFractionsAreRightIfZero(t: Millis, d: string)
    requires |d| > 3 && AllDigits(d)
    ensures ParsedTime(Clock(t) + ("." + d) + "Z") == Some(t - Msec(t) + Value(d[..3])) <==>
            forall i | 0 <= i < |d| :: d[i] == '0'
  {
    hide Clock, ParsedTime, Value;
    LongFractionsAreMisread(t, d);
    ValueOfPrefix(d, 3);
    ValueIsZero(d);
    ValueIsZero(d[..3]);
    if Value(d) == 0 { assert forall i | 0 <= i < 3 :: d[..3][i] == d[i]; }
  }

  /** Every time comes back from its printed form, trailing zeros of the fraction trimmed. */
  lemma TimeRoundTrip(t: Millis)
    ensures ParsedTime(PrintedTime(t)) == Some(t)
  {
    hide Clock, Fraction, ParsedTime;
    TimeReads(t, "Z");
  }

  /** A time without a zone is read as it stands, and so is one with a Z, whatever follows the Z. */
  lemma TimeWithoutOffset(t: Millis, suffix: string)
    ensures ParsedTime(Clock(t) + Fraction(Msec(t))) == Some(t)
    ensures ParsedTime(Clock(t) + Fraction(Msec(t)) + ("Z" + suffix)) == Some(t)
  {
    hide Clock, Fraction, ParsedTime, Msec;
    TimeReads(t, "");
    assert Clock(t) + Fraction(Msec(t)) + "" == Clock(t) + Fraction(Msec(t));
    TimeReads(t, "Z" + suffix);
  }

  /** Any other zone must be a sign and five characters, two numbers among them, or there is no time. */
  lemma OtherZonesAreNoTime(t: Millis, zone: string)
    requires ZoneStart(zone) && zone != "" && zone[0] != 'Z'
    requires |zone| != 6 || zone[0] !in {'+', '-'} || ToInt(zone[1..3]).None? || ToInt(zone[4..6]).None?
    ensures ParsedTime(Clock(t) + Fraction(Msec(t)) + zone) == None
  {
    hide Clock, Fraction, ParsedTime, Msec, ToInt;
    TimeReads(t, zone);
  }

  /** A fraction may be set off by a comma instead of a point. */
  lemma CommaIsPoint(clock: string, d: string, zone: string)
    requires |clock| == 8 && AllDigits(d) && ZoneStart(zone)
    ensures ParsedTime(clock + ("," + d) + zone) == ParsedTime(clock + ("." + d) + zone)
  {
    hide ToInt, Justified, Shifted, MakeTime, DigitsEnd;
    var s, s' := clock + ("." + d) + zone, clock + ("," + d) + zone;
    var end := 9 + |d|;
    assert s[end..] == s'[end..] == zone && s[9..end] == s'[9..end] == d;
    forall i | 9 <= i < end ensures IsDigit(s[i]) && s'[i] == s[i] { assert s[i] == d[i - 9]; }
    assert end < |s| ==> s[end] == s'[end] == zone[0];
    DigitsStop(s, 9, end);
    DigitsStop(s', 9, end);
    assert s[0..2] == s'[0..2] && s[3..5] == s'[3..5] && s[6..8] == s'[6..8];
  }

  // The number that two characters denote.
  function TwoDigitNumber(s: string, i: nat): int
    requires i + 1 < |s|
  {
    10 * (s[i] as int - '0' as int) + (s[i + 1] as int - '0' as int)
  }

  lemma TwoDigitsDenote(n: nat)
    requires n < 100
    ensures |Padded(n, 2)| == 2 && AllDigits(Padded(n, 2)) && TwoDigitNumber(Padded(n, 2), 0) == n
  {
    if n >= 10 { assert Digits(n) == [DigitOf(n / 10)] + [DigitOf(n % 10)]; }
  }

  lemma ClockShows(t: Millis)
    ensures var c := Clock(t);
            && |c| == 8 && AllDigits(c[..2] + c[3..5] + c[6..]) && c[2] == c[5] == ':'
            && TwoDigitNumber(c, 0) == Hour(t) && TwoDigitNumber(c, 3) == Minute(t) && TwoDigitNumber(c, 6) == Second(t)
  {
    hide Padded, Hour, Minute, Second;
    ClockParts(t);
    TwoDigitsDenote(Hour(t));
    TwoDigitsDenote(Minute(t));
    TwoDigitsDenote(Second(t));
    var c := Clock(t);
    assert c[..2] == Padded(Hour(t), 2) && c[3..5] == Padded(Minute(t), 2) && c[6..] == Padded(Second(t), 2);
    assert c[0] == c[..2][0] && c[1] == c[..2][1] && c[3] == c[3..5][0] && c[4] == c[3..5][1];
    assert c[6] == c[6..][0] && c[7] == c[6..][1];
  }

  /** A clock shows the hour, the minute and the second of the time, with two digits each. */
  lemma ClockDenotes(t: Millis)
    ensures var c := Clock(t);
            && |c| == 8 && AllDigits(c[..2] + c[3..5] + c[6..]) && c[2] == c[5] == ':'
            && TwoDigitNumber(c, 3) < 60 && TwoDigitNumber(c, 6) < 60
            && var minutes := 60 * TwoDigitNumber(c, 0) + TwoDigitNumber(c, 3);
            0 <= t - 60_000 * minutes - 1000 * TwoDigitNumber(c, 6) < 1000
  {
    hide Clock, TwoDigitNumber, Hour, Minute, Second, Msec;
    ClockShows(t);
    ClockParts(t);
    PartsAddUp(t);
  }

  lemma PartsAddUp(t: Millis)
    ensures t == 3_600_000 * Hour(t) + 60_000 * Minute(t) + 1000 * Second(t) + Msec(t)
  {
    assert t / 60_000 / 60 == t / 3_600_000 && t / 1000 / 60 == t / 60_000;
  }

  function Offset(sign: char, hh: nat, sep: char, mm: nat): string {
    [sign] + Padded(hh, 2) + [sep] + Padded(mm, 2)
  }

  /** An explicit offset shifts the time of day by exactly that offset, around midnight. */
  lemma OffsetShifts(t: Millis, ahead: bool, hh: nat, sep: char, mm: nat)
    requires hh < 100 && mm < 100
    ensures var zone := Offset(if ahead then '+' else '-', hh, sep, mm);
            var shift := 60_000 * (60 * hh + mm);
            ParsedTime(Clock(t) + Fraction(Msec(t)) + zone) ==
            Some((if ahead then t - shift else t + shift) % MSECS_PER_DAY)
  {
    hide Clock, Fraction, ParsedTime, Padded, ToInt, Msec;
    var zone := Offset(if ahead then '+' else '-', hh, sep, mm);
    TwoDigits(hh);
    TwoDigits(mm);
    assert zone[1..3] == Padded(hh, 2) && zone[4..6] == Padded(mm, 2);
    TimeReads(t, zone);
  }

  /** A clock that is out of range is no time, but with an offset it is read as midnight. */
  lemma OffsetHidesInvalidTime(hh: nat, mm: nat, ss: nat, zone: string)
    requires hh < 100 && mm < 100 && ss < 100 && MakeTime(hh, mm, ss, 0) == None && ZoneStart(zone)
    ensures var s := Padded(hh, 2) + ":" + Padded(mm, 2) + ":" + Padded(ss, 2) + zone;
            ParsedTime(s) == if zone == "" || zone[0] == 'Z' then None else Shifted(Some(0), zone)
  {
    hide Padded, ToInt;
    TwoDigits(hh);
    TwoDigits(mm);
    TwoDigits(ss);
    var s := Padded(hh, 2) + ":" + Padded(mm, 2) + ":" + Padded(ss, 2) + zone;
    assert s[0..2] == Padded(hh, 2) && s[3..5] == Padded(mm, 2) && s[6..8] == Padded(ss, 2) && s[8..] == zone;
  }

  lemma ReadsAs(s: string)
    requires s != "" && AllDigits(s)
    ensures ToInt(s) == if Value(s) < 0x8000_0000 then Some(Value(s)) else None
  {
    hide Value;
    NoSpaceToDrop(s);
  }

  // ----- Dates -----

  datatype Date = Date(year: int, month: int, day: int)

  // Which years, months and days are a valid QDate.
  type Calendar = (int, int, int) -> bool

  predicate OnCalendar(cal: Calendar, d: Date) {
    && cal(d.year, d.month, d.day)
    && -0x8000_0000 < d.year < 0x8000_0000 && 1 <= d.month <= 12 && 1 <= d.day <= 31
  }

  function Magnitude(n: int): nat {
    if n < 0 then -n else n
  }

  function PrintedYear(y: int): string {
    (if y < 0 then "-" else "") + Padded(Magnitude(y), 4)
  }

  // The sign of the year is printed apart from its digits.
  function PrintedDate(d: Date): string
    requires d.month >= 0 && d.day >= 0
  {
    PrintedYear(d.year) + ("-" + Padded(d.month, 2) + "-" + Padded(d.day, 2))
  }

  // The hyphen that ends the year is not the first character, which may be the sign.
  function ParsedDate(cal: Calendar, s: string): Option<Date> {
    var yLen := IndexOf(s, '-', 1);
    match ToInt(Mid(s, 0, yLen))
    case None => None
    case Some(y) => match ToInt(Mid(s, yLen + 1, 2))
      case None => None
      case Some(m) => match ToInt(Mid(s, yLen + 4, 2))
        case None => None
        case Some(d) => if cal(y, m, d) then Some(Date(y, m, d)) else None
  }

  lemma FoundAt(s: string, c: char, from: nat, pos: nat)
    requires from <= pos < |s| && s[pos] == c && forall i | from <= i < pos :: s[i] != c
    ensures IndexOf(s, c, from) == pos
  {
  }

  lemma YearEnds(y: int, rest: string)
    ensures IndexOf(PrintedYear(y) + ("-" + rest), '-', 1) == |PrintedYear(y)|
  {
    hide IndexOf, Padded, Value;
    PaddedValue(Magnitude(y), 4);
    var year, p := PrintedYear(y), Padded(Magnitude(y), 4);
    var s := year + ("-" + rest);
    forall i | 1 <= i < |year| ensures s[i] != '-' {
      assert s[i] == if y < 0 then p[i - 1] else p[i];
    }
    FoundAt(s, '-', 1, |year|);
  }

  /** A printed date is read back whatever follows it. */
  lemma DateReads(cal: Calendar, d: Date, rest: string)
    requires OnCalendar(cal, d)
    ensures ParsedDate(cal, PrintedDate(d) + rest) == Some(d)
  {
    hide IndexOf, Padded, ToInt, PrintedYear;
    var year, m, dd := PrintedYear(d.year), Padded(d.month, 2), Padded(d.day, 2);
    var s := PrintedDate(d) + rest;
    TwoDigits(d.month);
    TwoDigits(d.day);
    assert ToInt(year) == Some(d.year) by { YearReads(d.year); }
    assert s == year + ("-" + (m + "-" + dd + rest));
    YearEnds(d.year, m + "-" + dd + rest);
    assert Mid(s, 0, |year|) == year;
    assert Mid(s, |year| + 1, 2) == m && Mid(s, |year| + 4, 2) == dd;
  }

  lemma YearReads(y: int)
    requires -0x8000_0000 < y < 0x8000_0000
    ensures ToInt(PrintedYear(y)) == Some(y)
  {
    hide ToInt, Padded;
    PrintedReads(Magnitude(y), 4, y < 0);
  }

  /** A printed date shows the year, then the month and the day with two digits each. */
  lemma DateDenotes(d: Date)
    requires 1 <= d.month <= 12 && 1 <= d.day <= 31 && -0x8000_0000 < d.year < 0x8000_0000
    ensures var s := PrintedDate(d);
            && |s| >= 10 && s[|s| - 6] == s[|s| - 3] == '-' && ToInt(s[..|s| - 6]) == Some(d.year)
            && AllDigits(s[|s| - 5..|s| - 3] + s[|s| - 2..])
            && TwoDigitNumber(s, |s| - 5) == d.month && TwoDigitNumber(s, |s| - 2) == d.day
  {
    hide Padded, ToInt, PrintedYear;
    var year, m, dd := PrintedYear(d.year), Padded(d.month, 2), Padded(d.day, 2);
    TwoDigitsDenote(d.month);
    TwoDigitsDenote(d.day);
    YearReads(d.year);
    assert |year| >= 4 by { YearIsLong(d.year); }
    var s := PrintedDate(d);
    assert s == year + ("-" + m + "-" + dd);
    assert s[..|s| - 6] == year && s[|s| - 5..|s| - 3] == m && s[|s| - 2..] == dd;
    assert s[|s| - 5] == m[0] && s[|s| - 4] == m[1] && s[|s| - 2] == dd[0] && s[|s| - 1] == dd[1];
  }

  lemma YearIsLong(y: int)
    ensures |PrintedYear(y)| >= 4
  {
    hide Padded, Value;
    PaddedValue(Magnitude(y), 4);
  }

  lemma DateRoundTrip(cal: Calendar, d: Date)
    requires OnCalendar(cal, d)
    ensures ParsedDate(cal, PrintedDate(d)) == Some(d)
  {
    hide ParsedDate, PrintedDate;
    DateReads(cal, d, "");
    assert PrintedDate(d) + "" == PrintedDate(d);
  }

  // ----- Dates with times -----

  datatype DateTime = DateTime(date: Date, time: Millis)   // in UTC

  function PrintedDateTime(dt: DateTime): string
    requires dt.date.month >= 0 && dt.date.day >= 0
  {
    PrintedDate(dt.date) + "T" + PrintedTime(dt.time)
  }

  // The date ends at the first T, or else at the first space; without either there is no time of day.
  function DateEnd(s: string): int {
    var pos := IndexOf(s, 'T', 0);
    if pos < 0 then IndexOf(s, ' ', 0) else pos
  }

  function ParsedDateTime(cal: Calendar, s: string): Option<DateTime> {
    var pos := DateEnd(s);
    match ParsedDate(cal, Mid(s, 0, pos))
    case None => None
    case Some(date) =>
      if pos <= 0 then Some(DateTime(date, 0))
      else match ParsedTime(Mid(s, pos + 1, -1))
        case None => None
        case Some(time) => Some(DateTime(date, time))
  }

  // Digits and punctuation alone.
  predicate NoLetterOrSpace(s: string) {
    forall i | 0 <= i < |s| :: IsDigit(s[i]) || s[i] == '-' || s[i] == ':' || s[i] == '.'
  }

  lemma PaddedIsDigits(n: nat, width: nat)
    ensures NoLetterOrSpace(Padded(n, width))
  {
    PaddedValue(n, width);
  }

  lemma DateHasNoLetter(d: Date)
    requires d.month >= 0 && d.day >= 0
    ensures NoLetterOrSpace(PrintedDate(d)) && PrintedDate(d) != ""
  {
    hide Padded;
    PaddedIsDigits(Magnitude(d.year), 4);
    PaddedIsDigits(d.month, 2);
    PaddedIsDigits(d.day, 2);
  }

  lemma ClockHasNoLetter(t: Millis)
    ensures NoLetterOrSpace(Clock(t) + Fraction(Msec(t)))
  {
    hide Padded, Hour, Minute, Second, Fraction;
    PaddedIsDigits(Hour(t), 2);
    PaddedIsDigits(Minute(t), 2);
    PaddedIsDigits(Second(t), 2);
    assert NoLetterOrSpace(Fraction(Msec(t))) by { FractionHasNoLetter(Msec(t)); }
  }

  lemma FractionHasNoLetter(ms: nat)
    requires ms < 1000
    ensures NoLetterOrSpace(Fraction(ms))
  {
    if ms > 0 {
      hide Fraction;
      FractionIsTrimmed(ms);
      var f := Fraction(ms);
      forall i | 1 <= i < |f| ensures IsDigit(f[i]) { assert f[i] == f[1..][i - 1]; }
    }
  }

  lemma DateEndsAt(date: string, sep: char, time: string)
    requires NoLetterOrSpace(date) && (sep == 'T' || (sep == ' ' && 'T' !in time))
    ensures DateEnd(date + [sep] + time) == |date|
  {
    hide IndexOf;
    var s := date + [sep] + time;
    assert s[|date|] == sep;
    assert forall i | 0 <= i < |date| :: s[i] == date[i];
    FoundAt(s, sep, 0, |date|);
    if sep == ' ' {
      forall i | 0 <= i < |s| ensures s[i] != 'T' {
        if i > |date| { assert s[i] == time[i - |date| - 1]; }
      }
    }
  }

  /**
   A printed date, a T or a space, and a printed time with any zone: the time is shifted by the zone, and the
   date stays as it is, even where the shift passes midnight.
   */
  lemma DateTimeReads(cal: Calendar, d: Date, sep: char, t: Millis, zone: string)
    requires OnCalendar(cal, d) && ZoneStart(zone) && (sep == 'T' || (sep == ' ' && 'T' !in zone))
    ensures ParsedDateTime(cal, PrintedDate(d) + [sep] + (Clock(t) + Fraction(Msec(t)) + zone)) ==
            match Shifted(Some(t), zone)
            case None => None
            case Some(time) => Some(DateTime(d, time))
  {
    hide ParsedDate, PrintedDate, ParsedTime, Clock, Fraction, Shifted, DateEnd;
    var date, time := PrintedDate(d), Clock(t) + Fraction(Msec(t)) + zone;
    var s := date + [sep] + time;
    DateHasNoLetter(d);
    ClockHasNoLetter(t);
    if sep == ' ' { NoLetterBefore(Clock(t) + Fraction(Msec(t)), zone); }
    DateEndsAt(date, sep, time);
    assert Mid(s, 0, |date|) == date && Mid(s, |date| + 1, -1) == time;
    DateRoundTrip(cal, d);
    TimeReads(t, zone);
  }

  /** Without a zone, and with a Z and anything behind it, date and time are read as they stand. */
  lemma DateTimeWithoutOffset(cal: Calendar, d: Date, sep: char, t: Millis, suffix: string)
    requires OnCalendar(cal, d) && (sep == 'T' || (sep == ' ' && 'T' !in suffix))
    ensures ParsedDateTime(cal, PrintedDate(d) + [sep] + (Clock(t) + Fraction(Msec(t)))) == Some(DateTime(d, t))
    ensures ParsedDateTime(cal, PrintedDate(d) + [sep] + (Clock(t) + Fraction(Msec(t)) + ("Z" + suffix))) ==
            Some(DateTime(d, t))
  {
    hide Clock, Fraction, ParsedDateTime, PrintedDate, Msec;
    DateTimeReads(cal, d, sep, t, "");
    assert Clock(t) + Fraction(Msec(t)) + "" == Clock(t) + Fraction(Msec(t));
    DateTimeReads(cal, d, sep, t, "Z" + suffix);
  }

  // A day number and a time of day as milliseconds on one line.
  function Instant(day: int, time: int): int {
    MSECS_PER_DAY * day + time
  }

  /**
   A date and time with an explicit offset is read as the instant it denotes, for any numbering of the days, if and
   only if the shift does not leave the day.
   */
  lemma OffsetsAreRightWithinTheDay(cal: Calendar, dayOf: Date -> int, d: Date, sep: char, t: Millis, ahead: bool,
                                    hh: nat, colon: char, mm: nat)
    requires OnCalendar(cal, d) && hh < 100 && mm < 100 && (sep == 'T' || (sep == ' ' && colon != 'T'))
    ensures var zone := Offset(if ahead then '+' else '-', hh, colon, mm);
            var shift := 60_000 * (60 * hh + mm);
            var unwrapped := if ahead then t - shift else t + shift;
            var read := ParsedDateTime(cal, PrintedDate(d) + [sep] + (Clock(t) + Fraction(Msec(t)) + zone));
            && read == Some(DateTime(d, unwrapped % MSECS_PER_DAY))
            && (Instant(dayOf(read.value.date), read.value.time) == Instant(dayOf(d), unwrapped) <==>
                0 <= unwrapped < MSECS_PER_DAY)
  {
    hide Clock, Fraction, ParsedDateTime, PrintedDate, Padded, ToInt, Msec;
    var zone := Offset(if ahead then '+' else '-', hh, colon, mm);
    TwoDigits(hh);
    TwoDigits(mm);
    PaddedIsDigits(hh, 2);
    PaddedIsDigits(mm, 2);
    assert zone[1..3] == Padded(hh, 2) && zone[4..6] == Padded(mm, 2);
    assert sep == ' ' ==> 'T' !in zone;
    DateTimeReads(cal, d, sep, t, zone);
  }

  lemma NoLetterBefore(s: string, zone: string)
    requires NoLetterOrSpace(s) && 'T' !in zone
    ensures 'T' !in s + zone
  {
  }

  /** Every UTC date and time comes back from its printed form. */
  lemma DateTimeRoundTrip(cal: Calendar, dt: DateTime)
    requires OnCalendar(cal, dt.date)
    ensures ParsedDateTime(cal, PrintedDateTime(dt)) == Some(dt)
  {
    hide ParsedDateTime, PrintedDate, Clock, Fraction;
    DateTimeReads(cal, dt.date, 'T', dt.time, "Z");
    assert PrintedDateTime(dt) == PrintedDate(dt.date) + ['T'] + (Clock(dt.time) + Fraction(Msec(dt.time)) + "Z");
  }

  /** A date alone is midnight of that date. */
  lemma DateAloneIsMidnight(cal: Calendar, d: Date)
    requires OnCalendar(cal, d)
    ensures ParsedDateTime(cal, PrintedDate(d)) == Some(DateTime(d, 0))
  {
    hide ParsedDate, PrintedDate, IndexOf;
    DateHasNoLetter(d);
    DateRoundTrip(cal, d);
    var s := PrintedDate(d);
    assert Mid(s, 0, -1) == s;
  }
}
