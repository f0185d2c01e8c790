/**
 time.Time as the cursor prints and reads it: RFC3339Nano, section 5.6 of RFC 3339, with the
 fraction cut of its trailing zeros.
 */
module Timestamp {
  import opened Text

  /** Wall clock fields and the zone's offset from UTC in seconds. */
  datatype Time = Time(
    year: int, month: int, day: int, hour: int, minute: int, second: int, nano: int, offset: int)

  /** Go's zero time. */
  const ZERO: Time := Time(1, 1, 1, 0, 0, 0, 0, 0)

  predicate IsLeap(year: int) {
    year % 4 == 0 && (year % 100 != 0 || year % 400 == 0)
  }

  function DaysIn(month: int, year: int): int {
    if month == 2 then (if IsLeap(year) then 29 else 28)
    else if month == 4 || month == 6 || month == 9 || month == 11 then 30
    else 31
  }

  /** A wall clock that RFC 3339 can write, in a zone less than a day off UTC. */
  predicate Valid(t: Time) {
    && 0 <= t.year <= 9999 && 1 <= t.month <= 12 && 1 <= t.day <= DaysIn(t.month, t.year)
    && 0 <= t.hour < 24 && 0 <= t.minute < 60 && 0 <= t.second < 60
    && 0 <= t.nano < 1_000_000_000
    && -86_400 < t.offset < 86_400
  }

  function DaysBeforeYear(year: int): int {
    365 * year + (year + 3) / 4 - (year + 99) / 100 + (year + 399) / 400
  }

  function DaysBeforeMonth(month: int, year: int): int
    decreases month
  {
    if month <= 1 then 0 else DaysBeforeMonth(month - 1, year) + DaysIn(month - 1, year)
  }

  function DayNumber(year: int, month: int, day: int): int {
    DaysBeforeYear(year) + DaysBeforeMonth(month, year) + day - 1
  }

  /** Nanoseconds since the start of year 0, UTC: what Postgres compares. */
  function Instant(t: Time): int {
    var days := DayNumber(t.year, t.month, t.day);
    (((days * 24 + t.hour) * 60 + t.minute) * 60 + t.second - t.offset) * 1_000_000_000 + t.nano
  }

  // ---- t.UTC() ----

  function DayAfter(t: Time): Time {
    if t.day < DaysIn(t.month, t.year) then t.(day := t.day + 1)
    else if t.month < 12 then t.(month := t.month + 1, day := 1)
    else t.(year := t.year + 1, month := 1, day := 1)
  }

  function DayBefore(t: Time): Time {
    if t.day > 1 then t.(day := t.day - 1)
    else if t.month > 1 then t.(month := t.month - 1, day := DaysIn(t.month - 1, t.year))
    else t.(year := t.year - 1, month := 12, day := 31)
  }

  /** Seconds into the day of t, as a clock in UTC counts them: below 0 it is still the day before. */
  function UTCSeconds(t: Time): int {
    (t.hour * 60 + t.minute) * 60 + t.second - t.offset
  }

  function AtSecond(t: Time, second: int): Time {
    t.(hour := second / 3600, minute := second / 60 % 60, second := second % 60, offset := 0)
  }

  /** The wall clock of the same instant in UTC. */
  function UTC(t: Time): Time {
    var s := UTCSeconds(t);
    if s < 0 then AtSecond(DayBefore(t), s + 86_400)
    else if s >= 86_400 then AtSecond(DayAfter(t), s - 86_400)
    else AtSecond(t, s)
  }

  lemma YearLength(year: int)
    ensures DaysBeforeMonth(12, year) + 31 == if IsLeap(year) then 366 else 365
    ensures DaysBeforeYear(year + 1) == DaysBeforeYear(year) + DaysBeforeMonth(12, year) + 31
  {
    assert DaysBeforeMonth(3, year) == 31 + DaysIn(2, year);
    assert DaysBeforeMonth(6, year) == DaysBeforeMonth(3, year) + 92;
    assert DaysBeforeMonth(9, year) == DaysBeforeMonth(6, year) + 92;
    assert DaysBeforeMonth(12, year) == DaysBeforeMonth(9, year) + 91;
    LeapStep(year);
  }

  lemma LeapStep(year: int)
    ensures DaysBeforeYear(year + 1) == DaysBeforeYear(year) + if IsLeap(year) then 366 else 365
  {
    Fourth(year);
    Hundredth(year);
    FourHundredth(year);
    CenturiesAreFourths(year);
  }

  lemma CenturiesAreFourths(year: int)
    ensures year % 400 == 0 ==> year % 100 == 0
    ensures year % 100 == 0 ==> year % 4 == 0
  {
    if year % 400 == 0 { HundredTimes(year, 4 * (year / 400)); }
    if year % 100 == 0 { FourTimes(year, 25 * (year / 100)); }
  }

  lemma HundredTimes(year: int, n: int)
    requires year == 100 * n
    ensures year % 100 == 0
  {}

  lemma FourTimes(year: int, n: int)
    requires year == 4 * n
    ensures year % 4 == 0
  {}

  lemma Fourth(year: int)
    ensures (year + 4) / 4 == (year + 3) / 4 + if year % 4 == 0 then 1 else 0
  {}

  lemma Hundredth(year: int)
    ensures (year + 100) / 100 == (year + 99) / 100 + if year % 100 == 0 then 1 else 0
  {}

  lemma FourHundredth(year: int)
    ensures (year + 400) / 400 == (year + 399) / 400 + if year % 400 == 0 then 1 else 0
  {}

  lemma DayAfterCounts(t: Time)
    requires Valid(t)
    ensures var n := DayAfter(t); DayNumber(n.year, n.month, n.day) == DayNumber(t.year, t.month, t.day) + 1
  {
    YearLength(t.year);
  }

  lemma DayBeforeCounts(t: Time)
    requires Valid(t)
    ensures var p := DayBefore(t); DayNumber(p.year, p.month, p.day) == DayNumber(t.year, t.month, t.day) - 1
  {
    YearLength(t.year - 1);
  }

  lemma InstantAt(t: Time, s: int)
    requires 0 <= s < 86_400
    ensures Instant(AtSecond(t, s)) == (DayNumber(t.year, t.month, t.day) * 86_400 + s) * 1_000_000_000 + t.nano
  {
    ClockOf(s);
  }

  lemma InstantByDay(t: Time)
    ensures Instant(t) == (DayNumber(t.year, t.month, t.day) * 86_400 + UTCSeconds(t)) * 1_000_000_000 + t.nano
  {}

  /** t.UTC() keeps the instant. */
  lemma UTCKeepsInstant(t: Time)
    requires Valid(t)
    ensures UTC(t).offset == 0 && Instant(UTC(t)) == Instant(t)
  {
    var s := UTCSeconds(t);
    SecondsRange(t);
    if s < 0 {
      DayBeforeCounts(t);
      SameInstant(t, DayBefore(t), -1, s + 86_400);
    } else if s >= 86_400 {
      DayAfterCounts(t);
      SameInstant(t, DayAfter(t), 1, s - 86_400);
    } else {
      SameInstant(t, t, 0, s);
    }
  }

  lemma SecondsRange(t: Time)
    requires Valid(t)
    ensures -86_400 < UTCSeconds(t) < 2 * 86_400
  {}

  /** A day some days off, and a second of it that makes up for them. */
  lemma SameInstant(t: Time, day: Time, days: int, s: int)
    requires 0 <= s < 86_400 && s == UTCSeconds(t) - days * 86_400 && day.nano == t.nano
    requires DayNumber(day.year, day.month, day.day) == DayNumber(t.year, t.month, t.day) + days
    ensures AtSecond(day, s).offset == 0 && Instant(AtSecond(day, s)) == Instant(t)
  {
    InstantByDay(t);
    InstantAt(day, s);
  }

  /** t.UTC() is a wall clock again as long as the year stays within four digits. */
  lemma UTCIsValid(t: Time)
    requires Valid(t)
    ensures 0 <= UTC(t).year <= 9999 <==> Valid(UTC(t))
  {
    var s := UTCSeconds(t);
    ClockOf(if s < 0 then s + 86_400 else if s >= 86_400 then s - 86_400 else s);
  }

  lemma ClockOf(s: int)
    requires 0 <= s < 86_400
    ensures 0 <= s / 3600 < 24 && 0 <= s / 60 % 60 < 60 && 0 <= s % 60 < 60
    ensures (s / 3600 * 60 + s / 60 % 60) * 60 + s % 60 == s
  {
    assert s / 3600 == s / 60 / 60;
    assert s / 60 == s / 60 / 60 * 60 + s / 60 % 60;
  }

  // ---- digits ----

  predicate IsDigit(c: char) {
    '0' <= c <= '9'
  }

  predicate AllDigits(s: string) {
    forall i | 0 <= i < |s| :: IsDigit(s[i])
  }

  function DigitChar(v: int): char
    requires 0 <= v < 10
  {
    ('0' as int + v) as char
  }

  function Pow10(n: nat): (p: int)
    ensures p >= 1
  {
    if n == 0 then 1 else 10 * Pow10(n - 1)
  }

  /** `v` in `width` decimal digits, with leading zeros. */
  function Pad(v: int, width: nat): (s: string)
    requires 0 <= v < Pow10(width)
    ensures |s| == width && AllDigits(s)
  {
    if width == 0 then [] else Pad(v / 10, width - 1) + [DigitChar(v % 10)]
  }

  function Number(s: string): (v: int)
    requires AllDigits(s)
    ensures 0 <= v < Pow10(|s|)
  {
    if s == [] then 0
    else
      var v := Number(s[..|s| - 1]) * 10 + (s[|s| - 1] as int - '0' as int);
      assert IsDigit(s[|s| - 1]);
      v
  }

  lemma {:induction false} NumberOfPad(v: int, width: nat)
    requires 0 <= v < Pow10(width)
    ensures Number(Pad(v, width)) == v
  {
    if width > 0 {
      NumberOfPad(v / 10, width - 1);
      assert Pad(v, width)[..width - 1] == Pad(v / 10, width - 1);
    }
  }

  // ---- the fraction ----

  function TrimZeros(s: string): (r: string)
    ensures r <= s && (r != [] ==> r[|r| - 1] != '0')
    ensures forall i | |r| <= i < |s| :: s[i] == '0'
  {
    if s != [] && s[|s| - 1] == '0' then TrimZeros(s[..|s| - 1]) else s
  }

  /** ".825023", or nothing for a whole second. */
  function Fraction(nano: int): string
    requires 0 <= nano < Pow10(9)
  {
    var digits := TrimZeros(Pad(nano, 9));
    if digits == [] then [] else "." + digits
  }

  function Zeros(n: nat): (s: string)
    ensures |s| == n && AllDigits(s) && forall i | 0 <= i < n :: s[i] == '0'
  {
    seq(n, i => '0')
  }

  /** Digits after the point as nanoseconds: the first nine count, missing ones are zero. */
  function Nanos(digits: string): int
    requires AllDigits(digits)
  {
    if |digits| >= 9 then Number(digits[..9]) else Number(digits + Zeros(9 - |digits|))
  }

  lemma NanosOfFraction(nano: int)
    requires 0 <= nano < Pow10(9)
    ensures var digits := TrimZeros(Pad(nano, 9));
            AllDigits(digits) && |digits| <= 9 && Nanos(digits) == nano
  {
    var full := Pad(nano, 9);
    var digits := TrimZeros(full);
    assert digits == full[..|digits|];
    assert digits + Zeros(9 - |digits|) == full;
    if |digits| == 9 { assert digits[..9] == full; }
    NumberOfPad(nano, 9);
  }

  // ---- the zone ----

  function AbsInt(v: int): nat {
    if v < 0 then -v else v
  }

  /** "Z", or a sign and whole minutes: seconds of the offset are dropped. */
  function Zone(offset: int): string
    requires -86_400 < offset < 86_400
  {
    if offset == 0 then "Z"
    else
      var minutes := AbsInt(offset) / 60;
      assert Pow10(2) == 100;
      (if offset < 0 && minutes > 0 then "-" else "+") + Pad(minutes / 60, 2) + ":" + Pad(minutes % 60, 2)
  }

  /** The offset in seconds. */
  function ParseZone(s: string): (r: Option<int>)
    ensures r.Some? ==> -86_400 < r.value < 86_400
  {
    if s == "Z" then Some(0)
    else if |s| == 6 && (s[0] == '-' || s[0] == '+') && s[3] == ':' && AllDigits(s[1..3]) && AllDigits(s[4..6])
    then
      var hours, minutes := Number(s[1..3]), Number(s[4..6]);
      if hours > 23 || minutes > 59 then None
      else
        var seconds := (hours * 60 + minutes) * 60;
        Some(if s[0] == '-' then -seconds else seconds)
    else None
  }

  lemma ZoneParts(sign: char, hh: string, mm: string)
    requires |hh| == 2 && |mm| == 2
    ensures var z := [sign] + hh + ":" + mm;
            |z| == 6 && z != "Z" && z[0] == sign && z[3] == ':' && z[1..3] == hh && z[4..6] == mm
  {}

  lemma ParseZoneText(z: string, h: int, m: int)
    requires |z| == 6 && (z[0] == '-' || z[0] == '+') && z[3] == ':'
    requires AllDigits(z[1..3]) && AllDigits(z[4..6]) && Number(z[1..3]) == h && Number(z[4..6]) == m
    requires 0 <= h <= 23 && 0 <= m <= 59
    ensures ParseZone(z) == Some(if z[0] == '-' then -((h * 60 + m) * 60) else (h * 60 + m) * 60)
  {}

  lemma WholeMinutes(offset: int)
    ensures var minutes := AbsInt(offset) / 60;
            && minutes / 60 * 60 + minutes % 60 == minutes
            && (minutes * 60 == AbsInt(offset) <==> offset % 60 == 0)
  {}

  /** A zone is read back exactly when its offset is a whole number of minutes. */
  lemma ParseZoneOfZone(offset: int)
    requires -86_400 < offset < 86_400
    ensures ParseZone(Zone(offset)).Some?
    ensures ParseZone(Zone(offset)).value == offset <==> offset % 60 == 0
  {
    if offset != 0 {
      var minutes := AbsInt(offset) / 60;
      var sign := if offset < 0 && minutes > 0 then '-' else '+';
      assert Pow10(2) == 100;
      WholeMinutes(offset);
      var hh, mm := Pad(minutes / 60, 2), Pad(minutes % 60, 2);
      NumberOfPad(minutes / 60, 2);
      NumberOfPad(minutes % 60, 2);
      ZoneParts(sign, hh, mm);
      ParseZoneText([sign] + hh + ":" + mm, minutes / 60, minutes % 60);
      assert Zone(offset) == [sign] + hh + ":" + mm;
    }
  }

  // ---- the whole timestamp ----

  /** The nineteen characters before the fraction. */
  function Civil(t: Time): (s: string)
    requires Valid(t)
    ensures |s| == 19
  {
    assert Pow10(4) == 10_000 && Pow10(2) == 100;
    Pad(t.year, 4) + "-" + Pad(t.month, 2) + "-" + Pad(t.day, 2)
    + "T" + Pad(t.hour, 2) + ":" + Pad(t.minute, 2) + ":" + Pad(t.second, 2)
  }

  /** t.Format(time.RFC3339Nano) */
  function Format(t: Time): string
    requires Valid(t)
  {
    assert Pow10(9) == 1_000_000_000;
    Civil(t) + (Fraction(t.nano) + Zone(t.offset))
  }

  /** A whole second, UTC. */
  function ParseCivil(s: string): (r: Option<Time>)
    requires |s| == 19
    ensures r.Some? ==> Valid(r.value)
  {
    if !(s[4] == '-' && s[7] == '-' && s[10] == 'T' && s[13] == ':' && s[16] == ':')
       || !(AllDigits(s[..4]) && AllDigits(s[5..7]) && AllDigits(s[8..10]))
       || !(AllDigits(s[11..13]) && AllDigits(s[14..16]) && AllDigits(s[17..]))
    then None
    else
      var t := Time(Number(s[..4]), Number(s[5..7]), Number(s[8..10]),
                    Number(s[11..13]), Number(s[14..16]), Number(s[17..]), 0, 0);
      if Valid(t) then Some(t) else None
  }

  /** How many digits `s` starts with. */
  function DigitRun(s: string): (n: nat)
    ensures n <= |s| && AllDigits(s[..n]) && (n < |s| ==> !IsDigit(s[n]))
  {
    if s != [] && IsDigit(s[0]) then
      var n := DigitRun(s[1..]);
      assert s[..n + 1] == [s[0]] + s[1..][..n];
      n + 1
    else 0
  }

  /** The digits after a decimal point, none when `s` does not start with a fraction. */
  function FractionDigits(s: string): (digits: string)
    ensures AllDigits(digits)
    ensures digits != [] ==> |digits| + 1 <= |s|
  {
    if |s| >= 2 && s[0] == '.' then s[1..][..DigitRun(s[1..])] else []
  }

  /** time.Parse(time.RFC3339Nano, s) */
  function Parse(s: string): Option<Time> {
    if |s| < 19 || ParseCivil(s[..19]).None? then None
    else
      var rest := s[19..];
      var digits := FractionDigits(rest);
      var zone := ParseZone(if digits == [] then rest else rest[|digits| + 1..]);
      if zone.None? then None
      else Some(ParseCivil(s[..19]).value.(nano := Nanos(digits), offset := zone.value))
  }

  lemma CivilSlices(a: string, b: string, c: string, d: string, e: string, f: string)
    requires |a| == 4 && |b| == |c| == |d| == |e| == |f| == 2
    ensures var s := a + "-" + b + "-" + c + "T" + d + ":" + e + ":" + f;
            && s[4] == '-' && s[7] == '-' && s[10] == 'T' && s[13] == ':' && s[16] == ':'
            && s[..4] == a && s[5..7] == b && s[8..10] == c && s[11..13] == d && s[14..16] == e && s[17..] == f
  {}

  lemma ParseOfCivil(t: Time)
    requires Valid(t)
    ensures ParseCivil(Civil(t)) == Some(t.(nano := 0, offset := 0))
  {
    assert Pow10(4) == 10_000 && Pow10(2) == 100;
    CivilSlices(Pad(t.year, 4), Pad(t.month, 2), Pad(t.day, 2), Pad(t.hour, 2), Pad(t.minute, 2), Pad(t.second, 2));
    NumberOfPad(t.year, 4);
    NumberOfPad(t.month, 2);
    NumberOfPad(t.day, 2);
    NumberOfPad(t.hour, 2);
    NumberOfPad(t.minute, 2);
    NumberOfPad(t.second, 2);
  }

  lemma {:induction false} DigitRunStops(digits: string, rest: string)
    requires AllDigits(digits) && (rest != [] ==> !IsDigit(rest[0]))
    ensures DigitRun(digits + rest) == |digits|
  {
    if digits != [] {
      DigitRunStops(digits[1..], rest);
      assert (digits + rest)[1..] == digits[1..] + rest;
    } else {
      assert digits + rest == rest;
    }
  }

  lemma ZoneIsNoFraction(offset: int)
    requires -86_400 < offset < 86_400
    ensures Zone(offset) != [] && !IsDigit(Zone(offset)[0]) && Zone(offset)[0] != '.'
  {}

  lemma DigitsOfFraction(digits: string, zone: string)
    requires AllDigits(digits) && digits != [] && zone != [] && !IsDigit(zone[0])
    ensures var rest := "." + digits + zone;
            FractionDigits(rest) == digits && rest[|digits| + 1..] == zone
  {
    var rest := "." + digits + zone;
    assert rest[1..] == digits + zone;
    DigitRunStops(digits, zone);
    assert (digits + zone)[..|digits|] == digits;
  }

  /** The part after the seconds is taken apart where it was put together. */
  lemma TailParses(nano: int, offset: int)
    requires 0 <= nano < Pow10(9) && -86_400 < offset < 86_400
    ensures var rest := Fraction(nano) + Zone(offset);
            var digits := FractionDigits(rest);
            Nanos(digits) == nano && (if digits == [] then rest else rest[|digits| + 1..]) == Zone(offset)
  {
    var digits := TrimZeros(Pad(nano, 9));
    var rest := Fraction(nano) + Zone(offset);
    ZoneIsNoFraction(offset);
    NanosOfFraction(nano);
    if digits == [] {
      assert rest == Zone(offset);
    } else {
      DigitsOfFraction(digits, Zone(offset));
      assert rest == "." + digits + Zone(offset);
    }
  }

  /**
   Reading a printed time gives back everything but the seconds of the zone; so it gives the same
   instant exactly when the zone is a whole number of minutes off UTC.
   */
  lemma ParseOfFormat(t: Time)
    requires Valid(t)
    ensures ParseZone(Zone(t.offset)).Some?
    ensures Parse(Format(t)) == Some(t.(offset := ParseZone(Zone(t.offset)).value))
    ensures Instant(Parse(Format(t)).value) == Instant(t) <==> t.offset % 60 == 0
  {
    ParseZoneOfZone(t.offset);
    FieldsComeBack(t);
    OffsetDecides(t, ParseZone(Zone(t.offset)).value);
  }

  lemma FieldsComeBack(t: Time)
    requires Valid(t) && ParseZone(Zone(t.offset)).Some?
    ensures Parse(Format(t)) == Some(t.(offset := ParseZone(Zone(t.offset)).value))
  {
    assert Pow10(9) == 1_000_000_000;
    var b := Fraction(t.nano) + Zone(t.offset);
    var s := Civil(t) + b;
    assert s[..19] == Civil(t) && s[19..] == b;
    ParseOfCivil(t);
    TailParses(t.nano, t.offset);
  }

  /** Two times with the same fields are the same instant if and only if their offsets are the same. */
  lemma OffsetDecides(t: Time, offset: int)
    ensures Instant(t.(offset := offset)) == Instant(t) <==> offset == t.offset
  {}

  // ---- what an instant is ----

  /** One more of each hand of the clock moves the instant by its worth in nanoseconds, a zone to the east back. */
  lemma ClockHands(t: Time)
    ensures Instant(t.(nano := t.nano + 1)) == Instant(t) + 1
    ensures Instant(t.(second := t.second + 1)) == Instant(t) + 1_000_000_000
    ensures Instant(t.(minute := t.minute + 1)) == Instant(t) + 60 * 1_000_000_000
    ensures Instant(t.(hour := t.hour + 1)) == Instant(t) + 3_600 * 1_000_000_000
    ensures Instant(t.(offset := t.offset + 1)) == Instant(t) - 1_000_000_000
  {}

  /** The day after is a day later, over months, years and leap days. */
  lemma NextDayIsLater(t: Time)
    requires Valid(t)
    ensures Instant(DayAfter(t)) == Instant(t) + 86_400 * 1_000_000_000
  {
    DayAfterCounts(t);
  }
}
