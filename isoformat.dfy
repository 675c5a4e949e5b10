/**
 * `datetime.isoformat()` and the part of `datetime.fromisoformat` that reads it back:
 * "YYYY-MM-DDTHH:MM:SS", followed by ".ffffff" when the microseconds are not zero, and by a
 * "+HH:MM" offset for an aware datetime.
 */
module IsoFormat {
  import opened Wrappers
  import opened Calendar
  import opened Digits

  /** Hours, minutes, seconds and microseconds of a time of day. */
  datatype Clock = Clock(hour: nat, minute: nat, second: nat, micro: nat)

  predicate ValidClock(c: Clock) {
    c.hour < 24 && c.minute < 60 && c.second < 60 && c.micro < 1_000_000
  }

  function ClockOf(tod: TimeOfDay): (c: Clock)
    ensures ValidClock(c) && TimeOf(c) == tod
  {
    var rest := tod % MicrosPerHour;
    Clock(tod / MicrosPerHour, rest / MicrosPerMinute, rest % MicrosPerMinute / MicrosPerSecond,
          rest % MicrosPerSecond)
  }

  function TimeOf(c: Clock): TimeOfDay
    requires ValidClock(c)
  {
    c.hour * MicrosPerHour + c.minute * MicrosPerMinute + c.second * MicrosPerSecond + c.micro
  }

  lemma ClockRoundTrip(c: Clock)
    requires ValidClock(c)
    ensures ClockOf(TimeOf(c)) == c
  {
    var t := TimeOf(c);
    assert t / MicrosPerHour == c.hour;
    assert t % MicrosPerHour == c.minute * MicrosPerMinute + c.second * MicrosPerSecond + c.micro;
  }

  /** `t.isoformat()`. */
  function Format(t: DateTime): (s: string)
    requires Valid(t)
    ensures |s| == 19 || |s| == 26
  {
    ValidYear(t);
    DatePart(DateOf(t)) + "T" + ClockPart(ClockOf(t.tod))
  }

  function DatePart(d: Date): (s: string)
    requires ValidDate(d)
    ensures |s| == 10
  {
    Pad(d.year, 4) + "-" + Pad(d.month, 2) + "-" + Pad(d.day, 2)
  }

  function ClockPart(c: Clock): (s: string)
    ensures |s| == 8 || |s| == 15
  {
    Pad(c.hour, 2) + ":" + Pad(c.minute, 2) + ":" + Pad(c.second, 2)
    + (if c.micro == 0 then "" else "." + Pad(c.micro, 6))
  }

  /** The digits of `s[i..j]` as a number, or -1 when one of them is not a digit. */
  function Field(s: string, i: nat, j: nat): (v: int)
    requires i <= j <= |s|
    ensures -1 <= v < Pow10(j - i)
    ensures v >= 0 <==> AllDigits(s[i..j])
    ensures v >= 0 ==> v == ParseNat(s[i..j])
  {
    if AllDigits(s[i..j]) then ParseBound(s[i..j]); ParseNat(s[i..j]) else -1
  }

  /** The date half "YYYY-MM-DD"; None for text that is not a valid date. */
  function ParseDate(p: string): (r: Option<Date>)
    ensures r.Some? ==> ValidDate(r.value) && r.value.year < YearLimit
  {
    if |p| != 10 || p[4] != '-' || p[7] != '-' then None
    else
      var year, month, day := Field(p, 0, 4), Field(p, 5, 7), Field(p, 8, 10);
      assert Pow10(4) == 10000;
      if year < 1 || !(1 <= month <= 12) || day < 1 || day > DaysInMonth(year, month) then None
      else Some(Date(year, month, day))
  }

  /** The time half "HH:MM:SS" or "HH:MM:SS.ffffff"; None for text that is not a valid time. */
  function ParseClock(p: string): (r: Option<Clock>)
    ensures r.Some? ==> ValidClock(r.value)
  {
    if !(|p| == 8 || (|p| == 15 && p[8] == '.')) || p[2] != ':' || p[5] != ':' then None
    else
      var hour, minute, second := Field(p, 0, 2), Field(p, 3, 5), Field(p, 6, 8);
      var micro := if |p| == 15 then Field(p, 9, 15) else 0;
      if hour < 0 || minute < 0 || second < 0 || micro < 0 then None
      else if !ValidClock(Clock(hour, minute, second, micro)) then None
      else Some(Clock(hour, minute, second, micro))
  }

  /**
   * A UTC offset "+HH:MM" or "-HH:MM" in minutes, as `isoformat()` writes a whole-minute
   * offset; None where `timezone(...)` would reject it, at 24 hours or more.
   */
  function ParseOffset(z: string): (r: Option<int>)
    ensures r.Some? ==> -24 * 60 < r.value < 24 * 60
    ensures r.Some? ==> |z| == 6 && (r.value < 0 ==> z[0] == '-') && (r.value > 0 ==> z[0] == '+')
  {
    if |z| != 6 || !(z[0] == '+' || z[0] == '-') || z[3] != ':' then None
    else
      var hour, minute := Field(z, 1, 3), Field(z, 4, 6);
      if hour < 0 || minute < 0 || hour * 60 + minute >= 24 * 60 then None
      else if z[0] == '-' then Some(-(hour * 60 + minute))
      else Some(hour * 60 + minute)
  }

  /** The suffix `isoformat()` writes for an offset of `minutes`, which lies within a day. */
  function OffsetText(minutes: int): (z: string)
    requires -24 * 60 < minutes < 24 * 60
    ensures |z| == 6
  {
    var m := if minutes < 0 then -minutes else minutes;
    (if minutes < 0 then "-" else "+") + Pad(m / 60, 2) + ":" + Pad(m % 60, 2)
  }

  lemma OffsetRoundTrip(minutes: int)
    requires -24 * 60 < minutes < 24 * 60
    ensures ParseOffset(OffsetText(minutes)) == Some(minutes)
  {
    var z := OffsetText(minutes);
    var m := if minutes < 0 then -minutes else minutes;
    assert Pow10(2) == 100;
    assert z[1..3] == Pad(m / 60, 2) && z[4..6] == Pad(m % 60, 2);
    PadField(z, 1, m / 60, 2);
    PadField(z, 4, m % 60, 2);
  }

  /**
   * `datetime.fromisoformat(s)` for text in the shape `isoformat()` writes, with or without a
   * "+HH:MM" offset; None is a ValueError.  The result is the wall-clock time the text names;
   * the offset is checked but not kept, since a `DateTime` has no time zone.
   */
  function Parse(s: string): (r: Option<DateTime>)
    ensures r.Some? ==> Valid(r.value)
  {
    if |s| < 11 || s[10] != 'T' then None
    else
      var tail := s[11..];
      var clock := if |tail| == 14 || |tail| == 21 then tail[..|tail| - 6] else tail;
      var zone := if |tail| == 14 || |tail| == 21 then Some(tail[|tail| - 6..]) else None;
      if zone.Some? && ParseOffset(zone.value).None? then None
      else
        match (ParseDate(s[..10]), ParseClock(clock))
        case (Some(d), Some(c)) =>
          YearLimitBound(d);
          Some(DateTime(DayNumber(d), TimeOf(c)))
        case _ => None
  }

  lemma YearLimitBound(d: Date)
    requires ValidDate(d) && d.year < YearLimit
    ensures DayNumber(d) < DaysBeforeYear(YearLimit)
  {
    YearStep(d.year);
    MonthStep(d.year, d.month);
    YearsIncrease(d.year + 1, YearLimit);
  }

  lemma DateRoundTripText(d: Date)
    requires ValidDate(d) && d.year < YearLimit
    ensures ParseDate(DatePart(d)) == Some(d)
  {
    var p := DatePart(d);
    assert Pow10(4) == 10000 && Pow10(2) == 100;
    PadField(p, 0, d.year, 4);
    PadField(p, 5, d.month, 2);
    PadField(p, 8, d.day, 2);
  }

  lemma ClockRoundTripText(c: Clock)
    requires ValidClock(c)
    ensures ParseClock(ClockPart(c)) == Some(c)
  {
    var p := ClockPart(c);
    ClockLayout(c);
    assert Pow10(6) == 1_000_000 && Pow10(2) == 100;
    PadField(p, 0, c.hour, 2);
    PadField(p, 3, c.minute, 2);
    PadField(p, 6, c.second, 2);
    if c.micro != 0 {
      PadField(p, 9, c.micro, 6);
    }
  }

  /** Reading back what `isoformat()` wrote gives the same datetime. */
  lemma RoundTrip(t: DateTime)
    requires Valid(t)
    ensures Parse(Format(t)) == Some(t)
  {
    ValidYear(t);
    var d, c := DateOf(t), ClockOf(t.tod);
    var s := Format(t);
    assert s[..10] == DatePart(d);
    assert s[11..] == ClockPart(c);
    DateRoundTripText(d);
    ClockRoundTripText(c);
    DateRoundTrip(d);
  }

  /**
   * Reading back what `isoformat()` writes for an aware datetime: the offset suffix is
   * accepted and the wall-clock time comes back unchanged.
   */
  lemma ZonedRoundTrip(t: DateTime, minutes: int)
    requires Valid(t) && -24 * 60 < minutes < 24 * 60
    ensures Parse(Format(t) + OffsetText(minutes)) == Some(t)
  {
    ValidYear(t);
    OffsetRoundTrip(minutes);
    ParseZoned(DatePart(DateOf(t)), ClockPart(ClockOf(t.tod)), OffsetText(minutes));
    RoundTrip(t);
  }

  /** A well-formed offset after the time changes nothing in what `Parse` reads. */
  lemma ParseZoned(date: string, clock: string, z: string)
    requires |date| == 10 && (|clock| == 8 || |clock| == 15) && ParseOffset(z).Some?
    ensures Parse(date + "T" + clock + z) == Parse(date + "T" + clock)
  {
    var s, plain := date + "T" + clock + z, date + "T" + clock;
    assert s[..10] == date == plain[..10];
    assert s[10] == 'T' == plain[10];
    var tail := s[11..];
    assert tail == clock + z;
    assert tail[..|tail| - 6] == clock == plain[11..];
    assert tail[|tail| - 6..] == z;
  }

  /** Where `ClockPart` puts each field and separator. */
  lemma ClockLayout(c: Clock)
    ensures var p := ClockPart(c);
            p[0..2] == Pad(c.hour, 2) && p[2] == ':' && p[3..5] == Pad(c.minute, 2) && p[5] == ':' &&
            p[6..8] == Pad(c.second, 2) && (|p| == 8 <==> c.micro == 0) &&
            (c.micro != 0 ==> p[8] == '.' && p[9..15] == Pad(c.micro, 6))
  {
    var h, m, s := Pad(c.hour, 2), Pad(c.minute, 2), Pad(c.second, 2);
    var head := h + ":" + m + ":" + s;
    assert head[0..2] == h && head[3..5] == m && head[6..8] == s;
    if c.micro != 0 {
      var tail := "." + Pad(c.micro, 6);
      assert (head + tail)[..8] == head && (head + tail)[8..] == tail;
    }
  }

  lemma PadField(s: string, i: nat, n: nat, w: nat)
    requires i + w <= |s| && s[i..i + w] == Pad(n, w) && n < Pow10(w)
    ensures Field(s, i, i + w) == n
  {
    ParsePad(n, w);
  }
}
