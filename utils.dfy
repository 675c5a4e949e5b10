/**
 * The date ranges the views filter by (this week, this month, this year, the last N days) and
 * the currency text.  "Now" is a parameter; `today` is now at midnight.
 */
module Utils {
  import opened Wrappers
  import opened Calendar
  import opened Digits
  import opened Models
  import opened Ledger

  datatype Range = Range(start: DateTime, end: DateTime)

  // ---------------------------------------------------------------- get_week_range

  /** Monday 00:00:00 to Sunday 23:59:59 of now's week. */
  function WeekRange(now: DateTime): (r: Range)
    requires Valid(now)
    ensures r.start.tod == 0 && Weekday(r.start.day) == 0
    ensures r.start.day <= now.day <= r.start.day + 6
    ensures r.end.day == r.start.day + 6 && r.end.tod == LastSecond
  {
    var today := StartOfDay(now);
    var start := ShiftDays(today, -Weekday(today.day));
    Range(start, DateTime(start.day + 6, LastSecond))
  }

  /** `start + timedelta(days=6, hours=23, minutes=59, seconds=59)` is the end the range reports. */
  lemma WeekEndIsPlus(now: DateTime)
    requires Valid(now)
    ensures WeekRange(now).end == Plus(WeekRange(now).start, 6 * MicrosPerDay + 23 * MicrosPerHour + 59 * MicrosPerMinute + 59 * MicrosPerSecond)
  {
    var r := WeekRange(now);
    LinearInjective(r.end, Plus(r.start, 6 * MicrosPerDay + LastSecond));
  }

  /** Now lies in its own week's range, except in the last second of Sunday after 23:59:59. */
  lemma WeekCoversNow(now: DateTime)
    requires Valid(now)
    ensures InWindow(now, WeekRange(now).start, WeekRange(now).end) <==> !(Weekday(now.day) == 6 && now.tod > LastSecond)
  {
  }

  /** Every moment of the same Monday-to-Sunday week has the same week range. */
  lemma SameWeek(now: DateTime, t: DateTime)
    requires Valid(now) && Valid(t)
    requires WeekRange(now).start.day <= t.day <= WeekRange(now).start.day + 6
    ensures WeekRange(t) == WeekRange(now)
  {
  }

  // ---------------------------------------------------------------- get_month_range

  /**
   * The first of the month 00:00:00 to its last day 23:59:59 (the next month's first minus one
   * second).  None where `replace(year=year + 1)` raises ValueError: in December of year 9999.
   */
  function MonthRange(now: DateTime): (r: Option<Range>)
    requires Valid(now)
    ensures r.None? <==> DateOf(now).year == YearLimit - 1 && DateOf(now).month == 12
    ensures r.Some? ==> r.value == Range(MonthStart(now), MonthEnd(DateOf(now).year, DateOf(now).month))
  {
    var d := DateOf(now);
    if d.month == 12 && d.year == YearLimit - 1 then None
    else Some(Range(MonthStart(now), MonthEnd(d.year, d.month)))
  }

  /** One second before midnight at the start of the month after month `m` of year `y`. */
  function MonthEnd(y: int, m: int): (e: DateTime)
    requires 1 <= y && 1 <= m <= 12
    ensures e.tod == LastSecond && e.day >= 0
    ensures e.day == DayNumber(Date(y, m, 1)) + DaysInMonth(y, m) - 1
    ensures ToDate(e.day) == Date(y, m, DaysInMonth(y, m))
    ensures e == Plus(DateTime(DayNumber(NextMonthStart(y, m)), 0), -(MicrosPerSecond as int))
  {
    var next := DateTime(DayNumber(NextMonthStart(y, m)), 0);
    LastDayOfMonth(y, m);
    NextMonthStartNumber(y, m);
    var e := DateTime(next.day - 1, LastSecond);
    LinearInjective(e, Plus(next, -(MicrosPerSecond as int)));
    e
  }

  /** The month range holds exactly the moments of now's month, up to 23:59:59 on its last day. */
  lemma MonthCovers(now: DateTime, t: DateTime)
    requires Valid(now) && t.day >= 0 && MonthRange(now).Some?
    ensures var d := DateOf(now);
            var r := MonthRange(now).value;
            InWindow(t, r.start, r.end) <==>
            (DateOf(t).year == d.year && DateOf(t).month == d.month &&
             !(DateOf(t).day == DaysInMonth(d.year, d.month) && t.tod > LastSecond))
  {
    var d := DateOf(now);
    var start := MonthStart(now);
    assert start.day == DayNumber(Date(d.year, d.month, 1));
    MonthWindow(t, d.year, d.month);
  }

  lemma MonthWindow(t: DateTime, y: int, m: int)
    requires t.day >= 0 && 1 <= y && 1 <= m <= 12
    ensures InWindow(t, DateTime(DayNumber(Date(y, m, 1)), 0), MonthEnd(y, m)) <==>
            (DateOf(t).year == y && DateOf(t).month == m &&
             !(DateOf(t).day == DaysInMonth(y, m) && t.tod > LastSecond))
  {
    var first := DayNumber(Date(y, m, 1));
    MonthOfDay(t.day, y, m);
    var e := ToDate(t.day);
    if e.year == y && e.month == m {
      assert t.day == first + e.day - 1;
    }
  }

  // ---------------------------------------------------------------- get_year_range

  /** 1 January 00:00:00 to 31 December 23:59:59 of now's year. */
  function YearRange(now: DateTime): (r: Range)
    requires Valid(now)
    ensures r.start.tod == 0 && r.start.day >= 0 && DateOf(r.start) == Date(DateOf(now).year, 1, 1)
    ensures r.end.tod == LastSecond && r.end.day >= 0 && DateOf(r.end) == Date(DateOf(now).year, 12, 31)
  {
    ValidYear(now);
    var y := DateOf(now).year;
    DateRoundTrip(Date(y, 1, 1));
    DateRoundTrip(Date(y, 12, 31));
    Range(YearStart(y), YearEnd(y))
  }

  /** The year range holds exactly the moments of now's year, up to 23:59:59 on 31 December. */
  lemma YearCovers(now: DateTime, t: DateTime)
    requires Valid(now) && t.day >= 0
    ensures var y := DateOf(now).year;
            InWindow(t, YearRange(now).start, YearRange(now).end) <==>
            (DateOf(t).year == y && !(DateOf(t).month == 12 && DateOf(t).day == 31 && t.tod > LastSecond))
  {
    ValidYear(now);
    YearWindowMembers(t, DateOf(now).year);
  }

  // ---------------------------------------------------------------- get_recent_days_range

  /** Midnight `days` days before now, to now. */
  function RecentDaysRange(now: DateTime, days: int): (r: Range)
    ensures r.start.day == now.day - days && r.start.tod == 0
    ensures r.end == now
    ensures days >= 0 ==> Le(r.start, r.end)
    ensures days < 0 ==> Lt(r.end, r.start)
  {
    Range(StartOfDay(ShiftDays(now, -days)), now)
  }

  /** The range reaches back to midnight, so it holds at least the amounts of the trailing `days`-day window. */
  lemma RecentCoversTrailing(rs: seq<IncomeRecord>, now: DateTime, days: int)
    requires AllValid(rs)
    ensures var r := RecentDaysRange(now, days);
            TrailingIncome(rs, now, days) <= WindowTotal(rs, r.start, r.end)
  {
    var r := RecentDaysRange(now, days);
    if days < 0 {
      assert TrailingIncome(rs, now, days) == 0.0;
      InvertedWindowIsEmpty(rs, r.start, r.end);
    } else {
      WindowWiden(rs, ShiftDays(now, -days), r.start, now);
    }
  }

  // ---------------------------------------------------------------- format_currency

  /**
   * `format_currency(amount, symbol)` for an amount of `cents` hundredths: a minus sign before
   * the symbol for a negative amount, then the magnitude grouped by thousands with two decimals.
   */
  function FormatCurrency(cents: int, symbol: string): (s: string)
    ensures |s| >= |symbol| + 4
    ensures cents < 0 ==> s[0] == '-' && s[1..|symbol| + 1] == symbol
    ensures cents >= 0 ==> s[..|symbol|] == symbol
    ensures s[|s| - 3] == '.' && AllDigits(s[|s| - 2..])
  {
    var m := if cents < 0 then -cents else cents;
    var body := symbol + Grouped(m / 100) + "." + Pad(m % 100, 2);
    if cents < 0 then "-" + body else body
  }

  /** Reads currency text back into hundredths: an optional '-', the symbol, grouped digits, '.', two digits. */
  function ParseCurrency(s: string, symbol: string): (r: Option<int>)
  {
    if s != [] && s[0] == '-' then
      match ParseMagnitude(s[1..], symbol)
      case None => None
      case Some(m) => Some(-m)
    else ParseMagnitude(s, symbol)
  }

  function ParseMagnitude(t: string, symbol: string): (r: Option<int>)
    ensures r.Some? ==> r.value >= 0
  {
    if |t| < |symbol| + 4 || t[..|symbol|] != symbol then None
    else
      var whole := Ungroup(t[|symbol|..|t| - 3]);
      var frac := t[|t| - 2..];
      if t[|t| - 3] != '.' || !AllDigits(whole) || !AllDigits(frac) then None
      else Some(ParseNat(whole) * 100 + ParseNat(frac))
  }

  /** The unsigned part of the text reads back as the magnitude it was made from. */
  lemma MagnitudeRoundTrip(m: nat, symbol: string)
    ensures ParseMagnitude(symbol + Grouped(m / 100) + "." + Pad(m % 100, 2), symbol) == Some(m)
  {
    var g := Grouped(m / 100);
    var p := Pad(m % 100, 2);
    var body := symbol + g + "." + p;
    assert body[..|symbol|] == symbol;
    assert body[|symbol|..|body| - 3] == g;
    assert body[|body| - 2..] == p;
    ParseGrouped(m / 100);
    ParsePad(m % 100, 2);
    assert Pow10(2) == 100;
  }

  /** The text reads back as the amount it was made from, whenever the symbol does not itself start with '-'. */
  lemma CurrencyRoundTrip(cents: int, symbol: string)
    requires symbol == [] || symbol[0] != '-'
    ensures ParseCurrency(FormatCurrency(cents, symbol), symbol) == Some(cents)
  {
    var m := if cents < 0 then -cents else cents;
    var g := Grouped(m / 100);
    var body := symbol + g + "." + Pad(m % 100, 2);
    MagnitudeRoundTrip(m, symbol);
    if cents < 0 {
      assert FormatCurrency(cents, symbol)[1..] == body;
    } else {
      assert body[0] != '-' by {
        if symbol == [] { assert body[0] == g[0]; }
      }
    }
  }
}
