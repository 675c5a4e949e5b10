/**
 * `get_daily_trend(days)`: per-day sums over the trailing window, gap-filled into a complete
 * day-by-day calendar from the window's start to now.
 */
module Trend {
  import opened Calendar
  import opened Models
  import opened Ledger
  import Iso = IsoFormat

  /** How the grouped query names the day of a stored timestamp. */
  datatype DayKey =
    | UtcDay    // `strftime('%Y-%m-%d', date)` as SQLite evaluates "+08:00" text: the UTC day
    | LocalDay  // the day the stored text names, `substr(date, 1, 10)`, as the labels do

  function KeyOf(k: DayKey, t: DateTime): int {
    match k
    case UtcDay => SqlDay(t)
    case LocalDay => t.day
  }

  /** The sum of the amounts dated inside the window whose day, under key `k`, is `d`. */
  function DaySum(rs: seq<IncomeRecord>, lo: DateTime, hi: DateTime, d: int, k: DayKey): (s: real)
    ensures AllValid(rs) ==> s >= 0.0
  {
    if rs == [] then 0.0
    else (if InWindow(rs[0].date, lo, hi) && KeyOf(k, rs[0].date) == d then rs[0].amount else 0.0)
         + DaySum(rs[1..], lo, hi, d, k)
  }

  /** A day without records in the window sums to 0. */
  lemma {:induction false} EmptyDaySum(rs: seq<IncomeRecord>, lo: DateTime, hi: DateTime, d: int, k: DayKey)
    requires forall i :: 0 <= i < |rs| ==> !(InWindow(rs[i].date, lo, hi) && KeyOf(k, rs[i].date) == d)
    ensures DaySum(rs, lo, hi, d, k) == 0.0
  {
    if rs != [] {
      assert !(InWindow(rs[0].date, lo, hi) && KeyOf(k, rs[0].date) == d);
      EmptyDaySum(rs[1..], lo, hi, d, k);
    }
  }

  /** The `GROUP BY day` query turned into a dict, each day, named by key `k`, mapping to its sum. */
  function DaySums(rs: seq<IncomeRecord>, lo: DateTime, hi: DateTime, k: DayKey): (m: map<int, real>)
    ensures forall d :: d in m ==> m[d] == DaySum(rs, lo, hi, d, k)
  {
    map d | d in (set i | 0 <= i < |rs| && InWindow(rs[i].date, lo, hi) :: KeyOf(k, rs[i].date)) :: DaySum(rs, lo, hi, d, k)
  }

  /** A day is a key exactly when some record of the window falls on it. */
  lemma DaySumsKeys(rs: seq<IncomeRecord>, lo: DateTime, hi: DateTime, d: int, k: DayKey)
    ensures d in DaySums(rs, lo, hi, k) <==>
            exists i :: 0 <= i < |rs| && InWindow(rs[i].date, lo, hi) && KeyOf(k, rs[i].date) == d
  {
  }

  /** `data.get(d, 0.0)`. */
  function Get(data: map<int, real>, d: int): real {
    if d in data then data[d] else 0.0
  }

  /** A day missing from the dict has no records in the window, so `get` with 0.0 gives its sum. */
  lemma GapIsZero(rs: seq<IncomeRecord>, lo: DateTime, hi: DateTime, d: int, k: DayKey)
    ensures Get(DaySums(rs, lo, hi, k), d) == DaySum(rs, lo, hi, d, k)
  {
    DaySumsKeys(rs, lo, hi, d, k);
    if d !in DaySums(rs, lo, hi, k) {
      EmptyDaySum(rs, lo, hi, d, k);
    }
  }

  /** `strftime('%Y-%m-%d')` of a datetime on day number `d`. */
  function DayText(d: nat): (s: string)
    ensures |s| == 10
  {
    Iso.DatePart(ToDate(d))
  }

  /**
   * The trend's loop over a query keyed by `k`: `start = now - days`, the grouped query, then
   * one entry per day while `current <= now`, each the day's label and the dict's sum for that
   * label, or 0.0.
   */
  method TrendBy(rs: seq<IncomeRecord>, now: DateTime, days: int, k: DayKey) returns (dates: seq<string>, values: seq<real>)
    requires Valid(ShiftDays(now, -days)) && Valid(ShiftDays(now, 1))
    ensures |dates| == |values| == (if days >= 0 then days + 1 else 0)
    ensures dates == Labels(DayText, now.day - days, |dates|)
    ensures values == Sums(rs, ShiftDays(now, -days), now, ShiftDays(now, -days).day, |values|, k)
  {
    var start := ShiftDays(now, -days);
    var data := QueryDays(rs, start, now, k);
    dates, values := FillDays(data, start, now, DayText);
    SumsColumn(rs, start, now, data, start.day, |values|, k);
  }

  /** The trend as written, grouped by SQLite's `strftime('%Y-%m-%d', date)`. */
  method DailyTrend(rs: seq<IncomeRecord>, now: DateTime, days: int) returns (dates: seq<string>, values: seq<real>)
    requires Valid(ShiftDays(now, -days)) && Valid(ShiftDays(now, 1))
    ensures |dates| == |values| == (if days >= 0 then days + 1 else 0)
    ensures dates == Labels(DayText, now.day - days, |dates|)
    ensures values == Sums(rs, ShiftDays(now, -days), now, ShiftDays(now, -days).day, |values|, UtcDay)
  {
    dates, values := TrendBy(rs, now, days, UtcDay);
  }

  /**
   * The trend grouped by the day the stored text names, `substr(date, 1, 10)`, which is the
   * day the labels show; its values then add up to the window's total.
   */
  method DailyTrendByLocalDay(rs: seq<IncomeRecord>, now: DateTime, days: int) returns (dates: seq<string>, values: seq<real>)
    requires Valid(ShiftDays(now, -days)) && Valid(ShiftDays(now, 1))
    ensures |dates| == |values| == (if days >= 0 then days + 1 else 0)
    ensures dates == Labels(DayText, now.day - days, |dates|)
    ensures values == Sums(rs, ShiftDays(now, -days), now, ShiftDays(now, -days).day, |values|, LocalDay)
    ensures days >= 0 ==> SumSeq(values) == WindowTotal(rs, ShiftDays(now, -days), now)
  {
    dates, values := TrendBy(rs, now, days, LocalDay);
    LocalTrendTotal(rs, now, days, values);
  }

  /** Grouped by the stored day, the day sums of the trend's days add up to the window's total. */
  lemma LocalTrendTotal(rs: seq<IncomeRecord>, now: DateTime, days: int, values: seq<real>)
    requires |values| == (if days >= 0 then days + 1 else 0)
    requires values == Sums(rs, ShiftDays(now, -days), now, ShiftDays(now, -days).day, |values|, LocalDay)
    ensures days >= 0 ==> SumSeq(values) == WindowTotal(rs, ShiftDays(now, -days), now)
  {
    if days >= 0 {
      SumOfSums(rs, ShiftDays(now, -days), now, now.day - days, days + 1, LocalDay);
      TrendAddsUp(rs, now, days);
    }
  }

  /** The sum of a sequence of values. */
  function SumSeq(s: seq<real>): real {
    if s == [] then 0.0 else SumSeq(s[..|s| - 1]) + s[|s| - 1]
  }

  /** The values of the day sums add up to the sum of the day sums. */
  lemma {:induction false} SumOfSums(rs: seq<IncomeRecord>, lo: DateTime, hi: DateTime, d0: int, n: nat, k: DayKey)
    ensures SumSeq(Sums(rs, lo, hi, d0, n, k)) == SumDays(rs, lo, hi, d0, n, k)
  {
    if n > 0 {
      var s := Sums(rs, lo, hi, d0, n, k);
      assert s[..n - 1] == Sums(rs, lo, hi, d0, n - 1, k);
      SumOfSums(rs, lo, hi, d0, n - 1, k);
    }
  }

  /** The day sums of `n` consecutive days from day `d0`. */
  function Sums(rs: seq<IncomeRecord>, lo: DateTime, hi: DateTime, d0: int, n: nat, k: DayKey): (s: seq<real>)
    ensures |s| == n
  {
    if n == 0 then [] else Sums(rs, lo, hi, d0, n - 1, k) + [DaySum(rs, lo, hi, d0 + n - 1, k)]
  }

  /** Entry `j` of the sums is the sum of the records of day `d0 + j`. */
  lemma {:induction false} SumsAt(rs: seq<IncomeRecord>, lo: DateTime, hi: DateTime, d0: int, n: nat, j: nat, k: DayKey)
    requires j < n
    ensures Sums(rs, lo, hi, d0, n, k)[j] == DaySum(rs, lo, hi, d0 + j, k)
  {
    if j < n - 1 {
      SumsAt(rs, lo, hi, d0, n - 1, j, k);
    }
  }

  /** Gap-filling a dict that holds every day's sum yields the day sums themselves. */
  lemma {:induction false} SumsColumn(rs: seq<IncomeRecord>, lo: DateTime, hi: DateTime, data: map<int, real>, d0: int, n: nat, k: DayKey)
    requires forall d :: Get(data, d) == DaySum(rs, lo, hi, d, k)
    ensures Column(data, d0, n) == Sums(rs, lo, hi, d0, n, k)
  {
    if n > 0 {
      SumsColumn(rs, lo, hi, data, d0, n - 1, k);
    }
  }

  /** The labels of `n` consecutive days from day `d0`. */
  function Labels(render: nat -> string, d0: nat, n: nat): (s: seq<string>)
    ensures |s| == n
  {
    if n == 0 then [] else Labels(render, d0, n - 1) + [render(d0 + n - 1)]
  }

  /** `data.get(day, 0.0)` for `n` consecutive days from day `d0`. */
  function Column(data: map<int, real>, d0: int, n: nat): (s: seq<real>)
    ensures |s| == n
  {
    if n == 0 then [] else Column(data, d0, n - 1) + [Get(data, d0 + n - 1)]
  }

  /** Label `k` is the label of day `d0 + k`: the dates ascend one day at a time. */
  lemma {:induction false} LabelsAt(render: nat -> string, d0: nat, n: nat, k: nat)
    requires k < n
    ensures Labels(render, d0, n)[k] == render(d0 + k)
  {
    if k < n - 1 {
      LabelsAt(render, d0, n - 1, k);
    }
  }

  lemma {:induction false} ColumnAt(data: map<int, real>, d0: int, n: nat, k: nat)
    requires k < n
    ensures Column(data, d0, n)[k] == Get(data, d0 + k)
  {
    if k < n - 1 {
      ColumnAt(data, d0, n - 1, k);
    }
  }

  /**
   * The `while current <= end_date` loop: one label (`render` renders a day) and one
   * `data.get(day, 0.0)` per day.
   */
  method FillDays(data: map<int, real>, start: DateTime, now: DateTime, render: nat -> string)
    returns (dates: seq<string>, values: seq<real>)
    requires start.day >= 0 && start.tod == now.tod
    ensures var n := if start.day <= now.day then now.day - start.day + 1 else 0;
            dates == Labels(render, start.day, n) && values == Column(data, start.day, n)
  {
    dates, values := [], [];
    var current := start;
    while Le(current, now)
      invariant current == DateTime(start.day + |dates|, now.tod)
      invariant start.day <= now.day ==> |dates| <= now.day - start.day + 1
      invariant start.day > now.day ==> dates == []
      invariant dates == Labels(render, start.day, |dates|) && values == Column(data, start.day, |dates|)
      decreases now.day - current.day + 1
    {
      dates := dates + [render(current.day)];
      values := values + [Get(data, current.day)];
      current := DateTime(current.day + 1, current.tod);
    }
  }

  /** The grouped query, days named by key `k`, and `data = {day: sum for day, sum in rows}`. */
  method QueryDays(rs: seq<IncomeRecord>, lo: DateTime, hi: DateTime, k: DayKey) returns (data: map<int, real>)
    ensures forall d :: Get(data, d) == DaySum(rs, lo, hi, d, k)
  {
    data := DaySums(rs, lo, hi, k);
    forall d | true ensures Get(data, d) == DaySum(rs, lo, hi, d, k) {
      GapIsZero(rs, lo, hi, d, k);
    }
  }

  /** The sum of the day sums of `n` consecutive days from day `d0`. */
  function SumDays(rs: seq<IncomeRecord>, lo: DateTime, hi: DateTime, d0: int, n: nat, k: DayKey): real {
    if n == 0 then 0.0 else SumDays(rs, lo, hi, d0, n - 1, k) + DaySum(rs, lo, hi, d0 + n - 1, k)
  }

  lemma {:induction false} SumDaysHead(rs: seq<IncomeRecord>, lo: DateTime, hi: DateTime, d0: int, n: nat, k: DayKey)
    requires rs != []
    ensures SumDays(rs, lo, hi, d0, n, k) ==
            (if InWindow(rs[0].date, lo, hi) && d0 <= KeyOf(k, rs[0].date) < d0 + n then rs[0].amount else 0.0)
            + SumDays(rs[1..], lo, hi, d0, n, k)
  {
    if n > 0 {
      SumDaysHead(rs, lo, hi, d0, n - 1, k);
    }
  }

  lemma {:induction false} SumDaysEmpty(lo: DateTime, hi: DateTime, d0: int, n: nat, k: DayKey)
    ensures SumDays([], lo, hi, d0, n, k) == 0.0
  {
    if n > 0 {
      SumDaysEmpty(lo, hi, d0, n - 1, k);
    }
  }

  /**
   * Grouped by the day the stored text names, the trend misses nothing and counts nothing
   * twice: its values add up to the total of the window from `now - days` to `now`.
   */
  lemma {:induction false} TrendAddsUp(rs: seq<IncomeRecord>, now: DateTime, days: int)
    requires days >= 0
    ensures SumDays(rs, ShiftDays(now, -days), now, now.day - days, days + 1, LocalDay)
            == WindowTotal(rs, ShiftDays(now, -days), now)
  {
    if rs != [] {
      var lo := ShiftDays(now, -days);
      TrendAddsUp(rs[1..], now, days);
      SumDaysHead(rs, lo, now, now.day - days, days + 1, LocalDay);
      assert InWindow(rs[0].date, lo, now) ==> now.day - days <= rs[0].date.day < now.day - days + (days + 1);
    } else {
      SumDaysEmpty(ShiftDays(now, -days), now, now.day - days, days + 1, LocalDay);
    }
  }

  /**
   * As written, a record stored before 08:00 is counted under the previous day's label: a
   * record dated at midnight, as the form writes every date, adds nothing to its own day and
   * all of its amount to the day before.
   */
  lemma EarlyRecordShifts(r: IncomeRecord, lo: DateTime, hi: DateTime)
    requires InWindow(r.date, lo, hi) && r.date.tod < 8 * MicrosPerHour && r.amount != 0.0
    ensures DaySum([r], lo, hi, r.date.day, UtcDay) == 0.0
    ensures DaySum([r], lo, hi, r.date.day - 1, UtcDay) == r.amount
    ensures DaySum([r], lo, hi, r.date.day, LocalDay) == r.amount
  {
    assert [r][1..] == [];
  }

  /**
   * As written, the trend can miss a record of its window: one stored on the window's first
   * day before 08:00 (possible when now is before 08:00) is keyed to the day before the first
   * label, so the values add up to less than the window's total.
   */
  lemma TrendMissesEarlyFirstDay(r: IncomeRecord, now: DateTime, days: int)
    requires days >= 1 && r.amount > 0.0
    requires r.date.day == now.day - days && now.tod <= r.date.tod < 8 * MicrosPerHour
    ensures WindowTotal([r], ShiftDays(now, -days), now) == r.amount
    ensures SumDays([r], ShiftDays(now, -days), now, now.day - days, days + 1, UtcDay) == 0.0
  {
    var lo := ShiftDays(now, -days);
    assert [r][1..] == [];
    assert InWindow(r.date, lo, now);
    SumDaysHead([r], lo, now, now.day - days, days + 1, UtcDay);
    SumDaysEmpty(lo, now, now.day - days, days + 1, UtcDay);
  }
}
