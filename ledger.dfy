/**
 * The aggregation engine: the SQL aggregates of the income ledger, stated over a snapshot of
 * the `income_records` table (a sequence of records in table order).
 */
module Ledger {
  import opened Wrappers
  import opened Calendar
  import opened Models

  predicate AllValid(rs: seq<IncomeRecord>) {
    forall i :: 0 <= i < |rs| ==> ValidAmount(rs[i])
  }

  /** `lo <= t <= hi`, both ends inclusive. */
  predicate InWindow(t: DateTime, lo: DateTime, hi: DateTime) {
    Le(lo, t) && Le(t, hi)
  }

  // ---------------------------------------------------------------- sums

  /** `SELECT COALESCE(SUM(amount), 0)`: the sum of all amounts, 0 for no rows. */
  function Total(rs: seq<IncomeRecord>): (s: real)
    ensures AllValid(rs) ==> s >= 0.0
  {
    if rs == [] then 0.0 else rs[0].amount + Total(rs[1..])
  }

  /** `... WHERE date >= lo AND date <= hi`: the sum of the amounts dated inside the window. */
  function WindowTotal(rs: seq<IncomeRecord>, lo: DateTime, hi: DateTime): (s: real)
    ensures (forall i :: 0 <= i < |rs| ==> !InWindow(rs[i].date, lo, hi)) ==> s == 0.0
    ensures AllValid(rs) ==> 0.0 <= s <= Total(rs)
  {
    if rs == [] then 0.0
    else (if InWindow(rs[0].date, lo, hi) then rs[0].amount else 0.0) + WindowTotal(rs[1..], lo, hi)
  }

  /** The records dated inside the window, in table order. */
  function Window(rs: seq<IncomeRecord>, lo: DateTime, hi: DateTime): (ws: seq<IncomeRecord>)
    ensures forall r :: r in ws <==> r in rs && InWindow(r.date, lo, hi)
    ensures |ws| <= |rs|
  {
    if rs == [] then []
    else (if InWindow(rs[0].date, lo, hi) then [rs[0]] else []) + Window(rs[1..], lo, hi)
  }

  /** The windowed SUM equals the sum of the amounts of the records a query of the window fetches. */
  lemma {:induction false} WindowTotalIsFetchedSum(rs: seq<IncomeRecord>, lo: DateTime, hi: DateTime)
    ensures WindowTotal(rs, lo, hi) == Total(Window(rs, lo, hi))
  {
    if rs != [] {
      WindowTotalIsFetchedSum(rs[1..], lo, hi);
      var head := if InWindow(rs[0].date, lo, hi) then [rs[0]] else [];
      TotalAppend(head, Window(rs[1..], lo, hi));
      assert [rs[0]][1..] == [];
      assert Total(head) == if InWindow(rs[0].date, lo, hi) then rs[0].amount else 0.0;
    }
  }

  lemma {:induction false} TotalAppend(a: seq<IncomeRecord>, b: seq<IncomeRecord>)
    ensures Total(a + b) == Total(a) + Total(b)
  {
    if a != [] {
      assert (a + b)[0] == a[0];
      assert (a + b)[1..] == a[1..] + b;
      TotalAppend(a[1..], b);
    } else {
      assert a + b == b;
    }
  }

  /** Removing the record at `k` takes exactly its amount off the total. */
  lemma {:induction false} TotalRemove(s: seq<IncomeRecord>, k: nat)
    requires k < |s|
    ensures Total(s) == s[k].amount + Total(s[..k] + s[k + 1..])
  {
    if k > 0 {
      TotalRemove(s[1..], k - 1);
      assert s[1..][..k - 1] + s[1..][k..] == (s[..k] + s[k + 1..])[1..];
    } else {
      assert s[..k] + s[k + 1..] == s[1..];
    }
  }

  /** The totals do not depend on the order in which the table keeps its rows. */
  lemma {:induction false} TotalPermutation(a: seq<IncomeRecord>, b: seq<IncomeRecord>)
    requires multiset(a) == multiset(b)
    ensures Total(a) == Total(b)
  {
    if a != [] {
      var k := IndexOf(b, a[0]);
      RemoveMatching(a, b, k);
      TotalPermutation(a[1..], b[..k] + b[k + 1..]);
      TotalRemove(b, k);
    }
  }

  lemma IndexOf<T>(s: seq<T>, x: T) returns (k: nat)
    requires x in multiset(s)
    ensures k < |s| && s[k] == x
  {
    assert x in s;
    k :| 0 <= k < |s| && s[k] == x;
  }

  /** Taking the same element off two permutations of each other leaves permutations. */
  lemma RemoveMatching<T>(a: seq<T>, b: seq<T>, k: nat)
    requires multiset(a) == multiset(b) && a != [] && k < |b| && b[k] == a[0]
    ensures multiset(a[1..]) == multiset(b[..k] + b[k + 1..])
  {
    MultisetRemove(b, k);
    MultisetRemove(a, 0);
    assert a[..0] + a[1..] == a[1..];
  }

  lemma MultisetRemove<T>(s: seq<T>, k: int)
    requires 0 <= k < |s|
    ensures multiset(s[..k] + s[k + 1..]) == multiset(s) - multiset{s[k]}
  {
    assert s == s[..k] + [s[k]] + s[k + 1..];
    assert multiset(s) == multiset(s[..k]) + multiset{s[k]} + multiset(s[k + 1..]);
  }

  /** Splitting a window just after `mid` splits its total: sums over adjacent windows add up. */
  lemma {:induction false} WindowSplit(rs: seq<IncomeRecord>, lo: DateTime, mid: DateTime, hi: DateTime)
    ensures WindowTotal(rs, lo, hi) ==
            WindowTotal(rs, lo, mid) + WindowTotal(rs, Plus(mid, 1), hi)
      || !(Le(lo, mid) && Lt(mid, hi))
  {
    if rs != [] && Le(lo, mid) && Lt(mid, hi) {
      var t := rs[0].date;
      LeIsLinear(lo, t); LeIsLinear(t, hi); LeIsLinear(t, mid); LeIsLinear(Plus(mid, 1), t);
      LeIsLinear(lo, mid); LeIsLinear(mid, hi);
      WindowSplit(rs[1..], lo, mid, hi);
    }
  }

  // ---------------------------------------------------------------- calendar windows

  /** `datetime(year, 1, 1)`. */
  function YearStart(year: int): DateTime
    requires 1 <= year < YearLimit
  {
    DateTime(DayNumber(Date(year, 1, 1)), 0)
  }

  /** `datetime(year, 12, 31, 23, 59, 59)`. */
  function YearEnd(year: int): DateTime
    requires 1 <= year < YearLimit
  {
    DateTime(DayNumber(Date(year, 12, 31)), LastSecond)
  }

  /**
   * `get_yearly_income(year)`: None where `datetime(year, 1, 1)` raises ValueError (the year
   * is outside 1..9999).
   */
  function YearlyIncome(rs: seq<IncomeRecord>, year: int): (r: Option<real>)
    ensures r.None? <==> !(1 <= year < YearLimit)
    ensures r.Some? && AllValid(rs) ==> 0.0 <= r.value <= Total(rs)
  {
    if 1 <= year < YearLimit then Some(WindowTotal(rs, YearStart(year), YearEnd(year))) else None
  }

  /** A timestamp lies in year `y`'s window iff its calendar year is `y`, except after 23:59:59 on 31 December. */
  lemma YearWindowMembers(t: DateTime, y: int)
    requires t.day >= 0 && 1 <= y < YearLimit
    ensures InWindow(t, YearStart(y), YearEnd(y)) <==>
            (DateOf(t).year == y && !(DateOf(t).month == 12 && DateOf(t).day == 31 && t.tod > LastSecond))
  {
    MonthStep(y, 12);
    YearStep(y);
    assert YearStart(y).day == DaysBeforeYear(y);
    assert YearEnd(y).day == DaysBeforeYear(y + 1) - 1;
    YearOfDay(t.day, y);
    if DateOf(t).year == y {
      LastDayOfYear(t.day, y);
    }
  }

  lemma YearOfDay(n: int, y: int)
    requires n >= 0 && y >= 1
    ensures ToDate(n).year == y <==> DaysBeforeYear(y) <= n < DaysBeforeYear(y + 1)
  {
    var d := ToDate(n);
    InYear(d);
    if DaysBeforeYear(y) <= n < DaysBeforeYear(y + 1) {
      SameYear(n, y, d.year);
    }
  }

  lemma LastDayOfYear(n: int, y: int)
    requires n >= 0 && y >= 1 && ToDate(n).year == y
    ensures (ToDate(n).month == 12 && ToDate(n).day == 31) <==> n == DaysBeforeYear(y + 1) - 1
  {
    LastDayNumber(y);
    DateRoundTrip(Date(y, 12, 31));
  }

  lemma LastDayNumber(y: int)
    requires y >= 1
    ensures ValidDate(Date(y, 12, 31)) && DayNumber(Date(y, 12, 31)) == DaysBeforeYear(y + 1) - 1
  {
    MonthStep(y, 12);
    YearStep(y);
  }

  /** A ledger whose every record falls in year `y` (before 23:59:59 on 31 December) yields its whole total. */
  lemma {:induction false} YearlyIncomeOfOneYear(rs: seq<IncomeRecord>, y: int)
    requires 1 <= y < YearLimit
    requires forall i :: 0 <= i < |rs| ==>
               rs[i].date.day >= 0 && DateOf(rs[i].date).year == y && rs[i].date.tod <= LastSecond
    ensures YearlyIncome(rs, y) == Some(Total(rs))
  {
    if rs != [] {
      YearWindowMembers(rs[0].date, y);
      YearlyIncomeOfOneYear(rs[1..], y);
    }
  }

  /** Records of other years never count towards year `y`. */
  lemma YearlyIncomeOfOtherYears(rs: seq<IncomeRecord>, y: int)
    requires 1 <= y < YearLimit
    requires forall i :: 0 <= i < |rs| ==> rs[i].date.day >= 0 && DateOf(rs[i].date).year != y
    ensures YearlyIncome(rs, y) == Some(0.0)
  {
    forall i | 0 <= i < |rs| ensures !InWindow(rs[i].date, YearStart(y), YearEnd(y)) {
      YearWindowMembers(rs[i].date, y);
    }
  }

  /** `get_monthly_income(days)`: the window `[now - days, now]`. */
  function TrailingIncome(rs: seq<IncomeRecord>, now: DateTime, days: int): (s: real)
    ensures days < 0 ==> s == 0.0
    ensures AllValid(rs) ==> 0.0 <= s <= Total(rs)
  {
    var start := ShiftDays(now, -days);
    if days < 0 then InvertedWindowIsEmpty(rs, start, now); WindowTotal(rs, start, now)
    else WindowTotal(rs, start, now)
  }

  lemma InvertedWindowIsEmpty(rs: seq<IncomeRecord>, lo: DateTime, hi: DateTime)
    requires Lt(hi, lo)
    ensures forall i :: 0 <= i < |rs| ==> !InWindow(rs[i].date, lo, hi)
  {
    forall i | 0 <= i < |rs| ensures !InWindow(rs[i].date, lo, hi) {
      LeIsLinear(lo, rs[i].date);
      LeIsLinear(rs[i].date, hi);
      LeIsLinear(hi, lo);
      LeIsLinear(lo, hi);
    }
  }

  /** A longer trailing window never sums to less. */
  lemma {:induction false} TrailingMonotone(rs: seq<IncomeRecord>, now: DateTime, d1: int, d2: int)
    requires AllValid(rs) && d1 <= d2
    ensures TrailingIncome(rs, now, d1) <= TrailingIncome(rs, now, d2)
  {
    WindowWiden(rs, ShiftDays(now, -d1), ShiftDays(now, -d2), now);
  }

  lemma {:induction false} WindowWiden(rs: seq<IncomeRecord>, lo: DateTime, lo2: DateTime, hi: DateTime)
    requires AllValid(rs) && Le(lo2, lo)
    ensures WindowTotal(rs, lo, hi) <= WindowTotal(rs, lo2, hi)
  {
    if rs != [] {
      LeIsLinear(lo2, lo); LeIsLinear(lo, rs[0].date); LeIsLinear(lo2, rs[0].date);
      WindowWiden(rs[1..], lo, lo2, hi);
    }
  }

  // ---------------------------------------------------------------- daily average

  /**
   * `DATE(date)` of a stored timestamp.  The table holds `isoformat()` text ending in "+08:00";
   * SQLite subtracts that offset and names the UTC day, the day of the moment eight hours
   * earlier, so a time before 08:00 falls on the previous day.
   */
  function SqlDay(t: DateTime): int {
    if t.tod >= 8 * MicrosPerHour then t.day else t.day - 1
  }

  /** `SqlDay` is the day of the same moment eight hours earlier. */
  lemma SqlDayIsUtcDay(t: DateTime)
    ensures SqlDay(t) == Plus(t, -8 * MicrosPerHour).day
  {
    var earlier := if t.tod >= 8 * MicrosPerHour then DateTime(t.day, t.tod - 8 * MicrosPerHour)
                   else DateTime(t.day - 1, t.tod + 16 * MicrosPerHour);
    LinearInjective(earlier, Plus(t, -8 * MicrosPerHour));
  }

  /** `DATE(date)` of every record: the days, as SQLite names them, that have at least one record. */
  function DistinctDays(rs: seq<IncomeRecord>): set<int> {
    set i | 0 <= i < |rs| :: SqlDay(rs[i].date)
  }

  /** `get_daily_average()`: the total over the number of distinct record days, 0 for an empty table. */
  function DailyAverage(rs: seq<IncomeRecord>): (a: real)
    ensures rs == [] ==> a == 0.0
    ensures rs != [] ==> |DistinctDays(rs)| > 0 && a * (|DistinctDays(rs)| as real) == Total(rs)
    ensures AllValid(rs) ==> a >= 0.0
  {
    assert rs != [] ==> SqlDay(rs[0].date) in DistinctDays(rs);
    Mean(Total(rs), |DistinctDays(rs)|)
  }

  /** `total / days`, guarded: 0 when there are no days. */
  function Mean(total: real, days: nat): (m: real)
    ensures days == 0 ==> m == 0.0
    ensures days > 0 ==> m * (days as real) == total
    ensures total >= 0.0 ==> m >= 0.0
  {
    if days == 0 then 0.0 else total / (days as real)
  }

  lemma DistinctDaysAppend(rs: seq<IncomeRecord>, x: IncomeRecord)
    ensures DistinctDays(rs + [x]) == DistinctDays(rs) + {SqlDay(x.date)}
  {
    var s := rs + [x];
    forall d | d in DistinctDays(s) ensures d in DistinctDays(rs) + {SqlDay(x.date)} {
      var i :| 0 <= i < |s| && SqlDay(s[i].date) == d;
      if i < |rs| {
        assert rs[i] == s[i];
      }
    }
    forall d | d in DistinctDays(rs) ensures d in DistinctDays(s) {
      var i :| 0 <= i < |rs| && SqlDay(rs[i].date) == d;
      assert s[i] == rs[i];
    }
    assert s[|rs|] == x;
  }

  /** A record on a day that already has one leaves the divisor unchanged. */
  lemma SameDayKeepsDivisor(rs: seq<IncomeRecord>, x: IncomeRecord)
    requires SqlDay(x.date) in DistinctDays(rs)
    ensures DistinctDays(rs + [x]) == DistinctDays(rs)
    ensures DailyAverage(rs + [x]) == (Total(rs) + x.amount) / (|DistinctDays(rs)| as real)
  {
    DistinctDaysAppend(rs, x);
    TotalAppend(rs, [x]);
    assert [x][1..] == [];
    assert Total([x]) == x.amount;
  }

  /** One record per day, each of amount `a`: the average is `a`. */
  lemma OnePerDayAverage(rs: seq<IncomeRecord>, a: real)
    requires rs != []
    requires forall i :: 0 <= i < |rs| ==> rs[i].amount == a
    requires forall i, j :: 0 <= i < j < |rs| ==> SqlDay(rs[i].date) != SqlDay(rs[j].date)
    ensures DailyAverage(rs) == a
  {
    DistinctDaysCount(rs);
    TotalOfConstant(rs, a);
    AverageFromCounts(rs, a, |rs|);
  }

  lemma AverageFromCounts(rs: seq<IncomeRecord>, a: real, k: nat)
    requires k > 0 && |DistinctDays(rs)| == k && Total(rs) == a * (k as real)
    ensures DailyAverage(rs) == a
  {
    assert DailyAverage(rs) == Mean(Total(rs), k);
    MeanOfProduct(a, k);
  }

  lemma MeanOfProduct(a: real, n: nat)
    requires n > 0
    ensures Mean(a * (n as real), n) == a
  {
    DivideProduct(a, n as real, a * (n as real));
  }

  lemma DivideProduct(a: real, n: real, t: real)
    requires n > 0.0 && t == a * n
    ensures t / n == a
  {
    assert t / n * n == t;
  }

  lemma {:induction false} DistinctDaysCount(rs: seq<IncomeRecord>)
    requires forall i, j :: 0 <= i < j < |rs| ==> SqlDay(rs[i].date) != SqlDay(rs[j].date)
    ensures |DistinctDays(rs)| == |rs|
  {
    if rs != [] {
      var tail := rs[1..];
      DistinctDaysCount(tail);
      assert DistinctDays(rs) == {SqlDay(rs[0].date)} + DistinctDays(tail) by {
        forall d | d in DistinctDays(rs) ensures d in {SqlDay(rs[0].date)} + DistinctDays(tail) {
          var i :| 0 <= i < |rs| && SqlDay(rs[i].date) == d;
          if i > 0 { assert tail[i - 1] == rs[i]; }
        }
        forall d | d in DistinctDays(tail) ensures d in DistinctDays(rs) {
          var i :| 0 <= i < |tail| && SqlDay(tail[i].date) == d;
          assert rs[i + 1] == tail[i];
        }
      }
      forall i | 0 <= i < |tail| ensures SqlDay(tail[i].date) != SqlDay(rs[0].date) {
        assert tail[i] == rs[i + 1];
      }
      assert SqlDay(rs[0].date) !in DistinctDays(tail);
    }
  }

  lemma {:induction false} TotalOfConstant(rs: seq<IncomeRecord>, a: real)
    requires forall i :: 0 <= i < |rs| ==> rs[i].amount == a
    ensures Total(rs) == a * (|rs| as real)
  {
    if rs != [] {
      TotalOfConstant(rs[1..], a);
    }
  }

  // ---------------------------------------------------------------- category distribution

  /** The optional `date >= start` and `date <= end` conditions. */
  predicate InDates(r: IncomeRecord, start: Option<DateTime>, end: Option<DateTime>) {
    (start.None? || Le(start.value, r.date)) && (end.None? || Le(r.date, end.value))
  }

  /** The sum of the amounts of category `c` among the records within the dates. */
  function CategoryTotal(rs: seq<IncomeRecord>, c: string, start: Option<DateTime>, end: Option<DateTime>): (s: real)
    ensures AllValid(rs) ==> s >= 0.0
  {
    if rs == [] then 0.0
    else (if rs[0].category == c && InDates(rs[0], start, end) then rs[0].amount else 0.0)
         + CategoryTotal(rs[1..], c, start, end)
  }

  /**
   * `get_category_distribution(start, end)`: `GROUP BY category`, so a category appears exactly
   * when some record within the dates has it, and maps to the sum of those records' amounts.
   */
  function CategoryDistribution(rs: seq<IncomeRecord>, start: Option<DateTime>, end: Option<DateTime>)
    : (m: map<string, real>)
    ensures forall c :: c in m <==> exists i :: 0 <= i < |rs| && rs[i].category == c && InDates(rs[i], start, end)
    ensures forall c :: c in m ==> m[c] == CategoryTotal(rs, c, start, end)
  {
    map c | c in (set i | 0 <= i < |rs| && InDates(rs[i], start, end) :: rs[i].category)
      :: CategoryTotal(rs, c, start, end)
  }

  /** The per-category sums over all categories add up to the total within the dates. */
  lemma {:induction false} CategoryTotalsCoverAll(rs: seq<IncomeRecord>, cs: seq<string>, start: Option<DateTime>, end: Option<DateTime>)
    requires forall i :: 0 <= i < |rs| ==> rs[i].category in cs
    requires forall i, j :: 0 <= i < j < |cs| ==> cs[i] != cs[j]
    ensures SumOver(rs, cs, start, end) == DatesTotal(rs, start, end)
  {
    if rs != [] {
      assert rs[0].category in cs;
      CategoryTotalsCoverAll(rs[1..], cs, start, end);
      SumOverHead(rs, cs, start, end);
    } else {
      SumOverEmpty(cs, start, end);
    }
  }

  /** The sum of `CategoryTotal` over a list of categories. */
  function SumOver(rs: seq<IncomeRecord>, cs: seq<string>, start: Option<DateTime>, end: Option<DateTime>): real {
    if cs == [] then 0.0 else CategoryTotal(rs, cs[0], start, end) + SumOver(rs, cs[1..], start, end)
  }

  /** The total of the amounts within the optional dates. */
  function DatesTotal(rs: seq<IncomeRecord>, start: Option<DateTime>, end: Option<DateTime>): real {
    if rs == [] then 0.0
    else (if InDates(rs[0], start, end) then rs[0].amount else 0.0) + DatesTotal(rs[1..], start, end)
  }

  lemma {:induction false} SumOverHead(rs: seq<IncomeRecord>, cs: seq<string>, start: Option<DateTime>, end: Option<DateTime>)
    requires rs != [] && rs[0].category in cs
    requires forall i, j :: 0 <= i < j < |cs| ==> cs[i] != cs[j]
    ensures SumOver(rs, cs, start, end) ==
            (if InDates(rs[0], start, end) then rs[0].amount else 0.0) + SumOver(rs[1..], cs, start, end)
  {
    if cs[0] == rs[0].category {
      SumOverMissing(rs, cs[1..], start, end);
    } else {
      SumOverHead(rs, cs[1..], start, end);
    }
  }

  lemma {:induction false} SumOverEmpty(cs: seq<string>, start: Option<DateTime>, end: Option<DateTime>)
    ensures SumOver([], cs, start, end) == 0.0
  {
    if cs != [] {
      SumOverEmpty(cs[1..], start, end);
    }
  }

  lemma {:induction false} SumOverMissing(rs: seq<IncomeRecord>, cs: seq<string>, start: Option<DateTime>, end: Option<DateTime>)
    requires rs != [] && rs[0].category !in cs
    ensures SumOver(rs, cs, start, end) == SumOver(rs[1..], cs, start, end)
  {
    if cs != [] {
      SumOverMissing(rs, cs[1..], start, end);
    }
  }
}
