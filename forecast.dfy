/**
 * `get_spending_forecast` and `get_statistics`: month-to-date spending extrapolated to month
 * end at a blended daily rate, classified against the monthly budget.  "Now" is a parameter.
 */
module Forecast {
  import opened Wrappers
  import opened Calendar
  import opened Models
  import opened Ledger
  import opened Settings

  datatype Status = Safe | Warning | Danger

  /** `"safe"`, `"warning"` or `"danger"` for a predicted total against a budget. */
  function Classify(predicted: real, budget: real): (s: Status)
    ensures budget <= 0.0 ==> s == Safe
    ensures budget > 0.0 ==> (s == Danger <==> predicted > budget)
    ensures budget > 0.0 ==> (s == Warning <==> budget * 0.9 < predicted <= budget)
    ensures budget > 0.0 ==> (s == Safe <==> predicted <= budget * 0.9)
  {
    if budget > 0.0 then
      if predicted > budget then Danger
      else if predicted > budget * 0.9 then Warning
      else Safe
    else Safe
  }

  function Severity(s: Status): nat {
    match s
    case Safe => 0
    case Warning => 1
    case Danger => 2
  }

  /** A larger prediction is never classified as less severe. */
  lemma ClassifyMonotone(p: real, q: real, budget: real)
    requires p <= q
    ensures Severity(Classify(p, budget)) <= Severity(Classify(q, budget))
  {
  }

  /** Exactly 90% of the budget is still safe, anything above it up to the budget a warning. */
  lemma ClassifyBoundaries(budget: real)
    requires budget > 0.0
    ensures Classify(budget * 0.9, budget) == Safe
    ensures Classify(budget, budget) == Warning
    ensures forall p :: p > budget ==> Classify(p, budget) == Danger
  {
  }

  /** `min(0.8, passed / 15.0)`: the weight of the current month's own rate. */
  function Weight(passed: int): (w: real)
    requires passed >= 1
    ensures 0.0 < w <= 0.8
    ensures w == 0.8 <==> passed >= 12
    ensures w < 0.8 ==> w * 15.0 == passed as real
  {
    if 0.8 <= (passed as real) / 15.0 then 0.8 else (passed as real) / 15.0
  }

  /**
   * The daily rate: on day 1 the historical average alone, afterwards the current month's
   * average blended with the historical one.
   */
  function BlendedRate(spending: real, passed: int, historical: real): (rate: real)
    requires passed >= 1
    ensures passed == 1 ==> rate == historical
    ensures passed > 1 ==>
              rate == (spending / passed as real) * Weight(passed) + historical * (1.0 - Weight(passed))
  {
    if passed > 1 then
      var current := spending / passed as real;
      var w := Weight(passed);
      current * w + historical * (1.0 - w)
    else historical
  }

  /** The blend lies between the two rates it mixes. */
  lemma BlendBetween(spending: real, passed: int, historical: real)
    requires passed > 1
    ensures var c := spending / passed as real;
            var rate := BlendedRate(spending, passed, historical);
            (c <= historical ==> c <= rate <= historical) && (historical <= c ==> historical <= rate <= c)
  {
    var c := spending / passed as real;
    var w := Weight(passed);
    var x := c - historical;
    assert BlendedRate(spending, passed, historical) == historical + w * x;
    ScaleBetween(w, x);
    assert x <= 0.0 ==> x <= w * x <= 0.0;
    assert x >= 0.0 ==> 0.0 <= w * x <= x;
  }

  lemma ScaleBetween(w: real, x: real)
    requires 0.0 <= w <= 1.0
    ensures x <= 0.0 ==> x <= w * x <= 0.0
    ensures x >= 0.0 ==> 0.0 <= w * x <= x
  {
    assert x - w * x == (1.0 - w) * x;
  }

  datatype Forecast = Forecast(
    predictedTotal: real,
    remainingDays: int,
    dailyAverage: real,
    status: Status,
    currentMonthSpending: real)

  /** `next_month - timedelta(days=1)`: the last day of now's month, as a day of the month. */
  function MonthLength(y: int, m: int): (n: int)
    requires 1 <= y < YearLimit && 1 <= m <= 12
    ensures n == DaysInMonth(y, m)
  {
    LastDayOfMonth(y, m);
    ToDate(DayNumber(NextMonthStart(y, m)) - 1).day
  }

  /**
   * Steps 2 to 4 of the forecast for a month of `totalDays` days on day `passed`: the blended
   * rate, the linear extrapolation over the remaining days, and the status against `budget`.
   */
  function Extrapolate(spending: real, passed: int, totalDays: int, historical: real, budget: real): (f: Forecast)
    requires 1 <= passed <= totalDays
    ensures f.remainingDays == totalDays - passed && f.remainingDays >= 0
    ensures f.currentMonthSpending == spending
    ensures f.dailyAverage == BlendedRate(spending, passed, historical)
    ensures f.predictedTotal == spending + f.dailyAverage * f.remainingDays as real
    ensures f.remainingDays == 0 ==> f.predictedTotal == spending
    ensures passed == 1 ==> f.dailyAverage == historical
    ensures f.status == Classify(f.predictedTotal, budget)
    ensures spending >= 0.0 && historical >= 0.0 ==> spending <= f.predictedTotal
  {
    var remaining := totalDays - passed;
    var rate := BlendedRate(spending, passed, historical);
    var predicted := spending + rate * remaining as real;
    assert spending >= 0.0 && historical >= 0.0 ==> rate * remaining as real >= 0.0 by {
      if spending >= 0.0 && historical >= 0.0 {
        if passed > 1 {
          BlendBetween(spending, passed, historical);
          assert spending / passed as real >= 0.0;
        }
        assert rate >= 0.0;
      }
    }
    Forecast(predicted, remaining, rate, Classify(predicted, budget), spending)
  }

  /**
   * `get_spending_forecast()` at `now`.  None where `now.replace(year=year+1, month=1, day=1)`
   * raises ValueError: in December of year 9999.
   */
  function SpendingForecast(rs: seq<IncomeRecord>, settings: map<string, string>, now: DateTime): (r: Option<Forecast>)
    requires Valid(now)
    ensures r.None? <==> DateOf(now).year == YearLimit - 1 && DateOf(now).month == 12
    ensures r.Some? ==> r.value == Extrapolate(WindowTotal(rs, MonthStart(now), now), DateOf(now).day,
                                               DaysInMonth(DateOf(now).year, DateOf(now).month),
                                               DailyAverage(rs), MonthlyBudget(settings))
  {
    ValidYear(now);
    var d := DateOf(now);
    if d.month == 12 && d.year + 1 >= YearLimit then None
    else
      var totalDays := MonthLength(d.year, d.month);
      var spending := WindowTotal(rs, MonthStart(now), now);
      Some(Extrapolate(spending, d.day, totalDays, DailyAverage(rs), MonthlyBudget(settings)))
  }

  /** With non-negative amounts the month-to-date spending is non-negative and the prediction never below it. */
  lemma ForecastBounds(rs: seq<IncomeRecord>, settings: map<string, string>, now: DateTime)
    requires Valid(now) && AllValid(rs)
    ensures var r := SpendingForecast(rs, settings, now);
            r.Some? ==> 0.0 <= r.value.currentMonthSpending <= r.value.predictedTotal
  {
    var r := SpendingForecast(rs, settings, now);
    if r.Some? {
      var spending := WindowTotal(rs, MonthStart(now), now);
      assert spending >= 0.0;
      assert DailyAverage(rs) >= 0.0;
      assert r.value.currentMonthSpending == spending;
    }
  }

  /** Without a budget setting, or with one `float` rejects, the forecast is always safe. */
  lemma NoBudgetIsSafe(rs: seq<IncomeRecord>, settings: map<string, string>, now: DateTime)
    requires Valid(now)
    requires BudgetKey !in settings || ParseFloat(settings[BudgetKey]).None?
    ensures SpendingForecast(rs, settings, now).Some? ==> SpendingForecast(rs, settings, now).value.status == Safe
  {
  }

  // ---------------------------------------------------------------- get_statistics

  datatype Statistics = Statistics(totalIncome: real, yearlyIncome: real, monthlyIncome: real, dailyAverage: real)

  /** `get_statistics()` at `now`: the total, this year's income, the last 30 days and the daily average. */
  function GetStatistics(rs: seq<IncomeRecord>, now: DateTime): (s: Statistics)
    requires Valid(now)
    ensures s.totalIncome == Total(rs)
    ensures Some(s.yearlyIncome) == YearlyIncome(rs, DateOf(now).year)
    ensures s.monthlyIncome == TrailingIncome(rs, now, 30)
    ensures s.dailyAverage == DailyAverage(rs)
    ensures AllValid(rs) ==> 0.0 <= s.yearlyIncome <= s.totalIncome && 0.0 <= s.monthlyIncome <= s.totalIncome
  {
    ValidYear(now);
    Statistics(Total(rs), YearlyIncome(rs, DateOf(now).year).value, TrailingIncome(rs, now, 30), DailyAverage(rs))
  }
}
