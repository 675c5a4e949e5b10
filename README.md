# Income ledger core, modelled in Dafny

This project models the core of a desktop income ledger: a PyQt application that keeps income
records in an SQLite table. The model covers:

- the `Database` object's record and settings tables, modelled as a class whose fields the
  methods reassign;
- the SQL aggregates, restated over a snapshot of the table: totals, yearly and trailing
  income, the daily average, the category distribution, the listing with its filters and
  pages, the gap-filled daily trend, and the month-end spending forecast;
- the `IncomeRecord` value type, with its ISO timestamp text;
- the date ranges and the currency text of the utility module;
- the keyword categorizer of the income form;
- the data logic of the two charts;
- the budget progress bar and the slide guard of the animated page stack.

Modules, one per file:

| module | models |
|---|---|
| `Wrappers` | `Option` and `Result` |
| `Digits` | decimal digit text, zero padding, thousands grouping |
| `Calendar` | proleptic Gregorian dates, `DateTime` as day number and microsecond of day, `timedelta` arithmetic, `weekday()` |
| `IsoFormat` | `datetime.isoformat()` and `datetime.fromisoformat` on that text |
| `Models` | `IncomeRecord`, `__post_init__`, `from_db_row`, `to_dict` |
| `Ledger` | the `SUM`, `COUNT(DISTINCT DATE(date))` and `GROUP BY category` aggregates |
| `Sorting` | the insertion sort that fixes one of the orders `ORDER BY` and `sorted` allow; rows whose keys tie keep their table order |
| `Listing` | `get_incomes` and `get_income_by_id` |
| `Settings` | `get_setting`, `get_monthly_budget` (`float()`), the text `str(amount)` stores |
| `Store` | the `Database` class: add, update, delete, count, settings |
| `Forecast` | `get_spending_forecast` and `get_statistics` |
| `Trend` | `get_daily_trend` |
| `Utils` | week, month, year and recent-days ranges, `format_currency` |
| `Categorizer` | `SmartCategorizer.RULES` and `suggest_category` |
| `Charts` | the pie chart's grouping, slices and click handling, the trend chart's thinning and y axis |
| `Components` | `BudgetProgressBar.set_status`, and `AnimatedStackedWidget` (`slideInIdx`, `_on_animation_finished`) |

Conventions:

- "Now" is a parameter. The source reads it from the clock, and the utility ranges convert it
  to UTC+8.
- A `DateTime` is a day number (0 is 0001-01-01, a Monday) and a time of day in microseconds.
  `Valid` bounds it to the years 1 to 9999 that Python's `datetime` accepts.
  It is a wall-clock time with no time zone. The application writes every timestamp in UTC+8,
  so wall-clock order is the order of the instants.
- Amounts are `real`. Wherever the source formats an amount as text with two decimals
  (`format_currency`, the budget setting), the amount is an integer number of cents.
- The table is a sequence of records in table order. A SQL comparison of ISO timestamp text is
  modelled as chronological comparison of the wall-clock times. For well-formed `isoformat()`
  text of years 1 to 9999 the two orders agree, with one exception. A stored date, which ends
  in "+08:00", compares greater than a naive bound naming the same wall-clock time. So a record
  at exactly the bound fails `date <= end` in SQL, while the model counts it.
- `DATE(date)` and `strftime('%Y-%m-%d', date)` are SQLite's UTC day of the "+08:00" text
  (`Ledger.SqlDay`): the day eight hours earlier. The labels of the daily trend are the days
  Python's `strftime` names.
- A Python `ValueError` becomes a `None` or `Err` result. `AttributeError` in the page stack
  becomes a `raised` flag.

Where the code and its own comments disagree, the model follows the code:

- The docstring of `get_spending_forecast` says that the last three days weigh more, and the
  comment on its second step speaks of a fixed 0.7/0.3 weighting. The code weights the month's own average by `min(0.8, passed / 15)`, and
  the model does the same.

## Model

| member | source | states |
|---|---|---|
| Models.NewRecord | app/models.py:9-22 | construction succeeds exactly when the amount is not negative, keeping every field; otherwise the error is NegativeAmount |
| Models.FromDbRow | app/models.py:24-34 | a row becomes a record exactly when both timestamps parse (with or without a `+HH:MM` offset) and the amount is not negative; the fields are copied and the dates are the parsed ones |
| Models.ToDict | app/models.py:36-45 | the dict keeps id, amount, category and description, and its timestamp texts parse back to the record's dates |
| Models.RowRoundTrip | app/models.py:24-45 | a row built from `to_dict` of a valid record reads back as that same record |
| Models.BeijingRowRoundTrip | app/models.py:24-34 | a row as the application writes it, both timestamps `isoformat()` text ending in the `BEIJING_TZ` offset "+08:00", reads back as the record |
| Models.NegativeRowRejected | app/models.py:19-34 | a row with well-formed timestamps and a negative amount is rejected with NegativeAmount |
| IsoFormat.RoundTrip | app/database.py:85-99 | `fromisoformat(t.isoformat()) == t` for every naive datetime of years 1 to 9999 |
| IsoFormat.ZonedRoundTrip | app/database.py:85-99 | the same for the text of an aware datetime: `isoformat()` followed by any `+HH:MM` offset within a day reads back as the wall-clock time |
| IsoFormat.OffsetRoundTrip | app/utils.py:9 | an offset within a day, written as `+HH:MM` or `-HH:MM`, parses back to its minutes |
| IsoFormat.Parse | app/models.py:31-32 | whatever text parses is a valid datetime; a `+HH:MM` offset after the time is read and checked |
| IsoFormat.ParseOffset | app/models.py:31-32 | an offset parses only below 24 hours in magnitude, as `timezone` demands, and its sign is the text's |
| IsoFormat.ParseZoned | app/models.py:31-32 | a well-formed offset after the time changes nothing in the wall-clock time read |
| Ledger.Total | app/database.py:174-179 | `COALESCE(SUM(amount), 0)` is 0 on an empty table and never negative when no amount is |
| Ledger.WindowTotal | app/database.py:181-208 | the windowed sum is 0 when no record lies in the window, and lies between 0 and the total |
| Ledger.WindowTotalIsFetchedSum | app/database.py:190-195 | the windowed SUM is the sum of the amounts of the records the window selects |
| Ledger.TotalPermutation | app/database.py:174-179 | the total does not depend on the order of the rows |
| Ledger.WindowSplit | app/database.py:190-195 | the sums over two adjacent inclusive windows add up to the sum over their union |
| Ledger.YearlyIncome | app/database.py:181-195 | None exactly when `datetime(year, 1, 1)` raises (year outside 1..9999); otherwise between 0 and the total |
| Ledger.YearWindowMembers | app/database.py:186-187 | a timestamp lies in the year's window exactly when its year is that year, except after 23:59:59 on 31 December |
| Ledger.YearlyIncomeOfOneYear | app/database.py:181-195 | records all inside year y make the yearly income their whole total |
| Ledger.YearlyIncomeOfOtherYears | app/database.py:181-195 | records of other years contribute nothing to year y |
| Ledger.TrailingIncome | app/database.py:197-208 | a negative day count sums nothing; otherwise the sum lies between 0 and the total |
| Ledger.TrailingMonotone | app/database.py:197-208 | a longer trailing window never sums to less |
| Ledger.SqlDayIsUtcDay | app/database.py:214-216 | the day `DATE()` gives a stored timestamp is the day of the moment eight hours earlier |
| Ledger.DailyAverage | app/database.py:210-227 | 0 for an empty table; otherwise the average times the number of distinct `DATE(date)` days is the total |
| Ledger.SameDayKeepsDivisor | app/database.py:214-220 | a record whose `DATE(date)` day already has one leaves the divisor unchanged and adds its amount to the numerator |
| Ledger.OnePerDayAverage | app/database.py:210-227 | one record of amount a on each of several distinct `DATE(date)` days averages to a |
| Ledger.DistinctDaysCount | app/database.py:214-216 | records on pairwise different `DATE(date)` days count as that many distinct days |
| Ledger.CategoryDistribution | app/database.py:280-301 | a category is a key exactly when some record within the dates has it, and maps to the sum of those records' amounts |
| Ledger.CategoryTotalsCoverAll | app/database.py:280-301 | the per-category sums add up to the total within the dates |
| Sorting.SortSorted | app/database.py:165 | the sort yields an ordered permutation of its input for any total preorder |
| Listing.Select | app/database.py:145-163 | the WHERE clause keeps exactly the matching records, each no more often than the table holds it |
| Listing.Page | app/database.py:165-167 | LIMIT/OFFSET gives the contiguous run starting at the offset, of length `limit` or up to the end when fewer remain or the limit is negative; empty exactly when the offset is past the end or the limit is 0 |
| Listing.PageTiles | app/database.py:165-167 | the first `k` items followed by `j` items from offset `k` are the first `k + j` items |
| Listing.GetIncomes | app/database.py:141-172 | every listed record is in the table and matches the filters, the list is ordered by date then creation time, newest first, and with `n` matches and offset `o` it is empty when `o >= n` and otherwise holds `limit` rows, or `n - o` when fewer remain or the limit is negative |
| Listing.GetIncomesTiles | app/database.py:141-172 | under the model's tie order, successive pages miss and repeat nothing: the first `k` records, then `j` from offset `k`, are the first `k + j` |
| Listing.PageOfListing | app/database.py:141-172 | under the model's tie order, every page is the run of the complete listing that starts at the offset |
| Listing.SortedUnique | app/database.py:165 | when no two records share `date` and `created_at`, two orderings of the same rows that both respect `ORDER BY date DESC, created_at DESC` are equal |
| Listing.AnyOrderIsListing | app/database.py:165-172 | when no two records share `date` and `created_at`, every order SQL may return for the matches is the model's listing, and its `LIMIT`/`OFFSET` page is the model's page, so the two lemmas above hold for whatever order each separate query returns |
| Listing.NewerIsPreorder | app/database.py:165 | `ORDER BY date DESC, created_at DESC` is a total preorder |
| Listing.GetIncomesComplete | app/database.py:141-172 | a first page with room for all matches lists every match exactly as often as the table holds it |
| Listing.UnfilteredListing | app/database.py:141-172 | without filters or limit the listing is the whole table, reordered |
| Listing.FindById | app/database.py:128-139 | the lookup finds a record exactly when some row carries the id, and the record it returns carries it |
| Listing.FindByUniqueId | app/database.py:128-139 | with unique ids the lookup returns the one row carrying the id |
| Settings.GetSetting | app/database.py:343-349 | a stored key gives Some of its value, a missing key gives the default |
| Settings.GetAfterSet | app/database.py:351-359 | after a write the key reads back the value and every other key is unaffected |
| Settings.ParseFloat | app/database.py:361-367 | `float()` on plain decimal text; a value read from text starting with '-' is never positive, otherwise never negative |
| Settings.MonthlyBudget | app/database.py:361-367 | a missing setting or text `float` rejects reads as 0.0; otherwise the parsed value |
| Settings.BudgetText | app/database.py:369-371 | `str(amount)` has a leading '-' exactly for a negative amount |
| Settings.BudgetTextParses | app/database.py:361-371 | `float(str(amount))` is the amount |
| Settings.BudgetRoundTrip | app/database.py:361-371 | the budget `set_monthly_budget` stores reads back through `get_monthly_budget` as the same amount |
| Store.Database.constructor | app/database.py:24-35 | a fresh database has no records, no settings and id counter 0 |
| Store.Database.AddIncome | app/database.py:85-99 | the record is appended under the next id, ignoring its own id, which is returned; ids stay unique, the lookup finds the new row, the total grows by its amount, and the settings are unchanged |
| Store.Database.UpdateIncome | app/database.py:101-119 | False with nothing changed for a record without id; otherwise the rows with that id get the new amount, category, description and date, keeping id and creation time, and the result says whether such a row existed |
| Store.Database.DeleteIncome | app/database.py:121-126 | the rows with the id are removed and nothing else; the result says whether there was one; the id is no longer found |
| Store.Database.RecordCount | app/database.py:238-243 | the count is the number of rows |
| Store.Database.SetSetting | app/database.py:351-359 | the key is set to the value, the records are untouched, and the result is True |
| Store.Database.SetMonthlyBudget | app/database.py:369-371 | the budget setting becomes `str(amount)` and reads back as the amount |
| Store.UpdateTotal | app/database.py:101-119 | an update of a row with a unique id changes the total by the new amount less the old one |
| Store.UpdateFinds | app/database.py:101-139 | after an update the lookup by that id returns the rewritten row |
| Store.DeleteOne | app/database.py:121-126 | with unique ids, deleting an id that exists removes exactly that row, which is then not found, and the total drops by its amount |
| Forecast.Classify | app/database.py:427-435 | with a positive budget: danger above the budget, warning above 90% of it up to the budget, safe at or below 90%; safe without a budget |
| Forecast.ClassifyMonotone | app/database.py:427-435 | a larger prediction is never classified as less severe |
| Forecast.ClassifyBoundaries | app/database.py:427-435 | exactly 90% of the budget is safe, exactly the budget is a warning, anything above it is danger |
| Forecast.Weight | app/database.py:419 | the weight lies in (0, 0.8] and reaches 0.8 exactly from day 12 on |
| Forecast.BlendedRate | app/database.py:412-422 | the historical average alone on day 1, the weighted blend afterwards |
| Forecast.BlendBetween | app/database.py:414-420 | the blended rate lies between the month's own rate and the historical one |
| Forecast.MonthLength | app/database.py:388-397 | the day before the next month's first is the month's length |
| Forecast.Extrapolate | app/database.py:394-443 | remaining days, prediction as spending plus rate times remaining days, status from the prediction; with non-negative inputs the prediction is never below the spending |
| Forecast.SpendingForecast | app/database.py:373-443 | None exactly in December of year 9999, where `replace(year=year+1)` raises; otherwise the extrapolation of the month-to-date window with the daily average and the stored budget |
| Forecast.ForecastBounds | app/database.py:400-425 | with non-negative amounts, 0 <= month-to-date spending <= prediction |
| Forecast.NoBudgetIsSafe | app/database.py:361-367 | without a readable budget the status is always safe |
| Forecast.GetStatistics | app/database.py:229-236 | the four figures are the total, this year's income, the trailing 30 days and the daily average, and the windowed ones never exceed the total |
| Trend.TrendBy | app/database.py:252-278 | the trend's loop over a query keyed by either day: `days + 1` labels and values, label k is the day `start + k` and value k the sum of the window's records keyed to that day, 0.0 for a day without records |
| Trend.DailyTrend | app/database.py:247-278 | `days + 1` labels and values (none for negative days), label k is the day `start + k`, and value k is the sum of the window's records whose SQLite UTC day is that day, 0.0 for a day without records |
| Trend.DailyTrendByLocalDay | app/database.py:247-278 | the same labels, with value k the sum of the window's records whose stored text names that day, and for `days >= 0` the values add up to the window's total |
| Trend.FillDays | app/database.py:268-276 | the loop emits one label and one `data.get(day, 0.0)` per day from start to now |
| Trend.QueryDays | app/database.py:257-266 | the grouped query's dict, keyed by SQLite's UTC day or by the stored day, gives every day its sum under that key, and 0.0 for days it lacks |
| Trend.GapIsZero | app/database.py:266-275 | a day missing from the dict has no records, so `get(day, 0.0)` is its sum |
| Trend.DaySumsKeys | app/database.py:257-266 | a day is a key exactly when some record of the window has that day under the key |
| Trend.TrendAddsUp | app/database.py:247-278 | grouped by the stored day, the trend's values add up to the total of its window: nothing missed, nothing counted twice |
| Trend.EarlyRecordShifts | app/database.py:257-275 | as written, a record stored before 08:00 adds nothing to its own day's value and all of its amount to the previous day's |
| Trend.TrendMissesEarlyFirstDay | app/database.py:247-278 | as written, a record on the window's first day before 08:00 is in the window's total but in none of the values |
| Utils.WeekRange | app/utils.py:77-84 | Monday midnight of now's week to Sunday 23:59:59 six days later, with now's day inside |
| Utils.WeekEndIsPlus | app/utils.py:83 | the end is the start plus 6 days 23 hours 59 minutes 59 seconds |
| Utils.WeekCoversNow | app/utils.py:77-84 | now lies in its week's range except in the last second of Sunday |
| Utils.SameWeek | app/utils.py:77-84 | every day of the week has the same week range |
| Utils.MonthRange | app/utils.py:87-98 | None exactly in December of year 9999; otherwise the month's first at midnight to 23:59:59 on its last day |
| Utils.MonthEnd | app/utils.py:92-97 | the next month's first minus one second is 23:59:59 on the month's last day |
| Utils.MonthCovers | app/utils.py:87-98 | the month range holds exactly the moments of now's month up to 23:59:59 on its last day |
| Utils.YearRange | app/utils.py:101-106 | 1 January 00:00:00 to 31 December 23:59:59 of now's year |
| Utils.YearCovers | app/utils.py:101-106 | the year range holds exactly the moments of now's year up to 23:59:59 on 31 December |
| Utils.RecentDaysRange | app/utils.py:109-113 | midnight `days` days back to now; ordered exactly when `days` is not negative |
| Utils.RecentCoversTrailing | app/utils.py:109-113 | reaching back to midnight never sums less than the trailing window of the same days |
| Utils.FormatCurrency | app/utils.py:28-41 | a leading '-' before the symbol exactly for negative amounts, then grouped digits, '.', and two digits |
| Utils.CurrencyRoundTrip | app/utils.py:28-41 | the text reads back as the amount, for any symbol not starting with '-' |
| Categorizer.Lower | app/ui/income_form.py:33 | `lower()` keeps the length and maps each character, leaving no ASCII capital |
| Categorizer.Contains | app/ui/income_form.py:35 | `k in s` holds exactly when k occurs in s at some offset |
| Categorizer.Suggest | app/ui/income_form.py:31-37 | None exactly when no keyword occurs in the lower-cased text |
| Categorizer.SuggestIsFirstMatch | app/ui/income_form.py:31-37 | the suggestion is the category of the first rule, in table order, whose keyword occurs |
| Categorizer.SuggestionIsACategory | app/ui/income_form.py:23-29 | a suggestion is always one of the six categories the rules name |
| Categorizer.SuggestIgnoresCase | app/ui/income_form.py:31-37 | lower-casing the text first changes nothing |
| Categorizer.LowerIdempotent | app/ui/income_form.py:33 | lower-casing twice is lower-casing once |
| Categorizer.WageWins | app/ui/income_form.py:23-37 | text mentioning "工资" is a salary, whatever else it mentions |
| Categorizer.OvertimeIsBonus | app/ui/income_form.py:23-37 | "加班" without an earlier keyword is a bonus |
| Charts.SortEntries | app/ui/charts.py:164 | the entries are ordered by descending amount, as a permutation keeping the sum |
| Charts.Group | app/ui/charts.py:166-170 | at most seven entries: six or fewer are kept as they are, otherwise the first six plus "其他" holding the sum of the rest; the sum is kept |
| Charts.GroupKeepsLargest | app/ui/charts.py:164-170 | every kept entry is at least as large as every folded one |
| Charts.PieShowsGroup | app/ui/charts.py:172-181 | every slice is a positive grouped entry with colour `i % 7`, in grouped order, and every positive entry has a slice |
| Charts.PieKeepsTotal | app/ui/charts.py:149-181 | with no negative amounts the slices add up to the distribution's total |
| Charts.ToggleExclusive | app/ui/charts.py:191-198 | after a click only the clicked slice can be exploded, and its flag is flipped |
| Charts.HandleSliceClick | app/ui/charts.py:191-198 | the array loop resets every slice, then flips the clicked one as in the flag function |
| Charts.AtMostOneExploded | app/ui/charts.py:191-198 | after any click at most one slice is exploded, and a second click on it restores all |
| Charts.HandlerTargetsAsWritten | app/ui/charts.py:189 | every handler the loop connects targets the last slice appended |
| Charts.ClickHitsLastSlice | app/ui/charts.py:189 | with two or more slices, a click on the first explodes the last and never the first |
| Charts.HandlerTargets | app/ui/charts.py:189 | with the slice bound at connection time, slice i's handler targets slice i |
| Charts.ClickHitsClickedSlice | app/ui/charts.py:189-198 | with the intended binding a click flips the clicked slice and resets the rest |
| Charts.Every | app/ui/charts.py:120-121 | `s[::step]` has `ceil(len/step)` entries |
| Charts.Stride | app/ui/charts.py:119 | the stride is `n // 30 + 1` above 30 points, so it covers them in under 30 steps |
| Charts.Thin | app/ui/charts.py:117-124 | at most 30 points: the whole list up to 30, otherwise every stride-th point |
| Charts.ThinAt | app/ui/charts.py:117-124 | point k of the thinned list is point `k * stride` of the full one |
| Charts.ThinAligned | app/ui/charts.py:117-124 | dates and values are thinned alike and stay paired |
| Charts.MaxOrZero | app/ui/charts.py:128-132 | `max(0, *values)`: at least every value and 0, and equal to one of them unless 0 |
| Charts.PlotTrend | app/ui/charts.py:128-136 | one point `(i, value)` per value, and a y range whose top exceeds every value |
| Components.Trunc | app/ui/components.py:132 | `int()` truncates toward zero |
| Components.Share | app/ui/components.py:132 | the share times the total is the spending times 100; at least 100 exactly when the budget is spent |
| Components.BudgetPercent | app/ui/components.py:120-133 | 0 without a positive total; otherwise at most 100, exactly 100 when the budget is spent, and the truncated hundredths of the share in between |
| Components.PercentMonotone | app/ui/components.py:132-133 | spending more never shows a smaller percentage |
| Components.ColourFor | app/ui/components.py:135-139 | danger above 90, warning above 75 up to 90, primary otherwise |
| Components.StyleFor | app/ui/components.py:120-151 | the track alone without a positive total, otherwise the chunk in the percentage's colour |
| Components.OverBudgetIsDanger | app/ui/components.py:132-137 | a spent budget always shows in the danger colour |
| Components.DangerBarIsNotSafeForecast | app/ui/components.py:133-137 | for a prediction at least the spending, a red bar means the forecast is not safe |
| Components.BudgetBar.constructor | app/ui/components.py:104-118 | a fresh bar has the primary chunk colour |
| Components.BudgetBar.SetStatus | app/ui/components.py:120-153 | the bar's value is the percentage and its style the style for it |
| Components.AddPage | app/ui/main_window.py:251-275 | QStackedWidget's own `addWidget`, as the window calls it for its four pages: one more page; the first page becomes current; validity is kept |
| Components.Slide | app/ui/components.py:33-93 | nothing while an animation runs or for the current index; otherwise the busy flag is set, with an animation towards a valid index, or AttributeError for an index naming no page |
| Components.Finished | app/ui/components.py:95-98 | a valid index becomes current and clears the flag; an index naming no page raises before the flag is cleared |
| Components.SlideChangesIff | app/ui/components.py:35-38 | a request changes the state exactly when no animation runs and the index is not the current one |
| Components.OneTransitionAtATime | app/ui/components.py:35-36 | while an animation runs, no request replaces its target |
| Components.SlideThenFinish | app/ui/components.py:33-98 | a request for another page followed by its animation's end shows that page with the flag cleared |
| Components.RunKeepsValid | app/ui/components.py:33-98 | every state reachable by requests and animation ends is valid: at most one transition, towards a real page other than the current |
| Components.LockedStaysLocked | app/ui/components.py:38-40 | after a request for an index naming no page, no later event changes anything |
| Components.StackedPages.constructor | app/ui/components.py:21-26 | an empty stack with no current page and no animation, which is a valid state |
| Components.StackedPages.AddWidget | app/ui/main_window.py:251-275 | the fields change as one added page does, and stay valid |
| Components.StackedPages.SlideInIdx | app/ui/components.py:33-93 | the fields change as a slide request does, stay valid, and `raised` reports the AttributeError |
| Components.StackedPages.OnAnimationFinished | app/ui/components.py:95-98 | the fields change as an animation end does, stay valid, and `raised` reports the AttributeError |

## Left out

- SQLite itself: connections, WAL mode, schema creation, `backup_db`, `export_to_excel`, `vacuum_db`, `checkpoint_wal` and `get_database`. The table is a sequence of records.
- The clock and time zones: `datetime.now()` and `get_beijing_time`/`get_beijing_date` are replaced by a `now` parameter.
- Floating point: amounts are exact reals. `format_currency` and the budget text take amounts as integer cents, so `,.2f` rounding of other amounts is not modelled.
- Settings.BudgetText: covers amounts below 10^13 in magnitude with at most two decimals, where `repr` prints the plain decimal form; the exponent notation of larger values is not modelled.
- Settings.ParseFloat: accepts only an optional sign, digits and an optional fractional part. Exponents, `inf`, `nan`, underscores and surrounding whitespace are rejected here, though `float()` accepts them.
- Categorizer.Lower: folds only the ASCII capitals. The categorizer's keywords contain no letters that case folding changes.
- IsoFormat.Parse: reads only the shapes `isoformat()` writes: 'T' between date and time, `HH:MM:SS` with an optional six-digit fraction, and an optional `+HH:MM`/`-HH:MM` offset. `fromisoformat` also accepts other shapes, none of which the application writes, and the model rejects them: another separator than 'T', date-only text, `HH` or `HH:MM` times, three-digit fractions, and offsets written `Z`, `+HHMM` or with seconds. The offset is checked but not kept: a `DateTime` carries no time zone, and every timestamp the application writes is in `BEIJING_TZ`.
- Models.ToDict: records carry no time zone, so the rendered text omits the "+08:00" suffix that `isoformat()` of an aware datetime appends. Models.BeijingRowRoundTrip shows that the suffixed text reads back to the same record.
- SQL text comparison of ISO dates is modelled as chronological comparison. The one exception is equality with a naive bound, where the stored text is the greater. It affects Ledger.YearlyIncome and Ledger.YearWindowMembers (a record at 31 December 23:59:59 is counted, SQL leaves it out), and Ledger.TrailingIncome, Forecast.SpendingForecast and Trend.DailyTrend (a record at exactly now is counted, SQL leaves it out).
- `get_category_distribution` takes its bounds as strings. The model takes them as datetimes, which compare as the ISO text does.
- `get_incomes` uses the default `limit=1000` only when the caller gives no limit. The model always takes the limit as a parameter.
- Ledger.TrailingIncome: `now - timedelta(days=days)` raises OverflowError when the window's start falls before 0001-01-01 (or, for a negative count, after 9999-12-31). The model's day arithmetic is unbounded, so it sums the out-of-range window instead of raising.
- Utils.RecentDaysRange: the same OverflowError of `end - timedelta(days=days)` is not modelled. The model returns the out-of-range start.
- Forecast.GetStatistics: in the first 30 days of year 1, `get_monthly_income()` raises OverflowError. The model returns the statistics with that window's sum.
- Trend.DailyTrend: requires the window's start and the day after now to be valid dates. Near 0001-01-01 or 9999-12-31 `timedelta` arithmetic raises OverflowError, and that error path is not modelled.
- Utils.WeekRange: in the last week of year 9999 the week end lies past 9999-12-31, where Python raises OverflowError. The model returns the out-of-range datetime.
- Store.Database.constructor: starts from an empty table. `Database()` can also open an existing file, whose rows and AUTOINCREMENT counter `CREATE TABLE IF NOT EXISTS` keeps; that start is not modelled.
- Sorting.Sort: places an element ahead of the later elements it ties with, as the stable `sorted(..., reverse=True)` does, but no lemma states that stability. Ties at sixth place decide which category is folded into "其他".
- Listing.GetIncomesTiles: holds for the model's tie order. SQL leaves open the order of rows whose `date` and `created_at` both tie, and each `LIMIT`/`OFFSET` query sorts anew. Listing.AnyOrderIsListing covers every order when the keys are unique, which the app meets in practice, since `created_at` is taken with microseconds (app/ui/income_form.py:234).
- Listing.PageOfListing: holds for the model's tie order, for the same reason. With unique keys, Listing.AnyOrderIsListing gives it for every order SQL may return.
- Store.Database.AddIncome: requires a record with a non-negative amount. The caller guarantees it: the form rejects `amount <= 0` before adding or updating (app/ui/income_form.py:193-197). `__post_init__` checks only at construction, and the edit path reassigns `amount` afterwards (app/ui/income_form.py:216).
- Components.BudgetBar.SetStatus: Qt's `setValue` ignores values outside 0..100, and the bar's default range is that. The model stores a negative percentage (for negative spending) as it is.
- `setAnimation`, the geometry and easing of the slide animation, and the Qt widget tree are not part of this model. `AddWidget` models only the widget count and the first page becoming current.
- The pie slice label text `f"{cat} {val:.0f}"`, colours as hex strings, fonts and every other UI module (dashboard, main window, record list, calendar filter, toast, styles, workers) are not part of this model.
- Concurrency: the background workers and the thread-safety of the connection.

## Findings

| source | as written | input that shows it | evidently intended | confidence | as-written member | corrected member |
|---|---|---|---|---|---|---|
| app/ui/charts.py:189 | `lambda: self.handle_slice_click(slice)` reads the loop variable `slice` when the signal fires, so every slice's handler receives the last slice appended | data `{"a": 2.0, "b": 1.0}`: a click on slice "a" explodes "b" and leaves "a" unexploded | bind the slice when the handler is connected (`lambda checked=False, s=slice: self.handle_slice_click(s)`), so a click toggles the slice clicked | high, not executed | Charts.ClickHitsLastSlice | Charts.ClickHitsClickedSlice |
| app/database.py:257-266 | `strftime('%Y-%m-%d', date)` on the stored "+08:00" text gives SQLite's UTC day, while the labels are the days Python names, so a record stored before 08:00 is counted one label early | now 2024-01-15 10:00, `days` 30, one record of 100 stored as "2024-01-15T00:00:00+08:00": the value under 2024-01-15 is 0.0 and the 100 appears under 2024-01-14 | group by the day the stored text names (`substr(date, 1, 10)`), so every record of the window is counted under its own day's label | high, not executed | Trend.EarlyRecordShifts | Trend.DailyTrendByLocalDay |
