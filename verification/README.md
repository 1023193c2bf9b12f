# Backtest engine of the trigger-strategy analyser

This project models the trade-simulation and statistics engine of a
backtesting dashboard for simple trigger strategies. The dashboard runs on
daily or intraday price bars. The engine has three trade builders:

- the **daily percentage-trigger simulator**: `preparar_dados_day_trade` and
  `simular_day_trade_com_percentagens`;
- the **intraday trigger builder**: `aplicar_gatilho_e_criar_resumo`;
- the **fixed time-window builder**: `criar_resumo_por_horario_fixo`.

It also has the aggregators that the results panel runs over the table of
trades:

- overall metrics: `calcular_metricas_de_resumo`;
- trailing-window metrics: `calcular_metricas_recentes`;
- per-weekday trailing-window metrics:
  `calcular_metricas_recentes_por_dia_semana`;
- the weekday table with its "Total / Média" row: `criar_tabela_dia_semana`,
  together with the weekday filter the panel applies before it.

Modules, one per file:

- `Trades` (trades.dfy) holds the records: bars, calendar days of bars, daily
  bars with their moves, the two trade kinds and what the aggregators read of
  a trade. It also holds `Collect`, the "append one record per day, in day
  order" loop shape shared by all builders.
- `Stats` (stats.dfy) holds the column reductions: sum, mean, max, min, the
  hit count and percentages.
- `Scan` (scan.dfy) holds the scans over one day's bars. These are the first
  bar crossing a price, the inclusive time window, the first-occurrence
  argmax/argmin (`idxmax`/`idxmin`) and `asof`.
- `DailyTrigger`, `IntradayTrigger` and `FixedWindow` hold the three builders.
  Each builder is a per-day function plus the day loop as a method, proved
  equal to the collected per-day outcomes.
- `Metrics` holds the overall metrics. `TradeTable` is a class whose result
  column (`Resultado %`) is missing for intraday tables. The first summary
  writes that column into the table in place, as the source does.
- `Recent` holds the trailing-window tables. The per-weekday table is kept as
  flat (weekday, period, mean, hit rate) rows.
- `WeekdayTable` holds the weekday breakdown, its total row and the weekday
  filter.
- `Dashboard` holds the order in which the panel runs the aggregators over one
  table.

Prices and moves are `real`. A weekday is an integer 0..6, with Monday = 0. A
time of day is an integer.

## Model

| member | source | states |
|---|---|---|
| Trades.CollectComplete | Test.py:109 | every present outcome of a day-by-day loop is among the records it appends, so no day's record is lost |
| Stats.MaxOf | Test.py:214 | the maximum of a non-empty column is one of its elements and at least every element |
| Stats.MinOf | Test.py:214 | the minimum of a non-empty column is one of its elements and at most every element |
| Stats.HitsExtremes | Test.py:195 | no hit exactly when every result is <= 0, so a zero result is a miss; all hits exactly when every result is > 0 |
| Stats.HitsAppend | Test.py:195 | the hit count of two concatenated columns is the sum of their hit counts |
| Stats.MeanTimesCount | Test.py:214 | the sum is the mean times the count, also after scaling both by 100 |
| Stats.MeanBetweenMinAndMax | Test.py:214 | the mean of a non-empty column lies between its minimum and its maximum |
| Stats.Percent | Test.py:197-198 | k of n as a percentage lies in [0, 100] when k <= n; it is 0 exactly when k = 0 and 100 exactly when k = n |
| Stats.PercentComplement | Test.py:196-198 | the hit rate and the miss rate (n - k of n) add up to 100 |
| Scan.FirstCrossing | Test.py:96-101 | the index found crosses the price and no earlier bar does; none is found exactly when no bar crosses |
| Scan.Window | Test.py:116 | a bar is in the window exactly when it is a bar of the day with time in [lo, hi], both ends included |
| Scan.WindowFirst | Test.py:118 | the first bar of the window is the earliest bar of the day inside [lo, hi] |
| Scan.WindowLast | Test.py:119 | the last bar of the window is a bar of the day inside [lo, hi] after which no bar lies inside it |
| Scan.WindowInOrder | Test.py:116 | the window of bars in time order is in time order |
| Scan.Highest | Test.py:108 | the index picked has the highest high, and every earlier bar has a strictly lower high (first occurrence, as `idxmax`) |
| Scan.Lowest | Test.py:108 | the index picked has the lowest low, and every earlier bar has a strictly higher low (first occurrence, as `idxmin`) |
| Scan.HighestIsEarliest | Test.py:108 | under time order, the bar picked by Highest is the earliest bar attaining the highest high |
| Scan.LowestIsEarliest | Test.py:108 | under time order, the bar picked by Lowest is the earliest bar attaining the lowest low |
| Scan.WindowHighest | Test.py:106-108 | the top bar of a window lies in it, its high bounds every high in [lo, hi], and it is the earliest bar attaining that high |
| Scan.WindowLowest | Test.py:106-108 | the bottom bar of a window lies in it, its low bounds every low in [lo, hi], and it is the earliest bar attaining that low |
| Scan.LastAtOrBefore | Test.py:105 | the index found has time <= t and every later bar has time > t; none exactly when every bar is after t |
| Scan.AsOfIsLatest | Test.py:105 | under time order, the `asof` bar is the latest bar whose time is <= t |
| DailyTrigger.MoveRoundTrip | Test.py:148-151 | applying a move to the previous close gives the price back |
| DailyTrigger.MoveReaches | Test.py:148-151 | with a positive previous close, a move reaches t exactly when the price reaches prev * (1 + t), in both directions |
| DailyTrigger.Prepare | Test.py:146-154 | the first bar is dropped; every other bar is kept, in order, annotated relative to the bar before it |
| DailyTrigger.PrepareRoundTrip | Test.py:146-151 | each prepared bar's open, high, low and close are recovered from the previous close and its moves |
| DailyTrigger.PrepareDayInRange | Test.py:148-151 | with a positive previous close, a close between the low and the high has its move between the low and high moves |
| DailyTrigger.PrepareInRange | Test.py:146-151 | over positive closes within their bars' ranges, every prepared day has its close move between its low and high moves |
| DailyTrigger.EntryPointTriggers | Test.py:167-177 | a day triggers exactly when its open or high (p > 0), or its open or low (p < 0), reaches p; p = 0 never triggers |
| DailyTrigger.EntryPointLevel | Test.py:168-177 | the entry is the open move when the open already reached p, and p itself otherwise |
| DailyTrigger.EntryPointIsPriceTest | Test.py:148-177 | on a prepared series, the move test is the price test against the previous close moved by p percent |
| DailyTrigger.ResultDirections | Test.py:179-181 | the short result is the negated long result; a long trade gains exactly when the close move exceeds the entry |
| DailyTrigger.DayTradeOf | Test.py:178-182 | the record of a triggering day: its date, weekday, open, high, low and close, the four moves, the result of the entry held to the close, and the entry point; its properties are those of DailyTrigger.DayTradeOfTrade |
| DailyTrigger.DayTradeOfTrade | Test.py:178-182 | a day yields a record exactly when it triggers; the record carries the bar, its moves, the entry and its result |
| DailyTrigger.DayTradesShape | Test.py:160-183 | no record exactly when no day triggers, always so for p = 0; every record comes from one day, and every triggering day's record is among them |
| DailyTrigger.DayTradesInRange | Test.py:178-182 | over days whose close move lies between the low and high moves, every record keeps that order and carries the result of its entry held to the close |
| DailyTrigger.DayTradesInDayOrder | Test.py:160-182 | records follow the dates of the series, at most one per day |
| DailyTrigger.SimulateDayTrade | Test.py:156-184 | the loop returns the records of the triggering days in order, and None when there is none |
| IntradayTrigger.PriorCloseIsPreviousCalendarDay | Test.py:89-90 | under increasing dates, a prior close exists exactly when the calendar day before has bars |
| IntradayTrigger.TriggerDay | Test.py:93-108 | the record of one day: date and weekday; the first crossing bar's time with the trigger price as entry; time and value of the highest high and of the lowest low held from entry to exit time; the exit time itself with the close of the latest bar at or before it; its properties are those of the TriggerDay lemmas below |
| IntradayTrigger.TriggerDayNoTrade | Test.py:95-107 | a day yields no record exactly when no bar crosses the trigger price or the exit time is not after the first bar that does |
| IntradayTrigger.TriggerDayEntry | Test.py:93-108 | the entry time is that of the first crossing bar, and the entry price is the trigger price itself, not a bar field |
| IntradayTrigger.TriggerDayExit | Test.py:105-108 | the exit is recorded at the requested exit time, later than the entry, at the close of the latest bar at or before that time, a bar no earlier than the entry |
| IntradayTrigger.TriggerDayExtremes | Test.py:106-108 | the recorded high and low bound every bar between entry and exit, are attained there, and carry the time of the earliest bar attaining them |
| IntradayTrigger.TriggerDayInRange | Test.py:93-108 | over sound, time-ordered bars, the exit lies between the recorded low and high; with a positive prior close the entry price is positive, for every p |
| IntradayTrigger.TriggerPricePositive | Test.py:93 | a positive prior close moved by p > -100 percent gives a positive trigger price |
| IntradayTrigger.DayOutcomeInRange | Test.py:89-108 | the bounds of TriggerDayInRange hold for the outcome of a day of a series whose bars are sound |
| IntradayTrigger.TriggerTradesFromDays | Test.py:91-109 | every record is the outcome of one day, every day's outcome is among the records; no record exactly when no day has an outcome |
| IntradayTrigger.TriggerTradesInRange | Test.py:91-109 | over sound, time-ordered days, every record has a positive entry and an exit between its low and high |
| IntradayTrigger.TriggerTradesInDayOrder | Test.py:92-108 | under increasing dates, records come in strictly increasing date order |
| IntradayTrigger.ApplyTrigger | Test.py:87-110 | the loop returns the records of the days with an outcome in order, and None when there is none |
| FixedWindow.WindowDay | Test.py:115-120 | the record of one day: date and weekday; time and open of the first bar in [start, end] as entry; time and value of the highest high and of the lowest low in the window; time and close of the last bar in the window as exit; its properties are those of the WindowDay lemmas below |
| FixedWindow.WindowDayNoTrade | Test.py:115-117 | a day yields no record exactly when start >= end or no bar of the day lies in [start, end] |
| FixedWindow.WindowDayEntry | Test.py:118-120 | the entry is the open of the earliest bar of the day inside [start, end] |
| FixedWindow.WindowDayExit | Test.py:119-120 | the exit is the close of the latest bar of the day inside [start, end] |
| FixedWindow.WindowDayExtremes | Test.py:120 | the recorded high and low bound every bar of the window, are attained in it, and carry the time of the earliest bar attaining them |
| FixedWindow.WindowDayInRange | Test.py:118-120 | over sound, time-ordered bars, the entry price is positive and the exit lies between the recorded low and high |
| FixedWindow.WindowTradesShape | Test.py:113-121 | no record exactly when start >= end or no day has a bar in the window; every record comes from one day, and every day with a window bar contributes its record |
| FixedWindow.WindowTradesInRange | Test.py:113-121 | over sound, time-ordered days, every record has a positive entry and an exit between its low and high |
| FixedWindow.WindowTradesInDayOrder | Test.py:114-120 | records follow the dates of the days, at most one per day |
| FixedWindow.FixedWindowTrades | Test.py:112-122 | the loop returns the records of the days with a non-empty window in order; None when there is none, always so when start >= end |
| Metrics.PriceResultMeaning | Test.py:190-193 | the long return applied to the entry gives the exit; the short return is its negation; each gains exactly when the exit is on its side of the entry |
| Metrics.PriceResults | Test.py:189-193 | the column written into an intraday table holds each trade's return relative to its entry price |
| Metrics.ExcursionsMirror | Test.py:200-213 | the favourable excursion of a seller is the negated adverse excursion of a buyer, and the other way round |
| Metrics.PriceResultWithinExcursions | Test.py:189-213 | an exit within the bar range gives a return between the adverse and the favourable excursion |
| Metrics.ResultsWithinExcursions | Test.py:189-213 | every result lies between its trade's adverse and favourable excursions |
| Metrics.SummaryOf | Test.py:186-215 | None exactly for a table without trades; hits + misses = total; no hit exactly when no result is positive |
| Metrics.SummaryRates | Test.py:195-198 | hit and miss rates are percentages adding up to 100; the hit rate is 100 or 0 exactly when every or no trade gained |
| Metrics.SummaryGains | Test.py:214 | largest loss <= mean gain <= largest gain |
| Metrics.SummaryCumulative | Test.py:214 | the cumulative result is the mean gain times the number of trades |
| Metrics.DailyRunWithinRange | Test.py:146-182 | a daily run over positive closes within their bars' ranges meets the within-range condition with the result column the simulator writes |
| Metrics.SummaryExcursions | Test.py:199-214 | when each result lies within its excursions, the best moment is at least the largest gain and the worst moment at most the largest loss |
| Metrics.SummaryMirror | Test.py:200-213 | the best moment of a seller is the negated worst moment of a buyer, and the other way round |
| Metrics.TradeTable.Daily | Test.py:182-184 | a daily-mode table carries the simulator's result column |
| Metrics.TradeTable.Intraday | Test.py:108-110 | an intraday table has no result column |
| Metrics.TradeTable.Outcomes | Test.py:236-272 | the aggregators read each row's weekday and its result, in table order |
| Metrics.TradeTable.Summarize | Test.py:186-215 | None leaving the table as it is when it is empty; otherwise a missing result column is written for the given direction, an existing one is kept, and the summary is that of the column |
| Recent.TailNested | Test.py:223 | the trailing p results are the tail of the trailing q results for p <= q (the last 5 trades end the last 10) |
| Recent.RowOfBounds | Test.py:223-227 | a row's hit rate lies in [0, 100] and is 100 exactly when each of the last p trades gained; its mean lies between the window's min and max |
| Recent.RecentRowsShape | Test.py:219-228 | one row per period p <= n, in increasing order, row k being that of period 5 (k + 1) computed on the last p trades |
| Recent.RecentRowsCount | Test.py:218-229 | the table has min(n / 5, 5) rows, none exactly when n < 5 |
| Recent.RecentRowsComplete | Test.py:220-228 | every period p <= n has its row, and every row's period is a period <= n |
| Recent.TrailingRows | Test.py:219-228 | the loop over the periods builds exactly the rows of the periods the column is long enough for |
| Recent.RecentMetrics | Test.py:217-230 | None exactly when there are fewer than 5 trades; otherwise the rows of the periods |
| Recent.WeekdayRowsMeaning | Test.py:236-250 | every row has a weekday Monday..Friday and is the row of its period computed on that weekday's trades alone |
| Recent.WeekdayRowsComplete | Test.py:241-250 | a Monday..Friday weekday has a row for every period that its own trades are enough for |
| Recent.WeekdayRowsOrder | Test.py:241-250 | rows come weekday by weekday and, within a weekday, in increasing period order |
| Recent.WeekdayRowsEmpty | Test.py:241-251 | there is no row exactly when no weekday from Monday to Friday has 5 trades |
| Recent.WeekdayRecentMetrics | Test.py:232-251 | the loop over weekdays and periods returns the rows, and None exactly when there is none |
| WeekdayTable.RowFor | Test.py:271-276 | a weekday row has total = hits + misses = the number of the weekday's trades |
| WeekdayTable.RowForPcts | Test.py:275-276 | a row's hit and miss percentages lie in [0, 100] and add up to 100 |
| WeekdayTable.RowForMean | Test.py:270-272 | a row's mean result, in percent, lies between its worst and best result |
| WeekdayTable.RowsUpToMeaning | Test.py:272-283 | each row belongs to a weekday with trades and holds that weekday's figures; weekdays strictly increase |
| WeekdayTable.RowsUpToComplete | Test.py:272-283 | every weekday with trades has its row |
| WeekdayTable.HitsUpToWins | Test.py:271-272 | counting winning trades weekday group by group agrees with counting them trade by trade |
| WeekdayTable.CountAll | Test.py:272 | the seven weekday groups hold every trade of the table |
| WeekdayTable.HitsAll | Test.py:271-272 | the winning trades of the weekday groups are the winning trades of the table |
| WeekdayTable.RowTotalsSum | Test.py:278 | the total column adds up to the trades on the weekdays covered |
| WeekdayTable.RowHitsSum | Test.py:278 | the hit column adds up to the winning trades on the weekdays covered |
| WeekdayTable.RowMissesSum | Test.py:278 | the miss column adds up to the other trades on the weekdays covered |
| WeekdayTable.BreakdownTable | Test.py:265-286 | None exactly for a table without trades |
| WeekdayTable.BreakdownCounts | Test.py:277-281 | the total row counts every trade once: total = number of trades, hits = winning trades, misses = the rest |
| WeekdayTable.BreakdownRows | Test.py:269-284 | the rows are exactly the weekdays with trades, Monday to Sunday, each with its own figures and percentages adding up to 100 |
| WeekdayTable.TotalPcts | Test.py:279 | unweighted means of per-row percentages that add up to 100 are percentages that add up to 100 |
| WeekdayTable.BreakdownTotalPcts | Test.py:279-281 | the total row's hit and miss percentages lie in [0, 100] and add up to 100 |
| WeekdayTable.MeansComplement | Test.py:279 | columns adding up to c row by row have means adding up to c |
| WeekdayTable.KeepWeekdaysMeaning | Test.py:472 | after a non-empty selection every kept trade has a selected weekday; a selected weekday keeps all its trades, in order, and any other keeps none |
| WeekdayTable.SelectedBreakdown | Test.py:470-474 | an empty selection leaves the table as it is; otherwise rows are selected weekdays with the figures of the unfiltered table |
| Dashboard.Analyse | Test.py:420-474 | a table with trades ends with a result column: one it already had is kept, a missing one becomes the entry-relative returns in the chosen direction; the recency tables and weekday table then read that very column; an empty table leaves the column as it was and gives an empty panel |

## Left out

- The Streamlit interface, session state, widgets and formatting are
  presentation only and are not modelled.
- File upload parsing (CSV/XLSX, encodings, decimal comma) and date/time
  string parsing are not modelled.
- The Yahoo Finance fetches, their memoisation, ticker suffixes and timezone
  handling are network I/O and are not modelled. The engine takes the bars as
  input.
- Weekdays are taken as given fields of days and trades. Calendar dates are
  integers, and the day before a date is date - 1. The day grouping and
  `resample('D')` are represented by the `Day` records of the series.
- Floating-point rounding, NaN and infinities are not modelled. Prices are
  `real`.
- The pivot reshaping of the per-weekday recency table, and the `try`/`except`
  that turns a reshaping failure into None, are not modelled. The table is
  kept as the flat rows before the pivot.
- `dropna` in `preparar_dados_day_trade` is modelled only for the first bar,
  which has no previous close. Rows with other missing fields do not exist in
  the model.
- DailyTrigger.Prepare: requires every close that serves as a previous close
  to be non-zero, where pandas would produce infinite moves.
- Metrics.SummaryOf: requires every intraday entry price to be non-zero, where
  pandas would produce infinite returns.
- Metrics.TradeTable.Summarize: requires every intraday entry price to be
  non-zero, for the same reason.
- Dashboard.Analyse: requires every intraday entry price to be non-zero, for
  the same reason.
- Scan.WindowHighest: stated under the requirement that the day's bars are in
  strictly increasing time order, as a sorted index is.
- Scan.WindowLowest: stated under the requirement that the day's bars are in
  strictly increasing time order, as a sorted index is.
- Scan.AsOfIsLatest: stated under the same time-order requirement.
- IntradayTrigger.TriggerDayExit: stated under the same time-order
  requirement. The exit close is looked up among the day's own bars, while
  the source runs `asof` over the whole series. Under time order both find
  the same bar, because the entry bar of the same day lies before the exit
  time. Only the close is taken from that bar: the recorded exit time is the
  requested one, the label `asof` gives the row it returns.

## Where the code's behaviour may surprise

- Intraday trigger mode records the requested exit time as the exit time,
  even when no bar lies at that time. The exit price is the close of an
  earlier bar. The fixed-window mode, by contrast, records the last window
  bar's own time.
- Intraday mode with p = 0: the code takes the `else` branch, a downward test
  `low <= prior close`, rather than treating p = 0 as a no-op. See
  `IntradayTrigger.TriggerDay`.
- Intraday prior close: the code shifts a daily resample by one calendar day.
  A day therefore has a prior close only when the calendar day just before it
  has bars. For example, a Monday gets none unless Sunday has bars. This
  differs from "the previous day of the series".
- Daily mode: moves are taken relative to the previous row of the series,
  whatever its date.
- Weekday filter: an empty selection applies no filter (the `and
  dias_selecionados_num` test at Test.py:471). The full table is then built.
- Weekday table: the mean column is the mean of the results scaled by 100.
  The total row's percentages and mean are unweighted means of the row
  values.
- Running the overall metrics twice on an intraday table with different
  directions is not idempotent. The first run writes the result column for
  its direction, and the second keeps that column. The panel runs the
  metrics once per table.
