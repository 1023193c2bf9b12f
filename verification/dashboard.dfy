/**
 * The results panel: the order in which the dashboard runs the aggregators
 * over the table of trades, and what each of them sees. The overall metrics
 * run first and may write the result column into the table; the recency
 * tables and the weekday table then read that column.
 */
module Dashboard {
  import opened Trades
  import opened Metrics
  import opened Recent
  import opened WeekdayTable

  datatype Report = Report(
    summary: Option<Summary>,
    recent: Option<seq<RecentRow>>,
    weekdayRecent: Option<seq<WeekdayRecentRow>>,
    breakdown: Option<Breakdown>)

  /** The panel when the run produced no table at all. */
  const NoResults := Report(None, None, None, None)

  /**
   * Runs the panel over the table of a run (null when the run produced no
   * trade) with the selected weekdays of the weekday table. A table with
   * trades ends up with its result column, and every later aggregator reads
   * exactly that column, so the recency tables and the weekday table agree
   * with the overall metrics trade by trade.
   */
  method Analyse(table: TradeTable?, dir: Direction, selected: set<Weekday>) returns (rep: Report)
    requires table != null ==> table.Valid() && EntriesNonZero(table.rows)
    modifies table
    ensures table == null ==> rep == NoResults
    ensures table != null ==> table.Valid()
    ensures table != null && Size(table.rows) == 0 ==>
      && table.resultColumn == old(table.resultColumn)
      && rep.summary.None? && rep.recent.None? && rep.weekdayRecent.None? && rep.breakdown.None?
    ensures table != null && Size(table.rows) > 0 ==> table.resultColumn.Some?
    ensures table != null && old(table.resultColumn).Some? ==> table.resultColumn == old(table.resultColumn)
    ensures table != null && Size(table.rows) > 0 && old(table.resultColumn).None? ==>
      table.resultColumn == Some(PriceResults(table.rows.trades, dir))
    ensures table != null && table.resultColumn.Some? ==>
      var col := table.resultColumn.value;
      var outs := table.Outcomes();
      && (Size(table.rows) > 0 ==> rep.summary == SummaryOf(table.rows, col, dir))
      && (rep.recent.None? <==> |col| < 5)
      && (rep.recent.Some? ==> rep.recent.value == RecentRows(col))
      && (rep.weekdayRecent.None? <==> WeekdayRows(outs, 5) == [])
      && (rep.weekdayRecent.Some? ==> rep.weekdayRecent.value == WeekdayRows(outs, 5))
      && rep.breakdown == BreakdownTable(SelectWeekdays(outs, selected))
  {
    if table == null {
      return NoResults;
    }
    var summary := table.Summarize(dir);
    if table.resultColumn.None? {
      // Only an intraday table without trades has no result column here.
      return Report(summary, None, None, None);
    }
    var col := table.resultColumn.value;
    var outs := table.Outcomes();
    var recent := RecentMetrics(col);
    var weekdayRecent := WeekdayRecentMetrics(outs);
    var breakdown := BreakdownTable(SelectWeekdays(outs, selected));
    rep := Report(summary, recent, weekdayRecent, breakdown);
  }
}
