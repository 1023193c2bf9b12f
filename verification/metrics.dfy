/**
 * Overall performance metrics of a trade table (`calcular_metricas_de_resumo`).
 * A daily-mode table carries its result column from the simulator; an
 * intraday table does not, and the first summary writes the column into the
 * table, as a result relative to the entry price, in the chosen direction.
 */
module Metrics {
  import opened Trades
  import opened Stats
  import DailyTrigger

  /** The trade table handed to the aggregators: daily-mode or intraday trades. */
  datatype TradeSet = DailyTrades(days: seq<DayTrade>) | IntradayTrades(trades: seq<PriceTrade>)

  function Size(ts: TradeSet): (n: nat)
  {
    match ts
    case DailyTrades(d) => |d|
    case IntradayTrades(p) => |p|
  }

  function WeekdaysOf(ts: TradeSet): (ws: seq<Weekday>)
    ensures |ws| == Size(ts)
  {
    match ts
    case DailyTrades(d) => seq(|d|, i requires 0 <= i < |d| => d[i].weekday)
    case IntradayTrades(p) => seq(|p|, i requires 0 <= i < |p| => p[i].weekday)
  }

  /** Every intraday trade has a non-zero entry price, the divisor of its returns. */
  predicate EntriesNonZero(ts: TradeSet)
  {
    ts.IntradayTrades? ==> forall i :: 0 <= i < |ts.trades| ==> ts.trades[i].entry != 0.0
  }

  /** The result column of a daily-mode table, as the simulator wrote it. */
  function DailyResults(ts: seq<DayTrade>): (rs: seq<real>)
  {
    seq(|ts|, i requires 0 <= i < |ts| => ts[i].result)
  }

  /** The return of an intraday trade relative to its entry price, bought or sold. */
  function PriceResult(t: PriceTrade, dir: Direction): (r: real)
    requires t.entry != 0.0
  {
    match dir
    case Long => (t.exit - t.entry) / t.entry
    case Short => (t.entry - t.exit) / t.entry
  }

  /**
   * With a positive entry price, a long return applied to the entry gives the
   * exit back; a short return is the negated long return; a long trade gains
   * exactly when the exit is above the entry, a short one when it is below.
   */
  lemma PriceResultMeaning(t: PriceTrade)
    requires t.entry > 0.0
    ensures t.entry * (1.0 + PriceResult(t, Long)) == t.exit
    ensures PriceResult(t, Short) == -PriceResult(t, Long)
    ensures PriceResult(t, Long) > 0.0 <==> t.exit > t.entry
    ensures PriceResult(t, Short) > 0.0 <==> t.exit < t.entry
  {
    var r := PriceResult(t, Long);
    assert t.exit - t.entry == r * t.entry;
  }

  /** The result column an intraday table receives from its first summary. */
  function PriceResults(ts: seq<PriceTrade>, dir: Direction): (rs: seq<real>)
    requires forall i :: 0 <= i < |ts| ==> ts[i].entry != 0.0
    ensures |rs| == |ts|
    ensures forall i :: 0 <= i < |ts| ==> rs[i] == PriceResult(ts[i], dir)
  {
    seq(|ts|, i requires 0 <= i < |ts| => PriceResult(ts[i], dir))
  }

  /**
   * The favourable excursion of a daily trade: how far the day went in the
   * trade's favour beyond the entry point, in moves from the previous close.
   */
  function DayFavourable(t: DayTrade, dir: Direction): (x: real)
  {
    match dir
    case Long => t.highMove - t.entryMove
    case Short => t.entryMove - t.lowMove
  }

  /** The adverse excursion of a daily trade (negative when the day went against it). */
  function DayAdverse(t: DayTrade, dir: Direction): (x: real)
  {
    match dir
    case Long => t.lowMove - t.entryMove
    case Short => t.entryMove - t.highMove
  }

  /** The favourable excursion of an intraday trade, relative to its entry price. */
  function PriceFavourable(t: PriceTrade, dir: Direction): (x: real)
    requires t.entry != 0.0
  {
    match dir
    case Long => (t.high - t.entry) / t.entry
    case Short => (t.entry - t.low) / t.entry
  }

  /** The adverse excursion of an intraday trade, relative to its entry price. */
  function PriceAdverse(t: PriceTrade, dir: Direction): (x: real)
    requires t.entry != 0.0
  {
    match dir
    case Long => (t.low - t.entry) / t.entry
    case Short => (t.entry - t.high) / t.entry
  }

  function Favourable(ts: TradeSet, dir: Direction): (xs: seq<real>)
    requires EntriesNonZero(ts)
    ensures |xs| == Size(ts)
  {
    match ts
    case DailyTrades(d) => seq(|d|, i requires 0 <= i < |d| => DayFavourable(d[i], dir))
    case IntradayTrades(p) => seq(|p|, i requires 0 <= i < |p| => PriceFavourable(p[i], dir))
  }

  function Adverse(ts: TradeSet, dir: Direction): (xs: seq<real>)
    requires EntriesNonZero(ts)
    ensures |xs| == Size(ts)
  {
    match ts
    case DailyTrades(d) => seq(|d|, i requires 0 <= i < |d| => DayAdverse(d[i], dir))
    case IntradayTrades(p) => seq(|p|, i requires 0 <= i < |p| => PriceAdverse(p[i], dir))
  }

  /**
   * The two directions mirror each other: what is favourable to a seller is
   * the negated adverse excursion of a buyer, and the other way round.
   */
  lemma ExcursionsMirror(ts: TradeSet)
    requires EntriesNonZero(ts)
    ensures forall i :: 0 <= i < Size(ts) ==> Favourable(ts, Short)[i] == -Adverse(ts, Long)[i]
    ensures forall i :: 0 <= i < Size(ts) ==> Adverse(ts, Short)[i] == -Favourable(ts, Long)[i]
  {
  }

  /**
   * A trade whose exit lies within its range, held from an entry on the
   * winning or losing side alike, has its result between its adverse and its
   * favourable excursion.
   */
  predicate ResultWithinRange(ts: TradeSet, results: seq<real>, dir: Direction)
    requires |results| == Size(ts)
  {
    match ts
    case DailyTrades(d) =>
      forall i :: 0 <= i < |d| ==>
        d[i].lowMove <= d[i].closeMove <= d[i].highMove &&
        results[i] == DailyTrigger.Result(d[i].entryMove, d[i].closeMove, dir)
    case IntradayTrades(p) =>
      forall i :: 0 <= i < |p| ==>
        p[i].entry > 0.0 && p[i].low <= p[i].exit <= p[i].high &&
        results[i] == PriceResult(p[i], dir)
  }

  lemma PriceResultWithinExcursions(t: PriceTrade, dir: Direction)
    requires t.entry > 0.0 && t.low <= t.exit <= t.high
    ensures PriceAdverse(t, dir) <= PriceResult(t, dir) <= PriceFavourable(t, dir)
  {
    var e := t.entry;
    match dir
    case Long =>
      assert (t.low - e) / e <= (t.exit - e) / e <= (t.high - e) / e by {
        DivideMonotone(t.low - e, t.exit - e, e);
        DivideMonotone(t.exit - e, t.high - e, e);
      }
    case Short =>
      assert (e - t.high) / e <= (e - t.exit) / e <= (e - t.low) / e by {
        DivideMonotone(e - t.high, e - t.exit, e);
        DivideMonotone(e - t.exit, e - t.low, e);
      }
  }

  lemma DivideMonotone(x: real, y: real, e: real)
    requires e > 0.0 && x <= y
    ensures x / e <= y / e
  {
    assert y / e - x / e == (y - x) / e;
  }

  /**
   * A daily run over positive closes that lie between their lows and highs
   * meets ResultWithinRange with the result column the simulator writes, so
   * the excursion bounds hold for its summary.
   */
  lemma DailyRunWithinRange(bars: seq<DailyBar>, pct: real, dir: Direction)
    requires forall i :: 0 <= i < |bars| - 1 ==> bars[i].close > 0.0
    requires forall i :: 0 <= i < |bars| ==> bars[i].low <= bars[i].close <= bars[i].high
    ensures DailyTrigger.PreviousClosesNonZero(bars)
    ensures var ts := DailyTrigger.DayTrades(DailyTrigger.Prepare(bars), pct, dir);
      ResultWithinRange(DailyTrades(ts), DailyResults(ts), dir)
  {
    DailyTrigger.PrepareInRange(bars);
    DailyTrigger.DayTradesInRange(DailyTrigger.Prepare(bars), pct, dir);
  }

  /** Every result lies between its trade's adverse and favourable excursion. */
  lemma ResultsWithinExcursions(ts: TradeSet, results: seq<real>, dir: Direction)
    requires |results| == Size(ts) && EntriesNonZero(ts)
    requires ResultWithinRange(ts, results, dir)
    ensures forall i :: 0 <= i < Size(ts) ==> Adverse(ts, dir)[i] <= results[i] <= Favourable(ts, dir)[i]
  {
    match ts
    case DailyTrades(d) =>
    case IntradayTrades(p) =>
      forall i | 0 <= i < |p|
        ensures Adverse(ts, dir)[i] <= results[i] <= Favourable(ts, dir)[i]
      {
        PriceResultWithinExcursions(p[i], dir);
      }
  }

  /** The metrics dictionary; money-like fields are in percent. */
  datatype Summary = Summary(
    total: nat, hits: nat, misses: nat,
    hitRate: real, missRate: real,
    cumulative: real, meanGain: real, maxGain: real, maxLoss: real,
    best: real, worst: real)

  /**
   * The metrics of a table with the given result column, or None for a table
   * without trades. A zero result counts as a miss.
   */
  function SummaryOf(ts: TradeSet, results: seq<real>, dir: Direction): (r: Option<Summary>)
    requires |results| == Size(ts) && EntriesNonZero(ts)
    ensures r.None? <==> Size(ts) == 0
    ensures r.Some? ==> r.value.total == |results| && r.value.hits + r.value.misses == r.value.total
    ensures r.Some? ==> (r.value.hits == 0 <==> forall i :: 0 <= i < |results| ==> results[i] <= 0.0)
    ensures r.Some? ==> (r.value.misses == 0 <==> forall i :: 0 <= i < |results| ==> results[i] > 0.0)
  {
    if Size(ts) == 0 then None
    else
      var n := |results|;
      var hits := Hits(results);
      HitsExtremes(results);
      Some(Summary(n, hits, n - hits,
                   Percent(hits, n), Percent(n - hits, n),
                   Sum(results) * 100.0, Mean(results) * 100.0,
                   MaxOf(results) * 100.0, MinOf(results) * 100.0,
                   MaxOf(Favourable(ts, dir)) * 100.0, MinOf(Adverse(ts, dir)) * 100.0))
  }

  /**
   * The hit rate and the miss rate are percentages that add up to 100; the
   * hit rate is 100 exactly when every trade gained and 0 exactly when none did.
   */
  lemma SummaryRates(ts: TradeSet, results: seq<real>, dir: Direction, s: Summary)
    requires |results| == Size(ts) && EntriesNonZero(ts)
    requires SummaryOf(ts, results, dir) == Some(s)
    ensures 0.0 <= s.hitRate <= 100.0 && 0.0 <= s.missRate <= 100.0
    ensures s.hitRate + s.missRate == 100.0
    ensures s.hitRate == 100.0 <==> forall i :: 0 <= i < |results| ==> results[i] > 0.0
    ensures s.hitRate == 0.0 <==> forall i :: 0 <= i < |results| ==> results[i] <= 0.0
  {
    RatesOfCounts(s, results);
  }

  lemma RatesOfCounts(s: Summary, results: seq<real>)
    requires 0 < s.total == |results| && s.hits + s.misses == s.total
    requires s.hitRate == Percent(s.hits, s.total) && s.missRate == Percent(s.misses, s.total)
    requires s.hits == 0 <==> forall i :: 0 <= i < |results| ==> results[i] <= 0.0
    requires s.misses == 0 <==> forall i :: 0 <= i < |results| ==> results[i] > 0.0
    ensures 0.0 <= s.hitRate <= 100.0 && 0.0 <= s.missRate <= 100.0
    ensures s.hitRate + s.missRate == 100.0
    ensures s.hitRate == 100.0 <==> forall i :: 0 <= i < |results| ==> results[i] > 0.0
    ensures s.hitRate == 0.0 <==> forall i :: 0 <= i < |results| ==> results[i] <= 0.0
  {
    PercentComplement(s.hits, s.total);
  }

  /** The largest loss, the mean gain and the largest gain are ordered. */
  lemma SummaryGains(ts: TradeSet, results: seq<real>, dir: Direction, s: Summary)
    requires |results| == Size(ts) && EntriesNonZero(ts)
    requires SummaryOf(ts, results, dir) == Some(s)
    ensures s.maxLoss <= s.meanGain <= s.maxGain
  {
    MeanBetweenMinAndMax(results);
  }

  /** The cumulative result is the mean gain times the number of trades. */
  lemma SummaryCumulative(ts: TradeSet, results: seq<real>, dir: Direction, s: Summary)
    requires |results| == Size(ts) && EntriesNonZero(ts)
    requires SummaryOf(ts, results, dir) == Some(s)
    ensures s.cumulative == s.meanGain * s.total as real
  {
    CumulativeOfFields(s, results);
  }

  lemma CumulativeOfFields(s: Summary, results: seq<real>)
    requires |results| > 0 && s.total == |results|
    requires s.cumulative == Sum(results) * 100.0 && s.meanGain == Mean(results) * 100.0
    ensures s.cumulative == s.meanGain * s.total as real
  {
    MeanTimesCount(results, s.total);
  }

  /**
   * When every trade's result lies between its excursions, the best moment is
   * at least the largest gain and the worst moment at most the largest loss.
   */
  lemma SummaryExcursions(ts: TradeSet, results: seq<real>, dir: Direction, s: Summary)
    requires |results| == Size(ts) && EntriesNonZero(ts)
    requires ResultWithinRange(ts, results, dir)
    requires SummaryOf(ts, results, dir) == Some(s)
    ensures s.worst <= s.maxLoss && s.maxGain <= s.best
  {
    ResultsWithinExcursions(ts, results, dir);
    var fav, adv := Favourable(ts, dir), Adverse(ts, dir);
    var i :| 0 <= i < |results| && results[i] == MaxOf(results);
    var j :| 0 <= j < |results| && results[j] == MinOf(results);
    assert MaxOf(results) <= MaxOf(fav) by { assert results[i] <= fav[i]; }
    assert MinOf(adv) <= MinOf(results) by { assert adv[j] <= results[j]; }
  }

  /** The maximum of the negated column is the negated minimum. */
  lemma {:induction false} MaxOfNegated(s: seq<real>, t: seq<real>)
    requires |s| > 0 && |t| == |s|
    requires forall i :: 0 <= i < |s| ==> t[i] == -s[i]
    ensures MaxOf(t) == -MinOf(s)
  {
    var k :| 0 <= k < |s| && s[k] == MinOf(s);
    assert t[k] == -MinOf(s);
    var m :| 0 <= m < |t| && t[m] == MaxOf(t);
    assert -s[m] <= -MinOf(s);
  }

  /** The minimum of the negated column is the negated maximum. */
  lemma {:induction false} MinOfNegated(s: seq<real>, t: seq<real>)
    requires |s| > 0 && |t| == |s|
    requires forall i :: 0 <= i < |s| ==> t[i] == -s[i]
    ensures MinOf(t) == -MaxOf(s)
  {
    var k :| 0 <= k < |s| && s[k] == MaxOf(s);
    assert t[k] == -MaxOf(s);
    var m :| 0 <= m < |t| && t[m] == MinOf(t);
    assert -s[m] >= -MaxOf(s);
  }

  /** The best moment of a seller is the negated worst moment of a buyer, and the other way round. */
  lemma SummaryMirror(ts: TradeSet, results: seq<real>, other: seq<real>, short: Summary, long: Summary)
    requires |results| == Size(ts) && |other| == Size(ts) && EntriesNonZero(ts)
    requires SummaryOf(ts, results, Short) == Some(short) && SummaryOf(ts, other, Long) == Some(long)
    ensures short.best == -long.worst && short.worst == -long.best
  {
    ExcursionsMirror(ts);
    MaxOfNegated(Adverse(ts, Long), Favourable(ts, Short));
    MinOfNegated(Favourable(ts, Long), Adverse(ts, Short));
  }

  /**
   * A trade table whose result column ('Resultado %') may still be missing.
   * The daily simulator fills it; an intraday table receives it from its
   * first summary, which writes it into the table in place.
   */
  class TradeTable {
    const rows: TradeSet
    var resultColumn: Option<seq<real>>

    ghost predicate Valid()
      reads this
    {
      && (rows.DailyTrades? ==> resultColumn == Some(DailyResults(rows.days)))
      && (resultColumn.Some? ==> |resultColumn.value| == Size(rows))
    }

    /** The table of the daily simulator, with its result column. */
    constructor Daily(ts: seq<DayTrade>)
      ensures Valid()
      ensures rows == DailyTrades(ts) && resultColumn == Some(DailyResults(ts))
    {
      rows := DailyTrades(ts);
      resultColumn := Some(DailyResults(ts));
    }

    /** The table of an intraday builder, without a result column. */
    constructor Intraday(ts: seq<PriceTrade>)
      ensures Valid()
      ensures rows == IntradayTrades(ts) && resultColumn == None
    {
      rows := IntradayTrades(ts);
      resultColumn := None;
    }

    /** What the weekday aggregators read: each row's weekday and result. */
    function Outcomes(): (os: seq<Outcome>)
      reads this
      requires Valid() && resultColumn.Some?
      ensures |os| == Size(rows)
      ensures forall i :: 0 <= i < |os| ==>
        os[i].weekday == WeekdaysOf(rows)[i] && os[i].result == resultColumn.value[i]
      ensures Results(os) == resultColumn.value
    {
      var ws, rs := WeekdaysOf(rows), resultColumn.value;
      seq(|rs|, i requires 0 <= i < |rs| => Outcome(ws[i], rs[i]))
    }

    /**
     * The overall metrics. A table without trades gives None and is left as
     * it is. Otherwise a missing result column is first written into the
     * table, in the direction given; an existing one is kept as it is, even
     * when it was written for the other direction.
     */
    method Summarize(dir: Direction) returns (s: Option<Summary>)
      requires Valid() && EntriesNonZero(rows)
      modifies this
      ensures Valid()
      ensures Size(rows) == 0 ==> s.None? && resultColumn == old(resultColumn)
      ensures Size(rows) > 0 && old(resultColumn).Some? ==> resultColumn == old(resultColumn)
      ensures Size(rows) > 0 && old(resultColumn).None? ==> resultColumn == Some(PriceResults(rows.trades, dir))
      ensures Size(rows) > 0 ==> resultColumn.Some? && s == SummaryOf(rows, resultColumn.value, dir)
    {
      if Size(rows) == 0 {
        return None;
      }
      if resultColumn.None? {
        resultColumn := Some(PriceResults(rows.trades, dir));
      }
      s := SummaryOf(rows, resultColumn.value, dir);
    }
  }
}
