/**
 * Fixed time-window mode (`criar_resumo_por_horario_fixo`): for each day, the
 * trade enters at the open of the first bar whose time lies in [start, end]
 * and exits at the close of the last such bar.
 */
module FixedWindow {
  import opened Trades
  import opened Scan

  /**
   * The trade of one day; none when start >= end (checked for every day, as
   * the source does inside its loop) or when no bar lies in the window.
   */
  function WindowDay(day: Day, start: int, end: int): (t: Option<PriceTrade>)
  {
    if start >= end then None
    else
      var w := Window(day.bars, start, end);
      if |w| == 0 then None
      else
        var first, last := w[0], w[|w| - 1];
        var top, bottom := Top(day.bars, start, end), Bottom(day.bars, start, end);
        Some(PriceTrade(day.date, day.weekday, first.time, first.open,
                        top.time, top.high, bottom.time, bottom.low,
                        last.time, last.close))
  }

  /** A day yields no trade exactly when start >= end or none of its bars lies in [start, end]. */
  lemma WindowDayNoTrade(day: Day, start: int, end: int)
    ensures WindowDay(day, start, end).None? <==>
      start >= end || forall b :: b in day.bars ==> !InWindow(b, start, end)
  {
    if start < end && |Window(day.bars, start, end)| > 0 {
      var w := Window(day.bars, start, end);
      assert w[0] in w;
    }
  }

  /**
   * The entry of a trade is the open of the first bar of the day (in series
   * order) inside [start, end]; the trade keeps the day's date and weekday.
   */
  lemma WindowDayEntry(day: Day, start: int, end: int)
    requires WindowDay(day, start, end).Some?
    ensures var t := WindowDay(day, start, end).value;
      && t.date == day.date && t.weekday == day.weekday
      && exists i :: 0 <= i < |day.bars| && InWindow(day.bars[i], start, end) &&
                     day.bars[i].time == t.entryTime && day.bars[i].open == t.entry &&
                     (forall j :: 0 <= j < i ==> !InWindow(day.bars[j], start, end))
  {
    var w := Window(day.bars, start, end);
    WindowFirst(day.bars, start, end);
    assert w[0] in w;
  }

  /** The exit of a trade is the close of the last bar of the day (in series order) inside [start, end]. */
  lemma WindowDayExit(day: Day, start: int, end: int)
    requires WindowDay(day, start, end).Some?
    ensures var t := WindowDay(day, start, end).value;
      exists i :: 0 <= i < |day.bars| && InWindow(day.bars[i], start, end) &&
                  day.bars[i].time == t.exitTime && day.bars[i].close == t.exit &&
                  (forall j :: i < j < |day.bars| ==> !InWindow(day.bars[j], start, end))
  {
    var w := Window(day.bars, start, end);
    WindowLast(day.bars, start, end);
    var i :| IsLastInWindow(day.bars, start, end, i);
    assert w[|w| - 1] in w;
  }

  /**
   * The extremes of a trade, under time order: the recorded high is the
   * highest high among the day's bars in [start, end], is the high of one of
   * them, and its time is that of the earliest bar attaining it; dually for
   * the recorded low.
   */
  lemma WindowDayExtremes(day: Day, start: int, end: int)
    requires BarsInOrder(day.bars)
    requires WindowDay(day, start, end).Some?
    ensures var t := WindowDay(day, start, end).value;
      && (forall b :: b in day.bars && InWindow(b, start, end) ==> t.low <= b.low && b.high <= t.high)
      && (exists b :: b in day.bars && InWindow(b, start, end) && b.high == t.high && b.time == t.highTime)
      && (exists b :: b in day.bars && InWindow(b, start, end) && b.low == t.low && b.time == t.lowTime)
      && (forall b :: b in day.bars && InWindow(b, start, end) && b.high == t.high ==> t.highTime <= b.time)
      && (forall b :: b in day.bars && InWindow(b, start, end) && b.low == t.low ==> t.lowTime <= b.time)
  {
    WindowHighest(day.bars, start, end);
    WindowLowest(day.bars, start, end);
  }

  /**
   * Over sound, time-ordered bars a trade exits between its lowest low and its
   * highest high, the exit bar lying in the window, and enters at a positive
   * price.
   */
  lemma WindowDayInRange(day: Day, start: int, end: int)
    requires BarsInOrder(day.bars) && SoundBars(day.bars)
    requires WindowDay(day, start, end).Some?
    ensures var t := WindowDay(day, start, end).value;
      t.entry > 0.0 && t.low <= t.exit <= t.high
  {
    var t := WindowDay(day, start, end).value;
    WindowDayEntry(day, start, end);
    WindowDayExit(day, start, end);
    WindowDayExtremes(day, start, end);
    var e :| 0 <= e < |day.bars| && day.bars[e].open == t.entry;
    assert day.bars[e] in day.bars;
    var x :| 0 <= x < |day.bars| && InWindow(day.bars[x], start, end) && day.bars[x].close == t.exit;
    assert day.bars[x] in day.bars;
  }

  function WindowOutcomes(days: seq<Day>, start: int, end: int): (os: seq<Option<PriceTrade>>)
    ensures |os| == |days|
    ensures forall i :: 0 <= i < |days| ==> os[i] == WindowDay(days[i], start, end)
  {
    seq(|days|, i requires 0 <= i < |days| => WindowDay(days[i], start, end))
  }

  /** The trades of the run: one per day with a non-empty window, in day order. */
  function WindowTrades(days: seq<Day>, start: int, end: int): (ts: seq<PriceTrade>)
  {
    Collect(WindowOutcomes(days, start, end))
  }

  /**
   * A run has no trade exactly when start >= end or no day has a bar inside
   * [start, end]; every trade comes from one day, every day with a window bar
   * contributes its trade, and trades follow the day
   * order of the series.
   */
  lemma WindowTradesShape(days: seq<Day>, start: int, end: int)
    ensures WindowTrades(days, start, end) == [] <==>
      start >= end || forall i :: 0 <= i < |days| ==> forall b :: b in days[i].bars ==> !InWindow(b, start, end)
    ensures forall k :: 0 <= k < |WindowTrades(days, start, end)| ==>
      CollectedFrom(WindowOutcomes(days, start, end), WindowTrades(days, start, end)[k])
    ensures forall i :: 0 <= i < |days| && WindowDay(days[i], start, end).Some? ==>
      WindowDay(days[i], start, end).value in WindowTrades(days, start, end)
  {
    var os := WindowOutcomes(days, start, end);
    CollectEmpty(os);
    CollectSources(os);
    CollectComplete(os);
    forall i | 0 <= i < |days|
      ensures os[i].None? <==> start >= end || forall b :: b in days[i].bars ==> !InWindow(b, start, end)
    {
      WindowDayNoTrade(days[i], start, end);
    }
  }

  /** Every trade of a run over sound, time-ordered days meets the bounds of WindowDayInRange. */
  lemma WindowTradesInRange(days: seq<Day>, start: int, end: int)
    requires forall i :: 0 <= i < |days| ==> BarsInOrder(days[i].bars) && SoundBars(days[i].bars)
    ensures forall k :: 0 <= k < |WindowTrades(days, start, end)| ==>
      var t := WindowTrades(days, start, end)[k];
      t.entry > 0.0 && t.low <= t.exit <= t.high
  {
    var os, ts := WindowOutcomes(days, start, end), WindowTrades(days, start, end);
    CollectSources(os);
    forall k | 0 <= k < |ts| ensures ts[k].entry > 0.0 && ts[k].low <= ts[k].exit <= ts[k].high {
      var i :| 0 <= i < |os| && os[i] == Some(ts[k]);
      WindowDayInRange(days[i], start, end);
    }
  }

  lemma WindowTradesInDayOrder(days: seq<Day>, start: int, end: int)
    requires forall i, j :: 0 <= i < j < |days| ==> days[i].date < days[j].date
    ensures forall k, l :: 0 <= k < l < |WindowTrades(days, start, end)| ==>
      WindowTrades(days, start, end)[k].date < WindowTrades(days, start, end)[l].date
  {
    var os := WindowOutcomes(days, start, end);
    var dates := seq(|days|, i requires 0 <= i < |days| => days[i].date);
    CollectInOrder(os, (t: PriceTrade) => t.date, dates);
  }

  /**
   * Builds one trade per day with a non-empty window; no trade at all, which
   * is always the case when start >= end, gives None.
   */
  method FixedWindowTrades(days: seq<Day>, start: int, end: int) returns (r: Option<seq<PriceTrade>>)
    ensures start >= end ==> r.None?
    ensures r.None? <==> WindowTrades(days, start, end) == []
    ensures r.Some? ==> r.value == WindowTrades(days, start, end)
  {
    ghost var os := WindowOutcomes(days, start, end);
    var trades: seq<PriceTrade> := [];
    var i := 0;
    while i < |days|
      invariant 0 <= i <= |days|
      invariant trades == Collect(os[..i])
      invariant start >= end ==> trades == []
    {
      var t := WindowDay(days[i], start, end);
      if t.Some? {
        trades := trades + [t.value];
      }
      CollectStep(os, i);
      i := i + 1;
    }
    assert os[..|days|] == os;
    if trades == [] {
      return None;
    }
    return Some(trades);
  }
}
