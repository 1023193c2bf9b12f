/**
 * Daily percentage-trigger mode: a daily series is annotated with the moves
 * of each bar relative to the previous close (`preparar_dados_day_trade`),
 * then every day whose open, high or low reaches the test move p percent
 * opens a trade closed at the day's close (`simular_day_trade_com_percentagens`).
 */
module DailyTrigger {
  import opened Trades

  /** The move of a price relative to a previous close, x / prev - 1, as a decimal fraction. */
  function Move(x: real, prev: real): (m: real)
    requires prev != 0.0
  {
    x / prev - 1.0
  }

  /** A move is undone by applying it to the previous close. */
  lemma MoveRoundTrip(x: real, prev: real)
    requires prev != 0.0
    ensures prev * (1.0 + Move(x, prev)) == x
  {
  }

  /**
   * With a positive previous close, a move reaches a threshold t exactly when
   * the price reaches the price level prev * (1 + t), upwards and downwards.
   */
  lemma MoveReaches(x: real, prev: real, t: real)
    requires prev > 0.0
    ensures Move(x, prev) >= t <==> x >= prev * (1.0 + t)
    ensures Move(x, prev) <= t <==> x <= prev * (1.0 + t)
  {
    MoveRoundTrip(x, prev);
    var m := Move(x, prev);
    assert x - prev * (1.0 + t) == prev * (m - t);
  }

  /** A daily bar annotated with its moves relative to the previous bar's close. */
  function PrepareDay(prev: DailyBar, bar: DailyBar): (d: PreparedDay)
    requires prev.close != 0.0
  {
    PreparedDay(bar, Move(bar.open, prev.close), Move(bar.high, prev.close),
                Move(bar.low, prev.close), Move(bar.close, prev.close))
  }

  /**
   * Under a positive previous close the moves keep the order of the prices: a
   * close between the low and the high has its move between theirs.
   */
  lemma PrepareDayInRange(prev: DailyBar, bar: DailyBar)
    requires prev.close > 0.0 && bar.low <= bar.close <= bar.high
    ensures var d := PrepareDay(prev, bar); d.lowMove <= d.closeMove <= d.highMove
  {
    var c := prev.close;
    assert bar.close / c - bar.low / c == (bar.close - bar.low) / c;
    assert bar.high / c - bar.close / c == (bar.high - bar.close) / c;
  }

  /** Every close that serves as the previous close of a later bar is non-zero. */
  predicate PreviousClosesNonZero(bars: seq<DailyBar>)
  {
    forall i :: 0 <= i < |bars| - 1 ==> bars[i].close != 0.0
  }

  /**
   * The prepared series: the first bar has no previous close and is dropped;
   * every other bar is annotated relative to the close of the bar before it
   * in the series (not the previous calendar day).
   */
  function Prepare(bars: seq<DailyBar>): (ps: seq<PreparedDay>)
    requires PreviousClosesNonZero(bars)
    ensures |bars| == 0 ==> |ps| == 0
    ensures |bars| > 0 ==> |ps| == |bars| - 1
    ensures forall k :: 0 <= k < |ps| ==> ps[k].bar == bars[k + 1]
  {
    if |bars| == 0 then []
    else seq(|bars| - 1, k requires 0 <= k < |bars| - 1 => PrepareDay(bars[k], bars[k + 1]))
  }

  /**
   * Over positive closes, every prepared day of a series whose closes lie
   * between their lows and highs has its close move between its low and high
   * moves.
   */
  lemma PrepareInRange(bars: seq<DailyBar>)
    requires forall i :: 0 <= i < |bars| - 1 ==> bars[i].close > 0.0
    requires forall i :: 0 <= i < |bars| ==> bars[i].low <= bars[i].close <= bars[i].high
    ensures PreviousClosesNonZero(bars)
    ensures forall k :: 0 <= k < |Prepare(bars)| ==>
      Prepare(bars)[k].lowMove <= Prepare(bars)[k].closeMove <= Prepare(bars)[k].highMove
  {
    var ps := Prepare(bars);
    forall k | 0 <= k < |ps| ensures ps[k].lowMove <= ps[k].closeMove <= ps[k].highMove {
      assert ps[k] == PrepareDay(bars[k], bars[k + 1]);
      PrepareDayInRange(bars[k], bars[k + 1]);
    }
  }

  /**
   * The prices of every prepared bar are recovered from the previous bar's
   * close and the recorded moves: the annotation loses nothing.
   */
  lemma PrepareRoundTrip(bars: seq<DailyBar>, k: nat)
    requires PreviousClosesNonZero(bars)
    requires k < |Prepare(bars)|
    ensures var d, prev := Prepare(bars)[k], bars[k].close;
      && prev * (1.0 + d.openMove) == d.bar.open
      && prev * (1.0 + d.highMove) == d.bar.high
      && prev * (1.0 + d.lowMove) == d.bar.low
      && prev * (1.0 + d.closeMove) == d.bar.close
  {
    var b, prev := bars[k + 1], bars[k].close;
    MoveRoundTrip(b.open, prev);
    MoveRoundTrip(b.high, prev);
    MoveRoundTrip(b.low, prev);
    MoveRoundTrip(b.close, prev);
  }

  /**
   * The entry point of a day, as a move from the previous close, for a test
   * of pct percent: an open already beyond the threshold enters at the open;
   * otherwise a high (pct > 0) or a low (pct < 0) reaching it enters at the
   * threshold itself. A zero test never triggers.
   */
  function EntryPoint(d: PreparedDay, pct: real): (e: Option<real>)
  {
    var t := pct / 100.0;
    if (t > 0.0 && d.openMove >= t) || (t < 0.0 && d.openMove <= t) then Some(d.openMove)
    else if t > 0.0 && d.highMove >= t then Some(t)
    else if t < 0.0 && d.lowMove <= t then Some(t)
    else None
  }

  /**
   * A day triggers exactly when, for a positive test, its open or its high
   * reaches the threshold, or, for a negative test, its open or its low does;
   * so a zero test never triggers.
   */
  lemma EntryPointTriggers(d: PreparedDay, pct: real)
    ensures var t := pct / 100.0;
      EntryPoint(d, pct).Some? <==>
        (t > 0.0 && (d.openMove >= t || d.highMove >= t)) ||
        (t < 0.0 && (d.openMove <= t || d.lowMove <= t))
    ensures pct == 0.0 ==> EntryPoint(d, pct).None?
  {
  }

  /**
   * The entry is the open when the open already reached the threshold and the
   * threshold otherwise; it is never on the near side of the threshold, and
   * when the bar's open lies within its range, neither is the entry.
   */
  lemma EntryPointLevel(d: PreparedDay, pct: real)
    requires EntryPoint(d, pct).Some?
    ensures var t, e := pct / 100.0, EntryPoint(d, pct).value;
      && (t > 0.0 ==> e >= t && (d.openMove >= t ==> e == d.openMove) && (d.openMove < t ==> e == t))
      && (t < 0.0 ==> e <= t && (d.openMove <= t ==> e == d.openMove) && (d.openMove > t ==> e == t))
      && (d.lowMove <= d.openMove <= d.highMove ==> d.lowMove <= e <= d.highMove)
  {
  }

  /**
   * Over a prepared series with positive closes, the move test is the price
   * test: the day triggers exactly when its open or high (positive test), or
   * its open or low (negative test), reaches the previous close moved by pct
   * percent.
   */
  lemma EntryPointIsPriceTest(bars: seq<DailyBar>, k: nat, pct: real)
    requires PreviousClosesNonZero(bars)
    requires k < |Prepare(bars)| && bars[k].close > 0.0
    ensures var b, level := bars[k + 1], bars[k].close * (1.0 + pct / 100.0);
      EntryPoint(Prepare(bars)[k], pct).Some? <==>
        (pct > 0.0 && (b.open >= level || b.high >= level)) ||
        (pct < 0.0 && (b.open <= level || b.low <= level))
  {
    var b, prev, t := bars[k + 1], bars[k].close, pct / 100.0;
    EntryPointTriggers(Prepare(bars)[k], pct);
    MoveReaches(b.open, prev, t);
    MoveReaches(b.high, prev, t);
    MoveReaches(b.low, prev, t);
  }

  /** The result of a trade: close minus entry bought, entry minus close sold. */
  function Result(entry: real, closeMove: real, dir: Direction): (r: real)
  {
    match dir
    case Long => closeMove - entry
    case Short => entry - closeMove
  }

  /**
   * A short result is the negated long result, and a long trade gains exactly
   * when the close ends beyond the entry.
   */
  lemma ResultDirections(entry: real, closeMove: real)
    ensures Result(entry, closeMove, Short) == -Result(entry, closeMove, Long)
    ensures Result(entry, closeMove, Long) > 0.0 <==> closeMove > entry
    ensures Result(entry, closeMove, Short) > 0.0 <==> closeMove < entry
  {
  }

  /** The trade of one prepared day, when it triggers. */
  function DayTradeOf(d: PreparedDay, pct: real, dir: Direction): (t: Option<DayTrade>)
  {
    match EntryPoint(d, pct)
    case None => None
    case Some(e) =>
      var b := d.bar;
      Some(DayTrade(b.date, b.weekday, b.open, b.high, b.low, b.close,
                    d.openMove, d.highMove, d.lowMove, d.closeMove,
                    Result(e, d.closeMove, dir), e))
  }

  /**
   * A day yields a trade exactly when it triggers; the trade carries the day's
   * bar and moves, its entry point, and the result of that entry held to the
   * close.
   */
  lemma DayTradeOfTrade(d: PreparedDay, pct: real, dir: Direction)
    ensures DayTradeOf(d, pct, dir).Some? <==> EntryPoint(d, pct).Some?
    ensures DayTradeOf(d, pct, dir).Some? ==>
      var t, b := DayTradeOf(d, pct, dir).value, d.bar;
      && t.date == b.date && t.weekday == b.weekday
      && t.open == b.open && t.high == b.high && t.low == b.low && t.close == b.close
      && t.openMove == d.openMove && t.highMove == d.highMove
      && t.lowMove == d.lowMove && t.closeMove == d.closeMove
      && t.entryMove == EntryPoint(d, pct).value
      && (dir == Long ==> t.result == t.closeMove - t.entryMove)
      && (dir == Short ==> t.result == t.entryMove - t.closeMove)
  {
  }

  function DayTradeOutcomes(days: seq<PreparedDay>, pct: real, dir: Direction): (os: seq<Option<DayTrade>>)
    ensures |os| == |days|
    ensures forall i :: 0 <= i < |days| ==> os[i] == DayTradeOf(days[i], pct, dir)
  {
    seq(|days|, i requires 0 <= i < |days| => DayTradeOf(days[i], pct, dir))
  }

  /** The trades of the run: one per triggering day, in the order of the series. */
  function DayTrades(days: seq<PreparedDay>, pct: real, dir: Direction): (ts: seq<DayTrade>)
  {
    Collect(DayTradeOutcomes(days, pct, dir))
  }

  /**
   * A run has no trade exactly when no day triggers, which is always the case
   * for a zero test; every trade comes from one day and every day that trades
   * contributes its trade; and when the dates of the
   * series increase, so do the dates of the trades.
   */
  lemma DayTradesShape(days: seq<PreparedDay>, pct: real, dir: Direction)
    ensures DayTrades(days, pct, dir) == [] <==>
      forall i :: 0 <= i < |days| ==> EntryPoint(days[i], pct).None?
    ensures pct == 0.0 ==> DayTrades(days, pct, dir) == []
    ensures forall k :: 0 <= k < |DayTrades(days, pct, dir)| ==>
      CollectedFrom(DayTradeOutcomes(days, pct, dir), DayTrades(days, pct, dir)[k])
    ensures forall i :: 0 <= i < |days| && DayTradeOf(days[i], pct, dir).Some? ==>
      DayTradeOf(days[i], pct, dir).value in DayTrades(days, pct, dir)
  {
    var os := DayTradeOutcomes(days, pct, dir);
    CollectEmpty(os);
    CollectSources(os);
    CollectComplete(os);
    forall i | 0 <= i < |days|
      ensures os[i].Some? <==> EntryPoint(days[i], pct).Some?
      ensures pct == 0.0 ==> EntryPoint(days[i], pct).None?
    {
      DayTradeOfTrade(days[i], pct, dir);
      EntryPointTriggers(days[i], pct);
    }
  }

  /**
   * Over prepared days whose close moves lie between their low and high moves,
   * every trade keeps that order and carries the result of its entry held to
   * the close.
   */
  lemma DayTradesInRange(days: seq<PreparedDay>, pct: real, dir: Direction)
    requires forall i :: 0 <= i < |days| ==> days[i].lowMove <= days[i].closeMove <= days[i].highMove
    ensures forall k :: 0 <= k < |DayTrades(days, pct, dir)| ==>
      var t := DayTrades(days, pct, dir)[k];
      t.lowMove <= t.closeMove <= t.highMove && t.result == Result(t.entryMove, t.closeMove, dir)
  {
    var os, ts := DayTradeOutcomes(days, pct, dir), DayTrades(days, pct, dir);
    CollectSources(os);
    forall k | 0 <= k < |ts|
      ensures ts[k].lowMove <= ts[k].closeMove <= ts[k].highMove
      ensures ts[k].result == Result(ts[k].entryMove, ts[k].closeMove, dir)
    {
      var i :| 0 <= i < |os| && os[i] == Some(ts[k]);
      DayTradeOfTrade(days[i], pct, dir);
    }
  }

  lemma DayTradesInDayOrder(days: seq<PreparedDay>, pct: real, dir: Direction)
    requires forall i, j :: 0 <= i < j < |days| ==> days[i].bar.date < days[j].bar.date
    ensures forall k, l :: 0 <= k < l < |DayTrades(days, pct, dir)| ==>
      DayTrades(days, pct, dir)[k].date < DayTrades(days, pct, dir)[l].date
  {
    var os := DayTradeOutcomes(days, pct, dir);
    var dates := seq(|days|, i requires 0 <= i < |days| => days[i].bar.date);
    CollectInOrder(os, (t: DayTrade) => t.date, dates);
  }

  /**
   * Simulates the daily trigger over a prepared series and collects one trade
   * per triggering day; no trade at all gives None.
   */
  method SimulateDayTrade(days: seq<PreparedDay>, pct: real, dir: Direction) returns (r: Option<seq<DayTrade>>)
    ensures r.None? <==> DayTrades(days, pct, dir) == []
    ensures r.Some? ==> r.value == DayTrades(days, pct, dir)
  {
    ghost var os := DayTradeOutcomes(days, pct, dir);
    var trades: seq<DayTrade> := [];
    var i := 0;
    while i < |days|
      invariant 0 <= i <= |days|
      invariant trades == Collect(os[..i])
    {
      var t := DayTradeOf(days[i], pct, dir);
      if t.Some? {
        trades := trades + [t.value];
      }
      CollectStep(os, i);
      i := i + 1;
    }
    assert os[..|days|] == os;
    if trades == [] {
      return None;
    }
    return Some(trades);
  }
}
