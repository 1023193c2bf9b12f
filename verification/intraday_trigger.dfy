/**
 * Intraday trigger mode (`aplicar_gatilho_e_criar_resumo`): for each day whose
 * previous calendar day has bars, the trigger price is that day's last close
 * moved by p percent; the first bar of the day that reaches it opens a trade
 * at the trigger price, held until the exit time of day.
 */
module IntradayTrigger {
  import opened Trades
  import opened Scan

  /** Days strictly increasing by date: a sorted index grouped by calendar date. */
  predicate DatesIncreasing(days: seq<Day>)
  {
    forall i, j :: 0 <= i < j < |days| ==> days[i].date < days[j].date
  }

  /**
   * The close of the previous calendar day (date - 1), taken from the day just
   * before in the series; absent when that day is not date - 1 or has no bars,
   * as the daily resample shifted by one day is then missing.
   */
  function PriorClose(days: seq<Day>, i: nat): (c: Option<real>)
    requires i < |days|
  {
    if i > 0 && days[i - 1].date == days[i].date - 1 && |days[i - 1].bars| > 0
    then Some(days[i - 1].bars[|days[i - 1].bars| - 1].close)
    else None
  }

  /** When dates increase, a prior close exists exactly when some day of the series is date - 1 and has bars. */
  lemma PriorCloseIsPreviousCalendarDay(days: seq<Day>, i: nat)
    requires DatesIncreasing(days) && i < |days|
    ensures PriorClose(days, i).Some? <==>
      exists j :: 0 <= j < |days| && days[j].date == days[i].date - 1 && |days[j].bars| > 0
  {
    if j :| 0 <= j < |days| && days[j].date == days[i].date - 1 && |days[j].bars| > 0 {
      assert j < i;
      if j < i - 1 {
        assert days[j].date < days[i - 1].date < days[i].date;
      }
    }
  }

  /** prior_close * (1 + p / 100). */
  function TriggerPrice(priorClose: real, p: real): (price: real)
  {
    priorClose * (1.0 + p / 100.0)
  }

  /**
   * The trade of one day, given the previous close: p > 0 looks for a high at
   * or above the trigger price, any other p (zero included) for a low at or
   * below it. The exit is the close of the latest bar at or before the exit
   * time, recorded at the exit time itself, the label `asof` gives its row.
   */
  function TriggerDay(priorClose: real, day: Day, p: real, exitTime: int): (t: Option<PriceTrade>)
  {
    var price := TriggerPrice(priorClose, p);
    match FirstCrossing(day.bars, price, p > 0.0)
    case None => None
    case Some(i) =>
      var entryTime := day.bars[i].time;
      if exitTime <= entryTime then None
      else
        match LastAtOrBefore(day.bars, exitTime)
        case None => None
        case Some(x) =>
          var held := Window(day.bars, entryTime, exitTime);
          if |held| == 0 then None
          else
            var top, bottom := Top(day.bars, entryTime, exitTime), Bottom(day.bars, entryTime, exitTime);
            Some(PriceTrade(day.date, day.weekday, entryTime, price,
                            top.time, top.high, bottom.time, bottom.low,
                            exitTime, day.bars[x].close))
  }

  /**
   * A day yields no trade exactly when no bar reaches the trigger price, or
   * when the exit time is not later than the first bar that does.
   */
  lemma TriggerDayNoTrade(priorClose: real, day: Day, p: real, exitTime: int)
    ensures var price := TriggerPrice(priorClose, p);
      TriggerDay(priorClose, day, p, exitTime).None? <==>
        (forall j :: 0 <= j < |day.bars| ==> !Crosses(day.bars[j], price, p > 0.0)) ||
        (exists i :: 0 <= i < |day.bars| && Crosses(day.bars[i], price, p > 0.0) &&
                     (forall j :: 0 <= j < i ==> !Crosses(day.bars[j], price, p > 0.0)) &&
                     exitTime <= day.bars[i].time)
  {
    var price := TriggerPrice(priorClose, p);
    match FirstCrossing(day.bars, price, p > 0.0)
    case None =>
    case Some(i) =>
      var entry := day.bars[i];
      forall k | 0 <= k < |day.bars| && Crosses(day.bars[k], price, p > 0.0) &&
                 (forall j :: 0 <= j < k ==> !Crosses(day.bars[j], price, p > 0.0))
        ensures k == i
      {
      }
      if exitTime > entry.time {
        assert LastAtOrBefore(day.bars, exitTime).Some?;
        assert entry in Window(day.bars, entry.time, exitTime);
      }
  }

  /**
   * The entry of a trade: the first bar of the day that reaches the trigger
   * price gives the entry time, and the entry price is the trigger price
   * itself, not a field of that bar. The exit time is later than the entry.
   */
  lemma TriggerDayEntry(priorClose: real, day: Day, p: real, exitTime: int)
    requires TriggerDay(priorClose, day, p, exitTime).Some?
    ensures var t := TriggerDay(priorClose, day, p, exitTime).value;
      var price := TriggerPrice(priorClose, p);
      && t.date == day.date && t.weekday == day.weekday
      && t.entry == price
      && exitTime > t.entryTime
      && exists i :: 0 <= i < |day.bars| && day.bars[i].time == t.entryTime &&
                     Crosses(day.bars[i], price, p > 0.0) &&
                     (forall j :: 0 <= j < i ==> !Crosses(day.bars[j], price, p > 0.0))
  {
  }

  /**
   * The exit of a trade, under time order: it is recorded at the exit time,
   * later than the entry, at the close of the latest bar at or before the
   * exit time, a bar no earlier than the entry.
   */
  lemma TriggerDayExit(priorClose: real, day: Day, p: real, exitTime: int)
    requires BarsInOrder(day.bars)
    requires TriggerDay(priorClose, day, p, exitTime).Some?
    ensures var t := TriggerDay(priorClose, day, p, exitTime).value;
      && t.exitTime == exitTime && t.entryTime < t.exitTime
      && exists x :: x in day.bars && x.close == t.exit && t.entryTime <= x.time <= exitTime &&
                     forall b :: b in day.bars && b.time <= exitTime ==> b.time <= x.time
  {
    var i := FirstCrossing(day.bars, TriggerPrice(priorClose, p), p > 0.0).value;
    var x := LastAtOrBefore(day.bars, exitTime).value;
    assert day.bars[x] in day.bars;
    AsOfIsLatest(day.bars, exitTime);
    assert day.bars[i] in day.bars;
  }

  /**
   * The extremes of a trade, under time order: the recorded high is the
   * highest high of the bars between entry and exit (both included), is the
   * high of one of them, and its time is that of the earliest bar attaining
   * it; dually for the recorded low.
   */
  lemma TriggerDayExtremes(priorClose: real, day: Day, p: real, exitTime: int, t: PriceTrade)
    requires BarsInOrder(day.bars)
    requires TriggerDay(priorClose, day, p, exitTime) == Some(t)
    ensures && (forall b :: b in day.bars && t.entryTime <= b.time <= exitTime ==> t.low <= b.low && b.high <= t.high)
      && (exists b :: b in day.bars && t.entryTime <= b.time <= exitTime && b.high == t.high && b.time == t.highTime)
      && (exists b :: b in day.bars && t.entryTime <= b.time <= exitTime && b.low == t.low && b.time == t.lowTime)
      && (forall b :: b in day.bars && t.entryTime <= b.time <= exitTime && b.high == t.high ==> t.highTime <= b.time)
      && (forall b :: b in day.bars && t.entryTime <= b.time <= exitTime && b.low == t.low ==> t.lowTime <= b.time)
  {
    HeldExtremes(priorClose, day, p, exitTime);
    HeldWindowExtremes(day.bars, t.entryTime, exitTime, t);
  }

  /** A record carrying the top and bottom bars of a window bounds, and is attained in, that window. */
  lemma HeldWindowExtremes(bars: seq<Bar>, lo: int, hi: int, t: PriceTrade)
    requires BarsInOrder(bars) && |Window(bars, lo, hi)| > 0
    requires t.high == Top(bars, lo, hi).high && t.highTime == Top(bars, lo, hi).time
    requires t.low == Bottom(bars, lo, hi).low && t.lowTime == Bottom(bars, lo, hi).time
    ensures forall b :: b in bars && lo <= b.time <= hi ==> t.low <= b.low && b.high <= t.high
    ensures exists b :: b in bars && lo <= b.time <= hi && b.high == t.high && b.time == t.highTime
    ensures exists b :: b in bars && lo <= b.time <= hi && b.low == t.low && b.time == t.lowTime
    ensures forall b :: b in bars && lo <= b.time <= hi && b.high == t.high ==> t.highTime <= b.time
    ensures forall b :: b in bars && lo <= b.time <= hi && b.low == t.low ==> t.lowTime <= b.time
  {
    WindowHighest(bars, lo, hi);
    WindowLowest(bars, lo, hi);
  }

  /** The recorded extremes are those of the top and bottom bars of the non-empty held window. */
  lemma HeldExtremes(priorClose: real, day: Day, p: real, exitTime: int)
    requires TriggerDay(priorClose, day, p, exitTime).Some?
    ensures var t := TriggerDay(priorClose, day, p, exitTime).value;
      var top, bottom := Top(day.bars, t.entryTime, exitTime), Bottom(day.bars, t.entryTime, exitTime);
      && |Window(day.bars, t.entryTime, exitTime)| > 0
      && t.high == top.high && t.highTime == top.time
      && t.low == bottom.low && t.lowTime == bottom.time
  {
  }

  /**
   * Over sound, time-ordered bars a trade exits between its lowest low and its
   * highest high, the exit bar being one of the bars it is held over; with a
   * positive previous close its entry price is positive: a rise keeps the
   * price positive, and a fall is only reached by a bar whose low is positive.
   */
  lemma TriggerDayInRange(priorClose: real, day: Day, p: real, exitTime: int)
    requires BarsInOrder(day.bars) && SoundBars(day.bars)
    requires priorClose > 0.0
    requires TriggerDay(priorClose, day, p, exitTime).Some?
    ensures var t := TriggerDay(priorClose, day, p, exitTime).value;
      t.entry > 0.0 && t.low <= t.exit <= t.high
  {
    var t := TriggerDay(priorClose, day, p, exitTime).value;
    TriggerDayEntry(priorClose, day, p, exitTime);
    TriggerDayExit(priorClose, day, p, exitTime);
    TriggerDayExtremes(priorClose, day, p, exitTime, t);
    var x :| x in day.bars && x.close == t.exit && t.entryTime <= x.time <= exitTime;
    assert t.low <= x.low && x.high <= t.high;
    if p > 0.0 {
      TriggerPricePositive(priorClose, p);
    } else {
      var i :| 0 <= i < |day.bars| && day.bars[i].time == t.entryTime && Crosses(day.bars[i], t.entry, false);
      assert day.bars[i] in day.bars;
    }
  }

  lemma TriggerPricePositive(priorClose: real, p: real)
    requires priorClose > 0.0 && p > -100.0
    ensures TriggerPrice(priorClose, p) > 0.0
  {
    assert 1.0 + p / 100.0 > 0.0;
  }

  /** The trade of day i, when it has a prior close and its trigger yields one. */
  function DayOutcome(days: seq<Day>, i: nat, p: real, exitTime: int): (t: Option<PriceTrade>)
    requires i < |days|
  {
    match PriorClose(days, i)
    case None => None
    case Some(c) => TriggerDay(c, days[i], p, exitTime)
  }

  /** The outcome of every day of the series, in order. */
  function DayOutcomes(days: seq<Day>, p: real, exitTime: int): (os: seq<Option<PriceTrade>>)
    ensures |os| == |days|
    ensures forall i :: 0 <= i < |days| ==> os[i] == DayOutcome(days, i, p, exitTime)
  {
    seq(|days|, i requires 0 <= i < |days| => DayOutcome(days, i, p, exitTime))
  }

  /** The trades of the run: one per day whose outcome is present, in day order. */
  function TriggerTrades(days: seq<Day>, p: real, exitTime: int): (ts: seq<PriceTrade>)
  {
    Collect(DayOutcomes(days, p, exitTime))
  }

  lemma DayOutcomeDate(days: seq<Day>, i: nat, p: real, exitTime: int)
    requires i < |days| && DayOutcome(days, i, p, exitTime).Some?
    ensures DayOutcome(days, i, p, exitTime).value.date == days[i].date
  {
  }

  /**
   * Every trade of the run is the outcome of one day of the series, every
   * day's outcome appears among the trades, and the run has no trade exactly
   * when no day has an outcome.
   */
  lemma TriggerTradesFromDays(days: seq<Day>, p: real, exitTime: int)
    ensures forall k :: 0 <= k < |TriggerTrades(days, p, exitTime)| ==>
      CollectedFrom(DayOutcomes(days, p, exitTime), TriggerTrades(days, p, exitTime)[k])
    ensures TriggerTrades(days, p, exitTime) == [] <==>
      forall i :: 0 <= i < |days| ==> DayOutcome(days, i, p, exitTime).None?
    ensures forall i :: 0 <= i < |days| && DayOutcome(days, i, p, exitTime).Some? ==>
      DayOutcome(days, i, p, exitTime).value in TriggerTrades(days, p, exitTime)
  {
    CollectSources(DayOutcomes(days, p, exitTime));
    CollectEmpty(DayOutcomes(days, p, exitTime));
    CollectComplete(DayOutcomes(days, p, exitTime));
  }

  /** Every trade of a run over sound, time-ordered days meets the bounds of TriggerDayInRange. */
  lemma TriggerTradesInRange(days: seq<Day>, p: real, exitTime: int)
    requires forall i :: 0 <= i < |days| ==> BarsInOrder(days[i].bars) && SoundBars(days[i].bars)
    ensures forall k :: 0 <= k < |TriggerTrades(days, p, exitTime)| ==>
      var t := TriggerTrades(days, p, exitTime)[k];
      t.entry > 0.0 && t.low <= t.exit <= t.high
  {
    var os, ts := DayOutcomes(days, p, exitTime), TriggerTrades(days, p, exitTime);
    CollectSources(os);
    forall k | 0 <= k < |ts| ensures ts[k].entry > 0.0 && ts[k].low <= ts[k].exit <= ts[k].high {
      var i :| 0 <= i < |os| && os[i] == Some(ts[k]);
      DayOutcomeInRange(days, i, p, exitTime);
    }
  }

  lemma DayOutcomeInRange(days: seq<Day>, i: nat, p: real, exitTime: int)
    requires i < |days| && BarsInOrder(days[i].bars) && SoundBars(days[i].bars)
    requires i > 0 ==> SoundBars(days[i - 1].bars)
    requires DayOutcome(days, i, p, exitTime).Some?
    ensures var t := DayOutcome(days, i, p, exitTime).value;
      t.entry > 0.0 && t.low <= t.exit <= t.high
  {
    var c := PriorClose(days, i).value;
    var prev := days[i - 1].bars;
    assert prev[|prev| - 1] in prev;
    TriggerDayInRange(c, days[i], p, exitTime);
  }

  /** When dates increase, trades come in strictly increasing date order: at most one per day. */
  lemma TriggerTradesInDayOrder(days: seq<Day>, p: real, exitTime: int)
    requires DatesIncreasing(days)
    ensures forall k, l :: 0 <= k < l < |TriggerTrades(days, p, exitTime)| ==>
      TriggerTrades(days, p, exitTime)[k].date < TriggerTrades(days, p, exitTime)[l].date
  {
    var os := DayOutcomes(days, p, exitTime);
    var dates := seq(|days|, i requires 0 <= i < |days| => days[i].date);
    forall i | 0 <= i < |os| && os[i].Some? ensures os[i].value.date == dates[i] {
      DayOutcomeDate(days, i, p, exitTime);
    }
    CollectInOrder(os, (t: PriceTrade) => t.date, dates);
  }

  /**
   * Runs the trigger over every day and collects one trade per triggering
   * day; no trade at all gives None.
   */
  method ApplyTrigger(days: seq<Day>, p: real, exitTime: int) returns (r: Option<seq<PriceTrade>>)
    ensures r.None? <==> TriggerTrades(days, p, exitTime) == []
    ensures r.Some? ==> r.value == TriggerTrades(days, p, exitTime)
  {
    ghost var os := DayOutcomes(days, p, exitTime);
    var trades: seq<PriceTrade> := [];
    var i := 0;
    while i < |days|
      invariant 0 <= i <= |days|
      invariant trades == Collect(os[..i])
    {
      var t := DayOutcome(days, i, p, exitTime);
      if t.Some? {
        trades := trades + [t.value];
      }
      CollectStep(os, i);
      i := i + 1;
    }
    assert os[..|days|] == os;
    if trades == [] {
      return None;
    }
    return Some(trades);
  }
}
