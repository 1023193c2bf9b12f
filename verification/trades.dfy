/**
 * The records the backtest engine passes between its stages: price bars,
 * calendar days of intraday bars, daily bars with their moves relative to the
 * previous close, and the two kinds of trade record the builders emit.
 */
module Trades {

  datatype Option<+T> = None | Some(value: T)

  /** The list that a pandas "append if found" builds from an optional record. */
  function AsSeq<T>(o: Option<T>): (s: seq<T>)
    ensures o.None? ==> s == []
    ensures o.Some? ==> s == [o.value]
  {
    if o.Some? then [o.value] else []
  }

  /**
   * The records a day-by-day loop appends: one per day whose outcome is
   * present, in day order.
   */
  function Collect<T>(os: seq<Option<T>>): (r: seq<T>)
    ensures |r| <= |os|
  {
    if os == [] then [] else Collect(os[..|os| - 1]) + AsSeq(os[|os| - 1])
  }

  lemma CollectStep<T>(os: seq<Option<T>>, i: nat)
    requires i < |os|
    ensures Collect(os[..i + 1]) == Collect(os[..i]) + AsSeq(os[i])
  {
    assert os[..i + 1][..i] == os[..i];
  }

  /** Nothing is collected exactly when no outcome is present. */
  lemma {:induction false} CollectEmpty<T>(os: seq<Option<T>>)
    ensures Collect(os) == [] <==> forall i :: 0 <= i < |os| ==> os[i].None?
  {
    if os != [] {
      var init := os[..|os| - 1];
      CollectEmpty(init);
      assert forall i :: 0 <= i < |init| ==> init[i] == os[i];
    }
  }

  ghost predicate CollectedFrom<T>(os: seq<Option<T>>, x: T)
  {
    exists i :: 0 <= i < |os| && os[i] == Some(x)
  }

  /** Every collected record is the outcome of one of the days. */
  lemma {:induction false} CollectSources<T>(os: seq<Option<T>>)
    ensures forall k :: 0 <= k < |Collect(os)| ==> CollectedFrom(os, Collect(os)[k])
  {
    if os != [] {
      var init := os[..|os| - 1];
      CollectSources(init);
      var r := Collect(os);
      forall k | 0 <= k < |r| ensures CollectedFrom(os, r[k]) {
        if k < |Collect(init)| {
          assert r[k] == Collect(init)[k];
          assert CollectedFrom(init, r[k]);
          var i :| 0 <= i < |init| && init[i] == Some(r[k]);
          assert os[i] == Some(r[k]);
        } else {
          assert os[|os| - 1] == Some(r[k]);
        }
      }
    }
  }

  /** Every present outcome is collected: no day's record is lost. */
  lemma {:induction false} CollectComplete<T>(os: seq<Option<T>>)
    ensures forall i :: 0 <= i < |os| && os[i].Some? ==> os[i].value in Collect(os)
  {
    if os != [] {
      CollectComplete(os[..|os| - 1]);
      CollectCompleteStep(os);
    }
  }

  ghost predicate AllCollected<T>(os: seq<Option<T>>)
  {
    forall i :: 0 <= i < |os| && os[i].Some? ==> os[i].value in Collect(os)
  }

  lemma CollectCompleteStep<T>(os: seq<Option<T>>)
    requires os != [] && AllCollected(os[..|os| - 1])
    ensures AllCollected(os)
  {
    var init := os[..|os| - 1];
    assert Collect(os) == Collect(init) + AsSeq(os[|os| - 1]);
    forall i | 0 <= i < |os| && os[i].Some? ensures os[i].value in Collect(os) {
      if i < |os| - 1 {
        assert init[i] == os[i];
      }
    }
  }

  /**
   * When each present outcome carries the key of its day and the keys of the
   * days strictly increase, the collected records have strictly increasing
   * keys: at most one record per day, in day order.
   */
  lemma {:induction false} CollectInOrder<T>(os: seq<Option<T>>, key: T -> int, keys: seq<int>)
    requires |keys| == |os|
    requires forall i, j :: 0 <= i < j < |keys| ==> keys[i] < keys[j]
    requires forall i :: 0 <= i < |os| && os[i].Some? ==> key(os[i].value) == keys[i]
    ensures forall k, l :: 0 <= k < l < |Collect(os)| ==> key(Collect(os)[k]) < key(Collect(os)[l])
  {
    if os != [] {
      var n := |os| - 1;
      var init := os[..n];
      CollectInOrder(init, key, keys[..n]);
      CollectSources(init);
      var prev := Collect(init);
      var r := Collect(os);
      assert r == prev + AsSeq(os[n]);
      forall k | 0 <= k < |prev| ensures key(prev[k]) < keys[n] {
        assert CollectedFrom(init, prev[k]);
        var i :| 0 <= i < |init| && init[i] == Some(prev[k]);
        assert os[i] == init[i];
      }
      forall k, l | 0 <= k < l < |r| ensures key(r[k]) < key(r[l]) {
        if l < |prev| {
          assert r[k] == prev[k] && r[l] == prev[l];
        } else {
          assert r[k] == prev[k] && r[l] == os[n].value;
        }
      }
    }
  }

  /**
   * When the present outcomes are exactly the first m, the collected records
   * are their values, in order.
   */
  lemma {:induction false} CollectPrefix<T>(os: seq<Option<T>>, m: nat)
    requires m <= |os|
    requires forall i :: 0 <= i < m ==> os[i].Some?
    requires forall i :: m <= i < |os| ==> os[i].None?
    ensures |Collect(os)| == m
    ensures forall k :: 0 <= k < m ==> Collect(os)[k] == os[k].value
  {
    if os != [] {
      var n := |os| - 1;
      var init := os[..n];
      if m == |os| {
        CollectPrefix(init, n);
      } else {
        CollectPrefix(init, m);
      }
    }
  }

  /** Day of the week of a timestamp: Monday = 0, ..., Sunday = 6. */
  type Weekday = d: int | 0 <= d <= 6

  /** The operation direction chosen by the user: buy ("Compra") or sell ("Venda"). */
  datatype Direction = Long | Short

  /** One intraday OHLC bar; `time` is its time of day (e.g. minutes after midnight). */
  datatype Bar = Bar(time: int, open: real, high: real, low: real, close: real)

  /** The bars of one calendar day, in the order of the series. */
  datatype Day = Day(date: int, weekday: Weekday, bars: seq<Bar>)

  /** Bars as a price feed reports them: positive prices, open and close between low and high. */
  predicate SoundBars(bars: seq<Bar>)
  {
    forall b :: b in bars ==> 0.0 < b.low && b.low <= b.open <= b.high && b.low <= b.close <= b.high
  }

  /** One bar of a daily series. */
  datatype DailyBar = DailyBar(date: int, weekday: Weekday, open: real, high: real, low: real, close: real, volume: real)

  /**
   * A daily bar annotated with the moves of its open, high, low and close
   * relative to the previous bar's close, as decimal fractions (0.02 is +2%).
   */
  datatype PreparedDay = PreparedDay(bar: DailyBar, openMove: real, highMove: real, lowMove: real, closeMove: real)

  /**
   * A trade of the daily percentage-trigger mode. `entryMove` is the entry
   * point as a move from the previous close; `result` is the trade's return
   * in the same decimal-fraction units.
   */
  datatype DayTrade = DayTrade(
    date: int, weekday: Weekday,
    open: real, high: real, low: real, close: real,
    openMove: real, highMove: real, lowMove: real, closeMove: real,
    result: real, entryMove: real)

  /**
   * A trade built from intraday bars (trigger mode or fixed-window mode): entry,
   * highest high, lowest low and exit, each with its time of day.
   */
  datatype PriceTrade = PriceTrade(
    date: int, weekday: Weekday,
    entryTime: int, entry: real,
    highTime: int, high: real,
    lowTime: int, low: real,
    exitTime: int, exit: real)

  /** What the aggregators read of a trade: its weekday and its result. */
  datatype Outcome = Outcome(weekday: Weekday, result: real)

  /** The result column of a trade table, in table order. */
  function Results(outs: seq<Outcome>): (rs: seq<real>)
    ensures |rs| == |outs|
    ensures forall i :: 0 <= i < |outs| ==> rs[i] == outs[i].result
  {
    seq(|outs|, i requires 0 <= i < |outs| => outs[i].result)
  }

  /** The results of the trades made on weekday d, in table order (a group of a group-by). */
  function OnWeekday(outs: seq<Outcome>, d: int): (rs: seq<real>)
    ensures |rs| <= |outs|
  {
    if outs == [] then []
    else OnWeekday(outs[..|outs| - 1], d) + (if outs[|outs| - 1].weekday == d then [outs[|outs| - 1].result] else [])
  }
}
