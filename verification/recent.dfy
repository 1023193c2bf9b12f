/**
 * Recent performance (`calcular_metricas_recentes`): for each period p of
 * 5, 10, 15, 20 and 25 trades that the table holds, the mean gain and the hit
 * rate of its last p trades; and the same rule applied to the trades of each
 * weekday from Monday to Friday on their own
 * (`calcular_metricas_recentes_por_dia_semana`, as flat rows, not a pivot).
 */
module Recent {
  import opened Trades
  import opened Stats

  /** The trailing periods, in increasing order. */
  const Periods: seq<nat> := [5, 10, 15, 20, 25]

  datatype RecentRow = RecentRow(period: nat, meanGain: real, hitRate: real)

  /** The last p results of a column (pandas `tail`). */
  function Tail(rs: seq<real>, p: nat): (t: seq<real>)
    requires p <= |rs|
    ensures |t| == p
    ensures forall i :: 0 <= i < p ==> t[i] == rs[|rs| - p + i]
  {
    rs[|rs| - p..]
  }

  /** A shorter trailing window is the tail of a longer one: the last 5 trades end the last 10. */
  lemma TailNested(rs: seq<real>, p: nat, q: nat)
    requires p <= q <= |rs|
    ensures Tail(Tail(rs, q), p) == Tail(rs, p)
    ensures Tail(rs, q)[q - p..] == Tail(rs, p)
  {
  }

  /** The row of one period: mean gain and hit rate of the last p results, in percent. */
  function RowOf(rs: seq<real>, p: nat): (r: RecentRow)
    requires 0 < p <= |rs|
  {
    var last := Tail(rs, p);
    RecentRow(p, Mean(last) * 100.0, Percent(Hits(last), p))
  }

  /**
   * A row's hit rate is a percentage, 100 exactly when each of the last p
   * trades gained; its mean gain lies between the smallest and the largest of
   * the last p results.
   */
  lemma RowOfBounds(rs: seq<real>, p: nat)
    requires 0 < p <= |rs|
    ensures var r, last := RowOf(rs, p), Tail(rs, p);
      && r.period == p
      && 0.0 <= r.hitRate <= 100.0
      && (r.hitRate == 100.0 <==> forall i :: |rs| - p <= i < |rs| ==> rs[i] > 0.0)
      && MinOf(last) * 100.0 <= r.meanGain <= MaxOf(last) * 100.0
  {
    var last := Tail(rs, p);
    MeanBetweenMinAndMax(last);
    HitsExtremes(last);
    forall i | |rs| - p <= i < |rs| ensures rs[i] == last[i - (|rs| - p)] {
    }
  }

  function RecentOutcomes(rs: seq<real>): (os: seq<Option<RecentRow>>)
    ensures |os| == |Periods|
    ensures forall k :: 0 <= k < |Periods| ==>
      os[k] == if Periods[k] <= |rs| then Some(RowOf(rs, Periods[k])) else None
  {
    seq(|Periods|, k requires 0 <= k < |Periods| =>
      if Periods[k] <= |rs| then Some(RowOf(rs, Periods[k])) else None)
  }

  /** The rows of the periods that the column is long enough for, in period order. */
  function RecentRows(rs: seq<real>): (rows: seq<RecentRow>)
  {
    Collect(RecentOutcomes(rs))
  }

  function Min(a: int, b: int): (m: int)
  {
    if a <= b then a else b
  }

  /**
   * There is exactly one row per period p with p <= n, in increasing order:
   * the first min(n / 5, 5) periods, row k being that of period 5 (k + 1).
   */
  lemma RecentRowsShape(rs: seq<real>)
    ensures |RecentRows(rs)| == Min(|rs| / 5, 5)
    ensures forall k :: 0 <= k < |RecentRows(rs)| ==>
      Periods[k] == 5 * (k + 1) && RecentRows(rs)[k] == RowOf(rs, Periods[k])
  {
    var os := RecentOutcomes(rs);
    var m := Min(|rs| / 5, 5);
    CollectPrefix(os, m);
  }

  /** The table has min(n / 5, 5) rows, so none exactly when n < 5. */
  lemma RecentRowsCount(rs: seq<real>)
    ensures |RecentRows(rs)| == Min(|rs| / 5, 5)
    ensures |RecentRows(rs)| == 0 <==> |rs| < 5
  {
    RecentRowsShape(rs);
  }

  /** Every period p <= n has its row, and every row's period is one of the periods. */
  lemma RecentRowsComplete(rs: seq<real>)
    ensures forall k :: 0 <= k < |Periods| && Periods[k] <= |rs| ==>
      k < |RecentRows(rs)| && RecentRows(rs)[k].period == Periods[k]
    ensures forall k :: 0 <= k < |RecentRows(rs)| ==>
      RecentRows(rs)[k].period in Periods && RecentRows(rs)[k].period <= |rs|
  {
    RecentRowsShape(rs);
  }

  /** The rows of the trailing periods, computed by a loop over the periods. */
  method TrailingRows(rs: seq<real>) returns (rows: seq<RecentRow>)
    ensures rows == RecentRows(rs)
  {
    ghost var os := RecentOutcomes(rs);
    rows := [];
    for i := 0 to |Periods|
      invariant rows == Collect(os[..i])
    {
      var p := Periods[i];
      if |rs| >= p {
        rows := rows + [RowOf(rs, p)];
      }
      CollectStep(os, i);
    }
    assert os[..|Periods|] == os;
  }

  /** The recent-performance table; None for fewer than 5 trades. */
  method RecentMetrics(rs: seq<real>) returns (r: Option<seq<RecentRow>>)
    ensures r.None? <==> |rs| < 5
    ensures r.Some? ==> r.value == RecentRows(rs)
  {
    if |rs| < 5 {
      return None;
    }
    var rows := TrailingRows(rs);
    RecentRowsCount(rs);
    if rows == [] {
      return None;
    }
    return Some(rows);
  }

  /** A row of the per-weekday table: a weekday, a period and that period's figures. */
  datatype WeekdayRecentRow = WeekdayRecentRow(weekday: Weekday, period: nat, meanGain: real, hitRate: real)

  function Tagged(d: Weekday, rows: seq<RecentRow>): (ts: seq<WeekdayRecentRow>)
    ensures |ts| == |rows|
    ensures forall k :: 0 <= k < |rows| ==>
      ts[k] == WeekdayRecentRow(d, rows[k].period, rows[k].meanGain, rows[k].hitRate)
  {
    seq(|rows|, k requires 0 <= k < |rows| =>
      WeekdayRecentRow(d, rows[k].period, rows[k].meanGain, rows[k].hitRate))
  }

  /** The rows of weekdays 0 .. n - 1, weekday by weekday, each on that weekday's trades only. */
  function WeekdayRows(outs: seq<Outcome>, n: nat): (rows: seq<WeekdayRecentRow>)
    requires n <= 5
  {
    if n == 0 then []
    else WeekdayRows(outs, n - 1) + Tagged(n - 1, RecentRows(OnWeekday(outs, n - 1)))
  }

  /**
   * Every row belongs to a weekday from Monday to Friday and is the row of
   * its period computed on that weekday's trades alone; trades on Saturday
   * and Sunday contribute to no row.
   */
  lemma {:induction false} WeekdayRowsMeaning(outs: seq<Outcome>, n: nat)
    requires n <= 5
    ensures forall k :: 0 <= k < |WeekdayRows(outs, n)| ==>
      var r := WeekdayRows(outs, n)[k];
      var part := OnWeekday(outs, r.weekday);
      && r.weekday < n && r.period in Periods && 0 < r.period <= |part|
      && r.meanGain == RowOf(part, r.period).meanGain
      && r.hitRate == RowOf(part, r.period).hitRate
  {
    if n > 0 {
      WeekdayRowsMeaning(outs, n - 1);
      var part := OnWeekday(outs, n - 1);
      RecentRowsComplete(part);
      RecentRowsShape(part);
      var prev, block := WeekdayRows(outs, n - 1), Tagged(n - 1, RecentRows(part));
      assert WeekdayRows(outs, n) == prev + block;
    }
  }

  /** Some row of rows is the row of weekday d and period p. */
  predicate HasPeriodRow(rows: seq<WeekdayRecentRow>, d: Weekday, p: nat)
  {
    exists j :: 0 <= j < |rows| && rows[j].weekday == d && rows[j].period == p
  }

  lemma PeriodRowKept(prev: seq<WeekdayRecentRow>, block: seq<WeekdayRecentRow>, d: Weekday, p: nat)
    requires HasPeriodRow(prev, d, p)
    ensures HasPeriodRow(prev + block, d, p)
  {
    var j :| 0 <= j < |prev| && prev[j].weekday == d && prev[j].period == p;
    assert (prev + block)[j] == prev[j];
  }

  lemma PeriodRowAdded(prev: seq<WeekdayRecentRow>, block: seq<WeekdayRecentRow>, d: Weekday, p: nat, k: nat)
    requires k < |block| && block[k].weekday == d && block[k].period == p
    ensures HasPeriodRow(prev + block, d, p)
  {
    assert (prev + block)[|prev| + k] == block[k];
  }

  /** A weekday below n has a row for every period that its own trades are enough for. */
  lemma {:induction false} WeekdayRowsComplete(outs: seq<Outcome>, n: nat, d: Weekday, k: nat)
    requires n <= 5 && d < n
    requires k < |Periods| && Periods[k] <= |OnWeekday(outs, d)|
    ensures HasPeriodRow(WeekdayRows(outs, n), d, Periods[k])
  {
    if d == n - 1 {
      WeekdayRowsCompleteHere(outs, n, k);
    } else {
      WeekdayRowsComplete(outs, n - 1, d, k);
      WeekdayRowsCompleteKept(outs, n, d, Periods[k]);
    }
  }

  lemma WeekdayRowsCompleteHere(outs: seq<Outcome>, n: nat, k: nat)
    requires 0 < n <= 5
    requires k < |Periods| && Periods[k] <= |OnWeekday(outs, n - 1)|
    ensures HasPeriodRow(WeekdayRows(outs, n), n - 1, Periods[k])
  {
    var part := OnWeekday(outs, n - 1);
    var prev, block := WeekdayRows(outs, n - 1), Tagged(n - 1, RecentRows(part));
    assert WeekdayRows(outs, n) == prev + block;
    RecentRowsComplete(part);
    PeriodRowAdded(prev, block, n - 1, Periods[k], k);
  }

  lemma WeekdayRowsCompleteKept(outs: seq<Outcome>, n: nat, d: Weekday, p: nat)
    requires 0 < n <= 5
    requires HasPeriodRow(WeekdayRows(outs, n - 1), d, p)
    ensures HasPeriodRow(WeekdayRows(outs, n), d, p)
  {
    var prev, block := WeekdayRows(outs, n - 1), Tagged(n - 1, RecentRows(OnWeekday(outs, n - 1)));
    assert WeekdayRows(outs, n) == prev + block;
    PeriodRowKept(prev, block, d, p);
  }

  /** Rows come weekday by weekday and, within a weekday, in increasing period order. */
  predicate RowsOrdered(rows: seq<WeekdayRecentRow>)
  {
    forall k, l :: 0 <= k < l < |rows| ==>
      rows[k].weekday < rows[l].weekday ||
      (rows[k].weekday == rows[l].weekday && rows[k].period < rows[l].period)
  }

  /** Ordered rows of earlier weekdays followed by one weekday's rows in increasing period order stay ordered. */
  lemma OrderedConcat(prev: seq<WeekdayRecentRow>, block: seq<WeekdayRecentRow>, d: Weekday)
    requires RowsOrdered(prev)
    requires forall k :: 0 <= k < |prev| ==> prev[k].weekday < d
    requires forall k :: 0 <= k < |block| ==> block[k].weekday == d
    requires forall k, l :: 0 <= k < l < |block| ==> block[k].period < block[l].period
    ensures RowsOrdered(prev + block)
  {
    var rows := prev + block;
    forall k, l | 0 <= k < l < |rows|
      ensures rows[k].weekday < rows[l].weekday ||
              (rows[k].weekday == rows[l].weekday && rows[k].period < rows[l].period)
    {
      if l < |prev| {
        assert rows[k] == prev[k] && rows[l] == prev[l];
      } else if k < |prev| {
        assert rows[k] == prev[k] && rows[l] == block[l - |prev|];
      } else {
        assert rows[k] == block[k - |prev|] && rows[l] == block[l - |prev|];
      }
    }
  }

  lemma {:induction false} WeekdayRowsOrder(outs: seq<Outcome>, n: nat)
    requires n <= 5
    ensures RowsOrdered(WeekdayRows(outs, n))
  {
    if n > 0 {
      WeekdayRowsOrder(outs, n - 1);
      WeekdayRowsOrderStep(outs, n);
    }
  }

  lemma WeekdayRowsOrderStep(outs: seq<Outcome>, n: nat)
    requires 0 < n <= 5
    requires RowsOrdered(WeekdayRows(outs, n - 1))
    ensures RowsOrdered(WeekdayRows(outs, n))
  {
    WeekdayRowsMeaning(outs, n - 1);
    var part := OnWeekday(outs, n - 1);
    RecentRowsShape(part);
    var prev, block := WeekdayRows(outs, n - 1), Tagged(n - 1, RecentRows(part));
    OrderedConcat(prev, block, n - 1);
    assert WeekdayRows(outs, n) == prev + block;
  }

  /** The per-weekday table has no row exactly when no weekday from Monday to Friday has 5 trades. */
  lemma {:induction false} WeekdayRowsEmpty(outs: seq<Outcome>, n: nat)
    requires n <= 5
    ensures WeekdayRows(outs, n) == [] <==> forall d :: 0 <= d < n ==> |OnWeekday(outs, d)| < 5
  {
    if n > 0 {
      WeekdayRowsEmpty(outs, n - 1);
      WeekdayRowsEmptyStep(outs, n);
      FewTradesSplit(outs, n);
    }
  }

  lemma WeekdayRowsEmptyStep(outs: seq<Outcome>, n: nat)
    requires 0 < n <= 5
    ensures WeekdayRows(outs, n) == [] <==> WeekdayRows(outs, n - 1) == [] && |OnWeekday(outs, n - 1)| < 5
  {
    var part := OnWeekday(outs, n - 1);
    RecentRowsCount(part);
    var prev, block := WeekdayRows(outs, n - 1), Tagged(n - 1, RecentRows(part));
    assert |WeekdayRows(outs, n)| == |prev| + |block|;
  }

  lemma FewTradesSplit(outs: seq<Outcome>, n: nat)
    requires 0 < n <= 5
    ensures (forall d :: 0 <= d < n ==> |OnWeekday(outs, d)| < 5) <==>
            (forall d :: 0 <= d < n - 1 ==> |OnWeekday(outs, d)| < 5) && |OnWeekday(outs, n - 1)| < 5
  {
  }

  /**
   * The per-weekday recent-performance rows; None for an empty table or when
   * no weekday from Monday to Friday has at least 5 trades.
   */
  method WeekdayRecentMetrics(outs: seq<Outcome>) returns (r: Option<seq<WeekdayRecentRow>>)
    ensures |outs| == 0 ==> r.None?
    ensures r.None? <==> WeekdayRows(outs, 5) == []
    ensures r.Some? ==> r.value == WeekdayRows(outs, 5)
  {
    if |outs| == 0 {
      WeekdayRowsEmpty(outs, 5);
      assert forall d :: 0 <= d < 5 ==> |OnWeekday(outs, d)| < 5;
      return None;
    }
    var rows: seq<WeekdayRecentRow> := [];
    for d := 0 to 5
      invariant rows == WeekdayRows(outs, d)
    {
      var part := OnWeekday(outs, d);
      var recent := TrailingRows(part);
      rows := rows + Tagged(d, recent);
    }
    if rows == [] {
      return None;
    }
    return Some(rows);
  }
}
