/**
 * The weekday table (`criar_tabela_dia_semana`): one row per weekday that has
 * trades, Monday to Sunday, with hits, misses, total, hit and miss
 * percentages and mean result; then a "Total / Média" row whose counts are
 * sums over the weekday rows and whose percentages and mean are unweighted
 * means of the rows' values. The table is built after the weekday filter of
 * the dashboard, which keeps the trades of the selected weekdays (all of them
 * when none is selected).
 */
module WeekdayTable {
  import opened Trades
  import opened Stats

  datatype WeekdayRow = WeekdayRow(
    weekday: Weekday, hits: nat, misses: nat, total: nat,
    hitPct: real, missPct: real, meanPct: real)

  datatype TotalRow = TotalRow(
    hits: nat, misses: nat, total: nat,
    hitPct: real, missPct: real, meanPct: real)

  datatype Breakdown = Breakdown(rows: seq<WeekdayRow>, totals: TotalRow)

  /** The row of one weekday, from the results of its trades; a zero result is a miss. */
  function RowFor(d: Weekday, rs: seq<real>): (r: WeekdayRow)
    requires |rs| > 0
    ensures r.weekday == d && r.total == |rs| && r.total == r.hits + r.misses
  {
    var h := Hits(rs);
    WeekdayRow(d, h, |rs| - h, |rs|, Percent(h, |rs|), Percent(|rs| - h, |rs|), Mean(rs) * 100.0)
  }

  /** A weekday row's hit and miss percentages are percentages and add up to 100. */
  lemma RowForPcts(d: Weekday, rs: seq<real>)
    requires |rs| > 0
    ensures 0.0 <= RowFor(d, rs).hitPct <= 100.0 && 0.0 <= RowFor(d, rs).missPct <= 100.0
    ensures RowFor(d, rs).hitPct + RowFor(d, rs).missPct == 100.0
  {
    var h := Hits(rs);
    PercentComplement(h, |rs|);
    assert RowFor(d, rs).hitPct == Percent(h, |rs|);
    assert RowFor(d, rs).missPct == Percent(|rs| - h, |rs|);
  }

  /** A weekday row's mean result, in percent, lies between its worst and best results. */
  lemma RowForMean(d: Weekday, rs: seq<real>)
    requires |rs| > 0
    ensures MinOf(rs) * 100.0 <= RowFor(d, rs).meanPct <= MaxOf(rs) * 100.0
  {
    MeanBetweenMinAndMax(rs);
  }

  /** A hit and a miss percentage, each between 0 and 100, that add up to 100. */
  predicate PctsComplement(hit: real, miss: real)
  {
    0.0 <= hit <= 100.0 && 0.0 <= miss <= 100.0 && hit + miss == 100.0
  }

  /** The rows of weekdays 0 .. n - 1 that have trades, in weekday order (the group-by). */
  function RowsUpTo(outs: seq<Outcome>, n: nat): (rows: seq<WeekdayRow>)
    requires n <= 7
  {
    if n == 0 then []
    else
      var part := OnWeekday(outs, n - 1);
      RowsUpTo(outs, n - 1) + (if |part| > 0 then [RowFor(n - 1, part)] else [])
  }

  /**
   * Each row belongs to a weekday below n that has trades and holds that
   * weekday's figures; rows are in strictly increasing weekday order.
   */
  lemma {:induction false} RowsUpToMeaning(outs: seq<Outcome>, n: nat)
    requires n <= 7
    ensures forall k :: 0 <= k < |RowsUpTo(outs, n)| ==>
      var r := RowsUpTo(outs, n)[k];
      r.weekday < n && |OnWeekday(outs, r.weekday)| > 0 && r == RowFor(r.weekday, OnWeekday(outs, r.weekday))
    ensures forall k, l :: 0 <= k < l < |RowsUpTo(outs, n)| ==>
      RowsUpTo(outs, n)[k].weekday < RowsUpTo(outs, n)[l].weekday
  {
    if n > 0 {
      RowsUpToMeaning(outs, n - 1);
    }
  }

  /** The rows of weekdays below n - 1 come first, unchanged; weekday n - 1 follows when it has trades. */
  lemma RowsUpToStep(outs: seq<Outcome>, n: nat)
    requires 0 < n <= 7
    ensures |RowsUpTo(outs, n - 1)| <= |RowsUpTo(outs, n)|
    ensures forall k :: 0 <= k < |RowsUpTo(outs, n - 1)| ==> RowsUpTo(outs, n)[k] == RowsUpTo(outs, n - 1)[k]
    ensures |OnWeekday(outs, n - 1)| > 0 ==>
      |RowsUpTo(outs, n)| == |RowsUpTo(outs, n - 1)| + 1 &&
      RowsUpTo(outs, n)[|RowsUpTo(outs, n - 1)|].weekday == n - 1
  {
  }

  /** Whether some row of the table is the row of weekday d. */
  predicate HasRow(rows: seq<WeekdayRow>, d: int)
  {
    exists k :: 0 <= k < |rows| && rows[k].weekday == d
  }

  lemma RowKept(outs: seq<Outcome>, n: nat, d: int)
    requires 0 < n <= 7 && HasRow(RowsUpTo(outs, n - 1), d)
    ensures HasRow(RowsUpTo(outs, n), d)
  {
    var prev := RowsUpTo(outs, n - 1);
    RowsUpToStep(outs, n);
    var k :| 0 <= k < |prev| && prev[k].weekday == d;
    assert RowsUpTo(outs, n)[k].weekday == d;
  }

  lemma RowAdded(outs: seq<Outcome>, n: nat)
    requires 0 < n <= 7 && |OnWeekday(outs, n - 1)| > 0
    ensures HasRow(RowsUpTo(outs, n), n - 1)
  {
    RowsUpToStep(outs, n);
    assert RowsUpTo(outs, n)[|RowsUpTo(outs, n - 1)|].weekday == n - 1;
  }

  /** Every weekday below n that has trades has its row. */
  lemma {:induction false} RowsUpToComplete(outs: seq<Outcome>, n: nat, d: Weekday)
    requires n <= 7 && d < n && |OnWeekday(outs, d)| > 0
    ensures HasRow(RowsUpTo(outs, n), d)
  {
    if d == n - 1 {
      RowAdded(outs, n);
    } else {
      RowsUpToComplete(outs, n - 1, d);
      RowKept(outs, n, d);
    }
  }

  function SumHits(rows: seq<WeekdayRow>): (n: nat)
  {
    if rows == [] then 0 else SumHits(rows[..|rows| - 1]) + rows[|rows| - 1].hits
  }

  function SumMisses(rows: seq<WeekdayRow>): (n: nat)
  {
    if rows == [] then 0 else SumMisses(rows[..|rows| - 1]) + rows[|rows| - 1].misses
  }

  function SumTotals(rows: seq<WeekdayRow>): (n: nat)
  {
    if rows == [] then 0 else SumTotals(rows[..|rows| - 1]) + rows[|rows| - 1].total
  }

  function HitPcts(rows: seq<WeekdayRow>): (s: seq<real>)
    ensures |s| == |rows| && forall k :: 0 <= k < |rows| ==> s[k] == rows[k].hitPct
  {
    seq(|rows|, k requires 0 <= k < |rows| => rows[k].hitPct)
  }

  function MissPcts(rows: seq<WeekdayRow>): (s: seq<real>)
    ensures |s| == |rows| && forall k :: 0 <= k < |rows| ==> s[k] == rows[k].missPct
  {
    seq(|rows|, k requires 0 <= k < |rows| => rows[k].missPct)
  }

  function MeanPcts(rows: seq<WeekdayRow>): (s: seq<real>)
    ensures |s| == |rows| && forall k :: 0 <= k < |rows| ==> s[k] == rows[k].meanPct
  {
    seq(|rows|, k requires 0 <= k < |rows| => rows[k].meanPct)
  }

  /** The "Total / Média" row: sums of the counts, unweighted means of the percentages and means. */
  function TotalOf(rows: seq<WeekdayRow>): (t: TotalRow)
    requires |rows| > 0
  {
    TotalRow(SumHits(rows), SumMisses(rows), SumTotals(rows),
             Mean(HitPcts(rows)), Mean(MissPcts(rows)), Mean(MeanPcts(rows)))
  }

  /** The number of trades on weekdays 0 .. n - 1. */
  function CountUpTo(outs: seq<Outcome>, n: nat): (c: nat)
  {
    if n == 0 then 0 else CountUpTo(outs, n - 1) + |OnWeekday(outs, n - 1)|
  }

  /** The number of winning trades on weekday d. */
  function WinsOn(outs: seq<Outcome>, d: int): (c: nat)
  {
    if outs == [] then 0
    else
      var o := outs[|outs| - 1];
      WinsOn(outs[..|outs| - 1], d) + (if o.weekday == d && o.result > 0.0 then 1 else 0)
  }

  /** The number of winning trades on weekdays 0 .. n - 1, counted trade by trade. */
  function WinsUpTo(outs: seq<Outcome>, n: nat): (c: nat)
  {
    if n == 0 then 0 else WinsUpTo(outs, n - 1) + WinsOn(outs, n - 1)
  }

  /** The number of winning trades on weekdays 0 .. n - 1, counted group by group. */
  function HitsUpTo(outs: seq<Outcome>, n: nat): (c: nat)
  {
    if n == 0 then 0 else HitsUpTo(outs, n - 1) + Hits(OnWeekday(outs, n - 1))
  }

  lemma OnWeekdayStep(outs: seq<Outcome>, o: Outcome, d: int)
    ensures OnWeekday(outs + [o], d) == OnWeekday(outs, d) + (if o.weekday == d then [o.result] else [])
  {
    assert (outs + [o])[..|outs|] == outs;
  }

  lemma {:induction false} NoTradesUpTo(n: nat)
    ensures CountUpTo([], n) == 0 && WinsUpTo([], n) == 0
  {
    if n > 0 {
      NoTradesUpTo(n - 1);
    }
  }

  lemma {:induction false} CountUpToStep(outs: seq<Outcome>, o: Outcome, n: nat)
    ensures CountUpTo(outs + [o], n) == CountUpTo(outs, n) + (if o.weekday < n then 1 else 0)
  {
    if n > 0 {
      CountUpToStep(outs, o, n - 1);
      OnWeekdayStep(outs, o, n - 1);
    }
  }

  /** The winning trades of a weekday are the hits among that weekday's results. */
  lemma {:induction false} WinsOnHits(outs: seq<Outcome>, d: int)
    ensures WinsOn(outs, d) == Hits(OnWeekday(outs, d))
  {
    if outs != [] {
      var init, o := outs[..|outs| - 1], outs[|outs| - 1];
      WinsOnHits(init, d);
      assert outs == init + [o];
      OnWeekdayStep(init, o, d);
      var part := OnWeekday(init, d);
      if o.weekday == d {
        HitsAppend(part, [o.result]);
      } else {
        assert part + [] == part;
      }
    }
  }

  /** Counting by weekday group and counting trade by trade agree. */
  lemma {:induction false} HitsUpToWins(outs: seq<Outcome>, n: nat)
    ensures HitsUpTo(outs, n) == WinsUpTo(outs, n)
  {
    if n > 0 {
      HitsUpToWins(outs, n - 1);
      HitsUpToWinsStep(outs, n);
    }
  }

  lemma HitsUpToWinsStep(outs: seq<Outcome>, n: nat)
    requires n > 0 && HitsUpTo(outs, n - 1) == WinsUpTo(outs, n - 1)
    ensures HitsUpTo(outs, n) == WinsUpTo(outs, n)
  {
    WinsOnHits(outs, n - 1);
  }

  lemma {:induction false} WinsUpToStep(outs: seq<Outcome>, o: Outcome, n: nat)
    ensures WinsUpTo(outs + [o], n) == WinsUpTo(outs, n) + (if o.weekday < n && o.result > 0.0 then 1 else 0)
  {
    if n > 0 {
      WinsUpToStep(outs, o, n - 1);
      assert (outs + [o])[..|outs|] == outs;
    }
  }

  /** The weekday groups split the table: every trade is in exactly one of them. */
  lemma {:induction false} CountAll(outs: seq<Outcome>)
    ensures CountUpTo(outs, 7) == |outs|
  {
    if outs != [] {
      var init, o := outs[..|outs| - 1], outs[|outs| - 1];
      CountAll(init);
      assert outs == init + [o];
      CountUpToStep(init, o, 7);
    } else {
      NoTradesUpTo(7);
    }
  }

  /** The winning trades of the weekday groups are the winning trades of the table. */
  lemma {:induction false} HitsAll(outs: seq<Outcome>)
    ensures WinsUpTo(outs, 7) == Hits(Results(outs))
  {
    if outs != [] {
      var init, o := outs[..|outs| - 1], outs[|outs| - 1];
      HitsAll(init);
      assert outs == init + [o];
      WinsUpToStep(init, o, 7);
      assert Results(outs) == Results(init) + [o.result];
      HitsAppend(Results(init), [o.result]);
    } else {
      NoTradesUpTo(7);
    }
  }

  lemma SumsSnoc(rows: seq<WeekdayRow>, r: WeekdayRow)
    ensures SumTotals(rows + [r]) == SumTotals(rows) + r.total
    ensures SumHits(rows + [r]) == SumHits(rows) + r.hits
    ensures SumMisses(rows + [r]) == SumMisses(rows) + r.misses
  {
    assert (rows + [r])[..|rows|] == rows;
  }

  lemma RowsUpToLast(outs: seq<Outcome>, n: nat)
    requires 0 < n <= 7
    ensures |OnWeekday(outs, n - 1)| > 0 ==>
      RowsUpTo(outs, n) == RowsUpTo(outs, n - 1) + [RowFor(n - 1, OnWeekday(outs, n - 1))]
    ensures |OnWeekday(outs, n - 1)| == 0 ==> RowsUpTo(outs, n) == RowsUpTo(outs, n - 1)
  {
  }

  /** Adding weekday n - 1 adds its trades to the total column. */
  lemma RowTotalsStep(outs: seq<Outcome>, n: nat)
    requires 0 < n <= 7
    ensures SumTotals(RowsUpTo(outs, n)) == SumTotals(RowsUpTo(outs, n - 1)) + |OnWeekday(outs, n - 1)|
  {
    var prev, part := RowsUpTo(outs, n - 1), OnWeekday(outs, n - 1);
    RowsUpToLast(outs, n);
    if |part| > 0 {
      SumsSnoc(prev, RowFor(n - 1, part));
    }
  }

  /** Adding weekday n - 1 adds its winning trades to the hit column. */
  lemma RowHitsStep(outs: seq<Outcome>, n: nat)
    requires 0 < n <= 7
    ensures SumHits(RowsUpTo(outs, n)) == SumHits(RowsUpTo(outs, n - 1)) + Hits(OnWeekday(outs, n - 1))
  {
    var prev, part := RowsUpTo(outs, n - 1), OnWeekday(outs, n - 1);
    RowsUpToLast(outs, n);
    if |part| > 0 {
      SumsSnoc(prev, RowFor(n - 1, part));
    }
  }

  /** Adding weekday n - 1 adds its other trades to the miss column. */
  lemma RowMissesStep(outs: seq<Outcome>, n: nat)
    requires 0 < n <= 7
    ensures SumMisses(RowsUpTo(outs, n)) + Hits(OnWeekday(outs, n - 1)) ==
      SumMisses(RowsUpTo(outs, n - 1)) + |OnWeekday(outs, n - 1)|
  {
    var prev, part := RowsUpTo(outs, n - 1), OnWeekday(outs, n - 1);
    RowsUpToLast(outs, n);
    if |part| > 0 {
      SumsSnoc(prev, RowFor(n - 1, part));
    }
  }

  /** The total column of the rows of weekdays below n adds up to the trades on those weekdays. */
  lemma {:induction false} RowTotalsSum(outs: seq<Outcome>, n: nat)
    requires n <= 7
    ensures SumTotals(RowsUpTo(outs, n)) == CountUpTo(outs, n)
  {
    if n > 0 {
      RowTotalsSum(outs, n - 1);
      RowTotalsStep(outs, n);
    }
  }

  /** The hit column of the rows of weekdays below n adds up to the winning trades on those weekdays. */
  lemma {:induction false} RowHitsSum(outs: seq<Outcome>, n: nat)
    requires n <= 7
    ensures SumHits(RowsUpTo(outs, n)) == HitsUpTo(outs, n)
  {
    if n > 0 {
      RowHitsSum(outs, n - 1);
      RowHitsStep(outs, n);
    }
  }

  /** The miss column of the rows of weekdays below n adds up to the other trades on those weekdays. */
  lemma {:induction false} RowMissesSum(outs: seq<Outcome>, n: nat)
    requires n <= 7
    ensures SumMisses(RowsUpTo(outs, n)) + HitsUpTo(outs, n) == CountUpTo(outs, n)
  {
    if n > 0 {
      RowMissesSum(outs, n - 1);
      RowMissesStep(outs, n);
    }
  }

  /** A table with trades has at least one weekday row. */
  lemma RowsNonEmpty(outs: seq<Outcome>)
    requires |outs| > 0
    ensures |RowsUpTo(outs, 7)| > 0
  {
    CountAll(outs);
    RowTotalsSum(outs, 7);
  }

  /** The weekday table; None for a table without trades. */
  function BreakdownTable(outs: seq<Outcome>): (b: Option<Breakdown>)
    ensures b.None? <==> |outs| == 0
  {
    if |outs| == 0 then None
    else
      var rows := RowsUpTo(outs, 7);
      RowsNonEmpty(outs);
      Some(Breakdown(rows, TotalOf(rows)))
  }

  /**
   * The total row counts every trade of the table once: its total is the
   * number of trades, its hits the number of winning trades and its misses
   * the rest.
   */
  lemma BreakdownCounts(outs: seq<Outcome>, b: Breakdown)
    requires BreakdownTable(outs) == Some(b)
    ensures b.totals.total == |outs|
    ensures b.totals.hits == Hits(Results(outs))
    ensures b.totals.misses == |outs| - Hits(Results(outs))
    ensures b.totals.total == b.totals.hits + b.totals.misses
  {
    CountAll(outs);
    HitsAll(outs);
    HitsUpToWins(outs, 7);
    RowTotalsSum(outs, 7);
    RowHitsSum(outs, 7);
    RowMissesSum(outs, 7);
  }

  /**
   * The rows of the table are exactly the weekdays that have trades, in
   * increasing weekday order, each with its own figures, and each row's
   * percentages add up to 100.
   */
  lemma BreakdownRows(outs: seq<Outcome>, b: Breakdown)
    requires BreakdownTable(outs) == Some(b)
    ensures forall k :: 0 <= k < |b.rows| ==>
      |OnWeekday(outs, b.rows[k].weekday)| > 0 &&
      b.rows[k] == RowFor(b.rows[k].weekday, OnWeekday(outs, b.rows[k].weekday))
    ensures forall k, l :: 0 <= k < l < |b.rows| ==> b.rows[k].weekday < b.rows[l].weekday
    ensures forall k :: 0 <= k < |b.rows| ==> PctsComplement(b.rows[k].hitPct, b.rows[k].missPct)
    ensures forall d: Weekday :: |OnWeekday(outs, d)| > 0 ==> HasRow(b.rows, d)
  {
    RowsUpToMeaning(outs, 7);
    forall d: Weekday | |OnWeekday(outs, d)| > 0 ensures HasRow(b.rows, d) {
      RowsUpToComplete(outs, 7, d);
    }
    forall k | 0 <= k < |b.rows| ensures PctsComplement(b.rows[k].hitPct, b.rows[k].missPct) {
      var r := b.rows[k];
      RowForPcts(r.weekday, OnWeekday(outs, r.weekday));
    }
  }

  /**
   * The total row's hit and miss percentages are means of percentages that
   * add up to 100 row by row, so they are percentages and add up to 100 too.
   */
  lemma BreakdownTotalPcts(outs: seq<Outcome>, b: Breakdown)
    requires BreakdownTable(outs) == Some(b)
    ensures PctsComplement(b.totals.hitPct, b.totals.missPct)
  {
    BreakdownRows(outs, b);
    RowsNonEmpty(outs);
    TotalPcts(b.rows);
  }

  lemma TotalPcts(rows: seq<WeekdayRow>)
    requires |rows| > 0
    requires forall k :: 0 <= k < |rows| ==> PctsComplement(rows[k].hitPct, rows[k].missPct)
    ensures PctsComplement(TotalOf(rows).hitPct, TotalOf(rows).missPct)
  {
    var hs, ms := HitPcts(rows), MissPcts(rows);
    MeanAtLeast(hs, 0.0);
    MeanAtMost(hs, 100.0);
    MeanAtLeast(ms, 0.0);
    MeanAtMost(ms, 100.0);
    MeansComplement(hs, ms, 100.0);
  }

  /** Columns that add up to c row by row have means that add up to c. */
  lemma MeansComplement(a: seq<real>, b: seq<real>, c: real)
    requires |a| == |b| > 0
    requires forall k :: 0 <= k < |a| ==> a[k] + b[k] == c
    ensures Mean(a) + Mean(b) == c
  {
    SumsComplement(a, b, c);
    var n := |a| as real;
    assert Sum(a) / n + Sum(b) / n == (Sum(a) + Sum(b)) / n;
  }

  lemma {:induction false} SumsComplement(a: seq<real>, b: seq<real>, c: real)
    requires |a| == |b|
    requires forall k :: 0 <= k < |a| ==> a[k] + b[k] == c
    ensures Sum(a) + Sum(b) == |a| as real * c
  {
    if a != [] {
      SumsComplement(a[1..], b[1..], c);
      assert |a| as real * c == |a[1..]| as real * c + c;
    }
  }

  /**
   * The trades the weekday table is built from: those on a selected weekday,
   * or all of them when no weekday is selected.
   */
  function SelectWeekdays(outs: seq<Outcome>, selected: set<Weekday>): (kept: seq<Outcome>)
    ensures |kept| <= |outs|
  {
    if selected == {} then outs else KeepWeekdays(outs, selected)
  }

  function KeepWeekdays(outs: seq<Outcome>, selected: set<Weekday>): (kept: seq<Outcome>)
    ensures |kept| <= |outs|
  {
    if outs == [] then []
    else
      var o := outs[|outs| - 1];
      KeepWeekdays(outs[..|outs| - 1], selected) + (if o.weekday in selected then [o] else [])
  }

  /**
   * After a non-empty selection, every kept trade has a selected weekday; a
   * selected weekday keeps all its trades, in order, and any other weekday
   * keeps none. An empty selection keeps the table as it is.
   */
  lemma {:induction false} KeepWeekdaysMeaning(outs: seq<Outcome>, selected: set<Weekday>, d: Weekday)
    ensures forall k :: 0 <= k < |KeepWeekdays(outs, selected)| ==>
      KeepWeekdays(outs, selected)[k].weekday in selected
    ensures d in selected ==> OnWeekday(KeepWeekdays(outs, selected), d) == OnWeekday(outs, d)
    ensures d !in selected ==> OnWeekday(KeepWeekdays(outs, selected), d) == []
  {
    if outs != [] {
      var init, o := outs[..|outs| - 1], outs[|outs| - 1];
      KeepWeekdaysMeaning(init, selected, d);
      var prev := KeepWeekdays(init, selected);
      if o.weekday in selected {
        OnWeekdayStep(prev, o, d);
      } else {
        assert KeepWeekdays(outs, selected) == prev;
      }
    }
  }

  /**
   * The table after the filter: with a non-empty selection, its rows are the
   * selected weekdays that have trades, each with the figures it has in the
   * unfiltered table; with an empty selection it is the unfiltered table.
   */
  lemma SelectedBreakdown(outs: seq<Outcome>, selected: set<Weekday>, b: Breakdown)
    requires BreakdownTable(SelectWeekdays(outs, selected)) == Some(b)
    ensures selected == {} ==> BreakdownTable(outs) == Some(b)
    ensures forall k :: 0 <= k < |b.rows| && selected != {} ==> b.rows[k].weekday in selected
    ensures forall k :: 0 <= k < |b.rows| ==>
      |OnWeekday(outs, b.rows[k].weekday)| > 0 &&
      b.rows[k] == RowFor(b.rows[k].weekday, OnWeekday(outs, b.rows[k].weekday))
  {
    var kept := SelectWeekdays(outs, selected);
    BreakdownRows(kept, b);
    forall k | 0 <= k < |b.rows|
      ensures selected != {} ==> b.rows[k].weekday in selected
      ensures OnWeekday(kept, b.rows[k].weekday) == OnWeekday(outs, b.rows[k].weekday)
    {
      if selected != {} {
        KeepWeekdaysMeaning(outs, selected, b.rows[k].weekday);
      }
    }
  }
}
