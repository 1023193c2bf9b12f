/**
 * Scans over the bars of one day: the first bar that crosses a trigger price,
 * the bars inside an inclusive time window, the bar with the highest high and
 * the bar with the lowest low (first occurrence, as pandas `idxmax`/`idxmin`),
 * and the last bar at or before a time (pandas `asof`).
 */
module Scan {
  import opened Trades

  /** Bars strictly increasing in time, as a sorted, uniquely timestamped index is. */
  predicate BarsInOrder(bars: seq<Bar>)
  {
    forall i, j :: 0 <= i < j < |bars| ==> bars[i].time < bars[j].time
  }

  /** An upward test asks for high >= price, a downward test for low <= price. */
  predicate Crosses(b: Bar, price: real, upward: bool)
  {
    if upward then b.high >= price else b.low <= price
  }

  /** The index of the first bar that crosses `price`, if any. */
  function FirstCrossing(bars: seq<Bar>, price: real, upward: bool): (r: Option<nat>)
    ensures r.Some? ==> r.value < |bars| && Crosses(bars[r.value], price, upward)
    ensures r.Some? ==> forall j :: 0 <= j < r.value ==> !Crosses(bars[j], price, upward)
    ensures r.None? <==> forall j :: 0 <= j < |bars| ==> !Crosses(bars[j], price, upward)
  {
    if bars == [] then None
    else if Crosses(bars[0], price, upward) then Some(0)
    else
      match FirstCrossing(bars[1..], price, upward)
      case None => None
      case Some(i) => Some(i + 1)
  }

  predicate InWindow(b: Bar, lo: int, hi: int)
  {
    lo <= b.time <= hi
  }

  /** The bars whose time lies in [lo, hi], both ends included, in their original order. */
  function Window(bars: seq<Bar>, lo: int, hi: int): (w: seq<Bar>)
    ensures forall b :: b in w <==> b in bars && InWindow(b, lo, hi)
    ensures |w| <= |bars|
  {
    if bars == [] then []
    else (if InWindow(bars[0], lo, hi) then [bars[0]] else []) + Window(bars[1..], lo, hi)
  }

  /** The first bar of the window is the earliest bar (in series order) that lies in it. */
  lemma {:induction false} WindowFirst(bars: seq<Bar>, lo: int, hi: int)
    requires |Window(bars, lo, hi)| > 0
    ensures exists i :: 0 <= i < |bars| && bars[i] == Window(bars, lo, hi)[0] &&
                        (forall j :: 0 <= j < i ==> !InWindow(bars[j], lo, hi))
  {
    if InWindow(bars[0], lo, hi) {
      assert bars[0] == Window(bars, lo, hi)[0];
    } else {
      WindowFirst(bars[1..], lo, hi);
      var i :| 0 <= i < |bars[1..]| && bars[1..][i] == Window(bars[1..], lo, hi)[0] &&
        forall j :: 0 <= j < i ==> !InWindow(bars[1..][j], lo, hi);
      assert bars[i + 1] == Window(bars, lo, hi)[0];
      assert forall j :: 1 <= j < i + 1 ==> bars[j] == bars[1..][j - 1];
    }
  }

  /** Whether bars[i] is the last bar of the window and no later bar lies in [lo, hi]. */
  predicate IsLastInWindow(bars: seq<Bar>, lo: int, hi: int, i: int)
    requires |Window(bars, lo, hi)| > 0
  {
    && 0 <= i < |bars| && bars[i] == Window(bars, lo, hi)[|Window(bars, lo, hi)| - 1]
    && forall j :: i < j < |bars| ==> !InWindow(bars[j], lo, hi)
  }

  /** The last bar of the window is the latest bar (in series order) that lies in it. */
  lemma {:induction false} WindowLast(bars: seq<Bar>, lo: int, hi: int)
    requires |Window(bars, lo, hi)| > 0
    ensures exists i :: IsLastInWindow(bars, lo, hi, i)
  {
    if |Window(bars[1..], lo, hi)| == 0 {
      WindowLastHead(bars, lo, hi);
    } else {
      WindowLast(bars[1..], lo, hi);
      var i :| IsLastInWindow(bars[1..], lo, hi, i);
      WindowLastTail(bars, lo, hi, i);
    }
  }

  lemma WindowLastHead(bars: seq<Bar>, lo: int, hi: int)
    requires |Window(bars, lo, hi)| > 0 && |Window(bars[1..], lo, hi)| == 0
    ensures IsLastInWindow(bars, lo, hi, 0)
  {
    assert InWindow(bars[0], lo, hi) && Window(bars, lo, hi) == [bars[0]];
    forall j | 0 < j < |bars| ensures !InWindow(bars[j], lo, hi) {
      assert bars[j] in bars[1..];
    }
  }

  lemma WindowLastTail(bars: seq<Bar>, lo: int, hi: int, i: int)
    requires |bars| > 0 && |Window(bars[1..], lo, hi)| > 0
    requires IsLastInWindow(bars[1..], lo, hi, i)
    ensures IsLastInWindow(bars, lo, hi, i + 1)
  {
    var w, rest := Window(bars, lo, hi), Window(bars[1..], lo, hi);
    assert w[|w| - 1] == rest[|rest| - 1];
    forall j | i + 1 < j < |bars| ensures !InWindow(bars[j], lo, hi) {
      assert bars[j] == bars[1..][j - 1];
    }
  }

  /** Under time order, the window is in time order too. */
  lemma {:induction false} WindowInOrder(bars: seq<Bar>, lo: int, hi: int)
    requires BarsInOrder(bars)
    ensures BarsInOrder(Window(bars, lo, hi))
  {
    if bars != [] {
      WindowInOrder(bars[1..], lo, hi);
      var rest := Window(bars[1..], lo, hi);
      forall b | b in rest ensures bars[0].time < b.time {
        var k :| 0 <= k < |bars[1..]| && bars[1..][k] == b;
        assert bars[k + 1] == b;
      }
    }
  }

  /** The index of the bar with the highest high; ties go to the first one. */
  function Highest(w: seq<Bar>): (k: nat)
    requires |w| > 0
    ensures k < |w|
    ensures forall j :: 0 <= j < |w| ==> w[j].high <= w[k].high
    ensures forall j :: 0 <= j < k ==> w[j].high < w[k].high
  {
    if |w| == 1 then 0
    else
      var k := Highest(w[1..]) + 1;
      assert forall j :: 1 <= j < |w| ==> w[j] == w[1..][j - 1];
      if w[0].high >= w[k].high then 0 else k
  }

  /** The index of the bar with the lowest low; ties go to the first one. */
  function Lowest(w: seq<Bar>): (k: nat)
    requires |w| > 0
    ensures k < |w|
    ensures forall j :: 0 <= j < |w| ==> w[k].low <= w[j].low
    ensures forall j :: 0 <= j < k ==> w[k].low < w[j].low
  {
    if |w| == 1 then 0
    else
      var k := Lowest(w[1..]) + 1;
      assert forall j :: 1 <= j < |w| ==> w[j] == w[1..][j - 1];
      if w[0].low <= w[k].low then 0 else k
  }

  /** The bar of the window with the highest high, the first one on a tie. */
  function Top(bars: seq<Bar>, lo: int, hi: int): (b: Bar)
    requires |Window(bars, lo, hi)| > 0
  {
    var w := Window(bars, lo, hi);
    w[Highest(w)]
  }

  /** The bar of the window with the lowest low, the first one on a tie. */
  function Bottom(bars: seq<Bar>, lo: int, hi: int): (b: Bar)
    requires |Window(bars, lo, hi)| > 0
  {
    var w := Window(bars, lo, hi);
    w[Lowest(w)]
  }

  /** Under time order, the bar picked by Highest is the earliest bar attaining the highest high. */
  lemma HighestIsEarliest(w: seq<Bar>)
    requires |w| > 0 && BarsInOrder(w)
    ensures forall b :: b in w ==> b.high <= w[Highest(w)].high
    ensures forall b :: b in w && b.high == w[Highest(w)].high ==> w[Highest(w)].time <= b.time
  {
    var kh := Highest(w);
    forall b | b in w ensures b.high == w[kh].high ==> w[kh].time <= b.time {
      var k :| 0 <= k < |w| && w[k] == b;
      assert b.high == w[kh].high ==> kh <= k;
    }
  }

  /** Under time order, the bar picked by Lowest is the earliest bar attaining the lowest low. */
  lemma LowestIsEarliest(w: seq<Bar>)
    requires |w| > 0 && BarsInOrder(w)
    ensures forall b :: b in w ==> w[Lowest(w)].low <= b.low
    ensures forall b :: b in w && b.low == w[Lowest(w)].low ==> w[Lowest(w)].time <= b.time
  {
    var kl := Lowest(w);
    forall b | b in w ensures b.low == w[kl].low ==> w[kl].time <= b.time {
      var k :| 0 <= k < |w| && w[k] == b;
      assert b.low == w[kl].low ==> kl <= k;
    }
  }

  /**
   * Under time order, the top bar of a non-empty window lies in [lo, hi], its
   * high is at least every high of a bar in [lo, hi], and it is the earliest
   * bar attaining that high.
   */
  lemma WindowHighest(bars: seq<Bar>, lo: int, hi: int)
    requires BarsInOrder(bars)
    requires |Window(bars, lo, hi)| > 0
    ensures Top(bars, lo, hi) in bars && InWindow(Top(bars, lo, hi), lo, hi)
    ensures forall b :: b in bars && InWindow(b, lo, hi) ==> b.high <= Top(bars, lo, hi).high
    ensures forall b :: b in bars && InWindow(b, lo, hi) && b.high == Top(bars, lo, hi).high ==>
      Top(bars, lo, hi).time <= b.time
  {
    var w := Window(bars, lo, hi);
    WindowInOrder(bars, lo, hi);
    HighestIsEarliest(w);
    assert w[Highest(w)] in w;
  }

  /**
   * Under time order, the bottom bar of a non-empty window lies in [lo, hi],
   * its low is at most every low of a bar in [lo, hi], and it is the earliest
   * bar attaining that low.
   */
  lemma WindowLowest(bars: seq<Bar>, lo: int, hi: int)
    requires BarsInOrder(bars)
    requires |Window(bars, lo, hi)| > 0
    ensures Bottom(bars, lo, hi) in bars && InWindow(Bottom(bars, lo, hi), lo, hi)
    ensures forall b :: b in bars && InWindow(b, lo, hi) ==> Bottom(bars, lo, hi).low <= b.low
    ensures forall b :: b in bars && InWindow(b, lo, hi) && b.low == Bottom(bars, lo, hi).low ==>
      Bottom(bars, lo, hi).time <= b.time
  {
    var w := Window(bars, lo, hi);
    WindowInOrder(bars, lo, hi);
    LowestIsEarliest(w);
    assert w[Lowest(w)] in w;
  }

  /** The index of the last bar whose time is at or before `t`, if any. */
  function LastAtOrBefore(bars: seq<Bar>, t: int): (r: Option<nat>)
    ensures r.Some? ==> r.value < |bars| && bars[r.value].time <= t
    ensures r.Some? ==> forall j :: r.value < j < |bars| ==> bars[j].time > t
    ensures r.None? <==> forall j :: 0 <= j < |bars| ==> bars[j].time > t
  {
    if bars == [] then None
    else if bars[|bars| - 1].time <= t then Some(|bars| - 1)
    else
      var r := LastAtOrBefore(bars[..|bars| - 1], t);
      assert forall j :: 0 <= j < |bars| - 1 ==> bars[j] == bars[..|bars| - 1][j];
      r
  }

  /** Under time order, the `asof` bar is the latest bar not after `t`. */
  lemma AsOfIsLatest(bars: seq<Bar>, t: int)
    requires BarsInOrder(bars)
    requires LastAtOrBefore(bars, t).Some?
    ensures var x := bars[LastAtOrBefore(bars, t).value];
      forall b :: b in bars && b.time <= t ==> b.time <= x.time
  {
    var k := LastAtOrBefore(bars, t).value;
    forall b | b in bars && b.time <= t ensures b.time <= bars[k].time {
      var j :| 0 <= j < |bars| && bars[j] == b;
      assert j <= k;
    }
  }
}
