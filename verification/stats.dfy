/**
 * The column reductions the aggregators use: sum, mean, maximum, minimum,
 * the count of winning trades and percentages of a count.
 */
module Stats {

  function Sum(s: seq<real>): (total: real)
  {
    if s == [] then 0.0 else s[0] + Sum(s[1..])
  }

  lemma {:induction false} SumAppend(a: seq<real>, b: seq<real>)
    ensures Sum(a + b) == Sum(a) + Sum(b)
  {
    if a == [] {
      assert a + b == b;
    } else {
      assert (a + b)[1..] == a[1..] + b;
      SumAppend(a[1..], b);
    }
  }

  function Mean(s: seq<real>): (m: real)
    requires |s| > 0
  {
    Sum(s) / |s| as real
  }

  /** The sum is the mean times the count, also when both are scaled to percent. */
  lemma MeanTimesCount(s: seq<real>, n: nat)
    requires |s| > 0 && n == |s|
    ensures Sum(s) == Mean(s) * n as real
    ensures Sum(s) * 100.0 == (Mean(s) * 100.0) * n as real
  {
    var m := Mean(s);
    assert m * n as real == Sum(s);
    assert (m * 100.0) * n as real == (m * n as real) * 100.0;
  }

  /** The largest element (pandas `max`). */
  function MaxOf(s: seq<real>): (m: real)
    requires |s| > 0
    ensures forall i :: 0 <= i < |s| ==> s[i] <= m
    ensures m in s
  {
    if |s| == 1 then s[0]
    else
      var rest := MaxOf(s[1..]);
      if s[0] >= rest then s[0] else rest
  }

  /** The smallest element (pandas `min`). */
  function MinOf(s: seq<real>): (m: real)
    requires |s| > 0
    ensures forall i :: 0 <= i < |s| ==> m <= s[i]
    ensures m in s
  {
    if |s| == 1 then s[0]
    else
      var rest := MinOf(s[1..]);
      if s[0] <= rest then s[0] else rest
  }

  lemma {:induction false} SumAtLeast(s: seq<real>, c: real)
    requires forall i :: 0 <= i < |s| ==> c <= s[i]
    ensures |s| as real * c <= Sum(s)
  {
    if s != [] {
      SumAtLeast(s[1..], c);
      assert |s| as real * c == |s[1..]| as real * c + c;
    }
  }

  lemma {:induction false} SumAtMost(s: seq<real>, c: real)
    requires forall i :: 0 <= i < |s| ==> s[i] <= c
    ensures Sum(s) <= |s| as real * c
  {
    if s != [] {
      SumAtMost(s[1..], c);
      assert |s| as real * c == |s[1..]| as real * c + c;
    }
  }

  /** A lower bound on every element is a lower bound on the mean. */
  lemma MeanAtLeast(s: seq<real>, c: real)
    requires |s| > 0
    requires forall i :: 0 <= i < |s| ==> c <= s[i]
    ensures c <= Mean(s)
  {
    SumAtLeast(s, c);
  }

  /** An upper bound on every element is an upper bound on the mean. */
  lemma MeanAtMost(s: seq<real>, c: real)
    requires |s| > 0
    requires forall i :: 0 <= i < |s| ==> s[i] <= c
    ensures Mean(s) <= c
  {
    SumAtMost(s, c);
  }

  /** The mean of a column lies between its minimum and its maximum. */
  lemma MeanBetweenMinAndMax(s: seq<real>)
    requires |s| > 0
    ensures MinOf(s) <= Mean(s) <= MaxOf(s)
  {
    MeanAtLeast(s, MinOf(s));
    MeanAtMost(s, MaxOf(s));
  }

  /** The number of strictly positive results: a zero result is not a hit. */
  function Hits(s: seq<real>): (n: nat)
    ensures n <= |s|
  {
    if s == [] then 0
    else Hits(s[..|s| - 1]) + (if s[|s| - 1] > 0.0 then 1 else 0)
  }

  /** No hit means no positive result; all hits means every result is positive. */
  lemma {:induction false} HitsExtremes(s: seq<real>)
    ensures Hits(s) == 0 <==> forall i :: 0 <= i < |s| ==> s[i] <= 0.0
    ensures Hits(s) == |s| <==> forall i :: 0 <= i < |s| ==> s[i] > 0.0
  {
    if s != [] {
      HitsExtremes(s[..|s| - 1]);
      assert forall i :: 0 <= i < |s| - 1 ==> s[i] == s[..|s| - 1][i];
    }
  }

  lemma {:induction false} HitsAppend(a: seq<real>, b: seq<real>)
    ensures Hits(a + b) == Hits(a) + Hits(b)
  {
    if b == [] {
      assert a + b == a;
    } else {
      var init := b[..|b| - 1];
      assert (a + b)[..|a + b| - 1] == a + init;
      HitsAppend(a, init);
    }
  }

  /** `k` out of `n` as a percentage, (k / n) * 100. */
  function Percent(k: nat, n: nat): (r: real)
    requires n > 0
    ensures k <= n ==> 0.0 <= r <= 100.0
    ensures r == 0.0 <==> k == 0
    ensures r == 100.0 <==> k == n
  {
    (k as real / n as real) * 100.0
  }

  /** The hit rate and the miss rate of the same set of trades add up to 100. */
  lemma PercentComplement(k: nat, n: nat)
    requires 0 < n && k <= n
    ensures Percent(k, n) + Percent(n - k, n) == 100.0
  {
    var nr := n as real;
    assert k as real / nr + (n - k) as real / nr == (k as real + (n - k) as real) / nr;
  }
}
