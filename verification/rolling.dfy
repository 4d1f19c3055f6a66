/** Trailing simple moving averages over the price column, with the semantics
    of pandas `Series.rolling(window=n).mean()` under its defaults: the window
    ends at the current row, is not centred, and needs n observations
    (min_periods defaults to the window size), so the first n - 1 rows have
    no value. */
module Rolling {
  import opened Wrappers

  function Sum(xs: seq<real>): real {
    if |xs| == 0 then 0.0 else xs[0] + Sum(xs[1..])
  }

  /** Arithmetic mean of a non-empty window. */
  function Mean(xs: seq<real>): real
    requires |xs| > 0
  {
    Sum(xs) / (|xs| as real)
  }

  /** The rolling mean with window n at row i. */
  function Sma(prices: seq<real>, n: nat, i: nat): (r: Option<real>)
    requires 1 <= n && i < |prices|
    ensures r.Some? <==> n - 1 <= i
    ensures r.Some? ==> r.value == Mean(prices[i + 1 - n..i + 1])
  {
    if i + 1 < n then None else Some(Mean(prices[i + 1 - n..i + 1]))
  }

  lemma {:induction false} SumSnoc(xs: seq<real>, x: real)
    ensures Sum(xs + [x]) == Sum(xs) + x
  {
    if |xs| > 0 {
      assert (xs + [x])[1..] == xs[1..] + [x];
      SumSnoc(xs[1..], x);
    }
  }

  /** Index of the first price in the window after `count` rows have been
      read: the window then holds at most the last n of them. */
  function WindowStart(count: nat, n: nat): nat {
    if count >= n then count - n else 0
  }

  /** One step of the streaming window sum: reading row i adds its price
      and, once the window is full, drops the price that leaves it. */
  lemma SlideSum(prices: seq<real>, n: nat, i: nat)
    requires 1 <= n && i < |prices|
    ensures Sum(prices[WindowStart(i + 1, n)..i + 1])
         == Sum(prices[WindowStart(i, n)..i]) + prices[i] - (if i >= n then prices[i - n] else 0.0)
  {
    var lo := WindowStart(i, n);
    assert prices[lo..i + 1] == prices[lo..i] + [prices[i]];
    SumSnoc(prices[lo..i], prices[i]);
    if i >= n {
      assert prices[lo..i + 1][1..] == prices[lo + 1..i + 1];
    }
  }

  /** The rolling mean at row i is the window sum after reading row i,
      divided by n. */
  lemma SmaFromWindow(prices: seq<real>, n: nat, i: nat)
    requires 1 <= n && i < |prices|
    ensures Sma(prices, n, i)
         == if i + 1 >= n then Some(Sum(prices[WindowStart(i + 1, n)..i + 1]) / (n as real)) else None
  {
  }

  /** One step of RollingMean: the updated window sum, divided by n, is the
      rolling mean at row i. */
  lemma SlideWindow(prices: seq<real>, n: nat, i: nat, win: real)
    requires 1 <= n && i < |prices|
    requires win == Sum(prices[WindowStart(i, n)..i])
    ensures var next := win + prices[i] - (if i >= n then prices[i - n] else 0.0);
      && next == Sum(prices[WindowStart(i + 1, n)..i + 1])
      && Sma(prices, n, i) == if i + 1 >= n then Some(next / (n as real)) else None
  {
    SlideSum(prices, n, i);
    SmaFromWindow(prices, n, i);
  }

  /** The whole rolling-mean column, computed the way a streaming
      implementation does: one running window sum, adding the newest price
      and dropping the one that leaves the window. Each entry equals Sma. */
  method RollingMean(prices: seq<real>, n: nat) returns (out: seq<Option<real>>)
    requires 1 <= n
    ensures |out| == |prices|
    ensures forall i | 0 <= i < |prices| :: out[i] == Sma(prices, n, i)
  {
    out := [];
    var win := 0.0;
    var i := 0;
    while i < |prices|
      invariant 0 <= i <= |prices|
      invariant |out| == i
      invariant forall k | 0 <= k < i :: out[k] == Sma(prices, n, k)
      invariant win == Sum(prices[WindowStart(i, n)..i])
    {
      SlideWindow(prices, n, i, win);
      var dropped := if i >= n then prices[i - n] else 0.0;
      win := win + prices[i] - dropped;
      var mean := if i + 1 >= n then Some(win / (n as real)) else None;
      assert mean == Sma(prices, n, i);
      out := out + [mean];
      assert out[i] == Sma(prices, n, i);
      i := i + 1;
    }
  }

  /** If every price lies between lo and hi, the sum lies between
      |xs| * lo and |xs| * hi. */
  lemma {:induction false} SumBounds(xs: seq<real>, lo: real, hi: real)
    requires forall k | 0 <= k < |xs| :: lo <= xs[k] <= hi
    ensures (|xs| as real) * lo <= Sum(xs) <= (|xs| as real) * hi
  {
    if |xs| > 0 {
      SumBounds(xs[1..], lo, hi);
    }
  }

  /** A defined rolling mean lies between the smallest and largest price of
      its window. */
  lemma SmaWithinWindow(prices: seq<real>, n: nat, i: nat, lo: real, hi: real)
    requires 1 <= n && n - 1 <= i < |prices|
    requires forall k | i + 1 - n <= k <= i :: lo <= prices[k] <= hi
    ensures Sma(prices, n, i).Some?
    ensures lo <= Sma(prices, n, i).value <= hi
  {
    var w := prices[i + 1 - n..i + 1];
    assert forall k | 0 <= k < |w| :: w[k] == prices[i + 1 - n + k];
    SumBounds(w, lo, hi);
    var m := Sum(w) / (n as real);
    assert (n as real) * m == Sum(w);
  }

  /** Sum of an arithmetic progression a, a + d, a + 2d, ... (doubled to stay
      clear of division). */
  lemma {:induction false} SumLinear(xs: seq<real>, a: real, d: real)
    requires forall k | 0 <= k < |xs| :: xs[k] == a + (k as real) * d
    ensures 2.0 * Sum(xs) == 2.0 * (|xs| as real) * a + d * (|xs| as real) * ((|xs| - 1) as real)
  {
    if |xs| > 0 {
      var m := |xs| - 1;
      assert forall k | 0 <= k < |xs[1..]| :: xs[1..][k] == (a + d) + (k as real) * d;
      SumLinear(xs[1..], a + d, d);
      assert 2.0 * Sum(xs[1..]) == 2.0 * (m as real) * (a + d) + d * (m as real) * ((m - 1) as real);
    }
  }

  /** The mean of an arithmetic progression is its midpoint. */
  lemma MeanLinear(w: seq<real>, a: real, d: real)
    requires |w| > 0
    requires forall k | 0 <= k < |w| :: w[k] == a + (k as real) * d
    ensures Mean(w) == a + d * ((|w| - 1) as real) / 2.0
  {
    SumLinear(w, a, d);
    var nr := |w| as real;
    assert ((|w| - 1) as real) == nr - 1.0;
    assert Sum(w) == nr * (a + d * (nr - 1.0) / 2.0);
  }

  /** Moving the progression's start from row 0 to row i - m. */
  lemma ShiftStart(a: real, d: real, lr: real, ir: real, m: real)
    requires lr == ir - m
    ensures a + lr * d + d * m / 2.0 == a + d * ir - d * m / 2.0
  {
  }

  /** On prices rising (or falling) by d per row, the window-n mean at row i
      is the price at the window's midpoint: a + d * (i - (n - 1) / 2). */
  lemma SmaLinear(prices: seq<real>, a: real, d: real, n: nat, i: nat)
    requires forall k | 0 <= k < |prices| :: prices[k] == a + (k as real) * d
    requires 1 <= n && n - 1 <= i < |prices|
    ensures Sma(prices, n, i) == Some(a + d * (i as real) - d * ((n - 1) as real) / 2.0)
  {
    var lo := i + 1 - n;
    var w := prices[lo..i + 1];
    var a' := a + (lo as real) * d;
    assert forall k | 0 <= k < |w| :: w[k] == a' + (k as real) * d;
    MeanLinear(w, a', d);
    assert Sma(prices, n, i) == Some(Mean(w));
    var m := (n - 1) as real;
    assert |w| - 1 == n - 1;
    assert Mean(w) == a' + d * m / 2.0;
    assert (lo as real) == (i as real) - m;
    ShiftStart(a, d, lo as real, i as real, m);
    var target := a + d * (i as real) - d * ((n - 1) as real) / 2.0;
    assert Mean(w) == target;
    assert Some(Mean(w)) == Some(target);
  }
}
