/** The two-average crossover decision, taken on the last row of the
    filtered table only. */
module Crossover {
  import opened Wrappers
  import opened Series
  import opened Rolling

  /** The four messages the dashboard can show as its latest signal. */
  datatype Signal = Buy | Sell | Hold | NotEnoughData

  /** The last row's averages and the signal drawn from them. */
  datatype SignalState = SignalState(smaFast: Option<real>, smaSlow: Option<real>, signal: Signal)

  const FastWindow: nat := 5
  const SlowWindow: nat := 15

  /** The decision table: an undefined average gives no signal; otherwise the
      fast average above, below or equal to the slow one gives Buy, Sell or
      Hold. */
  function Decide(fast: Option<real>, slow: Option<real>): (r: Signal)
    ensures r == NotEnoughData <==> fast.None? || slow.None?
    ensures r == Buy <==> fast.Some? && slow.Some? && fast.value > slow.value
    ensures r == Sell <==> fast.Some? && slow.Some? && fast.value < slow.value
    ensures r == Hold <==> fast.Some? && slow.Some? && fast.value == slow.value
  {
    if fast.None? || slow.None? then NotEnoughData
    else if fast.value > slow.value then Buy
    else if fast.value < slow.value then Sell
    else Hold
  }

  /** Swapping the two averages swaps Buy and Sell and keeps Hold. */
  lemma DecideSwap(a: real, b: real)
    ensures Decide(Some(a), Some(b)) == Buy <==> Decide(Some(b), Some(a)) == Sell
    ensures Decide(Some(a), Some(b)) == Hold <==> Decide(Some(b), Some(a)) == Hold
  {
  }

  /** Signal state of a non-empty filtered table, read off its last row. */
  function Compute(s: Table): (r: SignalState)
    requires |s| > 0
    ensures r.smaFast.Some? <==> |s| >= FastWindow
    ensures r.smaSlow.Some? <==> |s| >= SlowWindow
    ensures r.smaFast.Some? ==> r.smaFast.value == Mean(Prices(s)[|s| - FastWindow..])
    ensures r.smaSlow.Some? ==> r.smaSlow.value == Mean(Prices(s)[|s| - SlowWindow..])
    ensures r.signal == NotEnoughData <==> |s| < SlowWindow
    ensures r.signal == Decide(r.smaFast, r.smaSlow)
  {
    var prices := Prices(s);
    var last := |s| - 1;
    var fast := Sma(prices, FastWindow, last);
    var slow := Sma(prices, SlowWindow, last);
    assert |s| >= FastWindow ==> prices[last + 1 - FastWindow..last + 1] == prices[|s| - FastWindow..];
    assert |s| >= SlowWindow ==> prices[last + 1 - SlowWindow..last + 1] == prices[|s| - SlowWindow..];
    SignalState(fast, slow, Decide(fast, slow))
  }

  /** Only the last SlowWindow prices matter: two tables that agree on them
      get the same averages and the same signal, whatever came before. */
  lemma OnlyLastWindowMatters(s: Table, t: Table)
    requires |s| >= SlowWindow && |t| >= SlowWindow
    requires Prices(s)[|s| - SlowWindow..] == Prices(t)[|t| - SlowWindow..]
    ensures Compute(s) == Compute(t)
  {
    var ps, pt := Prices(s)[|s| - SlowWindow..], Prices(t)[|t| - SlowWindow..];
    assert Prices(s)[|s| - FastWindow..] == ps[SlowWindow - FastWindow..];
    assert Prices(t)[|t| - FastWindow..] == pt[SlowWindow - FastWindow..];
  }

  /** On prices moving by d per row, the fast average sits 5 * d above the
      slow one, so a rising series signals Buy, a falling one Sell and a flat
      one Hold. */
  lemma TrendSignal(s: Table, a: real, d: real)
    requires |s| >= SlowWindow
    requires forall k | 0 <= k < |s| :: s[k].price == a + (k as real) * d
    ensures Compute(s).signal == (if d > 0.0 then Buy else if d < 0.0 then Sell else Hold)
  {
    var prices := Prices(s);
    var last := |s| - 1;
    SmaLinear(prices, a, d, FastWindow, last);
    SmaLinear(prices, a, d, SlowWindow, last);
    var r := Compute(s);
    assert r.smaFast.value - r.smaSlow.value == 5.0 * d;
  }
}
