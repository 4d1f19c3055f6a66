/** One refresh cycle of the dashboard after the fetch: guard on an empty
    table, restrict to the selected range, guard on an empty selection, and
    compute the signal from the last row. */
module Pipeline {
  import opened Wrappers
  import opened Series
  import opened RangeFilter
  import opened Crossover
  import Rolling

  /** What a cycle ends with: the "no data available" message, the "no data
      in the selected time range" message, or the filtered table together
      with its signal state. */
  datatype Outcome = NoData | NoDataInRange | Report(filtered: Table, state: SignalState)

  /** A cycle with the slider set to [start, end]. */
  function Run(fetched: Table, start: int, end: int): (r: Outcome)
    ensures r == NoData <==> |fetched| == 0
    ensures r == NoDataInRange <==>
      |fetched| > 0 && forall i | 0 <= i < |fetched| :: !InRange(fetched[i], start, end)
    ensures r.Report? ==> |r.filtered| > 0 && Sorted(r.filtered)
    ensures r.Report? ==> forall p :: multiset(r.filtered)[p] == InRangeCount(fetched, p, start, end)
    ensures r.Report? ==> r.state == Compute(r.filtered)
  {
    if |fetched| == 0 then NoData
    else
      var filtered := FilterSorted(fetched, start, end);
      assert |filtered| > 0 ==> filtered[0] in filtered;
      assert forall i | 0 <= i < |fetched| :: fetched[i] in fetched;
      if |filtered| == 0 then NoDataInRange
      else Report(filtered, Compute(filtered))
  }

  /** The slider's default value: the whole span of the fetched table. */
  function DefaultRange(fetched: Table): (range: (int, int))
    requires |fetched| > 0
    ensures range.0 <= range.1
    ensures forall i | 0 <= i < |fetched| :: InRange(fetched[i], range.0, range.1)
    ensures exists i | 0 <= i < |fetched| :: fetched[i].ts == range.0
    ensures exists i | 0 <= i < |fetched| :: fetched[i].ts == range.1
  {
    (MinTs(fetched), MaxTs(fetched))
  }

  /** A cycle with the slider left at its default. */
  function RunDefault(fetched: Table): (r: Outcome)
    ensures r == NoData <==> |fetched| == 0
    ensures r != NoDataInRange
    ensures r.Report? ==> Sorted(r.filtered) && multiset(r.filtered) == multiset(fetched)
    ensures r.Report? ==> (r.state.signal == NotEnoughData <==> |fetched| < SlowWindow)
    ensures r.Report? ==> r.state == Compute(r.filtered)
  {
    if |fetched| == 0 then NoData
    else
      var range := DefaultRange(fetched);
      DefaultRangeKeepsAll(fetched);
      Run(fetched, range.0, range.1)
  }

  /** A selected range that lies wholly before or after the data reports
      "no data in the selected time range" and skips the signal. */
  lemma RangeOutsideData(fetched: Table, start: int, end: int)
    requires |fetched| > 0
    requires end < MinTs(fetched) || MaxTs(fetched) < start
    ensures Run(fetched, start, end) == NoDataInRange
  {
  }

  /** A table already sorted with distinct timestamps reaches the signal
      step unchanged when the slider is left at its default. */
  lemma SortedTableUnchanged(s: Table)
    requires |s| > 0 && Sorted(s) && DistinctTimes(s)
    ensures RunDefault(s) == Report(s, Compute(s))
  {
    var range := DefaultRange(s);
    SortedInRangeUnchanged(s, range.0, range.1);
  }

  /** Rows 60 time units apart with prices 1.0, 2.0, ..., L.0 and L >= 15: the
      default range keeps every row, the five-row mean at the last row is
      L - 2, the fifteen-row mean is L - 7, and the signal is Buy. */
  lemma RisingPricesBuy(s: Table)
    requires |s| >= SlowWindow
    requires forall k | 0 <= k < |s| :: s[k].ts == 60 * k && s[k].price == (k + 1) as real
    ensures RunDefault(s) == Report(s, SignalState(Some((|s| - 2) as real), Some((|s| - 7) as real), Buy))
  {
    assert Sorted(s) && DistinctTimes(s);
    SortedTableUnchanged(s);
    RisingSignal(s);
  }

  /** The signal part of RisingPricesBuy. */
  lemma RisingSignal(s: Table)
    requires |s| >= SlowWindow
    requires forall k | 0 <= k < |s| :: s[k].price == (k + 1) as real
    ensures Compute(s) == SignalState(Some((|s| - 2) as real), Some((|s| - 7) as real), Buy)
  {
    var prices := Prices(s);
    var last := |s| - 1;
    assert forall k | 0 <= k < |prices| :: prices[k] == 1.0 + (k as real) * 1.0;
    Rolling.SmaLinear(prices, 1.0, 1.0, FastWindow, last);
    Rolling.SmaLinear(prices, 1.0, 1.0, SlowWindow, last);
  }

  /** Twenty rows, 60 time units apart, with prices 1.0 to 20.0. */
  function RisingTable(): Table {
    seq(20, k requires 0 <= k < 20 => Point(60 * k, (k + 1) as real, 100.0))
  }

  /** On RisingTable the five-row mean is 18, the fifteen-row mean is 13,
      and the signal is Buy. */
  lemma RisingTableBuys()
    ensures RunDefault(RisingTable()) == Report(RisingTable(), SignalState(Some(18.0), Some(13.0), Buy))
  {
    RisingPricesBuy(RisingTable());
  }
}
