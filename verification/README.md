# Energy price dashboard: filter and crossover-signal pipeline

A Dafny model of the data pipeline inside the intraday energy-price dashboard
(`streamlit_app.py`). Each refresh cycle runs these steps:

1. Guard on an empty fetched table.
2. Restrict the table to the slider's inclusive time range `[start, end]` with a boolean mask, then sort it by timestamp.
3. Guard on an empty selection.
4. Compute the 5-row and 15-row trailing simple moving averages of the price column, as pandas `rolling(window=N).mean()` does by default.
5. Read a Buy / Sell / Hold / "Not enough data" signal off the last row.

Modules:

- `Wrappers`: `Option`, standing for a rolling mean that pandas leaves as NaN.
- `Series`: the `Point` record `{ts: int, price: real, volume: real}`, tables as the type `Table` (`seq<Point>`), and the predicates `InRange`, `Sorted` and `DistinctTimes`. Also `MinTs` and `MaxTs`, the slider bounds.
- `RangeFilter`: the mask (`Mask`), the sort (`Insert`, `SortByTs`) and the combined stage (`FilterSorted`), with lemmas on membership, permutation, sortedness, the default range and inverted ranges.
- `Rolling`: window sums and means, the pointwise definition `Sma`, a streaming implementation `RollingMean` proved equal to it, and lemmas on bounds and linear trends.
- `Crossover`: the decision table `Decide` and the last-row computation `Compute`.
- `Pipeline`: the cycle `Run` with its two guards, `RunDefault` with the slider at its default, and the end-to-end scenarios.

Timestamps are integers standing for the instants `pd.to_datetime` produces. The model fixes no time unit. Prices and volumes are reals.

## Model

| member | source | states |
|---|---|---|
| Series.MinTs | streamlit_app.py:62 | the slider's lower bound is a timestamp of some row and is no later than any row's |
| Series.MaxTs | streamlit_app.py:63 | the slider's upper bound is a timestamp of some row and is no earlier than any row's |
| Pipeline.DefaultRange | streamlit_app.py:62-68 | the default slider value is an ordered pair; every fetched row lies inside it, and both bounds are timestamps of fetched rows, so they are exactly the minimum and maximum timestamps |
| RangeFilter.Mask | streamlit_app.py:73 | the mask keeps each row with `start <= ts <= end` exactly as often as it occurs in the input and keeps no other row |
| RangeFilter.Insert | streamlit_app.py:74 | inserting into a sorted table gives a sorted table holding the old rows plus the new one |
| RangeFilter.SortByTs | streamlit_app.py:74 | the sort's output is non-decreasing by timestamp and is a permutation of its input (same multiset) |
| RangeFilter.FilterSorted | streamlit_app.py:73-74 | the filtered table is sorted, a row is in it iff it is an input row inside `[start, end]`, and each such row keeps its multiplicity |
| RangeFilter.KeepsRowPayload | streamlit_app.py:73-74 | every output row equals some input row in timestamp, price and volume: filtering and sorting never change a price or volume |
| RangeFilter.DefaultRangeKeepsAll | streamlit_app.py:62-74 | with the range `[min ts, max ts]` of a non-empty table, the filtered table has the same rows (same multiset and length) as the input |
| RangeFilter.InvertedRangeIsEmpty | streamlit_app.py:73 | a range with `start > end` selects the empty table |
| RangeFilter.DisjointRangeIsEmpty | streamlit_app.py:62-73 | a range lying wholly before the first or after the last timestamp selects the empty table |
| RangeFilter.SortedPermutationUnique | streamlit_app.py:74 | two sorted permutations of a table with distinct timestamps are equal, so with distinct timestamps the result does not depend on which sort algorithm is used |
| RangeFilter.SortedInRangeUnchanged | streamlit_app.py:73-74 | a table that is already sorted, has distinct timestamps and lies wholly in range passes through the stage unchanged |
| Rolling.Sma | streamlit_app.py:84-85 | the window-N mean at row i is defined iff `i >= N - 1` (pandas' `min_periods` defaults to the window) and is then `Mean` (sum divided by count) of exactly the N prices ending at row i |
| Rolling.RollingMean | streamlit_app.py:84-85 | the streamed rolling-mean column (running sum plus newest price minus the one leaving the window) has one entry per row, and each entry equals the pointwise definition `Sma` |
| Rolling.SmaWithinWindow | streamlit_app.py:84-85 | a defined rolling mean lies between any lower and upper bound of the prices in its window |
| Rolling.SmaLinear | streamlit_app.py:84-85 | on prices `a + k*d`, the window-N mean at row i is `a + d*(i - (N-1)/2)`, the price at the window's midpoint |
| Crossover.Decide | streamlit_app.py:89-96 | "Not enough data" iff either average is undefined; otherwise exactly one of Buy (fast > slow), Sell (fast < slow) or Hold (equal), each as an iff |
| Crossover.DecideSwap | streamlit_app.py:91-96 | swapping the two averages swaps Buy and Sell and leaves Hold as it is |
| Crossover.Compute | streamlit_app.py:84-96 | on a non-empty table, the fast mean is defined iff there are at least 5 rows and is then the mean of the last 5 prices, and the slow mean likewise with 15; the signal is "Not enough data" iff fewer than 15 rows, otherwise the decision table applied to the last row's means |
| Crossover.OnlyLastWindowMatters | streamlit_app.py:88-96 | two tables whose last 15 prices agree get the same averages and signal, whatever rows come earlier |
| Crossover.TrendSignal | streamlit_app.py:84-96 | on prices moving by d per row over at least 15 rows, the signal is Buy if d > 0, Sell if d < 0 and Hold if d = 0 |
| Pipeline.Run | streamlit_app.py:55-96 | the cycle reports "no data" iff the fetched table is empty, and "no data in range" iff it is non-empty but no row lies in `[start, end]`; otherwise it reports a non-empty sorted table of exactly the in-range rows and the signal state of its last row |
| Pipeline.RunDefault | streamlit_app.py:55-96 | with the slider at its default, the cycle never reports "no data in range"; a report carries a sorted permutation of all fetched rows together with that table's last-row signal state (`Compute`), and its signal is "Not enough data" iff fewer than 15 rows were fetched |
| Pipeline.RangeOutsideData | streamlit_app.py:73-78 | a selected range wholly outside the data reports "no data in range" and skips the signal |
| Pipeline.SortedTableUnchanged | streamlit_app.py:62-88 | a sorted table with distinct timestamps reaches the signal step unchanged under the default range |
| Pipeline.RisingSignal | streamlit_app.py:84-96 | on at least 15 rows with prices 1, 2, ..., L, the fast mean is L - 2, the slow mean is L - 7, and the signal is Buy |
| Pipeline.RisingPricesBuy | streamlit_app.py:62-96 | rows 60 time units apart with prices 1, 2, ..., L (L >= 15) pass the default range unchanged and report fast mean L - 2, slow mean L - 7 and Buy |
| Pipeline.RisingTableBuys | streamlit_app.py:62-96 | twenty rows with prices 1.0 to 20.0 report fast mean 18.0, slow mean 13.0 and Buy |

## Left out

- `fetch_data` (streamlit_app.py:28-48) is left out: the HTTP request, JSON decoding, ISO-8601 parsing with `pd.to_datetime`, and turning any exception into an empty frame are network I/O and foreign parsing. The fetched table is a parameter of `Run` and `RunDefault`.
- The five-minute `st.cache_data(ttl=300)` cache (streamlit_app.py:27) is left out. Its behaviour lives inside Streamlit's decorator.
- The auto-refresh timer, title, markdown, slider widget, `st.write`/`st.error` messages, `.2f` formatting and line charts (streamlit_app.py:11, 16-22, 64-70, 98-110) are left out as presentation. The slider's chosen value is the `start`/`end` parameters of `Run`. Its default is `DefaultRange`.
- Floating point is not modelled. Prices are exact reals, means are exact, and NaN prices in the input are not modelled. An undefined mean is `None` rather than NaN, so `np.isnan` becomes a `None?` test.
- Order among equal timestamps is not modelled. `sort_values` uses its default quicksort, which is not stable. The model sorts by insertion and only ever states "sorted and a permutation". `SortedPermutationUnique` shows this fixes the result whenever timestamps are distinct. With repeated timestamps, the rolling means (and so the signal) may depend on how pandas orders the tied rows, and the model picks one such order.
- Crossover.Compute: requires a non-empty table. `df.iloc[-1]` raises on an empty frame, and the caller guards against that (streamlit_app.py:76-78).
- Rolling.Sma: requires a window of at least 1. The dashboard only uses windows 5 and 15.
- Writing the SMA columns back into the frame (a pandas copy-versus-view concern) is left out. Only their values at the last row are used.
