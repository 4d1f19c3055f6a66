/** The price/volume observations the dashboard fetches, and the predicates
    the later stages of the pipeline are stated with. */
module Series {

  /** One row of the fetched table: a timestamp (an instant, as an integer),
      a price and a traded volume. */
  datatype Point = Point(ts: int, price: real, volume: real)

  /** A table of rows in positional order; duplicates are allowed. */
  type Table = seq<Point>

  /** The boolean mask the dashboard applies: both ends are inclusive. */
  predicate InRange(p: Point, start: int, end: int) {
    start <= p.ts <= end
  }

  /** Non-decreasing by timestamp. */
  predicate Sorted(s: Table) {
    forall i, j | 0 <= i < j < |s| :: s[i].ts <= s[j].ts
  }

  /** No two rows share a timestamp. */
  predicate DistinctTimes(s: Table) {
    forall i, j | 0 <= i < j < |s| :: s[i].ts != s[j].ts
  }

  /** The price column. */
  function Prices(s: Table): seq<real> {
    seq(|s|, i requires 0 <= i < |s| => s[i].price)
  }

  /** The earliest timestamp of a non-empty table (the slider's lower bound). */
  function MinTs(s: Table): (m: int)
    requires |s| > 0
    ensures forall i | 0 <= i < |s| :: m <= s[i].ts
    ensures exists i | 0 <= i < |s| :: s[i].ts == m
  {
    if |s| == 1 then s[0].ts
    else
      var rest := MinTs(s[1..]);
      if s[0].ts <= rest then s[0].ts
      else
        assert exists i | 1 <= i < |s| :: s[i].ts == rest by {
          var k :| 0 <= k < |s[1..]| && s[1..][k].ts == rest;
          assert s[k + 1].ts == rest;
        }
        rest
  }

  /** The latest timestamp of a non-empty table (the slider's upper bound). */
  function MaxTs(s: Table): (m: int)
    requires |s| > 0
    ensures forall i | 0 <= i < |s| :: s[i].ts <= m
    ensures exists i | 0 <= i < |s| :: s[i].ts == m
  {
    if |s| == 1 then s[0].ts
    else
      var rest := MaxTs(s[1..]);
      if rest <= s[0].ts then s[0].ts
      else
        assert exists i | 1 <= i < |s| :: s[i].ts == rest by {
          var k :| 0 <= k < |s[1..]| && s[1..][k].ts == rest;
          assert s[k + 1].ts == rest;
        }
        rest
  }
}
