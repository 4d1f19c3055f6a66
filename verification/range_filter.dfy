/** The time-range stage: a boolean mask over the timestamp column followed by
    a sort on it. The mask keeps the rows in their positional order; the sort
    is modelled as an insertion sort, and every property below is stated as
    "sorted and a permutation", which any correct sort satisfies. */
module RangeFilter {
  import opened Series

  /** How often p occurs among the rows of s that fall in [start, end]. */
  function InRangeCount(s: Table, p: Point, start: int, end: int): nat {
    if InRange(p, start, end) then multiset(s)[p] else 0
  }

  /** The rows of s with start <= ts <= end. */
  function Mask(s: Table, start: int, end: int): (r: Table)
    ensures forall p :: multiset(r)[p] == InRangeCount(s, p, start, end)
    ensures forall i | 0 <= i < |r| :: InRange(r[i], start, end)
    ensures |r| <= |s|
  {
    if |s| == 0 then []
    else
      var rest := Mask(s[1..], start, end);
      assert s == [s[0]] + s[1..];
      if InRange(s[0], start, end) then [s[0]] + rest else rest
  }

  /** A timestamp lower bound on every row of s and on p carries over to
      every row of any permutation of s + [p]. */
  lemma {:induction false} InsertBound(x: Point, rest: Table, s: Table, p: Point)
    requires multiset(rest) == multiset(s) + multiset{p}
    requires forall k | 0 <= k < |s| :: x.ts <= s[k].ts
    requires x.ts <= p.ts
    ensures forall k | 0 <= k < |rest| :: x.ts <= rest[k].ts
  {
    forall k | 0 <= k < |rest|
      ensures x.ts <= rest[k].ts
    {
      assert rest[k] in multiset(rest);
      if rest[k] != p {
        assert rest[k] in multiset(s);
        assert rest[k] in s;
      }
    }
  }

  /** Putting a row no later than any row of a sorted table in front of it
      keeps the table sorted. */
  lemma ConsSorted(x: Point, rest: Table)
    requires Sorted(rest)
    requires forall k | 0 <= k < |rest| :: x.ts <= rest[k].ts
    ensures Sorted([x] + rest)
  {
  }

  /** Places p into a sorted table after every row with a smaller timestamp. */
  function Insert(p: Point, s: Table): (r: Table)
    requires Sorted(s)
    ensures Sorted(r)
    ensures multiset(r) == multiset(s) + multiset{p}
  {
    if |s| == 0 then [p]
    else if p.ts <= s[0].ts then
      ConsSorted(p, s);
      [p] + s
    else
      var rest := Insert(p, s[1..]);
      assert s == [s[0]] + s[1..];
      InsertBound(s[0], rest, s[1..], p);
      ConsSorted(s[0], rest);
      assert multiset([s[0]] + rest) == multiset{s[0]} + multiset(rest);
      [s[0]] + rest
  }

  /** Sorts a table ascending by timestamp. */
  function SortByTs(s: Table): (r: Table)
    ensures Sorted(r)
    ensures multiset(r) == multiset(s)
  {
    if |s| == 0 then []
    else
      assert s == [s[0]] + s[1..];
      Insert(s[0], SortByTs(s[1..]))
  }

  /** The filtered, sorted table the dashboard goes on with. */
  function FilterSorted(s: Table, start: int, end: int): (r: Table)
    ensures Sorted(r)
    ensures forall p :: multiset(r)[p] == InRangeCount(s, p, start, end)
    ensures forall p :: p in r <==> p in s && InRange(p, start, end)
  {
    var r := SortByTs(Mask(s, start, end));
    assert forall p :: p in r <==> p in multiset(r);
    r
  }

  /** Filtering and sorting move whole rows: each output row is an input row
      with the same timestamp, price and volume. */
  lemma KeepsRowPayload(s: Table, start: int, end: int)
    ensures forall i | 0 <= i < |FilterSorted(s, start, end)| ::
      exists j | 0 <= j < |s| ::
        && s[j].ts == FilterSorted(s, start, end)[i].ts
        && s[j].price == FilterSorted(s, start, end)[i].price
        && s[j].volume == FilterSorted(s, start, end)[i].volume
  {
    var r := FilterSorted(s, start, end);
    forall i | 0 <= i < |r|
      ensures exists j | 0 <= j < |s| :: s[j] == r[i]
    {
      assert r[i] in r;
    }
  }

  /** With the slider at its default [min ts, max ts], no row is dropped. */
  lemma DefaultRangeKeepsAll(s: Table)
    requires |s| > 0
    ensures multiset(FilterSorted(s, MinTs(s), MaxTs(s))) == multiset(s)
    ensures |FilterSorted(s, MinTs(s), MaxTs(s))| == |s|
  {
  }

  /** An inverted range selects nothing. */
  lemma InvertedRangeIsEmpty(s: Table, start: int, end: int)
    requires start > end
    ensures FilterSorted(s, start, end) == []
  {
  }

  /** A range lying entirely before or after the data selects nothing. */
  lemma DisjointRangeIsEmpty(s: Table, start: int, end: int)
    requires |s| > 0
    requires end < MinTs(s) || MaxTs(s) < start
    ensures FilterSorted(s, start, end) == []
  {
  }

  /** Removing equal heads from two permutations of each other leaves
      permutations of each other. */
  lemma TailsArePermutations(a: Table, b: Table)
    requires |a| > 0 && |b| > 0 && a[0] == b[0]
    requires multiset(a) == multiset(b)
    ensures multiset(a[1..]) == multiset(b[1..])
  {
    assert a == [a[0]] + a[1..];
    assert b == [b[0]] + b[1..];
    assert multiset(a) == multiset{a[0]} + multiset(a[1..]);
    assert multiset(b) == multiset{a[0]} + multiset(b[1..]);
    forall p
      ensures multiset(a[1..])[p] == multiset(b[1..])[p]
    {
      assert multiset(a)[p] == multiset{a[0]}[p] + multiset(a[1..])[p];
      assert multiset(b)[p] == multiset{a[0]}[p] + multiset(b[1..])[p];
    }
  }

  /** Two sorted permutations of each other start with the same row when the
      first has distinct timestamps. */
  lemma SameHead(a: Table, b: Table)
    requires |a| > 0 && |b| > 0
    requires Sorted(a) && Sorted(b) && DistinctTimes(a)
    requires multiset(a) == multiset(b)
    ensures a[0] == b[0]
  {
    assert a[0] in multiset(b);
    var j :| 0 <= j < |b| && b[j] == a[0];
    assert b[0] in multiset(a);
    var k :| 0 <= k < |a| && a[k] == b[0];
    assert a[k].ts == a[0].ts;
  }

  /** When the timestamps are distinct, a sorted permutation is unique: how a
      sort orders rows with equal timestamps cannot change the result. */
  lemma {:induction false} SortedPermutationUnique(a: Table, b: Table)
    requires Sorted(a) && Sorted(b)
    requires DistinctTimes(a)
    requires multiset(a) == multiset(b)
    ensures a == b
    decreases |a|
  {
    assert |a| == |multiset(a)| == |multiset(b)| == |b|;
    if |a| > 0 {
      SameHead(a, b);
      TailsArePermutations(a, b);
      assert Sorted(a[1..]) && Sorted(b[1..]) && DistinctTimes(a[1..]);
      SortedPermutationUnique(a[1..], b[1..]);
      assert a == [a[0]] + a[1..];
      assert b == [b[0]] + b[1..];
    }
  }

  /** A table that is already sorted with every row in range passes through
      the stage unchanged. */
  lemma {:induction false} SortedInRangeUnchanged(s: Table, start: int, end: int)
    requires Sorted(s) && DistinctTimes(s)
    requires forall i | 0 <= i < |s| :: InRange(s[i], start, end)
    ensures FilterSorted(s, start, end) == s
  {
    var r := FilterSorted(s, start, end);
    forall p
      ensures multiset(r)[p] == multiset(s)[p]
    {
      if p in s {
        var j :| 0 <= j < |s| && s[j] == p;
      } else {
        assert p !in multiset(s);
      }
    }
    assert multiset(r) == multiset(s);
    SortedPermutationUnique(s, r);
  }
}
