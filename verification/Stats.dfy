/** Percentile statistics over the reals. */
module Stats {
  import opened Sorting

  datatype Summary = Summary(count: nat, min: real, max: real, mean: real, p50: real, p90: real, p99: real)

  const EMPTY := Summary(0, 0.0, 0.0, 0.0, 0.0, 0.0, 0.0)

  const IDENTITY: real -> real := x => x

  function Sorted(s: seq<real>): (r: seq<real>)
    ensures |r| == |s|
  {
    SortBy(IDENTITY, s)
  }

  function Positive(values: seq<real>): seq<real> {
    if values == [] then []
    else
      var last := values[|values| - 1];
      Positive(values[..|values| - 1]) + if last <= 0.0 then [] else [last]
  }

  function Sum(s: seq<real>): real {
    if s == [] then 0.0 else Sum(s[..|s| - 1]) + s[|s| - 1]
  }

  function Interpolate(a: real, b: real, weight: real): real {
    a * (1.0 - weight) + b * weight
  }

  function Rank(n: nat, p: real): real
    requires n > 0
  {
    (p / 100.0) * (n - 1) as real
  }

  /** The position at or below a percentile. */
  function Lower(n: nat, p: real): (k: nat)
    requires n > 0 && 0.0 <= p <= 100.0
    ensures k < n
    ensures k as real <= Rank(n, p) < (k + 1) as real
  {
    RankInRange(n, p);
    Rank(n, p).Floor
  }

  lemma RankInRange(n: nat, p: real)
    requires n > 0 && 0.0 <= p <= 100.0
    ensures 0.0 <= Rank(n, p) <= (n - 1) as real
  {
    var q, m := p / 100.0, (n - 1) as real;
    assert 0.0 <= q <= 1.0;
    MulMonotone(q, 1.0, m);
    assert q * m >= 0.0;
  }

  lemma MulMonotone(x: real, y: real, m: real)
    requires x <= y && m >= 0.0
    ensures x * m <= y * m
  {
    assert (y - x) * m >= 0.0;
  }

  /** The server's percentile. */
  function Percentile(s: seq<real>, p: real): real
    requires 0.0 <= p <= 100.0
  {
    if |s| == 0 then 0.0
    else if |s| == 1 then s[0]
    else
      var lower := Lower(|s|, p);
      var upper := lower + 1;
      if upper >= |s| then s[|s| - 1]
      else Interpolate(s[lower], s[upper], Rank(|s|, p) - lower as real)
  }

  /** The dashboard's and the benchmark script's percentile, in full: the upper neighbour is capped instead. */
  function PercentileCapped(s: seq<real>, p: real): real
    requires 0.0 <= p <= 100.0
  {
    if |s| == 0 then 0.0
    else if |s| == 1 then s[0]
    else
      RankInRange(|s|, p);
      var rank := (p / 100.0) * (|s| - 1) as real;
      var lower := rank.Floor;
      var upper := if lower + 1 < |s| - 1 then lower + 1 else |s| - 1;
      var weight := rank - lower as real;
      s[lower] * (1.0 - weight) + s[upper] * weight
  }

  /** The implementations agree on every input, the end of the list included. */
  lemma PercentilesAgree(s: seq<real>, p: real)
    requires 0.0 <= p <= 100.0
    ensures Percentile(s, p) == PercentileCapped(s, p)
  {
    if |s| > 1 {
      var lower := Lower(|s|, p);
      var weight := Rank(|s|, p) - lower as real;
      assert lower == ((p / 100.0) * (|s| - 1) as real).Floor;
      if lower + 1 >= |s| {
        InterpolateSame(s[lower], weight);
        assert PercentileCapped(s, p) == Interpolate(s[lower], s[lower], weight);
      } else {
        assert PercentileCapped(s, p) == Interpolate(s[lower], s[lower + 1], weight);
      }
    }
  }

  lemma InterpolateSame(a: real, w: real)
    ensures Interpolate(a, a, w) == a
  {
  }

  function SummaryOf(values: seq<real>): Summary {
    var kept := Positive(values);
    if kept == [] then EMPTY
    else
      var s := Sorted(kept);
      Summary(|s|, s[0], s[|s| - 1], Sum(kept) / |s| as real, Percentile(s, 50.0), Percentile(s, 90.0),
              Percentile(s, 99.0))
  }

  lemma SumOfNothing()
    ensures Positive([]) == [] && Sum([]) == 0.0
  {
  }

  lemma SumSnoc(s: seq<real>, v: real)
    ensures Sum(s + [v]) == Sum(s) + v
  {
    assert (s + [v])[..|s|] == s;
  }

  lemma PositiveSnoc(values: seq<real>, v: real)
    ensures Positive(values + [v]) == Positive(values) + if v <= 0.0 then [] else [v]
  {
    assert (values + [v])[..|values|] == values;
  }

  /** Keeps the positive samples while adding them up, sorts them in place, and reads off the figures. */
  method Summarize(values: seq<real>) returns (r: Summary)
    ensures r == SummaryOf(values)
  {
    hide Percentile, SortBy, Positive, Sum;
    SumOfNothing();
    var filtered: seq<real>, sum := [], 0.0;
    var i := 0;
    while i < |values|
      invariant 0 <= i <= |values|
      invariant filtered == Positive(values[..i]) && sum == Sum(filtered)
    {
      var v := values[i];
      assert values[..i + 1] == values[..i] + [v];
      PositiveSnoc(values[..i], v);
      if v > 0.0 {
        SumSnoc(filtered, v);
        filtered := filtered + [v];
        sum := sum + v;
      }
      i := i + 1;
    }
    assert values[..i] == values;
    if |filtered| == 0 {
      return EMPTY;
    }
    var a := new real[|filtered|](k requires 0 <= k < |filtered| => filtered[k]);
    assert a[..] == filtered;
    SortInPlace(IDENTITY, a);
    var s := a[..];
    r := Summary(|s|, s[0], s[|s| - 1], sum / |s| as real, Percentile(s, 50.0), Percentile(s, 90.0),
                 Percentile(s, 99.0));
  }

  // ----- interpolation

  lemma InterpolateBetween(a: real, b: real, w: real)
    requires a <= b && 0.0 <= w <= 1.0
    ensures a <= Interpolate(a, b, w) <= b
  {
    MulMonotone(0.0, w, b - a);
    MulMonotone(w, 1.0, b - a);
    assert Interpolate(a, b, w) == a + w * (b - a);
  }

  lemma InterpolateWeight(a: real, b: real, v: real, w: real)
    requires a <= b && v <= w
    ensures Interpolate(a, b, v) <= Interpolate(a, b, w)
  {
    MulMonotone(v, w, b - a);
    assert Interpolate(a, b, v) == a + v * (b - a);
    assert Interpolate(a, b, w) == a + w * (b - a);
  }

  lemma InterpolateLeft(a: real, c: real, b: real, w: real)
    requires a <= c && w <= 1.0
    ensures Interpolate(a, b, w) <= Interpolate(c, b, w)
  {
    var v := 1.0 - w;
    MulMonotone(a, c, v);
  }

  lemma InterpolateRight(a: real, b: real, d: real, w: real)
    requires b <= d && 0.0 <= w
    ensures Interpolate(a, b, w) <= Interpolate(a, d, w)
  {
    MulMonotone(b, d, w);
  }

  lemma InterpolateEnds(a: real, b: real, c: real, d: real, w: real)
    requires a <= c && b <= d && 0.0 <= w <= 1.0
    ensures Interpolate(a, b, w) <= Interpolate(c, d, w)
  {
    hide Interpolate;
    InterpolateLeft(a, c, b, w);
    InterpolateRight(c, b, d, w);
  }

  // ----- percentiles are ordered

  predicate Ascending(s: seq<real>) {
    forall i, j :: 0 <= i <= j < |s| ==> s[i] <= s[j]
  }

  lemma PercentileBetweenNeighbours(s: seq<real>, p: real)
    requires |s| > 0 && Ascending(s) && 0.0 <= p <= 100.0
    ensures var k := Lower(|s|, p);
      s[k] <= Percentile(s, p) <= s[if k + 1 < |s| then k + 1 else k]
  {
    var k := Lower(|s|, p);
    if |s| > 1 && k + 1 < |s| {
      InterpolateBetween(s[k], s[k + 1], Rank(|s|, p) - k as real);
    }
  }

  // ----- where a percentile lies

  /** The percentage at which the position k + w of n samples is reached. */
  function PercentAt(n: nat, k: nat, w: real): (p: real)
    requires k + 1 < n && 0.0 <= w <= 1.0
    ensures 0.0 <= p <= 100.0
  {
    PositionInRange((n - 1) as real, k as real + w);
    100.0 * (k as real + w) / (n - 1) as real
  }

  lemma PositionInRange(m: real, x: real)
    requires 0.0 <= x <= m && m > 0.0
    ensures 0.0 <= 100.0 * x / m <= 100.0
    ensures (100.0 * x / m) / 100.0 * m == x
  {
    var q := x / m;
    assert q * m == x;
    DivideMonotone(0.0, x, m);
    DivideMonotone(x, m, m);
    assert 0.0 <= q <= 1.0;
    assert 100.0 * x / m == 100.0 * q;
  }

  /** Between two neighbours a percentile moves from one sample to the next in proportion to the percentage. */
  lemma PercentileAt(s: seq<real>, k: nat, w: real)
    requires k + 1 < |s| && 0.0 <= w <= 1.0
    ensures Percentile(s, PercentAt(|s|, k, w)) == s[k] + w * (s[k + 1] - s[k])
  {
    var n, p := |s|, PercentAt(|s|, k, w);
    PositionInRange((n - 1) as real, k as real + w);
    assert Rank(n, p) == k as real + w;
    if w < 1.0 {
      assert Lower(n, p) == k;
      assert Interpolate(s[k], s[k + 1], w) == s[k] + w * (s[k + 1] - s[k]);
    } else {
      assert Lower(n, p) == k + 1;
      assert s[k] + w * (s[k + 1] - s[k]) == s[k + 1];
      if k + 2 < n {
        assert Interpolate(s[k + 1], s[k + 2], 0.0) == s[k + 1];
      }
    }
  }

  /** The ends of the scale are the first and the last sample, and its middle is the median. */
  lemma FirstLastMedian(s: seq<real>)
    requires s != []
    ensures Percentile(s, 0.0) == s[0] && Percentile(s, 100.0) == s[|s| - 1]
    ensures |s| % 2 == 1 ==> Percentile(s, 50.0) == s[|s| / 2]
    ensures |s| % 2 == 0 ==> Percentile(s, 50.0) == (s[|s| / 2 - 1] + s[|s| / 2]) / 2.0
  {
    var n := |s|;
    if n > 1 {
      var m := (n - 1) as real;
      PercentileIs(s, 0, 0.0, 0.0);
      PercentileIs(s, n - 2, 1.0, 100.0);
      if n % 2 == 1 {
        PercentileIs(s, n / 2, 0.0, 50.0);
      } else {
        PercentileIs(s, n / 2 - 1, 0.5, 50.0);
      }
    }
  }

  /** The same, for a percentage that is given by the position it reaches. */
  lemma PercentileIs(s: seq<real>, k: nat, w: real, p: real)
    requires k + 1 < |s| && 0.0 <= w <= 1.0 && 0.0 <= p <= 100.0
    requires 100.0 * (k as real + w) == p * (|s| - 1) as real
    ensures Percentile(s, p) == s[k] + w * (s[k + 1] - s[k])
  {
    var m := (|s| - 1) as real;
    QuotientIs(p, m, 100.0 * (k as real + w));
    assert PercentAt(|s|, k, w) == p;
    PercentileAt(s, k, w);
  }

  lemma QuotientIs(p: real, m: real, x: real)
    requires m > 0.0 && x == p * m
    ensures x / m == p
  {
  }

  /** A higher percentile is never smaller. */
  lemma PercentileMonotone(s: seq<real>, p: real, q: real)
    requires |s| > 0 && Ascending(s) && 0.0 <= p <= q <= 100.0
    ensures Percentile(s, p) <= Percentile(s, q)
  {
    var n := |s|;
    var k, m := Lower(n, p), Lower(n, q);
    RankMonotone(n, p, q);
    PercentileBetweenNeighbours(s, p);
    PercentileBetweenNeighbours(s, q);
    if k == m {
      if n > 1 && k + 1 < n {
        InterpolateWeight(s[k], s[k + 1], Rank(n, p) - k as real, Rank(n, q) - k as real);
      }
    } else {
      assert k + 1 <= m;
      assert s[k + 1] <= s[m];
    }
  }

  lemma RankMonotone(n: nat, p: real, q: real)
    requires n > 0 && p <= q
    ensures Rank(n, p) <= Rank(n, q)
  {
    MulMonotone(p / 100.0, q / 100.0, (n - 1) as real);
  }

  lemma SortedAscends(s: seq<real>)
    ensures Ascending(Sorted(s)) && multiset(Sorted(s)) == multiset(s)
  {
    SortBySorts(IDENTITY, s);
    var r := Sorted(s);
    forall i, j | 0 <= i <= j < |r|
      ensures r[i] <= r[j]
    {
      if i < j {
        assert IDENTITY(r[i]) <= IDENTITY(r[j]);
      }
    }
  }

  lemma {:induction false} SumBounds(s: seq<real>, lo: real, hi: real)
    requires forall i :: 0 <= i < |s| ==> lo <= s[i] <= hi
    ensures lo * |s| as real <= Sum(s) <= hi * |s| as real
    decreases |s|
  {
    if s != [] {
      SumBounds(s[..|s| - 1], lo, hi);
    }
  }

  lemma PercentilesOrdered(s: seq<real>)
    requires |s| > 0 && Ascending(s)
    ensures s[0] <= Percentile(s, 50.0) <= Percentile(s, 90.0) <= Percentile(s, 99.0) <= s[|s| - 1]
  {
    hide Percentile, Lower;
    PercentileBetweenNeighbours(s, 50.0);
    PercentileBetweenNeighbours(s, 99.0);
    PercentileMonotone(s, 50.0, 90.0);
    PercentileMonotone(s, 90.0, 99.0);
  }

  lemma MeanBetween(kept: seq<real>, s: seq<real>)
    requires kept != [] && Ascending(s) && multiset(s) == multiset(kept) && |s| == |kept|
    ensures s[0] <= Sum(kept) / |s| as real <= s[|s| - 1]
  {
    hide Sum;
    forall i | 0 <= i < |kept|
      ensures s[0] <= kept[i] <= s[|s| - 1]
    {
      assert kept[i] in multiset(s);
    }
    SumBounds(kept, s[0], s[|s| - 1]);
    MeanBounds(Sum(kept), |s|, s[0], s[|s| - 1]);
  }

  /** The figures of a summary are ordered, and its mean lies between its extremes, for every input. */
  lemma SummaryOrdered(values: seq<real>)
    ensures var r := SummaryOf(values);
      r.min <= r.p50 <= r.p90 <= r.p99 <= r.max && r.min <= r.mean <= r.max
  {
    hide Percentile, Sum, Sorted, Positive, Ascending;
    var kept := Positive(values);
    if kept != [] {
      SortedAscends(kept);
      PercentilesOrdered(Sorted(kept));
      MeanBetween(kept, Sorted(kept));
    }
  }

  lemma MeanBounds(sum: real, n: nat, lo: real, hi: real)
    requires n > 0 && lo * n as real <= sum <= hi * n as real
    ensures lo <= sum / n as real <= hi
  {
    var m := n as real;
    DivideMonotone(lo * m, sum, m);
    DivideMonotone(sum, hi * m, m);
    assert lo * m / m == lo && hi * m / m == hi;
  }

  lemma DivideMonotone(x: real, y: real, m: real)
    requires x <= y && m > 0.0
    ensures x / m <= y / m
  {
  }

  // ----- order statistics are monotone

  predicate Below(a: seq<real>, b: seq<real>) {
    |a| == |b| && forall i :: 0 <= i < |a| ==> a[i] <= b[i]
  }

  lemma {:induction false} InsertBelow(x: real, a: seq<real>, y: real, b: seq<real>)
    requires x <= y && Below(a, b) && Ascending(a) && Ascending(b)
    ensures Below(InsertBy(IDENTITY, x, a), InsertBy(IDENTITY, y, b))
    decreases a
  {
    if a != [] {
      if x <= a[0] {
        if y > b[0] {
          InsertBelow(a[0], a[1..], y, b[1..]);
          assert InsertBy(IDENTITY, a[0], a[1..]) == a by { InsertHead(a); }
        }
      } else if y <= b[0] {
        InsertBelow(x, a[1..], b[0], b[1..]);
        assert InsertBy(IDENTITY, b[0], b[1..]) == b by { InsertHead(b); }
      } else {
        InsertBelow(x, a[1..], y, b[1..]);
      }
    }
  }

  lemma InsertHead(a: seq<real>)
    requires a != [] && Ascending(a)
    ensures InsertBy(IDENTITY, a[0], a[1..]) == a
  {
    assert a == [a[0]] + a[1..];
  }

  /** Sorting keeps pointwise order. */
  lemma {:induction false} SortedBelow(a: seq<real>, b: seq<real>)
    requires Below(a, b)
    ensures Below(Sorted(a), Sorted(b))
    decreases a
  {
    if a != [] {
      SortedBelow(a[1..], b[1..]);
      SortedAscends(a[1..]);
      SortedAscends(b[1..]);
      InsertBelow(a[0], Sorted(a[1..]), b[0], Sorted(b[1..]));
    }
  }

  lemma PercentileBelow(a: seq<real>, b: seq<real>, p: real)
    requires Below(a, b) && 0.0 <= p <= 100.0
    ensures Percentile(a, p) <= Percentile(b, p)
  {
    if |a| > 1 {
      var k := Lower(|a|, p);
      if k + 1 < |a| {
        InterpolateEnds(a[k], a[k + 1], b[k], b[k + 1], Rank(|a|, p) - k as real);
      }
    }
  }

  lemma {:induction false} SumBelow(a: seq<real>, b: seq<real>)
    requires Below(a, b)
    ensures Sum(a) <= Sum(b)
    decreases |a|
  {
    if a != [] {
      SumBelow(a[..|a| - 1], b[..|b| - 1]);
    }
  }

  lemma {:induction false} PositiveAll(values: seq<real>)
    requires forall i :: 0 <= i < |values| ==> values[i] > 0.0
    ensures Positive(values) == values
    decreases |values|
  {
    if values != [] {
      PositiveAll(values[..|values| - 1]);
    }
  }

  /** If every sample of one list is at most its counterpart in another, so is every figure of the summary. */
  lemma SummaryMonotone(a: seq<real>, b: seq<real>)
    requires Below(a, b) && forall i :: 0 <= i < |a| ==> a[i] > 0.0
    ensures var r, s := SummaryOf(a), SummaryOf(b);
      && r.count == s.count && r.min <= s.min && r.max <= s.max && r.mean <= s.mean
      && r.p50 <= s.p50 && r.p90 <= s.p90 && r.p99 <= s.p99
  {
    assert forall i :: 0 <= i < |b| ==> b[i] >= a[i];
    PositiveAll(a);
    PositiveAll(b);
    if a != [] {
      SortedBelow(a, b);
      SumBelow(a, b);
      DivideMonotone(Sum(a), Sum(b), |a| as real);
      PercentileBelow(Sorted(a), Sorted(b), 50.0);
      PercentileBelow(Sorted(a), Sorted(b), 90.0);
      PercentileBelow(Sorted(a), Sorted(b), 99.0);
    }
  }

  // ----- what a summary ignores

  lemma SameLeast(a: seq<real>, b: seq<real>)
    requires Ascending(a) && Ascending(b) && multiset(a) == multiset(b) && a != []
    ensures b != [] && a[0] == b[0]
  {
    assert a[0] in multiset(b);
    assert b[0] in multiset(a);
  }

  lemma DropFirst(a: seq<real>)
    requires a != []
    ensures multiset(a[1..]) == multiset(a) - multiset{a[0]}
  {
    assert a == [a[0]] + a[1..];
  }

  /** An ascending list is determined by its elements. */
  lemma {:induction false} AscendingUnique(a: seq<real>, b: seq<real>)
    requires Ascending(a) && Ascending(b) && multiset(a) == multiset(b)
    ensures a == b
    decreases |a|
  {
    if a != [] {
      SameLeast(a, b);
      DropFirst(a);
      DropFirst(b);
      AscendingUnique(a[1..], b[1..]);
      assert a == [a[0]] + a[1..] && b == [b[0]] + b[1..];
    } else {
      assert |multiset(b)| == 0;
    }
  }

  lemma {:induction false} SumFront(x: real, s: seq<real>)
    ensures Sum([x] + s) == x + Sum(s)
    decreases |s|
  {
    if s == [] {
      assert [x] + s == [x] && [x][..0] == [];
    } else {
      SumFront(x, s[..|s| - 1]);
      assert ([x] + s)[..|s|] == [x] + s[..|s| - 1];
    }
  }

  lemma {:induction false} SumInsert(x: real, s: seq<real>)
    ensures Sum(InsertBy(IDENTITY, x, s)) == x + Sum(s)
    decreases s
  {
    if s == [] {
      assert [x] + s == [x];
      SumFront(x, s);
    } else if x <= s[0] {
      SumFront(x, s);
    } else {
      SumInsert(x, s[1..]);
      SumFront(s[0], InsertBy(IDENTITY, x, s[1..]));
      SumFront(s[0], s[1..]);
      assert s == [s[0]] + s[1..];
    }
  }

  lemma {:induction false} SumSorted(s: seq<real>)
    ensures Sum(Sorted(s)) == Sum(s)
    decreases s
  {
    if s != [] {
      SumSorted(s[1..]);
      SumInsert(s[0], Sorted(s[1..]));
      SumFront(s[0], s[1..]);
      assert s == [s[0]] + s[1..];
    }
  }

  lemma MultisetSnoc(s: seq<real>, y: real, x: real)
    ensures multiset(s + [y])[x] == multiset(s)[x] + if x == y then 1 else 0
  {
  }

  lemma {:induction false} PositiveMultiset(a: seq<real>, x: real)
    ensures multiset(Positive(a))[x] == if x > 0.0 then multiset(a)[x] else 0
    decreases |a|
  {
    if a != [] {
      var init, last := a[..|a| - 1], a[|a| - 1];
      PositiveMultiset(init, x);
      assert a == init + [last];
      MultisetSnoc(init, last, x);
      MultisetSnoc(Positive(init), last, x);
      assert Positive(init) + [] == Positive(init);
    }
  }

  /**
   A summary depends only on which positive samples occur and how often: not on their order, and not on any zero or
   negative sample.
   */
  lemma SummaryInvariant(a: seq<real>, b: seq<real>)
    requires forall x :: x > 0.0 ==> multiset(a)[x] == multiset(b)[x]
    ensures SummaryOf(a) == SummaryOf(b)
  {
    var p, q := Positive(a), Positive(b);
    forall x: real
      ensures multiset(p)[x] == multiset(q)[x]
    {
      PositiveMultiset(a, x);
      PositiveMultiset(b, x);
    }
    assert multiset(p) == multiset(q);
    SortedAscends(p);
    SortedAscends(q);
    AscendingUnique(Sorted(p), Sorted(q));
    SumSorted(p);
    SumSorted(q);
  }

  /** Inserting a sample that is not positive, anywhere, changes nothing. */
  lemma SummaryIgnoresNonPositive(a: seq<real>, b: seq<real>, x: real)
    requires x <= 0.0
    ensures SummaryOf(a + [x] + b) == SummaryOf(a + b)
  {
    forall y | y > 0.0
      ensures multiset(a + [x] + b)[y] == multiset(a + b)[y]
    {
      assert multiset(a + [x] + b) == multiset(a) + multiset{x} + multiset(b);
      assert multiset(a + b) == multiset(a) + multiset(b);
    }
    SummaryInvariant(a + [x] + b, a + b);
  }

  // ----- the dashboard's summary

  // ----- what the figures are, sample by sample

  function PositiveTotal(values: seq<real>): real {
    if values == [] then 0.0 else (if values[0] > 0.0 then values[0] else 0.0) + PositiveTotal(values[1..])
  }

  function PositiveCount(values: seq<real>): nat {
    if values == [] then 0 else (if values[0] > 0.0 then 1 else 0) + PositiveCount(values[1..])
  }

  lemma {:induction false} TotalSnoc(values: seq<real>, v: real)
    ensures PositiveTotal(values + [v]) == PositiveTotal(values) + if v > 0.0 then v else 0.0
    ensures PositiveCount(values + [v]) == PositiveCount(values) + if v > 0.0 then 1 else 0
  {
    if values != [] {
      assert (values + [v])[1..] == values[1..] + [v];
      TotalSnoc(values[1..], v);
    } else {
      assert values + [v] == [v] && [v][1..] == [];
    }
  }

  lemma {:induction false} PositiveTotals(values: seq<real>)
    ensures Sum(Positive(values)) == PositiveTotal(values) && |Positive(values)| == PositiveCount(values)
    decreases |values|
  {
    if values == [] {
      SumOfNothing();
    } else {
      hide Positive, Sum, PositiveTotal, PositiveCount;
      var init, last := values[..|values| - 1], values[|values| - 1];
      assert values == init + [last];
      PositiveTotals(init);
      TotalSnoc(init, last);
      PositiveSnoc(init, last);
      SumSnoc(Positive(init), last);
      assert Positive(init) + [] == Positive(init);
    }
  }

  lemma MeanOf(values: seq<real>)
    ensures SummaryOf(values).count == |Positive(values)|
    ensures Positive(values) == [] ==> SummaryOf(values).mean == 0.0
    ensures Positive(values) != [] ==> SummaryOf(values).mean == Sum(Positive(values)) / |Positive(values)| as real
  {
    hide Percentile, Positive, Sum, SortBy;
  }

  /** The summary counts the positive samples, and its mean times their number is their sum. */
  lemma MeanTimesCount(values: seq<real>)
    ensures SummaryOf(values).count == PositiveCount(values)
    ensures SummaryOf(values).mean * SummaryOf(values).count as real == PositiveTotal(values)
  {
    PositiveTotals(values);
    SumOfNothing();
    MeanOf(values);
    hide SummaryOf, Positive, Sum, PositiveTotal, PositiveCount;
    if Positive(values) != [] {
      QuotientBack(Sum(Positive(values)), |Positive(values)| as real);
    }
  }

  lemma QuotientBack(x: real, m: real)
    requires m > 0.0
    ensures x / m * m == x
  {
  }

  /** s lists the positive samples in ascending order. */
  ghost predicate Lists(s: seq<real>, values: seq<real>) {
    Ascending(s) && forall x: real :: multiset(s)[x] == if x > 0.0 then multiset(values)[x] else 0
  }

  /** The value between two neighbouring samples, in proportion. */
  function Between(s: seq<real>, k: nat, w: real): real
    requires k + 1 < |s|
  {
    s[k] + w * (s[k + 1] - s[k])
  }

  /** The value stands p percent of the way from the first sample to the last, in proportion between two neighbours. */
  ghost predicate StandsAt(s: seq<real>, p: real, value: real) {
    forall k: nat, w: real ::
      k + 1 < |s| && 0.0 <= w <= 1.0 && 100.0 * (k as real + w) == p * (|s| - 1) as real ==>
        value == Between(s, k, w)
  }

  lemma PercentileStandsAt(s: seq<real>, p: real)
    requires 0.0 <= p <= 100.0
    ensures StandsAt(s, p, Percentile(s, p))
  {
    hide Percentile;
    forall k: nat, w: real |
      k + 1 < |s| && 0.0 <= w <= 1.0 && 100.0 * (k as real + w) == p * (|s| - 1) as real
      ensures Percentile(s, p) == Between(s, k, w)
    {
      PercentileIs(s, k, w, p);
    }
  }

  /**
   Read off the ascending list of the positive samples: the first and the last are the extremes, and each percentile is
   reached at its share of the way from the first sample to the last.
   */
  lemma SummaryFigures(values: seq<real>, s: seq<real>)
    requires Lists(s, values)
    ensures s == [] ==> SummaryOf(values) == EMPTY
    ensures s != [] ==>
              var r := SummaryOf(values);
              && r.count == |s| && r.min == s[0] && r.max == s[|s| - 1]
              && StandsAt(s, 50.0, r.p50) && StandsAt(s, 90.0, r.p90) && StandsAt(s, 99.0, r.p99)
              && (|s| == 1 ==> r.p50 == r.p90 == r.p99 == s[0])
  {
    ListIsSorted(values, s);
    PercentileStandsAt(s, 50.0);
    PercentileStandsAt(s, 90.0);
    PercentileStandsAt(s, 99.0);
    hide Sorted, Positive, Sum, StandsAt;
  }

  lemma ListIsSorted(values: seq<real>, s: seq<real>)
    requires Lists(s, values)
    ensures s == Sorted(Positive(values))
    ensures s == [] <==> Positive(values) == []
  {
    var kept := Positive(values);
    SortedAscends(kept);
    forall x: real
      ensures multiset(s)[x] == multiset(Sorted(kept))[x]
    {
      PositiveMultiset(values, x);
    }
    assert multiset(s) == multiset(Sorted(kept));
    hide Positive, Sorted;
    AscendingUnique(s, Sorted(kept));
  }

  datatype Brief = Brief(count: nat, p50: real, p99: real)

  function BriefOf(values: seq<real>): Brief {
    var s := Sorted(Positive(values));
    if s == [] then Brief(0, 0.0, 0.0)
    else Brief(|s|, PercentileCapped(s, 50.0), PercentileCapped(s, 99.0))
  }

  /** The dashboard shows the server's figures. */
  lemma DashboardSummaryAgrees(values: seq<real>)
    ensures var r := SummaryOf(values); BriefOf(values) == Brief(r.count, r.p50, r.p99)
  {
    var s := Sorted(Positive(values));
    PercentilesAgree(s, 50.0);
    PercentilesAgree(s, 99.0);
  }
}
