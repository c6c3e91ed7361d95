/** Stable sorting by a rank, in place and as a function, and what sorting keeps. */
module Sorting {
  predicate SortedBy<T>(rank: T -> real, s: seq<T>) {
    forall i, j :: 0 <= i < j < |s| ==> rank(s[i]) <= rank(s[j])
  }

  /** Puts x before the first element that does not rank below it. */
  function InsertBy<T>(rank: T -> real, x: T, s: seq<T>): (r: seq<T>)
    ensures |r| == |s| + 1
  {
    if s == [] then [x]
    else if rank(x) <= rank(s[0]) then [x] + s
    else [s[0]] + InsertBy(rank, x, s[1..])
  }

  function SortBy<T>(rank: T -> real, s: seq<T>): (r: seq<T>)
    ensures |r| == |s|
  {
    if s == [] then [] else InsertBy(rank, s[0], SortBy(rank, s[1..]))
  }

  predicate AllAbove<T>(rank: T -> real, s: seq<T>, low: real) {
    forall i :: 0 <= i < |s| ==> low <= rank(s[i])
  }

  lemma {:induction false} InsertAbove<T>(rank: T -> real, x: T, s: seq<T>, low: real)
    requires AllAbove(rank, s, low) && low <= rank(x)
    ensures AllAbove(rank, InsertBy(rank, x, s), low)
    decreases s
  {
    if s != [] && rank(x) > rank(s[0]) {
      InsertAbove(rank, x, s[1..], low);
    }
  }

  lemma {:induction false} InsertSorted<T>(rank: T -> real, x: T, s: seq<T>)
    requires SortedBy(rank, s)
    ensures SortedBy(rank, InsertBy(rank, x, s))
    decreases s
  {
    if s != [] && rank(x) > rank(s[0]) {
      InsertSorted(rank, x, s[1..]);
      InsertAbove(rank, x, s[1..], rank(s[0]));
    }
  }

  lemma {:induction false} InsertKeeps<T>(rank: T -> real, x: T, s: seq<T>)
    ensures multiset(InsertBy(rank, x, s)) == multiset{x} + multiset(s)
    decreases s
  {
    if s != [] && rank(x) > rank(s[0]) {
      InsertKeeps(rank, x, s[1..]);
      assert s == [s[0]] + s[1..];
    }
  }

  /** Sorting orders the elements and neither loses nor invents any. */
  lemma {:induction false} SortBySorts<T>(rank: T -> real, s: seq<T>)
    ensures SortedBy(rank, SortBy(rank, s))
    ensures multiset(SortBy(rank, s)) == multiset(s)
    decreases s
  {
    if s != [] {
      SortBySorts(rank, s[1..]);
      InsertSorted(rank, s[0], SortBy(rank, s[1..]));
      InsertKeeps(rank, s[0], SortBy(rank, s[1..]));
      assert s == [s[0]] + s[1..];
    }
  }

  /** The elements of one rank, in order. */
  function OfRank<T>(rank: T -> real, s: seq<T>, r: real): seq<T> {
    if s == [] then []
    else (if rank(s[0]) == r then [s[0]] else []) + OfRank(rank, s[1..], r)
  }

  lemma OfRankCons<T>(rank: T -> real, x: T, s: seq<T>, r: real)
    ensures OfRank(rank, [x] + s, r) == (if rank(x) == r then [x] else []) + OfRank(rank, s, r)
  {
    assert ([x] + s)[1..] == s;
  }

  lemma {:induction false} InsertStable<T>(rank: T -> real, x: T, s: seq<T>, r: real)
    ensures OfRank(rank, InsertBy(rank, x, s), r) == (if rank(x) == r then [x] else []) + OfRank(rank, s, r)
    decreases s
  {
    hide OfRank;
    if s == [] || rank(x) <= rank(s[0]) {
      assert InsertBy(rank, x, s) == [x] + s;
      OfRankCons(rank, x, s, r);
    } else {
      assert s == [s[0]] + s[1..];
      InsertStable(rank, x, s[1..], r);
      OfRankCons(rank, s[0], InsertBy(rank, x, s[1..]), r);
      OfRankCons(rank, s[0], s[1..], r);
      assert rank(x) == r ==> rank(s[0]) != r;
      var rest := OfRank(rank, s[1..], r);
      assert [] + ([x] + rest) == [x] + ([] + rest);
    }
  }

  /** Elements of equal rank keep their order. */
  lemma {:induction false} SortByStable<T>(rank: T -> real, s: seq<T>, r: real)
    ensures OfRank(rank, SortBy(rank, s), r) == OfRank(rank, s, r)
    decreases s
  {
    if s != [] {
      SortByStable(rank, s[1..], r);
      InsertStable(rank, s[0], SortBy(rank, s[1..]), r);
    }
  }

  // ----- in place

  /** Insertion sort from the back, as a stand-in for the library's in-place sort. */
  method SortInPlace<T>(rank: T -> real, a: array<T>)
    modifies a
    ensures a[..] == SortBy(rank, old(a[..]))
  {
    ghost var s := a[..];
    var i := a.Length;
    while i > 0
      invariant 0 <= i <= a.Length
      invariant a[..i] == s[..i] && a[i..] == SortBy(rank, s[i..])
    {
      i := i - 1;
      assert s[i..] == [s[i]] + s[i + 1..];
      assert a[i] == a[..i + 1][i] == s[i];
      assert a[..i] == a[..i + 1][..i] == s[..i];
      SinkInPlace(rank, a, i);
    }
    assert a[0..] == a[..] && s[0..] == s;
  }

  lemma SwapAdjacent<T>(left: seq<T>, x: T, right: seq<T>)
    requires right != []
    ensures var s, k := left + [x] + right, |left|;
      && s[k] == x && s[k + 1] == right[0]
      && s[k := right[0]][k + 1 := x] == left + [right[0]] + [x] + right[1..]
  {
  }

  lemma InsertPast<T>(rank: T -> real, x: T, right: seq<T>)
    requires right != [] && rank(x) > rank(right[0])
    ensures InsertBy(rank, x, right) == [right[0]] + InsertBy(rank, x, right[1..])
  {
  }

  lemma SinkStep<T>(rank: T -> real, x: T, rest: seq<T>, left: seq<T>, right: seq<T>, i: nat)
    requires right != [] && i <= |left| && rank(x) > rank(right[0])
    requires InsertBy(rank, x, rest) == left[i..] + InsertBy(rank, x, right)
    ensures InsertBy(rank, x, rest) == (left + [right[0]])[i..] + InsertBy(rank, x, right[1..])
    ensures (left + [right[0]])[..i] == left[..i]
  {
    hide InsertBy;
    var more := InsertBy(rank, x, right[1..]);
    InsertPast(rank, x, right);
    assert (left + [right[0]])[i..] == left[i..] + [right[0]];
    assert left[i..] + [right[0]] + more == left[i..] + ([right[0]] + more);
  }

  lemma SinkDone<T>(rank: T -> real, x: T, rest: seq<T>, left: seq<T>, right: seq<T>, i: nat)
    requires i <= |left| && (right != [] ==> rank(x) <= rank(right[0]))
    requires InsertBy(rank, x, rest) == left[i..] + InsertBy(rank, x, right)
    ensures var whole := left + [x] + right;
      whole[i..] == InsertBy(rank, x, rest) && whole[..i] == left[..i]
  {
    assert InsertBy(rank, x, right) == [x] + right;
  }

  /** Swaps a[i] to the right until it meets an element that does not rank below it. */
  method SinkInPlace<T>(rank: T -> real, a: array<T>, i: nat)
    requires i < a.Length
    modifies a
    ensures a[..i] == old(a[..i])
    ensures a[i..] == InsertBy(rank, old(a[i]), old(a[i + 1..]))
  {
    hide InsertBy;
    ghost var x, rest := a[i], a[i + 1..];
    ghost var left, right := a[..i], rest;
    assert left[i..] == [] && [] + InsertBy(rank, x, rest) == InsertBy(rank, x, rest);
    var k := i;
    while k + 1 < a.Length && rank(a[k]) > rank(a[k + 1])
      invariant i <= k == |left| && k + 1 + |right| == a.Length
      invariant a[..] == left + [x] + right
      invariant left[..i] == old(a[..i])
      invariant InsertBy(rank, x, rest) == left[i..] + InsertBy(rank, x, right)
    {
      ghost var whole := a[..];
      SwapAdjacent(left, x, right);
      assert whole[k] == a[k] && whole[k + 1] == a[k + 1];
      SinkStep(rank, x, rest, left, right, i);
      a[k], a[k + 1] := a[k + 1], a[k];
      assert a[..] == whole[k := right[0]][k + 1 := x];
      left, right := left + [right[0]], right[1..];
      k := k + 1;
    }
    ghost var whole := a[..];
    assert right != [] ==> whole[k] == x && whole[k + 1] == right[0];
    SinkDone(rank, x, rest, left, right, i);
    assert a[i..] == whole[i..] && a[..i] == whole[..i];
  }
}
