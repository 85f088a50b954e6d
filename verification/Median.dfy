/** Ranks and medians, independent of any sorting. */
module Median {

  function Abs(x: int): nat {
    if x < 0 then -x else x
  }

  function CountAtMost(s: seq<int>, x: int): nat
    decreases |s|
  {
    if s == [] then 0 else (if s[0] <= x then 1 else 0) + CountAtMost(s[1..], x)
  }

  function CountBelow(s: seq<int>, x: int): nat {
    CountAtMost(s, x - 1)
  }

  /** x would stand at index r if s were sorted. */
  ghost predicate HasRank(x: int, s: seq<int>, r: nat) {
    CountBelow(s, x) <= r < CountAtMost(s, x)
  }

  /** The rank the clock filters use: the upper median. */
  ghost predicate IsMedian(x: int, s: seq<int>) {
    HasRank(x, s, |s| / 2)
  }

  lemma {:induction false} CountIsMonotone(s: seq<int>, x: int, y: int)
    requires x <= y
    ensures CountAtMost(s, x) <= CountAtMost(s, y) <= |s|
    decreases |s|
  {
    if s != [] {
      CountIsMonotone(s[1..], x, y);
    }
  }

  lemma {:induction false} CountAppends(s: seq<int>, t: seq<int>, x: int)
    ensures CountAtMost(s + t, x) == CountAtMost(s, x) + CountAtMost(t, x)
    decreases |s|
  {
    if s == [] {
      assert s + t == t;
    } else {
      assert (s + t)[1..] == s[1..] + t;
      CountAppends(s[1..], t, x);
    }
  }

  /** There is only one element of a given rank. */
  lemma RankIsUnique(x: int, y: int, s: seq<int>, r: nat)
    requires HasRank(x, s, r) && HasRank(y, s, r)
    ensures x == y
  {
    if x < y {
      CountIsMonotone(s, x, y - 1);
    } else if y < x {
      CountIsMonotone(s, y, x - 1);
    }
  }

  /** The median lies in every interval that holds a strict majority. */
  lemma MajorityHoldsMedian(m: int, s: seq<int>, lo: int, hi: int)
    requires IsMedian(m, s)
    requires 2 * (CountAtMost(s, hi) - CountBelow(s, lo)) > |s|
    ensures lo <= m <= hi
  {
    CountIsMonotone(s, hi, hi);
    if m < lo {
      CountIsMonotone(s, m, lo - 1);
    } else if m > hi {
      CountIsMonotone(s, hi, m - 1);
    }
  }

  // ---------- sorting ----------

  predicate Sorted(s: seq<int>) {
    forall i, j :: 0 <= i < j < |s| ==> s[i] <= s[j]
  }

  function InsertInto(s: seq<int>, x: int): (r: seq<int>)
    ensures |r| == |s| + 1
    decreases |s|
  {
    if s == [] || x <= s[0] then [x] + s else [s[0]] + InsertInto(s[1..], x)
  }

  /** What qsort leaves. */
  function Sort(s: seq<int>): (r: seq<int>)
    ensures |r| == |s|
    decreases |s|
  {
    if s == [] then [] else InsertInto(Sort(s[1..]), s[0])
  }

  lemma {:induction false} InsertCounts(s: seq<int>, x: int, y: int)
    ensures CountAtMost(InsertInto(s, x), y) == CountAtMost(s, y) + if x <= y then 1 else 0
    decreases |s|
  {
    if s == [] || x <= s[0] {
      assert ([x] + s)[1..] == s;
    } else {
      InsertCounts(s[1..], x, y);
      assert ([s[0]] + InsertInto(s[1..], x))[1..] == InsertInto(s[1..], x);
    }
  }

  lemma {:induction false} SortCounts(s: seq<int>, y: int)
    ensures CountAtMost(Sort(s), y) == CountAtMost(s, y)
    decreases |s|
  {
    if s != [] {
      SortCounts(s[1..], y);
      InsertCounts(Sort(s[1..]), s[0], y);
    }
  }

  ghost predicate AllAtLeast(s: seq<int>, x: int) {
    forall i :: 0 <= i < |s| ==> x <= s[i]
  }

  lemma {:induction false} InsertSorts(s: seq<int>, x: int)
    requires Sorted(s)
    ensures Sorted(InsertInto(s, x))
    ensures forall b :: AllAtLeast(s, b) && b <= x ==> AllAtLeast(InsertInto(s, x), b)
    decreases |s|
  {
    if !(s == [] || x <= s[0]) {
      InsertSorts(s[1..], x);
      assert AllAtLeast(s[1..], s[0]);
      assert AllAtLeast(InsertInto(s[1..], x), s[0]);
      forall b | AllAtLeast(s, b) && b <= x ensures AllAtLeast(InsertInto(s, x), b) {
        assert b <= s[0];
      }
    }
  }

  lemma {:induction false} SortSorts(s: seq<int>)
    ensures Sorted(Sort(s))
    decreases |s|
  {
    if s != [] {
      SortSorts(s[1..]);
      InsertSorts(Sort(s[1..]), s[0]);
    }
  }

  lemma {:induction false} CountNone(s: seq<int>, x: int)
    requires forall i :: 0 <= i < |s| ==> s[i] > x
    ensures CountAtMost(s, x) == 0
    decreases |s|
  {
    if s != [] {
      CountNone(s[1..], x);
    }
  }

  lemma {:induction false} CountAll(s: seq<int>, x: int)
    requires forall i :: 0 <= i < |s| ==> s[i] <= x
    ensures CountAtMost(s, x) == |s|
    decreases |s|
  {
    if s != [] {
      CountAll(s[1..], x);
    }
  }

  lemma CountSplits(s: seq<int>, k: nat, x: int)
    requires k <= |s|
    ensures CountAtMost(s, x) == CountAtMost(s[..k], x) + CountAtMost(s[k..], x)
  {
    assert s == s[..k] + s[k..];
    CountAppends(s[..k], s[k..], x);
  }

  /** Index r of a sorted sequence holds the element of rank r. */
  lemma SortedHasRank(s: seq<int>, r: nat)
    requires Sorted(s) && r < |s|
    ensures HasRank(s[r], s, r)
  {
    hide CountAtMost;
    var x := s[r];
    CountSplits(s, r + 1, x);
    CountAll(s[..r + 1], x);
    CountSplits(s, r, x - 1);
    CountIsMonotone(s[..r], x - 1, x - 1);
    CountNone(s[r..], x - 1);
  }

  /** Sorting and taking index r gives the element of rank r. */
  lemma SortFindsRank(s: seq<int>, r: nat)
    requires r < |s|
    ensures HasRank(Sort(s)[r], s, r)
  {
    SortSorts(s);
    SortedHasRank(Sort(s), r);
    SortCounts(s, Sort(s)[r]);
    SortCounts(s, Sort(s)[r] - 1);
  }
}
