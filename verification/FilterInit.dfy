/** Initialising one sinc filter: scaling to unity gain and rounding with error feedback, from the
    middle tap outwards. */
module FilterInit {

  /** The sum of taps lo .. hi-1. */
  function Sum(s: seq<real>, lo: nat, hi: nat): real
    requires lo <= hi <= |s|
    decreases hi - lo
  {
    if lo == hi then 0.0 else s[lo] + Sum(s, lo + 1, hi)
  }

  lemma {:induction false} SumAppend(s: seq<real>, lo: nat, hi: nat)
    requires lo <= hi < |s|
    ensures Sum(s, lo, hi + 1) == Sum(s, lo, hi) + s[hi]
    decreases hi - lo
  {
    if lo < hi {
      SumAppend(s, lo + 1, hi);
    }
  }

  lemma {:induction false} SumIgnores(s: seq<real>, t: seq<real>, lo: nat, hi: nat)
    requires lo <= hi <= |s| == |t| && forall i :: lo <= i < hi ==> s[i] == t[i]
    ensures Sum(s, lo, hi) == Sum(t, lo, hi)
    decreases hi - lo
  {
    if lo < hi {
      SumIgnores(s, t, lo + 1, hi);
    }
  }

  function Product(x: real, k: real): real {
    x * k
  }

  function Scale(s: seq<real>, k: real): (r: seq<real>)
    ensures |r| == |s| && forall i :: 0 <= i < |s| ==> r[i] == Product(s[i], k)
  {
    seq(|s|, i requires 0 <= i < |s| => Product(s[i], k))
  }

  lemma {:induction false} SumScales(s: seq<real>, k: real, lo: nat, hi: nat)
    requires lo <= hi <= |s|
    ensures Sum(Scale(s, k), lo, hi) == Sum(s, lo, hi) * k
    decreases hi - lo
  {
    if lo < hi {
      SumScales(s, k, lo + 1, hi);
      assert (s[lo] + Sum(s, lo + 1, hi)) * k == s[lo] * k + Sum(s, lo + 1, hi) * k;
    }
  }

  /** A rounding to the stored sample type whose error never exceeds eps. */
  ghost predicate Bounded(round: real -> real, eps: real) {
    forall x :: -eps <= round(x) - x <= eps
  }

  /** The tap after i: the loop jumps between the two halves, away from the middle, and leaves the
      filter after tap 0. */
  function NextTap(i: nat, half: nat): int {
    2 * half - i - (if i >= half then 1 else 0)
  }

  /** The taps lo .. hi-1 are done and i is the next one out. */
  ghost predicate Visiting(half: nat, lo: int, hi: int, i: int) {
    && 0 <= lo <= half <= hi <= 2 * half
    && ((hi - half == half - lo && i == hi) || (hi - half == half - lo + 1 && i == lo - 1))
  }

  /** The order the loop visits the taps in: from the middle out, right and left in turn. */
  function Order(half: nat): (taps: seq<nat>)
    ensures |taps| == 2 * half
  {
    seq(2 * half, k requires 0 <= k < 2 * half => if k % 2 == 0 then half + k / 2 else half - 1 - k / 2)
  }

  /** Every tap from 0 to n-1 is there, and none twice. */
  ghost predicate VisitsEach(taps: seq<nat>, n: nat) {
    && |taps| == n
    && (forall i :: 0 <= i < n ==> i in taps)
    && (forall k :: 0 <= k < n ==> taps[k] < n)
    && forall j, k :: 0 <= j < k < n ==> taps[j] != taps[k]
  }

  lemma OrderStep(half: nat, lo: int, hi: int, i: int)
    requires Visiting(half, lo, hi, i) && 0 <= i < 2 * half && hi - lo < 2 * half
    ensures Order(half)[..hi - lo] + [i] == Order(half)[..hi - lo + 1]
  {
    assert Order(half)[hi - lo] == i;
  }

  lemma OrderVisitsEach(half: nat)
    ensures VisitsEach(Order(half), 2 * half)
  {
    var taps := Order(half);
    forall i: nat | i < 2 * half ensures i in taps {
      var k := if i >= half then 2 * (i - half) else 2 * (half - 1 - i) + 1;
      assert taps[k] == i;
    }
  }

  /** The sum over the done taps after one more. */
  lemma SumStep(before: seq<real>, after: seq<real>, lo: nat, hi: nat, i: nat)
    requires lo <= hi <= |before| == |after| && i < |before|
    requires after == before[i := after[i]]
    requires i == hi || i == lo - 1
    ensures var sum := Sum(before, lo, hi) + after[i];
            if i == hi then Sum(after, lo, hi + 1) == sum else Sum(after, lo - 1, hi) == sum
  {
    SumIgnores(before, after, lo, hi);
    if i == hi {
      SumAppend(after, lo, hi);
    }
  }

  lemma RoundingError(round: real -> real, eps: real, y: real)
    requires Bounded(round, eps)
    ensures -eps <= round(y) - y <= eps && eps >= 0.0
  {
    assert -eps <= round(y) - y <= eps;
  }

  /** One tap: round the scaled value less the error so far, and carry the new error on. */
  method RoundTap(temp: real, filter: array<real>, i: nat, error: real, round: real -> real, ghost eps: real)
    returns (error': real, ghost y: real)
    requires i < filter.Length && Bounded(round, eps) && -eps <= error <= eps
    modifies filter
    ensures filter[..] == old(filter[..])[i := round(y)]
    ensures error' == error + (filter[i] - temp) == round(y) - y
    ensures -eps <= error' <= eps && -2.0 * eps <= filter[i] - temp <= 2.0 * eps
  {
    y := temp - error;
    RoundingError(round, eps, y);
    filter[i] := round(temp - error);
    error' := error + (filter[i] - temp);
  }

  /** Scale, round and feed the error on, from the middle out. `last` is the value rounded at tap 0. */
  method RoundTaps(values: seq<real>, scaler: real, filter: array<real>, round: real -> real, ghost eps: real)
    returns (ghost last: real, ghost visited: seq<nat>)
    requires |values| == filter.Length >= 4 && |values| % 4 == 0
    requires Bounded(round, eps)
    modifies filter
    ensures visited == Order(|values| / 2)
    ensures filter[0] == round(last)
    ensures Sum(filter[..], 0, |values|) - Sum(Scale(values, scaler), 0, |values|) == round(last) - last
    ensures forall i :: 0 <= i < |values| ==> -2.0 * eps <= filter[i] - Scale(values, scaler)[i] <= 2.0 * eps
  {
    hide Sum, Bounded, Product, Order;
    var half := filter.Length / 2;
    ghost var scaled := Scale(values, scaler);
    var error := 0.0;
    var i := half;
    ghost var lo, hi := i, i;
    last, visited := 0.0, [];
    RoundingError(round, eps, 0.0);
    EmptySum(filter[..], i);
    EmptySum(scaled, i);
    while i < filter.Length
      invariant Visiting(half, lo, hi, i) && visited == Order(half)[..hi - lo]
      invariant error == Sum(filter[..], lo, hi) - Sum(scaled, lo, hi)
      invariant -eps <= error <= eps
      invariant lo < hi ==> error == round(last) - last
      invariant lo == 0 ==> filter[0] == round(last)
      invariant forall j :: lo <= j < hi ==> -2.0 * eps <= filter[j] - scaled[j] <= 2.0 * eps
      decreases filter.Length - (hi - lo)
    {
      ghost var before := filter[..];
      OrderStep(half, lo, hi, i);
      visited := visited + [i];
      error, last := RoundTap(Product(values[i], scaler), filter, i, error, round, eps);
      SumStep(before, filter[..], lo, hi, i);
      SumStep(scaled, scaled, lo, hi, i);
      if i == hi {
        hi := hi + 1;
      } else {
        lo := lo - 1;
      }
      i := NextTap(i, half);
    }
  }

  lemma EmptySum(s: seq<real>, i: nat)
    requires i <= |s|
    ensures Sum(s, i, i) == 0.0
  {
  }

  /** The filling of the filter in init_filter, given the windowed sinc values. Each tap is visited
      once; the feedback telescopes, so the sum misses 1 only by the rounding of tap 0, the last. */
  method InitFilter(values: seq<real>, filter: array<real>, round: real -> real, ghost eps: real)
    returns (ghost visited: seq<nat>)
    requires |values| == filter.Length >= 4 && |values| % 4 == 0
    requires Sum(values, 0, |values|) != 0.0
    requires Bounded(round, eps)
    modifies filter
    ensures visited == Order(|values| / 2) && VisitsEach(visited, |values|)
    ensures exists y :: filter[0] == round(y) && Sum(filter[..], 0, |values|) == 1.0 + (round(y) - y)
    ensures -eps <= Sum(filter[..], 0, |values|) - 1.0 <= eps
    ensures forall i :: 0 <= i < |values| ==>
      -2.0 * eps <= filter[i] - values[i] / Sum(values, 0, |values|) <= 2.0 * eps
  {
    hide Bounded, VisitsEach, Order;
    var filterSum := 0.0;
    for i := 0 to |values|
      invariant filterSum == Sum(values, 0, i)
    {
      SumAppend(values, 0, i);
      filterSum := filterSum + values[i];
    }
    var scaler := 1.0 / filterSum;
    ghost var last;
    last, visited := RoundTaps(values, scaler, filter, round, eps);
    OrderVisitsEach(|values| / 2);
    RoundingError(round, eps, last);
    SumScales(values, scaler, 0, |values|);
    UnitSum(filterSum, scaler);
    QuotientIsProduct(values, filterSum, scaler);
  }

  lemma UnitSum(total: real, scaler: real)
    requires total != 0.0 && scaler == 1.0 / total
    ensures total * scaler == 1.0
  {
  }

  lemma QuotientIsProduct(values: seq<real>, total: real, scaler: real)
    requires total != 0.0 && scaler == 1.0 / total
    ensures forall i :: 0 <= i < |values| ==> values[i] / total == values[i] * scaler
  {
  }
}
