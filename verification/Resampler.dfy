/** The sinc resampler: a sliding history buffer per channel, a real-valued phase and a bank of
    filters, against its specification on the unbounded signal. */
module Resampler {

  /** One instant of the signal: a value per channel. */
  type Frame = seq<real>

  /** The filters, and how a position picks among them. */
  datatype Bank = Bank(numChannels: nat, numTaps: nat, numFilters: nat, filters: seq<seq<real>>,
                       interpolate: bool, lowpass: bool)
  {
    predicate Valid() {
      && 4 <= numTaps <= 1024 && numTaps % 4 == 0
      && 1 <= numFilters <= 1024
      && |filters| == numFilters + 1
      && forall i :: 0 <= i < |filters| ==> |filters[i]| == numTaps
    }

    function Half(): nat { numTaps / 2 }
  }

  // ---------- convolution ----------

  /** The products of taps lo .. hi-1. */
  function DotRange(a: seq<real>, b: seq<real>, lo: nat, hi: nat): real
    requires lo <= hi <= |a| == |b|
    decreases hi - lo
  {
    if lo == hi then 0.0 else a[lo] * b[lo] + DotRange(a, b, lo + 1, hi)
  }

  function Dot(a: seq<real>, b: seq<real>): real
    requires |a| == |b|
  {
    DotRange(a, b, 0, |a|)
  }

  lemma {:induction false} DotSplits(a: seq<real>, b: seq<real>, lo: nat, mid: nat, hi: nat)
    requires lo <= mid <= hi <= |a| == |b|
    ensures DotRange(a, b, lo, hi) == DotRange(a, b, lo, mid) + DotRange(a, b, mid, hi)
    decreases mid - lo
  {
    if lo < mid {
      DotSplits(a, b, lo + 1, mid, hi);
    }
  }

  /** apply_filter, plain order. */
  method ApplyFilter(a: seq<real>, b: seq<real>) returns (sum: real)
    requires |a| == |b| > 0
    ensures sum == Dot(a, b)
  {
    sum := 0.0;
    var i := 0;
    while i < |a|
      invariant i <= |a|
      invariant sum + DotRange(a, b, i, |a|) == Dot(a, b)
    {
      sum := sum + a[i] * b[i];
      i := i + 1;
    }
  }

  /** apply_filter, outside-in: the two ends first, meeting in the middle. Every tap is used once. */
  method ApplyFilterOutsideIn(a: seq<real>, b: seq<real>) returns (sum: real)
    requires |a| == |b| > 0 && |a| % 2 == 0
    ensures sum == Dot(a, b)
  {
    var n := |a|;
    var i, k := n - 1, 0;   // k counts the pointer increments
    sum := a[0] * b[0] + a[i] * b[i];
    k := 1;
    i := i - 2;
    DotSplits(a, b, 0, 1, n);
    DotSplits(a, b, 1, n - 1, n);
    while i > 0
      invariant 1 <= k <= n / 2 && i == n - 1 - 2 * k
      invariant sum + DotRange(a, b, k, n - k) == Dot(a, b)
    {
      DotSplits(a, b, k, n - 1 - k, n - k);
      sum := sum + (a[k] * b[k] + a[k + i] * b[k + i]);
      k := k + 1;
      i := i - 2;
    }
  }

  // ---------- the specification on the unbounded signal ----------

  predicate Uniform(x: seq<Frame>, channels: nat) {
    forall n :: 0 <= n < |x| ==> |x[n]| == channels
  }

  /** `taps` consecutive values of channel c. */
  function Window(x: seq<Frame>, c: nat, base: nat, taps: nat): (w: seq<real>)
    requires base + taps <= |x|
    requires forall n :: base <= n < base + taps ==> c < |x[n]|
    ensures |w| == taps
  {
    seq(taps, i requires 0 <= i < taps => x[base + i][c])
  }

  function Frac(p: real): (f: real)
    ensures 0.0 <= f < 1.0
  {
    p - p.Floor as real
  }

  lemma ProductBelow(f: real, n: real)
    requires 0.0 <= f < 1.0 && n > 0.0
    ensures 0.0 <= f * n < n
  {
  }

  lemma FloorBelow(x: real, n: nat)
    requires 0.0 <= x < n as real
    ensures 0 <= x.Floor < n && 0 <= (x + 0.5).Floor <= n
  {
  }

  lemma FilterIndices(f: real, n: nat)
    requires 0.0 <= f < 1.0 && n > 0
    ensures 0 <= (f * n as real).Floor < n
    ensures 0 <= (f * n as real + 0.5).Floor <= n
  {
    ProductBelow(f, n as real);
    FloorBelow(f * n as real, n);
  }

  /** The position between two samples, in filters. */
  function Phase(p: real, numFilters: nat): real {
    Frac(p) * numFilters as real
  }

  /** The filter at or below the phase. */
  function LowerFilter(p: real, numFilters: nat): (fi: nat)
    requires numFilters > 0
    ensures fi < numFilters
  {
    FilterIndices(Frac(p), numFilters);
    Phase(p, numFilters).Floor
  }

  /** The filter nearest to the phase; `numFilters` is the next sample's. */
  function NearestFilter(p: real, numFilters: nat): (fi: nat)
    requires numFilters > 0
    ensures fi <= numFilters
  {
    FilterIndices(Frac(p), numFilters);
    (Phase(p, numFilters) + 0.5).Floor
  }

  /** The taps of the output at position p are among the signal's samples. */
  predicate TapsHeld(half: nat, length: nat, p: real) {
    half <= p.Floor + 1 && p.Floor + half < length
  }

  /** What a window of samples gives at position p. */
  function Subsample(bank: Bank, w: seq<real>, p: real): real
    requires bank.Valid() && |w| == bank.numTaps
  {
    if bank.interpolate then
      var fi := LowerFilter(p, bank.numFilters);
      var t := Phase(p, bank.numFilters) - fi as real;
      Dot(bank.filters[fi], w) * (1.0 - t) + Dot(bank.filters[fi + 1], w) * t
    else
      var fi := NearestFilter(p, bank.numFilters);
      if !bank.lowpass && fi == 0 then w[bank.Half() - 1]
      else if !bank.lowpass && fi == bank.numFilters then w[bank.Half()]
      else Dot(bank.filters[fi], w)
  }

  /** The taps of channel c around position p. */
  function Around(bank: Bank, x: seq<Frame>, p: real, c: nat): (w: seq<real>)
    requires bank.Valid() && Uniform(x, bank.numChannels) && c < bank.numChannels
    requires TapsHeld(bank.Half(), |x|, p)
    ensures |w| == bank.numTaps
  {
    Window(x, c, p.Floor + 1 - bank.Half(), bank.numTaps)
  }

  /** Channel c of the output at position p: the subsample of the taps around it. */
  function Value(bank: Bank, x: seq<Frame>, p: real, c: nat): real
    requires bank.Valid() && Uniform(x, bank.numChannels) && c < bank.numChannels
    requires TapsHeld(bank.Half(), |x|, p)
  {
    Subsample(bank, Around(bank, x, p, c), p)
  }

  function Output(bank: Bank, x: seq<Frame>, p: real): (f: Frame)
    requires bank.Valid() && Uniform(x, bank.numChannels) && TapsHeld(bank.Half(), |x|, p)
    ensures |f| == bank.numChannels
  {
    seq(bank.numChannels, c requires 0 <= c < bank.numChannels => Value(bank, x, p, c))
  }

  lemma WindowIsCausal(x: seq<Frame>, y: seq<Frame>, c: nat, base: nat, taps: nat)
    requires base + taps <= |x| && x <= y
    requires forall n :: base <= n < base + taps ==> c < |x[n]|
    ensures forall n :: base <= n < base + taps ==> c < |y[n]|
    ensures Window(y, c, base, taps) == Window(x, c, base, taps)
  {
  }

  /** Later samples never change an output. */
  lemma OutputIsCausal(bank: Bank, x: seq<Frame>, y: seq<Frame>, p: real)
    requires bank.Valid() && x <= y && Uniform(y, bank.numChannels) && TapsHeld(bank.Half(), |x|, p)
    ensures Uniform(x, bank.numChannels) && TapsHeld(bank.Half(), |y|, p)
    ensures Output(bank, y, p) == Output(bank, x, p)
  {
    hide Subsample;
    assert forall n :: 0 <= n < |x| ==> y[n] == x[n];
    forall c | 0 <= c < bank.numChannels ensures Value(bank, y, p, c) == Value(bank, x, p, c) {
      WindowIsCausal(x, y, c, p.Floor + 1 - bank.Half(), bank.numTaps);
    }
  }
}
