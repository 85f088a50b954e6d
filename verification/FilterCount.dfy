/** The filter count and flags resampleFixedRatioInit chooses, and what they achieve. */
module FilterCount {
  import opened Resampler
  import opened ResampleContext
  import opened FixedRatio
  import opened Wrappers

  const MAX_FILTERS := 1024

  /** The conversion ratio, outputs per input. */
  function Ratio(src: nat, dst: nat): (r: real)
    requires src > 0
    ensures dst > 0 ==> r > 0.0
  {
    dst as real / src as real
  }

  /** Output n of every run, at half + n/ratio, falls exactly on one of `filters` filters. */
  ghost predicate OnSomeFilter(half: nat, src: nat, dst: nat, filters: nat, n: nat)
    requires src > 0 && dst > 0
  {
    OnSomeGrid(half as real + Steps(n, Ratio(src, dst)), filters)
  }

  ghost predicate OnSomeGrid(p: real, filters: nat) {
    exists m: int :: OnGrid(p, filters, m)
  }

  ghost predicate AlwaysOnFilter(half: nat, src: nat, dst: nat, filters: nat)
    requires src > 0 && dst > 0
  {
    forall n: nat :: OnSomeFilter(half, src, dst, filters, n)
  }

  // ---------- positions as fractions ----------

  lemma RatioPositive(src: nat, dst: nat)
    requires src > 0 && dst > 0
    ensures Ratio(src, dst) > 0.0
  {
  }

  lemma ScaledPosition(half: nat, src: nat, dst: nat, filters: nat, n: nat)
    requires src > 0 && dst > 0
    ensures (half as real + Steps(n, Ratio(src, dst))) * filters as real * dst as real
         == (half * filters * dst + n * src * filters) as real
  {
    var s, d, f, h, k := src as real, dst as real, filters as real, half as real, n as real;
    var q := Steps(n, Ratio(src, dst));
    assert q * d == k * s by {
      var r := d / s;
      assert q * r == k && r * s == d;
      assert q * d == (q * r) * s;
    }
    assert (h + q) * f * d == h * f * d + (q * d) * f by {
      Distributes(h, q, f);
      Distributes(h * f, q * f, d);
      assert q * f * d == (q * d) * f;
    }
    RealProduct(half, filters);
    RealProduct(half * filters, dst);
    RealProduct(n, src);
    RealProduct(n * src, filters);
  }

  lemma CancelReal(x: real, y: real, d: real)
    requires d > 0.0
    ensures x * d == y * d <==> x == y
  {
  }

  lemma GridToDivides(p: real, filters: nat, dst: nat, total: int)
    requires dst > 0 && p * filters as real * dst as real == total as real
    ensures OnSomeGrid(p, filters) <==> Divides(dst, total)
  {
    var x, d := p * filters as real, dst as real;
    if OnSomeGrid(p, filters) {
      var m: int :| OnGrid(p, filters, m);
      RealProduct(m, dst);
      DividesIntro(dst, total, m);
    }
    if Divides(dst, total) {
      var m :| Times(m, dst) == total;
      RealProduct(m, dst);
      CancelReal(x, m as real, d);
      assert OnGrid(p, filters, m);
    }
  }

  /** On a filter, in whole numbers: dst divides n * src * filters. */
  lemma OnFilterIsDivisibility(half: nat, src: nat, dst: nat, filters: nat, n: nat)
    requires src > 0 && dst > 0
    ensures OnSomeFilter(half, src, dst, filters, n) <==> Divides(dst, n * src * filters)
  {
    hide OnSomeGrid, Divides, Steps, Ratio;
    RatioPositive(src, dst);
    ScaledPosition(half, src, dst, filters, n);
    var a, b := half * filters, n * src * filters;
    GridToDivides(half as real + Steps(n, Ratio(src, dst)), filters, dst, a * dst + b);
    DividesShift(dst, a, b);
  }

  lemma DividesShift(d: int, a: int, b: int)
    ensures Divides(d, a * d + b) <==> Divides(d, b)
  {
    if Divides(d, a * d + b) {
      var k :| Times(k, d) == a * d + b;
      Factor(k, a, d);
      DividesIntro(d, b, k - a);
    }
    if Divides(d, b) {
      var k :| Times(k, d) == b;
      Factor(k, -a, d);
      DividesIntro(d, a * d + b, k + a);
    }
  }

  lemma Factor(m: int, h: int, d: int)
    ensures (m - h) * d == m * d - h * d
  {
  }

  /** Every output of every run falls exactly on a filter if and only if the filter count is a
      multiple of dst/gcd; so dst/gcd is the least such count. */
  lemma {:induction false} LeastFilterCount(half: nat, src: nat, dst: nat, filters: nat)
    requires src > 0 && dst > 0 && filters > 0
    ensures AlwaysOnFilter(half, src, dst, filters) <==> Divides(dst / Gcd(src, dst), filters)
    ensures AlwaysOnFilter(half, src, dst, filters) ==> filters >= dst / Gcd(src, dst)
    ensures AlwaysOnFilter(half, src, dst, dst / Gcd(src, dst))
  {
    ReducedRates(src, dst);
    var least := dst / Gcd(src, dst);
    if AlwaysOnFilter(half, src, dst, filters) {
      assert OnSomeFilter(half, src, dst, filters, 1);
      OnFilterIsDivisibility(half, src, dst, filters, 1);
      assert 1 * src * filters == src * filters;
      FilterCountDivides(src, dst, filters);
      DivisorIsSmaller(least, filters);
    }
    if Divides(least, filters) {
      MultiplesWork(half, src, dst, filters);
    }
    DividesIntro(least, least, 1);
    MultiplesWork(half, src, dst, least);
  }

  lemma MultiplesWork(half: nat, src: nat, dst: nat, filters: nat)
    requires src > 0 && dst > 0 && Divides(dst / Gcd(src, dst), filters)
    ensures AlwaysOnFilter(half, src, dst, filters)
  {
    FilterCountDivides(src, dst, filters);
    var k :| Times(k, dst) == src * filters;
    forall n: nat ensures OnSomeFilter(half, src, dst, filters, n) {
      Regroup(n, src, filters, k, dst);
      DividesIntro(dst, n * src * filters, n * k);
      OnFilterIsDivisibility(half, src, dst, filters, n);
    }
  }

  lemma Regroup(n: int, src: int, filters: int, k: int, dst: int)
    requires k * dst == src * filters
    ensures n * src * filters == (n * k) * dst
  {
    assert n * src * filters == n * (src * filters) == n * (k * dst);
  }

  lemma DivisorIsSmaller(d: nat, n: nat)
    requires d > 0 && n > 0 && Divides(d, n)
    ensures d <= n
  {
    var k :| Times(k, d) == n;
    ProductSign(k, d);
    assert k * d >= d;
  }

  /** On a filter, rounding picks that filter and the snap changes nothing. */
  lemma RoundingPicksTheFilter(p: real, filters: nat, m: int)
    requires filters > 0 && OnGrid(p, filters, m)
    ensures Phase(p, filters) == NearestFilter(p, filters) as real
    ensures Snapped(p, filters) == p
  {
    GridPhase(p, filters, m);
    RoundsWhole(m - p.Floor * filters);
    SnapIsIdentity(p, filters, m);
  }

  // ---------- the configuration ----------

  datatype Config = Config(numTaps: nat, numFilters: nat, interpolate: bool, snap: bool, lowpass: bool, ratio: real)

  predicate PowerOfTwo(n: nat)
    decreases n
  {
    n == 1 || (n > 1 && n % 2 == 0 && PowerOfTwo(n / 2))
  }

  /** resampleInit: the limits it enforces, and when a lowpass is in effect. */
  function Init(numTaps: nat, numFilters: nat, lowpassRatio: real, interpolate: bool, snap: bool,
                ratio: real): Option<Config> {
    if numTaps % 4 != 0 || numTaps == 0 || numTaps > 1024 then None
    else if numFilters < 1 || numFilters > MAX_FILTERS then None
    else Some(Config(numTaps, numFilters, interpolate, snap, 0.0 < lowpassRatio < 1.0, ratio))
  }

  /** The lowpass corner, relative to the destination rate, when the caller leaves it to the library. */
  function AutoLowpass(numTaps: nat, ratio: real): real
    requires numTaps > 0 && ratio > 0.0
  {
    var r := 1.0 - 7.5 / numTaps as real / ratio;
    var r1 := if r < 0.8 then 0.8 else r;
    if r1 < ratio then ratio else r1
  }

  /** resampleFixedRatioInit with SUBSAMPLE_INTERPOLATE and INCLUDE_LOWPASS set and no lowpass
      frequency given, as audio_resample_init calls it. */
  function FixedRatioInit(numTaps: nat, maxFilters: nat, src: nat, dst: nat): Option<Config>
    requires src > 0 && dst > 0
  {
    RatioPositive(src, dst);
    var ratio := Ratio(src, dst);
    var factor := dst / Gcd(src, dst);
    var reduce := factor <= maxFilters;
    var filters := if reduce then factor else maxFilters;
    var snap := reduce && !PowerOfTwo(factor);
    var lowpass := if dst < src && numTaps > 0 then AutoLowpass(numTaps, ratio) else 0.0;
    Init(numTaps, filters, lowpass * ratio, !reduce, snap, ratio)
  }

  /** audio_resample_init: no resampler for equal rates, otherwise the exact filter count capped at 1024. */
  function AudioResampleInit(inputRate: nat, outputRate: nat, numTaps: nat): Option<Config>
    requires inputRate > 0 && outputRate > 0
  {
    if inputRate == outputRate then None
    else
      var exact := outputRate / Gcd(inputRate, outputRate);
      FixedRatioInit(numTaps, if exact > MAX_FILTERS then MAX_FILTERS else exact, inputRate, outputRate)
  }

  /** What the wrapper gets: with a reduced count it has exactly the least filters and every output
      is on one; otherwise 1024 interpolated filters. */
  lemma {:induction false} WrapperGetsExactFilters(inputRate: nat, outputRate: nat, numTaps: nat)
    requires inputRate > 0 && outputRate > 0 && inputRate != outputRate
    requires 4 <= numTaps <= 1024 && numTaps % 4 == 0
    ensures var exact := outputRate / Gcd(inputRate, outputRate);
            var c := AudioResampleInit(inputRate, outputRate, numTaps);
            && c.Some?
            && c.value.numFilters == (if exact <= 1024 then exact else 1024)
            && (c.value.interpolate <==> exact > 1024)
            && (c.value.snap ==> exact <= 1024)
            && (exact <= 1024 <==> AlwaysOnFilter(numTaps / 2, inputRate, outputRate, c.value.numFilters))
  {
    ReducedRates(inputRate, outputRate);
    var exact := outputRate / Gcd(inputRate, outputRate);
    LeastFilterCount(numTaps / 2, inputRate, outputRate, if exact <= 1024 then exact else 1024);
  }

  /** A lowpass is in effect exactly when the rate goes down. */
  lemma {:induction false} LowpassExactlyDown(inputRate: nat, outputRate: nat, numTaps: nat)
    requires inputRate > 0 && outputRate > 0 && AudioResampleInit(inputRate, outputRate, numTaps).Some?
    ensures AudioResampleInit(inputRate, outputRate, numTaps).value.lowpass <==> outputRate < inputRate
  {
    hide Gcd;
    RatioPositive(inputRate, outputRate);
    var r := Ratio(inputRate, outputRate);
    if outputRate < inputRate {
      SmallerRatio(inputRate, outputRate);
      CornerBelowOne(AutoLowpass(numTaps, r), r);
    }
  }

  lemma SmallerRatio(src: nat, dst: nat)
    requires 0 < dst < src
    ensures 0.0 < Ratio(src, dst) < 1.0
  {
  }

  lemma CornerBelowOne(corner: real, ratio: real)
    requires 0.0 < corner <= 1.0 && 0.0 < ratio < 1.0
    ensures 0.0 < corner * ratio < 1.0
  {
  }

  /** The step of 1/ratio is a whole number of filters, which is what snapping contexts rely on. */
  lemma {:induction false} StrideIsWhole(src: nat, dst: nat)
    requires src > 0 && dst > 0
    ensures (dst / Gcd(src, dst)) as real == (src / Gcd(src, dst)) as real * Ratio(src, dst)
  {
    ReducedRates(src, dst);
    var g := Gcd(src, dst);
    var a, b := src / g, dst / g;
    RealProduct(a, g);
    RealProduct(b, g);
    FractionReduces(b as real, a as real, g as real);
  }

  lemma FractionReduces(y: real, x: real, z: real)
    requires x > 0.0 && z > 0.0
    ensures x * ((y * z) / (x * z)) == y
  {
    var q := (y * z) / (x * z);
    assert q * (x * z) == y * z;
    assert (x * q) * z == y * z;
    CancelReal(x * q, y, z);
  }

  /** A context for a configuration of the wrapper; the filters themselves are arbitrary. */
  method CreateContext(inputRate: nat, outputRate: nat, numTaps: nat, channels: nat, filters: seq<seq<real>>)
    returns (context: Option<Context>)
    requires inputRate > 0 && outputRate > 0
    requires var c := AudioResampleInit(inputRate, outputRate, numTaps);
             c.Some? ==> BankOf(c.value, channels, filters).Valid()
    ensures context.Some? <==> AudioResampleInit(inputRate, outputRate, numTaps).Some?
    ensures context.Some? ==>
      var c := context.value;
      && c.Valid() && c.fixed && c.fixedRatio == Ratio(inputRate, outputRate) && c.Abs() == Start(c.bank)
      && c.bank == BankOf(AudioResampleInit(inputRate, outputRate, numTaps).value, channels, filters)
  {
    hide FixedRatioInit, Start, Ratio;
    var config := AudioResampleInit(inputRate, outputRate, numTaps);
    if config.None? {
      return None;
    }
    SnapsOnlyExact(inputRate, outputRate, numTaps);
    RatioPositive(inputRate, outputRate);
    StrideIsWhole(inputRate, outputRate);
    var c := config.value;
    var made := new Context(BankOf(c, channels, filters), true, c.ratio, c.snap,
                            inputRate / Gcd(inputRate, outputRate));
    context := Some(made);
  }

  function BankOf(c: Config, channels: nat, filters: seq<seq<real>>): Bank {
    Bank(channels, c.numTaps, c.numFilters, filters, c.interpolate, c.lowpass)
  }

  lemma SnapsOnlyExact(inputRate: nat, outputRate: nat, numTaps: nat)
    requires inputRate > 0 && outputRate > 0 && AudioResampleInit(inputRate, outputRate, numTaps).Some?
    ensures var c := AudioResampleInit(inputRate, outputRate, numTaps).value;
            c.ratio == Ratio(inputRate, outputRate)
            && (c.snap ==> c.numFilters == outputRate / Gcd(inputRate, outputRate))
  {
  }

  /** 44.1 kHz to 48 kHz needs 160 filters. */
  lemma StandardRates()
    ensures Gcd(44100, 48000) == 300 && 48000 / Gcd(44100, 48000) == 160
  {
    assert Gcd(44100, 48000) == Gcd(48000, 44100) == Gcd(44100, 3900);
    assert Gcd(44100, 3900) == Gcd(3900, 1200) == Gcd(1200, 300) == Gcd(300, 0);
  }
}
