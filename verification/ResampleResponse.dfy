/** What the resampled signal is, independently of how the filters are looked up: the convolution of the
    signal with the filters' kernel at the output position. A straight line comes out as the same line
    at the new rate. */
module ResampleResponse {
  import opened FilterCount
  import opened Resampler
  import opened ResampleContext
  import opened ResampleRuns
  import opened Wrappers
  import FilterInit

  // ---------- where an output is taken ----------

  /** At p when filters are interpolated, else at the filter nearest to p. */
  function Taken(bank: Bank, p: real): real
    requires bank.numFilters > 0
  {
    if bank.interpolate then p
    else p.Floor as real + NearestFilter(p, bank.numFilters) as real / bank.numFilters as real
  }

  lemma Quotient(k: int, n: nat)
    requires n > 0
    ensures (k as real / n as real) * n as real == k as real
  {
  }

  lemma Scaled(z: real, y: real, n: real)
    ensures (z - y) * (2.0 * n) == 2.0 * (z * n - y * n)
  {
  }

  lemma CancelFilters(z: real, y: real, n: real)
    requires n > 0.0 && z * n == y * n
    ensures z == y
  {
  }

  /** An output is taken no farther from its position than half the distance between two filters, and
      at the position itself when that is on a filter. */
  lemma TakenIsNear(bank: Bank, p: real)
    requires bank.numFilters > 0
    ensures -1.0 <= (Taken(bank, p) - p) * (2.0 * bank.numFilters as real) <= 1.0
    ensures bank.interpolate || OnSomeGrid(p, bank.numFilters) ==> Taken(bank, p) == p
  {
    var n := bank.numFilters;
    var k := NearestFilter(p, n);
    var z := k as real / n as real;
    Quotient(k, n);
    Scaled(z, Frac(p), n as real);
    Scaled(p, p, n as real);
    if OnSomeGrid(p, n) {
      var m: int :| OnGrid(p, n, m);
      RoundingPicksTheFilter(p, n, m);
      CancelFilters(z, Frac(p), n as real);
    }
  }

  // ---------- straight lines ----------

  /** The value at p of the line through `origin` at 0. */
  function Line(slope: real, origin: real, p: real): real {
    slope * p + origin
  }

  /** The first moment of taps lo .. hi-1 about `centre`. */
  function Moment(a: seq<real>, lo: nat, hi: nat, centre: int): real
    requires lo <= hi <= |a|
    decreases hi - lo
  {
    if lo == hi then 0.0 else a[lo] * (lo - centre) as real + Moment(a, lo + 1, hi, centre)
  }

  ghost predicate UnitGain(bank: Bank)
    requires bank.Valid()
  {
    forall f :: 0 <= f <= bank.numFilters ==> FilterInit.Sum(bank.filters[f], 0, bank.numTaps) == 1.0
  }

  /** Filter f is centred f/numFilters past the sample before the output. */
  ghost predicate Centred(bank: Bank)
    requires bank.Valid()
  {
    forall f :: 0 <= f <= bank.numFilters ==>
      Moment(bank.filters[f], 0, bank.numTaps, bank.Half() - 1) == f as real / bank.numFilters as real
  }

  /** Channel c of the samples lo .. hi-1 lies on a line. */
  ghost predicate OnLine(x: seq<Frame>, c: nat, lo: int, hi: int, slope: real, origin: real) {
    forall m :: lo <= m < hi && 0 <= m < |x| && c < |x[m]| ==> x[m][c] == Line(slope, origin, m as real)
  }

  /** One filter on a window that lies on a line, which has the value `middle` at `centre`. */
  lemma {:induction false} DotOfLine(a: seq<real>, w: seq<real>, lo: nat, hi: nat, centre: int, slope: real,
                                     middle: real)
    requires lo <= hi <= |a| == |w|
    requires forall j :: lo <= j < hi ==> w[j] == Line(slope, middle, (j - centre) as real)
    ensures DotRange(a, w, lo, hi) == slope * Moment(a, lo, hi, centre) + middle * FilterInit.Sum(a, lo, hi)
    decreases hi - lo
  {
    hide Line;
    if lo < hi {
      DotOfLine(a, w, lo + 1, hi, centre, slope, middle);
      LineTerm(a[lo], (lo - centre) as real, slope, middle, Moment(a, lo + 1, hi, centre),
               FilterInit.Sum(a, lo + 1, hi));
    }
  }

  lemma LineTerm(a: real, d: real, slope: real, middle: real, moment: real, sum: real)
    ensures a * Line(slope, middle, d) + (slope * moment + middle * sum)
         == slope * (a * d + moment) + middle * (a + sum)
  {
    assert a * (slope * d + middle) == a * (slope * d) + a * middle;
    assert a * (slope * d) == slope * (a * d);
    Distributes(a * d, moment, slope);
    Distributes(a, sum, middle);
  }

  lemma LineMoves(slope: real, origin: real, p: real, d: real)
    ensures Line(slope, origin, p + d) == slope * d + Line(slope, origin, p) == Line(slope, Line(slope, origin, p), d)
  {
  }

  /** The window of the output at p, seen from the sample before it. */
  lemma WindowOnLine(x: seq<Frame>, c: nat, base: nat, taps: nat, centre: nat, slope: real, origin: real)
    requires base + taps <= |x| && OnLine(x, c, base, base + taps, slope, origin)
    requires forall n :: base <= n < base + taps ==> c < |x[n]|
    ensures var w := Window(x, c, base, taps);
      forall j :: 0 <= j < taps ==>
        w[j] == Line(slope, Line(slope, origin, (base + centre) as real), (j - centre) as real)
  {
    hide Line;
    var w := Window(x, c, base, taps);
    forall j | 0 <= j < taps
      ensures w[j] == Line(slope, Line(slope, origin, (base + centre) as real), (j - centre) as real)
    {
      LineMoves(slope, origin, (base + centre) as real, (j - centre) as real);
      assert (base + centre) as real + (j - centre) as real == (base + j) as real;
    }
  }

  /** What each filter gives on such a window: the line's value at its own centre. */
  lemma FilterOnLine(bank: Bank, w: seq<real>, f: nat, slope: real, origin: real, at: int)
    requires bank.Valid() && |w| == bank.numTaps && f <= bank.numFilters
    requires UnitGain(bank) && (slope == 0.0 || Centred(bank))
    requires forall j :: 0 <= j < |w| ==>
      w[j] == Line(slope, Line(slope, origin, at as real), (j - (bank.Half() - 1)) as real)
    ensures Dot(bank.filters[f], w) == Line(slope, origin, at as real + f as real / bank.numFilters as real)
  {
    hide Line, Moment, FilterInit.Sum, DotRange;
    var a, centre := bank.filters[f], bank.Half() - 1;
    var z := f as real / bank.numFilters as real;
    DotOfLine(a, w, 0, bank.numTaps, centre, slope, Line(slope, origin, at as real));
    UseMoments(slope, Line(slope, origin, at as real), Moment(a, 0, bank.numTaps, centre), z);
    LineMoves(slope, origin, at as real, z);
  }

  lemma UseMoments(slope: real, middle: real, moment: real, z: real)
    requires slope == 0.0 || moment == z
    ensures slope * moment + middle * 1.0 == slope * z + middle
  {
  }

  lemma BlendedLine(slope: real, v0: real, n: real, f: real, t: real, y: real)
    requires n > 0.0 && y * n == f + t
    ensures (slope * (f / n) + v0) * (1.0 - t) + (slope * ((f + 1.0) / n) + v0) * t == slope * y + v0
  {
    var a, b := f / n, (f + 1.0) / n;
    assert b == a + 1.0 / n;
    assert y == a + t / n;
    assert t / n == t * (1.0 / n);
    var s, u := slope * a, slope * (1.0 / n);
    assert slope * b == s + u;
    assert slope * y == s + u * t;
    assert (s + v0) * (1.0 - t) + (s + u + v0) * t == s + v0 + u * t;
  }

  lemma PhaseIs(p: real, n: nat)
    ensures Phase(p, n) == Frac(p) * n as real
  {
  }

  /** Two neighbours blended by the phase give the line's value at the position itself. */
  lemma BlendOnLine(p: real, n: nat, slope: real, origin: real)
    requires n > 0
    ensures var fi := LowerFilter(p, n);
      var t := Phase(p, n) - fi as real;
      Line(slope, origin, p.Floor as real + fi as real / n as real) * (1.0 - t)
      + Line(slope, origin, p.Floor as real + (fi + 1) as real / n as real) * t
      == Line(slope, origin, p)
  {
    hide Line, Phase;
    assert Frac(p) * n as real == Phase(p, n) by { PhaseIs(p, n); }
    var fi := LowerFilter(p, n);
    var t := Phase(p, n) - fi as real;
    var v0 := Line(slope, origin, p.Floor as real);
    LineMoves(slope, origin, p.Floor as real, fi as real / n as real);
    LineMoves(slope, origin, p.Floor as real, (fi + 1) as real / n as real);
    LineMoves(slope, origin, p.Floor as real, Frac(p));
    BlendedLine(slope, v0, n as real, fi as real, t, Frac(p));
  }

  lemma Ends(k: nat, n: nat)
    requires n > 0
    ensures k == 0 ==> k as real / n as real == 0.0
    ensures k == n ==> k as real / n as real == 1.0
  {
  }

  /** A window on a line gives the line's value where the output is taken. */
  lemma SubsampleOnLine(bank: Bank, w: seq<real>, p: real, slope: real, origin: real)
    requires bank.Valid() && |w| == bank.numTaps
    requires UnitGain(bank) && (slope == 0.0 || Centred(bank))
    requires forall j :: 0 <= j < |w| ==>
      w[j] == Line(slope, Line(slope, origin, p.Floor as real), (j - (bank.Half() - 1)) as real)
    ensures Subsample(bank, w, p) == Line(slope, origin, Taken(bank, p))
  {
    hide Line, Dot, UnitGain, Centred, LowerFilter, NearestFilter, Phase;
    var n := bank.numFilters;
    if bank.interpolate {
      var fi := LowerFilter(p, n);
      FilterOnLine(bank, w, fi, slope, origin, p.Floor);
      FilterOnLine(bank, w, fi + 1, slope, origin, p.Floor);
      BlendOnLine(p, n, slope, origin);
    } else {
      var fi := NearestFilter(p, n);
      FilterOnLine(bank, w, fi, slope, origin, p.Floor);
      Ends(fi, n);
      LineMoves(slope, origin, p.Floor as real, 1.0);
      LineMoves(slope, origin, p.Floor as real, 0.0);
      assert w[bank.Half()] == Line(slope, Line(slope, origin, p.Floor as real), 1.0);
      assert w[bank.Half() - 1] == Line(slope, Line(slope, origin, p.Floor as real), 0.0);
    }
  }

  /** The output at p of a signal that lies on a line around it. */
  lemma ValueOnLine(bank: Bank, x: seq<Frame>, p: real, c: nat, slope: real, origin: real)
    requires bank.Valid() && Uniform(x, bank.numChannels) && c < bank.numChannels
    requires TapsHeld(bank.Half(), |x|, p)
    requires UnitGain(bank) && (slope == 0.0 || Centred(bank))
    requires OnLine(x, c, p.Floor + 1 - bank.Half(), p.Floor + 1 + bank.Half(), slope, origin)
    ensures Value(bank, x, p, c) == Line(slope, origin, Taken(bank, p))
  {
    hide Subsample, Line, UnitGain, Centred, Taken;
    var base := p.Floor + 1 - bank.Half();
    WindowOnLine(x, c, base, bank.numTaps, bank.Half() - 1, slope, origin);
    SubsampleOnLine(bank, Window(x, c, base, bank.numTaps), p, slope, origin);
  }

  /** The n-th output of any run whose input lies on a line, once the initial silence is past: the line
      at the output's place, numTaps samples of silence taken off. Exactly there when filters are
      interpolated or the position is on a filter, else at most half a filter away. */
  lemma {:induction false} LinesStayStraight(bank: Bank, ratio: real, states: seq<Conv>, chunks: seq<Chunk>, n: nat,
                                             c: nat, slope: real, origin: real)
    requires bank.Valid() && ratio > 0.0 && RunOf(bank, ratio, states, chunks) && states[0] == Start(bank)
    requires n < |Outputs(chunks)| && c < bank.numChannels
    requires UnitGain(bank) && (slope == 0.0 || Centred(bank))
    requires OnLine(states[|chunks|].x, c, bank.numTaps, |states[|chunks|].x|, slope, origin)
    requires n as real / ratio >= (bank.numTaps - 1) as real
    ensures var p := bank.Half() as real + n as real / ratio;
      && |Outputs(chunks)[n]| == bank.numChannels && Outputs(chunks)[n][c] == Line(slope, origin, Taken(bank, p))
      && -1.0 <= (Taken(bank, p) - p) * (2.0 * bank.numFilters as real) <= 1.0
      && (bank.interpolate || OnSomeGrid(p, bank.numFilters) ==> Outputs(chunks)[n][c] == Line(slope, origin, p))
  {
    hide Value, Line, Taken, UnitGain, Centred, OnSomeGrid, Call, Outputs, Start;
    var x, p := states[|chunks|].x, bank.Half() as real + n as real / ratio;
    EveryOutputIsASample(bank, ratio, states, chunks, n);
    TakenIsNear(bank, p);
    ValueOnLine(bank, x, p, c, slope, origin);
  }

  /** With the bank the wrapper gets for two rates, that is exactly on the line for every output. */
  lemma {:induction false} WrapperKeepsLines(config: Config, src: nat, dst: nat, channels: nat,
                                             filters: seq<seq<real>>, states: seq<Conv>, chunks: seq<Chunk>,
                                             n: nat, c: nat, slope: real, origin: real)
    requires src > 0 && dst > 0 && src != dst && AudioResampleInit(src, dst, config.numTaps) == Some(config)
    requires var bank := BankOf(config, channels, filters);
      && bank.Valid() && UnitGain(bank) && Centred(bank)
      && RunOf(bank, Ratio(src, dst), states, chunks) && states[0] == Start(bank)
      && OnLine(states[|chunks|].x, c, bank.numTaps, |states[|chunks|].x|, slope, origin)
    requires n < |Outputs(chunks)| && c < channels && n as real / Ratio(src, dst) >= (config.numTaps - 1) as real
    ensures |Outputs(chunks)[n]| == channels
    ensures Outputs(chunks)[n][c] == Line(slope, origin, (config.numTaps / 2) as real + n as real / Ratio(src, dst))
  {
    hide Line, UnitGain, Centred, OnLine, Call, Ratio, AudioResampleInit, OnSomeGrid, Outputs, Start, Taken;
    var bank := BankOf(config, channels, filters);
    WrapperGetsExactFilters(src, dst, config.numTaps);
    LinesStayStraight(bank, Ratio(src, dst), states, chunks, n, c, slope, origin);
    if !config.interpolate {
      assert OnSomeFilter(bank.Half(), src, dst, bank.numFilters, n);
    }
  }

  /** The shortest such bank: filter f weighs the samples before and after by nearness. */
  function Linear(numFilters: nat, interpolate: bool, lowpass: bool): Bank
    requires 1 <= numFilters <= 1024
  {
    Bank(2, 4, numFilters,
         seq(numFilters + 1, f requires 0 <= f <= numFilters =>
           [0.0, 1.0 - f as real / numFilters as real, f as real / numFilters as real, 0.0]),
         interpolate, lowpass)
  }

  lemma LinearIsCentred(numFilters: nat, interpolate: bool, lowpass: bool)
    requires 1 <= numFilters <= 1024
    ensures var bank := Linear(numFilters, interpolate, lowpass);
      bank.Valid() && UnitGain(bank) && Centred(bank)
  {
    var bank := Linear(numFilters, interpolate, lowpass);
    forall f | 0 <= f <= numFilters
      ensures FilterInit.Sum(bank.filters[f], 0, 4) == 1.0
      ensures Moment(bank.filters[f], 0, 4, 1) == f as real / numFilters as real
    {
      FourTaps(bank.filters[f], f as real / numFilters as real);
    }
  }

  lemma FourTaps(a: seq<real>, z: real)
    requires a == [0.0, 1.0 - z, z, 0.0]
    ensures FilterInit.Sum(a, 0, 4) == 1.0 && Moment(a, 0, 4, 1) == z
  {
    assert FilterInit.Sum(a, 2, 4) == z && Moment(a, 2, 4, 1) == z;
  }

  // ---------- any signal ----------

  /** The taps of a filter are the kernel at their distances from the point z past the sample before the
      output. */
  ghost predicate IsKernelAt(a: seq<real>, half: nat, h: real -> real, z: real) {
    forall j :: 0 <= j < |a| ==> a[j] == h((half - 1 - j) as real + z)
  }

  /** Filter f holds the kernel f/numFilters past a sample. */
  ghost predicate HasKernel(bank: Bank, h: real -> real)
    requires bank.Valid()
  {
    forall f :: 0 <= f <= bank.numFilters ==>
      IsKernelAt(bank.filters[f], bank.Half(), h, f as real / bank.numFilters as real)
  }

  /** The convolution of samples lo .. hi-1 of channel c with the kernel, at q. */
  function Convolved(x: seq<Frame>, c: nat, h: real -> real, q: real, lo: nat, hi: nat): real
    requires lo <= hi <= |x| && forall m :: lo <= m < hi ==> c < |x[m]|
    decreases hi - lo
  {
    if lo == hi then 0.0 else h(q - lo as real) * x[lo][c] + Convolved(x, c, h, q, lo + 1, hi)
  }

  /** Over the taps of the output at p. */
  function ConvolvedAround(bank: Bank, x: seq<Frame>, p: real, c: nat, h: real -> real, q: real): real
    requires bank.Valid() && Uniform(x, bank.numChannels) && c < bank.numChannels
    requires TapsHeld(bank.Half(), |x|, p)
  {
    Convolved(x, c, h, q, p.Floor + 1 - bank.Half(), p.Floor + 1 + bank.Half())
  }

  lemma {:induction false} DotIsConvolution(a: seq<real>, x: seq<Frame>, c: nat, base: nat, h: real -> real, q: real,
                                            lo: nat)
    requires lo <= |a| && base + |a| <= |x|
    requires forall m :: base <= m < base + |a| ==> c < |x[m]|
    requires forall j :: 0 <= j < |a| ==> a[j] == h(q - (base + j) as real)
    ensures DotRange(a, Window(x, c, base, |a|), lo, |a|) == Convolved(x, c, h, q, base + lo, base + |a|)
    decreases |a| - lo
  {
    if lo < |a| {
      DotIsConvolution(a, x, c, base, h, q, lo + 1);
    }
  }

  /** One filter on the window around p: the convolution at that filter's place. */
  lemma FilterConvolves(bank: Bank, x: seq<Frame>, p: real, c: nat, h: real -> real, a: seq<real>, z: real)
    requires bank.Valid() && Uniform(x, bank.numChannels) && c < bank.numChannels
    requires TapsHeld(bank.Half(), |x|, p) && |a| == bank.numTaps && IsKernelAt(a, bank.Half(), h, z)
    ensures Dot(a, Around(bank, x, p, c))
         == ConvolvedAround(bank, x, p, c, h, p.Floor as real + z)
  {
    hide DotRange, Convolved;
    var at, half := p.Floor, bank.Half();
    var base := at + 1 - half;
    forall j | 0 <= j < |a| ensures a[j] == h(at as real + z - (base + j) as real) {
      assert at as real + z - (base + j) as real == (half - 1 - j) as real + z;
    }
    DotIsConvolution(a, x, c, base, h, at as real + z, 0);
  }

  /** An output on a filter is the convolution at its position, or, when no lowpass is in effect and the
      position is a sample's, that sample. */
  lemma {:induction false} ValueIsConvolution(bank: Bank, x: seq<Frame>, p: real, c: nat, h: real -> real)
    requires bank.Valid() && Uniform(x, bank.numChannels) && c < bank.numChannels
    requires TapsHeld(bank.Half(), |x|, p) && HasKernel(bank, h)
    requires !bank.interpolate && OnSomeGrid(p, bank.numFilters)
    ensures Value(bank, x, p, c) == if !bank.lowpass && p == p.Floor as real then x[p.Floor][c]
                                    else ConvolvedAround(bank, x, p, c, h, p)
  {
    hide HasKernel, IsKernelAt, Dot, NearestFilter, ConvolvedAround, OnSomeGrid;
    var fi := NearestFilter(p, bank.numFilters);
    var z := fi as real / bank.numFilters as real;
    TakenIsNear(bank, p);
    KernelOf(bank, h, fi);
    FilterConvolves(bank, x, p, c, h, bank.filters[fi], z);
    Ends(fi, bank.numFilters);
    Between(fi, bank.numFilters);
    assert p == p.Floor as real + z;
  }

  lemma KernelOf(bank: Bank, h: real -> real, f: nat)
    requires bank.Valid() && HasKernel(bank, h) && f <= bank.numFilters
    ensures IsKernelAt(bank.filters[f], bank.Half(), h, f as real / bank.numFilters as real)
  {
  }

  lemma Between(k: nat, n: nat)
    requires n > 0 && k <= n
    ensures 0 < k < n <==> 0.0 < k as real / n as real < 1.0
  {
    Quotient(k, n);
  }

  /** t of the way from a to b. */
  function Mix(a: real, b: real, t: real): real {
    a * (1.0 - t) + b * t
  }

  lemma SubsampleMixes(bank: Bank, w: seq<real>, p: real)
    requires bank.Valid() && |w| == bank.numTaps && bank.interpolate
    ensures var phase := Frac(p) * bank.numFilters as real;
      var fi := phase.Floor;
      && 0 <= fi < bank.numFilters
      && Subsample(bank, w, p) == Mix(Dot(bank.filters[fi], w), Dot(bank.filters[fi + 1], w), phase - fi as real)
  {
    hide Dot, Frac;
    assert LowerFilter(p, bank.numFilters) == (Frac(p) * bank.numFilters as real).Floor;
  }

  lemma MixConvolves(bank: Bank, x: seq<Frame>, p: real, c: nat, h: real -> real, fi: nat, t: real)
    requires bank.Valid() && Uniform(x, bank.numChannels) && c < bank.numChannels
    requires TapsHeld(bank.Half(), |x|, p) && HasKernel(bank, h) && fi < bank.numFilters
    ensures var w, n := Around(bank, x, p, c), bank.numFilters as real;
      Mix(Dot(bank.filters[fi], w), Dot(bank.filters[fi + 1], w), t)
        == Mix(ConvolvedAround(bank, x, p, c, h, p.Floor as real + fi as real / n),
               ConvolvedAround(bank, x, p, c, h, p.Floor as real + (fi + 1) as real / n), t)
  {
    hide HasKernel, IsKernelAt, Dot, ConvolvedAround, Mix, Around, Value, Subsample;
    KernelOf(bank, h, fi);
    KernelOf(bank, h, fi + 1);
    FilterConvolves(bank, x, p, c, h, bank.filters[fi], fi as real / bank.numFilters as real);
    FilterConvolves(bank, x, p, c, h, bank.filters[fi + 1], (fi + 1) as real / bank.numFilters as real);
  }

  /** With interpolation an output lies between the convolutions at the two filters around it, as far
      along as its position does between them. */
  lemma {:induction false} ValueIsBlend(bank: Bank, x: seq<Frame>, p: real, c: nat, h: real -> real)
    requires bank.Valid() && Uniform(x, bank.numChannels) && c < bank.numChannels
    requires TapsHeld(bank.Half(), |x|, p) && HasKernel(bank, h) && bank.interpolate
    ensures var n, phase := bank.numFilters as real, Frac(p) * bank.numFilters as real;
      Value(bank, x, p, c)
        == Mix(ConvolvedAround(bank, x, p, c, h, p.Floor as real + phase.Floor as real / n),
               ConvolvedAround(bank, x, p, c, h, p.Floor as real + (phase.Floor + 1) as real / n),
               phase - phase.Floor as real)
  {
    hide HasKernel, Dot, ConvolvedAround, Frac, Mix, Subsample, Around;
    var phase := Frac(p) * bank.numFilters as real;
    SubsampleMixes(bank, Around(bank, x, p, c), p);
    MixConvolves(bank, x, p, c, h, phase.Floor, phase - phase.Floor as real);
  }

  /** The n-th output of any run that falls on a filter, as all do with a reduced ratio: the convolution
      of the signal with the kernel at numTaps/2 + n/ratio, or the sample there when no lowpass is in
      effect. */
  lemma {:induction false} OutputsAreConvolutions(bank: Bank, ratio: real, states: seq<Conv>, chunks: seq<Chunk>,
                                                  n: nat, c: nat, h: real -> real)
    requires bank.Valid() && ratio > 0.0 && RunOf(bank, ratio, states, chunks) && states[0] == Start(bank)
    requires n < |Outputs(chunks)| && c < bank.numChannels && HasKernel(bank, h) && !bank.interpolate
    requires OnSomeGrid(bank.Half() as real + n as real / ratio, bank.numFilters)
    ensures var x, p := states[|chunks|].x, bank.Half() as real + n as real / ratio;
      && Uniform(x, bank.numChannels) && TapsHeld(bank.Half(), |x|, p) && |Outputs(chunks)[n]| == bank.numChannels
      && Outputs(chunks)[n][c] == if !bank.lowpass && p == p.Floor as real then x[p.Floor][c]
                                  else ConvolvedAround(bank, x, p, c, h, p)
  {
    hide Value, HasKernel, OnSomeGrid, Call, ConvolvedAround, Outputs, Start;
    var x, p := states[|chunks|].x, bank.Half() as real + n as real / ratio;
    EveryOutputIsASample(bank, ratio, states, chunks, n);
    ValueIsConvolution(bank, x, p, c, h);
  }
}
