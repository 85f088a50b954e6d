/** The resampler context: buffers that slide, an input index and an output offset, and the process
    call that consumes input and emits output until one of the two runs out. */
module ResampleContext {
  import opened Resampler

  /** What the context stands for: the whole signal so far (the initial silence included) and the
      absolute position of the next output. */
  datatype Conv = Conv(x: seq<Frame>, p: real)

  /** k output steps. */
  function Steps(k: nat, ratio: real): real
    requires ratio > 0.0
  {
    k as real / ratio
  }

  lemma StepsGrow(k: nat, ratio: real)
    requires ratio > 0.0
    ensures Steps(k, ratio) < Steps(k + 1, ratio)
    ensures Steps(k + 1, ratio) == Steps(k, ratio) + Steps(1, ratio)
    ensures Steps(0, ratio) == 0.0
  {
  }

  lemma StepIsReciprocal(ratio: real)
    requires ratio > 0.0
    ensures Steps(1, ratio) == 1.0 / ratio > 0.0
  {
  }

  /** The newest sample the next output could need has been read, and no newer one than that. */
  predicate Ready(half: nat, s: Conv) {
    |s.x| >= 2 * half && s.p >= (|s.x| - half - 1) as real
  }

  predicate Starving(half: nat, s: Conv) {
    s.p >= (|s.x| - half) as real
  }

  /** One process call: `input` offered, `room` output frames available, `out` produced. */
  ghost predicate Call(bank: Bank, s: Conv, input: seq<Frame>, room: nat, ratio: real, out: seq<Frame>, t: Conv)
    requires bank.Valid() && ratio > 0.0
  {
    && |s.x| <= |t.x| <= |s.x| + |input|
    && t.x == s.x + input[..|t.x| - |s.x|]
    && Uniform(t.x, bank.numChannels)
    && Ready(bank.Half(), t)
    && |out| <= room
    && t.p == s.p + Steps(|out|, ratio)
    && Produced(bank, t.x, s.p, ratio, out)
    && (|out| < room ==> t.x == s.x + input && Starving(bank.Half(), t))
    && (|out| == room > 0 ==> s.p + Steps(room - 1, ratio) >= (|t.x| - bank.Half() - 1) as real)
    && (room == 0 ==> t.x == s.x)
  }

  /** The outputs so far are the specified ones. */
  ghost predicate Produced(bank: Bank, x: seq<Frame>, p: real, ratio: real, out: seq<Frame>)
    requires ratio > 0.0
  {
    bank.Valid() && Uniform(x, bank.numChannels) &&
    forall k :: 0 <= k < |out| ==>
      && TapsHeld(bank.Half(), |x|, p + Steps(k, ratio))
      && out[k] == Output(bank, x, p + Steps(k, ratio))
  }

  lemma ProducedLater(bank: Bank, x: seq<Frame>, y: seq<Frame>, p: real, ratio: real, out: seq<Frame>)
    requires ratio > 0.0 && Produced(bank, x, p, ratio, out) && x <= y && Uniform(y, bank.numChannels)
    ensures Produced(bank, y, p, ratio, out)
  {
    hide Output;
    forall k | 0 <= k < |out|
      ensures TapsHeld(bank.Half(), |y|, p + Steps(k, ratio)) && out[k] == Output(bank, y, p + Steps(k, ratio))
    {
      OutputIsCausal(bank, x, y, p + Steps(k, ratio));
    }
  }

  lemma ProducedNext(bank: Bank, x: seq<Frame>, p: real, ratio: real, out: seq<Frame>, f: Frame)
    requires ratio > 0.0 && Produced(bank, x, p, ratio, out)
    requires TapsHeld(bank.Half(), |x|, p + Steps(|out|, ratio)) && f == Output(bank, x, p + Steps(|out|, ratio))
    ensures Produced(bank, x, p, ratio, out + [f])
  {
    hide Output;
  }

  lemma ProducedNone(bank: Bank, x: seq<Frame>, p: real, ratio: real)
    requires ratio > 0.0 && bank.Valid() && Uniform(x, bank.numChannels)
    ensures Produced(bank, x, p, ratio, [])
  {
  }

  // ---------- positions ----------

  lemma FloorShifts(o: real, n: int)
    ensures (o + n as real).Floor == o.Floor + n
    ensures Frac(o + n as real) == Frac(o)
  {
  }

  lemma PhaseShifts(o: real, n: int, numFilters: nat)
    requires numFilters > 0
    ensures Phase(o + n as real, numFilters) == Phase(o, numFilters)
    ensures LowerFilter(o + n as real, numFilters) == LowerFilter(o, numFilters)
    ensures NearestFilter(o + n as real, numFilters) == NearestFilter(o, numFilters)
  {
    hide Frac;
    FloorShifts(o, n);
  }

  lemma SubsampleShifts(bank: Bank, w: seq<real>, o: real, n: int)
    requires bank.Valid() && |w| == bank.numTaps
    ensures Subsample(bank, w, o + n as real) == Subsample(bank, w, o)
  {
    hide Dot, Phase;
    PhaseShifts(o, n, bank.numFilters);
  }

  lemma DivisionAtEnds(fi: nat, n: nat)
    requires fi <= n && n > 0
    ensures fi % n == 0 <==> fi == 0 || fi == n
    ensures fi == n ==> fi / n == 1
    ensures fi < n ==> fi / n == 0
  {
  }

  /** The position is `m` filters: its phase falls exactly on a filter. */
  ghost predicate OnGrid(o: real, numFilters: nat, m: int) {
    o * numFilters as real == m as real
  }

  /** The snap of the offset at the end of a process call. */
  function Snapped(o: real, numFilters: nat): real
    requires numFilters > 0
  {
    o.Floor as real + (Frac(o) * numFilters as real + 0.5).Floor as real / numFilters as real
  }

  lemma {:induction false} RealProduct(a: int, b: nat)
    ensures a as real * b as real == (a * b) as real
  {
    if b > 0 {
      RealProduct(a, b - 1);
      assert a * b == a * (b - 1) + a;
    }
  }

  lemma Distributes(a: real, b: real, f: real)
    ensures (a + b) * f == a * f + b * f
    ensures (a - b) * f == a * f - b * f
  {
  }

  /** On the grid the phase is a whole number of filters. */
  lemma GridPhase(o: real, numFilters: nat, m: int)
    requires numFilters > 0 && OnGrid(o, numFilters, m)
    ensures Phase(o, numFilters) == (m - o.Floor * numFilters) as real
  {
    Distributes(o, o.Floor as real, numFilters as real);
    RealProduct(o.Floor, numFilters);
  }

  lemma RoundsWhole(n: int)
    ensures (n as real + 0.5).Floor == n && (n as real).Floor == n
  {
  }

  lemma DivideBack(x: real, f: real, y: real)
    requires f > 0.0 && x * f == y
    ensures x == y / f
  {
  }

  /** On the grid the snap changes nothing. */
  lemma SnapIsIdentity(o: real, numFilters: nat, m: int)
    requires numFilters > 0 && OnGrid(o, numFilters, m)
    ensures Snapped(o, numFilters) == o
  {
    var n := m - o.Floor * numFilters;
    GridPhase(o, numFilters, m);
    RoundsWhole(n);
    DivideBack(Frac(o), numFilters as real, n as real);
  }

  lemma GridMoves(o: real, numFilters: nat, m: int, d: real, n: int)
    requires OnGrid(o, numFilters, m) && d * numFilters as real == n as real
    ensures OnGrid(o + d, numFilters, m + n)
  {
    Distributes(o, d, numFilters as real);
  }

  /** A step of 1/ratio is `stride` filters when numFilters = stride * ratio. */
  lemma StepsOnGrid(k: nat, ratio: real, numFilters: nat, stride: nat)
    requires ratio > 0.0 && numFilters as real == stride as real * ratio
    ensures Steps(k, ratio) * numFilters as real == (k * stride) as real
  {
    RealProduct(k, stride);
    CancelRatio(k as real, ratio, stride as real);
  }

  lemma CancelRatio(k: real, r: real, s: real)
    requires r > 0.0
    ensures (k / r) * (s * r) == k * s
  {
    var q := k / r;
    assert q * r == k;
    assert q * (s * r) == (q * r) * s;
  }

  // ---------- how many outputs, how many inputs ----------

  /** `n` outputs from position p on lie below `bound`, and the next one does not. */
  ghost predicate CountsTo(p: real, bound: real, ratio: real, n: nat)
    requires ratio > 0.0
  {
    && (forall k :: 0 <= k < n ==> p + Steps(k, ratio) < bound)
    && p + Steps(n, ratio) >= bound
  }

  /** How many output steps fit in a gap, rounded up: the measure of the dry runs. */
  function StepsLeft(gap: real, ratio: real): nat
    requires ratio > 0.0
  {
    if gap <= 0.0 then 0 else
      assert gap * ratio > 0.0;
      (gap * ratio).Floor + 1
  }

  lemma StepShrinksGap(gap: real, ratio: real)
    requires ratio > 0.0 && gap > 0.0
    ensures StepsLeft(gap - 1.0 / ratio, ratio) < StepsLeft(gap, ratio)
  {
    var g := gap - 1.0 / ratio;
    assert (1.0 / ratio) * ratio == 1.0;
    Distributes(gap, 1.0 / ratio, ratio);
    assert g * ratio == gap * ratio - 1.0;
    FloorShifts(gap * ratio, -1);
  }

  function Ceil(x: real): int {
    -((-x).Floor)
  }

  lemma CeilShifts(x: real)
    ensures Ceil(x - 1.0) == Ceil(x) - 1
    ensures x >= 0.0 ==> Ceil(x) >= 0
  {
    FloorShifts(-x, 1);
  }

  /** The state after initialisation or reset: one window of silence, output position at its middle. */
  function Start(bank: Bank): Conv {
    Conv(seq(bank.numTaps, _ => seq(bank.numChannels, _ => 0.0)), bank.Half() as real)
  }

  class Context {
    const bank: Bank
    const fixed: bool          // RESAMPLE_FIXED_RATIO
    const snap: bool           // RESAMPLER_SNAP_OFFSET
    const fixedRatio: real
    ghost const stride: nat    // filters per output step, when snapping
    const buffers: array2<real>
    var inputIndex: nat
    var outputOffset: real
    ghost var signal: seq<Frame>
    ghost var grid: int        // the offset in filters, when snapping

    function NumSamples(): nat { 16 * bank.numTaps }

    ghost predicate Holds()
      reads this, buffers
    {
      && bank.Valid()
      && buffers.Length0 == bank.numChannels && buffers.Length1 == 16 * bank.numTaps
      && bank.numTaps <= inputIndex <= 16 * bank.numTaps
      && inputIndex <= |signal|
      && Uniform(signal, bank.numChannels)
      && (fixed ==> fixedRatio > 0.0)
      && forall c, i :: 0 <= c < bank.numChannels && 0 <= i < inputIndex ==>
           buffers[c, i] == signal[|signal| - inputIndex + i][c]
    }

    lemma HoldsMeans()
      requires Holds()
      ensures bank.Valid() && Uniform(signal, bank.numChannels) && (fixed ==> fixedRatio > 0.0)
    {
    }

    ghost function Abs(): Conv
      reads this
    {
      Conv(signal, outputOffset + (|signal| - inputIndex) as real)
    }

    ghost predicate Valid()
      reads this, buffers
    {
      && Holds()
      && Ready(bank.Half(), Abs())
      && (snap ==> fixed && fixedRatio > 0.0 && bank.numFilters as real == stride as real * fixedRatio
                   && OnGrid(outputOffset, bank.numFilters, grid))
    }

    /** Move the last numTaps samples to the front. */
    method Shift()
      requires Holds() && inputIndex == NumSamples()
      modifies this`inputIndex, this`outputOffset, this`grid, buffers
      ensures Holds() && Abs() == old(Abs()) && inputIndex == bank.numTaps
      ensures old(OnGrid(outputOffset, bank.numFilters, grid)) ==> OnGrid(outputOffset, bank.numFilters, grid)
    {
      ghost var back := -15 * bank.numTaps;
      RealProduct(back, bank.numFilters);
      if OnGrid(outputOffset, bank.numFilters, grid) {
        GridMoves(outputOffset, bank.numFilters, grid, back as real, back * bank.numFilters);
      }
      grid := grid + back * bank.numFilters;
      var from := NumSamples() - bank.numTaps;
      forall c, i | 0 <= c < bank.numChannels && 0 <= i < bank.numTaps {
        buffers[c, i] := buffers[c, from + i];
      }
      outputOffset := outputOffset - from as real;
      inputIndex := inputIndex - from;
    }

    /** Read one input frame. */
    method Push(f: Frame)
      requires Holds() && inputIndex < NumSamples() && |f| == bank.numChannels
      modifies this`inputIndex, this`signal, buffers
      ensures Holds() && signal == old(signal) + [f] && inputIndex == old(inputIndex) + 1
    {
      forall c | 0 <= c < bank.numChannels {
        buffers[c, inputIndex] := f[c];
      }
      inputIndex := inputIndex + 1;
      signal := signal + [f];
    }

    /** Take in one frame, sliding the buffer first when it is full. */
    method Read(f: Frame)
      requires Holds() && |f| == bank.numChannels
      modifies this`inputIndex, this`outputOffset, this`signal, this`grid, buffers
      ensures Holds() && signal == old(signal) + [f] && Abs().p == old(Abs().p)
      ensures old(OnGrid(outputOffset, bank.numFilters, grid)) ==> OnGrid(outputOffset, bank.numFilters, grid)
      ensures Uniform(signal, bank.numChannels)
    {
      if inputIndex == NumSamples() {
        Shift();
      }
      Push(f);
    }

    /** The taps from `base` on in one channel's buffer. */
    method Taps(c: nat, base: nat) returns (w: seq<real>)
      requires Holds() && c < bank.numChannels && base + bank.numTaps <= inputIndex
      ensures w == Window(signal, c, |signal| - inputIndex + base, bank.numTaps)
    {
      w := seq(bank.numTaps, i requires
               0 <= i < bank.numTaps && base + bank.numTaps <= buffers.Length1 && c < buffers.Length0
                               reads buffers => buffers[c, base + i]);
    }

    /** The subsample functions on the taps in hand. */
    method SubsampleTaps(w: seq<real>, offset: real) returns (v: real)
      requires bank.Valid() && |w| == bank.numTaps
      ensures v == Subsample(bank, w, offset)
    {
      hide Dot, Phase;
      if bank.interpolate {
        var fi := LowerFilter(offset, bank.numFilters);
        var frac := Phase(offset, bank.numFilters) - fi as real;
        var lower := ApplyFilter(bank.filters[fi], w);
        var upper := ApplyFilter(bank.filters[fi + 1], w);
        return lower * (1.0 - frac) + upper * frac;
      }
      var fi := NearestFilter(offset, bank.numFilters);
      DivisionAtEnds(fi, bank.numFilters);
      if !bank.lowpass && fi % bank.numFilters == 0 {
        return w[bank.Half() - 1 + fi / bank.numFilters];
      }
      v := ApplyFilter(bank.filters[fi], w);
    }

    /** One channel of the output at `offset` into the buffer: exactly the last numTaps samples read. */
    method SubsampleAt(c: nat, offset: real) returns (v: real)
      requires Holds() && c < bank.numChannels
      requires (inputIndex - bank.Half() - 1) as real <= offset < (inputIndex - bank.Half()) as real
      ensures TapsHeld(bank.Half(), |signal|, offset + (|signal| - inputIndex) as real)
      ensures v == Value(bank, signal, offset + (|signal| - inputIndex) as real, c)
    {
      hide Subsample;
      var base := offset.Floor + 1 - bank.Half();
      assert base == inputIndex - bank.numTaps;
      FloorShifts(offset, |signal| - inputIndex);
      var w := Taps(c, base);
      SubsampleShifts(bank, w, offset, |signal| - inputIndex);
      v := SubsampleTaps(w, offset);
    }

    /** One output frame. */
    method Emit(offset: real) returns (f: Frame)
      requires Holds()
      requires (inputIndex - bank.Half() - 1) as real <= offset < (inputIndex - bank.Half()) as real
      ensures TapsHeld(bank.Half(), |signal|, offset + (|signal| - inputIndex) as real)
      ensures f == Output(bank, signal, offset + (|signal| - inputIndex) as real)
    {
      hide Value;
      ghost var p := offset + (|signal| - inputIndex) as real;
      f := [];
      FloorShifts(offset, |signal| - inputIndex);
      for c := 0 to bank.numChannels
        invariant |f| == c
        invariant TapsHeld(bank.Half(), |signal|, p)
        invariant forall i :: 0 <= i < c ==> f[i] == Value(bank, signal, p, i)
      {
        var v := SubsampleAt(c, offset);
        f := f + [v];
      }
    }

    /** resampleProcess / resampleProcessInterleaved */
    method Process(input: seq<Frame>, room: nat, ratioArg: real) returns (out: seq<Frame>, used: nat)
      requires Valid() && Uniform(input, bank.numChannels)
      requires fixed || ratioArg > 0.0
      modifies this`inputIndex, this`outputOffset, this`signal, this`grid, buffers
      ensures Valid()
      ensures used == |Abs().x| - |old(Abs()).x|
      ensures Call(bank, old(Abs()), input, room, if fixed then fixedRatio else ratioArg, out, Abs())
    {
      hide Output, Produced, TapsHeld, Holds, Steps;
      var ratio := if fixed then fixedRatio else ratioArg;
      ghost var s := Abs();
      out, used := [], 0;
      var offset2 := 0.0;
      assert bank.Valid() && ratio > 0.0 && Uniform(signal, bank.numChannels) by { HoldsMeans(); }
      ProducedNone(bank, signal, s.p, ratio);
      StepsGrow(0, ratio);
      while |out| < room
        invariant Holds() && Abs().p == s.p
        invariant used <= |input| && signal == s.x + input[..used]
        invariant |out| <= room && offset2 == Steps(|out|, ratio)
        invariant Ready(bank.Half(), Conv(signal, s.p + offset2))
        invariant Produced(bank, signal, s.p, ratio, out)
        invariant |out| == room > 0 ==> s.p + Steps(room - 1, ratio) >= (|signal| - bank.Half() - 1) as real
        invariant room == 0 ==> used == 0
        invariant snap ==> OnGrid(outputOffset, bank.numFilters, grid)
        decreases room - |out| + |input| - used
      {
        if outputOffset + offset2 >= (inputIndex - bank.Half()) as real {
          if used == |input| {
            break;
          }
          ghost var x := signal;
          Read(input[used]);
          used := used + 1;
          ProducedLater(bank, x, signal, s.p, ratio, out);
          assert input[..used] == input[..used - 1] + [input[used - 1]];
        } else {
          var f := Emit(outputOffset + offset2);
          StepsGrow(|out|, ratio);
          ProducedNext(bank, signal, s.p, ratio, out, f);
          out := out + [f];
          offset2 := Steps(|out|, ratio);
        }
      }
      FinishCall(ratio, offset2, |out|);
      assert Starving(bank.Half(), Abs()) || |out| == room;
    }

    /** Advance the offset past the outputs and snap it to the nearest filter. */
    method FinishCall(ratio: real, offset2: real, ghost n: nat)
      requires Holds() && ratio > 0.0 && offset2 == Steps(n, ratio)
      requires snap ==> fixed && ratio == fixedRatio && bank.numFilters as real == stride as real * fixedRatio
                        && OnGrid(outputOffset, bank.numFilters, grid)
      modifies this`outputOffset, this`grid
      ensures Holds() && Abs() == old(Abs()).(p := old(Abs()).p + offset2)
      ensures snap ==> OnGrid(outputOffset, bank.numFilters, grid)
    {
      if snap {
        StepsOnGrid(n, ratio, bank.numFilters, stride);
        GridMoves(outputOffset, bank.numFilters, grid, offset2, n * stride);
      }
      outputOffset := outputOffset + offset2;
      grid := grid + n * stride;
      if snap {
        SnapIsIdentity(outputOffset, bank.numFilters, grid);
        outputOffset := Snapped(outputOffset, bank.numFilters);
      }
    }

    constructor (bank: Bank, fixed: bool, fixedRatio: real, snap: bool, ghost stride: nat)
      requires bank.Valid() && (fixed ==> fixedRatio > 0.0)
      requires snap ==> fixed && bank.numFilters as real == stride as real * fixedRatio
      ensures Valid() && fresh(buffers) && Abs() == Start(bank)
      ensures this.bank == bank && this.fixed == fixed && this.fixedRatio == fixedRatio && this.snap == snap
    {
      this.bank, this.fixed, this.fixedRatio, this.snap, this.stride := bank, fixed, fixedRatio, snap, stride;
      buffers := new real[bank.numChannels, 16 * bank.numTaps]((c, i) => 0.0);
      inputIndex := bank.numTaps;
      outputOffset := bank.Half() as real;
      signal := Start(bank).x;
      grid := bank.Half() * bank.numFilters;
      RealProduct(bank.Half(), bank.numFilters);
    }

    /** resampleReset */
    method Reset()
      requires Valid()
      modifies this`inputIndex, this`outputOffset, this`signal, this`grid, buffers
      ensures Valid() && Abs() == Start(bank)
    {
      forall c, i | 0 <= c < bank.numChannels && 0 <= i < NumSamples() {
        buffers[c, i] := 0.0;
      }
      outputOffset := bank.Half() as real;
      inputIndex := bank.numTaps;
      signal := Start(bank).x;
      grid := bank.Half() * bank.numFilters;
      RealProduct(bank.Half(), bank.numFilters);
    }

    /** resampleGetExpectedOutput: a dry run over `numIn` new samples. */
    method ExpectedOutput(numIn: nat, ratioArg: real) returns (count: nat)
      requires Valid() && (fixed || ratioArg > 0.0)
      ensures CountsTo(Abs().p, (|Abs().x| + numIn - bank.Half()) as real,
                       if fixed then fixedRatio else ratioArg, count)
    {
      hide Steps;
      var ratio := if fixed then fixedRatio else ratioArg;
      var index, offset, left := inputIndex, outputOffset, numIn;
      ghost var p, length := Abs().p, |signal|;
      count := 0;
      StepsGrow(0, ratio);
      while true
        invariant bank.numTaps <= index <= NumSamples() && 0 <= left <= numIn
        invariant offset + (length + numIn - left - index) as real == p + Steps(count, ratio)
        invariant forall k :: 0 <= k < count ==> p + Steps(k, ratio) < (length + numIn - left - bank.Half()) as real
        decreases left, StepsLeft((index - bank.Half()) as real - offset, ratio)
      {
        if offset >= (index - bank.Half()) as real {
          if left == 0 {
            break;
          }
          if index == NumSamples() {
            offset := offset - (NumSamples() - bank.numTaps) as real;
            index := index - (NumSamples() - bank.numTaps);
          }
          index := index + 1;
          left := left - 1;
        } else {
          StepShrinksGap((index - bank.Half()) as real - offset, ratio);
          StepsGrow(count, ratio);
          StepIsReciprocal(ratio);
          offset := offset + 1.0 / ratio;
          count := count + 1;
        }
      }
    }

    /** resampleGetRequiredSamples: a dry run towards `numOut` outputs. */
    method RequiredSamples(numOut: nat, ratioArg: real) returns (used: nat)
      requires Valid() && (fixed || ratioArg > 0.0)
      ensures numOut == 0 ==> used == 0
      ensures numOut > 0 ==>
        used == (Abs().p + Steps(numOut - 1, if fixed then fixedRatio else ratioArg)).Floor
                + bank.Half() + 1 - |Abs().x|
    {
      hide Steps;
      var ratio := if fixed then fixedRatio else ratioArg;
      var index, offset, left := inputIndex, outputOffset, numOut;
      ghost var p, length := Abs().p, |signal|;
      used := 0;
      StepsGrow(0, ratio);
      while left > 0
        invariant bank.numTaps <= index <= NumSamples() && 0 <= left <= numOut
        invariant offset + (length + used - index) as real == p + Steps(numOut - left, ratio)
        invariant offset >= (index - bank.Half() - 1) as real
        invariant numOut == 0 ==> used == 0
        invariant 0 == left < numOut ==>
          (p + Steps(numOut - 1, ratio)).Floor == length + used - bank.Half() - 1
        decreases left, Ceil(offset - (index - bank.Half() - 1) as real)
      {
        if offset >= (index - bank.Half()) as real {
          if index == NumSamples() {
            offset := offset - (NumSamples() - bank.numTaps) as real;
            index := index - (NumSamples() - bank.numTaps);
          }
          CeilShifts(offset - (index - bank.Half() - 1) as real);
          CeilShifts(offset - (index - bank.Half()) as real);
          index := index + 1;
          used := used + 1;
        } else {
          StepsGrow(numOut - left, ratio);
          StepIsReciprocal(ratio);
          offset := offset + 1.0 / ratio;
          left := left - 1;
        }
      }
    }
  }
}
