/** Runs of process calls: the buffered resampler is the sampling of the unbounded signal, however
    the input is cut and whatever room each call has. */
module ResampleRuns {
  import opened Resampler
  import opened ResampleContext

  /** One process call of a run: what it was offered, the room it had, what it produced. */
  datatype Chunk = Chunk(input: seq<Frame>, room: nat, out: seq<Frame>)

  ghost predicate RunOf(bank: Bank, ratio: real, states: seq<Conv>, chunks: seq<Chunk>)
    requires bank.Valid() && ratio > 0.0
  {
    && |states| == |chunks| + 1
    && forall i :: 0 <= i < |chunks| ==>
         Call(bank, states[i], chunks[i].input, chunks[i].room, ratio, chunks[i].out, states[i + 1])
  }

  function Outputs(chunks: seq<Chunk>): seq<Frame>
    decreases |chunks|
  {
    if chunks == [] then [] else Outputs(chunks[..|chunks| - 1]) + chunks[|chunks| - 1].out
  }

  lemma StepsAdd(a: nat, b: nat, ratio: real)
    requires ratio > 0.0
    ensures Steps(a + b, ratio) == Steps(a, ratio) + Steps(b, ratio)
  {
  }

  lemma StepsOrder(a: nat, b: nat, ratio: real)
    requires ratio > 0.0 && a <= b
    ensures Steps(a, ratio) <= Steps(b, ratio)
  {
    StepsAdd(a, b - a, ratio);
    StepsNonNegative(b - a, ratio);
  }

  lemma StepsNonNegative(k: nat, ratio: real)
    requires ratio > 0.0
    ensures Steps(k, ratio) >= 0.0
  {
  }

  /** Outputs of one call continue the outputs before it. */
  lemma ProducedAppends(bank: Bank, x: seq<Frame>, p: real, ratio: real, a: seq<Frame>, b: seq<Frame>)
    requires ratio > 0.0 && Produced(bank, x, p, ratio, a) && Produced(bank, x, p + Steps(|a|, ratio), ratio, b)
    ensures Produced(bank, x, p, ratio, a + b)
  {
    hide Steps, Output, TapsHeld;
    forall k | 0 <= k < |a + b|
      ensures TapsHeld(bank.Half(), |x|, p + Steps(k, ratio)) && (a + b)[k] == Output(bank, x, p + Steps(k, ratio))
    {
      if k >= |a| {
        StepsAdd(|a|, k - |a|, ratio);
      }
    }
  }

  lemma {:induction false} RunProduces(bank: Bank, ratio: real, states: seq<Conv>, chunks: seq<Chunk>)
    requires bank.Valid() && ratio > 0.0 && RunOf(bank, ratio, states, chunks)
    requires Uniform(states[0].x, bank.numChannels) && Ready(bank.Half(), states[0])
    ensures var t, out := states[|chunks|], Outputs(chunks);
            && states[0].x <= t.x && Uniform(t.x, bank.numChannels) && Ready(bank.Half(), t)
            && t.p == states[0].p + Steps(|out|, ratio)
            && Produced(bank, t.x, states[0].p, ratio, out)
    decreases |chunks|
  {
    hide Steps, Produced, Uniform;
    var s := states[0];
    if chunks == [] {
      StepsGrow(0, ratio);
      ProducedNone(bank, s.x, s.p, ratio);
    } else {
      var n := |chunks| - 1;
      var before, last := chunks[..n], chunks[n];
      assert RunOf(bank, ratio, states[..|chunks|], before);
      RunProduces(bank, ratio, states[..|chunks|], before);
      var m, t := states[n], states[n + 1];
      assert Call(bank, m, last.input, last.room, ratio, last.out, t);
      var out := Outputs(before);
      ProducedLater(bank, m.x, t.x, s.p, ratio, out);
      ProducedAppends(bank, t.x, s.p, ratio, out, last.out);
      StepsAdd(|out|, |last.out|, ratio);
    }
  }

  /** For every sequence of process calls from the start, and every way of cutting the input: the
      n-th output ever produced is the sampling of the unbounded signal at numTaps/2 + n/ratio. */
  lemma EveryOutputIsASample(bank: Bank, ratio: real, states: seq<Conv>, chunks: seq<Chunk>, n: nat)
    requires bank.Valid() && ratio > 0.0 && RunOf(bank, ratio, states, chunks) && states[0] == Start(bank)
    requires n < |Outputs(chunks)|
    ensures var x := states[|chunks|].x;
            var p := bank.Half() as real + n as real / ratio;
            && Start(bank).x <= x && Uniform(x, bank.numChannels)
            && TapsHeld(bank.Half(), |x|, p) && Outputs(chunks)[n] == Output(bank, x, p)
  {
    hide Output;
    RunProduces(bank, ratio, states, chunks);
    assert Steps(n, ratio) == n as real / ratio;
  }

  // ---------- how many ----------

  lemma CountIsUnique(p: real, bound: real, ratio: real, m: nat, n: nat)
    requires ratio > 0.0 && CountsTo(p, bound, ratio, m) && CountsTo(p, bound, ratio, n)
    ensures m == n
  {
    hide Steps;
  }

  /** Outputs made before the signal reached its final length lie below the bound it gives. */
  lemma ProducedBelow(bank: Bank, x: seq<Frame>, p: real, ratio: real, out: seq<Frame>)
    requires ratio > 0.0 && Produced(bank, x, p, ratio, out)
    ensures forall k :: 0 <= k < |out| ==> p + Steps(k, ratio) < (|x| - bank.Half()) as real
  {
    hide Steps, Output;
    forall k | 0 <= k < |out| ensures p + Steps(k, ratio) < (|x| - bank.Half()) as real {
      assert TapsHeld(bank.Half(), |x|, p + Steps(k, ratio));
    }
  }

  /** A call produces what the dry run predicts, or as much of it as there is room for; with more
      room than that it consumes all its input. */
  lemma {:induction false} CallMatchesPrediction(bank: Bank, s: Conv, input: seq<Frame>, room: nat, ratio: real,
                                                 out: seq<Frame>, t: Conv, n: nat)
    requires bank.Valid() && ratio > 0.0 && Call(bank, s, input, room, ratio, out, t)
    requires CountsTo(s.p, (|s.x| + |input| - bank.Half()) as real, ratio, n)
    ensures |out| == if n <= room then n else room
    ensures n < room ==> t.x == s.x + input && Starving(bank.Half(), t)
  {
    hide Steps, Produced;
    ProducedBelow(bank, t.x, s.p, ratio, out);
    var bound := (|s.x| + |input| - bank.Half()) as real;
    if |out| < room {
      assert CountsTo(s.p, bound, ratio, |out|);
      CountIsUnique(s.p, bound, ratio, |out|, n);
    }
  }

  /** The capacity audio_resample_max_output gives for n frames. */
  function MaxOutput(n: nat, ratio: real): int {
    (n as real * ratio + 2.0).Floor
  }

  lemma BelowRatio(k: nat, n: nat, ratio: real)
    requires ratio > 0.0 && Steps(k, ratio) < n as real
    ensures (k as real) < n as real * ratio
  {
    assert k as real == Steps(k, ratio) * ratio;
  }

  /** From a state that has drained its input, n more frames give strictly fewer outputs than
      audio_resample_max_output promises. */
  lemma PredictionBelowMaximum(half: nat, s: Conv, n: nat, ratio: real, count: nat)
    requires ratio > 0.0 && Starving(half, s)
    requires CountsTo(s.p, (|s.x| + n - half) as real, ratio, count)
    ensures count < MaxOutput(n, ratio)
  {
    hide Steps;
    if count > 0 {
      assert s.p + Steps(count - 1, ratio) < (|s.x| + n - half) as real;
      BelowRatio(count - 1, n, ratio);
    } else {
      assert n as real * ratio >= 0.0;
    }
  }

  /** Given that capacity, every call consumes its whole input and leaves the next call able to. */
  lemma MaximumConsumesAll(bank: Bank, s: Conv, input: seq<Frame>, room: nat, ratio: real, out: seq<Frame>, t: Conv,
                           n: nat)
    requires bank.Valid() && ratio > 0.0 && Call(bank, s, input, room, ratio, out, t)
    requires Starving(bank.Half(), s) && room >= MaxOutput(|input|, ratio)
    requires CountsTo(s.p, (|s.x| + |input| - bank.Half()) as real, ratio, n)
    ensures t.x == s.x + input && Starving(bank.Half(), t) && |out| == n
  {
    PredictionBelowMaximum(bank.Half(), s, |input|, ratio, n);
    CallMatchesPrediction(bank, s, input, room, ratio, out, t, n);
  }

  /** Offered at least the inputs the dry run requires, a call with room for exactly those outputs
      produces all of them from exactly those inputs. */
  lemma {:induction false} CallNeedsRequired(bank: Bank, s: Conv, input: seq<Frame>, room: nat, ratio: real,
                                             out: seq<Frame>, t: Conv, need: nat)
    requires bank.Valid() && ratio > 0.0 && Call(bank, s, input, room, ratio, out, t) && room > 0
    requires need == (s.p + Steps(room - 1, ratio)).Floor + bank.Half() + 1 - |s.x|
    requires need <= |input|
    ensures |out| == room && |t.x| == |s.x| + need
  {
    hide Steps, Produced;
    ProducedBelow(bank, t.x, s.p, ratio, out);
    if |out| < room {
      StepsOrder(|out|, room - 1, ratio);
      assert false;
    }
    assert s.p + Steps(room - 1, ratio) < (|t.x| - bank.Half()) as real;
  }

  /** The dry run's answer is the least that will do: a call fills its room exactly when it is offered at
      least that many inputs. */
  lemma {:induction false} RequiredIsLeast(bank: Bank, s: Conv, input: seq<Frame>, room: nat, ratio: real,
                                           out: seq<Frame>, t: Conv)
    requires bank.Valid() && ratio > 0.0 && Call(bank, s, input, room, ratio, out, t)
    requires Ready(bank.Half(), s) && room > 0
    ensures |out| == room <==> (s.p + Steps(room - 1, ratio)).Floor + bank.Half() + 1 - |s.x| <= |input|
  {
    hide Steps, Produced;
    var need := (s.p + Steps(room - 1, ratio)).Floor + bank.Half() + 1 - |s.x|;
    StepsNonNegative(room - 1, ratio);
    if need <= |input| {
      CallNeedsRequired(bank, s, input, room, ratio, out, t, need);
    } else {
      ProducedBelow(bank, t.x, s.p, ratio, out);
    }
  }

  /** A call reads its whole input exactly when the outputs it could make leave room over, or when the
      last one there is room for needs the last input. */
  lemma {:induction false} InputIsConsumed(bank: Bank, s: Conv, input: seq<Frame>, room: nat, ratio: real,
                                           out: seq<Frame>, t: Conv, n: nat)
    requires bank.Valid() && ratio > 0.0 && Call(bank, s, input, room, ratio, out, t)
    requires Ready(bank.Half(), s) && CountsTo(s.p, (|s.x| + |input| - bank.Half()) as real, ratio, n)
    ensures t.x == s.x + input <==>
      n < room || |input| == (if room == 0 then 0 else (s.p + Steps(room - 1, ratio)).Floor + bank.Half() + 1 - |s.x|)
  {
    hide Steps, Produced;
    CallMatchesPrediction(bank, s, input, room, ratio, out, t, n);
    if 0 < room <= n {
      var need := (s.p + Steps(room - 1, ratio)).Floor + bank.Half() + 1 - |s.x|;
      assert s.p + Steps(room - 1, ratio) < (|s.x| + |input| - bank.Half()) as real;
      StepsNonNegative(room - 1, ratio);
      assert 0 <= need <= |input|;
      CallNeedsRequired(bank, s, input, room, ratio, out, t, need);
    }
  }

  // ---------- cutting the input differently ----------

  lemma ProducedIsDetermined(bank: Bank, x: seq<Frame>, p: real, ratio: real, a: seq<Frame>, b: seq<Frame>)
    requires ratio > 0.0 && Produced(bank, x, p, ratio, a) && Produced(bank, x, p, ratio, b) && |a| == |b|
    ensures a == b
  {
    hide Steps, Output, TapsHeld;
    forall n | 0 <= n < |a| ensures a[n] == b[n] {
      assert a[n] == Output(bank, x, p + Steps(n, ratio));
      assert b[n] == Output(bank, x, p + Steps(n, ratio));
    }
  }

  /** A run that has drained its input has produced every output that lies below the end. */
  lemma {:induction false} DrainedRunCounts(bank: Bank, ratio: real, states: seq<Conv>, chunks: seq<Chunk>)
    requires bank.Valid() && ratio > 0.0 && RunOf(bank, ratio, states, chunks) && states[0] == Start(bank)
    requires Starving(bank.Half(), states[|chunks|])
    ensures var x := states[|chunks|].x;
            && Produced(bank, x, bank.Half() as real, ratio, Outputs(chunks))
            && CountsTo(bank.Half() as real, (|x| - bank.Half()) as real, ratio, |Outputs(chunks)|)
  {
    hide Steps, Produced, Call;
    RunProduces(bank, ratio, states, chunks);
    ProducedBelow(bank, states[|chunks|].x, bank.Half() as real, ratio, Outputs(chunks));
  }

  /** Two runs at one ratio that have consumed the same signal and drained it produced the same
      outputs, however their input was cut. */
  lemma {:induction false} CuttingDoesNotMatter(bank: Bank, ratio: real, states1: seq<Conv>, chunks1: seq<Chunk>,
                             states2: seq<Conv>, chunks2: seq<Chunk>)
    requires bank.Valid() && ratio > 0.0
    requires RunOf(bank, ratio, states1, chunks1) && states1[0] == Start(bank)
    requires RunOf(bank, ratio, states2, chunks2) && states2[0] == Start(bank)
    requires states1[|chunks1|].x == states2[|chunks2|].x
    requires Starving(bank.Half(), states1[|chunks1|]) && Starving(bank.Half(), states2[|chunks2|])
    ensures Outputs(chunks1) == Outputs(chunks2)
  {
    hide Produced, CountsTo, Call, Starving;
    DrainedRunCounts(bank, ratio, states1, chunks1);
    DrainedRunCounts(bank, ratio, states2, chunks2);
    var x, p := states1[|chunks1|].x, bank.Half() as real;
    CountIsUnique(p, (|x| - bank.Half()) as real, ratio, |Outputs(chunks1)|, |Outputs(chunks2)|);
    ProducedIsDetermined(bank, x, p, ratio, Outputs(chunks1), Outputs(chunks2));
  }

  // ---------- the room the playback task gives ----------

  /** MAX_RESAMPLE_FRAMES: sized for 44.1 kHz sources, whatever the source rate is. */
  function PlaybackRoom(outputRate: nat): nat {
    (354.0 * (outputRate as real / 44100.0) + 16.0).Floor
  }

  /** With a source of at least 44.1 kHz that room is enough for every read of up to 353 frames. */
  lemma PlaybackRoomSuffices(inputRate: nat, outputRate: nat, n: nat)
    requires inputRate >= 44100 && n <= 353
    ensures PlaybackRoom(outputRate) >= MaxOutput(n, outputRate as real / inputRate as real)
  {
    var r, base := outputRate as real / inputRate as real, outputRate as real / 44100.0;
    SlowerIsSmaller(outputRate as real, inputRate as real, 44100.0);
    assert n as real * r <= 353.0 * base;
  }

  lemma SlowerIsSmaller(x: real, a: real, b: real)
    requires x >= 0.0 && a >= b > 0.0
    ensures 0.0 <= x / a <= x / b
  {
    var q := x / a;
    assert q * a == x && q >= 0.0;
    assert q * b <= x;
  }

  /** With a slower source it is not: from the start, 352 frames at 32 kHz to 48 kHz overflow the room,
      and the call leaves input unread. */
  lemma SlowSourceLosesInput(bank: Bank, input: seq<Frame>, out: seq<Frame>, t: Conv)
    requires bank.Valid() && |input| == 352
    requires Call(bank, Start(bank), input, PlaybackRoom(48000), 1.5, out, t)
    ensures |out| == PlaybackRoom(48000) == 401 && |t.x| < |Start(bank).x| + 352
  {
    hide Produced;
    assert PlaybackRoom(48000) == 401;
    assert 1.5 * Steps(400, 1.5) == 400.0;
    ProducedBelow(bank, t.x, bank.Half() as real, 1.5, out);
  }
}
