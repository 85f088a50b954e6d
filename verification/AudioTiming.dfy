/** The playout scheduler: which buffered frame, if any, an output callback gets to play. */
module AudioTiming {
  import opened MachineIntegers
  import opened Rtp
  import opened AudioBuffer
  import opened Wrappers

  const HARDWARE_OUTPUT_LATENCY_US := 46000
  const TIMING_THRESHOLD_US := 40000
  const BULK_FLUSH_LATE_THRESHOLD_US := 2000000
  const MAX_CONSECUTIVE_EARLY := 750
  const MAX_CONSECUTIVE_LATE := 16
  const POST_FLUSH_STALE_THRESHOLD_US := 10000000
  const POST_FLUSH_TIMEOUT_US := 500000
  const STARTUP_ANCHOR_WAIT_US := 1000000
  const MAX_ATTEMPTS := 8
  const MIN_STARTUP_FRAMES := 4

  /** What a read takes from outside: the clock, the two network clocks, the stream format and the
      room in the caller's buffer. */
  datatype Env = Env(nowUs: int, ptpLocked: bool, ptpOffsetNs: int, ntpLocked: bool, ntpOffsetNs: int,
                     sampleRate: int, channels: nat, samples: nat)

  /** The scheduler's state. */
  datatype Timing = Timing(
    targetFrames: nat,
    playing: bool,
    playoutStarted: bool,
    readyTimeUs: int,
    anchorValid: bool,
    anchorNetworkNs: Uint64,
    anchorRtp: Uint32,
    anchorLocalNs: int,
    pendingValid: bool,
    pending: Frame,
    pendingLen: nat,
    pendingCapacity: nat,
    early: nat,
    late: nat,
    postFlush: bool,
    postFlushStartUs: int,
    deferred: bool,
    flushUntil: Uint32)

  /** What a read gave its caller. */
  datatype Event =
    | Idle            // nothing: paused, waiting, empty, or every attempt dropped a frame
    | Silence         // zeros, because the next frame is early
    | Played(f: Frame)
    | Flushed         // the buffer was thrown away

  // ---------- how early a frame is ----------

  /** Where the frame should start playing, on the local clock. */
  function TargetNs(t: Timing, env: Env, ts: Uint32): int
    requires env.sampleRate > 0
  {
    var offsetNs := CDiv(TsCmp(ts, t.anchorRtp) * 1000000000, env.sampleRate);
    var startNs :=
      if env.ptpLocked then ToInt64(t.anchorNetworkNs) - env.ptpOffsetNs + offsetNs
      else if env.ntpLocked then ToInt64(t.anchorNetworkNs) - env.ntpOffsetNs + offsetNs
      else t.anchorLocalNs + offsetNs;
    startNs - HARDWARE_OUTPUT_LATENCY_US * 1000
  }

  /** Microseconds until the frame is due; negative when it is late. */
  function EarlyUs(t: Timing, env: Env, ts: Uint32): int
    requires env.sampleRate > 0
  {
    CDiv(TargetNs(t, env, ts) - env.nowUs * 1000, 1000)
  }

  // ---------- the decision for one frame ----------

  datatype Verdict =
    | Malformed       // header and size disagree
    | DeferredFlush   // reached the armed flush point
    | StaleFlush      // after a seek: still audio of the old position
    | PlayAfterFlush(settled: bool)
    | Hold            // early
    | GiveUpAnchor    // early for too long: forget the anchor and play
    | BulkFlush       // hopelessly late
    | DropLate
    | PlayNow

  function FrameChannels(f: Frame, env: Env): nat {
    if f.channels != 0 then f.channels else env.channels
  }

  predicate WellFormed(f: Frame, len: nat, env: Env) {
    && |f.pcm| != 0
    && FrameChannels(f, env) != 0
    && len >= FRAME_HEADER_BYTES + |f.pcm| * FrameChannels(f, env) * 2
  }

  predicate Due(early: int) {
    -TIMING_THRESHOLD_US <= early <= TIMING_THRESHOLD_US
  }

  function PostFlushStart(t: Timing, env: Env): int {
    if t.postFlushStartUs == 0 then env.nowUs else t.postFlushStartUs
  }

  function Judge(t: Timing, f: Frame, len: nat, env: Env): Verdict {
    if !WellFormed(f, len, env) then Malformed
    else if t.deferred && TsCmp(f.Ts(), t.flushUntil) >= 0 then DeferredFlush
    else if !t.anchorValid || env.sampleRate <= 0 then PlayNow
    else JudgeTime(t, EarlyUs(t, env, f.Ts()), env)
  }

  function JudgeTime(t: Timing, early: int, env: Env): Verdict {
    if t.postFlush then
      if early > POST_FLUSH_STALE_THRESHOLD_US then StaleFlush
      else PlayAfterFlush(Due(early) || env.nowUs - PostFlushStart(t, env) >= POST_FLUSH_TIMEOUT_US)
    else if early > TIMING_THRESHOLD_US then
      if t.early + 1 > MAX_CONSECUTIVE_EARLY then GiveUpAnchor else Hold
    else if early < -TIMING_THRESHOLD_US then
      if -early > BULK_FLUSH_LATE_THRESHOLD_US || t.late + 1 > MAX_CONSECUTIVE_LATE then BulkFlush else DropLate
    else PlayNow
  }

  /** The counters and flags the timing decision itself moves. */
  function Count(t: Timing, v: Verdict, env: Env): Timing {
    match v
    case StaleFlush => t.(postFlushStartUs := PostFlushStart(t, env))
    case PlayAfterFlush(settled) =>
      t.(postFlush := !settled, postFlushStartUs := if settled then 0 else PostFlushStart(t, env))
    case Hold => t.(early := t.early + 1)
    case GiveUpAnchor => t.(early := t.early + 1, anchorValid := false)
    case BulkFlush => t.(early := 0, late := t.late + 1)
    case DropLate => t.(early := 0, late := t.late + 1)
    case _ => t
  }

  // ---------- one attempt ----------

  /** State, buffer, whether the frame's slot was kept, and what to return (None: try the next frame). */
  datatype Step = Step(t: Timing, q: seq<Frame>, leaked: bool, done: Option<Event>)

  function ClearPending(t: Timing): Timing {
    t.(pendingValid := false, pendingLen := 0)
  }

  /** Let go of the frame in hand. */
  function Release(t: Timing, fromPending: bool): Timing {
    if fromPending then ClearPending(t) else t
  }

  function AfterFlush(t: Timing, fromPending: bool): Timing {
    Release(t, fromPending).(playoutStarted := false, readyTimeUs := 0, early := 0, late := 0)
  }

  function AfterPlay(t: Timing, fromPending: bool): Timing {
    Release(t, fromPending).(early := 0, late := 0, playoutStarted := true)
  }

  /** What becomes of the frame in hand once the counters have moved to `t`. */
  function Settle(t: Timing, q: seq<Frame>, f: Frame, len: nat, fromPending: bool, v: Verdict): Step {
    match v
    case Malformed => Step(Release(t, fromPending), q, false, None)
    case DeferredFlush =>
      Step(AfterFlush(t, fromPending).(deferred := false, postFlush := true, postFlushStartUs := 0),
           [], false, Some(Flushed))
    case StaleFlush => Step(AfterFlush(t, fromPending), [], false, Some(Flushed))
    case BulkFlush => Step(AfterFlush(t, fromPending), [], false, Some(Flushed))
    case DropLate => Step(Release(t, fromPending), q, false, None)
    case Hold =>
      if fromPending then Step(t, q, false, Some(Silence))
      else if len <= t.pendingCapacity then
        Step(t.(pendingValid := true, pending := f, pendingLen := len), q, false, Some(Silence))
      else Step(t, q, true, Some(Silence))
    case _ => Step(AfterPlay(t, fromPending), q, false, Some(Played(f)))
  }

  function Act(t: Timing, q: seq<Frame>, f: Frame, len: nat, fromPending: bool, env: Env): Step {
    var v := Judge(t, f, len, env);
    Settle(Count(t, v, env), q, f, len, fromPending, v)
  }

  function Attempt(t: Timing, q: seq<Frame>, env: Env): Step {
    if t.pendingValid then
      if t.pendingLen < FRAME_HEADER_BYTES then Step(ClearPending(t), q, false, None)
      else Act(t, q, t.pending, t.pendingLen, true, env)
    else if q == [] then Step(t, q, false, Some(Idle))
    else Act(t, q[1..], q[0], q[0].Bytes(), false, env)
  }

  // ---------- one read ----------

  datatype Outcome = Outcome(t: Timing, q: seq<Frame>, leaked: bool, event: Event)

  function Attempts(t: Timing, q: seq<Frame>, env: Env, n: nat): Outcome
    decreases n
  {
    if n == 0 then Outcome(t, q, false, Idle)
    else
      var s := Attempt(t, q, env);
      match s.done
      case Some(event) => Outcome(s.t, s.q, s.leaked, event)
      case None => Attempts(s.t, s.q, env, n - 1)
  }

  /** Waiting for the buffer to fill, or up to a second for an anchor. */
  predicate Waiting(t: Timing, q: seq<Frame>, env: Env) {
    && !t.playoutStarted && !t.pendingValid
    && (|q| < t.targetFrames || (!t.anchorValid && env.nowUs - ReadyTime(t, env) < STARTUP_ANCHOR_WAIT_US))
  }

  function ReadyTime(t: Timing, env: Env): int {
    if t.readyTimeUs == 0 then env.nowUs else t.readyTimeUs
  }

  /** The state once the start-up gate has looked at it. */
  function Gated(t: Timing, q: seq<Frame>, env: Env): Timing {
    if !t.playoutStarted && !t.pendingValid && |q| >= t.targetFrames && !t.anchorValid
    then t.(readyTimeUs := ReadyTime(t, env))
    else t
  }

  function Read(t: Timing, q: seq<Frame>, env: Env): Outcome {
    if env.samples == 0 || !t.playing then Outcome(t, q, false, Idle)
    else
      var t1 := Gated(t, q, env);
      if Waiting(t, q, env) then Outcome(t1, q, false, Idle) else Attempts(t1, q, env, MAX_ATTEMPTS)
  }

  // ---------- the other calls ----------

  /** audio_timing_reset */
  function Reset(t: Timing): Timing {
    Timing(
      t.targetFrames, t.playing,
      false,                                              // playoutStarted
      0,                                                  // readyTimeUs
      false,                                              // anchorValid
      t.anchorNetworkNs, t.anchorRtp, t.anchorLocalNs,
      false, t.pending, 0,                                // pendingValid, pendingLen
      t.pendingCapacity,
      0, 0,                                               // early, late
      false, 0,                                           // postFlush, postFlushStartUs
      false, 0)                                           // deferred, flushUntil
  }

  /** The part of an audio format that sets the start-up target. */
  datatype Format = Format(frameSize: int, maxSamples: Uint32, sampleRate: int)

  function NominalSamples(f: Format): (n: nat)
    ensures n > 0
  {
    if f.frameSize > 0 then f.frameSize else if f.maxSamples > 0 then f.maxSamples else AAC_FRAMES_PER_PACKET
  }

  /** update_timing_targets: the frames that cover the output latency, at least four. */
  function TargetFrames(f: Format, latencyUs: Uint32): (frames: Uint32)
    ensures frames >= MIN_STARTUP_FRAMES
  {
    if f.sampleRate <= 0 then MIN_STARTUP_FRAMES
    else
      var latencySamples := latencyUs * f.sampleRate / 1000000;
      var frames := Wrap32((latencySamples + NominalSamples(f) - 1) / NominalSamples(f));
      if frames < MIN_STARTUP_FRAMES then MIN_STARTUP_FRAMES else frames
  }

  lemma CoversFrom(frames: int, n: nat, samples: nat)
    requires n > 0
    ensures frames * n >= samples <==> frames >= (samples + n - 1) / n
  {
    var least := (samples + n - 1) / n;
    assert least * n <= samples + n - 1 < least * n + n;
    if frames >= least {
      assert (frames - least) * n >= 0;
    } else {
      assert (least - 1 - frames) * n >= 0;
    }
  }

  /** With a sound rate the target covers the latency exactly when the number of frames that do fits
      32 bits, and a target above the minimum is no larger than that. */
  lemma TargetCoversLatency(f: Format, latencyUs: Uint32)
    requires f.sampleRate > 0
    ensures var samples := latencyUs * f.sampleRate / 1000000;
      var n := if f.frameSize > 0 then f.frameSize else if f.maxSamples > 0 then f.maxSamples else 352;
      && (TargetFrames(f, latencyUs) * n >= samples <==> (samples + n - 1) / n < 0x1_0000_0000)
      && (TargetFrames(f, latencyUs) > MIN_STARTUP_FRAMES ==> (TargetFrames(f, latencyUs) - 1) * n < samples)
  {
    var samples, n, frames := latencyUs * f.sampleRate / 1000000, NominalSamples(f), TargetFrames(f, latencyUs);
    assert n == if f.frameSize > 0 then f.frameSize else if f.maxSamples > 0 then f.maxSamples else 352;
    hide NominalSamples;
    CoversFrom(frames, n, samples);
    CoversFrom(frames - 1, n, samples);
  }

  /** audio_timing_set_format and audio_timing_set_output_latency, which only move the target. */
  function Retargeted(t: Timing, f: Format, latencyUs: Uint32): Timing {
    t.(targetFrames := TargetFrames(f, latencyUs))
  }

  /** audio_timing_set_anchor */
  function Anchored(t: Timing, nowUs: int, networkNs: Uint64, rtp: Uint32): Timing {
    t.(anchorRtp := rtp, anchorNetworkNs := networkNs, anchorLocalNs := nowUs * 1000, anchorValid := true,
       early := 0, late := 0)
  }

  /** audio_timing_set_playing: a pause forgets the pending copy. */
  function SetPlaying(t: Timing, playing: bool): Timing {
    (if playing then t else ClearPending(t)).(playing := playing)
  }

  /** The samples handed to the caller for an event. */
  ghost predicate Delivers(out: seq<Sample>, event: Event, env: Env) {
    match event
    case Played(f) => out == f.pcm[..if |f.pcm| > env.samples then env.samples else |f.pcm|]
    case Silence => |out| == env.samples &&
      forall i :: 0 <= i < |out| ==> forall c :: 0 <= c < |out[i]| ==> out[i][c] == 0
    case _ => out == []
  }

  lemma DeliversNothing(env: Env)
    ensures Delivers([], Flushed, env)
  {
  }

  class AudioTiming {
    var targetFrames: nat
    var playing: bool
    var playoutStarted: bool
    var readyTimeUs: int
    var anchorValid: bool
    var anchorNetworkNs: Uint64
    var anchorRtp: Uint32
    var anchorLocalNs: int
    var pendingValid: bool
    var pending: Frame
    var pendingLen: nat
    const pendingCapacity: nat
    var early: nat
    var late: nat
    var postFlush: bool
    var postFlushStartUs: int
    var deferred: bool
    var flushUntil: Uint32

    ghost function Abs(): Timing
      reads this
    {
      Timing(targetFrames, playing, playoutStarted, readyTimeUs, anchorValid, anchorNetworkNs, anchorRtp,
             anchorLocalNs, pendingValid, pending, pendingLen, pendingCapacity, early, late, postFlush,
             postFlushStartUs, deferred, flushUntil)
    }

    constructor (pendingCapacity: nat, targetFrames: nat)
      ensures this.pendingCapacity == pendingCapacity && this.targetFrames == targetFrames && playing
      ensures Reset(Abs()) == Abs() && !anchorValid && !pendingValid
    {
      this.pendingCapacity, this.targetFrames := pendingCapacity, targetFrames;
      playing, playoutStarted, readyTimeUs := true, false, 0;
      anchorValid, anchorNetworkNs, anchorRtp, anchorLocalNs := false, 0, 0, 0;
      pendingValid, pending, pendingLen := false, Frame(0, 0, []), 0;
      early, late, postFlush, postFlushStartUs, deferred, flushUntil := 0, 0, false, 0, false, 0;
    }

    method ResetAll()
      modifies this
      ensures Abs() == Reset(old(Abs()))
    {
      hide Abs;
      ForgetPlayout();
      ForgetSync();
    }

    method ForgetSync()
      modifies this`anchorValid, this`early, this`late, this`postFlush, this`postFlushStartUs
      modifies this`deferred, this`flushUntil
      ensures Abs() == old(Abs()).(anchorValid := false, early := 0, late := 0, postFlush := false,
                                   postFlushStartUs := 0, deferred := false, flushUntil := 0)
    {
      anchorValid, early, late, postFlush, postFlushStartUs, deferred, flushUntil := false, 0, 0, false, 0, false, 0;
    }

    method ForgetPlayout()
      modifies this
      ensures Abs() == ClearPending(old(Abs())).(playoutStarted := false, readyTimeUs := 0)
    {
      playoutStarted, pendingValid, pendingLen, readyTimeUs := false, false, 0, 0;
    }

    method SetAnchor(nowUs: int, networkNs: Uint64, rtp: Uint32)
      modifies this
      ensures Abs() == Anchored(old(Abs()), nowUs, networkNs, rtp)
    {
      anchorRtp, anchorNetworkNs, anchorLocalNs, anchorValid := rtp, networkNs, nowUs * 1000, true;
      early, late := 0, 0;
    }

    method UpdateTargets(f: Format, latencyUs: Uint32)
      modifies this`targetFrames
      ensures Abs() == Retargeted(old(Abs()), f, latencyUs)
    {
      targetFrames := TargetFrames(f, latencyUs);
    }

    method SetPlayingFlag(flag: bool)
      modifies this
      ensures Abs() == SetPlaying(old(Abs()), flag)
    {
      playing := flag;
      if !flag {
        pendingValid, pendingLen := false, 0;
      }
    }

    /** compute_early_us */
    method ComputeEarlyUs(env: Env, ts: Uint32) returns (ok: bool, earlyUs: int)
      ensures ok == (anchorValid && env.sampleRate > 0)
      ensures ok ==> earlyUs == EarlyUs(Abs(), env, ts)
    {
      if !anchorValid || env.sampleRate <= 0 {
        return false, 0;
      }
      var rtpDelta := TsCmp(ts, anchorRtp);
      var frameOffsetNs := CDiv(rtpDelta * 1000000000, env.sampleRate);
      var targetNs := anchorLocalNs + frameOffsetNs;
      if env.ptpLocked {
        targetNs := ToInt64(anchorNetworkNs) - env.ptpOffsetNs + frameOffsetNs;
      } else if env.ntpLocked {
        targetNs := ToInt64(anchorNetworkNs) - env.ntpOffsetNs + frameOffsetNs;
      }
      targetNs := targetNs - HARDWARE_OUTPUT_LATENCY_US * 1000;
      return true, CDiv(targetNs - env.nowUs * 1000, 1000);
    }

    /** Let go of the frame in hand: clear the pending copy, or give the slot back. */
    method ReleaseItem(buffer: AudioBuffer, fromPending: bool, slot: nat)
      requires buffer.Valid() && (!fromPending ==> slot in buffer.taken)
      modifies this`pendingValid, this`pendingLen, buffer`freeTop, buffer`taken, buffer.freeStack
      ensures buffer.Valid()
      ensures Abs() == Release(old(Abs()), fromPending)
      ensures buffer.taken == if fromPending then old(buffer.taken) else old(buffer.taken) - multiset{slot}
    {
      hide AudioBuffer.Valid;
      if fromPending {
        pendingValid := false;
        pendingLen := 0;
      } else {
        buffer.Return(slot);
      }
    }

    method StartOver()
      modifies this`playoutStarted, this`readyTimeUs, this`early, this`late
      ensures Abs() == AfterFlush(old(Abs()), false)
    {
      playoutStarted, readyTimeUs, early, late := false, 0, 0, 0;
    }

    method MarkPlayed()
      modifies this`playoutStarted, this`early, this`late
      ensures Abs() == AfterPlay(old(Abs()), false)
    {
      playoutStarted, early, late := true, 0, 0;
    }

    /** The first frame of the next track may play at once. */
    method DeferredFlushDone()
      modifies this`deferred, this`postFlush, this`postFlushStartUs
      ensures Abs() == old(Abs()).(deferred := false, postFlush := true, postFlushStartUs := 0)
    {
      deferred, postFlush, postFlushStartUs := false, true, 0;
    }

    /** Let go of the frame in hand, flush the buffer and start over. */
    method ThrowAway(buffer: AudioBuffer, fromPending: bool, slot: nat)
      requires buffer.Valid() && (!fromPending ==> slot in buffer.taken)
      modifies this, buffer, buffer.freeStack
      ensures buffer.Valid() && buffer.contents == []
      ensures buffer.taken == if fromPending then old(buffer.taken) else old(buffer.taken) - multiset{slot}
      ensures Abs() == AfterFlush(old(Abs()), fromPending)
    {
      hide AudioBuffer.Valid, Abs;
      ReleaseItem(buffer, fromPending, slot);
      StartOver();
      buffer.Flush();
    }

    /** Copy the PCM out and let go of the frame in hand. */
    method Play(buffer: AudioBuffer, env: Env, f: Frame, fromPending: bool, slot: nat) returns (out: seq<Sample>)
      requires buffer.Valid() && (!fromPending ==> slot in buffer.taken)
      modifies this, buffer`freeTop, buffer`taken, buffer.freeStack
      ensures buffer.Valid()
      ensures buffer.taken == if fromPending then old(buffer.taken) else old(buffer.taken) - multiset{slot}
      ensures Abs() == AfterPlay(old(Abs()), fromPending)
      ensures Delivers(out, Played(f), env)
    {
      hide AudioBuffer.Valid, Abs;
      var frameSamples := |f.pcm|;
      if frameSamples > env.samples {
        frameSamples := env.samples;
      }
      out := f.pcm[..frameSamples];
      MarkPlayed();
      ReleaseItem(buffer, fromPending, slot);
    }

    /** One turn of the loop in audio_timing_read. */
    method TryOnce(buffer: AudioBuffer, env: Env) returns (done: Option<Event>, out: seq<Sample>, ghost leaked: bool)
      requires buffer.Valid()
      modifies this, buffer, buffer.sorted, buffer.freeStack
      ensures buffer.Valid()
      ensures Step(Abs(), buffer.contents, leaked, done) == Attempt(old(Abs()), old(buffer.contents), env)
      ensures |buffer.taken| == |old(buffer.taken)| + if leaked then 1 else 0
      ensures !leaked ==> buffer.taken == old(buffer.taken)
      ensures leaked ==> done.Some?
      ensures done.Some? ==> Delivers(out, done.value, env)
    {
      hide Act, Judge, AudioBuffer.Valid;
      out, leaked, done := [], false, None;
      var f, len, slot, fromPending := Frame(0, 0, []), 0, 0, false;
      if pendingValid {
        len := pendingLen;
        if len < FRAME_HEADER_BYTES {
          pendingValid := false;
          pendingLen := 0;
          return;
        }
        f, fromPending := pending, true;
      } else {
        var ok;
        ok, slot, f := buffer.Take();
        if !ok {
          done := Some(Idle);
          return;
        }
        len := f.Bytes();
        assert |old(buffer.taken) + multiset{slot}| == |old(buffer.taken)| + 1;
        assert old(buffer.taken) + multiset{slot} - multiset{slot} == old(buffer.taken);
      }
      done, out, leaked := Handle(buffer, env, f, len, slot, fromPending);
    }

    /** After a seek or flush frames play whatever their due time, unless they belong to the old
        position; the bypass ends once a frame is due or the time is up. */
    method JudgePostFlush(env: Env, earlyUs: int) returns (v: Verdict)
      requires postFlush
      modifies this`postFlush, this`postFlushStartUs
      ensures v == JudgeTime(old(Abs()), earlyUs, env)
      ensures Abs() == Count(old(Abs()), v, env)
    {
      if postFlushStartUs == 0 {
        postFlushStartUs := env.nowUs;
      }
      var elapsed := env.nowUs - postFlushStartUs;
      if earlyUs > POST_FLUSH_STALE_THRESHOLD_US {
        return StaleFlush;
      }
      if (earlyUs >= -TIMING_THRESHOLD_US && earlyUs <= TIMING_THRESHOLD_US) || elapsed >= POST_FLUSH_TIMEOUT_US {
        postFlush := false;
        postFlushStartUs := 0;
        return PlayAfterFlush(true);
      }
      return PlayAfterFlush(false);
    }

    /** The early/late part of the loop body: decide by the frame's due time and keep the counters. */
    method JudgeTiming(env: Env, ts: Uint32) returns (v: Verdict)
      modifies this`early, this`late, this`anchorValid, this`postFlush, this`postFlushStartUs
      ensures v == if old(anchorValid) && env.sampleRate > 0
                   then JudgeTime(old(Abs()), EarlyUs(old(Abs()), env, ts), env) else PlayNow
      ensures !v.Malformed? && !v.DeferredFlush?
      ensures Abs() == Count(old(Abs()), v, env)
    {
      hide EarlyUs;
      var timed, earlyUs := ComputeEarlyUs(env, ts);
      if !timed {
        return PlayNow;
      }
      if postFlush {
        v := JudgePostFlush(env, earlyUs);
        return;
      }
      if earlyUs > TIMING_THRESHOLD_US {
        early := early + 1;
        if early > MAX_CONSECUTIVE_EARLY {
          anchorValid := false;
          return GiveUpAnchor;
        }
        return Hold;
      }
      if earlyUs < -TIMING_THRESHOLD_US {
        early := 0;
        late := late + 1;
        return if -earlyUs > BULK_FLUSH_LATE_THRESHOLD_US || late > MAX_CONSECUTIVE_LATE then BulkFlush else DropLate;
      }
      return PlayNow;
    }

    /** Park the early frame in the pending copy when it fits. */
    method Park(buffer: AudioBuffer, f: Frame, len: nat, slot: nat, fromPending: bool) returns (ghost leaked: bool)
      requires buffer.Valid() && (!fromPending ==> slot in buffer.taken)
      modifies this`pending, this`pendingLen, this`pendingValid, buffer`freeTop, buffer`taken, buffer.freeStack
      ensures buffer.Valid() && leaked == (!fromPending && len > pendingCapacity)
      ensures Abs() == if fromPending || leaked then old(Abs())
                       else old(Abs()).(pendingValid := true, pending := f, pendingLen := len)
      ensures buffer.taken == if fromPending || leaked then old(buffer.taken) else old(buffer.taken) - multiset{slot}
    {
      hide AudioBuffer.Valid;
      leaked := !fromPending && len > pendingCapacity;
      if !fromPending && len <= pendingCapacity {
        pending, pendingLen, pendingValid := f, len, true;
        buffer.Return(slot);
      }
    }

    /** What the loop body does with the frame in hand. */
    method Handle(buffer: AudioBuffer, env: Env, f: Frame, len: nat, slot: nat, fromPending: bool)
      returns (done: Option<Event>, out: seq<Sample>, ghost leaked: bool)
      requires buffer.Valid() && (!fromPending ==> slot in buffer.taken)
      modifies this, buffer, buffer.freeStack
      ensures buffer.Valid()
      ensures Step(Abs(), buffer.contents, leaked, done)
           == Act(old(Abs()), old(buffer.contents), f, len, fromPending, env)
      ensures buffer.taken == if fromPending || leaked then old(buffer.taken) else old(buffer.taken) - multiset{slot}
      ensures leaked ==> done.Some? && !fromPending
      ensures done.Some? ==> Delivers(out, done.value, env)
    {
      hide AudioBuffer.Valid, JudgeTime, EarlyUs, TsCmp, WellFormed, Delivers;
      out, leaked, done := [], false, None;
      if !WellFormed(f, len, env) {
        ReleaseItem(buffer, fromPending, slot);
        return;
      }
      if deferred && TsCmp(f.Ts(), flushUntil) >= 0 {
        ThrowAway(buffer, fromPending, slot);
        DeferredFlushDone();
        done := Some(Flushed);
        assert Delivers([], Flushed, env) by { DeliversNothing(env); }
        return;
      }
      var v := JudgeTiming(env, f.Ts());
      done, out, leaked := Finish(buffer, env, f, len, slot, fromPending, v);
    }

    /** Hold, throw away, drop or play the frame in hand, as decided. */
    method Finish(buffer: AudioBuffer, env: Env, f: Frame, len: nat, slot: nat, fromPending: bool, v: Verdict)
      returns (done: Option<Event>, out: seq<Sample>, ghost leaked: bool)
      requires buffer.Valid() && (!fromPending ==> slot in buffer.taken)
      requires !v.Malformed? && !v.DeferredFlush?
      modifies this, buffer, buffer.freeStack
      ensures buffer.Valid()
      ensures Step(Abs(), buffer.contents, leaked, done)
           == Settle(old(Abs()), old(buffer.contents), f, len, fromPending, v)
      ensures buffer.taken == if fromPending || leaked then old(buffer.taken) else old(buffer.taken) - multiset{slot}
      ensures leaked ==> done.Some? && !fromPending
      ensures done.Some? ==> Delivers(out, done.value, env)
    {
      hide AudioBuffer.Valid;
      out, leaked, done := [], false, None;
      if v == Hold {
        leaked := Park(buffer, f, len, slot, fromPending);
        out := seq(env.samples, _ => seq(FrameChannels(f, env), _ => 0));
        done := Some(Silence);
      } else if v == StaleFlush || v == BulkFlush {
        ThrowAway(buffer, fromPending, slot);
        done := Some(Flushed);
      } else if v == DropLate {
        ReleaseItem(buffer, fromPending, slot);
      } else {
        out := Play(buffer, env, f, fromPending, slot);
        done := Some(Played(f));
      }
    }

    /** audio_timing_read */
    method ReadFrame(buffer: AudioBuffer, env: Env) returns (event: Event, out: seq<Sample>)
      requires buffer.Valid()
      modifies this, buffer, buffer.sorted, buffer.freeStack
      ensures buffer.Valid()
      ensures var r := Read(old(Abs()), old(buffer.contents), env);
              && Abs() == r.t && buffer.contents == r.q && event == r.event
              && |buffer.taken| == |old(buffer.taken)| + (if r.leaked then 1 else 0)
              && (!r.leaked ==> buffer.taken == old(buffer.taken))
      ensures Delivers(out, event, env)
    {
      hide Attempt, AudioBuffer.Valid;
      event, out := Idle, [];
      if env.samples == 0 || !playing {
        return;
      }
      if !playoutStarted && !pendingValid {
        var bufferedFrames := buffer.FrameCount();
        if bufferedFrames < targetFrames {
          return;
        }
        if !anchorValid {
          if readyTimeUs == 0 {
            readyTimeUs := env.nowUs;
          }
          if env.nowUs - readyTimeUs < STARTUP_ANCHOR_WAIT_US {
            return;
          }
        }
      }
      ghost var goal := Attempts(Abs(), buffer.contents, env, MAX_ATTEMPTS);
      assert goal == Read(old(Abs()), old(buffer.contents), env);
      var attempt := 0;
      while attempt < MAX_ATTEMPTS
        invariant attempt <= MAX_ATTEMPTS
        invariant buffer.Valid() && buffer.taken == old(buffer.taken)
        invariant goal == Attempts(Abs(), buffer.contents, env, MAX_ATTEMPTS - attempt)
      {
        var done, o;
        ghost var leaked;
        done, o, leaked := TryOnce(buffer, env);
        if done.Some? {
          event, out := done.value, o;
          return;
        }
        attempt := attempt + 1;
      }
    }
  }
}
