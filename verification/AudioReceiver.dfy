/** The receiver: every public call of the playout path as one atomic step, and the RTP window gates
    that keep the audio of an old position out after a seek. */
module AudioReceiver {
  import opened MachineIntegers
  import opened Rtp
  import opened AudioBuffer
  import opened AudioTiming

  const SEEK_FLUSH_SECONDS := 5
  const GATE_WINDOW_SECONDS := 10
  const DEFAULT_SAMPLE_RATE := 44100

  /** The receiver's state. `held` counts buffer slots the consumer never gave back. */
  datatype Receiver = Receiver(
    t: Timing,
    q: seq<Frame>,
    held: nat,
    capacity: nat,
    before: Uint32,
    beforeValid: bool,
    above: Uint32,
    aboveValid: bool,
    armOnNextAnchor: bool)

  /** Nothing queued, parked or out. */
  predicate Empty(r: Receiver) {
    r.q == [] && r.held == 0 && !r.t.pendingValid
  }

  /** The receiver as audio_receiver_init leaves it. */
  predicate Initial(r: Receiver) {
    && Empty(r)
    && r.t.playing && !r.t.anchorValid && r.t.early == 0 && r.t.late == 0 && !r.t.postFlush && !r.t.deferred
    && !r.beforeValid && !r.aboveValid && !r.armOnNextAnchor
  }

  /** abs() of a 32-bit int, as two's complement gives it: INT32_MIN has no positive counterpart. */
  function Abs32(x: int): int {
    if x >= 0 || x == -0x8000_0000 then x else -x
  }

  function EffectiveRate(sampleRate: int): int {
    if sampleRate <= 0 then DEFAULT_SAMPLE_RATE else sampleRate
  }

  /** The buffer's oldest frame is too far from a new anchor to belong to the same position. */
  predicate Displaced(q: seq<Frame>, rtp: Uint32, rate: int) {
    |q| > 0 && Abs32(TsCmp(q[0].Ts(), rtp)) > SEEK_FLUSH_SECONDS * rate
  }

  function ArmGates(r: Receiver, rtp: Uint32, rate: int): Receiver {
    r.(before := rtp, beforeValid := true,
       above := Wrap32(rtp + GATE_WINDOW_SECONDS * rate), aboveValid := true, armOnNextAnchor := false)
  }

  /** The seek check of set_anchor_time: throw a displaced buffer away and arm the gates. */
  function CheckSeek(r: Receiver, rtp: Uint32, rate: int): Receiver {
    if Displaced(r.q, rtp, rate) then
      ArmGates(r, rtp, rate).(q := [], t := ClearPending(r.t).(playoutStarted := false, readyTimeUs := 0))
    else r
  }

  /** audio_receiver_set_anchor_time */
  function SetAnchorTime(r: Receiver, nowUs: int, networkNs: Uint64, rtp: Uint32, sampleRate: int): Receiver {
    var rate := EffectiveRate(sampleRate);
    var r1 := CheckSeek(r, rtp, rate);
    var r2 := if r1.armOnNextAnchor then ArmGates(r1, rtp, rate) else r1;
    r2.(t := Anchored(r2.t, nowUs, networkNs, rtp))
  }

  /** audio_receiver_flush */
  function Flush(r: Receiver): Receiver {
    r.(q := [], t := Reset(r.t), beforeValid := false, aboveValid := false, armOnNextAnchor := false)
  }

  /** audio_receiver_seek_flush */
  function SeekFlush(r: Receiver): Receiver {
    var f := Flush(r);
    f.(t := f.t.(postFlush := true, postFlushStartUs := 0), armOnNextAnchor := true)
  }

  /** audio_receiver_set_deferred_flush */
  function SetDeferredFlush(r: Receiver, untilTs: Uint32): Receiver {
    r.(t := r.t.(flushUntil := untilTs, deferred := true))
  }

  /** The window gates at the head of audio_stream_process_frame: a gate that a frame passes is disarmed. */
  function Gate(r: Receiver, ts: Uint32): (Receiver, bool) {
    if r.beforeValid && TsCmp(ts, r.before) < 0 then (r, false)
    else
      var r1 := r.(beforeValid := false);
      if r1.aboveValid && TsCmp(ts, r1.above) > 0 then (r1, false)
      else (r1.(aboveValid := false), true)
  }

  /** audio_stream_process_frame for a frame that decodes to `pcm` (nothing, when decoding fails). */
  function ProcessFrame(r: Receiver, at: int, channels: int, pcm: seq<Sample>): (Receiver, bool) {
    var (r1, pass) := Gate(r, Wrap32(at));
    if !pass || |pcm| == 0 then (r1, false)
    else
      var (q, ok) := QueueDecoded(r1.q, r1.capacity, r1.held, at, channels, pcm);
      (r1.(q := q), ok)
  }

  /** audio_receiver_read */
  function ReadAudio(r: Receiver, env: Env): (Receiver, Event) {
    var o := Read(r.t, r.q, env);
    (r.(t := o.t, q := o.q, held := r.held + if o.leaked then 1 else 0), o.event)
  }

  class AudioReceiver {
    const buffer: AudioBuffer
    const timing: AudioTiming
    var sampleRate: int
    var discardBeforeRtp: Uint32
    var discardBeforeRtpValid: bool
    var discardAboveRtp: Uint32
    var discardAboveRtpValid: bool
    var armGateOnNextAnchor: bool

    ghost function Abs(): Receiver
      reads this, timing, buffer
    {
      Receiver(timing.Abs(), buffer.contents, |buffer.taken|, buffer.capacity,
               discardBeforeRtp, discardBeforeRtpValid, discardAboveRtp, discardAboveRtpValid, armGateOnNextAnchor)
    }

    ghost predicate Valid()
      reads this, buffer, buffer.pool, buffer.sorted, buffer.freeStack
    {
      buffer.Valid()
    }

    /** audio_receiver_init */
    constructor (capacity: nat, pendingCapacity: nat, targetFrames: nat, sampleRate: int)
      ensures Valid() && fresh(buffer) && fresh(timing)
      ensures Initial(Abs()) && Abs().capacity == capacity
      ensures Abs().t.pendingCapacity == pendingCapacity && Abs().t.targetFrames == targetFrames
    {
      buffer := new AudioBuffer(capacity);
      timing := new AudioTiming(pendingCapacity, targetFrames);
      this.sampleRate := sampleRate;
      discardBeforeRtp, discardBeforeRtpValid, discardAboveRtp, discardAboveRtpValid := 0, false, 0, false;
      armGateOnNextAnchor := false;
    }

    method ArmBothGates(rtp: Uint32, rate: int)
      modifies this
      ensures Abs() == ArmGates(old(Abs()), rtp, rate) && sampleRate == old(sampleRate)
    {
      discardBeforeRtp, discardBeforeRtpValid := rtp, true;
      discardAboveRtp, discardAboveRtpValid := Wrap32(rtp + GATE_WINDOW_SECONDS * rate), true;
      armGateOnNextAnchor := false;
    }

    method DetectSeek(rtp: Uint32, rate: int)
      requires Valid()
      modifies this, timing, buffer, buffer.freeStack
      ensures Valid() && sampleRate == old(sampleRate)
      ensures Abs() == CheckSeek(old(Abs()), rtp, rate)
    {
      hide AudioBuffer.Valid, TsCmp, Abs32;
      var has, oldest := buffer.OldestTimestamp();
      if has {
        var rtpAhead := TsCmp(oldest, rtp);
        if Abs32(rtpAhead) > SEEK_FLUSH_SECONDS * rate {
          buffer.Flush();
          timing.ForgetPlayout();
          ArmBothGates(rtp, rate);
        }
      }
    }

    method SetAnchor(nowUs: int, networkNs: Uint64, rtp: Uint32)
      requires Valid()
      modifies this, timing, buffer, buffer.freeStack
      ensures Valid()
      ensures Abs() == SetAnchorTime(old(Abs()), nowUs, networkNs, rtp, old(sampleRate))
    {
      hide AudioBuffer.Valid, CheckSeek, Anchored;
      var rate := sampleRate;
      if rate <= 0 {
        rate := DEFAULT_SAMPLE_RATE;
      }
      DetectSeek(rtp, rate);
      if armGateOnNextAnchor {
        ArmBothGates(rtp, rate);
      }
      timing.SetAnchor(nowUs, networkNs, rtp);
    }

    method FlushAll()
      requires Valid()
      modifies this, timing, buffer, buffer.freeStack
      ensures Valid()
      ensures Abs() == Flush(old(Abs()))
    {
      hide AudioBuffer.Valid;
      buffer.Flush();
      timing.ResetAll();
      discardBeforeRtpValid, discardAboveRtpValid, armGateOnNextAnchor := false, false, false;
    }

    method ResetTiming()
      requires Valid()
      modifies timing
      ensures Valid()
      ensures Abs() == old(Abs()).(t := Reset(old(Abs()).t))
    {
      hide AudioBuffer.Valid;
      timing.ResetAll();
    }

    /** audio_receiver_set_format and audio_receiver_set_output_latency_us, as far as playout goes. */
    method SetTargets(f: Format, latencyUs: Uint32)
      requires Valid()
      modifies timing
      ensures Valid()
      ensures Abs() == old(Abs()).(t := Retargeted(old(Abs()).t, f, latencyUs))
    {
      hide AudioBuffer.Valid, Retargeted;
      timing.UpdateTargets(f, latencyUs);
    }

    method FlushForSeek()
      requires Valid()
      modifies this, timing, buffer, buffer.freeStack
      ensures Valid()
      ensures Abs() == SeekFlush(old(Abs()))
    {
      hide AudioBuffer.Valid;
      FlushAll();
      timing.postFlush, timing.postFlushStartUs := true, 0;
      armGateOnNextAnchor := true;
    }

    method ArmDeferredFlush(untilTs: Uint32)
      requires Valid()
      modifies timing
      ensures Valid()
      ensures Abs() == SetDeferredFlush(old(Abs()), untilTs)
    {
      hide AudioBuffer.Valid;
      timing.flushUntil := untilTs;
      timing.deferred := true;
    }

    method PassGates(ts: Uint32) returns (pass: bool)
      modifies this
      ensures (Abs(), pass) == Gate(old(Abs()), ts)
    {
      hide TsCmp;
      if discardBeforeRtpValid {
        if TsCmp(ts, discardBeforeRtp) < 0 {
          return false;
        }
        discardBeforeRtpValid := false;
      }
      if discardAboveRtpValid {
        if TsCmp(ts, discardAboveRtp) > 0 {
          return false;
        }
        discardAboveRtpValid := false;
      }
      return true;
    }

    method ProcessDecoded(at: int, channels: int, pcm: seq<Sample>) returns (queued: bool)
      requires Valid()
      modifies this, buffer, buffer.pool, buffer.sorted, buffer.freeStack
      ensures Valid()
      ensures (Abs(), queued) == ProcessFrame(old(Abs()), at, channels, pcm)
    {
      hide AudioBuffer.Valid, TsCmp, QueueDecoded, Gate;
      var pass := PassGates(Wrap32(at));
      if !pass || |pcm| == 0 {
        return false;
      }
      queued := buffer.QueueDecodedPacket(at, channels, pcm);
    }

    method ReadSamples(env: Env) returns (event: Event, out: seq<Sample>)
      requires Valid()
      modifies timing, buffer, buffer.sorted, buffer.freeStack
      ensures Valid()
      ensures (Abs(), event) == ReadAudio(old(Abs()), env)
      ensures Delivers(out, event, env)
    {
      hide AudioBuffer.Valid, Read, Delivers;
      event, out := timing.ReadFrame(buffer, env);
    }
  }
}
