/** What becomes of the next frame, case by case in the units of the source, and what that means for a
    whole read: when it plays, waits, skips late frames or throws the buffer away. */
module FrameFates {
  import opened Rtp
  import opened AudioBuffer
  import opened AudioTiming
  import opened OnTimePlayout
  import opened Wrappers

  /** A frame is in hand, its size is right, and it is short of any flush point. */
  predicate SoundInHand(t: Timing, q: seq<Frame>, env: Env) {
    && InHand(t, q).Some?
    && WellFormed(InHand(t, q).value.0, InHand(t, q).value.1, env)
    && !(t.deferred && TsCmp(InHand(t, q).value.0.Ts(), t.flushUntil) >= 0)
  }

  /** The buffer without the frame in hand. */
  function Others(t: Timing, q: seq<Frame>): seq<Frame> {
    if t.pendingValid || q == [] then q else q[1..]
  }

  /** The state with nothing parked. */
  function Unparked(t: Timing): Timing {
    if t.pendingValid then t.(pendingValid := false, pendingLen := 0) else t
  }

  /** The frame in hand was played: nothing is parked, the others wait, the counters start over. */
  function PlaysFrame(t: Timing, f: Frame, others: seq<Frame>): Step {
    Step(Unparked(t).(playoutStarted := true, early := 0, late := 0), others, false, Some(Played(f)))
  }

  /** One early frame more: parked if it fits, still parked if it was, else its slot stays out. */
  function Waits(t: Timing, f: Frame, len: nat, others: seq<Frame>): Step {
    var t1 := t.(early := t.early + 1);
    if t.pendingValid then Step(t1, others, false, Some(Silence))
    else if len > t.pendingCapacity then Step(t1, others, true, Some(Silence))
    else Step(t1.(pendingValid := true, pending := f, pendingLen := len), others, false, Some(Silence))
  }

  /** Everything was thrown away and playout starts over. */
  function ThrowsAway(t: Timing): Step {
    Step(Unparked(t).(playoutStarted := false, readyTimeUs := 0, early := 0, late := 0), [], false, Some(Flushed))
  }

  // ---------- one frame ----------

  /** After a seek or flush a frame up to ten seconds early, or late, is played at once, and one beyond
      that throws everything away. The mode ends with a frame due within 40 ms, or half a second after
      the first frame. */
  lemma {:induction false} FateAfterFlush(t: Timing, q: seq<Frame>, env: Env)
    requires t.anchorValid && env.sampleRate > 0 && t.postFlush && SoundInHand(t, q, env)
    ensures var f := InHand(t, q).value.0;
      var early, s := EarlyUs(t, env, f.Ts()), Attempt(t, q, env);
      var since := if t.postFlushStartUs == 0 then env.nowUs else t.postFlushStartUs;
      && (early > 10000000 ==> s == ThrowsAway(t.(postFlushStartUs := since)))
      && (40000 < early <= 10000000 || early < -40000 ==>
            s == if env.nowUs - since < 500000 then PlaysFrame(t.(postFlushStartUs := since), f, Others(t, q))
                 else PlaysFrame(t.(postFlush := false, postFlushStartUs := 0), f, Others(t, q)))
      && (-40000 <= early <= 40000 ==>
            s == PlaysFrame(t.(postFlush := false, postFlushStartUs := 0), f, Others(t, q)))
  {
    hide EarlyUs, TsCmp, WellFormed;
  }

  /** With timing in force a frame more than 40 ms early waits, the 751st such in a row is played and the
      anchor forgotten; one more than 40 ms late is dropped alone, unless it is two seconds late or the
      17th such in a row, when everything is thrown away; any other is played. */
  lemma {:induction false} FateInTime(t: Timing, q: seq<Frame>, env: Env)
    requires Timed(t, env) && SoundInHand(t, q, env)
    ensures var (f, len) := InHand(t, q).value;
      var early, s := EarlyUs(t, env, f.Ts()), Attempt(t, q, env);
      && (-40000 <= early <= 40000 ==> s == PlaysFrame(t, f, Others(t, q)))
      && (early > 40000 && t.early >= 750 ==> s == PlaysFrame(t.(anchorValid := false), f, Others(t, q)))
      && (early > 40000 && t.early < 750 ==> s == Waits(t, f, len, Others(t, q)))
      && (-2000000 <= early < -40000 && t.late < 16 ==>
            s == Step(Unparked(t).(early := 0, late := t.late + 1), Others(t, q), false, None))
      && (early < -2000000 || (early < -40000 && t.late >= 16) ==> s == ThrowsAway(t))
  {
    hide EarlyUs, TsCmp, WellFormed;
  }

  /** Without an anchor a sound frame is played at once. */
  lemma {:induction false} FateWithoutAnchor(t: Timing, q: seq<Frame>, env: Env)
    requires !(t.anchorValid && env.sampleRate > 0) && SoundInHand(t, q, env)
    ensures Attempt(t, q, env) == PlaysFrame(t, InHand(t, q).value.0, Others(t, q))
  {
    hide TsCmp, WellFormed;
  }

  /** A frame at or past an armed flush point throws everything away, itself included; the flush is done
      and the next frames play at once. */
  lemma {:induction false} FateAtFlushPoint(t: Timing, q: seq<Frame>, env: Env)
    requires InHand(t, q).Some? && WellFormed(InHand(t, q).value.0, InHand(t, q).value.1, env)
    requires t.deferred && TsCmp(InHand(t, q).value.0.Ts(), t.flushUntil) >= 0
    ensures Attempt(t, q, env) == ThrowsAway(t.(deferred := false, postFlush := true, postFlushStartUs := 0))
  {
    hide TsCmp, WellFormed;
  }

  /** A frame without samples, without channels or shorter than it says is dropped alone. */
  lemma {:induction false} FateOfMalformed(t: Timing, q: seq<Frame>, env: Env)
    requires InHand(t, q).Some?
    requires var (f, len) := InHand(t, q).value;
      var channels := if f.channels != 0 then f.channels else env.channels;
      |f.pcm| == 0 || channels == 0 || len < 8 + |f.pcm| * channels * 2
    ensures Attempt(t, q, env) == Step(Unparked(t), Others(t, q), false, None)
  {
  }

  /** A chunk that came through the buffer is none of these. */
  lemma QueuedFramesAreSound(f: Frame, env: Env)
    requires |f.pcm| > 0 && f.channels > 0
    ensures WellFormed(f, f.Bytes(), env)
  {
  }

  // ---------- one read ----------

  /** The start-up gate is passed: playout runs, or a frame is parked, or the buffer has filled up and
      there is an anchor. */
  predicate Open(t: Timing, q: seq<Frame>, env: Env) {
    && env.samples > 0 && t.playing
    && (t.playoutStarted || t.pendingValid || (|q| >= t.targetFrames && t.anchorValid))
  }

  /** Exactly when nothing is given up to the loop: no room, paused, or, before the start, too few frames
      or no anchor for a second after there were enough. Nothing is lost by it. */
  lemma {:induction false} ReadWaits(t: Timing, q: seq<Frame>, env: Env)
    ensures var starting := !t.playoutStarted && !t.pendingValid;
      var since := if t.readyTimeUs == 0 then env.nowUs else t.readyTimeUs;
      && (env.samples == 0 || !t.playing || (starting && |q| < t.targetFrames) ==>
            Read(t, q, env) == Outcome(t, q, false, Idle))
      && (env.samples > 0 && t.playing && starting && |q| >= t.targetFrames && !t.anchorValid ==>
            Read(t, q, env) == if env.nowUs - since < 1000000
                               then Outcome(t.(readyTimeUs := since), q, false, Idle)
                               else Attempts(t.(readyTimeUs := since), q, env, 8))
      && (Open(t, q, env) ==> Read(t, q, env) == Attempts(t, q, env, 8))
  {
    hide Attempts;
  }

  /** The first attempt decides the read unless it drops its frame. */
  lemma {:induction false} FirstDecides(t: Timing, q: seq<Frame>, env: Env, n: nat)
    requires n > 0 && Attempt(t, q, env).done.Some?
    ensures var s := Attempt(t, q, env); Attempts(t, q, env, n) == Outcome(s.t, s.q, s.leaked, s.done.value)
  {
    hide Attempt;
  }

  /** A read that finds its frame more than ten seconds early after a flush, or two seconds late, or late
      for the 17th time in a row, gives nothing and throws everything away; after a flush the next frames
      still play at once. */
  lemma {:induction false} ReadThrowsAway(t: Timing, q: seq<Frame>, env: Env)
    requires Open(t, q, env) && SoundInHand(t, q, env) && t.anchorValid && env.sampleRate > 0
    requires var early := EarlyUs(t, env, InHand(t, q).value.0.Ts());
      if t.postFlush then early > 10000000 else early < -2000000 || (early < -40000 && t.late >= 16)
    ensures var o := Read(t, q, env);
      && o.event == Flushed && o.q == [] && !o.leaked && !o.t.pendingValid && !o.t.playoutStarted
      && o.t.postFlush == t.postFlush && o.t.anchorValid && o.t.early == o.t.late == 0
  {
    hide EarlyUs, WellFormed, Attempts, Attempt, Read;
    ReadWaits(t, q, env);
    if t.postFlush {
      FateAfterFlush(t, q, env);
    } else {
      FateInTime(t, q, env);
    }
    FirstDecides(t, q, env, 8);
  }

  /** The first `k` frames queued are sound and 40 ms to two seconds late. */
  ghost predicate LateFrames(t: Timing, q: seq<Frame>, env: Env, k: nat)
    requires env.sampleRate > 0
  {
    k <= |q| && forall i :: 0 <= i < k ==>
      && WellFormed(q[i], q[i].Bytes(), env) && !t.deferred
      && -2000000 <= EarlyUs(t, env, q[i].Ts()) < -40000
  }

  lemma LateFrameGoes(t: Timing, q: seq<Frame>, env: Env, k: nat)
    requires Timed(t, env) && !t.pendingValid && 0 < k && LateFrames(t, q, env, k) && t.late < 16
    ensures var t1 := t.(early := 0, late := t.late + 1);
      && Attempt(t, q, env) == Step(t1, q[1..], false, None)
      && Timed(t1, env) && LateFrames(t1, q[1..], env, k - 1)
      && forall ts :: EarlyUs(t1, env, ts) == EarlyUs(t, env, ts)
  {
    hide EarlyUs, TsCmp, WellFormed, Attempt;
    var t1 := t.(early := 0, late := t.late + 1);
    FateInTime(t, q, env);
    forall ts ensures EarlyUs(t1, env, ts) == EarlyUs(t, env, ts) {
      SameAnchorSameTime(t, t1, env, ts);
    }
    assert forall i :: 0 <= i < k - 1 ==> q[1..][i] == q[i + 1];
  }

  /** Late frames are dropped one by one, as many as the attempts of a read allow; when a due frame comes
      before that, it is the one played. */
  lemma {:induction false} LateFramesAreSkipped(t: Timing, q: seq<Frame>, env: Env, k: nat, n: nat)
    requires Timed(t, env) && !t.pendingValid && k <= n && LateFrames(t, q, env, k) && t.late + k <= 16
    ensures var o := Attempts(t, q, env, n);
      && (k == n ==> o == Outcome(if k == 0 then t else t.(early := 0, late := t.late + k), q[k..], false, Idle))
      && (k < n && k < |q| && WellFormed(q[k], q[k].Bytes(), env) && !t.deferred
            && -40000 <= EarlyUs(t, env, q[k].Ts()) <= 40000 ==>
            o.event == Played(q[k]) && o.q == q[k + 1..] && !o.leaked && o.t.early == o.t.late == 0)
    decreases n
  {
    hide EarlyUs, TsCmp, WellFormed, Attempt;
    if k > 0 {
      LateFrameGoes(t, q, env, k);
      LateFramesAreSkipped(t.(early := 0, late := t.late + 1), q[1..], env, k - 1, n - 1);
      assert q[1..][k - 1..] == q[k..];
      if k < |q| {
        assert q[1..][k - 1] == q[k] && q[1..][k..] == q[k + 1..];
      }
    } else {
      assert q[0..] == q;
      if n > 0 && |q| > 0 && WellFormed(q[0], q[0].Bytes(), env) && !t.deferred
         && -40000 <= EarlyUs(t, env, q[0].Ts()) <= 40000 {
        FateInTime(t, q, env);
      }
    }
  }

  /** One read skips at most eight late frames. */
  lemma {:induction false} ReadSkipsLateFrames(t: Timing, q: seq<Frame>, env: Env, k: nat)
    requires Timed(t, env) && !t.pendingValid && Open(t, q, env)
    requires k <= 8 && LateFrames(t, q, env, k) && t.late + k <= 16
    ensures var o := Read(t, q, env);
      && (k == 8 ==> o == Outcome(t.(early := 0, late := t.late + 8), q[8..], false, Idle))
      && (k < 8 && k < |q| && WellFormed(q[k], q[k].Bytes(), env) && !t.deferred
            && -40000 <= EarlyUs(t, env, q[k].Ts()) <= 40000 ==>
            o.event == Played(q[k]) && o.q == q[k + 1..] && !o.leaked)
  {
    hide EarlyUs, WellFormed, Attempts, LateFrames, Read;
    ReadWaits(t, q, env);
    LateFramesAreSkipped(t, q, env, k, 8);
  }
}
