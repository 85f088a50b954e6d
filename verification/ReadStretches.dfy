/** Stretches of reads with nothing else in between: an early frame waits until it is due, frames after a
    seek play until the clock has settled, and nothing sounds before the start or in a pause. */
module ReadStretches {
  import opened Rtp
  import opened AudioBuffer
  import opened AudioTiming
  import opened AudioReceiver
  import opened FrameFates
  import opened OnTimePlayout
  import opened PlayoutRuns

  function Reads(envs: seq<Env>): (calls: seq<Call>)
    ensures |calls| == |envs|
  {
    seq(|envs|, i requires 0 <= i < |envs| => ReadCall(envs[i]))
  }

  lemma ReadsTail(envs: seq<Env>)
    requires envs != []
    ensures Reads(envs)[0] == ReadCall(envs[0]) && Reads(envs)[1..] == Reads(envs[1..])
  {
  }

  /** Events of one read and the rest. */
  lemma OneMore(r: Receiver, envs: seq<Env>)
    requires envs != []
    ensures var (r1, e) := ReadAudio(r, envs[0]);
      && Run(r, Reads(envs)) == Run(r1, Reads(envs[1..]))
      && Events(r, Reads(envs)) == [e] + Events(r1, Reads(envs[1..]))
  {
    hide ReadAudio;
    ReadsTail(envs);
  }

  lemma {:induction false} AsManyEvents(r: Receiver, calls: seq<Call>)
    ensures |Events(r, calls)| == |calls|
    decreases |calls|
  {
    hide After;
    if calls != [] {
      AsManyEvents(After(r, calls[0]).0, calls[1..]);
    }
  }

  // ---------- an early frame waits ----------

  /** A read that finds frame f, of `len` bytes, more than 40 ms early. */
  ghost predicate FindsEarly(t: Timing, f: Frame, len: nat, env: Env) {
    && env.samples > 0 && env.sampleRate > 0 && WellFormed(f, len, env)
    && EarlyUs(t, env, f.Ts()) > 40000
  }

  /** Playout runs by an anchor that has settled, and no flush point is armed. */
  predicate Steady(r: Receiver) {
    r.t.playing && r.t.anchorValid && !r.t.postFlush && !r.t.deferred
  }

  /** The parked frame waits, 750 early reads in a row at most, and nothing else changes. */
  lemma {:induction false} ParkedFrameWaits(r: Receiver, envs: seq<Env>)
    requires Steady(r) && r.t.pendingValid && r.t.pendingLen >= 8 && r.t.early + |envs| <= 750
    requires forall i :: 0 <= i < |envs| ==> FindsEarly(r.t, r.t.pending, r.t.pendingLen, envs[i])
    ensures Run(r, Reads(envs)) == r.(t := r.t.(early := r.t.early + |envs|))
    ensures forall e :: e in Events(r, Reads(envs)) ==> e == Silence
    decreases |envs|
  {
    hide EarlyUs, WellFormed, ReadAudio;
    if envs != [] {
      var r1 := r.(t := r.t.(early := r.t.early + 1));
      OneMore(r, envs);
      ParkedFrameStays(r, envs[0]);
      forall i | 0 <= i < |envs| - 1 ensures FindsEarly(r1.t, r.t.pending, r.t.pendingLen, envs[1..][i]) {
        SameAnchorSameTime(r.t, r1.t, envs[i + 1], r.t.pending.Ts());
      }
      ParkedFrameWaits(r1, envs[1..]);
    }
  }

  lemma ParkedFrameStays(r: Receiver, env: Env)
    requires Steady(r) && r.t.pendingValid && r.t.pendingLen >= 8 && r.t.early < 750
    requires FindsEarly(r.t, r.t.pending, r.t.pendingLen, env)
    ensures ReadAudio(r, env) == (r.(t := r.t.(early := r.t.early + 1)), Silence)
  {
    hide EarlyUs, WellFormed, Attempts, Attempt, Read;
    FateInTime(r.t, r.q, env);
    ReadWaits(r.t, r.q, env);
    FirstDecides(r.t, r.q, env, 8);
  }

  /** An early frame at the front of the buffer is played by the first read that finds it due within
      40 ms, and the frames behind it are still there; had 750 reads found it early, the next one plays it
      all the same and forgets the anchor. */
  lemma {:induction false} EarlyFrameIsPlayedWhenDue(r: Receiver, envs: seq<Env>, env: Env)
    requires Steady(r) && r.t.playoutStarted && !r.t.pendingValid && r.q != [] && envs != []
    requires r.q[0].Bytes() <= r.t.pendingCapacity && r.t.early + |envs| <= 750
    requires forall i :: 0 <= i < |envs| ==> FindsEarly(r.t, r.q[0], r.q[0].Bytes(), envs[i])
    requires env.samples > 0 && env.sampleRate > 0 && WellFormed(r.q[0], r.q[0].Bytes(), env)
    ensures forall e :: e in Events(r, Reads(envs)) ==> e == Silence
    ensures var early, (r1, e) := EarlyUs(r.t, env, r.q[0].Ts()), ReadAudio(Run(r, Reads(envs)), env);
      && (-40000 <= early <= 40000 ==> e == Played(r.q[0]) && r1.q == r.q[1..] && r1.t.anchorValid)
      && (early > 40000 && r.t.early + |envs| == 750 ==> e == Played(r.q[0]) && r1.q == r.q[1..] && !r1.t.anchorValid)
  {
    hide EarlyUs, WellFormed, ReadAudio;
    var f, len := r.q[0], r.q[0].Bytes();
    var parked := r.(q := r.q[1..],
                     t := r.t.(early := r.t.early + 1, pendingValid := true, pending := f, pendingLen := len));
    OneMore(r, envs);
    FrameIsParked(r, envs[0]);
    forall i | 0 <= i < |envs| - 1 ensures FindsEarly(parked.t, f, len, envs[1..][i]) {
      SameAnchorSameTime(r.t, parked.t, envs[i + 1], f.Ts());
    }
    ParkedFrameWaits(parked, envs[1..]);
    var last := parked.(t := parked.t.(early := r.t.early + |envs|));
    SameAnchorSameTime(r.t, last.t, env, f.Ts());
    ParkedFrameEnds(last, env);
  }

  lemma FrameIsParked(r: Receiver, env: Env)
    requires Steady(r) && r.t.playoutStarted && !r.t.pendingValid && r.q != [] && r.t.early < 750
    requires r.q[0].Bytes() <= r.t.pendingCapacity && FindsEarly(r.t, r.q[0], r.q[0].Bytes(), env)
    ensures ReadAudio(r, env) ==
      (r.(q := r.q[1..], t := r.t.(early := r.t.early + 1, pendingValid := true, pending := r.q[0],
                                   pendingLen := r.q[0].Bytes())), Silence)
  {
    hide EarlyUs, WellFormed, Attempts, Attempt, Read;
    FateInTime(r.t, r.q, env);
    ReadWaits(r.t, r.q, env);
    FirstDecides(r.t, r.q, env, 8);
  }

  lemma ParkedFrameEnds(r: Receiver, env: Env)
    requires Steady(r) && r.t.pendingValid && r.t.pendingLen >= 8 && env.samples > 0 && env.sampleRate > 0
    requires WellFormed(r.t.pending, r.t.pendingLen, env)
    ensures var early, (r1, e) := EarlyUs(r.t, env, r.t.pending.Ts()), ReadAudio(r, env);
      && (-40000 <= early <= 40000 ==> e == Played(r.t.pending) && r1.q == r.q && r1.t.anchorValid)
      && (early > 40000 && r.t.early >= 750 ==> e == Played(r.t.pending) && r1.q == r.q && !r1.t.anchorValid)
  {
    hide EarlyUs, WellFormed, Attempts, Attempt, Read;
    FateInTime(r.t, r.q, env);
    ReadWaits(r.t, r.q, env);
    if Attempt(r.t, r.q, env).done.Some? {
      FirstDecides(r.t, r.q, env, 8);
    }
  }

  // ---------- after a seek ----------

  /** A read for which frame f is sound and, by the anchor, late or up to ten seconds early. */
  ghost predicate FindsNear(t: Timing, f: Frame, env: Env) {
    && env.samples > 0 && env.sampleRate > 0 && WellFormed(f, f.Bytes(), env)
    && EarlyUs(t, env, f.Ts()) <= 10000000
  }

  /** The read ends the mode after a flush that began at `since`. */
  ghost predicate Settles(t: Timing, f: Frame, env: Env, since: int) {
    (env.sampleRate > 0 && -40000 <= EarlyUs(t, env, f.Ts()) <= 40000) || env.nowUs - since >= 500000
  }

  /** After a seek, once playout has started or the buffer has filled up to its target: the reads play the
      buffer front to back without waiting for due times, up to and including the first that finds its
      frame due or comes half a second after the first. The mode ends with that one and not before. */
  lemma {:induction false} PlaysUntilSettled(r: Receiver, envs: seq<Env>, since: int)
    requires r.t.playing && r.t.anchorValid && r.t.postFlush && !r.t.deferred && !r.t.pendingValid
    requires r.t.playoutStarted || |r.q| >= r.t.targetFrames
    requires envs != [] && |envs| <= |r.q|
    requires since > 0 && since == (if r.t.postFlushStartUs == 0 then envs[0].nowUs else r.t.postFlushStartUs)
    requires forall i :: 0 <= i < |envs| ==> FindsNear(r.t, r.q[i], envs[i])
    requires forall i :: 0 <= i < |envs| - 1 ==> !Settles(r.t, r.q[i], envs[i], since)
    ensures Run(r, Reads(envs)).q == r.q[|envs|..]
    ensures |Events(r, Reads(envs))| == |envs|
    ensures forall i :: 0 <= i < |envs| ==> Events(r, Reads(envs))[i] == Played(r.q[i])
    ensures Run(r, Reads(envs)).t.postFlush <==> !Settles(r.t, r.q[|envs| - 1], envs[|envs| - 1], since)
    decreases |envs|
  {
    hide FindsNear, Settles, ReadAudio, Run, Events, Reads, SameAnchor;
    AsManyEvents(r, Reads(envs));
    OneMore(r, envs);
    assert FindsNear(r.t, r.q[0], envs[0]);
    PlaysAtOnce(r, envs[0], since);
    var (r1, e) := ReadAudio(r, envs[0]);
    var more := envs[1..];
    if more == [] {
      NoReads(r1);
    } else {
      assert r1.t.postFlush;
      forall i | 0 <= i < |more|
        ensures r1.q[i] == r.q[i + 1] && FindsNear(r1.t, r1.q[i], more[i])
        ensures Settles(r1.t, r1.q[i], more[i], since) <==> Settles(r.t, r.q[i + 1], envs[i + 1], since)
      {
        assert FindsNear(r.t, r.q[i + 1], envs[i + 1]);
        SameAnchorFinds(r.t, r1.t, r.q[i + 1], envs[i + 1], since);
      }
      PlaysUntilSettled(r1, more, since);
      assert r1.q[|more|..] == r.q[|envs|..];
    }
  }

  lemma NoReads(r: Receiver)
    ensures Run(r, Reads([])) == r && Events(r, Reads([])) == []
  {
  }

  lemma SameAnchorFinds(t: Timing, u: Timing, f: Frame, env: Env, since: int)
    requires SameAnchor(t, u) && FindsNear(t, f, env)
    ensures FindsNear(u, f, env)
    ensures Settles(u, f, env, since) <==> Settles(t, f, env, since)
  {
    hide EarlyUs, WellFormed;
    SameAnchorSameTime(t, u, env, f.Ts());
  }

  lemma PlaysAtOnce(r: Receiver, env: Env, since: int)
    requires r.t.playing && r.t.anchorValid && r.t.postFlush && !r.t.deferred && !r.t.pendingValid
    requires r.t.playoutStarted || |r.q| >= r.t.targetFrames
    requires r.q != [] && FindsNear(r.t, r.q[0], env)
    requires since == (if r.t.postFlushStartUs == 0 then env.nowUs else r.t.postFlushStartUs)
    ensures var (r1, e) := ReadAudio(r, env);
      && e == Played(r.q[0]) && r1.q == r.q[1..] && env.sampleRate > 0
      && r1.t.playing && r1.t.playoutStarted && !r1.t.deferred && !r1.t.pendingValid
      && (r1.t.postFlush <==> !Settles(r.t, r.q[0], env, since))
      && (r1.t.postFlush ==> r1.t.anchorValid && SameAnchor(r.t, r1.t) && r1.t.postFlushStartUs == since)
  {
    hide EarlyUs, WellFormed, Attempts, Attempt, Read;
    FateAfterFlush(r.t, r.q, env);
    ReadWaits(r.t, r.q, env);
    FirstDecides(r.t, r.q, env, 8);
  }

  // ---------- before the start, and in a pause ----------

  /** No call resumes playback. */
  ghost predicate NeverResumes(calls: seq<Call>) {
    forall c :: c in calls ==> !(c.Playing? && c.flag)
  }

  /** In a pause nothing is played or thrown away by any read, whatever else is called, and the frame
      parked before it is gone. */
  lemma {:induction false} PausedIsSilent(r: Receiver, calls: seq<Call>)
    requires NeverResumes(calls)
    ensures var paused := After(r, Playing(false)).0;
      && !paused.t.pendingValid && paused.q == r.q
      && (forall e :: e in Events(paused, calls) ==> e == Idle)
      && !Run(paused, calls).t.playing && !Run(paused, calls).t.pendingValid
  {
    hide Run, Events;
    StaysPaused(After(r, Playing(false)).0, calls);
  }

  lemma {:induction false} StaysPaused(r: Receiver, calls: seq<Call>)
    requires !r.t.playing && !r.t.pendingValid && NeverResumes(calls)
    ensures forall e :: e in Events(r, calls) ==> e == Idle
    ensures !Run(r, calls).t.playing && !Run(r, calls).t.pendingValid
    decreases |calls|
  {
    hide After;
    if calls != [] {
      StepStaysPaused(r, calls[0]);
      StaysPaused(After(r, calls[0]).0, calls[1..]);
    }
  }

  lemma StepStaysPaused(r: Receiver, c: Call)
    requires !r.t.playing && !r.t.pendingValid && !(c.Playing? && c.flag)
    ensures var (r1, e) := After(r, c); e == Idle && !r1.t.playing && !r1.t.pendingValid
  {
    hide QueueDecoded, TsCmp, Displaced, TargetFrames;
  }

  /** A receiver with neither anchor nor frames parked that has filled up to its target: reads within a
      second of the first one keep waiting, and the first one later than that plays the oldest frame. */
  lemma {:induction false} StartsWithoutAnchor(r: Receiver, envs: seq<Env>, env: Env)
    requires r.t.playing && !r.t.playoutStarted && !r.t.anchorValid && !r.t.pendingValid && !r.t.deferred
    requires r.t.readyTimeUs == 0 && |r.q| >= r.t.targetFrames && r.q != [] && envs != [] && envs[0].nowUs > 0
    requires forall i :: 0 <= i < |envs| ==> envs[i].samples > 0 && envs[i].nowUs - envs[0].nowUs < 1000000
    requires env.samples > 0 && env.nowUs - envs[0].nowUs >= 1000000 && WellFormed(r.q[0], r.q[0].Bytes(), env)
    ensures forall e :: e in Events(r, Reads(envs)) ==> e == Idle
    ensures ReadAudio(Run(r, Reads(envs)), env).1 == Played(r.q[0])
  {
    hide ReadAudio, WellFormed;
    var waiting := r.(t := r.t.(readyTimeUs := envs[0].nowUs));
    OneMore(r, envs);
    WaitsForAnchor(r, envs[0], envs[0].nowUs);
    WaitsOn(waiting, envs[1..]);
    StartsAnyway(waiting, env);
  }

  lemma WaitsForAnchor(r: Receiver, env: Env, since: int)
    requires r.t.playing && !r.t.playoutStarted && !r.t.anchorValid && !r.t.pendingValid
    requires |r.q| >= r.t.targetFrames && env.samples > 0
    requires since == (if r.t.readyTimeUs == 0 then env.nowUs else r.t.readyTimeUs) && env.nowUs - since < 1000000
    ensures ReadAudio(r, env) == (r.(t := r.t.(readyTimeUs := since)), Idle)
  {
    hide Read, Attempts;
    ReadWaits(r.t, r.q, env);
  }

  lemma {:induction false} WaitsOn(r: Receiver, envs: seq<Env>)
    requires r.t.playing && !r.t.playoutStarted && !r.t.anchorValid && !r.t.pendingValid
    requires |r.q| >= r.t.targetFrames && r.t.readyTimeUs > 0
    requires forall i :: 0 <= i < |envs| ==> envs[i].samples > 0 && envs[i].nowUs - r.t.readyTimeUs < 1000000
    ensures Run(r, Reads(envs)) == r && forall e :: e in Events(r, Reads(envs)) ==> e == Idle
    decreases |envs|
  {
    hide ReadAudio;
    if envs != [] {
      OneMore(r, envs);
      WaitsForAnchor(r, envs[0], r.t.readyTimeUs);
      WaitsOn(r, envs[1..]);
    }
  }

  lemma StartsAnyway(r: Receiver, env: Env)
    requires r.t.playing && !r.t.playoutStarted && !r.t.anchorValid && !r.t.pendingValid && !r.t.deferred
    requires |r.q| >= r.t.targetFrames && r.q != [] && r.t.readyTimeUs > 0
    requires env.samples > 0 && env.nowUs - r.t.readyTimeUs >= 1000000 && WellFormed(r.q[0], r.q[0].Bytes(), env)
    ensures ReadAudio(r, env).1 == Played(r.q[0])
  {
    hide Read, Attempts, Attempt, WellFormed;
    ReadWaits(r.t, r.q, env);
    FateWithoutAnchor(r.t, r.q, env);
    FirstDecides(r.t, r.q, env, 8);
  }
}
