/** A flush forgets: whatever came before, the receiver then behaves in every run like a new one that has
    the same slots out. */
module FreshStart {
  import opened MachineIntegers
  import opened Rtp
  import opened AudioBuffer
  import opened AudioTiming
  import opened AudioReceiver
  import opened PlayoutRuns

  /** Two states that differ at most in what their flags say is not there. */
  predicate Alike(t: Timing, u: Timing) {
    && t.targetFrames == u.targetFrames && t.playing == u.playing && t.playoutStarted == u.playoutStarted
    && t.readyTimeUs == u.readyTimeUs && t.early == u.early && t.late == u.late && t.postFlush == u.postFlush
    && t.postFlushStartUs == u.postFlushStartUs && t.pendingCapacity == u.pendingCapacity
    && t.anchorValid == u.anchorValid && t.pendingValid == u.pendingValid && t.deferred == u.deferred
    && (t.anchorValid ==>
          t.anchorNetworkNs == u.anchorNetworkNs && t.anchorRtp == u.anchorRtp && t.anchorLocalNs == u.anchorLocalNs)
    && (t.pendingValid ==> t.pending == u.pending && t.pendingLen == u.pendingLen)
    && (t.deferred ==> t.flushUntil == u.flushUntil)
  }

  predicate AlikeReceivers(r: Receiver, s: Receiver) {
    && Alike(r.t, s.t) && r.q == s.q && r.held == s.held && r.capacity == s.capacity
    && r.beforeValid == s.beforeValid && r.aboveValid == s.aboveValid && r.armOnNextAnchor == s.armOnNextAnchor
    && (r.beforeValid ==> r.before == s.before) && (r.aboveValid ==> r.above == s.above)
  }

  // ---------- reads ----------

  lemma SameDueTime(t: Timing, u: Timing, env: Env, ts: Uint32)
    requires Alike(t, u) && t.anchorValid && env.sampleRate > 0
    ensures EarlyUs(t, env, ts) == EarlyUs(u, env, ts)
  {
    hide TsCmp, CDiv;
  }

  lemma SameVerdict(t: Timing, u: Timing, f: Frame, len: nat, env: Env)
    requires Alike(t, u)
    ensures Judge(t, f, len, env) == Judge(u, f, len, env)
  {
    hide EarlyUs, TsCmp, WellFormed;
    if t.anchorValid && env.sampleRate > 0 {
      SameDueTime(t, u, env, f.Ts());
    }
  }

  lemma AlikeMeans(t: Timing, u: Timing)
    requires Alike(t, u)
    ensures t.early == u.early && t.late == u.late && t.postFlushStartUs == u.postFlushStartUs
    ensures t.pendingCapacity == u.pendingCapacity
  {
  }

  lemma MovedAlike(t: Timing, u: Timing, early: nat, late: nat)
    requires Alike(t, u)
    ensures Alike(t.(early := early, late := late), u.(early := early, late := late))
    ensures Alike(t.(early := early, anchorValid := false), u.(early := early, anchorValid := false))
  {
  }

  lemma SettledAlike(t: Timing, u: Timing, postFlush: bool, since: int)
    requires Alike(t, u)
    ensures Alike(t.(postFlush := postFlush, postFlushStartUs := since),
                  u.(postFlush := postFlush, postFlushStartUs := since))
    ensures Alike(t.(postFlushStartUs := since), u.(postFlushStartUs := since))
  {
  }

  lemma CountAlike(t: Timing, u: Timing, v: Verdict, env: Env)
    requires Alike(t, u)
    ensures Alike(Count(t, v, env), Count(u, v, env))
  {
    hide Alike;
    AlikeMeans(t, u);
    MovedAlike(t, u, t.early + 1, t.late);
    MovedAlike(t, u, 0, t.late + 1);
    SettledAlike(t, u, true, PostFlushStart(t, env));
    SettledAlike(t, u, false, 0);
  }

  lemma ReleaseAlike(t: Timing, u: Timing, fromPending: bool)
    requires Alike(t, u)
    ensures Alike(Release(t, fromPending), Release(u, fromPending))
  {
  }

  lemma FlushedAlike(t: Timing, u: Timing, fromPending: bool)
    requires Alike(t, u)
    ensures Alike(AfterFlush(t, fromPending), AfterFlush(u, fromPending))
  {
    hide Release;
    ReleaseAlike(t, u, fromPending);
  }

  lemma PlayedAlike(t: Timing, u: Timing, fromPending: bool)
    requires Alike(t, u)
    ensures Alike(AfterPlay(t, fromPending), AfterPlay(u, fromPending))
  {
    hide Release;
    ReleaseAlike(t, u, fromPending);
  }

  lemma ParkedAlike(t: Timing, u: Timing, f: Frame, len: nat)
    requires Alike(t, u)
    ensures Alike(t.(pendingValid := true, pending := f, pendingLen := len),
                  u.(pendingValid := true, pending := f, pendingLen := len))
    ensures Alike(t.(deferred := false, postFlush := true, postFlushStartUs := 0),
                  u.(deferred := false, postFlush := true, postFlushStartUs := 0))
  {
  }

  lemma SettleAlike(t: Timing, u: Timing, q: seq<Frame>, f: Frame, len: nat, fromPending: bool, v: Verdict)
    requires Alike(t, u)
    ensures var s, z := Settle(t, q, f, len, fromPending, v), Settle(u, q, f, len, fromPending, v);
      Alike(s.t, z.t) && s.q == z.q && s.leaked == z.leaked && s.done == z.done
  {
    hide Alike, Release, AfterFlush, AfterPlay;
    AlikeMeans(t, u);
    ReleaseAlike(t, u, fromPending);
    FlushedAlike(t, u, fromPending);
    PlayedAlike(t, u, fromPending);
    ParkedAlike(t, u, f, len);
    ParkedAlike(AfterFlush(t, fromPending), AfterFlush(u, fromPending), f, len);
  }

  lemma ActAlike(t: Timing, u: Timing, q: seq<Frame>, f: Frame, len: nat, fromPending: bool, env: Env)
    requires Alike(t, u)
    ensures var s, z := Act(t, q, f, len, fromPending, env), Act(u, q, f, len, fromPending, env);
      Alike(s.t, z.t) && s.q == z.q && s.leaked == z.leaked && s.done == z.done
  {
    hide Judge, Count, Settle, Alike;
    SameVerdict(t, u, f, len, env);
    var v := Judge(t, f, len, env);
    CountAlike(t, u, v, env);
    SettleAlike(Count(t, v, env), Count(u, v, env), q, f, len, fromPending, v);
  }

  lemma {:induction false} AttemptsAlike(t: Timing, u: Timing, q: seq<Frame>, env: Env, n: nat)
    requires Alike(t, u)
    ensures var o, p := Attempts(t, q, env, n), Attempts(u, q, env, n);
      Alike(o.t, p.t) && o.q == p.q && o.leaked == p.leaked && o.event == p.event
    decreases n
  {
    hide Act;
    if n > 0 {
      if t.pendingValid {
        ActAlike(t, u, q, t.pending, t.pendingLen, true, env);
      } else if q != [] {
        ActAlike(t, u, q[1..], q[0], q[0].Bytes(), false, env);
      }
      var s, z := Attempt(t, q, env), Attempt(u, q, env);
      if s.done.None? {
        AttemptsAlike(s.t, z.t, s.q, env, n - 1);
      }
    }
  }

  lemma {:induction false} ReadAlike(t: Timing, u: Timing, q: seq<Frame>, env: Env)
    requires Alike(t, u)
    ensures var o, p := Read(t, q, env), Read(u, q, env);
      Alike(o.t, p.t) && o.q == p.q && o.leaked == p.leaked && o.event == p.event
  {
    hide Attempts;
    AttemptsAlike(Gated(t, q, env), Gated(u, q, env), q, env, MAX_ATTEMPTS);
  }

  // ---------- runs ----------

  lemma FeedAlike(r: Receiver, s: Receiver, c: Call)
    requires AlikeReceivers(r, s) && c.Feed?
    ensures AlikeReceivers(After(r, c).0, After(s, c).0)
  {
    hide QueueDecoded, TsCmp, Alike;
  }

  lemma CheckSeekAlike(r: Receiver, s: Receiver, rtp: Uint32, rate: int)
    requires AlikeReceivers(r, s)
    ensures AlikeReceivers(CheckSeek(r, rtp, rate), CheckSeek(s, rtp, rate))
  {
    hide Displaced;
  }

  lemma NoteAnchorAlike(r: Receiver, s: Receiver, nowUs: int, networkNs: Uint64, rtp: Uint32)
    requires AlikeReceivers(r, s)
    ensures AlikeReceivers(r.(t := Anchored(r.t, nowUs, networkNs, rtp)), s.(t := Anchored(s.t, nowUs, networkNs, rtp)))
  {
  }

  lemma AnchorAlike(r: Receiver, s: Receiver, c: Call)
    requires AlikeReceivers(r, s) && c.Anchor?
    ensures AlikeReceivers(After(r, c).0, After(s, c).0) && After(r, c).1 == After(s, c).1
  {
    hide CheckSeek, Anchored, Alike;
    var rate := EffectiveRate(c.sampleRate);
    CheckSeekAlike(r, s, c.rtp, rate);
    var r1, s1 := CheckSeek(r, c.rtp, rate), CheckSeek(s, c.rtp, rate);
    NoteAnchorAlike(if r1.armOnNextAnchor then ArmGates(r1, c.rtp, rate) else r1,
                    if s1.armOnNextAnchor then ArmGates(s1, c.rtp, rate) else s1, c.nowUs, c.networkNs, c.rtp);
  }

  lemma FlushAlike(r: Receiver, s: Receiver, c: Call)
    requires AlikeReceivers(r, s) && (c.FlushCall? || c.SeekFlushCall? || c.ResetTiming?)
    ensures AlikeReceivers(After(r, c).0, After(s, c).0) && After(r, c).1 == After(s, c).1
  {
  }

  lemma SetPlayingAlike(t: Timing, u: Timing, flag: bool)
    requires Alike(t, u)
    ensures Alike(SetPlaying(t, flag), SetPlaying(u, flag))
  {
  }

  lemma RetargetAlike(t: Timing, u: Timing, f: Format, latencyUs: Uint32, untilTs: Uint32)
    requires Alike(t, u)
    ensures Alike(Retargeted(t, f, latencyUs), Retargeted(u, f, latencyUs))
    ensures Alike(t.(flushUntil := untilTs, deferred := true), u.(flushUntil := untilTs, deferred := true))
  {
    hide TargetFrames;
  }

  lemma FlagAlike(r: Receiver, s: Receiver, c: Call)
    requires AlikeReceivers(r, s) && (c.Playing? || c.Deferred? || c.Retarget?)
    ensures AlikeReceivers(After(r, c).0, After(s, c).0) && After(r, c).1 == After(s, c).1
  {
    hide Alike, SetPlaying, Retargeted;
    if c.Playing? {
      SetPlayingAlike(r.t, s.t, c.flag);
    } else if c.Deferred? {
      RetargetAlike(r.t, s.t, Format(0, 0, 0), 0, c.untilTs);
    } else {
      RetargetAlike(r.t, s.t, c.format, c.latencyUs, 0);
    }
  }

  lemma CallAlike(r: Receiver, s: Receiver, c: Call)
    requires AlikeReceivers(r, s)
    ensures AlikeReceivers(After(r, c).0, After(s, c).0) && After(r, c).1 == After(s, c).1
  {
    if c.Feed? {
      hide ProcessFrame;
      FeedAlike(r, s, c);
    } else if c.ReadCall? {
      hide Read, Alike;
      ReadAlike(r.t, s.t, r.q, c.env);
    } else if c.Anchor? {
      hide SetAnchorTime, AlikeReceivers;
      AnchorAlike(r, s, c);
    } else if c.Playing? || c.Deferred? || c.Retarget? {
      hide AlikeReceivers;
      FlagAlike(r, s, c);
    } else {
      hide AlikeReceivers;
      FlushAlike(r, s, c);
    }
  }

  lemma {:induction false} RunsAlike(r: Receiver, s: Receiver, calls: seq<Call>)
    requires AlikeReceivers(r, s)
    ensures Events(r, calls) == Events(s, calls) && AlikeReceivers(Run(r, calls), Run(s, calls))
    decreases |calls|
  {
    hide After, AlikeReceivers;
    if calls != [] {
      CallAlike(r, s, calls[0]);
      RunsAlike(After(r, calls[0]).0, After(s, calls[0]).0, calls[1..]);
    }
  }

  // ---------- flushes ----------

  /** A receiver as it comes from initialisation, but for slots that were lost and the playing flag. */
  function New(capacity: nat, held: nat, targetFrames: nat, pendingCapacity: nat, playing: bool): Receiver {
    Receiver(
      Timing(targetFrames, playing, false, 0, false, 0, 0, 0, false, Frame(0, 0, []), 0, pendingCapacity, 0, 0,
             false, 0, false, 0),
      [], held, capacity, 0, false, 0, false, false)
  }

  function NewLike(r: Receiver): Receiver {
    New(r.capacity, r.held, r.t.targetFrames, r.t.pendingCapacity, r.t.playing)
  }

  /** After a flush every run gives what it gives on a new receiver. */
  lemma {:induction false} FlushActsLikeNew(r: Receiver, calls: seq<Call>)
    ensures Events(After(r, FlushCall).0, calls) == Events(NewLike(r), calls)
    ensures Run(After(r, FlushCall).0, calls).q == Run(NewLike(r), calls).q
  {
    hide Run, Events;
    RunsAlike(After(r, FlushCall).0, NewLike(r), calls);
  }

  /** After a seek flush, what it gives on a new one that plays at once and arms its gates with the next
      anchor. */
  lemma {:induction false} SeekFlushActsLikeNew(r: Receiver, calls: seq<Call>)
    ensures var s := NewLike(r).(t := NewLike(r).t.(postFlush := true), armOnNextAnchor := true);
      && Events(After(r, SeekFlushCall).0, calls) == Events(s, calls)
      && Run(After(r, SeekFlushCall).0, calls).q == Run(s, calls).q
  {
    hide Run, Events;
    RunsAlike(After(r, SeekFlushCall).0, NewLike(r).(t := NewLike(r).t.(postFlush := true), armOnNextAnchor := true),
              calls);
  }

  /** After a timing reset, what it gives on a new one that has the buffer and the gates. */
  lemma {:induction false} ResetActsLikeNew(r: Receiver, calls: seq<Call>)
    ensures var s := r.(t := NewLike(r).t);
      && Events(After(r, ResetTiming).0, calls) == Events(s, calls)
      && Run(After(r, ResetTiming).0, calls).q == Run(s, calls).q
  {
    hide Run, Events;
    RunsAlike(After(r, ResetTiming).0, r.(t := NewLike(r).t), calls);
  }
}
