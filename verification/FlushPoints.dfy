/** Deferred flushes, and what becomes of buffer slots when the pending copy is too small. */
module FlushPoints {
  import opened MachineIntegers
  import opened Rtp
  import opened AudioBuffer
  import opened AudioTiming
  import opened AudioReceiver
  import opened PlayoutRuns
  import opened Wrappers

  // ---------- deferred flush ----------

  /** The frame was played, and it is before the armed flush point. */
  ghost predicate BeforePoint(e: Event, untilTs: Uint32) {
    e.Played? ==> TsCmp(e.f.Ts(), untilTs) < 0
  }

  /** The armed flush point stands, or it was reached and everything was thrown away. */
  ghost predicate StandsOrFired(t: Timing, t1: Timing, q1: seq<Frame>, e: Event) {
    if t1.deferred then t1.flushUntil == t.flushUntil
    else e == Flushed && q1 == [] && t1.postFlush && !t1.playoutStarted && !t1.pendingValid
  }

  lemma JudgePoint(t: Timing, f: Frame, len: nat, env: Env)
    ensures var v := Judge(t, f, len, env);
            && (v == DeferredFlush ==> t.deferred)
            && (t.deferred && v != DeferredFlush && v != Malformed ==> TsCmp(f.Ts(), t.flushUntil) < 0)
  {
    hide JudgeTime, EarlyUs, WellFormed, TsCmp;
    assert forall early :: JudgeTime(t, early, env) != DeferredFlush by {
      forall early ensures JudgeTime(t, early, env) != DeferredFlush {
        JudgeTimeNeverDefers(t, early, env);
      }
    }
  }

  lemma JudgeTimeNeverDefers(t: Timing, early: int, env: Env)
    ensures JudgeTime(t, early, env) != DeferredFlush && JudgeTime(t, early, env) != Malformed
  {
  }

  lemma SettlePoint(t: Timing, q: seq<Frame>, f: Frame, len: nat, fromPending: bool, v: Verdict)
    ensures var s := Settle(t, q, f, len, fromPending, v);
            && (v != DeferredFlush ==> s.t.deferred == t.deferred && s.t.flushUntil == t.flushUntil)
            && (v == DeferredFlush ==>
                  && !s.t.deferred && s.t.postFlush && !s.t.playoutStarted && s.q == [] && s.done == Some(Flushed)
                  && (s.t.pendingValid ==> t.pendingValid && !fromPending))
            && (s.done.Some? && s.done.value.Played? ==> s.done.value.f == f && v != DeferredFlush && v != Malformed)
  {
  }

  lemma CountPoint(t: Timing, v: Verdict, env: Env)
    ensures var c := Count(t, v, env);
            c.deferred == t.deferred && c.flushUntil == t.flushUntil && c.pendingValid == t.pendingValid
  {
  }

  lemma ActRespectsPoint(t: Timing, q: seq<Frame>, f: Frame, len: nat, fromPending: bool, env: Env)
    requires t.pendingValid ==> fromPending
    ensures var s := Act(t, q, f, len, fromPending, env);
            && (!t.deferred ==> !s.t.deferred)
            && (t.deferred ==> StandsOrFired(t, s.t, s.q, if s.done.Some? then s.done.value else Idle))
            && (t.deferred && s.done.Some? ==> BeforePoint(s.done.value, t.flushUntil))
  {
    hide Judge, Count, Settle, TsCmp;
    var v := Judge(t, f, len, env);
    JudgePoint(t, f, len, env);
    CountPoint(t, v, env);
    SettlePoint(Count(t, v, env), q, f, len, fromPending, v);
  }

  lemma {:induction false} AttemptsRespectPoint(t: Timing, q: seq<Frame>, env: Env, n: nat)
    requires t.deferred
    ensures var o := Attempts(t, q, env, n);
            StandsOrFired(t, o.t, o.q, o.event) && BeforePoint(o.event, t.flushUntil)
    decreases n
  {
    hide Act, TsCmp;
    if n > 0 {
      if t.pendingValid {
        ActRespectsPoint(t, q, t.pending, t.pendingLen, true, env);
      } else if q != [] {
        ActRespectsPoint(t, q[1..], q[0], q[0].Bytes(), false, env);
      }
      var s := Attempt(t, q, env);
      if s.done == None {
        AttemptsRespectPoint(s.t, s.q, env, n - 1);
      }
    }
  }

  /** One read while a flush is armed plays nothing at or after the flush point, and the flush stays
      armed until it fires. */
  lemma {:induction false} ReadRespectsPoint(t: Timing, q: seq<Frame>, env: Env)
    requires t.deferred
    ensures var o := Read(t, q, env);
            StandsOrFired(t, o.t, o.q, o.event) && BeforePoint(o.event, t.flushUntil)
  {
    hide Attempts, TsCmp;
    AttemptsRespectPoint(Gated(t, q, env), q, env, MAX_ATTEMPTS);
  }

  /** No call sets another flush point. */
  ghost predicate LeavesPoint(calls: seq<Call>) {
    forall c :: c in calls ==> !c.Deferred?
  }

  lemma CallLeavesDisarmed(r: Receiver, c: Call)
    requires !r.t.deferred && !c.Deferred?
    ensures !After(r, c).0.t.deferred
  {
    hide Attempts, QueueDecoded, TsCmp, Displaced;
    if c.ReadCall? {
      AttemptsLeaveDisarmed(Gated(r.t, r.q, c.env), r.q, c.env, MAX_ATTEMPTS);
    }
  }

  lemma {:induction false} AttemptsLeaveDisarmed(t: Timing, q: seq<Frame>, env: Env, n: nat)
    requires !t.deferred
    ensures !Attempts(t, q, env, n).t.deferred
    decreases n
  {
    hide Act;
    if n > 0 {
      if t.pendingValid {
        ActRespectsPoint(t, q, t.pending, t.pendingLen, true, env);
      } else if q != [] {
        ActRespectsPoint(t, q[1..], q[0], q[0].Bytes(), false, env);
      }
      var s := Attempt(t, q, env);
      if s.done == None {
        AttemptsLeaveDisarmed(s.t, s.q, env, n - 1);
      }
    }
  }

  lemma {:induction false} DisarmedStays(r: Receiver, calls: seq<Call>)
    requires !r.t.deferred && LeavesPoint(calls)
    ensures !Run(r, calls).t.deferred
    decreases |calls|
  {
    hide After;
    if calls != [] {
      CallLeavesDisarmed(r, calls[0]);
      DisarmedStays(After(r, calls[0]).0, calls[1..]);
    }
  }

  lemma CallRespectsPoint(r: Receiver, c: Call)
    requires r.t.deferred && !c.Deferred?
    ensures var (r1, e) := After(r, c);
            BeforePoint(e, r.t.flushUntil) && (r1.t.deferred ==> r1.t.flushUntil == r.t.flushUntil)
  {
    hide TsCmp, QueueDecoded, Read, Displaced;
    if c.ReadCall? {
      ReadRespectsPoint(r.t, r.q, c.env);
    }
  }

  /** Over any stretch during which a flush stays armed, no frame at or after its flush point is played. */
  lemma {:induction false} NothingPastFlushPoint(r: Receiver, calls: seq<Call>)
    requires r.t.deferred && LeavesPoint(calls) && Run(r, calls).t.deferred
    ensures forall e :: e in Events(r, calls) ==> BeforePoint(e, r.t.flushUntil)
    decreases |calls|
  {
    hide After, BeforePoint;
    if calls != [] {
      var (r1, e) := After(r, calls[0]);
      CallRespectsPoint(r, calls[0]);
      if !r1.t.deferred {
        DisarmedStays(r1, calls[1..]);
      }
      NothingPastFlushPoint(r1, calls[1..]);
    }
  }

  /** From the call that arms a flush at `untilTs`, with no other such call: while it stays armed nothing at
      or after that point is played. */
  lemma {:induction false} ArmedFlushHolds(r: Receiver, untilTs: Uint32, calls: seq<Call>)
    requires LeavesPoint(calls) && Run(r, [Deferred(untilTs)] + calls).t.deferred
    ensures forall e :: e in Events(r, [Deferred(untilTs)] + calls) ==> e.Played? ==> TsCmp(e.f.Ts(), untilTs) < 0
    ensures var r1 := After(r, Deferred(untilTs)).0; r1.q == r.q && r1 == r.(t := r1.t)
  {
    hide Run, Events;
    var all := [Deferred(untilTs)] + calls;
    var (r1, e) := After(r, all[0]);
    assert all[1..] == calls;
    RunUnfolds(r, all);
    NothingPastFlushPoint(r1, calls);
  }

  lemma RunUnfolds(r: Receiver, calls: seq<Call>)
    requires calls != []
    ensures var (r1, e) := After(r, calls[0]);
      Run(r, calls) == Run(r1, calls[1..]) && Events(r, calls) == [e] + Events(r1, calls[1..])
  {
    hide After;
  }

  // ---------- slots ----------

  /** Once every slot is out nothing is ever queued again, whatever is called, flushes included. */
  lemma {:induction false} LostPoolStaysDead(r: Receiver, calls: seq<Call>)
    requires r.held >= r.capacity && r.q == []
    ensures Run(r, calls).q == [] && Run(r, calls).held >= r.capacity
    decreases |calls|
  {
    hide After;
    if calls != [] {
      DeadStep(r, calls[0]);
      LostPoolStaysDead(After(r, calls[0]).0, calls[1..]);
    }
  }

  lemma DeadStep(r: Receiver, c: Call)
    requires r.held >= r.capacity && r.q == []
    ensures var r1 := After(r, c).0;
            r1.q == [] && r1.held >= r1.capacity == r.capacity
  {
    hide Attempts, QueuePcm, TsCmp, Displaced, Insert;
    if c.Feed? {
      NothingFits(r.capacity, r.held, c.at, EffectiveChannels(c.channels), c.pcm);
    } else if c.ReadCall? {
      EmptyStaysEmpty(Gated(r.t, r.q, c.env), c.env, MAX_ATTEMPTS);
    }
  }

  lemma NothingFits(capacity: nat, held: nat, at: int, channels: nat, pcm: seq<Sample>)
    requires held >= capacity
    ensures QueuePcm([], capacity, held, at, channels, pcm).0 == []
  {
    hide Insert;
  }

  lemma {:induction false} EmptyStaysEmpty(t: Timing, env: Env, n: nat)
    ensures Attempts(t, [], env, n).q == []
    decreases n
  {
    hide Judge;
    if n > 0 {
      var s := Attempt(t, [], env);
      assert s.q == [];
      if s.done == None {
        EmptyStaysEmpty(s.t, env, n - 1);
      }
    }
  }
}
