/** No endless silence: with no new anchor and no reset the scheduler can return early-frame silence
    only a bounded number of times before it plays, flushes or forgets the anchor. */
module SilenceBudget {
  import opened Rtp
  import opened AudioBuffer
  import opened AudioTiming
  import opened AudioReceiver
  import opened PlayoutRuns
  import opened Wrappers

  /** How many more silent reads the two counters allow: every early frame spends one; a late drop
      starts a new run of early frames, and there are only so many late drops. */
  function Budget(t: Timing): int {
    (MAX_CONSECUTIVE_LATE - t.late) * MAX_CONSECUTIVE_EARLY + (MAX_CONSECUTIVE_EARLY - t.early)
  }

  ghost predicate CountersInRange(t: Timing) {
    t.early <= MAX_CONSECUTIVE_EARLY && t.late <= MAX_CONSECUTIVE_LATE
  }

  /** Silence spends at least one, and nothing but playing or flushing gives budget back. */
  ghost predicate Spends(t: Timing, t1: Timing, event: Event) {
    && CountersInRange(t1)
    && (event == Silence ==> Budget(t1) <= Budget(t) - 1)
    && (event == Idle ==> Budget(t1) <= Budget(t))
  }

  lemma JudgeBounds(t: Timing, f: Frame, len: nat, env: Env)
    requires CountersInRange(t)
    ensures var v := Judge(t, f, len, env);
            (v == Hold ==> t.early < MAX_CONSECUTIVE_EARLY) && (v == DropLate ==> t.late < MAX_CONSECUTIVE_LATE)
  {
    hide EarlyUs, WellFormed, TsCmp;
  }

  lemma SettleCounters(t: Timing, q: seq<Frame>, f: Frame, len: nat, fromPending: bool, v: Verdict)
    ensures var s := Settle(t, q, f, len, fromPending, v);
            && (s.done == None <==> v == Malformed || v == DropLate)
            && (s.done == Some(Silence) <==> v == Hold)
            && s.done != Some(Idle)
            && (if s.done == None || v == Hold then s.t.early == t.early && s.t.late == t.late
                else s.t.early == 0 && s.t.late == 0)
  {
  }

  lemma CountCounters(t: Timing, v: Verdict, env: Env)
    ensures var c := Count(t, v, env);
            && (v == Hold ==> c.early == t.early + 1 && c.late == t.late)
            && (v == DropLate ==> c.early == 0 && c.late == t.late + 1)
            && (v == Malformed ==> c == t)
  {
  }

  lemma ActSpends(t: Timing, q: seq<Frame>, f: Frame, len: nat, fromPending: bool, env: Env)
    requires CountersInRange(t)
    ensures var s := Act(t, q, f, len, fromPending, env);
            Spends(t, s.t, if s.done.Some? then s.done.value else Idle)
  {
    hide Judge, Settle, Count;
    var v := Judge(t, f, len, env);
    JudgeBounds(t, f, len, env);
    CountCounters(t, v, env);
    SettleCounters(Count(t, v, env), q, f, len, fromPending, v);
  }

  lemma {:induction false} AttemptsSpend(t: Timing, q: seq<Frame>, env: Env, n: nat)
    requires CountersInRange(t)
    ensures var o := Attempts(t, q, env, n);
            Spends(t, o.t, o.event)
    decreases n
  {
    hide Act;
    if n > 0 {
      var s := Attempt(t, q, env);
      if t.pendingValid {
        ActSpends(t, q, t.pending, t.pendingLen, true, env);
      } else if q != [] {
        ActSpends(t, q[1..], q[0], q[0].Bytes(), false, env);
      }
      if s.done == None {
        AttemptsSpend(s.t, s.q, env, n - 1);
      }
    }
  }

  lemma {:induction false} ReadSpends(t: Timing, q: seq<Frame>, env: Env)
    requires CountersInRange(t)
    ensures var o := Read(t, q, env);
            Spends(t, o.t, o.event)
  {
    hide Attempts;
    AttemptsSpend(Gated(t, q, env), q, env, MAX_ATTEMPTS);
  }

  // ---------- runs ----------

  lemma {:induction false} CallSpends(r: Receiver, c: Call)
    requires CountersInRange(r.t)
    ensures var (r1, e) := After(r, c);
            CountersInRange(r1.t) &&
            (!(c.Anchor? || c.ResetTiming? || c.FlushCall? || c.SeekFlushCall?) ==> Spends(r.t, r1.t, e))
  {
    hide Read, QueueDecoded, TsCmp, Displaced;
    if c.ReadCall? {
      ReadSpends(r.t, r.q, c.env);
    }
  }

  /** The counters stay in range over every run. */
  lemma {:induction false} CountersStayInRange(r: Receiver, calls: seq<Call>)
    requires CountersInRange(r.t)
    ensures CountersInRange(Run(r, calls).t)
    decreases |calls|
  {
    hide After;
    if calls != [] {
      CallSpends(r, calls[0]);
      CountersStayInRange(After(r, calls[0]).0, calls[1..]);
    }
  }

  function Silences(events: seq<Event>): nat
    decreases |events|
  {
    if events == [] then 0 else (if events[0] == Silence then 1 else 0) + Silences(events[1..])
  }

  /** No call of the run set an anchor or reset the timeline. */
  ghost predicate Undisturbed(calls: seq<Call>) {
    forall c :: c in calls ==> !(c.Anchor? || c.ResetTiming? || c.FlushCall? || c.SeekFlushCall?)
  }

  /** No read of the run played or flushed; giving up the anchor plays. */
  ghost predicate Starved(events: seq<Event>) {
    forall e :: e in events ==> e == Idle || e == Silence
  }

  lemma {:induction false} SilencesWithinBudget(r: Receiver, calls: seq<Call>)
    requires CountersInRange(r.t) && Undisturbed(calls) && Starved(Events(r, calls))
    ensures Silences(Events(r, calls)) <= Budget(r.t)
    decreases |calls|
  {
    hide After;
    if calls != [] {
      var (r1, e) := After(r, calls[0]);
      var rest := Events(r1, calls[1..]);
      assert Events(r, calls) == [e] + rest;
      assert forall x :: x in [e] + rest <==> x == e || x in rest;
      assert Events(r, calls)[0] == e && Events(r, calls)[1..] == rest && e in Events(r, calls);
      CallSpends(r, calls[0]);
      SilencesWithinBudget(r1, calls[1..]);
    }
  }

  /** After any history, a starved stretch with no new anchor and no reset holds at most 17 runs of
      750 silent reads, however long it is. */
  lemma NoEndlessSilence(r: Receiver, history: seq<Call>, calls: seq<Call>)
    requires Initial(r)
    requires Undisturbed(calls) && Starved(Events(Run(r, history), calls))
    ensures Silences(Events(Run(r, history), calls)) <= 17 * 750
  {
    CountersStayInRange(r, history);
    SilencesWithinBudget(Run(r, history), calls);
  }
}
