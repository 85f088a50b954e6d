/** Frames are played on time: what the early/late decision guarantees about the moment of playing,
    for one receiver and for two in the same group. */
module OnTimePlayout {
  import opened MachineIntegers
  import opened Rtp
  import opened AudioBuffer
  import opened AudioTiming
  import opened Wrappers

  /** Timing is in force: there is an anchor, and no seek or flush is being ridden out. */
  predicate Timed(t: Timing, env: Env) {
    t.anchorValid && env.sampleRate > 0 && !t.postFlush
  }

  /** The same anchor, still in force. */
  predicate SameAnchor(t: Timing, u: Timing) {
    && u.anchorValid == t.anchorValid && u.postFlush == t.postFlush
    && u.anchorNetworkNs == t.anchorNetworkNs && u.anchorRtp == t.anchorRtp && u.anchorLocalNs == t.anchorLocalNs
  }

  /** The frame an attempt looks at. */
  function InHand(t: Timing, q: seq<Frame>): Option<(Frame, nat)> {
    if t.pendingValid then if t.pendingLen < FRAME_HEADER_BYTES then None else Some((t.pending, t.pendingLen))
    else if q == [] then None
    else Some((q[0], q[0].Bytes()))
  }

  /** An attempt on a sound frame short of any flush point plays it exactly when it is due within
      40 ms, or when it is early and 750 frames in a row were. */
  lemma {:induction false} PlayedExactlyWhenDue(t: Timing, q: seq<Frame>, env: Env)
    requires Timed(t, env) && InHand(t, q).Some?
    requires var (f, len) := InHand(t, q).value;
      WellFormed(f, len, env) && !(t.deferred && TsCmp(f.Ts(), t.flushUntil) >= 0)
    ensures var f := InHand(t, q).value.0;
      var early := EarlyUs(t, env, f.Ts());
      Attempt(t, q, env).done == Some(Played(f)) <==>
        Due(early) || (early > TIMING_THRESHOLD_US && t.early >= MAX_CONSECUTIVE_EARLY)
  {
    hide EarlyUs, TsCmp, WellFormed;
  }

  lemma ActIsOnTime(t: Timing, q: seq<Frame>, f: Frame, len: nat, fromPending: bool, env: Env)
    requires Timed(t, env)
    ensures var s := Act(t, q, f, len, fromPending, env);
      && (s.done == None ==> SameAnchor(t, s.t))
      && (s.done.Some? && s.done.value.Played? ==>
            s.done.value.f == f && (Due(EarlyUs(t, env, f.Ts())) <==> s.t.anchorValid))
  {
    hide EarlyUs, TsCmp, WellFormed;
  }

  /** Whatever an attempt plays is due, unless it has just given up the anchor; an attempt that plays
      nothing leaves the anchor alone. */
  lemma AttemptIsOnTime(t: Timing, q: seq<Frame>, env: Env)
    requires Timed(t, env)
    ensures var s := Attempt(t, q, env);
      && (s.done == None ==> SameAnchor(t, s.t))
      && (s.done.Some? && s.done.value.Played? ==>
            (Due(EarlyUs(t, env, s.done.value.f.Ts())) <==> s.t.anchorValid))
  {
    hide Act, EarlyUs, Due;
    if t.pendingValid {
      ActIsOnTime(t, q, t.pending, t.pendingLen, true, env);
    } else if q != [] {
      ActIsOnTime(t, q[1..], q[0], q[0].Bytes(), false, env);
    }
  }

  lemma SameAnchorSameTime(t: Timing, u: Timing, env: Env, ts: Uint32)
    requires SameAnchor(t, u) && env.sampleRate > 0
    ensures EarlyUs(u, env, ts) == EarlyUs(t, env, ts)
  {
    hide TsCmp, CDiv;
  }

  lemma {:induction false} AttemptsAreOnTime(t: Timing, q: seq<Frame>, env: Env, n: nat)
    requires Timed(t, env)
    ensures var o := Attempts(t, q, env, n);
      o.event.Played? ==> (Due(EarlyUs(t, env, o.event.f.Ts())) <==> o.t.anchorValid)
    decreases n
  {
    hide Attempt, EarlyUs, Due;
    if n > 0 {
      AttemptIsOnTime(t, q, env);
      var s := Attempt(t, q, env);
      if s.done == None {
        AttemptsAreOnTime(s.t, s.q, env, n - 1);
        var o := Attempts(s.t, s.q, env, n - 1);
        if o.event.Played? {
          SameAnchorSameTime(t, s.t, env, o.event.f.Ts());
        }
      }
    }
  }

  /** With timing in force a read plays a frame only within 40 ms of its due time, except when it gives
      up the anchor with that very read. */
  lemma {:induction false} ReadIsOnTime(t: Timing, q: seq<Frame>, env: Env)
    requires Timed(t, env)
    ensures var o := Read(t, q, env);
      o.event.Played? ==> (Due(EarlyUs(t, env, o.event.f.Ts())) <==> o.t.anchorValid)
  {
    hide Attempts, EarlyUs, Due;
    AttemptsAreOnTime(t, q, env, MAX_ATTEMPTS);
  }

  /** How early a frame is: up to two divisions' rounding, the time the anchor's clock gives the frame's
      distance from the anchor, less 46 ms of hardware latency and the time now. PTP comes before NTP, and
      with neither the local time of the anchor counts. */
  lemma {:induction false} EarlyIsGap(t: Timing, env: Env, f: Frame, anchorAt: int)
    requires env.sampleRate > 0 && t.anchorRtp == Wrap32(anchorAt) && -TWO31 <= f.at - anchorAt < TWO31
    ensures var rate := env.sampleRate;
      var anchorNs := if env.ptpLocked then ToInt64(t.anchorNetworkNs) - env.ptpOffsetNs
                      else if env.ntpLocked then ToInt64(t.anchorNetworkNs) - env.ntpOffsetNs
                      else t.anchorLocalNs;
      var gap := (anchorNs - 46000000 - env.nowUs * 1000) * rate + (f.at - anchorAt) * 1000000000;
      -1001 * rate < EarlyUs(t, env, f.Ts()) * 1000 * rate - gap < 1001 * rate
  {
    hide TsCmp, CDiv, ToInt64;
    TsCmpIsDistance(f.at, anchorAt);
    var x := (f.at - anchorAt) * 1000000000;
    var y := TargetNs(t, env, f.Ts()) - env.nowUs * 1000;
    QuotientIsNear(x, env.sampleRate);
    QuotientIsNear(y, 1000);
    GapIsNear(y - CDiv(x, env.sampleRate), CDiv(x, env.sampleRate), x, CDiv(y, 1000), env.sampleRate);
  }

  lemma QuotientIsNear(x: int, n: int)
    requires n > 0
    ensures -n < CDiv(x, n) * n - x < n
  {
    var q := if x >= 0 then x / n else (-x) / n;
    assert (if x >= 0 then x else -x) == q * n + (if x >= 0 then x else -x) % n;
  }

  lemma GapIsNear(base: int, o: int, x: int, e: int, rate: int)
    requires rate > 0 && -rate < o * rate - x < rate && -1000 < e * 1000 - (base + o) < 1000
    ensures -1001 * rate < e * 1000 * rate - (base * rate + x) < 1001 * rate
  {
    var z := e * 1000 - (base + o);
    assert z * rate == e * 1000 * rate - base * rate - o * rate;
    assert -1000 * rate < z * rate < 1000 * rate;
  }

  /** A frame played with no network clock goes out, by the local clock, within 40 ms and two microseconds
      of the moment its distance from the anchor gives, counted from when the anchor was set. */
  lemma {:induction false} PlayedNearLocalAnchor(t: Timing, q: seq<Frame>, env: Env, anchorAt: int, anchorUs: int)
    requires Timed(t, env) && !env.ptpLocked && !env.ntpLocked
    requires t.anchorRtp == Wrap32(anchorAt) && t.anchorLocalNs == anchorUs * 1000
    ensures var o, rate := Read(t, q, env), env.sampleRate;
      o.event.Played? && o.t.anchorValid && -TWO31 <= o.event.f.at - anchorAt < TWO31 ==>
        -40002 * 1000 * rate < (env.nowUs - anchorUs + 46000) * 1000 * rate - (o.event.f.at - anchorAt) * 1000000000
          < 40002 * 1000 * rate
  {
    hide Read, EarlyUs, Due;
    ReadIsOnTime(t, q, env);
    var o, rate := Read(t, q, env), env.sampleRate;
    if o.event.Played? && o.t.anchorValid && -TWO31 <= o.event.f.at - anchorAt < TWO31 {
      EarlyIsGap(t, env, o.event.f, anchorAt);
      assert Due(EarlyUs(t, env, o.event.f.Ts()));
      DueMeans(EarlyUs(t, env, o.event.f.Ts()));
      WhenDue(EarlyUs(t, env, o.event.f.Ts()), env.nowUs - anchorUs, (o.event.f.at - anchorAt) * 1000000000, rate);
    }
  }

  lemma DueMeans(early: int)
    ensures Due(early) <==> -40000 <= early <= 40000
  {
  }

  lemma WhenDue(early: int, since: int, x: int, rate: int)
    requires rate > 0 && -40000 <= early <= 40000
    requires -1001 * rate < early * 1000 * rate - ((-since * 1000 - 46000000) * rate + x) < 1001 * rate
    ensures -40002 * 1000 * rate < (since + 46000) * 1000 * rate - x < 40002 * 1000 * rate
  {
    var g, e := (since + 46000) * rate, early * rate;
    assert -since * 1000 - 46000000 == (since + 46000) * -1000;
    TakeOut(since + 46000, 1000, rate);
    TakeOut(since + 46000, -1000, rate);
    TakeOut(early, 1000, rate);
    ProductsOrdered(-40000, early, rate);
    ProductsOrdered(early, 40000, rate);
    hide *;
    assert (since + 46000) * 1000 * rate == 1000 * g && early * 1000 * rate == 1000 * e;
    assert ((since + 46000) * -1000) * rate == -1000 * g;
  }

  lemma TakeOut(a: int, b: int, n: int)
    ensures a * b * n == b * (a * n)
  {
  }

  lemma ProductsOrdered(a: int, b: int, n: int)
    requires a <= b && n > 0
    ensures a * n <= b * n
  {
  }

  // ---------- rooms ----------

  /** The network time at which a frame is to be handed over, the hardware latency before the time the
      anchor gives it. */
  function NetworkTargetNs(t: Timing, env: Env, ts: Uint32): int
    requires env.sampleRate > 0
  {
    ToInt64(t.anchorNetworkNs) + CDiv(TsCmp(ts, t.anchorRtp) * 1000000000, env.sampleRate)
    - HARDWARE_OUTPUT_LATENCY_US * 1000
  }

  /** The offset the locked clock reports, PTP before NTP. */
  function ReportedOffset(env: Env): int {
    if env.ptpLocked then env.ptpOffsetNs else env.ntpOffsetNs
  }

  lemma DivisionRounds(x: int, limit: int)
    requires 0 <= limit && -limit <= CDiv(x, 1000) <= limit
    ensures -1000 * limit - 1000 < x < 1000 * limit + 1000
  {
  }

  /** A frame played by a locked receiver goes out, in network time, within 40 ms, a microsecond and
      the error of its clock of the moment the anchor gives it. `theta` is how far the network clock
      is really ahead of the local one. */
  lemma {:induction false} PlayedNearNetworkTarget(t: Timing, q: seq<Frame>, env: Env, theta: int, error: nat)
    requires Timed(t, env) && (env.ptpLocked || env.ntpLocked)
    requires -(error as int) <= ReportedOffset(env) - theta <= error
    ensures var o := Read(t, q, env);
      o.event.Played? && o.t.anchorValid ==>
        var playedNs := env.nowUs * 1000 + theta;
        -40001000 - error < playedNs - NetworkTargetNs(t, env, o.event.f.Ts()) < 40001000 + error
  {
    hide Read, CDiv, TsCmp;
    ReadIsOnTime(t, q, env);
    var o := Read(t, q, env);
    if o.event.Played? && o.t.anchorValid {
      var ts := o.event.f.Ts();
      DivisionRounds(TargetNs(t, env, ts) - env.nowUs * 1000, TIMING_THRESHOLD_US);
      assert TargetNs(t, env, ts) == NetworkTargetNs(t, env, ts) - ReportedOffset(env);
    }
  }

  /** Two receivers with the same anchor and format play the same timestamp within 80 ms, two
      microseconds and their clock errors of each other. */
  lemma {:induction false} RoomsPlayTogether(t1: Timing, q1: seq<Frame>, env1: Env, theta1: int, error1: nat,
                                             t2: Timing, q2: seq<Frame>, env2: Env, theta2: int, error2: nat)
    requires Timed(t1, env1) && (env1.ptpLocked || env1.ntpLocked)
    requires Timed(t2, env2) && (env2.ptpLocked || env2.ntpLocked)
    requires -(error1 as int) <= ReportedOffset(env1) - theta1 <= error1
    requires -(error2 as int) <= ReportedOffset(env2) - theta2 <= error2
    requires t1.anchorNetworkNs == t2.anchorNetworkNs && t1.anchorRtp == t2.anchorRtp
    requires env1.sampleRate == env2.sampleRate
    ensures var o1, o2 := Read(t1, q1, env1), Read(t2, q2, env2);
      o1.event.Played? && o2.event.Played? && o1.event.f.Ts() == o2.event.f.Ts() &&
      o1.t.anchorValid && o2.t.anchorValid ==>
        var apart := (env1.nowUs * 1000 + theta1) - (env2.nowUs * 1000 + theta2);
        -80002000 - error1 - error2 < apart < 80002000 + error1 + error2
  {
    hide Read, CDiv, TsCmp, ToInt64;
    PlayedNearNetworkTarget(t1, q1, env1, theta1, error1);
    PlayedNearNetworkTarget(t2, q2, env2, theta2, error2);
  }
}
