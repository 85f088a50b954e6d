/** After a seek: which frames the RTP window gates let in, and what a new anchor leaves buffered. */
module SeekGates {
  import opened MachineIntegers
  import opened Rtp
  import opened AudioBuffer
  import opened ArrivalOrder
  import opened AudioTiming
  import opened AudioReceiver
  import opened PlayoutRuns

  // ---------- the next anchor after a seek flush arms the window ----------

  ghost predicate NoAnchorNoFlush(calls: seq<Call>) {
    forall c :: c in calls ==> !c.Anchor? && !c.FlushCall?
  }

  lemma {:induction false} ArmRequestStands(r: Receiver, calls: seq<Call>)
    requires r.armOnNextAnchor && NoAnchorNoFlush(calls)
    ensures Run(r, calls).armOnNextAnchor
    decreases |calls|
  {
    hide TsCmp, QueueDecoded, Read;
    if calls != [] {
      ArmRequestStands(After(r, calls[0]).0, calls[1..]);
    }
  }

  ghost predicate WindowArmed(r: Receiver, rtp: Uint32, window: int) {
    r.beforeValid && r.before == rtp && r.aboveValid && r.above == Wrap32(rtp + window)
  }

  /** Whatever is fed, read or paused in between, the first anchor after a seek flush arms the window
      from the anchor to ten seconds after it. */
  lemma SeekFlushArmsNextAnchor(r: Receiver, calls: seq<Call>, nowUs: int, networkNs: Uint64, rtp: Uint32,
                                sampleRate: int)
    requires NoAnchorNoFlush(calls)
    ensures var r1 := SetAnchorTime(Run(SeekFlush(r), calls), nowUs, networkNs, rtp, sampleRate);
            WindowArmed(r1, rtp, 10 * EffectiveRate(sampleRate)) && !r1.armOnNextAnchor
  {
    hide TsCmp;
    ArmRequestStands(SeekFlush(r), calls);
  }

  // ---------- what the buffer holds after an anchor ----------

  ghost predicate Near(q: seq<Frame>, rtp: Uint32, distance: int) {
    |q| == 0 || -distance <= TsCmp(q[0].Ts(), rtp) <= distance
  }

  /** After an anchor the buffer is empty or its oldest frame is within five seconds of it, except in
      exactly one case: the oldest frame is exactly half the timestamp range away, where the absolute
      value of the difference does not fit 32 bits. */
  lemma {:induction false} OldestIsNearAnchor(r: Receiver, nowUs: int, networkNs: Uint64, rtp: Uint32, sampleRate: int)
    requires 0 < 5 * EffectiveRate(sampleRate) < TWO31
    ensures Near(SetAnchorTime(r, nowUs, networkNs, rtp, sampleRate).q, rtp, 5 * EffectiveRate(sampleRate))
       <==> !(|r.q| > 0 && TsCmp(r.q[0].Ts(), rtp) == -0x8000_0000)
  {
    if |r.q| > 0 {
      ToInt32Range(Wrap32(r.q[0].Ts() - rtp));
    }
    hide TsCmp;
  }

  /** The timing state once an anchor has been noted. */
  function NewAnchor(t: Timing, nowUs: int, networkNs: Uint64, rtp: Uint32): Timing {
    t.(anchorValid := true, anchorRtp := rtp, anchorNetworkNs := networkNs, anchorLocalNs := nowUs * 1000,
       early := 0, late := 0)
  }

  /** An anchor whose position the buffer's oldest frame is within five seconds of, on either side, or 2^31
      samples from, or that finds nothing buffered, throws nothing away: frames, the parked one included,
      the start and, unless a seek flush asked for it, the gates are as before. Any other empties the
      buffer, starts playout over and lets in ten seconds from its position only. */
  lemma {:induction false} AnchorKeepsExactly(r: Receiver, nowUs: int, networkNs: Uint64, rtp: Uint32, sampleRate: int)
    ensures var rate := if sampleRate <= 0 then 44100 else sampleRate;
      var away := if r.q == [] then 0 else TsCmp(r.q[0].Ts(), rtp);
      var near := -5 * rate <= away <= 5 * rate || away == -0x8000_0000;
      var r1 := SetAnchorTime(r, nowUs, networkNs, rtp, sampleRate);
      && (near ==> r1.q == r.q && r1.t == NewAnchor(r.t, nowUs, networkNs, rtp))
      && (!near ==> r1.q == [] && r1.t == NewAnchor(r.t, nowUs, networkNs, rtp).(
            pendingValid := false, pendingLen := 0, playoutStarted := false, readyTimeUs := 0))
      && (near && !r.armOnNextAnchor ==>
            r1 == r.(t := r1.t))
      && (!near || r.armOnNextAnchor ==> WindowArmed(r1, rtp, 10 * rate) && !r1.armOnNextAnchor)
      && r1.held == r.held && r1.capacity == r.capacity
  {
    hide TsCmp;
  }

  lemma ToInt32Range(x: Uint32)
    ensures -0x8000_0000 <= ToInt32(x) < 0x8000_0000
  {
  }

  /** The exceptional case happens: a buffer whose oldest frame is 2^31 samples from the new anchor
      survives the seek check. */
  lemma HalfRangeSeekIsMissed(r: Receiver, f: Frame)
    requires r.q == [f] && f.at == 0x8000_0000
    ensures SetAnchorTime(r, 0, 0, 0, 44100).q == [f]
  {
  }

  // ---------- the gates ----------

  datatype Side = Below | Inside | Above

  /** Where a timestamp lies relative to the window [rtp, rtp + window], by signed 32-bit distance. */
  function SideOf(ts: Uint32, rtp: Uint32, window: int): Side {
    if TsCmp(ts, rtp) < 0 then Below
    else if TsCmp(ts, Wrap32(rtp + window)) > 0 then Above
    else Inside
  }

  function GateAll(r: Receiver, stamps: seq<Uint32>): (Receiver, seq<bool>)
    decreases |stamps|
  {
    if stamps == [] then (r, [])
    else
      var (r1, pass) := Gate(r, stamps[0]);
      var (r2, rest) := GateAll(r1, stamps[1..]);
      (r2, [pass] + rest)
  }

  ghost predicate AllStale(stamps: seq<Uint32>, rtp: Uint32, window: int) {
    forall i :: 0 <= i < |stamps| ==> SideOf(stamps[i], rtp, window) != Inside
  }

  ghost predicate NonePass(verdicts: seq<bool>) {
    forall i :: 0 <= i < |verdicts| ==> !verdicts[i]
  }

  /** No frame from below the window comes after one from above it. (A frame so far below that its
      distance to the upper bound wraps counts as above that bound.) */
  ghost predicate SidesInOrder(stamps: seq<Uint32>, rtp: Uint32, window: int) {
    forall i, j :: 0 <= i < j < |stamps| && SideOf(stamps[i], rtp, window) == Above ==>
      TsCmp(stamps[j], Wrap32(rtp + window)) > 0
  }

  /** Once the lower gate is gone only the upper bound is checked. */
  lemma {:induction false} UpperGateOnly(r: Receiver, stamps: seq<Uint32>)
    requires !r.beforeValid && r.aboveValid
    ensures NonePass(GateAll(r, stamps).1) <==> forall i :: 0 <= i < |stamps| ==> TsCmp(stamps[i], r.above) > 0
    ensures NonePass(GateAll(r, stamps).1) ==> GateAll(r, stamps).0 == r
    decreases |stamps|
  {
    hide TsCmp;
    if stamps != [] {
      var (r1, pass) := Gate(r, stamps[0]);
      var rest := GateAll(r1, stamps[1..]).1;
      assert GateAll(r, stamps).1 == [pass] + rest;
      assert NonePass([pass] + rest) <==> !pass && NonePass(rest) by { NonePassCons(pass, rest); }
      assert forall i :: 0 <= i < |stamps| - 1 ==> stamps[1..][i] == stamps[i + 1];
      if !pass {
        UpperGateOnly(r1, stamps[1..]);
        assert forall i :: 0 < i < |stamps| ==> stamps[i] == stamps[1..][i - 1];
      }
    }
  }

  lemma NonePassCons(pass: bool, rest: seq<bool>)
    ensures NonePass([pass] + rest) <==> !pass && NonePass(rest)
  {
    if NonePass([pass] + rest) {
      assert ([pass] + rest)[0] == pass;
      assert forall i :: 0 <= i < |rest| ==> rest[i] == ([pass] + rest)[i + 1];
    }
  }

  lemma {:induction false} SidesInOrderTail(stamps: seq<Uint32>, rtp: Uint32, window: int)
    requires stamps != []
    ensures SidesInOrder(stamps, rtp, window) <==>
            SidesInOrder(stamps[1..], rtp, window) &&
            (SideOf(stamps[0], rtp, window) == Above ==>
               forall i :: 0 <= i < |stamps[1..]| ==> TsCmp(stamps[1..][i], Wrap32(rtp + window)) > 0)
  {
    hide TsCmp, SideOf;
    var tail := stamps[1..];
    assert forall i :: 0 <= i < |tail| ==> tail[i] == stamps[i + 1];
    assert forall i :: 0 < i < |stamps| ==> stamps[i] == tail[i - 1];
  }

  /** From a freshly armed window, a feed of stale frames is rejected to the last one exactly when its
      sides come in order; the upper gate is then still armed. */
  lemma {:induction false} StaleFeedRejected(r: Receiver, stamps: seq<Uint32>, rtp: Uint32, window: int)
    requires WindowArmed(r, rtp, window) && AllStale(stamps, rtp, window)
    ensures NonePass(GateAll(r, stamps).1) <==> SidesInOrder(stamps, rtp, window)
    ensures NonePass(GateAll(r, stamps).1) ==>
              var r1 := GateAll(r, stamps).0;
              (r1 == r || r1 == r.(beforeValid := false))
    decreases |stamps|
  {
    hide TsCmp;
    if stamps != [] {
      var (r1, pass) := Gate(r, stamps[0]);
      var rest := GateAll(r1, stamps[1..]).1;
      assert SideOf(stamps[0], rtp, window) != Inside;
      assert !pass;
      assert GateAll(r, stamps).1 == [pass] + rest;
      NonePassCons(pass, rest);
      SidesInOrderTail(stamps, rtp, window);
      assert AllStale(stamps[1..], rtp, window);
      if SideOf(stamps[0], rtp, window) == Below {
        StaleFeedRejected(r, stamps[1..], rtp, window);
      } else {
        UpperGateOnly(r1, stamps[1..]);
      }
    }
  }

  lemma OneSideIsInOrder(stamps: seq<Uint32>, rtp: Uint32, window: int, side: Side)
    requires side != Inside && forall i :: 0 <= i < |stamps| ==> SideOf(stamps[i], rtp, window) == side
    ensures AllStale(stamps, rtp, window) && SidesInOrder(stamps, rtp, window)
  {
    hide TsCmp;
    if side == Above {
      forall j | 0 <= j < |stamps| ensures TsCmp(stamps[j], Wrap32(rtp + window)) > 0 {
        assert SideOf(stamps[j], rtp, window) == Above;
      }
    }
  }

  lemma FreshFrameDisarms(r: Receiver, r1: Receiver, next: Uint32, rtp: Uint32, window: int)
    requires WindowArmed(r, rtp, window) && (r1 == r || r1 == r.(beforeValid := false))
    requires SideOf(next, rtp, window) == Inside
    ensures Gate(r1, next) == (r.(beforeValid := false, aboveValid := false), true)
  {
    hide TsCmp;
  }

  /** Stale frames all on one side of the window are all rejected, and the next frame inside the
      window is let in and disarms both gates. */
  lemma {:induction false} OneSidedStalePrefix(r: Receiver, stamps: seq<Uint32>, next: Uint32, rtp: Uint32,
                                               window: int, side: Side)
    requires WindowArmed(r, rtp, window) && side != Inside
    requires forall i :: 0 <= i < |stamps| ==> SideOf(stamps[i], rtp, window) == side
    requires SideOf(next, rtp, window) == Inside
    ensures NonePass(GateAll(r, stamps).1)
    ensures Gate(GateAll(r, stamps).0, next) == (r.(beforeValid := false, aboveValid := false), true)
  {
    hide WindowArmed, SideOf, AllStale, SidesInOrder, NonePass, GateAll, Gate;
    OneSideIsInOrder(stamps, rtp, window, side);
    StaleFeedRejected(r, stamps, rtp, window);
    FreshFrameDisarms(r, GateAll(r, stamps).0, next, rtp, window);
  }

  /** Mixed sides do let a stale frame in: one from above, then one from below. */
  lemma MixedSidesLeak(r: Receiver)
    requires WindowArmed(r, 1000000, 441000)
    ensures SideOf(2000000, 1000000, 441000) == Above && SideOf(500000, 1000000, 441000) == Below
    ensures GateAll(r, [2000000, 500000]).1 == [false, true]
  {
    var (r1, p1) := Gate(r, 2000000);
    var (r2, p2) := Gate(r1, 500000);
    assert [2000000, 500000][1..] == [500000];
    assert [500000][1..] == [] && [p2] + [] == [p2] && GateAll(r2, []) == (r2, []);
    assert GateAll(r1, [500000]) == (r2, [p2]);
  }

  // ---------- the whole seek ----------

  function FeedAll(r: Receiver, ps: seq<Packet>): Receiver
    decreases |ps|
  {
    if ps == [] then r else FeedAll(ProcessFrame(r, ps[0].at, ps[0].channels, ps[0].pcm).0, ps[1..])
  }

  function Stamps(ps: seq<Packet>): (s: seq<Uint32>)
    ensures |s| == |ps|
  {
    seq(|ps|, i requires 0 <= i < |ps| => Wrap32(ps[i].at))
  }

  lemma {:induction false} RejectedFeedQueuesNothing(r: Receiver, ps: seq<Packet>)
    requires NonePass(GateAll(r, Stamps(ps)).1)
    ensures FeedAll(r, ps) == GateAll(r, Stamps(ps)).0
    ensures FeedAll(r, ps).q == r.q
    decreases |ps|
  {
    hide TsCmp, QueueDecoded;
    if ps != [] {
      assert Stamps(ps)[1..] == Stamps(ps[1..]);
      var (r1, pass) := Gate(r, Wrap32(ps[0].at));
      assert GateAll(r, Stamps(ps)).1 == [pass] + GateAll(r1, Stamps(ps[1..])).1;
      NonePassCons(pass, GateAll(r1, Stamps(ps[1..])).1);
      RejectedFeedQueuesNothing(r1, ps[1..]);
    }
  }

  /** A seek: flush, anything but an anchor or another flush, a new anchor, then stale packets from one
      side of the window and a fresh one inside it. Exactly the stale packets are kept out. */
  lemma {:induction false} SeekKeepsStaleOut(r: Receiver, calls: seq<Call>, nowUs: int, networkNs: Uint64, rtp: Uint32,
                                             sampleRate: int, stale: seq<Packet>, good: Packet, side: Side)
    requires NoAnchorNoFlush(calls) && side != Inside
    requires var window := 10 * EffectiveRate(sampleRate);
             && (forall i :: 0 <= i < |stale| ==> SideOf(Wrap32(stale[i].at), rtp, window) == side)
             && SideOf(Wrap32(good.at), rtp, window) == Inside
    ensures var r1 := SetAnchorTime(Run(SeekFlush(r), calls), nowUs, networkNs, rtp, sampleRate);
            && FeedAll(r1, stale).q == r1.q
            && (ProcessFrame(FeedAll(r1, stale), good.at, good.channels, good.pcm).0.q
                == QueueDecoded(r1.q, r1.capacity, r1.held, good.at, good.channels, good.pcm).0)
  {
    hide TsCmp, QueuePcm, Run, SetAnchorTime;
    var window := 10 * EffectiveRate(sampleRate);
    SeekFlushArmsNextAnchor(r, calls, nowUs, networkNs, rtp, sampleRate);
    var r1 := SetAnchorTime(Run(SeekFlush(r), calls), nowUs, networkNs, rtp, sampleRate);
    OneSidedStalePrefix(r1, Stamps(stale), Wrap32(good.at), rtp, window, side);
    RejectedFeedQueuesNothing(r1, stale);
    StaleFeedRejected(r1, Stamps(stale), rtp, window);
  }
}
